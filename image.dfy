/** The public id under which an uploaded image is stored at the image host,
    derived from the image's delivery URL when a post or a profile picture is
    replaced or deleted (`deleteImageFromCloudinary`). The `destroy` call to
    the image host itself is not part of this model. */
module Images {
  import opened Base

  /** The second-to-last `/`-separated segment of the URL; when the URL has no
      `/` at all, indexing at -1 gives `undefined`, which the template literal
      turns into the text "undefined". */
  function Folder(url: string): (folder: string)
    ensures '/' !in folder
  {
    var parts := Split(url, '/');
    SplitPiecesHaveNoSeparator(url, '/');
    if |parts| >= 2 then parts[|parts| - 2] else "undefined"
  }

  /** The last segment of the URL up to its first `.`. */
  function ImageFile(url: string): (file: string)
    ensures '/' !in file && '.' !in file
  {
    var parts := Split(url, '/');
    var last := parts[|parts| - 1];
    SplitPiecesHaveNoSeparator(url, '/');
    SplitPiecesAvoid(last, '.', '/');
    SplitPiecesHaveNoSeparator(last, '.');
    Split(last, '.')[0]
  }

  function PublicId(url: string): string {
    Folder(url) + "/" + ImageFile(url)
  }

  /** A public id always names exactly one folder and one file. */
  lemma PublicIdParts(url: string)
    ensures Split(PublicId(url), '/') == [Folder(url), ImageFile(url)]
  {
    SplitAtSeparator(Folder(url), ImageFile(url), '/');
    SplitWithoutSeparator(Folder(url), '/');
    SplitWithoutSeparator(ImageFile(url), '/');
  }

  /** The folder is the segment just before the last `/`, and the file is the
      last segment with its extension dropped. */
  lemma PublicIdOfPath(prefix: string, folder: string, name: string, ext: string)
    requires '/' !in folder && '/' !in name && '.' !in name && '/' !in ext
    ensures Folder(prefix + "/" + folder + "/" + name + "." + ext) == folder
    ensures ImageFile(prefix + "/" + folder + "/" + name + "." + ext) == name
    ensures PublicId(prefix + "/" + folder + "/" + name + "." + ext) == folder + "/" + name
  {
    var file := name + "." + ext;
    assert '/' !in file;
    var url := prefix + "/" + folder + "/" + name + "." + ext;
    assert url == prefix + ['/'] + (folder + ['/'] + file);
    SplitAtSeparator(prefix, folder + ['/'] + file, '/');
    SplitAtSeparator(folder, file, '/');
    SplitWithoutSeparator(folder, '/');
    SplitWithoutSeparator(file, '/');
    var parts := Split(url, '/');
    assert parts == Split(prefix, '/') + [folder] + [file];
    assert file == name + ['.'] + ext;
    SplitAtSeparator(name, ext, '.');
    SplitWithoutSeparator(name, '.');
  }

  /** An image uploaded into the `linkedin` folder is deleted under the id
      `linkedin/<name>`, whatever the host part of its URL. */
  lemma PublicIdOfUpload(prefix: string, name: string, ext: string)
    requires '/' !in name && '.' !in name && '/' !in ext
    ensures PublicId(prefix + "/linkedin/" + name + "." + ext) == "linkedin/" + name
  {
    PublicIdOfPath(prefix, "linkedin", name, ext);
    assert prefix + "/linkedin/" + name + "." + ext == prefix + "/" + "linkedin" + "/" + name + "." + ext;
  }

  /** A last segment without `.` is kept whole. */
  lemma ImageFileWithoutExtension(prefix: string, file: string)
    requires '/' !in file && '.' !in file
    ensures ImageFile(prefix + "/" + file) == file
  {
    assert prefix + "/" + file == prefix + ['/'] + file;
    SplitAtSeparator(prefix, file, '/');
    SplitWithoutSeparator(file, '/');
    SplitWithoutSeparator(file, '.');
  }

  /** A URL without `/` yields the folder text "undefined". */
  lemma PublicIdWithoutSlash(url: string)
    requires '/' !in url
    ensures PublicId(url) == "undefined/" + ImageFile(url)
  {
    SplitWithoutSeparator(url, '/');
  }
}

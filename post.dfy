/** The post controller: likes, comments, creating and deleting posts, and the
    feed that merges three queries into one list without duplicates.

    Handlers that change the database take the authenticated caller, which
    exists in the users collection. Image uploads and deletions at the image
    host are external calls whose outcome is a parameter. */
module Posts {
  import opened Base
  import opened Tables
  import opened Store
  import Images

  const PostNotFound := "Post not found"
  const PostLiked := "Post liked successfully"
  const CommentEmpty := "Comment cannot be empty"
  const CommentFailed := "Failed to create comment"
  const ContentRequired := "Content is required"
  const PostCreated := "Post created successfully"
  const CreateFailed := "Failed to create post"
  const NotPostAuthor := "You are not authorized to delete this post"
  const PostDeleted := "Post deleted successfully"
  const DeleteFailed := "Failed to delete post"

  // -- LIKE POST --

  /** Liking is a toggle: a user who already likes the post is pulled from
      `likes` (every occurrence), anybody else is appended. */
  function ToggleLike(likes: seq<Id>, u: Id): (r: seq<Id>)
    ensures u in r <==> u !in likes
    ensures forall y :: y != u ==> (y in r <==> y in likes)
    ensures u !in likes ==> r == likes + [u]
    ensures NoDup(likes) ==> NoDup(r)
    ensures NoDup(likes) ==> |r| == if u in likes then |likes| - 1 else |likes| + 1
  {
    if u in likes then RemoveAll(likes, u)
    else
      assert NoDup(likes) ==> NoDup(likes + [u]);
      likes + [u]
  }

  /** Liking and then unliking gives back the original likes. */
  lemma ToggleTwiceRestores(likes: seq<Id>, u: Id)
    requires u !in likes
    ensures ToggleLike(ToggleLike(likes, u), u) == likes
  {
    RemoveAllAppended(likes, u);
  }

  /** Unliking and liking again keeps the same set of likers (the caller moves
      to the end of the list). */
  lemma ToggleTwiceKeepsLikers(likes: seq<Id>, u: Id)
    requires NoDup(likes) && u in likes
    ensures ToggleLike(ToggleLike(likes, u), u) == RemoveAll(likes, u) + [u]
    ensures forall y :: y in ToggleLike(ToggleLike(likes, u), u) <==> y in likes
    ensures |ToggleLike(ToggleLike(likes, u), u)| == |likes|
  {
  }

  method LikePost(db: Db, caller: Id, postId: Id) returns (reply: Reply)
    requires db.Valid() && caller in db.users.rows
    modifies db
    ensures db.Valid()
    ensures postId !in old(db.posts.rows) ==> reply == Reply(404, PostNotFound) && unchanged(db)
    ensures postId in old(db.posts.rows) ==>
      var p := old(db.posts.rows[postId]);
      && reply == Reply(200, PostLiked)
      && db.posts == Update(old(db.posts), postId, p.(likes := ToggleLike(p.likes, caller)))
      && db.users == old(db.users) && db.requests == old(db.requests)
      && (caller !in p.likes && p.author != caller ==>
            && db.notifications == Insert(old(db.notifications), old(db.nextId),
                 Notification(p.author, Like, caller, Some(postId), false))
            && db.nextId == old(db.nextId) + 1)
      && (caller in p.likes || p.author == caller ==>
            db.notifications == old(db.notifications) && db.nextId == old(db.nextId))
  {
    if postId !in db.posts.rows {
      return Reply(404, PostNotFound);
    }
    var p := db.posts.rows[postId];
    var p' := p.(likes := ToggleLike(p.likes, caller));
    var notifications, next := db.notifications, db.nextId;
    UpdatePostKeepsStoreOk(db.users, db.requests, notifications, db.posts, next, postId, p');
    var posts' := Update(db.posts, postId, p');
    if caller !in p.likes && p.author != caller {
      var note := Notification(p.author, Like, caller, Some(postId), false);
      InsertNotificationKeepsStoreOk(db.users, db.requests, notifications, posts', next, note);
      notifications, next := Insert(notifications, next, note), next + 1;
    }
    db.Commit(db.users, db.requests, notifications, posts', next);
    reply := Reply(200, PostLiked);
  }

  // -- CREATE COMMENT --

  /** A comment is accepted only when its content is a string; `trim` of any
      other value throws and ends in the 500 reply. The success reply carries
      the updated post instead of a message. */
  method CreateComment(db: Db, caller: Id, postId: Id, content: JsValue) returns (reply: Reply)
    requires db.Valid() && caller in db.users.rows
    modifies db
    ensures db.Valid()
    ensures !content.Str? ==> reply == Reply(500, CommentFailed) && unchanged(db)
    ensures content.Str? && IsBlank(content.s) ==> reply == Reply(400, CommentEmpty) && unchanged(db)
    ensures content.Str? && !IsBlank(content.s) && postId !in old(db.posts.rows) ==>
      reply == Reply(500, CommentFailed) && unchanged(db)
    ensures (content.Str? && !IsBlank(content.s) && postId in old(db.posts.rows)) ==>
      var p := old(db.posts.rows[postId]);
      && reply == Reply(201, "")
      && db.posts == Update(old(db.posts), postId, p.(comments := p.comments + [PostComment(caller, content.s)]))
      && db.users == old(db.users) && db.requests == old(db.requests)
      && (p.author != caller ==>
            && db.notifications == Insert(old(db.notifications), old(db.nextId),
                 Notification(p.author, Comment, caller, Some(postId), false))
            && db.nextId == old(db.nextId) + 1)
      && (p.author == caller ==>
            db.notifications == old(db.notifications) && db.nextId == old(db.nextId))
  {
    if !content.Str? {
      return Reply(500, CommentFailed);
    }
    TrimEmptyIffBlank(content.s);
    if Trim(content.s) == "" {
      return Reply(400, CommentEmpty);
    }
    // `findByIdAndUpdate` yields null for a missing post and reading its
    // author then throws
    if postId !in db.posts.rows {
      return Reply(500, CommentFailed);
    }
    var p := db.posts.rows[postId];
    var p' := p.(comments := p.comments + [PostComment(caller, content.s)]);
    var notifications, next := db.notifications, db.nextId;
    UpdatePostKeepsStoreOk(db.users, db.requests, notifications, db.posts, next, postId, p');
    var posts' := Update(db.posts, postId, p');
    if p.author != caller {
      var note := Notification(p.author, Comment, caller, Some(postId), false);
      InsertNotificationKeepsStoreOk(db.users, db.requests, notifications, posts', next, note);
      notifications, next := Insert(notifications, next, note), next + 1;
    }
    db.Commit(db.users, db.requests, notifications, posts', next);
    reply := Reply(201, "");
  }

  // -- CREATE POST --

  /** `body` is the JSON request body; `upload` is the outcome of uploading
      `body.image` to the image host: the URL it was stored under, or None
      when the upload failed. */
  method CreatePost(db: Db, caller: Id, body: map<string, JsValue>, upload: Option<string>)
    returns (reply: Reply)
    requires db.Valid() && caller in db.users.rows
    modifies db
    ensures db.Valid()
    ensures !Field(body, "content").Str? ==> reply == Reply(500, CreateFailed) && unchanged(db)
    ensures Field(body, "content").Str? && IsBlank(Field(body, "content").s) ==>
      reply == Reply(400, ContentRequired) && unchanged(db)
    ensures (Field(body, "content").Str? && !IsBlank(Field(body, "content").s)
             && Truthy(Field(body, "image")) && upload.None?) ==>
      reply == Reply(500, CreateFailed) && unchanged(db)
    ensures (Field(body, "content").Str? && !IsBlank(Field(body, "content").s)
             && (Truthy(Field(body, "image")) ==> upload.Some?)) ==>
      var image := if Truthy(Field(body, "image")) then upload.value else "";
      && reply == Reply(201, PostCreated)
      && db.posts == Insert(old(db.posts), old(db.nextId), Post(caller, Field(body, "content").s, image, [], []))
      && db.nextId == old(db.nextId) + 1
      && db.users == old(db.users) && db.requests == old(db.requests)
      && db.notifications == old(db.notifications)
  {
    var content := Field(body, "content");
    if !content.Str? {
      return Reply(500, CreateFailed);
    }
    TrimEmptyIffBlank(content.s);
    if Trim(content.s) == "" {
      return Reply(400, ContentRequired);
    }
    var image := "";
    if Truthy(Field(body, "image")) {
      if upload.None? {
        return Reply(500, CreateFailed);
      }
      image := upload.value;
    }
    var p := Post(caller, content.s, image, [], []);
    InsertPostKeepsStoreOk(db.users, db.requests, db.notifications, db.posts, db.nextId, p);
    db.Commit(db.users, db.requests, db.notifications, Insert(db.posts, db.nextId, p), db.nextId + 1);
    reply := Reply(201, PostCreated);
  }

  // -- DELETE POST --

  /** `destroyOk` is the outcome of asking the image host to destroy the
      post's image; `destroyed` is the public id that was asked for, if any. */
  method DeletePost(db: Db, caller: Id, postId: Id, destroyOk: bool)
    returns (reply: Reply, destroyed: Option<string>)
    requires db.Valid() && caller in db.users.rows
    modifies db
    ensures db.Valid()
    ensures postId !in old(db.posts.rows) ==>
      reply == Reply(404, PostNotFound) && destroyed == None && unchanged(db)
    ensures postId in old(db.posts.rows) ==>
      var p := old(db.posts.rows[postId]);
      && (p.author != caller ==> reply == Reply(403, NotPostAuthor) && destroyed == None && unchanged(db))
      && (p.author == caller ==>
            destroyed == if p.image != "" then Some(Images.PublicId(p.image)) else None)
      && (p.author == caller && p.image != "" && !destroyOk ==>
            reply == Reply(500, DeleteFailed) && unchanged(db))
      && (p.author == caller && (p.image != "" ==> destroyOk) ==>
            && reply == Reply(200, PostDeleted)
            && db.posts == Delete(old(db.posts), postId)
            && db.users == old(db.users) && db.requests == old(db.requests)
            && db.notifications == old(db.notifications) && db.nextId == old(db.nextId))
  {
    if postId !in db.posts.rows {
      return Reply(404, PostNotFound), None;
    }
    var p := db.posts.rows[postId];
    if p.author != caller {
      return Reply(403, NotPostAuthor), None;
    }
    destroyed := None;
    if p.image != "" {
      destroyed := Some(Images.PublicId(p.image));
      if !destroyOk {
        return Reply(500, DeleteFailed), destroyed;
      }
    }
    DeletePostKeepsStoreOk(db.users, db.requests, db.notifications, db.posts, db.nextId, postId);
    db.Commit(db.users, db.requests, db.notifications, Delete(db.posts, postId), db.nextId);
    reply := Reply(200, PostDeleted);
  }

  // -- GET FEED POSTS --

  /** Whether a post is written by the caller or one of the caller's connections. */
  predicate ByNetwork(p: Post, caller: Id, connections: seq<Id>) {
    p.author in connections || p.author == caller
  }

  /** Posts by the caller and their connections, newest first. */
  function FromConnectionsAndSelf(posts: Table<Post>, caller: Id, connections: seq<Id>): (ids: seq<Id>)
    requires Wf(posts)
    ensures forall id :: id in ids <==> id in posts.rows && ByNetwork(posts.rows[id], caller, connections)
    ensures NoDup(ids)
    ensures forall i, j :: 0 <= i < j < |ids| ==> IndexOf(posts.order, ids[i]) > IndexOf(posts.order, ids[j])
  {
    SelectNewestFirst(posts, (id, p) => ByNetwork(p, caller, connections))
  }

  /** Every other post, newest first, without the limit. */
  function FromOthers(posts: Table<Post>, caller: Id, connections: seq<Id>): (ids: seq<Id>)
    requires Wf(posts)
    ensures forall id :: id in ids <==> id in posts.rows && !ByNetwork(posts.rows[id], caller, connections)
    ensures NoDup(ids)
    ensures forall i, j :: 0 <= i < j < |ids| ==> IndexOf(posts.order, ids[i]) > IndexOf(posts.order, ids[j])
  {
    SelectNewestFirst(posts, (id, p) => !ByNetwork(p, caller, connections))
  }

  /** The suggested posts: the ten newest posts by anybody else. */
  function Suggested(posts: Table<Post>, caller: Id, connections: seq<Id>): (ids: seq<Id>)
    requires Wf(posts)
    ensures |ids| <= 10
    ensures forall id :: id in ids ==> id in posts.rows && !ByNetwork(posts.rows[id], caller, connections)
    ensures NoDup(ids)
    ensures var others := FromOthers(posts, caller, connections);
      |ids| == if |others| < 10 then |others| else 10
    ensures ids == FromOthers(posts, caller, connections)[..|ids|]
  {
    var others := FromOthers(posts, caller, connections);
    var r := Take(others, 10);
    assert forall i :: 0 <= i < |r| ==> r[i] == others[i];
    r
  }

  /** Whether `byLikes` is an order of the posts table: every post exactly once. */
  ghost predicate OrdersAllPosts(posts: Table<Post>, byLikes: seq<Id>) {
    NoDup(byLikes) && forall id :: id in byLikes <==> id in posts.rows
  }

  /** The trending posts: the first ten posts of `byLikes`, the order the
      database returns for a sort on the `likes` array. */
  function Trending(posts: Table<Post>, byLikes: seq<Id>): (ids: seq<Id>)
    requires OrdersAllPosts(posts, byLikes)
    ensures |ids| <= 10
    ensures forall id :: id in ids ==> id in posts.rows
    ensures NoDup(ids)
    ensures |ids| == if |byLikes| < 10 then |byLikes| else 10
    ensures ids == byLikes[..|ids|]
  {
    var r := Take(byLikes, 10);
    assert forall i :: 0 <= i < |r| ==> r[i] == byLikes[i];
    r
  }

  /** The queries for the network's posts and for the others' posts select
      complementary sets of posts: each post is in exactly one of them. */
  lemma NetworkAndOthersPartition(posts: Table<Post>, caller: Id, connections: seq<Id>)
    requires Wf(posts)
    ensures forall id :: id in posts.rows ==>
      (id in FromConnectionsAndSelf(posts, caller, connections) <==> id !in FromOthers(posts, caller, connections))
    ensures forall id ::
      (id in FromConnectionsAndSelf(posts, caller, connections) || id in FromOthers(posts, caller, connections))
      ==> id in posts.rows
  {
  }

  /** The keys of a `Map` filled by `set` in list order: every id once, in the
      order of its first occurrence. */
  method MergeUnique(ids: seq<Id>) returns (unique: seq<Id>)
    ensures NoDup(unique)
    ensures forall x :: x in unique <==> x in ids
    ensures forall i, j :: 0 <= i < j < |unique| ==> IndexOf(ids, unique[i]) < IndexOf(ids, unique[j])
  {
    unique := [];
    var seen: set<Id> := {};
    for k := 0 to |ids|
      invariant NoDup(unique)
      invariant forall x :: x in unique <==> x in ids[..k]
      invariant seen == set x | x in unique
      invariant forall x :: x in unique ==> x in ids && IndexOf(ids, x) < k
      invariant forall i, j :: 0 <= i < j < |unique| ==> IndexOf(ids, unique[i]) < IndexOf(ids, unique[j])
    {
      var x := ids[k];
      assert ids[..k + 1] == ids[..k] + [x];
      if x !in seen {
        assert x !in ids[..k];
        assert IndexOf(ids, x) == k;
        unique := unique + [x];
        seen := seen + {x};
      }
    }
    assert ids[..|ids|] == ids;
  }

  /** The posts of the three queries in turn: the network's posts, then the
      trending posts, then the suggested posts. */
  function FeedCandidates(posts: Table<Post>, caller: Id, connections: seq<Id>, byLikes: seq<Id>): (ids: seq<Id>)
    requires Wf(posts) && OrdersAllPosts(posts, byLikes)
    ensures forall id :: id in ids ==> id in posts.rows
  {
    FromConnectionsAndSelf(posts, caller, connections) + Trending(posts, byLikes) + Suggested(posts, caller, connections)
  }

  /** The feed: the posts of the three queries, each post once, at its first
      place. `byLikes` is the order the database returns for the likes sort. */
  method GetFeedPosts(db: Db, caller: Id, byLikes: seq<Id>) returns (feed: seq<Id>)
    requires db.Valid() && caller in db.users.rows
    requires OrdersAllPosts(db.posts, byLikes)
    ensures NoDup(feed)
    ensures forall id :: id in feed ==> id in db.posts.rows
    ensures forall id :: id in feed <==>
      id in FromConnectionsAndSelf(db.posts, caller, db.users.rows[caller].connections)
      || id in Trending(db.posts, byLikes)
      || id in Suggested(db.posts, caller, db.users.rows[caller].connections)
    ensures var all := FeedCandidates(db.posts, caller, db.users.rows[caller].connections, byLikes);
      forall i, j :: 0 <= i < j < |feed| ==> IndexOf(all, feed[i]) < IndexOf(all, feed[j])
  {
    var connections := db.users.rows[caller].connections;
    var all := FeedCandidates(db.posts, caller, connections, byLikes);
    feed := MergeUnique(all);
  }
}

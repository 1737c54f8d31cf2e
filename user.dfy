/** The user controller: connection suggestions, the public profile lookup and
    the profile update, which copies only allow-listed fields of the request
    body and replaces uploaded images by the URLs the image host returns. */
module Users {
  import opened Base
  import opened Tables
  import opened Store

  const UserNotFound := "User not found"
  const ProfileUpdated := "Profile updated successfully"
  const UpdateFailed := "Failed to update user profile"

  // -- GET CONNECTION SUGGESTIONS --

  /** Whether `id` may be suggested to the caller: another user who is not
      among the caller's connections. */
  predicate Suggestible(users: map<Id, User>, caller: Id, id: Id)
    requires caller in users
  {
    id != caller && id !in users[caller].connections
  }

  /** At most five suggestible users, in natural order. */
  function GetConnectionSuggestions(users: Table<User>, caller: Id): (ids: seq<Id>)
    requires Wf(users) && caller in users.rows
    ensures |ids| <= 5
    ensures NoDup(ids)
    ensures forall id :: id in ids ==> id in users.rows && Suggestible(users.rows, caller, id)
    ensures |ids| < 5 ==> forall id :: id in users.rows && Suggestible(users.rows, caller, id) ==> id in ids
  {
    var eligible := Select(users, (id: Id, u: User) => Suggestible(users.rows, caller, id));
    var r := Take(eligible, 5);
    assert forall i :: 0 <= i < |r| ==> r[i] == eligible[i];
    assert forall id :: id in r ==> id in eligible;
    r
  }

  // -- GET USER PROFILE --

  /** A user document without its password. */
  datatype PublicUser = PublicUser(
    id: Id,
    username: string,
    email: string,
    connections: seq<Id>,
    profile: map<string, JsValue>)

  datatype ProfileResult = ProfileResult(reply: Reply, user: Option<PublicUser>)

  /** The profile of the user with the given username; the success reply
      carries the document instead of a message. */
  function GetUserProfile(users: Table<User>, username: string): (r: ProfileResult)
    requires Wf(users)
    ensures r.user.None? <==> forall id :: id in users.rows ==> users.rows[id].username != username
    ensures r.user.None? ==> r.reply == Reply(404, UserNotFound)
    ensures r.user.Some? ==>
      var p := r.user.value;
      && r.reply == Reply(200, "")
      && p.id in users.rows
      && p.username == username
      && users.rows[p.id] == User(p.username, p.email, users.rows[p.id].password, p.connections, p.profile)
  {
    match FindOne(users, (id, u: User) => u.username == username)
    case None => ProfileResult(Reply(404, UserNotFound), None)
    case Some(id) =>
      var u := users.rows[id];
      ProfileResult(Reply(200, ""), Some(PublicUser(id, u.username, u.email, u.connections, u.profile)))
  }

  /** Usernames being unique, the profile found is that of the only user with
      that username. */
  lemma ProfileOfUniqueUsername(users: Table<User>, id: Id)
    requires Wf(users) && UsersOk(users.rows) && id in users.rows
    ensures GetUserProfile(users, users.rows[id].username).user.Some?
    ensures GetUserProfile(users, users.rows[id].username).user.value.id == id
  {
    var found := FindOne(users, (k, u: User) => u.username == users.rows[id].username);
    assert found.Some?;
  }

  // -- UPDATE USER PROFILE --

  /** The fields a user may change through the profile update. */
  const AllowedFields: seq<string> :=
    ["name", "headline", "about", "location", "profilePicture", "bannerImg", "skills", "experience", "education"]

  /** None of the account's own fields can be reached by the update. */
  lemma AllowedFieldsExcludeAccount()
    ensures forall k :: k in AllowedFields ==>
      k != "password" && k != "username" && k != "email" && k != "connections" && k != "_id"
  {
  }

  /** The allow-listed fields whose value in the body is truthy, with those values. */
  function AllowedFrom(body: map<string, JsValue>): (data: map<string, JsValue>)
    ensures forall k :: k in data ==> k in AllowedFields
  {
    map k | k in AllowedFields && Truthy(Field(body, k)) :: body[k]
  }

  /** The `for ... of allowedFields` loop that builds `updatedData`. */
  method CopyAllowedFields(body: map<string, JsValue>) returns (updated: map<string, JsValue>)
    ensures updated == AllowedFrom(body)
  {
    updated := map[];
    for i := 0 to |AllowedFields|
      invariant forall k :: k in updated <==> k in AllowedFields[..i] && Truthy(Field(body, k))
      invariant forall k :: k in updated ==> k in body && updated[k] == body[k]
    {
      var f := AllowedFields[i];
      assert AllowedFields[..i + 1] == AllowedFields[..i] + [f];
      if Truthy(Field(body, f)) {
        updated := updated[f := body[f]];
      }
    }
    assert AllowedFields[..|AllowedFields|] == AllowedFields;
  }

  /** The stored profile after the `$set` of `updatedData`: a field keeps its
      stored value unless the body gives it a truthy value, and an image field
      that is given holds the uploaded image's URL rather than the body's value. */
  function UpdatedProfile(profile: map<string, JsValue>, body: map<string, JsValue>,
                          picture: Option<string>, banner: Option<string>): (p: map<string, JsValue>)
    requires Truthy(Field(body, "profilePicture")) ==> picture.Some?
    requires Truthy(Field(body, "bannerImg")) ==> banner.Some?
    ensures forall k :: k in p <==> k in profile || (k in AllowedFields && Truthy(Field(body, k)))
    ensures forall k :: k in p ==>
      p[k] ==
        if k == "profilePicture" && Truthy(Field(body, k)) then Str(picture.value)
        else if k == "bannerImg" && Truthy(Field(body, k)) then Str(banner.value)
        else if k in AllowedFields && Truthy(Field(body, k)) then body[k]
        else profile[k]
  {
    var data := AllowedFrom(body);
    var withPicture :=
      if Truthy(Field(body, "profilePicture")) then data["profilePicture" := Str(picture.value)] else data;
    var withBanner :=
      if Truthy(Field(body, "bannerImg")) then withPicture["bannerImg" := Str(banner.value)] else withPicture;
    profile + withBanner
  }

  /** Changing one user's profile keeps the users consistent. */
  lemma ProfileChangeKeepsUsersOk(users: map<Id, User>, id: Id, profile: map<string, JsValue>)
    requires UsersOk(users) && id in users
    ensures UsersOk(users[id := users[id].(profile := profile)])
  {
    var r := users[id := users[id].(profile := profile)];
    forall a | a in r ensures r[a].connections == users[a].connections && r[a].email == users[a].email
      && r[a].username == users[a].username
    {
    }
  }

  /** `picture` and `banner` are the outcomes of uploading `body.profilePicture`
      and `body.bannerImg` to the image host: the stored URL, or None when the
      upload failed. A failed upload ends in the 500 reply before the update. */
  method UpdateUserProfile(db: Db, caller: Id, body: map<string, JsValue>,
                           picture: Option<string>, banner: Option<string>)
    returns (reply: Reply)
    requires db.Valid() && caller in db.users.rows
    modifies db
    ensures db.Valid()
    ensures ((Truthy(Field(body, "profilePicture")) && picture.None?)
             || (Truthy(Field(body, "bannerImg")) && banner.None?)) ==>
      reply == Reply(500, UpdateFailed) && unchanged(db)
    ensures ((Truthy(Field(body, "profilePicture")) ==> picture.Some?)
             && (Truthy(Field(body, "bannerImg")) ==> banner.Some?)) ==>
      var u := old(db.users.rows[caller]);
      && reply == Reply(200, ProfileUpdated)
      && db.users.order == old(db.users.order)
      && db.users.rows == old(db.users.rows)[caller := u.(profile := UpdatedProfile(u.profile, body, picture, banner))]
      && db.requests == old(db.requests) && db.notifications == old(db.notifications)
      && db.posts == old(db.posts) && db.nextId == old(db.nextId)
  {
    var updated := CopyAllowedFields(body);
    if Truthy(Field(body, "profilePicture")) {
      if picture.None? {
        return Reply(500, UpdateFailed);
      }
      updated := updated["profilePicture" := Str(picture.value)];
    }
    if Truthy(Field(body, "bannerImg")) {
      if banner.None? {
        return Reply(500, UpdateFailed);
      }
      updated := updated["bannerImg" := Str(banner.value)];
    }
    var u := db.users.rows[caller];
    ProfileChangeKeepsUsersOk(db.users.rows, caller, u.profile + updated);
    var users' := Table(db.users.rows[caller := u.(profile := u.profile + updated)], db.users.order);
    ReplaceUsersKeepsStoreOk(db.users, users', db.requests, db.notifications, db.posts, db.nextId);
    db.Commit(users', db.requests, db.notifications, db.posts, db.nextId);
    reply := Reply(200, ProfileUpdated);
  }
}

/** Sequences of requests against one database, as a client would issue them. */
module Scenarios {
  import opened Base
  import opened Tables
  import opened Store
  import Connections
  import Posts

  /** A request sent by `a` to `b` and accepted by `b` connects them both ways. */
  method SendThenAccept(db: Db, a: Id, b: Id) returns (sent: Reply, accepted: Reply)
    requires db.Valid() && a in db.users.rows && b in db.users.rows && a != b
    requires b !in db.users.rows[a].connections
    requires !Connections.HasPending(db.requests, a, b)
    modifies db
    ensures db.Valid()
    ensures sent == Reply(201, Connections.RequestSent)
    ensures accepted == Reply(200, Connections.RequestAccepted)
    ensures a in db.users.rows && b in db.users.rows
    ensures b in db.users.rows[a].connections && a in db.users.rows[b].connections
  {
    var id := db.nextId;
    sent := Connections.SendConnectionRequest(db, a, b);
    assert db.requests.rows[id] == ConnectionRequest(a, b, Pending);
    accepted := Connections.AcceptConnectionRequest(db, b, id);
  }

  /** A request can be accepted only once: the second attempt is refused and
      changes nothing. */
  method AcceptTwice(db: Db, caller: Id, requestId: Id) returns (first: Reply, second: Reply)
    requires db.Valid() && caller in db.users.rows
    modifies db
    ensures db.Valid()
    ensures first.code == 200 ==> second == Reply(400, Connections.AlreadyHandled)
  {
    first := Connections.AcceptConnectionRequest(db, caller, requestId);
    ghost var after := db.requests;
    second := Connections.AcceptConnectionRequest(db, caller, requestId);
    if first.code == 200 {
      assert after.rows[requestId].status == Accepted;
    }
  }

  /** Liking a post and liking it again leaves its likes as they were. */
  method LikeTwice(db: Db, caller: Id, postId: Id) returns (first: Reply, second: Reply)
    requires db.Valid() && caller in db.users.rows && postId in db.posts.rows
    requires caller !in db.posts.rows[postId].likes
    modifies db
    ensures db.Valid()
    ensures first == second == Reply(200, Posts.PostLiked)
    ensures postId in db.posts.rows && db.posts.rows[postId] == old(db.posts.rows[postId])
  {
    ghost var likes := db.posts.rows[postId].likes;
    first := Posts.LikePost(db, caller, postId);
    second := Posts.LikePost(db, caller, postId);
    Posts.ToggleTwiceRestores(likes, caller);
  }
}

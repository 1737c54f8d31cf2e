/** The connection controller: sending, accepting and rejecting connection
    requests, removing a connection, and the read-only queries that classify
    the relation between two users and list the requests a user received.

    The caller is the authenticated user that the route middleware loaded
    (`req.user`); it exists in the users collection. */
module Connections {
  import opened Base
  import opened Tables
  import opened Store

  const SelfRequest := "You cannot send a request to yourself"
  const AlreadyConnected := "You already have a connection with this user"
  const AlreadyPending := "You already have a pending connection request"
  const RequestSent := "Connection request sent successfully"
  const RequestNotFound := "Connection request not found"
  const NotAuthorized := "You are not authorized"
  const AlreadyHandled := "Connection request already accepted or rejected"
  const AcceptFailed := "Failed to accept connection request"
  const RequestAccepted := "Connection accepted"
  const RequestRejected := "Connection request rejected"
  const ConnectionRemoved := "Connection removed"

  /** The filter `{sender, recipient, status: "pending"}`. */
  predicate IsPending(r: ConnectionRequest, sender: Id, recipient: Id) {
    r.sender == sender && r.recipient == recipient && r.status == Pending
  }

  ghost predicate HasPending(requests: Table<ConnectionRequest>, sender: Id, recipient: Id) {
    exists id :: id in requests.rows && IsPending(requests.rows[id], sender, recipient)
  }

  /** The effect of accepting: `$addToSet` of each user into the other's
      connections (the recipient's list first, then the sender's). */
  function Connect(users: map<Id, User>, a: Id, b: Id): (r: map<Id, User>)
    requires a in users && b in users
    ensures r.Keys == users.Keys
    ensures forall id :: id in users ==> r[id] == users[id].(connections := r[id].connections)
    ensures forall id, z :: id in users ==>
      (z in r[id].connections <==>
        z in users[id].connections || (id == a && z == b) || (id == b && z == a))
    ensures forall id :: id in users && NoDup(users[id].connections) ==> NoDup(r[id].connections)
  {
    map id | id in users ::
      var once := if id == a then AddToSet(users[id].connections, b) else users[id].connections;
      users[id].(connections := if id == b then AddToSet(once, a) else once)
  }

  /** The effect of removing: `$pull` of each user from the other's connections;
      the second update finds no document when `b` is not a user. */
  function Disconnect(users: map<Id, User>, a: Id, b: Id): (r: map<Id, User>)
    requires a in users
    ensures r.Keys == users.Keys
    ensures forall id :: id in users ==> r[id] == users[id].(connections := r[id].connections)
    ensures forall id, z :: id in users ==>
      (z in r[id].connections <==>
        z in users[id].connections && !(id == a && z == b) && !(id == b && z == a))
    ensures forall id :: id in users && NoDup(users[id].connections) ==> NoDup(r[id].connections)
  {
    map id | id in users ::
      var once := if id == a then RemoveAll(users[id].connections, b) else users[id].connections;
      users[id].(connections := if id == b then RemoveAll(once, a) else once)
  }

  /** Accepting keeps connections mutual, irreflexive and duplicate-free, and
      leaves the two users connected. */
  lemma ConnectKeepsUsersOk(users: map<Id, User>, a: Id, b: Id)
    requires UsersOk(users) && a in users && b in users && a != b
    ensures UsersOk(Connect(users, a, b))
    ensures b in Connect(users, a, b)[a].connections && a in Connect(users, a, b)[b].connections
  {
    var r := Connect(users, a, b);
    forall x, y | x in r && y in r[x].connections
      ensures y in r && y != x && x in r[y].connections
    {
      if !((x == a && y == b) || (x == b && y == a)) {
        assert y in users[x].connections;
        assert x in users[y].connections;
      }
    }
    assert Symmetric(r);
    forall x, y | x in r && y in r && x != y
      ensures r[x].email != r[y].email && r[x].username != r[y].username
    {
      assert r[x].email == users[x].email && r[y].email == users[y].email;
      assert r[x].username == users[x].username && r[y].username == users[y].username;
    }
  }

  /** Removing keeps connections mutual, irreflexive and duplicate-free, and
      leaves the two users unconnected. */
  lemma DisconnectKeepsUsersOk(users: map<Id, User>, a: Id, b: Id)
    requires UsersOk(users) && a in users
    ensures UsersOk(Disconnect(users, a, b))
    ensures b !in Disconnect(users, a, b)[a].connections
    ensures b in users ==> a !in Disconnect(users, a, b)[b].connections
  {
    var r := Disconnect(users, a, b);
    forall x, y | x in r && y in r[x].connections
      ensures y in r && y != x && x in r[y].connections
    {
      assert y in users[x].connections;
    }
  }

  /** Removing twice leaves the same users as removing once. */
  lemma DisconnectIdempotent(users: map<Id, User>, a: Id, b: Id)
    requires a in users
    ensures Disconnect(Disconnect(users, a, b), a, b) == Disconnect(users, a, b)
  {
    var once := Disconnect(users, a, b);
    var twice := Disconnect(once, a, b);
    forall id | id in once ensures twice[id] == once[id] {
      assert twice[id] == once[id].(connections := twice[id].connections);
      assert b !in once[a].connections;
      assert b in once ==> a !in once[b].connections;
      assert twice[id].connections == once[id].connections;
    }
  }

  // -- SEND CONNECTION REQUEST --

  method SendConnectionRequest(db: Db, caller: Id, userId: Id) returns (reply: Reply)
    requires db.Valid() && caller in db.users.rows
    modifies db
    ensures db.Valid()
    ensures caller == userId ==> reply == Reply(400, SelfRequest) && unchanged(db)
    ensures caller != userId && userId in old(db.users.rows[caller].connections) ==>
      reply == Reply(400, AlreadyConnected) && unchanged(db)
    ensures (caller != userId && userId !in old(db.users.rows[caller].connections)
             && old(HasPending(db.requests, caller, userId))) ==>
      reply == Reply(400, AlreadyPending) && unchanged(db)
    ensures (caller != userId && userId !in old(db.users.rows[caller].connections)
             && !old(HasPending(db.requests, caller, userId))) ==>
      && reply == Reply(201, RequestSent)
      && db.requests == Insert(old(db.requests), old(db.nextId), ConnectionRequest(caller, userId, Pending))
      && db.nextId == old(db.nextId) + 1
      && db.users == old(db.users)
      && db.notifications == old(db.notifications)
      && db.posts == old(db.posts)
  {
    if caller == userId {
      return Reply(400, SelfRequest);
    }
    if userId in db.users.rows[caller].connections {
      return Reply(400, AlreadyConnected);
    }
    var existing := FindOne(db.requests, (id, r) => IsPending(r, caller, userId));
    if existing.Some? {
      return Reply(400, AlreadyPending);
    }
    assert !HasPending(db.requests, caller, userId);
    var next := db.nextId;
    InsertRequestKeepsStoreOk(db.users, db.requests, db.notifications, db.posts, next, ConnectionRequest(caller, userId, Pending));
    db.Commit(db.users, Insert(db.requests, next, ConnectionRequest(caller, userId, Pending)), db.notifications, db.posts, next + 1);
    reply := Reply(201, RequestSent);
  }

  // -- ACCEPT CONNECTION REQUEST --

  method AcceptConnectionRequest(db: Db, caller: Id, requestId: Id) returns (reply: Reply)
    requires db.Valid() && caller in db.users.rows
    modifies db
    ensures db.Valid()
    ensures requestId !in old(db.requests.rows) ==> reply == Reply(404, RequestNotFound) && unchanged(db)
    ensures requestId in old(db.requests.rows) ==>
      var r := old(db.requests.rows[requestId]);
      && (r.recipient !in old(db.users.rows) ==> reply == Reply(500, AcceptFailed) && unchanged(db))
      && (r.recipient in old(db.users.rows) && r.recipient != caller ==>
            reply == Reply(403, NotAuthorized) && unchanged(db))
      && (r.recipient == caller && r.status != Pending ==>
            reply == Reply(400, AlreadyHandled) && unchanged(db))
      && (r.recipient == caller && r.status == Pending ==>
            && reply == Reply(200, RequestAccepted)
            && db.requests == Update(old(db.requests), requestId, r.(status := Accepted))
            && db.users.order == old(db.users.order)
            && db.users.rows == Connect(old(db.users.rows), caller, r.sender)
            && r.sender in db.users.rows[caller].connections
            && caller in db.users.rows[r.sender].connections
            && db.notifications == Insert(old(db.notifications), old(db.nextId),
                 Notification(r.sender, ConnectionAccepted, caller, None, false))
            && db.nextId == old(db.nextId) + 1
            && db.posts == old(db.posts))
  {
    if requestId !in db.requests.rows {
      return Reply(404, RequestNotFound);
    }
    var request := db.requests.rows[requestId];
    // `populate("recipient")` yields null for a missing user, and reading
    // `request.recipient._id` then throws
    if request.recipient !in db.users.rows {
      return Reply(500, AcceptFailed);
    }
    if request.recipient != caller {
      return Reply(403, NotAuthorized);
    }
    if request.status != Pending {
      return Reply(400, AlreadyHandled);
    }
    var users, requests, notifications, posts, next := db.users, db.requests, db.notifications, db.posts, db.nextId;
    var note := Notification(request.sender, ConnectionAccepted, caller, None, false);
    var requests' := Update(requests, requestId, request.(status := Accepted));
    var users' := Table(Connect(users.rows, caller, request.sender), users.order);
    SetStatusKeepsStoreOk(users, requests, notifications, posts, next, requestId, Accepted);
    ConnectKeepsUsersOk(users.rows, caller, request.sender);
    ReplaceUsersKeepsStoreOk(users, users', requests', notifications, posts, next);
    InsertNotificationKeepsStoreOk(users', requests', notifications, posts, next, note);
    db.Commit(users', requests', Insert(notifications, next, note), posts, next + 1);
    reply := Reply(200, RequestAccepted);
  }

  // -- REJECT CONNECTION REQUEST --

  method RejectConnectionRequest(db: Db, caller: Id, requestId: Id) returns (reply: Reply)
    requires db.Valid() && caller in db.users.rows
    modifies db
    ensures db.Valid()
    ensures requestId !in old(db.requests.rows) ==> reply == Reply(404, RequestNotFound) && unchanged(db)
    ensures requestId in old(db.requests.rows) ==>
      var r := old(db.requests.rows[requestId]);
      && (r.recipient != caller ==> reply == Reply(403, NotAuthorized) && unchanged(db))
      && (r.recipient == caller && r.status != Pending ==>
            reply == Reply(400, AlreadyHandled) && unchanged(db))
      && (r.recipient == caller && r.status == Pending ==>
            && reply == Reply(200, RequestRejected)
            && db.requests == Update(old(db.requests), requestId, r.(status := Rejected))
            && db.users == old(db.users)
            && db.notifications == old(db.notifications)
            && db.posts == old(db.posts)
            && db.nextId == old(db.nextId))
  {
    if requestId !in db.requests.rows {
      return Reply(404, RequestNotFound);
    }
    var request := db.requests.rows[requestId];
    if request.recipient != caller {
      return Reply(403, NotAuthorized);
    }
    if request.status != Pending {
      return Reply(400, AlreadyHandled);
    }
    SetStatusKeepsStoreOk(db.users, db.requests, db.notifications, db.posts, db.nextId, requestId, Rejected);
    db.Commit(db.users, Update(db.requests, requestId, request.(status := Rejected)), db.notifications, db.posts, db.nextId);
    reply := Reply(200, RequestRejected);
  }

  // -- REMOVE CONNECTION --

  method RemoveConnection(db: Db, caller: Id, userId: Id) returns (reply: Reply)
    requires db.Valid() && caller in db.users.rows
    modifies db
    ensures db.Valid()
    ensures reply == Reply(200, ConnectionRemoved)
    ensures db.users.order == old(db.users.order)
    ensures db.users.rows == Disconnect(old(db.users.rows), caller, userId)
    ensures userId !in db.users.rows[caller].connections
    ensures userId in db.users.rows ==> caller !in db.users.rows[userId].connections
    ensures db.requests == old(db.requests)
    ensures db.notifications == old(db.notifications)
    ensures db.posts == old(db.posts)
    ensures db.nextId == old(db.nextId)
  {
    DisconnectKeepsUsersOk(db.users.rows, caller, userId);
    var users' := Table(Disconnect(db.users.rows, caller, userId), db.users.order);
    ReplaceUsersKeepsStoreOk(db.users, users', db.requests, db.notifications, db.posts, db.nextId);
    db.Commit(users', db.requests, db.notifications, db.posts, db.nextId);
    reply := Reply(200, ConnectionRemoved);
  }

  // -- GET CONNECTION STATUS --

  datatype ConnectionStatus = Connected | PendingSent | Received(requestId: Id) | NotConnected

  /** Classification of the relation between the caller and a target user:
      connected, a pending request either way (the first one found), or none. */
  function GetConnectionStatus(users: map<Id, User>, requests: Table<ConnectionRequest>,
                               caller: Id, target: Id): (s: ConnectionStatus)
    requires caller in users && Wf(requests)
    ensures s == Connected <==> target in users[caller].connections
    ensures s == NotConnected <==>
      target !in users[caller].connections
      && !HasPending(requests, caller, target) && !HasPending(requests, target, caller)
    ensures s == PendingSent ==> HasPending(requests, caller, target)
    ensures s.Received? ==>
      s.requestId in requests.rows && IsPending(requests.rows[s.requestId], target, caller)
  {
    if target in users[caller].connections then Connected
    else
      var found := FindOne(requests, (id, r) => IsPending(r, caller, target) || IsPending(r, target, caller));
      match found
      case None => NotConnected
      case Some(id) => if requests.rows[id].sender == caller then PendingSent else Received(id)
  }

  /** While exactly one pending request joins two unconnected users, its
      sender sees "pending" and its recipient sees "received" with its id. */
  lemma StatusOfSinglePendingRequest(users: map<Id, User>, requests: Table<ConnectionRequest>, id: Id)
    requires Wf(requests) && id in requests.rows && requests.rows[id].status == Pending
    requires var r := requests.rows[id];
      r.sender in users && r.recipient in users && r.sender != r.recipient
      && r.recipient !in users[r.sender].connections && r.sender !in users[r.recipient].connections
    requires forall other :: other in requests.rows && other != id ==>
      var r, o := requests.rows[id], requests.rows[other];
      !IsPending(o, r.sender, r.recipient) && !IsPending(o, r.recipient, r.sender)
    ensures var r := requests.rows[id];
      GetConnectionStatus(users, requests, r.sender, r.recipient) == PendingSent
      && GetConnectionStatus(users, requests, r.recipient, r.sender) == Received(id)
  {
    var r := requests.rows[id];
    assert IsPending(r, r.sender, r.recipient);
  }

  // -- GET PENDING CONNECTION REQUESTS --

  /** The pending requests addressed to the caller, in natural order. */
  function GetPendingConnectionRequests(requests: Table<ConnectionRequest>, caller: Id): (ids: seq<Id>)
    requires Wf(requests)
    ensures forall id :: id in ids <==>
      id in requests.rows && requests.rows[id].recipient == caller && requests.rows[id].status == Pending
    ensures NoDup(ids)
  {
    Select(requests, (id, r: ConnectionRequest) => r.recipient == caller && r.status == Pending)
  }
}

/** The document database behind the request handlers: the four collections
    the controllers read and write (users, connection requests, notifications,
    posts), held by one `Db` object that the handlers update in place. */
module Store {
  import opened Base
  import opened Tables

  /** A user document. `password` holds the bcrypt hash; `connections` is the
      list of connected user ids; `profile` holds the editable attributes
      (name, headline, about, location, profilePicture, bannerImg, skills,
      experience, education) under their JSON names. */
  datatype User = User(
    username: string,
    email: string,
    password: string,
    connections: seq<Id>,
    profile: map<string, JsValue>)

  datatype RequestStatus = Pending | Accepted | Rejected

  datatype ConnectionRequest = ConnectionRequest(sender: Id, recipient: Id, status: RequestStatus)

  datatype NotificationType = ConnectionAccepted | Like | Comment

  datatype Notification = Notification(
    recipient: Id,
    kind: NotificationType,
    relatedUser: Id,
    relatedPost: Option<Id>,
    isRead: bool)

  datatype PostComment = PostComment(user: Id, content: string)

  /** A post document; `image` is the uploaded image's URL, "" when there is none. */
  datatype Post = Post(
    author: Id,
    content: string,
    image: string,
    likes: seq<Id>,
    comments: seq<PostComment>)

  /** Connections are mutual and never reflexive. */
  ghost predicate Symmetric(users: map<Id, User>) {
    forall a, b :: a in users && b in users[a].connections ==>
      b in users && b != a && a in users[b].connections
  }

  /** Emails and usernames identify users; connection lists hold no duplicates. */
  ghost predicate UsersOk(users: map<Id, User>) {
    && Symmetric(users)
    && (forall a :: a in users ==> NoDup(users[a].connections))
    && (forall a, b :: a in users && b in users && a != b ==>
          users[a].email != users[b].email && users[a].username != users[b].username)
  }

  /** Every request was sent by an existing user to somebody else, and no two
      pending requests go from the same sender to the same recipient. */
  ghost predicate RequestsOk(requests: map<Id, ConnectionRequest>, users: set<Id>) {
    && (forall r :: r in requests ==>
          requests[r].sender in users && requests[r].sender != requests[r].recipient)
    && (forall r1, r2 ::
          (r1 in requests && r2 in requests && r1 != r2 &&
           requests[r1].status == Pending && requests[r2].status == Pending &&
           requests[r1].sender == requests[r2].sender) ==>
          requests[r1].recipient != requests[r2].recipient)
  }

  /** Every post has an existing author and is liked at most once per user. */
  ghost predicate PostsOk(posts: map<Id, Post>, users: set<Id>) {
    forall p :: p in posts ==> posts[p].author in users && NoDup(posts[p].likes)
  }

  ghost predicate IdsBelow<T>(t: Table<T>, next: Id) {
    forall id :: id in t.rows ==> id < next
  }

  /** The consistency of the whole database; `next` bounds the ids in use. */
  ghost predicate StoreOk(users: Table<User>, requests: Table<ConnectionRequest>,
                          notifications: Table<Notification>, posts: Table<Post>, next: Id) {
    && Wf(users) && Wf(requests) && Wf(notifications) && Wf(posts)
    && IdsBelow(users, next) && IdsBelow(requests, next)
    && IdsBelow(notifications, next) && IdsBelow(posts, next)
    && UsersOk(users.rows)
    && RequestsOk(requests.rows, users.rows.Keys)
    && PostsOk(posts.rows, users.rows.Keys)
  }

  /** Rewriting the connection lists (keys and order unchanged) keeps the store
      consistent as long as the users part stays consistent. */
  lemma ReplaceUsersKeepsStoreOk(users: Table<User>, users': Table<User>, requests: Table<ConnectionRequest>,
                                 notifications: Table<Notification>, posts: Table<Post>, next: Id)
    requires StoreOk(users, requests, notifications, posts, next)
    requires users'.order == users.order && users'.rows.Keys == users.rows.Keys && UsersOk(users'.rows)
    ensures StoreOk(users', requests, notifications, posts, next)
  {
  }

  /** Changing the status of a request keeps the store consistent when the
      request leaves the pending state or was not pending. */
  lemma SetStatusKeepsStoreOk(users: Table<User>, requests: Table<ConnectionRequest>,
                              notifications: Table<Notification>, posts: Table<Post>, next: Id,
                              id: Id, status: RequestStatus)
    requires StoreOk(users, requests, notifications, posts, next)
    requires id in requests.rows && status != Pending
    ensures StoreOk(users, Update(requests, id, requests.rows[id].(status := status)), notifications, posts, next)
  {
  }

  /** Storing a new request under the next fresh id keeps the store consistent
      when it comes from an existing user to somebody else and, if pending,
      does not duplicate a pending request between the same two users. */
  lemma InsertRequestKeepsStoreOk(users: Table<User>, requests: Table<ConnectionRequest>,
                                  notifications: Table<Notification>, posts: Table<Post>, next: Id,
                                  r: ConnectionRequest)
    requires StoreOk(users, requests, notifications, posts, next)
    requires r.sender in users.rows && r.sender != r.recipient
    requires r.status == Pending ==> forall id :: id in requests.rows ==>
      var o := requests.rows[id];
      !(o.sender == r.sender && o.recipient == r.recipient && o.status == Pending)
    ensures next !in requests.rows
    ensures StoreOk(users, Insert(requests, next, r), notifications, posts, next + 1)
  {
    var requests' := Insert(requests, next, r);
    assert IdsBelow(requests', next + 1);
  }

  /** Storing a new notification under the next fresh id keeps the store consistent. */
  lemma InsertNotificationKeepsStoreOk(users: Table<User>, requests: Table<ConnectionRequest>,
                                       notifications: Table<Notification>, posts: Table<Post>, next: Id,
                                       n: Notification)
    requires StoreOk(users, requests, notifications, posts, next)
    ensures next !in notifications.rows
    ensures StoreOk(users, requests, Insert(notifications, next, n), posts, next + 1)
  {
    var notifications' := Insert(notifications, next, n);
    assert IdsBelow(notifications', next + 1);
  }

  /** Replacing one post by a version with an existing author and duplicate-free
      likes keeps the store consistent. */
  lemma UpdatePostKeepsStoreOk(users: Table<User>, requests: Table<ConnectionRequest>,
                               notifications: Table<Notification>, posts: Table<Post>, next: Id,
                               id: Id, p: Post)
    requires StoreOk(users, requests, notifications, posts, next)
    requires id in posts.rows && p.author in users.rows && NoDup(p.likes)
    ensures StoreOk(users, requests, notifications, Update(posts, id, p), next)
  {
  }

  /** Storing a new post under the next fresh id keeps the store consistent. */
  lemma InsertPostKeepsStoreOk(users: Table<User>, requests: Table<ConnectionRequest>,
                               notifications: Table<Notification>, posts: Table<Post>, next: Id,
                               p: Post)
    requires StoreOk(users, requests, notifications, posts, next)
    requires p.author in users.rows && NoDup(p.likes)
    ensures next !in posts.rows
    ensures StoreOk(users, requests, notifications, Insert(posts, next, p), next + 1)
  {
    var posts' := Insert(posts, next, p);
    assert IdsBelow(posts', next + 1);
  }

  /** Removing a post keeps the store consistent. */
  lemma DeletePostKeepsStoreOk(users: Table<User>, requests: Table<ConnectionRequest>,
                               notifications: Table<Notification>, posts: Table<Post>, next: Id,
                               id: Id)
    requires StoreOk(users, requests, notifications, posts, next)
    ensures StoreOk(users, requests, notifications, Delete(posts, id), next)
  {
  }

  /** Notifications are constrained only by their ids: any well-formed table
      over a subset of the stored ids keeps the store consistent. */
  lemma ShrinkNotificationsKeepsStoreOk(users: Table<User>, requests: Table<ConnectionRequest>,
                                        notifications: Table<Notification>, posts: Table<Post>, next: Id,
                                        notifications': Table<Notification>)
    requires StoreOk(users, requests, notifications, posts, next)
    requires Wf(notifications') && notifications'.rows.Keys <= notifications.rows.Keys
    ensures StoreOk(users, requests, notifications', posts, next)
  {
    assert IdsBelow(notifications', next);
  }

  /** A new user without connections, whose email and username are not taken,
      can be stored under the next fresh id. */
  lemma InsertUserKeepsStoreOk(users: Table<User>, requests: Table<ConnectionRequest>,
                               notifications: Table<Notification>, posts: Table<Post>, next: Id,
                               u: User)
    requires StoreOk(users, requests, notifications, posts, next)
    requires u.connections == []
    requires forall id :: id in users.rows ==> users.rows[id].email != u.email && users.rows[id].username != u.username
    ensures next !in users.rows
    ensures StoreOk(Insert(users, next, u), requests, notifications, posts, next + 1)
  {
    var users' := Insert(users, next, u);
    assert IdsBelow(users', next + 1);
    forall a, b | a in users'.rows && b in users'.rows[a].connections
      ensures b in users'.rows && b != a && a in users'.rows[b].connections
    {
      assert a != next;
    }
  }

  class Db {
    var users: Table<User>
    var requests: Table<ConnectionRequest>
    var notifications: Table<Notification>
    var posts: Table<Post>
    /** Source of fresh document ids: every id in use is below it. */
    var nextId: Id

    ghost predicate Valid()
      reads this
    {
      StoreOk(users, requests, notifications, posts, nextId)
    }

    /** Writes a consistent content back to the database. The handlers compute
        the documents they change and commit them together. */
    method Commit(users': Table<User>, requests': Table<ConnectionRequest>,
                  notifications': Table<Notification>, posts': Table<Post>, next': Id)
      requires StoreOk(users', requests', notifications', posts', next')
      modifies this
      ensures Valid()
      ensures users == users' && requests == requests' && notifications == notifications'
      ensures posts == posts' && nextId == next'
    {
      users, requests, notifications, posts, nextId := users', requests', notifications', posts', next';
    }

    /** An empty database. */
    constructor ()
      ensures Valid()
      ensures users.rows == map[] && requests.rows == map[]
      ensures notifications.rows == map[] && posts.rows == map[]
    {
      users := EmptyTable();
      requests := EmptyTable();
      notifications := EmptyTable();
      posts := EmptyTable();
      nextId := 0;
    }
  }
}

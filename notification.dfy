/** The notification controller: listing the caller's notifications, marking
    one as read and deleting one.

    Both changing handlers look the notification up with `findByIdAndUpdate` /
    `findByIdAndDelete`, passing the object `{_id, recipient}` where those
    functions expect an id. Mongoose turns the argument into the filter
    `{_id: argument}`, and casting an object to an ObjectId keeps only its
    `_id` property, so the recipient condition is dropped. `MatchAsWritten`
    models that lookup; `OwnNotification` is the intended one, which the
    handlers below use. */
module Notifications {
  import opened Base
  import opened Tables
  import opened Store

  // -- GET NOTIFICATIONS --

  /** The caller's notifications, newest first. */
  function GetNotifications(notifications: Table<Notification>, caller: Id): (ids: seq<Id>)
    requires Wf(notifications)
    ensures forall id :: id in ids <==> id in notifications.rows && notifications.rows[id].recipient == caller
    ensures NoDup(ids)
    ensures forall i, j :: 0 <= i < j < |ids| ==>
      IndexOf(notifications.order, ids[i]) > IndexOf(notifications.order, ids[j])
  {
    SelectNewestFirst(notifications, (id, n: Notification) => n.recipient == caller)
  }

  // -- THE LOOKUP --

  /** The document the as-written lookup finds: the one with the given id,
      whoever it is addressed to. */
  function MatchAsWritten(notifications: Table<Notification>, id: Id, caller: Id): (m: Option<Id>)
    ensures m.Some? <==> id in notifications.rows
    ensures m.Some? ==> m.value == id
  {
    if id in notifications.rows then Some(id) else None
  }

  /** The intended lookup: the notification with the given id, provided it is
      addressed to the caller. */
  predicate OwnNotification(notifications: Table<Notification>, id: Id, caller: Id) {
    id in notifications.rows && notifications.rows[id].recipient == caller
  }

  /** Marking as read with the as-written lookup. */
  function MarkReadAsWritten(notifications: Table<Notification>, id: Id, caller: Id): (r: Table<Notification>)
    ensures MatchAsWritten(notifications, id, caller).Some? ==> r.rows == notifications.rows[id := notifications.rows[id].(isRead := true)]
    ensures MatchAsWritten(notifications, id, caller).None? ==> r == notifications
  {
    match MatchAsWritten(notifications, id, caller)
    case Some(k) => Update(notifications, k, notifications.rows[k].(isRead := true))
    case None => notifications
  }

  /** Deleting with the as-written lookup. */
  function DeleteAsWritten(notifications: Table<Notification>, id: Id, caller: Id): (r: Table<Notification>)
    ensures r.rows == notifications.rows - {id}
  {
    match MatchAsWritten(notifications, id, caller)
    case Some(k) => Delete(notifications, k)
    case None => notifications
  }

  /** As written, user 2 marks as read, and deletes, a notification addressed
      to user 1. */
  lemma AsWrittenTouchesOthersNotifications()
    ensures var t := Table(map[0 := Notification(1, Like, 2, Some(3), false)], [0]);
      && !OwnNotification(t, 0, 2)
      && MatchAsWritten(t, 0, 2) == Some(0)
      && MarkReadAsWritten(t, 0, 2).rows[0].isRead
      && 0 !in DeleteAsWritten(t, 0, 2).rows
  {
  }

  // -- MARK NOTIFICATION AS READ --

  /** The notifications after the caller marks `id` as read. */
  function MarkRead(notifications: Table<Notification>, id: Id, caller: Id): (r: Table<Notification>)
    ensures r.order == notifications.order && r.rows.Keys == notifications.rows.Keys
    ensures Wf(notifications) ==> Wf(r)
    ensures forall k :: k in notifications.rows && !(k == id && OwnNotification(notifications, id, caller)) ==>
      r.rows[k] == notifications.rows[k]
    ensures OwnNotification(notifications, id, caller) ==>
      r.rows[id] == notifications.rows[id].(isRead := true)
  {
    if OwnNotification(notifications, id, caller) then
      Update(notifications, id, notifications.rows[id].(isRead := true))
    else notifications
  }

  /** Marking as read twice is marking as read once. */
  lemma MarkReadIdempotent(notifications: Table<Notification>, id: Id, caller: Id)
    ensures MarkRead(MarkRead(notifications, id, caller), id, caller) == MarkRead(notifications, id, caller)
  {
    var once := MarkRead(notifications, id, caller);
    if OwnNotification(notifications, id, caller) {
      assert once.rows[id].(isRead := true) == once.rows[id];
      assert once.rows[id := once.rows[id]] == once.rows;
    }
  }

  /** A user never changes a notification addressed to somebody else. */
  lemma MarkReadLeavesOthersAlone(notifications: Table<Notification>, id: Id, caller: Id)
    ensures forall k :: k in notifications.rows && notifications.rows[k].recipient != caller ==>
      MarkRead(notifications, id, caller).rows[k] == notifications.rows[k]
  {
  }

  /** Replies with 200 whether or not a notification matched; the body then
      holds the updated notification or null instead of a message. */
  method MarkNotificationAsRead(db: Db, caller: Id, id: Id) returns (reply: Reply)
    requires db.Valid()
    modifies db
    ensures db.Valid()
    ensures reply == Reply(200, "")
    ensures db.notifications == MarkRead(old(db.notifications), id, caller)
    ensures db.users == old(db.users) && db.requests == old(db.requests)
    ensures db.posts == old(db.posts) && db.nextId == old(db.nextId)
  {
    var notifications' := MarkRead(db.notifications, id, caller);
    ShrinkNotificationsKeepsStoreOk(db.users, db.requests, db.notifications, db.posts, db.nextId, notifications');
    db.Commit(db.users, db.requests, notifications', db.posts, db.nextId);
    reply := Reply(200, "");
  }

  // -- DELETE NOTIFICATION --

  /** The notifications after the caller deletes `id`. */
  function DeleteOwn(notifications: Table<Notification>, id: Id, caller: Id): (r: Table<Notification>)
    ensures Wf(notifications) ==> Wf(r)
    ensures r.rows.Keys <= notifications.rows.Keys
    ensures forall k :: k in notifications.rows && !(k == id && OwnNotification(notifications, id, caller)) ==>
      k in r.rows && r.rows[k] == notifications.rows[k]
    ensures OwnNotification(notifications, id, caller) ==> r.rows.Keys == notifications.rows.Keys - {id}
    ensures !OwnNotification(notifications, id, caller) ==> r == notifications
  {
    if OwnNotification(notifications, id, caller) then Delete(notifications, id)
    else notifications
  }

  /** A user never deletes a notification addressed to somebody else, and a
      second deletion changes nothing. */
  lemma DeleteOwnLeavesOthersAlone(notifications: Table<Notification>, id: Id, caller: Id)
    ensures forall k :: k in notifications.rows && notifications.rows[k].recipient != caller ==>
      k in DeleteOwn(notifications, id, caller).rows
    ensures DeleteOwn(DeleteOwn(notifications, id, caller), id, caller) == DeleteOwn(notifications, id, caller)
  {
  }

  /** Replies with 200 whether or not a notification matched. */
  method DeleteNotification(db: Db, caller: Id, id: Id) returns (reply: Reply)
    requires db.Valid()
    modifies db
    ensures db.Valid()
    ensures reply == Reply(200, "")
    ensures db.notifications == DeleteOwn(old(db.notifications), id, caller)
    ensures db.users == old(db.users) && db.requests == old(db.requests)
    ensures db.posts == old(db.posts) && db.nextId == old(db.nextId)
  {
    var notifications' := DeleteOwn(db.notifications, id, caller);
    ShrinkNotificationsKeepsStoreOk(db.users, db.requests, db.notifications, db.posts, db.nextId, notifications');
    db.Commit(db.users, db.requests, notifications', db.posts, db.nextId);
    reply := Reply(200, "");
  }
}

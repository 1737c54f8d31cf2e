# A verified model of the LinkedIn-style backend's request handlers

This project models the request handlers of a small professional social
network backend (Express controllers over a Mongo document database). It
covers the connection lifecycle, posts (likes, comments, creation, deletion,
the merged feed), notifications, signup and login, the profile update and
lookups, and the derivation of an image's public id from its URL.

The database is one `Store.Db` object. It holds four collections (users,
connection requests, notifications, posts) and a fresh-id counter. Each
collection is a `Tables.Table`: documents by id, together with their insertion
order. That order stands for Mongo's natural order, which is what `find` and
`findOne` return without a sort. Since `createdAt` is stamped at insertion, it
also stands for creation time. `Db.Valid()` is the consistency invariant:
- every table is well formed and its ids are below the counter;
- connections are mutual, irreflexive and free of duplicates;
- emails and usernames are unique;
- every request comes from an existing user to somebody else;
- no two pending requests share a sender and a recipient;
- every post has an existing author;
- no user likes a post twice.

Every handler that changes the database requires and preserves the invariant.

Handlers that change state are methods on the database. Each states its reply
and its new state for every branch, in the order the source checks them. A
handler's new state is computed first and written back with `Db.Commit`.
Read-only handlers are functions, except `Posts.GetFeedPosts`, which is a
method because the source merges the three queries in a loop. The caller is the authenticated user
(`req.user`), given as an id that exists in the users collection. Replies are
a status code and the JSON `message`. The message is `""` when the body is a
document instead of a message.

Calls to other services are parameters:
- an image upload is an `Option<string>` (the stored URL, or `None` when the upload failed);
- an image deletion is a `bool` outcome;
- bcrypt's hash and compare are a function and a predicate;
- the database's order for a sort on the `likes` array is a sequence of ids.

In three places the code does something a reader may not expect, and the
model follows the code:
- Accepting a request populates its recipient. When the recipient is not a
  user (a request can be sent to any id), reading `recipient._id` throws, and
  the reply is 500 before the 403 check.
- Commenting on a missing post replies 500, not 404. The update returns null,
  and reading its author throws.
- The duplicate check on send looks only at the sender→recipient direction,
  so a pending request in the other direction does not block a send. The
  invariant `Store.RequestsOk` is therefore stated per direction.

The handlers follow the code everywhere except in the notification lookup,
which is listed under "## Findings". There, the handlers `Notifications.MarkNotificationAsRead` and
`Notifications.DeleteNotification` use the recipient-scoped lookup that was
evidently intended. The lookup as written is modelled beside it.

## Model

| member | source | states |
|---|---|---|
| Base.TrimEmptyIffBlank | backend/controllers/post.controller.js:57-58 | `!s.trim()` holds exactly when the string is white space only (the ECMAScript white space and line terminators) |
| Base.RemoveAll | backend/controllers/connection.controller.js:191-196 | `$pull`: the element is gone, every other element stays, duplicate-freedom is kept, and a list without it is unchanged |
| Base.AddToSet | backend/controllers/connection.controller.js:76-81 | `$addToSet`: the element is present afterwards, nothing else is added, duplicate-freedom is kept, and an existing element leaves the list unchanged |
| Base.SplitAtSeparator | backend/utils/deleteImageFromCloudinary.js:4 | `split` distributes over a separator: the pieces of `a + "/" + b` are those of `a` followed by those of `b` |
| Base.JoinSplit | backend/utils/deleteImageFromCloudinary.js:4 | joining the pieces of `split` with the separator gives back the string |
| Base.SplitPiecesHaveNoSeparator | backend/utils/deleteImageFromCloudinary.js:4 | no piece of `split` contains the separator |
| Tables.Insert | backend/controllers/connection.controller.js:34-38 | saving a new document stores it under a fresh id, as the newest one, and keeps the table well formed |
| Tables.Delete | backend/controllers/post.controller.js:107 | `findByIdAndDelete` removes exactly that document, leaves every other one as it was and keeps the table well formed |
| Tables.Select | backend/controllers/connection.controller.js:153-156 | `find(filter)` returns exactly the matching documents, once each, in natural order |
| Tables.SelectNewestFirst | backend/controllers/notification.controller.js:6-9 | `find(filter).sort({createdAt: -1})` returns exactly the matching documents, once each, newest first |
| Tables.FindOne | backend/controllers/connection.controller.js:23-27 | `findOne(filter)` finds nothing exactly when no document matches, and otherwise a matching one |
| Store.InsertUserKeepsStoreOk | backend/controllers/auth.controller.js:31-51 | after the email and username lookups fail, inserting the user keeps emails and usernames unique and the store consistent |
| Connections.Connect | backend/controllers/connection.controller.js:76-81 | after accepting, `z` is in a user's connections exactly when it was before or the pair is the accepting pair; no other field changes |
| Connections.Disconnect | backend/controllers/connection.controller.js:191-196 | after removing, `z` is in a user's connections exactly when it was before and the pair is not the removed pair |
| Connections.ConnectKeepsUsersOk | backend/controllers/connection.controller.js:76-81 | accepting keeps connections mutual, irreflexive and duplicate-free and leaves the two users connected both ways |
| Connections.DisconnectKeepsUsersOk | backend/controllers/connection.controller.js:191-196 | removing keeps connections consistent and leaves neither user in the other's list |
| Connections.DisconnectIdempotent | backend/controllers/connection.controller.js:191-196 | removing a connection twice has the effect of removing it once |
| Connections.SendConnectionRequest | backend/controllers/connection.controller.js:7-49 | 400 to oneself, 400 when already connected, 400 when a pending request in the same direction exists, all without change; otherwise exactly one new pending request and 201, with no connection changed |
| Connections.AcceptConnectionRequest | backend/controllers/connection.controller.js:52-114 | 404 when missing, 500 when the recipient is not a user, 403 when the caller is not the recipient, 400 when not pending, all without change; otherwise the status becomes accepted, both users are connected both ways, and one `connectionAccepted` notification for the sender is stored |
| Connections.RejectConnectionRequest | backend/controllers/connection.controller.js:117-147 | 404, 403, 400 in that order without change; otherwise only the status becomes rejected, with no connection or notification changed |
| Connections.RemoveConnection | backend/controllers/connection.controller.js:187-204 | always 200; both ids are pulled from each other's lists and no request or notification changes |
| Connections.GetConnectionStatus | backend/controllers/connection.controller.js:207-243 | connected exactly when the target is in the caller's list; not_connected exactly when it is not and no pending request exists in either direction; pending and received name a pending request in the right direction |
| Connections.StatusOfSinglePendingRequest | backend/controllers/connection.controller.js:212-234 | with one pending request between two unconnected users, its sender sees pending and its recipient sees received with its id |
| Connections.GetPendingConnectionRequests | backend/controllers/connection.controller.js:150-167 | exactly the pending requests addressed to the caller, once each |
| Posts.ToggleLike | backend/controllers/post.controller.js:206-213 | a liker is pulled (every occurrence), anybody else is appended; only the caller's membership flips and duplicate-freedom is kept |
| Posts.ToggleTwiceRestores | backend/controllers/post.controller.js:206-213 | like then unlike restores the original likes exactly |
| Posts.ToggleTwiceKeepsLikers | backend/controllers/post.controller.js:206-213 | unlike then like keeps the same likers and count, with the caller moved to the end |
| Posts.LikePost | backend/controllers/post.controller.js:196-236 | 404 without change for a missing post; otherwise 200 and the toggle; a `like` notification to the author only on the add branch and only when the liker is not the author |
| Posts.CreateComment | backend/controllers/post.controller.js:146-193 | a non-string content gives 500 and blank content gives 400, both without change; a missing post gives 500; otherwise the comment is appended with the caller as its user, earlier comments are kept, and a `comment` notification with the post's id is stored exactly when the commenter is not the author |
| Posts.CreatePost | backend/controllers/post.controller.js:54-80 | a non-string content gives 500; blank content gives 400; a failed upload of a given image gives 500; otherwise one new post by the caller, holding the uploaded URL or no image, and 201 |
| Posts.DeletePost | backend/controllers/post.controller.js:83-117 | 404 when missing, 403 when the caller is not the author; a failed image deletion gives 500; otherwise only that post is removed; the image is deleted under its derived public id |
| Posts.FromConnectionsAndSelf | backend/controllers/post.controller.js:11-18 | exactly the posts by the caller or a connection, once each, newest first |
| Posts.FromOthers | backend/controllers/post.controller.js:26-31 | exactly the posts by anybody else, once each, newest first |
| Posts.Suggested | backend/controllers/post.controller.js:26-32 | the first 10 of the others' posts, newest first (all of them when there are fewer) |
| Posts.Trending | backend/controllers/post.controller.js:20-24 | the first 10 posts (all of them when there are fewer) of the database's order for the likes sort, which lists every post once |
| Posts.NetworkAndOthersPartition | backend/controllers/post.controller.js:11-31 | the network query and the others query select complementary sets of posts |
| Posts.MergeUnique | backend/controllers/post.controller.js:34-43 | the `Map` keys: no duplicates, exactly the ids of the input, in order of first occurrence |
| Posts.GetFeedPosts | backend/controllers/post.controller.js:9-51 | the feed has no duplicates, holds only stored posts, holds exactly the posts returned by any of the three queries, and keeps each post at its first place in the concatenation of the queries |
| Notifications.GetNotifications | backend/controllers/notification.controller.js:6-9 | exactly the caller's notifications, once each, newest first |
| Notifications.MatchAsWritten | backend/controllers/notification.controller.js:21-25 | the lookup as written matches the document with the id, whoever it is addressed to |
| Notifications.MarkReadAsWritten | backend/controllers/notification.controller.js:21-25 | mark-read as written sets `isRead` on the document with the id |
| Notifications.DeleteAsWritten | backend/controllers/notification.controller.js:37-40 | delete as written removes the document with the id |
| Notifications.AsWrittenTouchesOthersNotifications | backend/controllers/notification.controller.js:21-25 | as written, a user marks as read and deletes a notification addressed to another user |
| Notifications.MarkRead | backend/controllers/notification.controller.js:21-25 | only the caller's matched notification changes, and only its `isRead`, which becomes true |
| Notifications.MarkReadIdempotent | backend/controllers/notification.controller.js:21-25 | marking as read twice is marking as read once |
| Notifications.MarkReadLeavesOthersAlone | backend/controllers/notification.controller.js:21-22 | a notification addressed to another user never changes |
| Notifications.MarkNotificationAsRead | backend/controllers/notification.controller.js:18-31 | always 200; the notifications become the mark-read result with the recipient-scoped lookup, and nothing else changes |
| Notifications.DeleteOwn | backend/controllers/notification.controller.js:37-40 | at most the caller's matched notification disappears and every other one stays unchanged |
| Notifications.DeleteOwnLeavesOthersAlone | backend/controllers/notification.controller.js:37-40 | a notification addressed to another user is never deleted, and deleting twice is deleting once |
| Notifications.DeleteNotification | backend/controllers/notification.controller.js:34-46 | always 200; the notifications become the delete result with the recipient-scoped lookup, and nothing else changes |
| Auth.IsEmail | backend/controllers/auth.controller.js:18-19 | the first-`@` check accepts exactly the strings the regular expression `^[^\s@]+@[^\s@]+\.[^\s@]+$` matches |
| Auth.EmailShape | backend/controllers/auth.controller.js:18 | a matching string has no white space, exactly one `@`, not first, and a `.` with text on both sides after it |
| Auth.EmailExamples | backend/controllers/auth.controller.js:18 | `a@b.c` and `a@b.c.` match |
| Auth.NonEmailExamples | backend/controllers/auth.controller.js:18 | strings without `@`, without an inner `.`, with an empty part, with a space or with two `@` do not match |
| Auth.Utf16Length | backend/controllers/auth.controller.js:24 | `length` counts UTF-16 code units: between one and two per character |
| Auth.SignupError | backend/controllers/auth.controller.js:13-38 | each message is returned exactly when every earlier check passes and its own check fails, in the order fields, email format, password length, email taken, username taken |
| Auth.Signup | backend/controllers/auth.controller.js:8-71 | a failing check gives 400 with its message and changes nothing; otherwise exactly one new user holding the hash of the password, and 200 |
| Auth.Login | backend/controllers/auth.controller.js:74-110 | 400 when a field is missing; success only for a user identified by email (when the identifier matches the pattern) or by username, whose hash matches; an unknown user and a wrong password give the same 400 |
| Auth.LoginSucceedsIff | backend/controllers/auth.controller.js:84-99 | with unique emails and usernames, login succeeds exactly when some identified user's hash matches the password |
| Auth.EmailShapedUsernameCannotLogIn | backend/controllers/auth.controller.js:84-88 | a username that matches the email pattern is looked up as an email, so it cannot be used to log in |
| Users.GetConnectionSuggestions | backend/controllers/user.controller.js:9-17 | at most 5 users, never the caller or a connection, and all suggestible users when fewer than 5 are returned |
| Users.GetUserProfile | backend/controllers/user.controller.js:30-48 | 404 exactly when no user has the username; otherwise that user's document without the password |
| Users.ProfileOfUniqueUsername | backend/controllers/user.controller.js:33-38 | usernames being unique, the profile found is that user's |
| Users.AllowedFieldsExcludeAccount | backend/controllers/user.controller.js:53-63 | the allow-list contains no password, username, email, connections or id |
| Users.AllowedFrom | backend/controllers/user.controller.js:65-70 | only allow-listed fields are copied |
| Users.CopyAllowedFields | backend/controllers/user.controller.js:65-70 | the loop copies exactly the allow-listed fields with truthy values, with those values |
| Users.UpdatedProfile | backend/controllers/user.controller.js:73-100 | a field keeps its stored value unless the body gives a truthy one; a given image field holds the uploaded URL, not the body's value |
| Users.UpdateUserProfile | backend/controllers/user.controller.js:51-109 | a failed upload gives 500 without change; otherwise only the caller's profile changes, as the updated profile, and 200 |
| Images.Folder | backend/utils/deleteImageFromCloudinary.js:4-5 | the folder never contains `/` |
| Images.ImageFile | backend/utils/deleteImageFromCloudinary.js:6 | the file never contains `/` or `.` |
| Images.PublicIdParts | backend/utils/deleteImageFromCloudinary.js:7 | the public id splits into exactly the folder and the file |
| Images.PublicIdOfPath | backend/utils/deleteImageFromCloudinary.js:4-7 | the folder is the segment before the last `/`, the file is the last segment without its extension |
| Images.PublicIdOfUpload | backend/utils/deleteImageFromCloudinary.js:4-7 | an image uploaded into folder `linkedin` is deleted as `linkedin/<name>` |
| Images.ImageFileWithoutExtension | backend/utils/deleteImageFromCloudinary.js:6 | a last segment without `.` is kept whole |
| Images.PublicIdWithoutSlash | backend/utils/deleteImageFromCloudinary.js:4-5 | a URL without `/` yields the folder text "undefined" |
| Scenarios.SendThenAccept | backend/controllers/connection.controller.js:34-81 | a request sent and then accepted leaves both users connected both ways |
| Scenarios.AcceptTwice | backend/controllers/connection.controller.js:68-74 | a second accept of an accepted request is refused with 400 |
| Scenarios.LikeTwice | backend/controllers/post.controller.js:206-213 | liking twice leaves the post as it was |

## Left out

- Connections.AcceptConnectionRequest: the request update and the two user updates are applied as one step. In the source they are separate writes, and a failure between them is not modelled.
- Connections.AcceptConnectionRequest: the 500 reached when the populated sender is missing after the status was saved does not occur. Users are never deleted, so every request's sender exists.
- Posts.CreateComment: the 500 for a post whose author user is missing does not occur, for the same reason.
- Posts.Trending: the order of a sort on the `likes` array is a parameter. It is required to list every post once, and how the database compares two arrays is not modelled.
- Notifications.MarkNotificationAsRead: applies the recipient-scoped lookup (`Notifications.MarkRead`), not the lookup as written. As written, the caller marks any notification with the given id, addressed to anybody (`Notifications.MarkReadAsWritten`).
- Notifications.DeleteNotification: applies the recipient-scoped lookup (`Notifications.DeleteOwn`), not the lookup as written. As written, the caller deletes any notification with the given id (`Notifications.DeleteAsWritten`).
- Users.UpdateUserProfile: the old picture and banner are deleted at the image host without waiting for the result. That call and its possible failure are not modelled.
- Auth.Signup: the text fields are strings, and a missing field is the empty string. Non-string JSON values are not modelled. The profile of a new user holds only its name; schema defaults are not modelled.
- Auth.Login: the same string-only restriction applies.
- Identifiers are natural numbers. A malformed ObjectId, which the database rejects with a cast error and a 500, is not modelled.
- Schema validation and casting by the document mapper are not modelled. Its defaults (pending status, unread notification) are taken as given.
- Database failures are not modelled: every save succeeds. So are the generic 500 replies that would follow one.
- Populated fields in replies and `createdAt` timestamps are not modelled. Creation time is the insertion order.
- Emails (welcome, connection accepted, comment) are not modelled. Their failures are swallowed by the handlers and never change a reply.
- Session tokens and cookies are not modelled: the JWT issued on signup and login, and the logout handler.
- Not modelled: `getCurrentUser`, `getConnections` and `getPostById`, which are plain reads outside the modelled core.
- Concurrency is not modelled: handlers run one at a time.
- Numbers in request bodies are integers. Floating point, NaN and -0 are not modelled.

## Findings

| source | as written | input that shows it | evidently intended | confidence | as-written member | corrected member |
|---|---|---|---|---|---|---|
| backend/controllers/notification.controller.js:21-25, 37-40 | `findByIdAndUpdate` / `findByIdAndDelete` get the object `{_id, recipient}` as the id. The filter becomes `{_id: object}`, and the ObjectId cast keeps only `object._id`, so the recipient condition is dropped | notification 0 addressed to user 1; user 2 marks notification 0 as read, or deletes it, and succeeds | only the recipient can mark as read or delete (a `findOneAndUpdate` / `findOneAndDelete` with both conditions) | medium, not executed | Notifications.AsWrittenTouchesOthersNotifications | Notifications.MarkReadLeavesOthersAlone |

# Presence and fan-out core of the chat relay

This project models the in-memory core of the Node.js chat relay, `server.js`. The relay keeps:

- a `ChatUser` per user, with its live sockets, its idle and offline flags, its raw status, its block list and its contacts;
- a `UserSessions` store per user, holding the session keys the backend registered;
- a `ChatInstance` per conversation, holding its participants.

On those it decides three things: who receives an event, what status each viewer sees of each user, and which socket events a handler may act on. Around that core sit the small string helpers the relay uses: HTML escaping of messages, the backend's failure test, zero padding, date strings and query strings.

The model is written in Dafny, in the source's own shape:

- The objects whose fields the relay updates become classes with `modifies` frames: `ChatUser`, `UserSessions`, `ChatParticipant`, `ChatInstance` and the registries of `ChatServer`.
- The loops over sockets, contacts, participants, tokens and users become methods with loop invariants.
- The pure helpers become functions with lemmas.
- Every `socket.emit(kind, data)` appends one message to the outbox of that socket, inside one `Network` object. Each fan-out is specified by a pure function over value snapshots of the users involved, so a promise about what the sockets receive does not depend on how the heap changes between two broadcasts.
- The clock is an integer `now` in milliseconds, passed to every operation that reads `new Date()`.
- The `setTimeout` debounce timer is an explicit pending flag and due time, plus a `FireOfflineTimer` method for the moment the scheduler runs it.
- One tick of the `setInterval` sweep is the `StatusDeamonTick` method.

Modules:

- `Presence`: statuses, timing constants, the viewer-relative status.
- `Wire`: socket outboxes.
- `Users`: `ChatUser` and the fan-out functions.
- `Sessions`: `UserSessions`.
- `Chats`: `ChatParticipant` and `ChatInstance`.
- `Server`: the `ChatServer` registries, the offline sweep, the chat hiding rule and the handler guard.
- `Backend`: `HasFailed` on a JSON answer.
- `Text`: escaping, numbers, dates and query strings.
- `Wrappers`: an `Option` type.

### Where the code differs from its comments, and what it does

- **Sessions kept.** The comment at server.js:26 says at most five sessions are kept. `AddSession` tests the length before it pushes, so a store keeps six keys: after six keys the first is still valid, and a seventh evicts it (`Sessions.SixKeptSeventhEvicts`).
- **AddSocket and the timer.** `AddSocket` leaves a pending offline timer alone; the timer's callback re-checks the socket count when it fires. `Ping` at server.js:64 clears `isOffline` before the test at server.js:65, so that branch, which would force the status to ONLINE and broadcast, cannot be reached.
- **GetStatus.** `GetStatus` looks at the `isOffline` flag, not at the number of sockets.
- **AddAsContact.** `AddAsContact` appends without removing duplicates.
- **Unknown users and missing senders.** `BlockUser` is called with `this.users[id]` for ids that may not be registered (server.js:649, server.js:897), so `undefined` can enter a block list; a block list is a sequence of `ChatUser?`, with `null` for `undefined`. The OpenChat answer is delivered through `ReceiveMessageInSocket` without a sender (server.js:457), modelled as `null`: a user whose block list holds `undefined` refuses it and is not pinged.
- **Status ids.** `ChangeStatus` stores the client's `statusId` unchecked (server.js:921-925). The stored status is an integer id; the four named statuses are the ids 0 to 3, and any other id is stored and relayed as it is.

## Model

| member | source | states |
|---|---|---|
| Presence.StatusId | server.js:12-16 | ONLINE, AWAY, BUSY and OFFLINE travel as 0 to 3, and each identifier reads back to its status |
| Presence.StatusOfId | server.js:12-16 | exactly the identifiers 0 to 3 name a status |
| Presence.EffectiveStatus | server.js:220-232 | GetStatus's precedence over a raw status id, each named answer characterised in both directions. A viewer the subject blocked sees OFFLINE whatever the subject's state. Otherwise an offline or disabled subject is OFFLINE. Otherwise an inactive ONLINE or AWAY subject is AWAY. Otherwise the raw id, named or not, is relayed unchanged; the answer is always the raw id or a named status |
| Wire.SentAfterEmit | server.js:100-102 | emitting on a set of sockets appends the event once to each of them and leaves every other socket's history alone |
| Wire.EmitOneMore | server.js:100-102 | emitting socket by socket reaches the same outboxes whatever the order the loop visits the sockets in |
| Wire.Network.Send | server.js:101 | one emit appends the event to that socket's history only |
| Users.ChatUser.constructor | server.js:43-55 | a new user is offline, with ONLINE as raw status, not inactive (the source never initialises this flag), with no sockets, blocks or contacts, no pending timer, and both activity stamps at the current time; its block list is free of duplicates |
| Users.ChatUser.CountSockets | server.js:89-95 | the counting loop gives the number of live sockets, zero exactly when there is none |
| Users.ChatUser.GetStatus | server.js:220-232 | a viewer the user blocked, and every viewer while the user is offline or disabled, sees OFFLINE. An active user shows its raw status id, an idle one AWAY in place of ONLINE and any other id unchanged. The answer is the raw id or a named status |
| Users.ChatUser.ActiveAfterPing | server.js:148-151 | IsInactive after a ping at t: the user counts as inactive exactly once more than 120000 ms have passed, and until then every viewer it has not blocked sees its raw status unless it is disabled |
| Users.ChatUser.DueAfterPing | server.js:155-156 | OfflineDue, the daemon's test, after a ping at t: the user is due exactly once more than 300000 ms have passed without activity or idle check |
| Users.ChatUser.IsBlocked | server.js:185-191 | the search answers true iff the target, possibly `undefined`, is on the block list (object identity) |
| Users.ChatUser.EmitToSockets | server.js:100-102 | the event lands once on every active socket of the user |
| Users.ChatUser.Notify | server.js:97-105 | a delivery that is not activity: nothing when the user is disabled or has blocked the sender, otherwise the event on every socket |
| Users.ChatUser.ReceiveMessage | server.js:97-105 | the same guard. When the event is accepted and counts as activity, the user is left pinged and the ping's broadcasts follow the delivery. Otherwise no activity field changes |
| Users.ChatUser.ReceiveMessageInSocket | server.js:107-113 | the same guard, with the event appended to the one given socket only. Without a sender the event is refused exactly when the user is disabled or `undefined` is on its block list |
| Users.ChatUser.BroadcastStatus | server.js:127-140 | each contact in list order is told the status it sees of this user, and then the user's own sockets get the status the user sees of itself. Blocking and disabling are respected on each side |
| Users.ChatUser.StatusToContacts | server.js:128-134 | the contact loop of BroadcastStatus: one NewStatus per contact, in list order, carrying that contact's view |
| Users.ChatUser.Ping | server.js:162-173 | both stamps go to now and neither flag stays set. There is one broadcast for each flag the ping clears: first with only the inactive flag cleared, then with both cleared |
| Users.ChatUser.ClearInactive | server.js:165-168 | an inactive user becomes active with one broadcast; an active one is left as it is and nothing is sent |
| Users.ChatUser.ClearOffline | server.js:169-172 | an offline user comes back with one broadcast; an online one is left as it is and nothing is sent |
| Users.ChatUser.AddSocket | server.js:57-73 | the socket is registered and the user is pinged, so it ends not offline. The raw status is not in the frame, so it never changes. The only broadcasts are the ping's |
| Users.ChatUser.RemoveSocket | server.js:75-87 | the socket is forgotten and the pending timer is always cancelled. A new timer, due 10000 ms later, is armed iff no socket is left |
| Users.ChatUser.FireOfflineTimer | server.js:80-85 | an armed timer that is due fires once and is disarmed. It marks the user offline and broadcasts exactly when no socket was added since; otherwise the firing changes nothing and sends nothing |
| Users.ChatUser.SetStatus | server.js:142-146 | the new raw status id, whatever id the client sent, then a ping, then one more broadcast of the new status |
| Users.ChatUser.CheckIdle | server.js:212-218 | only the first check that finds the user inactive raises the flag and broadcasts; a repeated check sends nothing. Every check records its time |
| Users.ChatUser.OfflineDeamonCall | server.js:153-160 | the user goes offline, with one broadcast, iff it is not offline, inactive, and more than 300000 ms past its last idle check. Otherwise nothing changes |
| Users.ChatUser.Disable | server.js:175-178 | the user is disabled and its status is broadcast |
| Users.ChatUser.Enable | server.js:180-183 | the user is enabled again and its status is broadcast |
| Users.ChatUser.BlockUser | server.js:193-200 | the target, possibly `undefined`, joins the block list unless already on it, and only an actual change broadcasts. A block list without duplicates stays without |
| Users.ChatUser.UnbockUser | server.js:202-210 | the first occurrence of the target leaves the list, and only an actual change broadcasts. A block list without duplicates stays without, and then the target is no longer blocked |
| Users.ChatUser.AddAsContact | server.js:115-117 | the contact is appended, duplicates included |
| Users.ChatUser.BroadcastToContacts | server.js:119-125 | every contact in list order gets the event as non-activity; the user itself is pinged iff `activity` |
| Users.ChatUser.NotifyContacts | server.js:120-122 | the contact loop: each contact takes the event on all of its sockets or refuses it |
| Users.ChatUser.SetPictureHash | server.js:234-236 | the new picture hash |
| Users.WithoutFirstAt | server.js:203-205 | the splice at the first index holding the target removes exactly its first occurrence |
| Users.WithoutFirstContents | server.js:202-210 | unblocking removes one occurrence of the target and keeps every other entry (as a multiset). An absent target changes nothing |
| Users.BlockIdempotent | server.js:193-200 | blocking twice is blocking once, and the target is blocked afterwards |
| Users.UnblockIdempotent | server.js:202-210 | on a block list without duplicates, unblocking twice is unblocking once |
| Users.UnblockUndoesBlock | server.js:193-210 | unblocking right after blocking someone who was not blocked restores the block list |
| Users.NoDuplicatesKept | server.js:193-210 | a block list without duplicates keeps none under BlockUser and UnbockUser, and an unblocked user is then no longer blocked |
| Users.SentDeliverAll | server.js:119-122 | a socket receives the event once per accepting receiver that owns it, and no other socket receives it |
| Users.SentContactsStatus | server.js:128-134 | what a status broadcast to the contacts leaves on one socket, in visiting order |
| Users.StatusReceiptsBlocked | server.js:221-222 | a receiver whom the subject blocked is told OFFLINE by every status broadcast |
| Users.OwnSocketStatus | server.js:135-139 | a socket no contact owns gets exactly one NewStatus from a broadcast, the status the user sees of itself |
| Users.PingOwnSocket | server.js:162-173 | on the user's own socket, a ping shows first the status with only the inactive flag cleared and then the status with both cleared. A ping that clears nothing sends nothing |
| Users.ChatFanoutNoSender | server.js:245-247 | a chat broadcast in which no participant has the sender's id pings nobody: it is a plain delivery to every participant |
| Sessions.RecordedShape | server.js:24-30 | AddSession drops only the single oldest key, and only when more than five are held. The new key is last, and a store of at most six stays at most six |
| Sessions.ReplayKeepsNewestSix | server.js:24-30 | a store fed any run of logins from empty holds exactly the six most recent, oldest first |
| Sessions.ValidAfterLogins | server.js:32-38 | a key is valid after a run of logins iff it is one of the last six, and the key just added always is |
| Sessions.SixKeptSeventhEvicts | server.js:25-29 | after six distinct logins the first key is still valid, and a seventh login evicts it |
| Sessions.UserSessions.constructor | server.js:21-23 | a new store is empty |
| Sessions.UserSessions.AddSession | server.js:24-30 | the history becomes Recorded(old history, key): the bound of six is kept and the key is valid afterwards |
| Sessions.UserSessions.IsValidSession | server.js:32-38 | valid iff the key is in the history (exact match) |
| Chats.ChatParticipant.constructor | server.js:241-244 | the participant points to its user and its chat |
| Chats.ChatParticipant.ReceiveMessage | server.js:245-247 | the copy counts as activity exactly when the participant's user id is the sender's. Only that user can be pinged |
| Chats.RelayInOrder | server.js:288-290 | the participants get the event in the order of the keys; only the sender's own user, at its turn, is pinged |
| Chats.ChatInstance.constructor | server.js:252-256 | a new chat has no participants, n = 0, and is not a group chat |
| Chats.ChatInstance.AddParticipant | server.js:257-266 | a user already present changes nothing. A new one is filed under its id, n goes up by one, and the group flag is raised once n > 2 and never lowered. The roster becomes Joined(old roster, user). n stays equal to the number of keys |
| Chats.ChatInstance.RemoveParticipant | server.js:268-273 | an absent id changes nothing. A present one is removed and n goes down; the group flag is kept |
| Chats.ChatInstance.GetParticipantKeys | server.js:279-285 | every participant id exactly once, n of them |
| Chats.ChatInstance.BroadcastToChat | server.js:287-291 | every participant, in the table's enumeration order, gets the event through its own guard. Only the sender's own user, when it is a participant and takes the event, is pinged; without it the broadcast is a plain delivery |
| Backend.IndexOf | server.js:476 | `indexOf`: the first position at or after `from`, clamped to the string's length, where the pattern occurs, or -1; an empty pattern occurs at the clamped start |
| Backend.ArrayIndexOf | server.js:476 | the array `indexOf`: the first index at or after `from` holding the item, or -1 |
| Backend.HasFailed | server.js:474-489 | a null answer or a Value without `indexOf` throws and counts as failed. An answer without Value passes. A string Value fails iff it starts with "Error", and an array Value fails iff its first item is "Error" |
| Backend.ErrorPrefixDecides | server.js:476 | only the first five characters of a string Value decide the verdict |
| Text.ProcessMessage | server.js:974-977 | the escaped message is the single-pass escape of the message, holds no `<`, `"` or `'`, and decodes back to the original message |
| Text.PassesChar | server.js:975 | the four replace passes turn one character into its entity: no pass touches what an earlier one wrote, and `>` is left alone |
| Text.PassesAreEscape | server.js:975-976 | the four global replaces, `&` first, equal a single-pass escape |
| Text.NatToStringRoundTrip | server.js:1004 | the decimal string of a number reads back to it, and its length is the number's count of decimal digits: the least k with n < 10^k |
| Text.AddZero | server.js:1003-1005 | 0 to 9 get a leading zero, and 0 to 99 come out as two digits that read back to the number. A negative number or one of 10 and more is written as is |
| Text.DateTimeWithIs | server.js:1009-1016 | the two joins give the six fields with "-" inside the date, the time separator inside the time, and the middle separator between |
| Text.GetDateTime | server.js:1020-1031 | "YYYY-MM-DD hh:mm:ss" is 19 characters with its separators at fixed places, and each field reads back to its component (the month one more than getMonth()) |
| Text.GetDateTimeForURL | server.js:1007-1017 | for a real date, the URL form is the GetDateTime form with ":" encoded as "%3a" and the blank as "+" |
| Text.QueryStringFromJSON | server.js:1033-1042 | the result is the `attribute=value` items in enumeration order, with "&" between two of them and never in front |
| Text.JoinSnoc | server.js:1036-1039 | one more item adds "&" and the item, except to an empty string |
| Text.QueryStringRoundTrip | server.js:1033-1042 | the query string parses back to the pairs it was built from, given no "&" or "=" in an attribute and no "&" in a value |
| Server.HiddenFrom | server.js:430-441 | the counting loop hides the chat iff the requester blocked exactly all but one participant |
| Server.HiddenIffOthersBlocked | server.js:675-686 | with the requester in the list once and not self-blocked, the chat is hidden iff the requester blocked every other participant |
| Server.HiddenPairs | server.js:439-441 | a two-person chat is hidden iff the other person is blocked; a chat of the requester alone is always hidden |
| Server.JoinedAllTable | server.js:373-375 | after the users of a list join, every id of the list is present and held by the first user of the list with that id, and ids already present keep their user |
| Server.AddAll | server.js:373-375 | the loop over the list: the roster becomes JoinedAll(old roster, list), the chat stays consistent, and the group flag is raised iff it was or n > 2 |
| Server.ChatServer.RegisterUser | server.js:469 | LoadUsers's entry: a new ChatUser, offline with no sockets, replaces whatever was filed under the id |
| Server.ChatServer.UserFor | server.js:620-623 | Login's lookup: the user filed under the id, or a new one filed there when there is none. Each user stays filed under its own id |
| Server.ChatServer.UpdateSessionKey | server.js:378-383 | a store is created on first use and the key is recorded: it joins the user's login history, and the user holds it afterwards. Every store keeps holding the newest six of its user's logins |
| Server.ChatServer.IsValidSession | server.js:385-387 | an unknown user holds no valid key. A known one holds exactly its six newest registered keys |
| Server.ChatServer.ChatFor | server.js:368-372 | the chat filed under the id, or a new empty one filed there |
| Server.ChatServer.StoreChat | server.js:367-376 | the chat is created on first use. Its roster becomes JoinedAll(old roster, users), its group flag is raised iff it was or n > 2, and no other chat changes |
| Server.ChatServer.StatusDeamonTick | server.js:358-365 | one sweep: exactly the users that were due go offline, the others keep their flag, and a sweep with nobody due sends nothing |
| Server.ChatServer.SweepUser | server.js:362 | one step of the sweep: the user leaves the pending set and goes offline iff it was due; no other user changes |
| Server.ChatServer.ChatGuard | server.js:749 | the guard of AddToChat, LeaveChat, SendMessage and SendFile (also server.js:789, 820, 856). The handler proceeds iff the session is valid, the chat exists and the requester is a participant. It is aborted by the TypeError exactly when the session is valid and the chat id names no chat. Otherwise it does nothing |

## Left out

- HTTP/HTTPS server creation, certificate reads, and socket.io listening and event wiring (server.js:322-356, 491-596): I/O and framework glue.
- `RESTCall`, `LoadUsers`'s request, and the backend-response continuations of `Login`, `OpenChatAux`, `RestoreChats`, `AddToChat`, `LeaveChat`, `SendMessage`, `SendFile`, `ChangePicture`, `SeenMessages`, `BlockUser`/`UnblockUser` and `Disable`/`Enable`: network calls and JSON decoding. The state updates they make (RegisterUser, UserFor, StoreChat, the ChatUser and ChatInstance methods), the hiding rule and the guard are modelled.
- `setTimeout`/`setInterval` scheduling and `new Date()`: replaced by the `now` parameter, `FireOfflineTimer` and `StatusDeamonTick`. Dates are the six components a `Date` reports (`Text.Clock`); time zones and calendar validity beyond the ranges of `ValidClock` are not modelled.
- `GenerateGUID` (server.js:994-1000): it depends on `Math.random`.
- `SafeExecute` and every `console.log` (server.js:598-604): logging has no observable effect. An exception SafeExecute catches appears only as the guard's `Abort` result.
- `HandleInternalRequest` (server.js:390-405): URL parsing by Node's `url`. Only the `UpdateSessionKey` it calls is modelled.
- The `socket` objects: a socket is its id, and `activeSockets` is the set of ids. An emit appends to that id's outbox.
- `Text.QueryStringFromJSON`: values are taken as already converted to strings, since `+` converts them. The object's enumeration order is the order of the pair sequence.
- `Backend.HasFailed`: a JSON answer stands for the decoded response. Values other than null, booleans, integers, strings, arrays and objects do not occur.
- `Server.ChatServer.StatusDeamonTick`: states the outbox only for a sweep with nobody due. The user table's enumeration order is left open, since the loop takes the pending users in any order, so the interleaving of several users' broadcasts is not stated. Each single broadcast is stated by `Users.ChatUser.OfflineDeamonCall`.
- `Server.ChatServer.UpdateSessionKey`: does not state directly that other users' stores keep their keys. This follows from `SessionsValid`, which ties each store to its user's login history, and the history changes only at `userUID`.
- `Chats.ChatInstance.BroadcastToChat`: the table's enumeration order is returned as a ghost value, not fixed; the contract holds for that order.
- `Chats.ChatParticipant.ReceiveMessage` and `Chats.RelayInOrder`: the receiver snapshot and the ping view are ghost parameters that the caller ties to the heap in the preconditions.
- Users.ChatUser.SetStatus: a status id is an integer; a client value of another type (a string, an object) and JavaScript's loose `==` between a string id and a number are not modelled.
- Backend.ArrayIndexOf: items are compared by structural equality, where `indexOf` uses `===`. The two agree on the string "Error" that HasFailed looks for, and differ only for object and array items.
- Session keys and participant keys are compared as strings: `IsValidSession`'s loose `==` (server.js:34) and the stringified participant keys that `indexOf` searches (server.js:749) are taken to hold string ids.
- The 10000 ms period of the sweep (server.js:364) is the scheduler's: `StatusDeamonTick` is one tick, run whenever the scheduler calls it.
- The source's own `Array`-as-map quirks (`participants` is an `Array` indexed by user ids): the participants are a map from user id to participant.

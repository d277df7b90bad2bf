# Chatting-app: a verified model of the chat core

This project models the core of a real-time chat application. The backend is
an Express server with a Socket.IO server. The frontend is a React client.

The backend parts modelled are:

- the socket server's routing tables and event handlers;
- the REST endpoints that store and list messages;
- the configuration of the profile-picture upload;
- the last error-handling middleware.

The client parts modelled are:

- the chat context's state updaters and its room bookkeeping;
- the grouping of the message list;
- the message composer with its typing indicator;
- the group-chat and private-chat dialogs;
- the profile-picture upload page.

Modelling conventions:

- **Ids** are `Id = Num(int) | Str(string)`. JavaScript's `===` is datatype
  equality. An object key is the id rendered by `toString()`.
- **JavaScript Sets and Map key lists** whose order can be observed are
  duplicate-free sequences in insertion order.
- **Emits** are appended to event logs. On the server, each logged emit
  records the sockets it reaches at that moment.
- **Imperative code** is modelled as classes whose methods state their whole
  new state:
  - the socket server: `SocketServer.Server`;
  - the message store: `MessagesController.MessageStore`;
  - the `joinedRooms` ref: `ChatRooms.RoomJoiner`;
  - the components: `Composer`, `GroupChatForm`, `PrivateChatDialog` and
    `ProfilePage`.
- **Loops** in the source are `while` loops with invariants, proved against
  specification functions:
  - the `forEach` loops: `AddMembers`, `NotifyParticipants`, `JoinChats`,
    `LeaveAllJoined`, `BuildChatUsers` and `ExistingUserIds`;
  - the message list's `reduce`: `GroupMessages`.
- **React state updaters** are pure functions on the previous state
  (`ChatState`). The composer's effect rules are transitions on a `Snapshot`
  of the component (`MessageInput`).

Modules:

- `JsBase`: the JavaScript semantics used throughout:
  - `String.prototype.trim` with the full list of white-space characters;
  - `toString` of ids and truthiness;
  - `startsWith`, unanchored substring search and ASCII `toLowerCase`;
  - ordered sets.
- `Entities`: users, messages and chats, and the
  `members || participants || []` rule.
- `SocketServer`: `backend/src/socket/socket.js`.
- `MessagesController`: `backend/src/controllers/messagesController.js`, with
  the queries of `backend/src/models/messageModels.js`.
- `ChatState` and `ChatRooms`: `frontend/src/contexts/ChatContext.jsx`.
- `MessageGroups`: `frontend/src/Components/MessageList.jsx`.
- `MessageInput`: `frontend/src/Components/MessageInput.jsx`.
- `CreateGroupChat`: `frontend/src/Components/CreateGroupChat.jsx`.
- `NewPrivateChat`: `frontend/src/Components/NewPrivateChat.jsx`.
- `UserProfile`: `frontend/src/pages/UserProfile.jsx`.
- `UploadConfig`: `backend/src/config/multerConfig.js`.
- `ErrorHandler`: lines 55-76 of `backend/index.js`.
- `SendFlow`: one message sent through the REST endpoint, the client's
  follow-up `sendMessage` emit and the server's relay, as another member's
  client counts it.

## Model

| member | source | states |
|---|---|---|
| SocketServer.Server.Connect | backend/src/socket/socket.js:20-32 | A new connection only records the handshake's user id for that connection. No table, room or log changes. |
| SocketServer.Server.Identify | backend/src/socket/socket.js:35-53 | Identify sets `userSockets[u] := socket` (the last identify wins) and `socketUsers[socket] := u`. It joins personal room `u` and emits the debug text, then the online list to every connection. The online list names each `userSockets` key exactly once, in insertion order. With no user id it throws: only the connection's `userId` was overwritten. |
| SocketServer.Server.JoinRoom | backend/src/socket/socket.js:56-61 | Joins the room as given, then emits `debug` and `roomJoined` to the sender. `chatMembers` is unchanged. |
| SocketServer.Server.JoinChatRoom | backend/src/socket/socket.js:64-75 | Joins the room and adds the payload's user id, not the connection's, to `chatMembers[chatId]`, creating the set first. With no user id, only the empty set was created. |
| SocketServer.Server.LeaveRoom | backend/src/socket/socket.js:78-86 | Leaves the room. The connection's own user is removed from a tracked chat's members only when that id is truthy. |
| SocketServer.Server.SendMessage | backend/src/socket/socket.js:89-94 | One `receiveMessage` to room `chat_id.toString()` minus the sending socket. Nothing is stored. |
| SocketServer.Server.Typing | backend/src/socket/socket.js:97-100 | One `userTyping` with the payload to the room minus the sender. |
| SocketServer.Server.CreatePrivateChat | backend/src/socket/socket.js:103-124 | With both ids: `newChatAdded` to the second user's personal room, then the acknowledgement to the sender. A missing id sends only the `error` event. |
| SocketServer.AddMembers | backend/src/socket/socket.js:131-135 | The loop yields the old members plus the string of every participant. |
| SocketServer.NotifyEmits | backend/src/socket/socket.js:137-144 | At most one emit per participant. Every emit is `newChatAdded` with the chat, sent to a room. |
| SocketServer.NotifyEmitsTargets | backend/src/socket/socket.js:137-144 | Exactly the participants whose string differs from the connection's own id get `newChatAdded` in their personal room. Each emit reaches that room and nothing else is sent. |
| SocketServer.Server.NotifyParticipants | backend/src/socket/socket.js:138-144 | The notification loop appends exactly `NotifyEmits`, in participant order. |
| SocketServer.Server.NewGroupChatCreated | backend/src/socket/socket.js:127-145 | Every participant's string is in `chatMembers[chatId]`, with the old members kept. Every participant other than the connection's user is notified in their room. No other table changes. |
| SocketServer.Server.Disconnect | backend/src/socket/socket.js:148-160 | The socket has left every room and the connection set. If the socket was identified, its user's `userSockets` entry is deleted even when it names a newer socket. Its own `socketUsers` entry is deleted and the online list is rebroadcast. `chatMembers` never changes. |
| SocketServer.LastIdentifyWins | backend/src/socket/socket.js:40-41 | Two sockets of user 7: the later one is recorded and the earlier keeps its `socketUsers` entry. |
| SocketServer.DisconnectOfOlderDevice | backend/src/socket/socket.js:148-160 | Closing the older device announces user 7 offline although the newer device is connected. |
| SocketServer.ReidentifiedSocketLeavesStaleUser | backend/src/socket/socket.js:148-160 | A socket that identified as 7 and then 8 leaves 7 listed online after it closes. |
| SocketServer.RelaySkipsSender | backend/src/socket/socket.js:89-100 | Typing and relayed messages reach only the other socket of the room. |
| SocketServer.MembershipOutlivesConnection | backend/src/socket/socket.js:64-86 | `leaveRoom` removes the connection's user, not the payload's, and `disconnect` leaves `chatMembers` alone. |
| SocketServer.Server.EmitToRoom | backend/src/controllers/messagesController.js:27-28 | `io.to(room)` reaches every socket in the room, the sender's included. |
| SocketServer.Delivered | backend/src/socket/socket.js:89-94 | A socket gets a message from an emit exactly when the emit reaches it and is `receiveMessage`, and then it gets that emit's message. |
| MessagesController.Int4 | backend/src/models/messageModels.js:4-7 | A value is an `integer` exactly when it lies between -2147483648 and 2147483647, and then it is itself. |
| MessagesController.PgStrip | backend/src/models/messageModels.js:4-7 | Stripping never lengthens the text and leaves no white space at either end. Text without white space is kept. |
| MessagesController.SqlInt | backend/src/models/messageModels.js:4-7 | A value read is always in the `integer` range. A number is read as itself exactly when it is in range. |
| MessagesController.SqlIntOfRendered | backend/src/controllers/messagesController.js:44-46 | A number's decimal text, which is what a route parameter holds, reads exactly as the number does: the same value in range, the same error outside it. |
| MessagesController.SqlIntAcceptedForms | backend/src/models/messageModels.js:4-7 | " 5\n" and "+5" read as 5, and "-5" as -5. |
| MessagesController.SqlIntRejectedForms | backend/src/models/messageModels.js:4-7 | "5a", "-" and "" are errors, and so is 2147483648. |
| MessagesController.ChatRows | backend/src/models/messageModels.js:19-25 | A row is listed exactly when it belongs to the chat. |
| MessagesController.MarkRead | backend/src/models/messageModels.js:28-30 | The update keeps the length. Exactly the chat's rows get `is_read = true`. |
| MessagesController.MarkReadOtherChats | backend/src/models/messageModels.js:28-30 | Marking one chat leaves every other chat's listing unchanged. |
| MessagesController.MarkReadOwnChat | backend/src/models/messageModels.js:28-30 | The chat's own listing keeps its length and rows, each now read. |
| MessagesController.SendStep | backend/src/controllers/messagesController.js:9-39 | A rejection is a 400, a 404 or a 500. An insert is for an existing chat, with non-blank content and a truthy sender. |
| MessagesController.SendStepInsertsIff | backend/src/controllers/messagesController.js:9-39 | A row is inserted if and only if all of these hold: there is a user, the chat id and sender id are truthy, the content is not blank, the chat exists and no query fails. The row keeps the untrimmed content. |
| MessagesController.SendStepBadRequestIff | backend/src/controllers/messagesController.js:12-16 | A 400 comes if and only if a user is present and the input check fails. The check runs before any query. |
| MessagesController.SendStepNotFound | backend/src/controllers/messagesController.js:18-21 | A valid request for an absent chat gets a 404, whatever the insert would do. |
| MessagesController.MessageStore.SendMessage | backend/src/controllers/messagesController.js:9-39 | The socket server's connections, rooms, user and socket tables, chat members and user order stay as they were. A rejected request leaves the rows, the next id, the clock and the socket log unchanged. An accepted one appends the row and answers 201 with it. When `io` exists, it emits the row to room `chat_id.toString()`. Rows stay in time order. |
| MessagesController.MessageStore.GetMessagesByChat | backend/src/controllers/messagesController.js:42-59 | Answers 500 or 404 in the source's order, leaving the rows untouched. Otherwise it answers 200 with the chat's rows as they were before marking, then marks them read. |
| MessagesController.RestSendReachesSender | backend/src/controllers/messagesController.js:23-28 | A REST send is stored first and reaches both sockets of the room, the sender's included. |
| ChatState.Confirmed | frontend/src/contexts/ChatContext.jsx:118 | The replacement has the server's id, content and sender id. It keeps the temp's sender when there is one. |
| ChatState.ReplaceTemps | frontend/src/contexts/ChatContext.jsx:112-120 | It keeps the length. Exactly the matching temp messages are replaced. |
| ChatState.MergeIncoming | frontend/src/contexts/ChatContext.jsx:99-123 | The list grows by one exactly when the id is not already shown and no temp matches; afterwards a message with the incoming id is listed. |
| ChatState.MergeAppendsNew | frontend/src/contexts/ChatContext.jsx:99-123 | A message neither shown nor matched by a temp is appended. |
| ChatState.MergeReplacesTemps | frontend/src/contexts/ChatContext.jsx:110-121 | With a matching temp, each match is replaced in place and everything else is kept. |
| ChatState.MergeKnownIdUnchanged | frontend/src/contexts/ChatContext.jsx:101-121 | An id already shown, with no temp matching it, leaves the list as it was. |
| ChatState.MergeKeepsIdsUnique | frontend/src/contexts/ChatContext.jsx:99-123 | Without matching temps, merging never duplicates an id. |
| ChatState.MergeDuplicatesEqualTemps | frontend/src/contexts/ChatContext.jsx:112-120 | Two temps with the same text are both replaced by the first echo, giving one id twice. |
| ChatState.WithSender | frontend/src/contexts/ChatContext.jsx:89-94 | Only `sender` may change. It is filled from `chatUsers` only when it is missing and `sender_id` is truthy and known. |
| ChatState.UnreadCount | frontend/src/contexts/ChatContext.jsx:548-553 | A missing counter reads as 0. A present counter reads as its stored value. |
| ChatState.BumpUnread | frontend/src/contexts/ChatContext.jsx:129-132 | The chat's count goes up by one. Chats with other keys are unchanged. |
| ChatState.ResetUnread | frontend/src/contexts/ChatContext.jsx:298-301 | The chat's count is 0. Chats with other keys are unchanged. |
| ChatState.ReplaceChat | frontend/src/contexts/ChatContext.jsx:180-183 | It keeps the length. The chat with the same id is replaced. |
| ChatState.ReplaceChatProperties | frontend/src/contexts/ChatContext.jsx:180-183 | Replacing keeps the set of ids and is idempotent. An unlisted id changes nothing. |
| ChatState.UpsertChatProperties | frontend/src/contexts/ChatContext.jsx:149-157 | After an upsert the chat is listed and the ids are the old ones plus its id. The length grows only when the id was absent. A second upsert changes nothing. |
| ChatState.UpsertChat | frontend/src/contexts/ChatContext.jsx:149-157 | Replace in place when the id is listed, or else prepend. What this gives is `UpsertChatProperties`. |
| ChatState.PrependChat | frontend/src/contexts/ChatContext.jsx:481 | The list always grows by one, the new chat first, and the ids become the old ones plus its id. |
| ChatState.PrependVersusUpsert | frontend/src/contexts/ChatContext.jsx:481 | For an unlisted id, prepending is the same as upserting. For a listed id, prepending lists the id twice and is one longer than the upsert. |
| ChatState.WithLastMessage | frontend/src/contexts/ChatContext.jsx:228-236 | Exactly the chats with the message's `chat_id` get it as `last_message`. |
| ChatState.WithLastMessageProperties | frontend/src/contexts/ChatContext.jsx:228-236 | The ids are kept. An unlisted chat id changes nothing. |
| ChatState.HandleNewMessageUnread | frontend/src/contexts/ChatContext.jsx:85-138 | A message from another user in another chat raises that counter by one. One's own messages never raise a counter. A message in the open chat raises none and is merged. |
| ChatState.HandleNewMessage | frontend/src/contexts/ChatContext.jsx:85-138 | The messages grow by at most one and the chat list keeps its length. Counters of chats with other keys are unchanged. |
| ChatState.SetTyping | frontend/src/contexts/ChatContext.jsx:189-203 | The chat's entry exists afterwards. The user is added or removed. Duplicate-freedom is kept and other chats are unchanged. |
| ChatState.SetTypingIdempotent | frontend/src/contexts/ChatContext.jsx:189-203 | Repeating an event changes nothing. Start then stop leaves the user out. |
| ChatState.ShownTypersExact | frontend/src/contexts/ChatContext.jsx:537-545 | A user is shown exactly when they are the known user of a typing id other than one's own. |
| ChatState.ShownTypers | frontend/src/contexts/ChatContext.jsx:537-545 | Everyone shown is a user of the directory. |
| ChatState.TypingUsers | frontend/src/contexts/ChatContext.jsx:537-545 | Everyone shown is a known user. With no open chat nobody is shown. |
| ChatState.TypingUsersExcludeSelf | frontend/src/contexts/ChatContext.jsx:537-545 | With numeric ids and a consistent directory, the user never sees themself typing. |
| ChatState.FindOtherFirst | frontend/src/contexts/ChatContext.jsx:571-580 | The other user is the first member with a different id. There is none exactly when every member has the user's id. |
| ChatState.FindOther | frontend/src/contexts/ChatContext.jsx:571-580 | A member found is one of the members and has a different id. |
| ChatState.OtherUser | frontend/src/contexts/ChatContext.jsx:571-580 | A user is found only with a chat and a signed-in user. It is a member of the chat whose id differs from the signed-in user's. |
| ChatState.TempId | frontend/src/contexts/ChatContext.jsx:333 | A temp id is a string starting with `temp-`. |
| ChatState.TempMessage | frontend/src/contexts/ChatContext.jsx:332-340 | The temp message is a temp, is pending, has the user as sender and carries the chat, the sender and the content. |
| ChatState.BeginSend | frontend/src/contexts/ChatContext.jsx:320-352 | With no open chat or no user, nothing happens. Otherwise exactly one pending temp is appended. |
| ChatState.SendSucceeded | frontend/src/contexts/ChatContext.jsx:363 | Exactly the message with the temp id becomes the confirmed row. |
| ChatState.SendReplied | frontend/src/contexts/ChatContext.jsx:363-366 | After the reply, the temp's position holds the confirmed row and the chat with its `chat_id` has it as `last_message`. The counters and both lengths are kept. An unlisted chat leaves the chat list unchanged. |
| ChatState.SendFailed | frontend/src/contexts/ChatContext.jsx:386-388 | Exactly the message with the temp id is marked failed and no longer pending. |
| ChatState.SendFailureMarksOnlyItsTemp | frontend/src/contexts/ChatContext.jsx:352-388 | A failed send leaves the earlier messages and one failed copy of its temp. |
| ChatState.ReplyThenEcho | frontend/src/contexts/ChatContext.jsx:352-363 | If the reply is handled before the echo, the echo finds the confirmed id and changes nothing. |
| ChatState.EchoThenReply | frontend/src/contexts/ChatContext.jsx:352-363 | If the echo is handled first, it replaces the temp. The reply then finds no temp id. |
| ChatState.OptimisticSendConverges | frontend/src/contexts/ChatContext.jsx:320-363 | Either order of reply and echo gives the same list: the earlier messages, then the row with the user as sender. |
| ChatState.WithMembers | frontend/src/contexts/ChatContext.jsx:257-259 | The keys are the old keys plus each member's id string. |
| ChatState.ChatUsersOfExact | frontend/src/contexts/ChatContext.jsx:253-261 | `chatUsers` has a key exactly for each member of each chat. The user stored under a key has that key. |
| ChatState.ChatUsersOf | frontend/src/contexts/ChatContext.jsx:253-261 | The keys are exactly the id strings of every member of every chat. |
| ChatState.BuildChatUsers | frontend/src/contexts/ChatContext.jsx:253-261 | The nested loops build exactly `ChatUsersOf(chats)`. |
| ChatState.AddChatUsers | frontend/src/contexts/ChatContext.jsx:160-169 | Every member of the new chat gets a key. Keys of other users are unchanged. |
| ChatState.WithMembersUntouched | frontend/src/contexts/ChatContext.jsx:162-168 | Recording members touches only their own keys. |
| ChatRooms.JoinedAfter | frontend/src/contexts/ChatContext.jsx:54-67 | The Set stays duplicate-free. |
| ChatRooms.JoinEmits | frontend/src/contexts/ChatContext.jsx:54-67 | The guarded loop's events, chat by chat. What they join is stated by `JoinEmitsMatchJoined` and `JoinOnce`. |
| ChatRooms.StepEmits | frontend/src/contexts/ChatContext.jsx:56-66 | One iteration joins the room exactly when it is not in the Set. |
| ChatRooms.JoinLoopStep | frontend/src/contexts/ChatContext.jsx:56-66 | One more chat: a room already in the Set changes nothing. A new room is appended to the Set and gets `joinRoom` then `joinChatRoom`. |
| ChatRooms.JoinEmitsMatchJoined | frontend/src/contexts/ChatContext.jsx:54-67 | The Set after the loop is the Set before followed by exactly the rooms a `joinRoom` was emitted for. |
| ChatRooms.JoinOnce | frontend/src/contexts/ChatContext.jsx:54-67 | Each room is joined at most once and only if it was absent. Every chat's room is in the Set afterwards. |
| ChatRooms.JoinedAfterCovers | frontend/src/contexts/ChatContext.jsx:54-67 | The Set afterwards holds every chat's room and every room it held before. |
| ChatRooms.LeaveEmits | frontend/src/contexts/ChatContext.jsx:71-74 | One `leaveRoom` per room of the Set, in Set order. |
| ChatRooms.RoomJoiner.JoinChats | frontend/src/contexts/ChatContext.jsx:54-67 | The loop leaves exactly `JoinedAfter` in the Set and emits exactly `JoinEmits`. |
| ChatRooms.RoomJoiner.JoinOnConnect | frontend/src/contexts/ChatContext.jsx:43-76 | It runs only after the previous run's cleanup. Nothing happens unless the socket is ready, the user id is truthy and there is a chat. Otherwise the personal room is joined every time, then the guarded loop runs, and the cleanup is armed. |
| ChatRooms.RoomJoiner.ConnectCleanup | frontend/src/contexts/ChatContext.jsx:69-76 | An armed cleanup leaves every room of the Set in Set order and clears it. Without one nothing changes. It is never armed afterwards. |
| ChatRooms.RoomJoiner.RerunOnConnect | frontend/src/contexts/ChatContext.jsx:43-76 | A re-run is the previous cleanup followed by the body: the `leaveRoom` events, then the body's joins over the emptied Set. |
| ChatRooms.RoomJoiner.LeaveAllJoined | frontend/src/contexts/ChatContext.jsx:69-76 | The cleanup leaves every room of the Set, then clears it. |
| ChatRooms.RoomJoiner.JoinAfterFetch | frontend/src/contexts/ChatContext.jsx:264-274 | When the socket is ready, `fetchChats` runs the guarded loop. |
| ChatRooms.RoomJoiner.JoinOnFetchMessages | frontend/src/contexts/ChatContext.jsx:304-309 | `fetchMessages` joins only when ready and the room is absent. |
| ChatRooms.RoomJoiner.JoinNewChat | frontend/src/contexts/ChatContext.jsx:172-175 | `newChatAdded` joins the room even when it is already in the Set. |
| ChatRooms.RoomJoiner.JoinCreatedPrivateChat | frontend/src/contexts/ChatContext.jsx:431-444 | When ready, it joins unconditionally and then emits `createPrivateChat` with both ids and the chat. |
| ChatRooms.RoomJoiner.JoinCreatedGroupChat | frontend/src/contexts/ChatContext.jsx:496-509 | When ready, it joins unconditionally and then emits `newGroupChatCreated` with the member ids. |
| ChatRooms.RoomJoiner.AnnounceSent | frontend/src/contexts/ChatContext.jsx:369-377 | As written, when the socket is ready, the stored row is emitted again as `sendMessage` with the user as sender. The variant without the echo emits nothing. |
| ChatRooms.RerunLeavesAndRejoins | frontend/src/contexts/ChatContext.jsx:43-76 | When the chats change, the second run leaves room "3", joins the personal room "7", and joins room "3" again with `joinChatRoom`. |
| ChatRooms.FetchFirstJoinsOnlyPersonalRoom | frontend/src/contexts/ChatContext.jsx:43-76 | If `fetchChats` joins first while the chat list is empty, the run that follows emits only the personal `joinRoom`. |
| ChatRooms.NewChatRejoins | frontend/src/contexts/ChatContext.jsx:172-175 | A `newChatAdded` for a joined room still emits `joinRoom` and `joinChatRoom`. |
| MessageGroups.Linked | frontend/src/Components/MessageList.jsx:23-27 | The test that keeps a message in the group of the one before: the same sender and a gap of at most five minutes. |
| MessageGroups.GroupMessages | frontend/src/Components/MessageList.jsx:20-34 | The reduce partitions the messages, in order, into runs. Each run has the same sender with gaps of at most five minutes, and consecutive runs are not linked. |
| MessageGroups.GroupingUnique | frontend/src/Components/MessageList.jsx:20-34 | Any two such partitions of the same list are equal, so the conditions determine the reduce's result. |
| MessageGroups.GroupsEmptyIff | frontend/src/Components/MessageList.jsx:20-36 | No groups exactly when there are no messages. |
| MessageGroups.StepNewGroup | frontend/src/Components/MessageList.jsx:23-28 | Pushing a new group for an unlinked message keeps a valid grouping. |
| MessageGroups.StepExtendGroup | frontend/src/Components/MessageList.jsx:29-31 | Extending the last group with a linked message keeps a valid grouping. |
| MessageGroups.GroupsChained | frontend/src/Components/MessageList.jsx:23-31 | Every group is a chain of linked messages. |
| MessageGroups.GroupsSeparated | frontend/src/Components/MessageList.jsx:23-28 | Each group's first message is not linked to the previous group's last message. |
| MessageGroups.GroupSharesSender | frontend/src/Components/MessageList.jsx:50 | Every message of a group has the sender of its first message. |
| MessageGroups.LastLinkedIff | frontend/src/Components/MessageList.jsx:23-31 | The last group is longer than one message exactly when the last message is linked to the one before. |
| MessageGroups.GroupSpanExamples | frontend/src/Components/MessageList.jsx:26 | Gaps are measured between neighbours: three messages four minutes apart form one group. A gap of five minutes plus 1 ms splits. |
| MessageInput.TypingEmits | frontend/src/contexts/ChatContext.jsx:523-534 | At most one `typing` event, sent exactly when there is a chat, a connected socket and a user. It carries that chat, that user and the flag. |
| MessageInput.CleanupStep | frontend/src/Components/MessageInput.jsx:34-38 | The cleanup cancels the ref's timer and changes nothing else. The ref stays set. |
| MessageInput.EffectStep | frontend/src/Components/MessageInput.jsx:15-33 | The body keeps the text, the context, the send flag and the mounted flag. Afterwards the ref is set exactly when the text is not blank. It announces at most once. |
| MessageInput.RerunStep | frontend/src/Components/MessageInput.jsx:15-39 | A re-run keeps the text, the context and the send flag. Afterwards the ref is set exactly when the text is not blank. |
| MessageInput.TypeStep | frontend/src/Components/MessageInput.jsx:63-70 | While sending or with no chat the keystroke changes nothing. Otherwise the field holds the new text. The context, the send flag and the draft are kept. |
| MessageInput.ChangeContextStep | frontend/src/Components/MessageInput.jsx:39 | The new context is in place and the text and the send flag are kept. |
| MessageInput.FireStep | frontend/src/Components/MessageInput.jsx:21-24 | The callback sends the `typing` stop of the context it closed over. The text, the current context and the timer counter are kept. |
| MessageInput.UnmountStep | frontend/src/Components/MessageInput.jsx:34-38 | Unmounting announces and sends nothing. A timer still scheduled afterwards was scheduled before. |
| MessageInput.SubmitStep | frontend/src/Components/MessageInput.jsx:41-48 | A submit keeps the context. When it is not refused, the ref is cleared. |
| MessageInput.SettleStep | frontend/src/Components/MessageInput.jsx:49-58 | Once settled, the send is over and the context is kept. The field keeps its text on success and holds the kept text on failure. |
| MessageInput.StepsKeepInv | frontend/src/Components/MessageInput.jsx:15-59 | Every step keeps the invariant: keystroke, context change, timer, submit, settle and unmount. A scheduled timer is the ref's. Without the re-run cleanup, typing implies a scheduled stop. |
| MessageInput.RerunKeepsInv | frontend/src/Components/MessageInput.jsx:15-39 | A cleanup followed by the effect body keeps the invariant. |
| MessageInput.FirstKeystrokeArms | frontend/src/Components/MessageInput.jsx:16-25 | A non-blank keystroke with no ref announces `true` once and arms a 2000 ms stop timer. |
| MessageInput.RefSetKeystrokeSilent | frontend/src/Components/MessageInput.jsx:15-38 | With the ref set, non-blank keystrokes announce nothing. As written, the cleanup cancels the ref's timer. |
| MessageInput.BlankingAnnouncesStop | frontend/src/Components/MessageInput.jsx:28-32 | Blanking the field with the ref set cancels the timer, clears the ref and announces `false` once. |
| MessageInput.ExpiryAnnouncesStop | frontend/src/Components/MessageInput.jsx:21-24 | The timer's expiry announces `false` and clears the ref. |
| MessageInput.RerunCancelsStop | frontend/src/Components/MessageInput.jsx:34-38 | As written, every non-blank keystroke with the ref set leaves no stop scheduled. |
| MessageInput.StaleRefSurvivesKeystroke | frontend/src/Components/MessageInput.jsx:15-38 | As written, a stale ref survives every non-blank keystroke, and typing stays announced. |
| MessageInput.StaleRefSurvivesContextChange | frontend/src/Components/MessageInput.jsx:15-39 | The same holds when the context changes under a non-blank message. |
| MessageInput.SecondKeystrokeCancelsStop | frontend/src/Components/MessageInput.jsx:34-38 | As written: after "h" and "hi", typing is announced, no stop is scheduled and the socket carried one `true`. |
| MessageInput.StopFiresWithoutRerunCleanup | frontend/src/Components/MessageInput.jsx:15-39 | Without the re-run cleanup, the stop armed by "h" is still scheduled after "hi", and its expiry sends `false`. |
| MessageInput.StopAlwaysScheduled | frontend/src/Components/MessageInput.jsx:15-39 | Without the re-run cleanup, a stop is always scheduled while typing is announced. |
| MessageInput.RerunFrame | frontend/src/Components/MessageInput.jsx:15-39 | An effect re-run keeps the text, the send flag, the draft and the context. It only extends the announcements. |
| MessageInput.SubmitOutcome | frontend/src/Components/MessageInput.jsx:41-48 | A blank text, a second send or a missing chat is refused and changes nothing. Otherwise the field is cleared, the send is marked in flight and the untrimmed text is kept. |
| MessageInput.SubmitStopsTyping | frontend/src/Components/MessageInput.jsx:43-48 | A submit with the ref set announces `false` and clears the timer and the ref. |
| MessageInput.SettleOutcome | frontend/src/Components/MessageInput.jsx:49-58 | Once settled, the send is over. A failure restores the untrimmed text. |
| MessageInput.FailedSendRestoresDraft | frontend/src/Components/MessageInput.jsx:41-58 | " hi " is submitted, clearing the field and stopping the indicator. A failed send then restores " hi " and re-announces typing. |
| MessageInput.Composer.SetTypingStatus | frontend/src/contexts/ChatContext.jsx:523-534 | Records the call and the emit of `TypingEmits`. |
| MessageInput.Composer.Cleanup | frontend/src/Components/MessageInput.jsx:34-38 | The new state is `CleanupStep` of the old. |
| MessageInput.Composer.Effect | frontend/src/Components/MessageInput.jsx:15-33 | The new state is `EffectStep` of the old. |
| MessageInput.Composer.Rerun | frontend/src/Components/MessageInput.jsx:15-39 | The new state is the previous run's cleanup, then the body. |
| MessageInput.Composer.Type | frontend/src/Components/MessageInput.jsx:63-70 | Keeps the invariant. The new state is `TypeStep`: the field is disabled while sending or with no chat. |
| MessageInput.Composer.ChangeContext | frontend/src/Components/MessageInput.jsx:39 | Keeps the invariant. A new `setTypingStatus` re-runs the effect. |
| MessageInput.Composer.FireTimer | frontend/src/Components/MessageInput.jsx:21-24 | Keeps the invariant and announces the stop through the context the timer closed over. |
| MessageInput.Composer.Unmount | frontend/src/Components/MessageInput.jsx:34-38 | Keeps the invariant, runs the last cleanup and announces nothing. |
| MessageInput.Composer.Submit | frontend/src/Components/MessageInput.jsx:41-49 | Keeps the invariant. It hands over the trimmed text exactly when the submit is not refused. |
| MessageInput.Composer.Settle | frontend/src/Components/MessageInput.jsx:49-58 | Keeps the invariant. The new state is `SettleStep`. |
| CreateGroupChat.SearchResultsFor | frontend/src/Components/CreateGroupChat.jsx:46-50 | A user is shown exactly when the server returned them, they are not the signed-in user and no selected user has their id. |
| CreateGroupChat.SearchResultsKeepOrder | frontend/src/Components/CreateGroupChat.jsx:47-48 | Results keep the server's order. |
| CreateGroupChat.CreateGroupError | frontend/src/Components/CreateGroupChat.jsx:79-87 | A blank name is reported exactly when the name is blank. An empty selection is reported exactly when the name is not blank and nobody is selected. No error otherwise. |
| CreateGroupChat.GroupChatForm.SetOpen | frontend/src/Components/CreateGroupChat.jsx:21-29 | Opening resets the name, term, results, selection and error, and re-arms the search. Anything else changes only `open`. |
| CreateGroupChat.GroupChatForm.SetSearchTerm | frontend/src/Components/CreateGroupChat.jsx:59-66 | A new term re-arms the debounce timer over the current selection. The same term changes nothing. |
| CreateGroupChat.GroupChatForm.SetGroupName | frontend/src/Components/CreateGroupChat.jsx:136 | Typing in the name field sets the name and nothing else. |
| CreateGroupChat.GroupChatForm.FireSearch | frontend/src/Components/CreateGroupChat.jsx:33-63 | A term of two or more UTF-16 code units is queried. On success the filtered results are shown; on failure the error text is shown and the results are kept. As written, a shorter term changes nothing. |
| CreateGroupChat.GroupChatForm.SelectUser | frontend/src/Components/CreateGroupChat.jsx:68-72 | The user is appended to the selection and removed from the results, and the term is cleared. |
| CreateGroupChat.GroupChatForm.RemoveUser | frontend/src/Components/CreateGroupChat.jsx:74-76 | Every selected entry with the id is removed, and the others keep their order. |
| CreateGroupChat.GroupChatForm.CreateGroup | frontend/src/Components/CreateGroupChat.jsx:78-104 | A validation error makes no call. Otherwise it calls with the untrimmed name and the ids in selection order. Success closes the dialog; failure shows the error text. |
| CreateGroupChat.ShortTermKeepsResults | frontend/src/Components/CreateGroupChat.jsx:59-63 | As written: after results for "al", the term "a" keeps them and sends no query. |
| CreateGroupChat.ShortTermClearsResults | frontend/src/Components/CreateGroupChat.jsx:34-37 | With the short-term clear, the same steps leave no results. |
| CreateGroupChat.SelectedUserHidden | frontend/src/Components/CreateGroupChat.jsx:46-50 | A selected user and the signed-in user never show in results. |
| CreateGroupChat.CreateKeepsName | frontend/src/Components/CreateGroupChat.jsx:93-96 | " team " is passed untrimmed, with the ids in selection order. |
| JsBase.Utf16Length | frontend/src/Components/CreateGroupChat.jsx:60 | `length` counts UTF-16 code units: at least one and at most two per character. |
| JsBase.EmojiLength | frontend/src/Components/CreateGroupChat.jsx:60 | One emoji outside the Basic Multilingual Plane has `length` 2. |
| CreateGroupChat.EmojiTermIsQueried | frontend/src/Components/CreateGroupChat.jsx:59-63 | A term that is one such emoji is long enough and is queried. |
| NewPrivateChat.PrivateMemberIds | frontend/src/Components/NewPrivateChat.jsx:48-58 | Every member of every private chat is collected. |
| NewPrivateChat.ExcludedIds | frontend/src/Components/NewPrivateChat.jsx:42-58 | The user's own id and every private-chat member's id are excluded. |
| NewPrivateChat.PrivateMemberIdsExact | frontend/src/Components/NewPrivateChat.jsx:48-58 | An id is collected exactly when it belongs to a member of a non-group chat. |
| NewPrivateChat.ExcludedIdsExact | frontend/src/Components/NewPrivateChat.jsx:42-58 | An id is excluded exactly when it is the user's own or a private-chat member's. |
| NewPrivateChat.PrivateResults | frontend/src/Components/NewPrivateChat.jsx:61 | A user is shown exactly when returned by the server and not excluded. |
| NewPrivateChat.PrivateResultsExact | frontend/src/Components/NewPrivateChat.jsx:42-62 | The results keep the server's order. Someone who shares only group chats is still offered. |
| NewPrivateChat.ExistingUserIds | frontend/src/Components/NewPrivateChat.jsx:42-58 | The nested loops build exactly `ExcludedIds`. |
| NewPrivateChat.PrivateChatDialog.SetOpen | frontend/src/Components/NewPrivateChat.jsx:18-24 | Opening resets the term, the results and the error. The timer is re-armed only if the term changed. |
| NewPrivateChat.PrivateChatDialog.SetSearchTerm | frontend/src/Components/NewPrivateChat.jsx:71-78 | A new term re-arms the debounce timer over the current chats. |
| NewPrivateChat.PrivateChatDialog.SetChats | frontend/src/Components/NewPrivateChat.jsx:71-78 | A new chat list re-arms the debounce timer too. |
| NewPrivateChat.PrivateChatDialog.FireSearch | frontend/src/Components/NewPrivateChat.jsx:28-75 | A term of two or more UTF-16 code units is queried. On success it shows `PrivateResults`; on failure, or with no user, it shows the error text and keeps the results. As written, a short term changes nothing. |
| NewPrivateChat.PrivateChatDialog.StartChat | frontend/src/Components/NewPrivateChat.jsx:80-93 | It calls `createPrivateChat` with the other user's id. The dialog closes only on success; failure shows the error text. |
| NewPrivateChat.GroupMembersStillOffered | frontend/src/Components/NewPrivateChat.jsx:48-61 | A group-only contact is offered. A private-chat partner is not. |
| NewPrivateChat.ShortTermKeepsResults | frontend/src/Components/NewPrivateChat.jsx:71-75 | As written: results for "ca" stay after the term becomes "c". |
| NewPrivateChat.ShortTermClearsResults | frontend/src/Components/NewPrivateChat.jsx:29-32 | With the short-term clear, the same steps leave no results. |
| UserProfile.FileProblem | frontend/src/pages/UserProfile.jsx:24-33 | A type without "image" is refused first, then a size over 5 MiB. Both directions hold. |
| UserProfile.UploadErrorText | frontend/src/pages/UserProfile.jsx:102-124 | An error status shows the server's message or the generic text. No answer shows the network text. A 2xx reply without the success text shows its own message or the fallback. |
| UserProfile.ProfilePage.FileChange | frontend/src/pages/UserProfile.jsx:19-38 | No file changes nothing. A refused file only sets the error. An accepted file is selected, previewed and clears the error. |
| UserProfile.OrElse | frontend/src/pages/UserProfile.jsx:102-120 | A non-empty value wins. A missing or empty value gives the fallback, so the result is empty only when the fallback is. |
| UserProfile.ProfilePage.Upload | frontend/src/pages/UserProfile.jsx:41-128 | Either it refuses without a file or user, with nothing posted, or it posts only with a non-empty token; a missing or empty token is the "token not found" error. On success the user gets the server origin plus the path and the selection is cleared. Otherwise the matching error text is shown. Loading ends false. |
| UserProfile.FileLimits | frontend/src/pages/UserProfile.jsx:24-33 | Exactly 5 MiB is accepted and one byte more is refused. "IMAGE/PNG" is not an image type. |
| UserProfile.UploadErrorOrder | frontend/src/pages/UserProfile.jsx:108-124 | The error text for each failure, with empty messages falling back. |
| UserProfile.SuccessfulUpload | frontend/src/pages/UserProfile.jsx:83-97 | A successful upload stores `http://localhost:5000/uploads/p.png` and clears the selection. |
| UserProfile.EmptyTokenNotPosted | frontend/src/pages/UserProfile.jsx:64-68 | An empty stored token posts nothing and ends in the missing-token error. |
| UploadConfig.ExtName | backend/src/config/multerConfig.js:24 | `path.extname` is empty or starts with a dot. |
| UploadConfig.ExtNameShape | backend/src/config/multerConfig.js:24 | A non-empty extension has no later dot and no slash. |
| UploadConfig.ExtNameIsSuffix | backend/src/config/multerConfig.js:24 | The extension is a suffix of a name with no trailing slash. |
| UploadConfig.ExtNameOfPlainName | backend/src/config/multerConfig.js:24 | "a.b" has the extension ".b" when b has no dot. A leading dot gives none. |
| UploadConfig.ExtOfDoubleExtension | backend/src/config/multerConfig.js:24 | Only the last dot counts. |
| UploadConfig.ExtOfDotFile | backend/src/config/multerConfig.js:24 | ".png" has no extension. |
| UploadConfig.ExtNameOfDirectoryPath | backend/src/config/multerConfig.js:24 | Trailing slashes are ignored and only the last segment counts. |
| UploadConfig.RejectText | backend/src/config/multerConfig.js:40 | The filter's text is the handler's text exactly in the corrected variant. |
| UploadConfig.AllowedType | backend/src/config/multerConfig.js:33 | The pattern test: one of "jpeg", "jpg", "png", "gif" or "webp" occurs anywhere, case-sensitively. |
| UploadConfig.FileFilter | backend/src/config/multerConfig.js:32-42 | A file is accepted exactly when its lower-cased extension and its MIME type both match the pattern. A rejection carries the filter's text. |
| UploadConfig.NoLowerCaseNotAllowed | backend/src/config/multerConfig.js:33 | A string with no lower-case letters never matches. |
| UploadConfig.UpperCaseMimeRejected | backend/src/config/multerConfig.js:33-35 | A capitalised MIME type is refused whatever the file name. |
| UploadConfig.NoExtensionRejected | backend/src/config/multerConfig.js:34 | A name without an extension is refused. |
| UploadConfig.ExtensionCaseIgnored | backend/src/config/multerConfig.js:34 | "photo.PNG" with "image/png" is accepted. |
| UploadConfig.MatchIsUnanchored | backend/src/config/multerConfig.js:33-35 | "notes.pngx" with "text/png-notes" is accepted. |
| UploadConfig.UserPart | backend/src/config/multerConfig.js:22 | A missing or falsy user id is written "unknown". |
| UploadConfig.Filename | backend/src/config/multerConfig.js:21-28 | The stored name starts with `profile_`. |
| UploadConfig.FilenameKeepsExtension | backend/src/config/multerConfig.js:24-25 | The stored name ends with the original extension, case kept. |
| UploadConfig.FilenameInjective | backend/src/config/multerConfig.js:22-25 | For positive numeric user ids, equal names imply the same user, the same millisecond and the same extension. |
| UploadConfig.UnknownUserNames | backend/src/config/multerConfig.js:22 | No user and user id 0 both write "unknown", so their names collide. |
| UploadConfig.Process | backend/src/config/multerConfig.js:45-49 | A file is stored exactly when the filter accepts it and it is within the limit, under `Filename`. A rejection is the filter's error. An oversized file gets `LIMIT_FILE_SIZE`. |
| UploadConfig.FilterRejectionIsServerError | backend/src/config/multerConfig.js:40 | As written, a refused file is answered 500 "Something went wrong!". |
| UploadConfig.CorrectedRejectionIsClientError | backend/index.js:64-69 | With the handler's text, a refused file is answered 400 with that text. |
| UploadConfig.FailedUploadResponses | backend/src/config/multerConfig.js:45-49 | An oversized image is answered 400 "File too large". A refused file gets 500 as written, or 400 when corrected. |
| UploadConfig.SizeLimitInclusive | backend/src/config/multerConfig.js:47 | Exactly the limit is stored and one byte more fails. |
| ErrorHandler.Classify | backend/index.js:55-76 | The answer is never a success and its status is 400 or 500. Two cases give 400: multer's `LIMIT_FILE_SIZE` gives "File too large", and otherwise the exact image message gives itself. Everything else is 500. Each case holds in both directions. |
| ErrorHandler.OtherMulterCodesFallThrough | backend/index.js:56-64 | Other multer codes are treated as plain errors with the same message. |
| ErrorHandler.SizeLimitIgnoresMessage | backend/index.js:57-61 | The size-limit code wins over any message. |
| ErrorHandler.MessageMatchIsExact | backend/index.js:64 | The message test is exact: a trailing space, lower case or a missing message gives 500. |
| SendFlow.RestSend | backend/src/controllers/messagesController.js:23-28 | "hi" from user 1 to chat 5 is stored and broadcast as `receiveMessage` to both sockets of room "5". |
| SendFlow.DeliverToOther | frontend/src/contexts/ChatContext.jsx:369-377 | With the client's `sendMessage` echo, socket "b" receives the row twice; without it, once. Every delivery carries the row's id, chat and sender. |
| SendFlow.HandleAll | frontend/src/contexts/ChatContext.jsx:84-138 | Handling a run of deliveries keeps the chat list's length. |
| SendFlow.UnreadCountsEveryDelivery | frontend/src/contexts/ChatContext.jsx:126-133 | Outside the open chat, each delivery of another user's message raises that chat's counter by one, even when several deliveries carry the same row. |
| SendFlow.SendAndCount | frontend/src/contexts/ChatContext.jsx:365-377 | b's counter for chat 5 equals the number of deliveries: two with the echo, one without. |
| SendFlow.EchoedSendArrivesTwice | frontend/src/contexts/ChatContext.jsx:369-377 | As written: the other member receives the same row twice and its unread counter goes up by two for one message. |
| SendFlow.RestBroadcastArrivesOnce | backend/src/controllers/messagesController.js:26-28 | With the REST broadcast alone, the row arrives once and counts once. |
| Entities.MemberIds | frontend/src/Components/CreateGroupChat.jsx:94 | The ids of the users, in order. |
| Entities.WithoutIds | frontend/src/Components/CreateGroupChat.jsx:75 | A user is kept exactly when their id is not in the set. |
| Entities.WithoutIdsKeepsOrder | frontend/src/Components/CreateGroupChat.jsx:70 | The filter keeps order. |

## Left out

- **Left out entirely:**
  - the transport, the network and concurrency;
  - PostgreSQL beyond the `chats` and `messages` rows;
  - JWT handling, Cloudinary and the file system.
- **Parameters instead of calls.** `console`, `alert` and `debugLog` are left out. These become parameters:
  - `Date.now()`;
  - `URL.createObjectURL`;
  - the token in local storage;
  - the upload directory.
- **Dates** are integers in milliseconds, so an invalid date (NaN) is not modelled. Case folding covers ASCII only.
- **Outcome of a request.** Each request is one atomic step. Its outcome is a parameter: `fault`, `ok`, `reply` or `response`. A late search response that arrives after a newer one is not modelled.
- **Socket.IO.** Socket.IO's room adapter is abstract: a room is a set of socket ids. The transport removes a closing socket from every room before the disconnect handler runs.
- **Typing Set aliasing.** The `userTyping` updater mutates the Set it copied by reference. The model treats that as a fresh value.
- **Effect re-runs.** An effect re-runs when a dependency changes by datatype equality, not by JavaScript object identity.
- **Not modelled from the chat context:**
  - `selectChat`;
  - the `loading` flags;
  - the `chatUpdated` listener, beyond its `ReplaceChat` updater;
  - the debug and error listeners;
  - the listener set-up and tear-down.
- **Message order.** `ORDER BY created_at` is modelled as store order. Rows are appended with non-decreasing times, and ties keep insertion order.
- **Multer.** Multer's own checks are modelled as the filter first, then the size check (`size > 5 MiB`). Its stream handling is not modelled.
- **PostgreSQL integers.** `chats.id` and `messages.chat_id` are taken to be 32-bit `integer` columns; the schema is not part of this model.
- **Other JSON types in the request body.** `SendStep` takes `content` only as a string or absent, and `chat_id` only as a number or a string. A `content` of another JSON type (`5`, `true`, `[]`, an object) is not modelled: when `chat_id` is truthy, `content?.trim()` throws and the source answers 500 (messagesController.js:14, 36-38). A `chat_id` that is a boolean, an array or an object passes the truthiness test and reaches the `chatExists` query; that path is not modelled either.
- **Second delivery in the open chat.** The echoed row is merged away when the chat is open, because its id is already shown; the model states the unread effect outside the open chat only.
- **Socket readiness after the send.** `AnnounceSent` takes `socket && connected` as a parameter.
- **Weaker contracts:**
  - MessagesController.SqlInt: newer PostgreSQL releases also accept `_` between digits and `0x`, `0o` and `0b` prefixes; the model reads those as errors. White space is the six ASCII characters PostgreSQL's `isspace` test takes. A fractional JavaScript number is not an `Id`.
  - UploadConfig.Filename: its ensures states only the `profile_` prefix. The extension suffix is `FilenameKeepsExtension` and uniqueness is `FilenameInjective`.
  - UploadConfig.FilenameInjective: covers positive numeric user ids only. String ids could contain `_` and then collide.
  - ChatState.TypingUsersExcludeSelf: assumes numeric typing ids and a directory whose keys match its users. A string id "7" and a number 7 share a key.

## Findings

| source | as written | input that shows it | evidently intended | confidence | as-written member | corrected member |
|---|---|---|---|---|---|---|
| frontend/src/Components/MessageInput.jsx:34-38 | The effect's cleanup cancels the stop timer on every re-run but leaves the ref set, so no new timer is armed. | Type "h", then "hi", then stop typing: `false` is never sent. | The stop timer survives later keystrokes, so while typing is announced a `false` is always due. The timer that fires is the one the first keystroke armed. | not executed | MessageInput.SecondKeystrokeCancelsStop | MessageInput.StopFiresWithoutRerunCleanup |
| frontend/src/Components/CreateGroupChat.jsx:59-63 | The timer only calls the search for terms of two or more characters, so the branch at lines 34-37 that clears the results is never reached. | Results for "al", then the term "a": the old results stay. | A short term clears the results. | not executed | CreateGroupChat.ShortTermKeepsResults | CreateGroupChat.ShortTermClearsResults |
| frontend/src/Components/NewPrivateChat.jsx:71-75 | The same guard makes the clearing branch at lines 29-32 unreachable. | Results for "ca", then the term "c": the old results stay. | A short term clears the results. | not executed | NewPrivateChat.ShortTermKeepsResults | NewPrivateChat.ShortTermClearsResults |
| backend/src/config/multerConfig.js:40 | The filter rejects with "Only images (JPG, JPEG, PNG, GIF, WebP) are allowed!". The handler at backend/index.js:64 tests for "Only image files are allowed!", which is the text of backend/src/config/multer.js. | Uploading "notes.txt" as "text/plain" gets the answer 500 "Something went wrong!". | A refused file gets a 400 with the image message. | not executed | UploadConfig.FilterRejectionIsServerError | UploadConfig.CorrectedRejectionIsClientError |
| frontend/src/contexts/ChatContext.jsx:369-377 | After the REST send, which already broadcast the row to the whole room (backend/src/controllers/messagesController.js:28), the client emits `sendMessage` with the same row. The server relays it to the room again, minus the sender (backend/src/socket/socket.js:93). | User 1 sends "hi" to chat 5 over REST while user 2 is in room "5" with another chat open: user 2 receives the row twice and its unread counter for chat 5 goes from 0 to 2. | Each other member receives the row once and counts it once. | not executed | SendFlow.EchoedSendArrivesTwice | SendFlow.RestBroadcastArrivesOnce |

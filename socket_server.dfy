/** The live-routing bookkeeping of the socket server (`setupSocket`): the tables
    `userSockets`, `socketUsers` and `chatMembers`, the socket.io rooms the
    handlers join and leave, and every event the handlers emit.

    Each handler is one atomic step, as it is on the JavaScript event loop. The
    socket.io transport is abstract: a room is a set of socket ids, and an emit is
    recorded in `log` together with the sockets it reaches at that moment. */
module SocketServer {
  import opened JsBase
  import opened Entities

  type SocketId = string

  /** The events the server sends to clients. */
  datatype ServerEvent =
    | Debug(text: string)
    | OnlineUsers(users: seq<string>)
    | RoomJoined(room: Id)
    | ReceiveMessage(message: Message)
    | UserTyping(chatId: Id, userId: Id, isTyping: bool)
    | NewChatAdded(chat: Chat)
    | PrivateChatCreated(success: bool, chat: Chat)
    | ErrorEvent(reason: string)

  /** How an emit is addressed: `socket.emit`, `io.emit`, `io.to(room)` and
      `socket.to(room)` (the room without the sending socket). */
  datatype Route = Direct(socket: SocketId) | Everyone | Room(room: Id) | RoomExcept(room: Id, sender: SocketId)

  /** One emit: its address, the sockets it reaches, and the event. */
  datatype Emit = Emit(via: Route, to: set<SocketId>, event: ServerEvent)

  /** Whether a handler ran to its end or threw part-way (a `null` id's `toString()`). */
  datatype Outcome = Completed | Threw

  type Rooms = map<Id, set<SocketId>>

  /** The sockets in a room; a room nobody is in does not exist. */
  function RoomOf(rooms: Rooms, room: Id): set<SocketId>
  {
    if room in rooms then rooms[room] else {}
  }

  /** The message one event brings to socket `s`, if any. */
  function Delivered(e: Emit, s: SocketId): (r: seq<Message>)
    ensures r != [] <==> s in e.to && e.event.ReceiveMessage?
    ensures r != [] ==> r == [e.event.message]
  {
    if s in e.to && e.event.ReceiveMessage? then [e.event.message] else []
  }

  /** `socket.join(room)` */
  function Join(rooms: Rooms, room: Id, s: SocketId): (r: Rooms)
    ensures RoomOf(r, room) == RoomOf(rooms, room) + {s}
    ensures forall other :: other != room ==> RoomOf(r, other) == RoomOf(rooms, other)
  {
    rooms[room := RoomOf(rooms, room) + {s}]
  }

  /** `socket.leave(room)`; the adapter deletes a room once it is empty. */
  function Leave(rooms: Rooms, room: Id, s: SocketId): (r: Rooms)
    ensures RoomOf(r, room) == RoomOf(rooms, room) - {s}
    ensures forall other :: other != room ==> RoomOf(r, other) == RoomOf(rooms, other)
  {
    if room !in rooms then rooms
    else if rooms[room] - {s} == {} then rooms - {room}
    else rooms[room := rooms[room] - {s}]
  }

  /** What the transport does before the `disconnect` handler runs: the closing
      socket leaves every room. */
  function LeaveAll(rooms: Rooms, s: SocketId): (r: Rooms)
    ensures forall room :: RoomOf(r, room) == RoomOf(rooms, room) - {s}
  {
    map room | room in rooms && rooms[room] - {s} != {} :: rooms[room] - {s}
  }

  /** The connection's `userId?.toString()`. */
  function OwnString(userId: Option<Id>): Option<string>
  {
    if userId.Some? then Some(ToString(userId.value)) else None
  }

  /** The personal room a user joins on `identify`: `userId.toString()`. */
  function PersonalRoom(userId: Id): Id
  {
    Str(ToString(userId))
  }

  /** `participants.map((p) => p.toString())` */
  function ToStrings(ps: seq<Id>): (r: seq<string>)
    ensures |r| == |ps| && forall i :: 0 <= i < |ps| ==> r[i] == ToString(ps[i])
  {
    if ps == [] then [] else [ToString(ps[0])] + ToStrings(ps[1..])
  }

  /** `new Set(participants.map((p) => p.toString()))` */
  function StringSet(ps: seq<Id>): (r: set<string>)
    ensures forall p :: p in ps ==> ToString(p) in r
    ensures forall x :: x in r ==> exists p :: p in ps && ToString(p) == x
  {
    set p | p in ps :: ToString(p)
  }

  lemma StringSetSnoc(ps: seq<Id>, p: Id)
    ensures StringSet(ps + [p]) == StringSet(ps) + {ToString(p)}
  {
    assert forall q :: q in ps + [p] <==> q in ps || q == p;
  }

  /** The `newChatAdded` notifications of `newGroupChatCreated`, in participant
      order: one to the personal room of every participant whose string differs
      from the connection's own `userId?.toString()` (`own`; None when the
      connection has no user, in which case nobody is skipped). */
  function NotifyEmits(ps: seq<Id>, own: Option<string>, rooms: Rooms, chat: Chat): (r: seq<Emit>)
    ensures |r| <= |ps|
    ensures forall e :: e in r ==> e.event == NewChatAdded(chat) && e.via.Room?
    decreases |ps|
  {
    if ps == [] then []
    else
      var last := ps[|ps| - 1];
      var front := NotifyEmits(ps[..|ps| - 1], own, rooms, chat);
      if own == Some(ToString(last)) then front
      else front + [Emit(Room(PersonalRoom(last)), RoomOf(rooms, PersonalRoom(last)), NewChatAdded(chat))]
  }

  /** Exactly the participants other than the connection's own user are told,
      each in its personal room, and nothing else is sent. */
  lemma {:induction false} NotifyEmitsTargets(ps: seq<Id>, own: Option<string>, rooms: Rooms, chat: Chat)
    ensures |NotifyEmits(ps, own, rooms, chat)| <= |ps|
    ensures forall e :: e in NotifyEmits(ps, own, rooms, chat) ==>
      e.event == NewChatAdded(chat) && e.via.Room? && e.to == RoomOf(rooms, e.via.room) &&
      exists p :: p in ps && e.via.room == PersonalRoom(p) && own != Some(ToString(p))
    ensures forall p :: p in ps && own != Some(ToString(p)) ==>
      Emit(Room(PersonalRoom(p)), RoomOf(rooms, PersonalRoom(p)), NewChatAdded(chat)) in NotifyEmits(ps, own, rooms, chat)
    decreases |ps|
  {
    if ps != [] {
      var front := ps[..|ps| - 1];
      NotifyEmitsTargets(front, own, rooms, chat);
      assert forall p :: p in ps ==> p in front || p == ps[|ps| - 1];
      assert forall p :: p in front ==> p in ps;
    }
  }

  /** `Array.from(userSockets.keys())` lists exactly the keys, once each. */
  ghost predicate ListsKeys(users: seq<string>, m: map<string, SocketId>)
  {
    NoDup(users) && forall u :: u in users <==> u in m
  }

  /** The `participants.forEach((p) => set.add(p.toString()))` loop. */
  method AddMembers(before: set<string>, ps: seq<Id>) returns (members: set<string>)
    ensures members == before + StringSet(ps)
  {
    members := before;
    var i := 0;
    while i < |ps|
      invariant 0 <= i <= |ps|
      invariant members == before + StringSet(ps[..i])
    {
      StringSetSnoc(ps[..i], ps[i]);
      assert ps[..i + 1] == ps[..i] + [ps[i]];
      members := members + {ToString(ps[i])};
      i := i + 1;
    }
    assert ps[..i] == ps;
  }

  class Server {
    /** The live connections, each with its handler closure's `let userId`. */
    var connUser: map<SocketId, Option<Id>>
    /** `userSockets`: user id string -> the one socket recorded for it. */
    var userSockets: map<string, SocketId>
    /** The insertion order of `userSockets`' keys (a JavaScript Map keeps it). */
    var userOrder: seq<string>
    /** `socketUsers`: socket id -> user id string. */
    var socketUsers: map<SocketId, string>
    /** `chatMembers`: chat id (as received) -> set of user id strings. */
    var chatMembers: map<Id, set<string>>
    /** socket.io's rooms. */
    var rooms: Rooms
    /** Every emit so far, oldest first. */
    var log: seq<Emit>

    ghost predicate Valid()
      reads this
    {
      && ListsKeys(userOrder, userSockets)
      && (forall s | s in socketUsers :: s in connUser || socketUsers[s] == "")
      && (forall room | room in rooms :: rooms[room] <= connUser.Keys)
    }

    /** The sockets `io.emit` reaches. */
    function Connected(): set<SocketId>
      reads this
    {
      connUser.Keys
    }

    constructor ()
      ensures Valid()
      ensures connUser == map[] && userSockets == map[] && userOrder == [] && socketUsers == map[]
      ensures chatMembers == map[] && rooms == map[] && log == []
    {
      connUser, userSockets, userOrder, socketUsers := map[], map[], [], map[];
      chatMembers, rooms, log := map[], map[], [];
    }

    /** A new connection. The handshake's `auth.user.id`, when present, only sets
        the connection's `userId`; no table entry exists until `identify`. */
    method Connect(s: SocketId, authUserId: Option<Id>)
      requires Valid() && s !in connUser
      modifies this
      ensures Valid()
      ensures connUser == old(connUser)[s := authUserId]
      ensures userSockets == old(userSockets) && userOrder == old(userOrder) && socketUsers == old(socketUsers)
      ensures chatMembers == old(chatMembers) && rooms == old(rooms) && log == old(log)
    {
      connUser := connUser[s := authUserId];
    }

    /** `identify`: records the user for this socket in both directions (the last
        identify wins; an earlier socket's `socketUsers` entry stays), joins the
        personal room and broadcasts the online list. A missing user id throws at
        `toString()` after the connection's `userId` was already overwritten. */
    method Identify(s: SocketId, dataUserId: Option<Id>) returns (outcome: Outcome)
      requires Valid() && s in connUser
      modifies this
      ensures Valid()
      ensures connUser == old(connUser)[s := dataUserId]
      ensures chatMembers == old(chatMembers)
      ensures dataUserId.None? ==>
        && outcome == Threw
        && userSockets == old(userSockets) && userOrder == old(userOrder) && socketUsers == old(socketUsers)
        && rooms == old(rooms) && log == old(log)
      ensures dataUserId.Some? ==>
        var u := ToString(dataUserId.value);
        && outcome == Completed
        && userSockets == old(userSockets)[u := s]
        && userOrder == Insert(old(userOrder), u)
        && socketUsers == old(socketUsers)[s := u]
        && rooms == Join(old(rooms), Str(u), s)
        && log == old(log) + [Emit(Direct(s), {s}, Debug("Identified as user " + u)),
                              Emit(Everyone, Connected(), OnlineUsers(userOrder))]
        && ListsKeys(log[|log| - 1].event.users, userSockets)
    {
      connUser := connUser[s := dataUserId];
      if dataUserId.None? {
        return Threw;
      }
      var u := ToString(dataUserId.value);
      userSockets := userSockets[u := s];
      userOrder := Insert(userOrder, u);
      socketUsers := socketUsers[s := u];
      rooms := Join(rooms, Str(u), s);
      log := log + [Emit(Direct(s), {s}, Debug("Identified as user " + u)),
                    Emit(Everyone, connUser.Keys, OnlineUsers(userOrder))];
      outcome := Completed;
    }

    /** `joinRoom`: joins the room as given; `chatMembers` is not touched. */
    method JoinRoom(s: SocketId, roomId: Id)
      requires Valid() && s in connUser
      modifies this
      ensures Valid()
      ensures rooms == Join(old(rooms), roomId, s)
      ensures connUser == old(connUser) && userSockets == old(userSockets) && userOrder == old(userOrder)
      ensures socketUsers == old(socketUsers) && chatMembers == old(chatMembers)
      ensures log == old(log) + [Emit(Direct(s), {s}, Debug("Joined room " + ToString(roomId))),
                                 Emit(Direct(s), {s}, RoomJoined(roomId))]
    {
      rooms := Join(rooms, roomId, s);
      log := log + [Emit(Direct(s), {s}, Debug("Joined room " + ToString(roomId))),
                    Emit(Direct(s), {s}, RoomJoined(roomId))];
    }

    /** `joinChatRoom`: joins the room and adds the PAYLOAD's user id (not the
        connection's) to `chatMembers[chatId]`, creating the set first. With no
        user id the handler throws after the empty set was created. */
    method JoinChatRoom(s: SocketId, chatId: Id, userId: Option<Id>) returns (outcome: Outcome)
      requires Valid() && s in connUser
      modifies this
      ensures Valid()
      ensures rooms == Join(old(rooms), chatId, s)
      ensures connUser == old(connUser) && userSockets == old(userSockets) && userOrder == old(userOrder)
      ensures socketUsers == old(socketUsers)
      ensures var before := if chatId in old(chatMembers) then old(chatMembers)[chatId] else {};
        if userId.None? then
          outcome == Threw && chatMembers == old(chatMembers)[chatId := before] && log == old(log)
        else
          && outcome == Completed
          && chatMembers == old(chatMembers)[chatId := before + {ToString(userId.value)}]
          && log == old(log) + [Emit(Direct(s), {s},
               Debug("Joined chat room " + ToString(chatId) + " as user " + ToString(userId.value)))]
    {
      rooms := Join(rooms, chatId, s);
      if chatId !in chatMembers {
        chatMembers := chatMembers[chatId := {}];
      }
      if userId.None? {
        return Threw;
      }
      chatMembers := chatMembers[chatId := chatMembers[chatId] + {ToString(userId.value)}];
      log := log + [Emit(Direct(s), {s},
        Debug("Joined chat room " + ToString(chatId) + " as user " + ToString(userId.value)))];
      outcome := Completed;
    }

    /** `leaveRoom`: leaves the room, and removes the CONNECTION's own user id
        from `chatMembers[roomId]` when that chat is tracked and the id is truthy. */
    method LeaveRoom(s: SocketId, roomId: Id)
      requires Valid() && s in connUser
      modifies this
      ensures Valid()
      ensures rooms == Leave(old(rooms), roomId, s)
      ensures connUser == old(connUser) && userSockets == old(userSockets) && userOrder == old(userOrder)
      ensures socketUsers == old(socketUsers) && log == old(log)
      ensures chatMembers ==
        if roomId in old(chatMembers) && TruthyOpt(connUser[s])
        then old(chatMembers)[roomId := old(chatMembers)[roomId] - {ToString(connUser[s].value)}]
        else old(chatMembers)
    {
      rooms := Leave(rooms, roomId, s);
      var me := connUser[s];
      if roomId in chatMembers && TruthyOpt(me) {
        chatMembers := chatMembers[roomId := chatMembers[roomId] - {ToString(me.value)}];
      }
    }

    /** `sendMessage`: relays the message to room `chat_id.toString()`, except
        the sending socket. Nothing is stored. */
    method SendMessage(s: SocketId, message: Message)
      requires Valid() && s in connUser
      modifies this`log
      ensures Valid()
      ensures var room := Str(ToString(message.chat_id));
        log == old(log) + [Emit(RoomExcept(room, s), RoomOf(rooms, room) - {s}, ReceiveMessage(message))]
    {
      var room := Str(ToString(message.chat_id));
      log := log + [Emit(RoomExcept(room, s), RoomOf(rooms, room) - {s}, ReceiveMessage(message))];
    }

    /** `typing`: relays the payload to room `chatId.toString()`, except the sender. */
    method Typing(s: SocketId, chatId: Id, userId: Id, isTyping: bool)
      requires Valid() && s in connUser
      modifies this`log
      ensures Valid()
      ensures var room := Str(ToString(chatId));
        log == old(log) + [Emit(RoomExcept(room, s), RoomOf(rooms, room) - {s}, UserTyping(chatId, userId, isTyping))]
    {
      var room := Str(ToString(chatId));
      log := log + [Emit(RoomExcept(room, s), RoomOf(rooms, room) - {s}, UserTyping(chatId, userId, isTyping))];
    }

    /** `createPrivateChat`: tells the other user's personal room and acknowledges
        to the sender; a missing id throws inside the `try` and the sender gets
        an `error` event instead. No table changes. */
    method CreatePrivateChat(s: SocketId, user1Id: Option<Id>, user2Id: Option<Id>, chatData: Chat)
      requires Valid() && s in connUser
      modifies this`log
      ensures user1Id.None? || user2Id.None? ==>
        log == old(log) + [Emit(Direct(s), {s}, ErrorEvent("Failed to create private chat"))]
      ensures user1Id.Some? && user2Id.Some? ==>
        var room := PersonalRoom(user2Id.value);
        log == old(log) + [Emit(Room(room), RoomOf(rooms, room), NewChatAdded(chatData)),
                           Emit(Direct(s), {s}, PrivateChatCreated(true, chatData))]
    {
      if user1Id.None? || user2Id.None? {
        log := log + [Emit(Direct(s), {s}, ErrorEvent("Failed to create private chat"))];
      } else {
        var room := PersonalRoom(user2Id.value);
        log := log + [Emit(Room(room), RoomOf(rooms, room), NewChatAdded(chatData)),
                      Emit(Direct(s), {s}, PrivateChatCreated(true, chatData))];
      }
    }

    /** `newGroupChatCreated`: adds every participant to `chatMembers[chatId]`
        (creating it if absent), then notifies each participant's personal room
        except the one equal to the connection's own user id. */
    method NewGroupChatCreated(s: SocketId, chatId: Id, participants: seq<Id>, chatData: Chat)
      requires Valid() && s in connUser
      modifies this
      ensures Valid()
      ensures var before := if chatId in old(chatMembers) then old(chatMembers)[chatId] else {};
        chatMembers == old(chatMembers)[chatId := before + StringSet(participants)]
      ensures forall p :: p in participants ==> ToString(p) in chatMembers[chatId]
      ensures log == old(log) + NotifyEmits(participants, OwnString(old(connUser)[s]), old(rooms), chatData)
      ensures forall p :: p in participants && OwnString(old(connUser)[s]) != Some(ToString(p)) ==>
        Emit(Room(PersonalRoom(p)), RoomOf(old(rooms), PersonalRoom(p)), NewChatAdded(chatData)) in log[|old(log)|..]
      ensures connUser == old(connUser) && userSockets == old(userSockets) && userOrder == old(userOrder)
      ensures socketUsers == old(socketUsers) && rooms == old(rooms)
    {
      var own := OwnString(connUser[s]);
      var before := if chatId in chatMembers then chatMembers[chatId] else {};
      var members := AddMembers(before, participants);
      chatMembers := chatMembers[chatId := members];

      NotifyParticipants(participants, own, chatData);
      NotifyEmitsTargets(participants, own, rooms, chatData);
      assert log[|old(log)|..] == NotifyEmits(participants, own, rooms, chatData);
    }

    /** The `participants.forEach` loop that sends `newChatAdded`. */
    method NotifyParticipants(participants: seq<Id>, own: Option<string>, chatData: Chat)
      modifies this`log
      ensures log == old(log) + NotifyEmits(participants, own, rooms, chatData)
    {
      var i := 0;
      while i < |participants|
        invariant 0 <= i <= |participants|
        invariant log == old(log) + NotifyEmits(participants[..i], own, rooms, chatData)
      {
        var p := ToString(participants[i]);
        assert participants[..i + 1][..i] == participants[..i];
        if own != Some(p) {
          log := log + [Emit(Room(Str(p)), RoomOf(rooms, Str(p)), NewChatAdded(chatData))];
        }
        i := i + 1;
      }
      assert participants[..i] == participants;
    }

    /** `disconnect`: the transport has already taken the socket out of every room
        and out of `io`'s audience. If the socket was identified, its user's
        `userSockets` entry is deleted (even when it now names another socket)
        together with its own `socketUsers` entry, and the online list is
        rebroadcast. `chatMembers` is never changed. */
    method Disconnect(s: SocketId)
      requires Valid() && s in connUser
      modifies this
      ensures Valid()
      ensures connUser == old(connUser) - {s}
      ensures rooms == LeaveAll(old(rooms), s)
      ensures chatMembers == old(chatMembers)
      ensures s in old(socketUsers) && old(socketUsers)[s] != "" ==>
        var u := old(socketUsers)[s];
        && userSockets == old(userSockets) - {u}
        && userOrder == Delete(old(userOrder), u)
        && socketUsers == old(socketUsers) - {s}
        && log == old(log) + [Emit(Everyone, Connected(), OnlineUsers(userOrder))]
        && ListsKeys(log[|log| - 1].event.users, userSockets)
      ensures !(s in old(socketUsers) && old(socketUsers)[s] != "") ==>
        && userSockets == old(userSockets) && userOrder == old(userOrder)
        && socketUsers == old(socketUsers) && log == old(log)
    {
      rooms := LeaveAll(rooms, s);
      connUser := connUser - {s};
      if s in socketUsers && socketUsers[s] != "" {
        var u := socketUsers[s];
        userSockets := userSockets - {u};
        userOrder := Delete(userOrder, u);
        socketUsers := socketUsers - {s};
        log := log + [Emit(Everyone, connUser.Keys, OnlineUsers(userOrder))];
      }
    }

    /** `io.to(room).emit("receiveMessage", message)`, used by the REST send path:
        every socket in the room, the sender's included. */
    method EmitToRoom(room: Id, message: Message)
      requires Valid()
      modifies this`log
      ensures Valid()
      ensures log == old(log) + [Emit(Room(room), RoomOf(rooms, room), ReceiveMessage(message))]
    {
      log := log + [Emit(Room(room), RoomOf(rooms, room), ReceiveMessage(message))];
    }
  }

  // ---------------------------------------------------------------------------
  // Scenarios that follow from the handlers' contracts alone

  /** Two devices of user 7: the later `identify` is the one recorded, while the
      earlier socket keeps its `socketUsers` entry. */
  method LastIdentifyWins() returns (recorded: SocketId, earlierEntry: string, online: seq<string>)
    ensures recorded == "b" && earlierEntry == "7" && online == ["7"]
  {
    var srv := new Server();
    srv.Connect("a", None);
    srv.Connect("b", None);
    var _ := srv.Identify("a", Some(Num(7)));
    var _ := srv.Identify("b", Some(Num(7)));
    recorded, earlierEntry, online := srv.userSockets["7"], srv.socketUsers["a"], srv.userOrder;
  }

  /** Closing user 7's older device deletes the user's entry although the newer
      device is still connected, so 7 is announced as offline. */
  method DisconnectOfOlderDevice() returns (online: seq<string>, newerConnected: bool, lastEvent: ServerEvent)
    ensures online == [] && newerConnected && lastEvent == OnlineUsers([])
  {
    var srv := new Server();
    srv.Connect("a", None);
    srv.Connect("b", None);
    var _ := srv.Identify("a", Some(Num(7)));
    var _ := srv.Identify("b", Some(Num(7)));
    srv.Disconnect("a");
    online, newerConnected, lastEvent := srv.userOrder, "b" in srv.Connected(), srv.log[|srv.log| - 1].event;
  }

  /** A socket that identifies as 7 and then as 8 leaves 7 listed online after it
      closes: only the entry of its latest user is deleted. */
  method ReidentifiedSocketLeavesStaleUser() returns (online: seq<string>, connected: set<SocketId>)
    ensures online == ["7"] && connected == {}
  {
    var srv := new Server();
    srv.Connect("a", None);
    var _ := srv.Identify("a", Some(Num(7)));
    var _ := srv.Identify("a", Some(Num(8)));
    srv.Disconnect("a");
    online, connected := srv.userOrder, srv.Connected();
  }

  /** Typing and relayed messages reach the other sockets of the room only. */
  method RelaySkipsSender() returns (typingTo: set<SocketId>, messageTo: set<SocketId>)
    ensures typingTo == {"b"} && messageTo == {"b"}
  {
    var srv := new Server();
    srv.Connect("a", Some(Num(1)));
    srv.Connect("b", Some(Num(2)));
    srv.JoinRoom("a", Str("5"));
    srv.JoinRoom("b", Str("5"));
    srv.Typing("a", Num(5), Num(1), true);
    typingTo := srv.log[|srv.log| - 1].to;
    srv.SendMessage("a", Message(Num(40), Num(5), Num(1), "hi", 0, false, None, false, false));
    messageTo := srv.log[|srv.log| - 1].to;
  }

  /** `leaveRoom` removes the connection's own user, not a payload's, and
      `disconnect` leaves `chatMembers` as it was. */
  method MembershipOutlivesConnection() returns (afterLeave: set<string>, afterDisconnect: set<string>)
    ensures afterLeave == {"2"} && afterDisconnect == {"2"}
  {
    var srv := new Server();
    srv.Connect("a", Some(Num(1)));
    var _ := srv.JoinChatRoom("a", Str("5"), Some(Num(1)));
    var _ := srv.JoinChatRoom("a", Str("5"), Some(Num(2)));
    srv.LeaveRoom("a", Str("5"));
    afterLeave := srv.chatMembers[Str("5")];
    srv.Disconnect("a");
    afterDisconnect := srv.chatMembers[Str("5")];
  }
}

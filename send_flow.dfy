// One message sent through the whole stack: the REST handler stores and
// broadcasts it, then the sending client also announces it on the socket,
// which relays it to the same room once more.

module SendFlow {
  import opened JsBase
  import opened Entities
  import SocketServer
  import MessagesController
  import ChatRooms
  import ChatState

  /** User 1 on socket "a" sends "hi" to chat 5 over REST while user 2 on
      socket "b" is in the chat's room: the row is stored and broadcast to the
      whole room. */
  method RestSend() returns (io: SocketServer.Server, row: Message)
    ensures fresh(io) && io.Valid() && "a" in io.connUser
    ensures SocketServer.RoomOf(io.rooms, Str("5")) == {"a", "b"}
    ensures row.id == Num(1) && row.chat_id == Num(5) && row.sender_id == Num(1)
    ensures |io.log| > 0 && io.log[|io.log| - 1] ==
      SocketServer.Emit(SocketServer.Room(Str("5")), {"a", "b"}, SocketServer.ReceiveMessage(row))
  {
    io := new SocketServer.Server();
    io.Connect("a", Some(Num(1)));
    io.Connect("b", Some(Num(2)));
    io.JoinRoom("a", Str("5"));
    io.JoinRoom("b", Str("5"));
    var store := new MessagesController.MessageStore({5});
    assert !IsSpace("hi"[0]);
    MessagesController.SendStepInsertsIff(Some(Num(5)), Some("hi"),
      Some(MessagesController.AuthUser(Some(Num(1)))), {5}, MessagesController.NoFault);
    var _ := store.SendMessage(Some(Num(5)), Some("hi"), Some(MessagesController.AuthUser(Some(Num(1)))),
                               10, MessagesController.NoFault, io);
    row := store.rows[|store.rows| - 1];
  }

  /** The REST send followed, when `echoes` holds, by the sending client's
      `sendMessage` emit of the stored row, which the server relays to the
      room except the sender. The result is what reaches "b" over
      `receiveMessage`, in order. */
  method DeliverToOther(echoes: bool) returns (received: seq<Message>)
    ensures |received| == if echoes then 2 else 1
    ensures forall m :: m in received ==> m.id == Num(1) && m.chat_id == Num(5) && m.sender_id == Num(1)
  {
    var io, row := RestSend();
    var broadcast := io.log[|io.log| - 1];
    received := SocketServer.Delivered(broadcast, "b");
    var client := new ChatRooms.RoomJoiner();
    client.AnnounceSent(true, row, User(Num(1), "ann", None), echoes);
    if echoes {
      assert ToString(Num(5)) == "5";
      io.SendMessage("a", client.outbox[|client.outbox| - 1].message);
      received := received + SocketServer.Delivered(io.log[|io.log| - 1], "b");
    }
  }

  /** b's client, with no chat open, handling each delivered message in turn. */
  function HandleAll(s: ChatState.Session, l: ChatState.ChatLists, ms: seq<Message>): (r: ChatState.ChatLists)
    ensures |r.chats| == |l.chats|
    decreases |ms|
  {
    if ms == [] then l else HandleAll(s, ChatState.HandleNewMessage(s, l, ms[0]), ms[1..])
  }

  /** Outside the open chat, every delivery of another user's message to chat
      `c` adds one to `c`'s counter, however many of them carry the same row. */
  lemma {:induction false} UnreadCountsEveryDelivery(s: ChatState.Session, l: ChatState.ChatLists,
                                                      ms: seq<Message>, c: Id)
    requires s.currentChat.None?
    requires forall m :: m in ms ==> m.chat_id == c && ChatState.FromOther(s, m)
    ensures ChatState.UnreadCount(HandleAll(s, l, ms).unread, c) == ChatState.UnreadCount(l.unread, c) + |ms|
    decreases |ms|
  {
    if ms != [] {
      ChatState.HandleNewMessageUnread(s, l, ms[0]);
      assert forall m :: m in ms[1..] ==> m in ms;
      UnreadCountsEveryDelivery(s, ChatState.HandleNewMessage(s, l, ms[0]), ms[1..], c);
    }
  }

  /** The whole send with b's client counting: `unread` is chat 5's counter
      on b's client after it handled every delivery. */
  method SendAndCount(echoes: bool) returns (received: seq<Message>, unread: nat)
    ensures |received| == if echoes then 2 else 1
    ensures echoes ==> received[0].id == received[1].id
    ensures unread == |received|
  {
    received := DeliverToOther(echoes);
    var session := ChatState.Session(Some(User(Num(2), "bo", None)), None, map[]);
    var lists := ChatState.ChatLists([], map[], []);
    UnreadCountsEveryDelivery(session, lists, received, Num(5));
    unread := ChatState.UnreadCount(HandleAll(session, lists, received).unread, Num(5));
  }

  /** As written: the row reaches the other member twice, and its unread
      counter goes up by two for one message. */
  method EchoedSendArrivesTwice() returns (received: seq<Message>, unread: nat)
    ensures |received| == 2 && received[0].id == received[1].id && unread == 2
  {
    received, unread := SendAndCount(true);
  }

  /** Without the client's own `sendMessage` emit the REST broadcast alone
      delivers the row once and counts it once. */
  method RestBroadcastArrivesOnce() returns (received: seq<Message>, unread: nat)
    ensures |received| == 1 && unread == 1
  {
    received, unread := SendAndCount(false);
  }
}

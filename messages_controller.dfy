/** The REST message endpoints: `sendMessage` persists a message and then
    broadcasts it to the chat's room, `getMessagesByChat` lists a chat's messages
    and marks them read. The database is an abstract store of chat ids and
    message rows; a `Fault` names the query that fails, if one does. */
module MessagesController {
  import opened JsBase
  import opened Entities
  import SocketServer

  /** A JSON response body. */
  datatype Body =
    | Created(message: Message)        // the inserted row
    | Listed(messages: seq<Message>)
    | MessageText(text: string)        // `{ message: ... }`
    | ErrorText(text: string)          // `{ error: ... }`

  datatype Response = Response(status: int, body: Body)

  /** `req.user` as the JWT middleware leaves it; `id` may be missing. */
  datatype AuthUser = AuthUser(id: Option<Id>)

  /** Which database call rejects, if any. */
  datatype Fault = NoFault | ChatExistsFails | InsertFails | GetMessagesFails | MarkReadFails

  const BadRequestText := "Chat ID, sender ID and content are required."
  const NotFoundText := "Chat not found."
  const InternalText := "Internal Server Error"

  /** The bounds of PostgreSQL's 32-bit `integer` type. */
  const Int4Min := -0x8000_0000
  const Int4Max := 0x7fff_ffff

  /** A value of the `integer` type, or the range error. */
  function Int4(v: int): (r: Option<int>)
    ensures r.Some? <==> Int4Min <= v <= Int4Max
    ensures r.Some? ==> r.value == v
  {
    if Int4Min <= v <= Int4Max then Some(v) else None
  }

  /** The white space PostgreSQL's integer input skips: space, tab, line feed,
      vertical tab, form feed and carriage return. */
  predicate PgSpace(c: char)
  {
    c == ' ' || '\t' <= c <= '\r'
  }

  /** The text without its leading and trailing white space. */
  function PgStrip(s: string): (r: string)
    ensures |r| <= |s|
    ensures r != [] ==> !PgSpace(r[0]) && !PgSpace(r[|r| - 1])
    ensures (forall i :: 0 <= i < |s| ==> !PgSpace(s[i])) ==> r == s
    decreases |s|
  {
    if s != [] && PgSpace(s[0]) then PgStrip(s[1..])
    else if s != [] && PgSpace(s[|s| - 1]) then PgStrip(s[..|s| - 1])
    else s
  }

  /** How PostgreSQL reads text compared with a 32-bit `integer` column:
      surrounding white space is skipped, one optional `+` or `-` is taken, at
      least one decimal digit must follow and nothing else, and a value out of
      the type's range is an error. A number parameter is sent as its decimal
      text, so only its range matters. `None` is the error that makes the query
      fail. */
  function SqlInt(id: Id): (r: Option<int>)
    ensures r.Some? ==> Int4Min <= r.value <= Int4Max
    ensures id.Num? ==> (r.Some? <==> Int4Min <= id.n <= Int4Max)
    ensures id.Num? && r.Some? ==> r.value == id.n
  {
    match id
    case Num(n) => Int4(n)
    case Str(s) =>
      var t := PgStrip(s);
      if t != [] && IsDigits(t) then Int4(DecimalValue(t))
      else if |t| > 1 && (t[0] == '-' || t[0] == '+') && IsDigits(t[1..]) then
        var v: int := DecimalValue(t[1..]);
        Int4(if t[0] == '-' then -v else v)
      else None
  }

  /** A chat id sent as text, as route parameters always are, reads as the
      number it renders, out-of-range numbers included. */
  lemma SqlIntOfRendered(n: int)
    ensures SqlInt(Str(ToString(Num(n)))) == SqlInt(Num(n))
  {
    var r := ToString(Num(n));
    assert forall i :: 0 <= i < |r| ==> !PgSpace(r[i]);
    if n >= 0 {
      DecimalRoundTrip(n);
    } else {
      assert r[1..] == NatToDecimal(-n);
      DecimalRoundTrip(-n);
    }
  }

  /** White space around the digits and a leading `+` are accepted. */
  lemma SqlIntAcceptedForms()
    ensures SqlInt(Str(" 5\n")) == Some(5)
    ensures SqlInt(Str("+5")) == Some(5)
    ensures SqlInt(Str("-5")) == Some(-5)
  {
    assert PgStrip(" 5\n") == PgStrip("5\n") == PgStrip("5") == "5";
    assert "+5"[1..] == "5" && "-5"[1..] == "5";
    assert DecimalValue("5") == 5 by { assert "5"[..0] == []; }
  }

  /** Trailing text, a bare sign and the empty string are errors, and so is a
      number just past the type's range. */
  lemma SqlIntRejectedForms()
    ensures SqlInt(Str("5a")) == None
    ensures SqlInt(Str("-")) == None
    ensures SqlInt(Str("")) == None
    ensures SqlInt(Num(Int4Max + 1)) == None
  {
    assert !IsDigits("5a") by { assert !('0' <= "5a"[1] <= '9'); }
    assert !IsDigits("5a"[1..]) by { assert "5a"[1..][0] == 'a'; }
  }

  /** The rows of chat `k`, in store order (`WHERE chat_id = $1`). */
  function ChatRows(rows: seq<Message>, k: int): (r: seq<Message>)
    ensures forall m :: m in r <==> m in rows && m.chat_id == Num(k)
  {
    if rows == [] then []
    else if rows[0].chat_id == Num(k) then [rows[0]] + ChatRows(rows[1..], k)
    else ChatRows(rows[1..], k)
  }

  /** `UPDATE messages SET is_read = true WHERE chat_id = $1` */
  function MarkRead(rows: seq<Message>, k: int): (r: seq<Message>)
    ensures |r| == |rows|
    ensures forall i :: 0 <= i < |rows| ==>
      r[i] == if rows[i].chat_id == Num(k) then rows[i].(is_read := true) else rows[i]
  {
    if rows == [] then []
    else [if rows[0].chat_id == Num(k) then rows[0].(is_read := true) else rows[0]] + MarkRead(rows[1..], k)
  }

  /** Marking one chat read leaves every other chat's rows as they were, and
      leaves the chat's own rows with the same ids and content, all read. */
  lemma {:induction false} MarkReadOtherChats(rows: seq<Message>, k: int, j: int)
    requires j != k
    ensures ChatRows(MarkRead(rows, k), j) == ChatRows(rows, j)
    decreases |rows|
  {
    if rows != [] {
      MarkReadOtherChats(rows[1..], k, j);
      assert MarkRead(rows, k)[1..] == MarkRead(rows[1..], k);
    }
  }

  lemma {:induction false} MarkReadOwnChat(rows: seq<Message>, k: int)
    ensures |ChatRows(MarkRead(rows, k), k)| == |ChatRows(rows, k)|
    ensures forall i :: 0 <= i < |ChatRows(rows, k)| ==>
      ChatRows(MarkRead(rows, k), k)[i] == ChatRows(rows, k)[i].(is_read := true)
    decreases |rows|
  {
    if rows != [] {
      MarkReadOwnChat(rows[1..], k);
      assert MarkRead(rows, k)[1..] == MarkRead(rows[1..], k);
    }
  }

  /** What `sendMessage` does before touching the store: answer at once, or
      insert a row for chat `chat` from `sender`. */
  datatype SendPlan = Reject(response: Response) | Insert(chat: int, sender: Id, content: string)

  /** The checks of `sendMessage` in the source's order: reading `req.user.id`
      (a missing `req.user` throws, answered 500), the input check (400), the
      `chatExists` query (500 when it fails or cannot read the id), and the
      chat's existence (404); an insert that fails is answered 500. */
  function SendStep(chatId: Option<Id>, content: Option<string>, user: Option<AuthUser>,
                    chats: set<int>, fault: Fault): (r: SendPlan)
    ensures r.Reject? ==> r.response.status in {400, 404, 500}
    ensures r.Insert? ==> r.chat in chats && Trim(r.content) != "" && Truthy(r.sender)
  {
    if user.None? then Reject(Response(500, ErrorText(InternalText)))
    else if !TruthyOpt(chatId) || content.None? || Trim(content.value) == "" || !TruthyOpt(user.value.id) then
      Reject(Response(400, MessageText(BadRequestText)))
    else if fault == ChatExistsFails || SqlInt(chatId.value).None? then Reject(Response(500, ErrorText(InternalText)))
    else if SqlInt(chatId.value).value !in chats then Reject(Response(404, MessageText(NotFoundText)))
    else if fault == InsertFails then Reject(Response(500, ErrorText(InternalText)))
    else Insert(SqlInt(chatId.value).value, user.value.id.value, content.value)
  }

  /** A message is inserted exactly when a user is present, the chat id and
      sender id are truthy, the content is not blank, the chat exists and no
      query fails; the row keeps the content untrimmed. */
  lemma SendStepInsertsIff(chatId: Option<Id>, content: Option<string>, user: Option<AuthUser>,
                           chats: set<int>, fault: Fault)
    ensures SendStep(chatId, content, user, chats, fault).Insert? <==>
      && user.Some? && TruthyOpt(user.value.id)
      && TruthyOpt(chatId) && SqlInt(chatId.value).Some? && SqlInt(chatId.value).value in chats
      && content.Some? && !IsBlank(content.value)
      && fault != ChatExistsFails && fault != InsertFails
    ensures SendStep(chatId, content, user, chats, fault).Insert? ==>
      var d := SendStep(chatId, content, user, chats, fault);
      d.content == content.value && d.sender == user.value.id.value && d.chat == SqlInt(chatId.value).value
  {
    if content.Some? {
      TrimEmptyIffBlank(content.value);
    }
  }

  /** The 400 answer comes exactly from the input check, made before any query,
      and a blank or missing content always draws it when a user is present. */
  lemma SendStepBadRequestIff(chatId: Option<Id>, content: Option<string>, user: Option<AuthUser>,
                              chats: set<int>, fault: Fault)
    ensures SendStep(chatId, content, user, chats, fault).Reject? &&
            SendStep(chatId, content, user, chats, fault).response.status == 400 <==>
      user.Some? && (!TruthyOpt(chatId) || content.None? || IsBlank(content.value) || !TruthyOpt(user.value.id))
  {
    if content.Some? {
      TrimEmptyIffBlank(content.value);
    }
  }

  /** A valid request for a chat id that names no chat is answered 404 whatever
      the insert would have done. */
  lemma SendStepNotFound(chatId: Id, content: string, userId: Id, chats: set<int>, fault: Fault)
    requires Truthy(chatId) && Truthy(userId) && !IsBlank(content)
    requires SqlInt(chatId).Some? && SqlInt(chatId).value !in chats && fault != ChatExistsFails
    ensures SendStep(Some(chatId), Some(content), Some(AuthUser(Some(userId))), chats, fault) ==
            Reject(Response(404, MessageText(NotFoundText)))
  {
    TrimEmptyIffBlank(content);
  }

  /** Rows are kept in insertion order, which is also `created_at` order. */
  ghost predicate ChronologicalRows(rows: seq<Message>)
  {
    forall i, j :: 0 <= i < j < |rows| ==> rows[i].created_at <= rows[j].created_at
  }

  /** The `chats` and `messages` tables. A new row gets id `nextId` and the
      current time; `clock` is the latest time a row was stamped with. */
  class MessageStore {
    var chats: set<int>
    var rows: seq<Message>
    var nextId: int
    var clock: int

    ghost predicate Valid()
      reads this
    {
      ChronologicalRows(rows) &&
      (forall i :: 0 <= i < |rows| ==> rows[i].created_at <= clock) &&
      (forall i :: 0 <= i < |rows| ==> rows[i].id.Num? && rows[i].id.n < nextId)
    }

    constructor (initialChats: set<int>)
      ensures Valid()
      ensures chats == initialChats && rows == [] && nextId == 1 && clock == 0
    {
      chats, rows, nextId, clock := initialChats, [], 1, 0;
    }

    /** `POST /api/messages`: decides by `SendStep`, and on `Insert` appends the
        row and only then broadcasts it to every socket of room
        `chat_id.toString()` when the Socket.IO instance is present. */
    method SendMessage(chatId: Option<Id>, content: Option<string>, user: Option<AuthUser>,
                       now: int, fault: Fault, io: SocketServer.Server?)
      returns (res: Response)
      requires Valid() && now >= clock
      requires io != null ==> io.Valid()
      modifies this, io
      ensures Valid()
      ensures chats == old(chats)
      ensures io != null ==> io.Valid() && io.connUser == old(io.connUser) && io.rooms == old(io.rooms)
      ensures io != null ==>
        && io.userSockets == old(io.userSockets) && io.socketUsers == old(io.socketUsers)
        && io.chatMembers == old(io.chatMembers) && io.userOrder == old(io.userOrder)
      ensures SendStep(chatId, content, user, chats, fault).Reject? ==>
        && res == SendStep(chatId, content, user, chats, fault).response
        && rows == old(rows) && nextId == old(nextId) && clock == old(clock)
        && (io != null ==> io.log == old(io.log))
      ensures SendStep(chatId, content, user, chats, fault).Insert? ==>
        var d := SendStep(chatId, content, user, chats, fault);
        var row := Message(Num(old(nextId)), Num(d.chat), d.sender, d.content, now, false, None, false, false);
        var room := Str(ToString(chatId.value));
        && rows == old(rows) + [row]
        && res == Response(201, Created(row))
        && (io != null ==> io.log == old(io.log) + [SocketServer.Emit(SocketServer.Room(room),
                                                     SocketServer.RoomOf(io.rooms, room),
                                                     SocketServer.ReceiveMessage(row))])
    {
      var d := SendStep(chatId, content, user, chats, fault);
      if d.Reject? {
        return d.response;
      }
      var row := Message(Num(nextId), Num(d.chat), d.sender, d.content, now, false, None, false, false);
      rows := rows + [row];
      nextId := nextId + 1;
      clock := now;
      if io != null {
        io.EmitToRoom(Str(ToString(chatId.value)), row);
      }
      return Response(201, Created(row));
    }

    /** `GET /api/messages/:chat_id`. The listing is read before the rows are
        marked, so it still shows their earlier `is_read` flags. */
    method GetMessagesByChat(chatId: string, fault: Fault) returns (res: Response)
      requires Valid()
      modifies this
      ensures Valid()
      ensures chats == old(chats) && nextId == old(nextId) && clock == old(clock)
      ensures var k := SqlInt(Str(chatId));
        if fault == ChatExistsFails || k.None? then
          res == Response(500, ErrorText(InternalText)) && rows == old(rows)
        else if k.value !in chats then
          res == Response(404, MessageText(NotFoundText)) && rows == old(rows)
        else if fault == GetMessagesFails then
          res == Response(500, ErrorText(InternalText)) && rows == old(rows)
        else if fault == MarkReadFails then
          res == Response(500, ErrorText(InternalText)) && rows == old(rows)
        else
          res == Response(200, Listed(ChatRows(old(rows), k.value))) && rows == MarkRead(old(rows), k.value)
    {
      var k := SqlInt(Str(chatId));
      if fault == ChatExistsFails || k.None? {
        return Response(500, ErrorText(InternalText));
      }
      if k.value !in chats {
        return Response(404, MessageText(NotFoundText));
      }
      if fault == GetMessagesFails {
        return Response(500, ErrorText(InternalText));
      }
      var messages := ChatRows(rows, k.value);
      if fault == MarkReadFails {
        return Response(500, ErrorText(InternalText));
      }
      rows := MarkRead(rows, k.value);
      return Response(200, Listed(messages));
    }
  }

  /** A message sent over REST reaches every socket in the room, the sender's
      included, unlike the socket relay; and it is in the store before. */
  method RestSendReachesSender() returns (saved: seq<Message>, to: set<SocketServer.SocketId>)
    ensures |saved| == 1 && saved[0].content == "hi" && to == {"a", "b"}
  {
    var io := new SocketServer.Server();
    io.Connect("a", Some(Num(1)));
    io.Connect("b", Some(Num(2)));
    io.JoinRoom("a", Str("5"));
    io.JoinRoom("b", Str("5"));
    var store := new MessageStore({5});
    assert !IsSpace("hi"[0]);
    SendStepInsertsIff(Some(Num(5)), Some("hi"), Some(AuthUser(Some(Num(1)))), {5}, NoFault);
    var res := store.SendMessage(Some(Num(5)), Some("hi"), Some(AuthUser(Some(Num(1)))), 10, NoFault, io);
    saved, to := store.rows, io.log[|io.log| - 1].to;
  }
}

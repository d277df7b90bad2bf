/** The client's `joinedRooms` Set and the socket events the chat context
    emits while joining and leaving rooms. The guarded loops join a room only
    when it is not yet in the Set; the handlers for a new chat join
    unconditionally. */
module ChatRooms {
  import opened JsBase
  import opened Entities

  /** An event the client emits on its socket. */
  datatype ClientEmit =
    | JoinRoom(room: string)
    | JoinChatRoom(chatId: string, userId: Id)
    | LeaveRoom(room: string)
    | CreatePrivateChat(user1Id: Id, user2Id: Id, chatData: Chat)
    | NewGroupChatCreated(chatId: string, participants: seq<Id>, chatData: Chat)
    | SendMessage(message: Message)

  /** `chat.id.toString()` */
  function RoomKey(c: Chat): string
  {
    ToString(c.id)
  }

  /** The Set after the guarded loop over `chats` has added every room. */
  function JoinedAfter(joined: seq<string>, chats: seq<Chat>): (r: seq<string>)
    ensures NoDup(joined) ==> NoDup(r)
  {
    if chats == [] then joined
    else Insert(JoinedAfter(joined, chats[..|chats| - 1]), RoomKey(chats[|chats| - 1]))
  }

  /** The events of the guarded loop: `joinRoom` then `joinChatRoom` for each
      room not yet in the Set when the loop reaches it. */
  function JoinEmits(joined: seq<string>, chats: seq<Chat>, userId: Id): seq<ClientEmit>
  {
    if chats == [] then []
    else
      JoinEmits(joined, chats[..|chats| - 1], userId)
      + StepEmits(JoinedAfter(joined, chats[..|chats| - 1]), RoomKey(chats[|chats| - 1]), userId)
  }

  /** One iteration of the guarded loop. */
  function StepEmits(joined: seq<string>, k: string, userId: Id): (r: seq<ClientEmit>)
    ensures JoinTargets(r) == if k in joined then [] else [k]
  {
    var r := if k in joined then [] else [JoinRoom(k), JoinChatRoom(k, userId)];
    assert r != [] ==> r[..|r| - 1] == [JoinRoom(k)] && [JoinRoom(k)][..0] == [] && JoinTargets([JoinRoom(k)]) == [k];
    r
  }

  /** The rooms of the `joinRoom` events, in order. */
  function JoinTargets(es: seq<ClientEmit>): seq<string>
  {
    if es == [] then []
    else JoinTargets(es[..|es| - 1]) + (if es[|es| - 1].JoinRoom? then [es[|es| - 1].room] else [])
  }

  lemma {:induction false} JoinTargetsAppend(a: seq<ClientEmit>, b: seq<ClientEmit>)
    ensures JoinTargets(a + b) == JoinTargets(a) + JoinTargets(b)
    decreases |b|
  {
    if b == [] {
      assert a + b == a;
    } else {
      JoinTargetsAppend(a, b[..|b| - 1]);
      assert (a + b)[..|a + b| - 1] == a + b[..|b| - 1];
      assert (a + b)[|a + b| - 1] == b[|b| - 1];
    }
  }

  /** One more chat of the loop: a room already in the Set changes nothing,
      and a new one is appended to the Set and joined. */
  lemma JoinLoopStep(joined: seq<string>, chats: seq<Chat>, i: int, userId: Id)
    requires 0 <= i < |chats|
    ensures var prev, k := JoinedAfter(joined, chats[..i]), RoomKey(chats[i]);
      && (k in prev ==> JoinedAfter(joined, chats[..i + 1]) == prev &&
                        JoinEmits(joined, chats[..i + 1], userId) == JoinEmits(joined, chats[..i], userId))
      && (k !in prev ==> JoinedAfter(joined, chats[..i + 1]) == prev + [k] &&
                         JoinEmits(joined, chats[..i + 1], userId) ==
                           JoinEmits(joined, chats[..i], userId) + [JoinRoom(k), JoinChatRoom(k, userId)])
  {
    assert chats[..i + 1][..i] == chats[..i] && chats[..i + 1][i] == chats[i];
  }

  /** The Set after the loop is the Set before followed by exactly the rooms a
      `joinRoom` was emitted for. */
  lemma {:induction false} JoinEmitsMatchJoined(joined: seq<string>, chats: seq<Chat>, userId: Id)
    ensures JoinedAfter(joined, chats) == joined + JoinTargets(JoinEmits(joined, chats, userId))
    decreases |chats|
  {
    if chats != [] {
      var init := chats[..|chats| - 1];
      var k := RoomKey(chats[|chats| - 1]);
      var prev := JoinedAfter(joined, init);
      var es := JoinEmits(joined, init, userId);
      var step := StepEmits(prev, k, userId);
      assert JoinEmits(joined, chats, userId) == es + step;
      assert JoinedAfter(joined, chats) == Insert(prev, k);
      JoinEmitsMatchJoined(joined, init, userId);
      JoinTargetsAppend(es, step);
      if k !in prev {
        assert joined + JoinTargets(es) + [k] == joined + (JoinTargets(es) + [k]);
      }
    }
  }

  /** Join once: starting from a duplicate-free Set, each `joinRoom` of the
      loop is for a room that was absent from the Set, no room is joined twice,
      and every chat's room is in the Set afterwards. */
  lemma JoinOnce(joined: seq<string>, chats: seq<Chat>, userId: Id)
    requires NoDup(joined)
    ensures var t := JoinTargets(JoinEmits(joined, chats, userId));
      NoDup(t) && (forall k :: k in t ==> k !in joined)
    ensures forall c :: c in chats ==> RoomKey(c) in JoinedAfter(joined, chats)
  {
    JoinEmitsMatchJoined(joined, chats, userId);
    var t := JoinTargets(JoinEmits(joined, chats, userId));
    var all := joined + t;
    assert NoDup(all);
    forall i, j | 0 <= i < j < |t| ensures t[i] != t[j] {
      assert all[|joined| + i] == t[i] && all[|joined| + j] == t[j];
    }
    forall k | k in t ensures k !in joined {
      var j :| 0 <= j < |t| && t[j] == k;
      forall i | 0 <= i < |joined| ensures joined[i] != k {
        assert all[i] == joined[i] && all[|joined| + j] == k;
      }
    }
    JoinedAfterCovers(joined, chats);
  }

  lemma {:induction false} JoinedAfterCovers(joined: seq<string>, chats: seq<Chat>)
    ensures forall c :: c in chats ==> RoomKey(c) in JoinedAfter(joined, chats)
    ensures forall k :: k in joined ==> k in JoinedAfter(joined, chats)
    decreases |chats|
  {
    if chats != [] {
      var init := chats[..|chats| - 1];
      JoinedAfterCovers(joined, init);
      forall c | c in chats ensures RoomKey(c) in JoinedAfter(joined, chats) {
        if c != chats[|chats| - 1] {
          var i :| 0 <= i < |chats| && chats[i] == c;
          assert init[i] == c;
        }
      }
    }
  }

  /** `leaveRoom` for every room of the Set, in Set order. */
  function LeaveEmits(rooms: seq<string>): (r: seq<ClientEmit>)
    ensures |r| == |rooms| && forall i :: 0 <= i < |rooms| ==> r[i] == LeaveRoom(rooms[i])
  {
    if rooms == [] then [] else LeaveEmits(rooms[..|rooms| - 1]) + [LeaveRoom(rooms[|rooms| - 1])]
  }

  /** The `joinedRooms` ref and the socket's outgoing events. */
  class RoomJoiner {
    var joined: seq<string>
    var outbox: seq<ClientEmit>
    /** Whether the last run of the connect effect got past its early return
        and so left a cleanup for React to run before the next run. */
    var cleanupArmed: bool

    ghost predicate Valid()
      reads this
    {
      NoDup(joined)
    }

    constructor ()
      ensures Valid() && joined == [] && outbox == [] && !cleanupArmed
    {
      joined, outbox, cleanupArmed := [], [], false;
    }

    /** The guarded loop shared by the connect effect and `fetchChats`. The
        Set and the events are gathered in locals and stored at the end;
        nothing else runs while the loop does. */
    method JoinChats(chats: seq<Chat>, userId: Id)
      requires Valid()
      modifies this`joined, this`outbox
      ensures Valid()
      ensures joined == JoinedAfter(old(joined), chats)
      ensures outbox == old(outbox) + JoinEmits(old(joined), chats, userId)
    {
      var start := joined;
      var current, sent := start, [];
      var i := 0;
      while i < |chats|
        invariant 0 <= i <= |chats| && outbox == old(outbox)
        invariant current == JoinedAfter(start, chats[..i])
        invariant sent == JoinEmits(start, chats[..i], userId)
      {
        var roomId := RoomKey(chats[i]);
        JoinLoopStep(start, chats, i, userId);
        if roomId !in current {
          sent := sent + [JoinRoom(roomId), JoinChatRoom(roomId, userId)];
          current := current + [roomId];
        }
        i := i + 1;
      }
      assert chats[..i] == chats;
      joined, outbox := current, outbox + sent;
    }

    /** The body of the connect effect: nothing unless the socket is
        connected, the user is authenticated with a truthy id and there is a
        chat; then the personal room `user.id.toString()` is joined every time,
        each chat's room only when it is absent from the Set, and the cleanup
        is armed. React runs a body only after the previous run's cleanup. */
    method JoinOnConnect(ready: bool, userId: Option<Id>, chats: seq<Chat>)
      requires Valid() && !cleanupArmed
      modifies this
      ensures Valid()
      ensures cleanupArmed == (ready && TruthyOpt(userId) && chats != [])
      ensures !ready || !TruthyOpt(userId) || chats == [] ==> joined == old(joined) && outbox == old(outbox)
      ensures ready && TruthyOpt(userId) && chats != [] ==>
        && joined == JoinedAfter(old(joined), chats)
        && outbox == old(outbox) + [JoinRoom(ToString(userId.value))] + JoinEmits(old(joined), chats, userId.value)
    {
      if !ready || !TruthyOpt(userId) || |chats| == 0 {
        return;
      }
      outbox := outbox + [JoinRoom(ToString(userId.value))];
      JoinChats(chats, userId.value);
      cleanupArmed := true;
    }

    /** What React does before the connect effect runs again or the provider
        unmounts: the previous run's cleanup, when that run armed one. */
    method ConnectCleanup()
      requires Valid()
      modifies this
      ensures Valid() && !cleanupArmed
      ensures old(cleanupArmed) ==> joined == [] && outbox == old(outbox) + LeaveEmits(old(joined))
      ensures !old(cleanupArmed) ==> joined == old(joined) && outbox == old(outbox)
    {
      if cleanupArmed {
        LeaveAllJoined();
        cleanupArmed := false;
      }
    }

    /** A dependency of the connect effect changed: the previous run's
        cleanup, if armed, then the body again. */
    method RerunOnConnect(ready: bool, userId: Option<Id>, chats: seq<Chat>)
      requires Valid()
      modifies this
      ensures Valid()
      ensures cleanupArmed == (ready && TruthyOpt(userId) && chats != [])
      ensures var left := if old(cleanupArmed) then [] else old(joined);
        var leaves := if old(cleanupArmed) then LeaveEmits(old(joined)) else [];
        if ready && TruthyOpt(userId) && chats != [] then
          && joined == JoinedAfter(left, chats)
          && outbox == old(outbox) + leaves + [JoinRoom(ToString(userId.value))] + JoinEmits(left, chats, userId.value)
        else
          joined == left && outbox == old(outbox) + leaves
    {
      ConnectCleanup();
      JoinOnConnect(ready, userId, chats);
    }

    /** The effect's cleanup: `leaveRoom` for every room in the Set, then the
        Set is cleared. */
    method LeaveAllJoined()
      modifies this`joined, this`outbox
      ensures Valid()
      ensures joined == [] && outbox == old(outbox) + LeaveEmits(old(joined))
    {
      var i := 0;
      while i < |joined|
        invariant 0 <= i <= |joined| && joined == old(joined)
        invariant outbox == old(outbox) + LeaveEmits(joined[..i])
      {
        assert joined[..i + 1][..i] == joined[..i];
        outbox := outbox + [LeaveRoom(joined[i])];
        i := i + 1;
      }
      assert joined[..i] == joined;
      joined := [];
    }

    /** `fetchChats` after the chats arrive: the guarded loop, when the socket
        is connected. */
    method JoinAfterFetch(ready: bool, chats: seq<Chat>, userId: Id)
      requires Valid()
      modifies this`joined, this`outbox
      ensures Valid()
      ensures !ready ==> joined == old(joined) && outbox == old(outbox)
      ensures ready ==> joined == JoinedAfter(old(joined), chats) &&
                        outbox == old(outbox) + JoinEmits(old(joined), chats, userId)
    {
      if ready {
        JoinChats(chats, userId);
      }
    }

    /** `fetchMessages`: join the chat's room when connected and absent. */
    method JoinOnFetchMessages(ready: bool, chatId: Id, userId: Id)
      requires Valid()
      modifies this`joined, this`outbox
      ensures Valid()
      ensures ready && ToString(chatId) !in old(joined) ==>
        joined == old(joined) + [ToString(chatId)] &&
        outbox == old(outbox) + [JoinRoom(ToString(chatId)), JoinChatRoom(ToString(chatId), userId)]
      ensures !(ready && ToString(chatId) !in old(joined)) ==> joined == old(joined) && outbox == old(outbox)
    {
      var roomId := ToString(chatId);
      if ready && roomId !in joined {
        outbox := outbox + [JoinRoom(roomId), JoinChatRoom(roomId, userId)];
        joined := joined + [roomId];
      }
    }

    /** `newChatAdded`: join the chat's room whether or not it is in the Set. */
    method JoinNewChat(chat: Chat, userId: Id)
      requires Valid()
      modifies this`joined, this`outbox
      ensures Valid()
      ensures joined == Insert(old(joined), RoomKey(chat))
      ensures outbox == old(outbox) + [JoinRoom(RoomKey(chat)), JoinChatRoom(RoomKey(chat), userId)]
    {
      var roomId := RoomKey(chat);
      outbox := outbox + [JoinRoom(roomId)];
      joined := Insert(joined, roomId);
      outbox := outbox + [JoinChatRoom(roomId, userId)];
    }

    /** `createPrivateChat` after the chat is returned: when connected, join its
        room unconditionally and announce it to the server. */
    method JoinCreatedPrivateChat(ready: bool, chat: Chat, userId: Id, userId2: Id)
      requires Valid()
      modifies this`joined, this`outbox
      ensures Valid()
      ensures !ready ==> joined == old(joined) && outbox == old(outbox)
      ensures ready ==>
        joined == Insert(old(joined), RoomKey(chat)) &&
        outbox == old(outbox) + [JoinRoom(RoomKey(chat)), JoinChatRoom(RoomKey(chat), userId),
                                 CreatePrivateChat(userId, userId2, chat)]
    {
      if ready {
        var roomId := RoomKey(chat);
        outbox := outbox + [JoinRoom(roomId), JoinChatRoom(roomId, userId)];
        joined := Insert(joined, roomId);
        outbox := outbox + [CreatePrivateChat(userId, userId2, chat)];
      }
    }

    /** `createGroupChat` after the chat is returned: when connected, join its
        room unconditionally and announce it with the member ids. */
    method JoinCreatedGroupChat(ready: bool, chat: Chat, userId: Id)
      requires Valid()
      modifies this`joined, this`outbox
      ensures Valid()
      ensures !ready ==> joined == old(joined) && outbox == old(outbox)
      ensures ready ==>
        joined == Insert(old(joined), RoomKey(chat)) &&
        outbox == old(outbox) + [JoinRoom(RoomKey(chat)), JoinChatRoom(RoomKey(chat), userId),
                                 NewGroupChatCreated(RoomKey(chat), MemberIds(MembersOf(chat)), chat)]
    {
      if ready {
        var roomId := RoomKey(chat);
        outbox := outbox + [JoinRoom(roomId), JoinChatRoom(roomId, userId)];
        joined := Insert(joined, roomId);
        outbox := outbox + [NewGroupChatCreated(roomId, MemberIds(MembersOf(chat)), chat)];
      }
    }

    /** The end of a successful `sendMessage`: when connected, the client
        announces the stored row on its socket as well, with the user's `id`,
        `username` and `profile_pic` as its sender. With `echoes` false the
        client leaves the broadcast to the REST endpoint alone. */
    method AnnounceSent(ready: bool, row: Message, user: User, echoes: bool)
      modifies this`outbox
      ensures ready && echoes ==> outbox == old(outbox) + [SendMessage(row.(sender := Some(user)))]
      ensures !(ready && echoes) ==> outbox == old(outbox)
    {
      if ready && echoes {
        outbox := outbox + [SendMessage(row.(sender := Some(user)))];
      }
    }
  }

  /** A second run of the connect effect first runs the cleanup of the first:
      every room is left and the Set cleared, so the chat's room is joined
      again. */
  method RerunLeavesAndRejoins() returns (second: seq<ClientEmit>)
    ensures second == [LeaveRoom("3"), JoinRoom("7"), JoinRoom("3"), JoinChatRoom("3", Num(7))]
  {
    var j := new RoomJoiner();
    var chat := Chat(Num(3), false, None, None, None);
    j.JoinOnConnect(true, Some(Num(7)), [chat]);
    assert [chat][..0] == [];
    assert j.joined == ["3"];
    var before := |j.outbox|;
    j.RerunOnConnect(true, Some(Num(7)), [chat]);
    second := j.outbox[before..];
  }

  /** The effect's first run returns early while the chat list is empty and
      arms no cleanup; `fetchChats` then joins the rooms, so the run that sees
      the chats joins only the personal room. */
  method FetchFirstJoinsOnlyPersonalRoom() returns (fetched: seq<ClientEmit>, effect: seq<ClientEmit>)
    ensures fetched == [JoinRoom("3"), JoinChatRoom("3", Num(7))]
    ensures effect == [JoinRoom("7")]
  {
    var j := new RoomJoiner();
    var chat := Chat(Num(3), false, None, None, None);
    j.JoinOnConnect(true, Some(Num(7)), []);
    j.JoinAfterFetch(true, [chat], Num(7));
    assert [chat][..0] == [];
    fetched := j.outbox;
    j.RerunOnConnect(true, Some(Num(7)), [chat]);
    effect := j.outbox[|fetched|..];
  }

  /** A `newChatAdded` for a room already in the Set still emits `joinRoom`. */
  method NewChatRejoins() returns (emitted: seq<ClientEmit>, joined: seq<string>)
    ensures emitted == [JoinRoom("3"), JoinChatRoom("3", Num(7))] && joined == ["3"]
  {
    var j := new RoomJoiner();
    var chat := Chat(Num(3), false, None, None, None);
    j.JoinOnConnect(true, Some(Num(7)), [chat]);
    var before := |j.outbox|;
    j.JoinNewChat(chat, Num(7));
    emitted, joined := j.outbox[before..], j.joined;
  }
}

/** The client's chat state and the updaters the chat context applies to it:
    incoming messages (de-duplication and replacement of optimistic temp
    messages), unread counters, the chat list, typing sets, the life cycle of an
    optimistic send, and the `chatUsers` directory. Every updater is a function
    from the previous state to the next. */
module ChatState {
  import opened JsBase
  import opened Entities

  // ---------------------------------------------------------------------------
  // Incoming messages

  /** An optimistic message the client created itself: its id is `temp-...`. */
  predicate IsTemp(m: Message)
  {
    m.id.Str? && StartsWith(m.id.s, "temp-")
  }

  /** `m` is a temp message standing for `incoming`: same content and sender. */
  predicate IsTempMatch(m: Message, incoming: Message)
  {
    IsTemp(m) && m.content == incoming.content && m.sender_id == incoming.sender_id
  }

  /** The `messageExists` test: some message has the incoming id or is a
      matching temp message. */
  predicate AlreadyShown(prev: seq<Message>, incoming: Message)
  {
    exists i :: 0 <= i < |prev| && (prev[i].id == incoming.id || IsTempMatch(prev[i], incoming))
  }

  /** The server's message in place of temp `temp`, keeping the temp's sender
      when it has one (`sender: msg.sender || newMessage.sender`). */
  function Confirmed(temp: Message, incoming: Message): (r: Message)
    ensures r.id == incoming.id && r.content == incoming.content && r.sender_id == incoming.sender_id
    ensures r.sender == if temp.sender.Some? then temp.sender else incoming.sender
  {
    incoming.(sender := if temp.sender.Some? then temp.sender else incoming.sender)
  }

  /** Every matching temp message replaced, every other message kept. */
  function ReplaceTemps(prev: seq<Message>, incoming: Message): (r: seq<Message>)
    ensures |r| == |prev|
    ensures forall i :: 0 <= i < |prev| ==>
      r[i] == if IsTempMatch(prev[i], incoming) then Confirmed(prev[i], incoming) else prev[i]
  {
    if prev == [] then []
    else [if IsTempMatch(prev[0], incoming) then Confirmed(prev[0], incoming) else prev[0]]
         + ReplaceTemps(prev[1..], incoming)
  }

  /** The `setMessages` updater of `handleNewMessage` for the open chat. */
  function MergeIncoming(prev: seq<Message>, incoming: Message): (r: seq<Message>)
    ensures |r| == if AlreadyShown(prev, incoming) then |prev| else |prev| + 1
    ensures exists i :: 0 <= i < |r| && r[i].id == incoming.id
  {
    if AlreadyShown(prev, incoming) then
      var r := ReplaceTemps(prev, incoming);
      var i :| 0 <= i < |prev| && (prev[i].id == incoming.id || IsTempMatch(prev[i], incoming));
      assert r[i].id == incoming.id;
      r
    else
      var r := prev + [incoming];
      assert r[|prev|] == incoming;
      r
  }

  /** A message neither shown nor standing in as a temp is appended at the end. */
  lemma MergeAppendsNew(prev: seq<Message>, incoming: Message)
    requires forall i :: 0 <= i < |prev| ==> prev[i].id != incoming.id && !IsTempMatch(prev[i], incoming)
    ensures MergeIncoming(prev, incoming) == prev + [incoming]
  {
  }

  /** With a matching temp, each matching temp is replaced in place and the
      list keeps its length; the rest is untouched. */
  lemma MergeReplacesTemps(prev: seq<Message>, incoming: Message, t: int)
    requires 0 <= t < |prev| && IsTempMatch(prev[t], incoming)
    ensures |MergeIncoming(prev, incoming)| == |prev|
    ensures MergeIncoming(prev, incoming)[t] == Confirmed(prev[t], incoming)
    ensures forall i :: 0 <= i < |prev| && !IsTempMatch(prev[i], incoming) ==>
      MergeIncoming(prev, incoming)[i] == prev[i]
  {
  }

  /** A message whose id is already shown, with no temp standing in for it,
      changes nothing. */
  lemma MergeKnownIdUnchanged(prev: seq<Message>, incoming: Message, k: int)
    requires 0 <= k < |prev| && prev[k].id == incoming.id
    requires forall i :: 0 <= i < |prev| ==> !IsTempMatch(prev[i], incoming)
    ensures MergeIncoming(prev, incoming) == prev
  {
    assert !IsTempMatch(prev[k], incoming);
    assert ReplaceTemps(prev, incoming) == prev;
  }

  ghost predicate UniqueIds(ms: seq<Message>)
  {
    forall i, j :: 0 <= i < j < |ms| ==> ms[i].id != ms[j].id
  }

  /** Without temp messages for it, an incoming message never creates a
      duplicate id. */
  lemma MergeKeepsIdsUnique(prev: seq<Message>, incoming: Message)
    requires UniqueIds(prev)
    requires forall i :: 0 <= i < |prev| ==> !IsTempMatch(prev[i], incoming)
    ensures UniqueIds(MergeIncoming(prev, incoming))
  {
    if AlreadyShown(prev, incoming) {
      var k :| 0 <= k < |prev| && (prev[k].id == incoming.id || IsTempMatch(prev[k], incoming));
      MergeKnownIdUnchanged(prev, incoming, k);
    }
  }

  /** Two temp messages with the same text (the text sent twice before the
      first echo) are both replaced by the first echo, so the list then holds
      the same id twice. */
  lemma MergeDuplicatesEqualTemps(incoming: Message)
    requires !IsTemp(incoming)
    ensures var t1 := incoming.(id := Str("temp-1"), pending := true);
            var t2 := incoming.(id := Str("temp-2"), pending := true);
            var r := MergeIncoming([t1, t2], incoming);
            |r| == 2 && r[0].id == r[1].id == incoming.id
  {
    var t1 := incoming.(id := Str("temp-1"), pending := true);
    var t2 := incoming.(id := Str("temp-2"), pending := true);
    assert StartsWith(t1.id.s, "temp-") && StartsWith(t2.id.s, "temp-");
    assert IsTempMatch([t1, t2][0], incoming);
  }

  /** `chatUsers`: users by `id` rendered as an object key. */
  type Directory = map<string, User>

  /** Sender enrichment: a message without `sender` but with a truthy
      `sender_id` takes the sender known in `chatUsers`, if any. */
  function WithSender(m: Message, users: Directory): (r: Message)
    ensures r.(sender := m.sender) == m
    ensures m.sender.Some? ==> r == m
    ensures m.sender.None? && Truthy(m.sender_id) && ToString(m.sender_id) in users ==>
      r.sender == Some(users[ToString(m.sender_id)])
    ensures (m.sender.None? && !(Truthy(m.sender_id) && ToString(m.sender_id) in users)) ==> r == m
  {
    if m.sender.None? && Truthy(m.sender_id) && ToString(m.sender_id) in users
    then m.(sender := Some(users[ToString(m.sender_id)]))
    else m
  }

  // ---------------------------------------------------------------------------
  // Unread counters

  /** `unreadMessages`: counts by chat id rendered as an object key. */
  type Unread = map<string, nat>

  /** `getUnreadCount(chatId)`: a missing counter reads as 0. */
  function UnreadCount(u: Unread, chatId: Id): (r: nat)
    ensures ToString(chatId) !in u ==> r == 0
    ensures ToString(chatId) in u ==> r == u[ToString(chatId)]
  {
    if ToString(chatId) in u then u[ToString(chatId)] else 0
  }

  /** `[chat_id]: (prev[chat_id] || 0) + 1` */
  function BumpUnread(u: Unread, chatId: Id): (r: Unread)
    ensures UnreadCount(r, chatId) == UnreadCount(u, chatId) + 1
    ensures forall c :: ToString(c) != ToString(chatId) ==> UnreadCount(r, c) == UnreadCount(u, c)
  {
    u[ToString(chatId) := UnreadCount(u, chatId) + 1]
  }

  /** `fetchMessages` sets the chat's counter to 0. */
  function ResetUnread(u: Unread, chatId: Id): (r: Unread)
    ensures UnreadCount(r, chatId) == 0
    ensures forall c :: ToString(c) != ToString(chatId) ==> UnreadCount(r, c) == UnreadCount(u, c)
  {
    u[ToString(chatId) := 0]
  }

  // ---------------------------------------------------------------------------
  // The chat list

  ghost function ChatIds(cs: seq<Chat>): set<Id>
  {
    set i | 0 <= i < |cs| :: cs[i].id
  }

  /** `prev.some((c) => c.id === chat.id)` */
  predicate Listed(cs: seq<Chat>, id: Id)
  {
    exists i :: 0 <= i < |cs| && cs[i].id == id
  }

  /** `chatUpdated`: the chat with the same id is replaced, nothing is added. */
  function ReplaceChat(cs: seq<Chat>, c: Chat): (r: seq<Chat>)
    ensures |r| == |cs|
    ensures forall i :: 0 <= i < |cs| ==> r[i] == if cs[i].id == c.id then c else cs[i]
  {
    if cs == [] then [] else [if cs[0].id == c.id then c else cs[0]] + ReplaceChat(cs[1..], c)
  }

  /** `newChatAdded` and `createPrivateChat`: replace in place, or else prepend. */
  function UpsertChat(cs: seq<Chat>, c: Chat): seq<Chat>
  {
    if Listed(cs, c.id) then ReplaceChat(cs, c) else [c] + cs
  }

  /** `createGroupChat` prepends without looking for the id: the list always
      grows by one, the new chat first. */
  function PrependChat(cs: seq<Chat>, c: Chat): (r: seq<Chat>)
    ensures |r| == |cs| + 1 && r[0] == c
    ensures ChatIds(r) == ChatIds(cs) + {c.id}
  {
    var r := [c] + cs;
    assert forall i :: 0 <= i < |cs| ==> cs[i] == r[i + 1];
    r
  }

  /** No id is listed twice. */
  ghost predicate UniqueChatIds(cs: seq<Chat>)
  {
    forall i, j :: 0 <= i < j < |cs| ==> cs[i].id != cs[j].id
  }

  /** Prepending agrees with the upsert for a new id. For an id already listed
      it lists the id twice and the list grows, where the upsert replaces the
      chat in place. */
  lemma PrependVersusUpsert(cs: seq<Chat>, c: Chat)
    ensures !Listed(cs, c.id) ==> PrependChat(cs, c) == UpsertChat(cs, c)
    ensures Listed(cs, c.id) ==>
      !UniqueChatIds(PrependChat(cs, c)) && |PrependChat(cs, c)| == |UpsertChat(cs, c)| + 1
  {
    UpsertChatProperties(cs, c);
    if Listed(cs, c.id) {
      var i :| 0 <= i < |cs| && cs[i].id == c.id;
      var r := PrependChat(cs, c);
      assert r[i + 1] == cs[i];
    }
  }

  /** `updateChatWithLastMessage`: only the chat whose id is `message.chat_id`
      changes, and only its `last_message`. */
  function WithLastMessage(cs: seq<Chat>, m: Message): (r: seq<Chat>)
    ensures |r| == |cs|
    ensures forall i :: 0 <= i < |cs| ==>
      r[i] == if cs[i].id == m.chat_id then cs[i].(last_message := Some(m)) else cs[i]
  {
    if cs == [] then []
    else [if cs[0].id == m.chat_id then cs[0].(last_message := Some(m)) else cs[0]] + WithLastMessage(cs[1..], m)
  }

  /** Replacing never adds or removes an id and is idempotent; for an id not in
      the list it changes nothing. */
  lemma ReplaceChatProperties(cs: seq<Chat>, c: Chat)
    ensures ChatIds(ReplaceChat(cs, c)) == ChatIds(cs)
    ensures ReplaceChat(ReplaceChat(cs, c), c) == ReplaceChat(cs, c)
    ensures !Listed(cs, c.id) ==> ReplaceChat(cs, c) == cs
  {
    var r := ReplaceChat(cs, c);
    forall x | x in ChatIds(r) ensures x in ChatIds(cs) {
      var i :| 0 <= i < |r| && r[i].id == x;
    }
    forall x | x in ChatIds(cs) ensures x in ChatIds(r) {
      var i :| 0 <= i < |cs| && cs[i].id == x;
      assert r[i].id == x;
    }
  }

  /** After an upsert the chat is in the list exactly once more than before
      unless its id was listed, the ids are the old ones plus its id, and a
      second upsert of the same chat changes nothing. */
  lemma UpsertChatProperties(cs: seq<Chat>, c: Chat)
    ensures c in UpsertChat(cs, c)
    ensures ChatIds(UpsertChat(cs, c)) == ChatIds(cs) + {c.id}
    ensures |UpsertChat(cs, c)| == if Listed(cs, c.id) then |cs| else |cs| + 1
    ensures UpsertChat(UpsertChat(cs, c), c) == UpsertChat(cs, c)
  {
    if Listed(cs, c.id) {
      UpsertListed(cs, c);
    } else {
      UpsertUnlisted(cs, c);
    }
  }

  lemma UpsertListed(cs: seq<Chat>, c: Chat)
    requires Listed(cs, c.id)
    ensures var r := UpsertChat(cs, c);
      c in r && ChatIds(r) == ChatIds(cs) + {c.id} && |r| == |cs| && UpsertChat(r, c) == r
  {
    var r := UpsertChat(cs, c);
    ReplaceChatProperties(cs, c);
    var k :| 0 <= k < |cs| && cs[k].id == c.id;
    assert r[k] == c;
    assert Listed(r, c.id);
  }

  lemma UpsertUnlisted(cs: seq<Chat>, c: Chat)
    requires !Listed(cs, c.id)
    ensures var r := UpsertChat(cs, c);
      c in r && ChatIds(r) == ChatIds(cs) + {c.id} && |r| == |cs| + 1 && UpsertChat(r, c) == r
  {
    var r := [c] + cs;
    assert r[0] == c;
    assert Listed(r, c.id);
    forall x | x in ChatIds(r) ensures x in ChatIds(cs) + {c.id} {
      var i :| 0 <= i < |r| && r[i].id == x;
      if i > 0 { assert r[i] == cs[i - 1]; }
    }
    forall x | x in ChatIds(cs) ensures x in ChatIds(r) {
      var i :| 0 <= i < |cs| && cs[i].id == x;
      assert r[i + 1].id == x;
    }
    assert ReplaceChat(r, c) == r by {
      forall i | 0 <= i < |r| ensures ReplaceChat(r, c)[i] == r[i] {
        if i > 0 {
          assert r[i] == cs[i - 1];
          assert cs[i - 1].id != c.id;
        }
      }
    }
  }

  /** The last message lands on exactly the chats with its `chat_id`; ids and
      everything else stay. */
  lemma WithLastMessageProperties(cs: seq<Chat>, m: Message)
    ensures ChatIds(WithLastMessage(cs, m)) == ChatIds(cs)
    ensures !Listed(cs, m.chat_id) ==> WithLastMessage(cs, m) == cs
    ensures forall i :: 0 <= i < |cs| && cs[i].id == m.chat_id ==>
      WithLastMessage(cs, m)[i].last_message == Some(m)
  {
    var r := WithLastMessage(cs, m);
    forall x | x in ChatIds(r) ensures x in ChatIds(cs) {
      var i :| 0 <= i < |r| && r[i].id == x;
    }
    forall x | x in ChatIds(cs) ensures x in ChatIds(r) {
      var i :| 0 <= i < |cs| && cs[i].id == x;
      assert r[i].id == x;
    }
  }

  // ---------------------------------------------------------------------------
  // The whole `handleNewMessage` handler

  /** What the handler reads: the user, the open chat and `chatUsers`. */
  datatype Session = Session(user: Option<User>, currentChat: Option<Chat>, users: Directory)

  /** What the handler's updaters change. */
  datatype ChatLists = ChatLists(messages: seq<Message>, unread: Unread, chats: seq<Chat>)

  /** `newMessage.sender_id !== user?.id`: without a user every sender counts
      as another user. */
  predicate FromOther(s: Session, m: Message)
  {
    s.user.None? || m.sender_id != s.user.value.id
  }

  /** `handleNewMessage`: enrich the sender; merge into the open chat's
      messages, or else count the message unread when it is from another user;
      and in every case record it as the chat's last message. */
  function HandleNewMessage(s: Session, l: ChatLists, incoming: Message): (r: ChatLists)
    ensures |r.messages| <= |l.messages| + 1 && |r.chats| == |l.chats|
    ensures forall c :: ToString(c) != ToString(incoming.chat_id) ==> UnreadCount(r.unread, c) == UnreadCount(l.unread, c)
  {
    var m := WithSender(incoming, s.users);
    var inOpenChat := s.currentChat.Some? && m.chat_id == s.currentChat.value.id;
    ChatLists(
      if inOpenChat then MergeIncoming(l.messages, m) else l.messages,
      if !inOpenChat && FromOther(s, m) then BumpUnread(l.unread, m.chat_id) else l.unread,
      WithLastMessage(l.chats, m))
  }

  /** A message for another chat from another user raises that chat's counter
      by one and leaves the open chat's messages alone; one's own messages never
      raise a counter; a message for the open chat raises none. */
  lemma HandleNewMessageUnread(s: Session, l: ChatLists, incoming: Message)
    ensures var r := HandleNewMessage(s, l, incoming);
      var inOpenChat := s.currentChat.Some? && incoming.chat_id == s.currentChat.value.id;
      && (!inOpenChat && FromOther(s, incoming) ==>
            UnreadCount(r.unread, incoming.chat_id) == UnreadCount(l.unread, incoming.chat_id) + 1 &&
            r.messages == l.messages)
      && (s.user.Some? && incoming.sender_id == s.user.value.id ==> r.unread == l.unread)
      && (inOpenChat ==> r.unread == l.unread && r.messages == MergeIncoming(l.messages, WithSender(incoming, s.users)))
  {
  }

  // ---------------------------------------------------------------------------
  // Typing sets

  /** `typingUsers`: by chat id rendered as an object key, the Set of typing
      user ids in insertion order. */
  type Typing = map<string, seq<Id>>

  function TypingIn(t: Typing, chatId: Id): seq<Id>
  {
    if ToString(chatId) in t then t[ToString(chatId)] else []
  }

  /** The `userTyping` updater. The chat's entry is created (empty) even for
      `isTyping = false`. */
  function SetTyping(t: Typing, chatId: Id, userId: Id, isTyping: bool): (r: Typing)
    ensures ToString(chatId) in r && r.Keys == t.Keys + {ToString(chatId)}
    ensures forall u :: u in TypingIn(r, chatId) <==> if isTyping then u in TypingIn(t, chatId) || u == userId
                                                      else u in TypingIn(t, chatId) && u != userId
    ensures NoDup(TypingIn(t, chatId)) ==> NoDup(TypingIn(r, chatId))
    ensures forall k :: k in t && k != ToString(chatId) ==> r[k] == t[k]
  {
    var cur := TypingIn(t, chatId);
    t[ToString(chatId) := if isTyping then Insert(cur, userId) else Delete(cur, userId)]
  }

  /** Repeating a typing event changes nothing more; starting and then stopping
      leaves the user out whatever came before. */
  lemma SetTypingIdempotent(t: Typing, chatId: Id, userId: Id, isTyping: bool)
    requires NoDup(TypingIn(t, chatId))
    ensures SetTyping(SetTyping(t, chatId, userId, isTyping), chatId, userId, isTyping) ==
            SetTyping(t, chatId, userId, isTyping)
    ensures userId !in TypingIn(SetTyping(SetTyping(t, chatId, userId, true), chatId, userId, false), chatId)
  {
    var r := SetTyping(t, chatId, userId, isTyping);
    assert TypingIn(r, chatId) == r[ToString(chatId)];
  }

  /** The typing users shown for the open chat, in Set order: ids other than
      the user's own that `chatUsers` knows, mapped to their users. */
  function ShownTypers(ids: seq<Id>, own: Option<Id>, users: Directory): (r: seq<User>)
    ensures |r| <= |ids|
    ensures forall u :: u in r ==> u in users.Values
  {
    if ids == [] then []
    else (if Some(ids[0]) != own && ToString(ids[0]) in users then [users[ToString(ids[0])]] else [])
         + ShownTypers(ids[1..], own, users)
  }

  /** `getTypingUsers()` */
  function TypingUsers(s: Session, t: Typing): (r: seq<User>)
    ensures forall u :: u in r ==> u in s.users.Values
    ensures s.currentChat.None? ==> r == []
  {
    if s.currentChat.None? || ToString(s.currentChat.value.id) !in t then []
    else ShownTypers(t[ToString(s.currentChat.value.id)], if s.user.Some? then Some(s.user.value.id) else None, s.users)
  }

  /** A shown typist is the known user of a typing id other than one's own, and
      every such id is shown. */
  lemma {:induction false} ShownTypersExact(ids: seq<Id>, own: Option<Id>, users: Directory)
    ensures forall u :: u in ShownTypers(ids, own, users) ==>
      exists i :: 0 <= i < |ids| && Some(ids[i]) != own && ToString(ids[i]) in users && users[ToString(ids[i])] == u
    ensures forall i :: 0 <= i < |ids| && Some(ids[i]) != own && ToString(ids[i]) in users ==>
      users[ToString(ids[i])] in ShownTypers(ids, own, users)
    decreases |ids|
  {
    if ids != [] {
      ShownTypersExact(ids[1..], own, users);
      var r := ShownTypers(ids, own, users);
      forall u | u in r
        ensures exists i :: 0 <= i < |ids| && Some(ids[i]) != own && ToString(ids[i]) in users && users[ToString(ids[i])] == u
      {
        if !(Some(ids[0]) != own && ToString(ids[0]) in users && users[ToString(ids[0])] == u) {
          assert u in ShownTypers(ids[1..], own, users);
          var j :| 0 <= j < |ids[1..]| && Some(ids[1..][j]) != own && ToString(ids[1..][j]) in users && users[ToString(ids[1..][j])] == u;
          assert ids[j + 1] == ids[1..][j];
        }
      }
      forall i | 0 <= i < |ids| && Some(ids[i]) != own && ToString(ids[i]) in users
        ensures users[ToString(ids[i])] in r
      {
        if i > 0 {
          assert ids[i] == ids[1..][i - 1];
        }
      }
    }
  }

  /** The user never sees themself typing, as long as no other id renders to
      the same key. */
  lemma TypingUsersExcludeSelf(s: Session, t: Typing)
    requires s.user.Some? && s.currentChat.Some?
    requires ToString(s.user.value.id) in s.users && s.users[ToString(s.user.value.id)] == s.user.value
    requires forall k :: k in s.users ==> ToString(s.users[k].id) == k
    requires ToString(s.currentChat.value.id) in t
    requires forall u :: u in t[ToString(s.currentChat.value.id)] ==> u.Num?
    ensures s.user.value.id.Num? ==> s.user.value !in TypingUsers(s, t)
  {
    var ids := t[ToString(s.currentChat.value.id)];
    var own := Some(s.user.value.id);
    ShownTypersExact(ids, own, s.users);
    if s.user.value.id.Num? && s.user.value in TypingUsers(s, t) {
      var i :| 0 <= i < |ids| && Some(ids[i]) != own && ToString(ids[i]) in s.users && s.users[ToString(ids[i])] == s.user.value;
      assert ToString(ids[i]) == ToString(s.user.value.id);
      NumToStringInjective(ids[i].n, s.user.value.id.n);
    }
  }

  // ---------------------------------------------------------------------------
  // The other member of a private chat

  /** `members.find((m) => m.id !== user.id)` */
  function FindOther(ms: seq<User>, own: Id): (r: Option<User>)
    ensures r.Some? ==> r.value in ms && r.value.id != own
  {
    if ms == [] then None else if ms[0].id != own then Some(ms[0]) else FindOther(ms[1..], own)
  }

  /** `getOtherUser(chat)`: null without a chat or user. */
  function OtherUser(chat: Option<Chat>, user: Option<User>): (r: Option<User>)
    ensures r.Some? ==> chat.Some? && user.Some? && r.value in MembersOf(chat.value) && r.value.id != user.value.id
  {
    if chat.None? || user.None? then None else FindOther(MembersOf(chat.value), user.value.id)
  }

  /** The other user is the first member whose id differs from the user's;
      there is none exactly when every member has the user's id. */
  lemma {:induction false} FindOtherFirst(ms: seq<User>, own: Id)
    ensures FindOther(ms, own).None? <==> forall i :: 0 <= i < |ms| ==> ms[i].id == own
    ensures FindOther(ms, own).Some? ==>
      exists i :: 0 <= i < |ms| && ms[i] == FindOther(ms, own).value && ms[i].id != own &&
                  forall j :: 0 <= j < i ==> ms[j].id == own
    decreases |ms|
  {
    if ms != [] && ms[0].id == own {
      FindOtherFirst(ms[1..], own);
      if FindOther(ms, own).Some? {
        var i :| 0 <= i < |ms[1..]| && ms[1..][i] == FindOther(ms, own).value && ms[1..][i].id != own &&
                 forall j :: 0 <= j < i ==> ms[1..][j].id == own;
        assert ms[i + 1] == ms[1..][i];
        forall j | 0 <= j < i + 1 ensures ms[j].id == own {
          if j > 0 { assert ms[j] == ms[1..][j - 1]; }
        }
      } else {
        forall i | 0 <= i < |ms| ensures ms[i].id == own {
          if i > 0 { assert ms[i] == ms[1..][i - 1]; }
        }
      }
    }
  }

  // ---------------------------------------------------------------------------
  // Optimistic send

  /** `temp-${Date.now()}` */
  function TempId(now: nat): (r: Id)
    ensures r.Str? && StartsWith(r.s, "temp-")
  {
    Str("temp-" + NatToDecimal(now))
  }

  /** The temp message shown at once: pending, with the user as sender. */
  function TempMessage(chat: Chat, user: User, content: string, now: nat): (r: Message)
    ensures IsTemp(r) && r.pending && !r.failed && r.sender == Some(user)
    ensures r.chat_id == chat.id && r.sender_id == user.id && r.content == content
  {
    Message(TempId(now), chat.id, user.id, content, now, false, Some(user), true, false)
  }

  /** `sendMessage` before the request: without an open chat or a user it does
      nothing, otherwise it appends one pending temp message. */
  function BeginSend(ms: seq<Message>, chat: Option<Chat>, user: Option<User>, content: string, now: nat): (r: seq<Message>)
    ensures chat.None? || user.None? ==> r == ms
    ensures chat.Some? && user.Some? ==> r == ms + [TempMessage(chat.value, user.value, content, now)]
  {
    if chat.None? || user.None? then ms else ms + [TempMessage(chat.value, user.value, content, now)]
  }

  /** The request succeeded: the message with the temp id becomes `confirmed`,
      the server's row with the user as its sender (`{ ...res.data, sender: user }`). */
  function SendSucceeded(ms: seq<Message>, tempId: Id, confirmed: Message): (r: seq<Message>)
    ensures |r| == |ms|
    ensures forall i :: 0 <= i < |ms| ==> r[i] == if ms[i].id == tempId then confirmed else ms[i]
  {
    if ms == [] then []
    else [if ms[0].id == tempId then confirmed else ms[0]] + SendSucceeded(ms[1..], tempId, confirmed)
  }

  /** The two updaters of a successful reply: the temp message becomes the
      stored row with the user as sender (`confirmed`), and that row becomes
      the last message of its chat in the list. Unread counters stay. */
  function SendReplied(l: ChatLists, tempId: Id, confirmed: Message): (r: ChatLists)
    ensures r.unread == l.unread && |r.messages| == |l.messages| && |r.chats| == |l.chats|
    ensures forall i :: 0 <= i < |l.messages| && l.messages[i].id == tempId ==> r.messages[i] == confirmed
    ensures forall i :: 0 <= i < |l.chats| && l.chats[i].id == confirmed.chat_id ==>
      r.chats[i].last_message == Some(confirmed)
    ensures !Listed(l.chats, confirmed.chat_id) ==> r.chats == l.chats
  {
    WithLastMessageProperties(l.chats, confirmed);
    ChatLists(SendSucceeded(l.messages, tempId, confirmed), l.unread, WithLastMessage(l.chats, confirmed))
  }

  /** The request failed: the message with the temp id is marked failed and no
      longer pending. */
  function SendFailed(ms: seq<Message>, tempId: Id): (r: seq<Message>)
    ensures |r| == |ms|
    ensures forall i :: 0 <= i < |ms| ==> r[i] == if ms[i].id == tempId then ms[i].(failed := true, pending := false) else ms[i]
  {
    if ms == [] then []
    else [if ms[0].id == tempId then ms[0].(failed := true, pending := false) else ms[0]] + SendFailed(ms[1..], tempId)
  }

  /** A send that fails leaves exactly one failed, non-pending copy of its temp
      message and every earlier message unchanged. */
  lemma SendFailureMarksOnlyItsTemp(ms: seq<Message>, chat: Chat, user: User, content: string, now: nat)
    requires forall i :: 0 <= i < |ms| ==> ms[i].id != TempId(now)
    ensures var r := SendFailed(BeginSend(ms, Some(chat), Some(user), content, now), TempId(now));
      r == ms + [TempMessage(chat, user, content, now).(failed := true, pending := false)]
  {
    var b := BeginSend(ms, Some(chat), Some(user), content, now);
    var r := SendFailed(b, TempId(now));
    assert r == ms + [TempMessage(chat, user, content, now).(failed := true, pending := false)] by {
      forall i | 0 <= i < |ms| ensures r[i] == ms[i] {
        assert b[i] == ms[i];
      }
    }
  }

  /** The reply handled first: the temp becomes the confirmed row, whose id the
      echo then finds, so the echo changes nothing. */
  lemma ReplyThenEcho(ms: seq<Message>, temp: Message, confirmed: Message, echo: Message)
    requires confirmed.id == echo.id && !IsTempMatch(confirmed, echo)
    requires forall i :: 0 <= i < |ms| ==> ms[i].id != temp.id && !IsTempMatch(ms[i], echo)
    ensures MergeIncoming(SendSucceeded(ms + [temp], temp.id, confirmed), echo) == ms + [confirmed]
  {
    var begun := ms + [temp];
    var replied := SendSucceeded(begun, temp.id, confirmed);
    assert replied == ms + [confirmed] by {
      forall i | 0 <= i < |ms| ensures replied[i] == ms[i] {
        assert begun[i] == ms[i];
      }
    }
    MergeKnownIdUnchanged(replied, echo, |ms|);
  }

  /** The echo handled first: it replaces the matching temp, and the reply then
      finds no message with the temp id. */
  lemma EchoThenReply(ms: seq<Message>, temp: Message, confirmed: Message, echo: Message)
    requires IsTempMatch(temp, echo) && Confirmed(temp, echo) == confirmed && confirmed.id != temp.id
    requires forall i :: 0 <= i < |ms| ==> ms[i].id != temp.id && !IsTempMatch(ms[i], echo)
    ensures SendSucceeded(MergeIncoming(ms + [temp], echo), temp.id, confirmed) == ms + [confirmed]
  {
    var begun := ms + [temp];
    var merged := MergeIncoming(begun, echo);
    assert merged == ms + [confirmed] by {
      MergeReplacesTemps(begun, echo, |ms|);
      forall i | 0 <= i < |ms| ensures merged[i] == ms[i] {
        assert begun[i] == ms[i];
      }
    }
    var settled := SendSucceeded(merged, temp.id, confirmed);
    assert settled == merged by {
      forall i | 0 <= i < |merged| ensures settled[i] == merged[i] {
        if i < |ms| { assert merged[i] == ms[i]; }
      }
    }
  }

  /** The server answers with its row while the room also echoes it to the
      sender. Whichever of the reply and the echo is handled first, the open
      chat's list ends the same: the earlier messages and then the row with the
      user as sender. */
  lemma OptimisticSendConverges(ms: seq<Message>, chat: Chat, user: User, content: string, now: nat,
                                row: Message, users: Directory)
    requires row.chat_id == chat.id && row.sender_id == user.id && row.content == content && !IsTemp(row)
    requires forall i :: 0 <= i < |ms| ==>
      ms[i].id != TempId(now) && ms[i].id != row.id && !IsTempMatch(ms[i], row)
    ensures var s := Session(Some(user), Some(chat), users);
      var begun := BeginSend(ms, Some(chat), Some(user), content, now);
      var confirmed := row.(sender := Some(user));
      var replyFirst := HandleNewMessage(s, ChatLists(SendSucceeded(begun, TempId(now), confirmed), map[], []), row);
      var echoFirst := SendSucceeded(HandleNewMessage(s, ChatLists(begun, map[], []), row).messages, TempId(now), confirmed);
      replyFirst.messages == echoFirst == ms + [confirmed]
  {
    var temp := TempMessage(chat, user, content, now);
    var echo := WithSender(row, users);
    var confirmed := row.(sender := Some(user));
    assert Confirmed(temp, echo) == confirmed;
    ReplyThenEcho(ms, temp, confirmed, echo);
    EchoThenReply(ms, temp, confirmed, echo);
  }

  // ---------------------------------------------------------------------------
  // The `chatUsers` directory

  /** Members recorded in order, a later member overwriting an earlier one with
      the same key. */
  function WithMembers(users: Directory, ms: seq<User>): (r: Directory)
    ensures r.Keys == users.Keys + set i | 0 <= i < |ms| :: ToString(ms[i].id)
  {
    if ms == [] then users else WithMembers(users, ms[..|ms| - 1])[ToString(ms[|ms| - 1].id) := ms[|ms| - 1]]
  }

  /** The directory `fetchChats` builds: every chat's members in turn. */
  function ChatUsersOf(chats: seq<Chat>): (r: Directory)
    ensures r.Keys == set c, u | c in chats && u in MembersOf(c) :: ToString(u.id)
  {
    if chats == [] then map[] else WithMembers(ChatUsersOf(chats[..|chats| - 1]), MembersOf(chats[|chats| - 1]))
  }

  /** Each key of the directory is the key of the user stored under it. */
  ghost predicate KeysMatch(users: Directory)
  {
    forall k :: k in users ==> ToString(users[k].id) == k
  }

  lemma {:induction false} WithMembersKeysMatch(users: Directory, ms: seq<User>)
    requires KeysMatch(users)
    ensures KeysMatch(WithMembers(users, ms))
    decreases |ms|
  {
    if ms != [] {
      WithMembersKeysMatch(users, ms[..|ms| - 1]);
    }
  }

  /** The directory holds a key exactly for every member of every chat, and
      the user stored under a key has that key. */
  lemma {:induction false} ChatUsersOfExact(chats: seq<Chat>)
    ensures KeysMatch(ChatUsersOf(chats))
    ensures forall c, u :: c in chats && u in MembersOf(c) ==> ToString(u.id) in ChatUsersOf(chats)
    ensures forall k :: k in ChatUsersOf(chats) ==>
      exists c, u :: c in chats && u in MembersOf(c) && ToString(u.id) == k
    decreases |chats|
  {
    if chats != [] {
      var init := chats[..|chats| - 1];
      var last := chats[|chats| - 1];
      ChatUsersOfExact(init);
      WithMembersKeysMatch(ChatUsersOf(init), MembersOf(last));
      assert chats == init + [last];
      forall c, u | c in chats && u in MembersOf(c) ensures ToString(u.id) in ChatUsersOf(chats) {
        if c != last {
          assert c in init;
        } else {
          var i :| 0 <= i < |MembersOf(last)| && MembersOf(last)[i] == u;
        }
      }
      forall k | k in ChatUsersOf(chats) ensures exists c, u :: c in chats && u in MembersOf(c) && ToString(u.id) == k {
        if k in ChatUsersOf(init) {
          var c, u :| c in init && u in MembersOf(c) && ToString(u.id) == k;
          assert c in chats;
        } else {
          var i :| 0 <= i < |MembersOf(last)| && ToString(MembersOf(last)[i].id) == k;
          assert MembersOf(last)[i] in MembersOf(last);
        }
      }
    }
  }

  /** `fetchChats` building `chatUsers` with nested loops. */
  method BuildChatUsers(chats: seq<Chat>) returns (users: Directory)
    ensures users == ChatUsersOf(chats)
  {
    users := map[];
    var i := 0;
    while i < |chats|
      invariant 0 <= i <= |chats|
      invariant users == ChatUsersOf(chats[..i])
    {
      var members := MembersOf(chats[i]);
      var before := users;
      var j := 0;
      while j < |members|
        invariant 0 <= j <= |members|
        invariant users == WithMembers(before, members[..j])
      {
        users := users[ToString(members[j].id) := members[j]];
        assert members[..j + 1][..j] == members[..j];
        j := j + 1;
      }
      assert members[..j] == members;
      assert chats[..i + 1][..i] == chats[..i];
      i := i + 1;
    }
    assert chats[..i] == chats;
  }

  /** `newChatAdded`, `createPrivateChat` and `createGroupChat` record the new
      chat's members when it has a member list. */
  function AddChatUsers(users: Directory, chat: Chat): (r: Directory)
    ensures forall u :: u in MembersOf(chat) ==> ToString(u.id) in r
    ensures forall k :: k in users && !(exists u :: u in MembersOf(chat) && ToString(u.id) == k) ==> k in r && r[k] == users[k]
  {
    if HasMemberList(chat) then WithMembersUntouched(users, MembersOf(chat)); WithMembers(users, MembersOf(chat))
    else users
  }

  /** Recording members gives each of them a key and leaves the other keys alone. */
  lemma {:induction false} WithMembersUntouched(users: Directory, ms: seq<User>)
    ensures forall u :: u in ms ==> ToString(u.id) in WithMembers(users, ms)
    ensures forall k :: k in users && !(exists u :: u in ms && ToString(u.id) == k) ==> WithMembers(users, ms)[k] == users[k]
    decreases |ms|
  {
    if ms != [] {
      var init := ms[..|ms| - 1];
      WithMembersUntouched(users, init);
      assert ms == init + [ms[|ms| - 1]];
      forall u | u in ms ensures ToString(u.id) in WithMembers(users, ms) {
        var i :| 0 <= i < |ms| && ms[i] == u;
      }
      forall k | k in users && !(exists u :: u in ms && ToString(u.id) == k)
        ensures WithMembers(users, ms)[k] == users[k]
      {
        assert forall u :: u in init ==> u in ms;
      }
    }
  }
}

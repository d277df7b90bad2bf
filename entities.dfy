/** The records the chat application passes between server and client. */
module Entities {
  import opened JsBase

  datatype User = User(id: Id, username: string, profile_pic: Option<string>)

  /** A message row as the server returns it (`RETURNING *`), with the fields the
      client adds: the `sender` object and the optimistic-send flags `pending`
      and `failed` (absent, i.e. false, on server rows). */
  datatype Message = Message(
    id: Id,
    chat_id: Id,
    sender_id: Id,
    content: string,
    created_at: int,   // milliseconds since the epoch
    is_read: bool,
    sender: Option<User>,
    pending: bool,
    failed: bool)

  /** A chat as the chat endpoints return it; the member list arrives under
      `members` or under `participants`. */
  datatype Chat = Chat(
    id: Id,
    is_group: bool,
    members: Option<seq<User>>,
    participants: Option<seq<User>>,
    last_message: Option<Message>)

  /** `chat.members || chat.participants || []`: an array, even an empty one,
      is truthy, so `members` wins whenever it is present. */
  function MembersOf(c: Chat): seq<User>
  {
    if c.members.Some? then c.members.value
    else if c.participants.Some? then c.participants.value
    else []
  }

  /** `chat.members || chat.participants` as a condition. */
  predicate HasMemberList(c: Chat)
  {
    c.members.Some? || c.participants.Some?
  }

  /** `users.map((u) => u.id)` */
  function MemberIds(ms: seq<User>): (r: seq<Id>)
    ensures |r| == |ms| && forall i :: 0 <= i < |ms| ==> r[i] == ms[i].id
  {
    if ms == [] then [] else [ms[0].id] + MemberIds(ms[1..])
  }

  /** `users.filter((u) => !ids.has(u.id))`: the users whose id is not in `ids`,
      in their original order. */
  function WithoutIds(us: seq<User>, ids: set<Id>): (r: seq<User>)
    ensures |r| <= |us|
    ensures forall u :: u in r <==> u in us && u.id !in ids
  {
    if us == [] then []
    else if us[0].id in ids then WithoutIds(us[1..], ids)
    else [us[0]] + WithoutIds(us[1..], ids)
  }

  /** Filtering keeps the order of the users it keeps. */
  lemma {:induction false} WithoutIdsKeepsOrder(us: seq<User>, ids: set<Id>)
    ensures IsSubsequence(WithoutIds(us, ids), us)
    decreases |us|
  {
    if us != [] {
      WithoutIdsKeepsOrder(us[1..], ids);
      if us[0].id in ids {
        SubsequenceSkip(WithoutIds(us[1..], ids), us[0], us[1..]);
      }
      assert [us[0]] + us[1..] == us;
    }
  }

  /** The ids of a list of users. */
  function IdSet(us: seq<User>): (r: set<Id>)
    ensures forall id :: id in r <==> exists u :: u in us && u.id == id
  {
    set u | u in us :: u.id
  }
}

/** The "new chat" dialog: a debounced user search whose results leave out the
    signed-in user and everyone who already shares a private chat with them,
    and the handler that starts a private chat. */
module NewPrivateChat {
  import opened JsBase
  import opened Entities

  const SearchFailed := "Failed to search users. Please try again."
  const StartFailed := "Failed to start conversation. Please try again."

  /** The ids of the members of the private (non-group) chats, taken from
      `members` or else `participants`. */
  function PrivateMemberIds(chats: seq<Chat>): (r: set<Id>)
    ensures forall i :: 0 <= i < |chats| && !chats[i].is_group ==> IdSet(MembersOf(chats[i])) <= r
    decreases |chats|
  {
    if chats == [] then {}
    else
      var c := chats[|chats| - 1];
      PrivateMemberIds(chats[..|chats| - 1]) + (if c.is_group then {} else IdSet(MembersOf(c)))
  }

  /** The `existingUserIds` set: the signed-in user and every member of every
      private chat. */
  function ExcludedIds(me: User, chats: seq<Chat>): (r: set<Id>)
    ensures me.id in r
    ensures forall i :: 0 <= i < |chats| && !chats[i].is_group ==> IdSet(MembersOf(chats[i])) <= r
  {
    {me.id} + PrivateMemberIds(chats)
  }

  lemma {:induction false} PrivateMemberIdsExact(chats: seq<Chat>, id: Id)
    ensures id in PrivateMemberIds(chats) <==>
      exists c, m :: c in chats && !c.is_group && m in MembersOf(c) && m.id == id
    decreases |chats|
  {
    if chats != [] {
      var init, c := chats[..|chats| - 1], chats[|chats| - 1];
      PrivateMemberIdsExact(init, id);
      assert chats == init + [c];
      if id in PrivateMemberIds(chats) && id !in PrivateMemberIds(init) {
        var m :| m in MembersOf(c) && m.id == id;
        assert c in chats;
      }
      if exists c', m :: c' in chats && !c'.is_group && m in MembersOf(c') && m.id == id {
        var c', m :| c' in chats && !c'.is_group && m in MembersOf(c') && m.id == id;
        if c' != c {
          assert c' in init;
        }
      }
    }
  }

  /** An id is excluded exactly when it is the signed-in user's or belongs to
      a member of one of the private chats; group chats exclude nobody. */
  lemma ExcludedIdsExact(me: User, chats: seq<Chat>, id: Id)
    ensures id in ExcludedIds(me, chats) <==>
      id == me.id || exists c, m :: c in chats && !c.is_group && m in MembersOf(c) && m.id == id
  {
    PrivateMemberIdsExact(chats, id);
  }

  /** The results shown for a server response. */
  function PrivateResults(data: seq<User>, me: User, chats: seq<Chat>): (r: seq<User>)
    ensures forall u :: u in r <==> u in data && u.id !in ExcludedIds(me, chats)
  {
    WithoutIds(data, ExcludedIds(me, chats))
  }

  /** Results are exactly the server's users that are neither the signed-in
      user nor in a private chat with them, in server order; someone who only
      shares group chats is still offered. */
  lemma PrivateResultsExact(data: seq<User>, me: User, chats: seq<Chat>, u: User)
    ensures IsSubsequence(PrivateResults(data, me, chats), data)
    ensures u in PrivateResults(data, me, chats) <==>
      u in data && u.id != me.id && !exists c, m :: c in chats && !c.is_group && m in MembersOf(c) && m.id == u.id
  {
    WithoutIdsKeepsOrder(data, ExcludedIds(me, chats));
    ExcludedIdsExact(me, chats, u.id);
  }

  /** The nested `forEach` that builds `existingUserIds`. */
  method ExistingUserIds(me: User, chats: seq<Chat>) returns (ids: set<Id>)
    ensures ids == ExcludedIds(me, chats)
  {
    ids := {me.id};
    var i := 0;
    while i < |chats|
      invariant 0 <= i <= |chats|
      invariant ids == {me.id} + PrivateMemberIds(chats[..i])
    {
      var chat := chats[i];
      assert chats[..i + 1][..i] == chats[..i];
      if !chat.is_group {
        var members := MembersOf(chat);
        var j := 0;
        while j < |members|
          invariant 0 <= j <= |members|
          invariant ids == {me.id} + PrivateMemberIds(chats[..i]) + IdSet(members[..j])
        {
          assert members[..j + 1] == members[..j] + [members[j]];
          if members[j].id != me.id {
            ids := ids + {members[j].id};
          }
          j := j + 1;
        }
        assert members[..j] == members;
      }
      i := i + 1;
    }
    assert chats[..i] == chats;
  }

  /** An armed search timer and the values its callback closed over. */
  datatype SearchTimer = SearchTimer(term: string, chats: seq<Chat>)

  class PrivateChatDialog {
    /** Whether a short term clears the results when the timer fires; the
        dialog as written leaves them as they are. */
    const clearsShortTerm: bool
    const me: Option<User>
    var isOpen: bool
    var chats: seq<Chat>
    var searchTerm: string
    var searchResults: seq<User>
    var isLoading: bool
    var error: Option<string>
    var pending: Option<SearchTimer>
    /** Every search query sent to the server. */
    var queries: seq<string>
    /** Every `createPrivateChat(otherUserId)` call. */
    var starts: seq<Id>

    constructor(me: Option<User>, chats: seq<Chat>, isOpen: bool, clearsShortTerm: bool)
      ensures this.me == me && this.chats == chats && this.isOpen == isOpen && this.clearsShortTerm == clearsShortTerm
      ensures searchTerm == "" && searchResults == [] && !isLoading && error.None?
      ensures pending == Some(SearchTimer("", chats)) && queries == [] && starts == []
    {
      this.me := me;
      this.chats := chats;
      this.isOpen := isOpen;
      this.clearsShortTerm := clearsShortTerm;
      searchTerm := "";
      searchResults := [];
      isLoading := false;
      error := None;
      pending := Some(SearchTimer("", chats));
      queries := [];
      starts := [];
    }

    /** Opening resets the term, the results and the error. */
    method SetOpen(o: bool)
      modifies this
      ensures isOpen == o && unchanged(this`chats, this`isLoading, this`queries, this`starts)
      ensures o && !old(isOpen) ==>
        && searchTerm == "" && searchResults == [] && error.None?
        && pending == if old(searchTerm) == "" then old(pending) else Some(SearchTimer("", chats))
      ensures !(o && !old(isOpen)) ==> unchanged(this`searchTerm, this`searchResults, this`error, this`pending)
    {
      if o != isOpen {
        isOpen := o;
        if o {
          if searchTerm != "" {
            pending := Some(SearchTimer("", chats));
          }
          searchTerm := "";
          searchResults := [];
          error := None;
        }
      }
    }

    /** A keystroke in the search field re-arms the debounce timer. */
    method SetSearchTerm(term: string)
      modifies this`searchTerm, this`pending
      ensures searchTerm == term
      ensures pending == if term == old(searchTerm) then old(pending) else Some(SearchTimer(term, chats))
    {
      if term != searchTerm {
        searchTerm := term;
        pending := Some(SearchTimer(term, chats));
      }
    }

    /** A new chat list from the context re-arms the debounce timer too. */
    method SetChats(cs: seq<Chat>)
      modifies this`chats, this`pending
      ensures chats == cs
      ensures pending == if cs == old(chats) then old(pending) else Some(SearchTimer(searchTerm, cs))
    {
      if cs != chats {
        chats := cs;
        pending := Some(SearchTimer(searchTerm, cs));
      }
    }

    /** The debounce timer fires. A term of at least two UTF-16 code units
        (`searchTerm.length >= 2`) sends the query; `response` is the
        server's answer, `None` for a failed request. Without a signed-in user the filter throws and counts as a failure. */
    method FireSearch(response: Option<seq<User>>)
      requires pending.Some?
      modifies this`pending, this`queries, this`searchResults, this`error, this`isLoading
      ensures pending.None?
      ensures var t := old(pending).value;
        if Utf16Length(t.term) >= 2 then
          && queries == old(queries) + [t.term] && !isLoading
          && (response.None? || me.None? ==> searchResults == old(searchResults) && error == Some(SearchFailed))
          && (response.Some? && me.Some? ==>
                searchResults == PrivateResults(response.value, me.value, t.chats) && error.None?)
        else
          && queries == old(queries) && isLoading == old(isLoading) && error == old(error)
          && searchResults == if clearsShortTerm then [] else old(searchResults)
    {
      var t := pending.value;
      pending := None;
      if Utf16Length(t.term) >= 2 {
        isLoading := true;
        error := None;
        queries := queries + [t.term];
        if response.None? || me.None? {
          error := Some(SearchFailed);
        } else {
          var existing := ExistingUserIds(me.value, t.chats);
          searchResults := WithoutIds(response.value, existing);
        }
        isLoading := false;
      } else if clearsShortTerm {
        searchResults := [];
      }
    }

    /** `handleStartChat`; `ok` says whether `createPrivateChat` succeeds. The
        dialog closes only on success. */
    method StartChat(other: User, ok: bool)
      modifies this`isLoading, this`starts, this`isOpen, this`error
      ensures starts == old(starts) + [other.id] && !isLoading
      ensures ok ==> !isOpen && error == old(error)
      ensures !ok ==> isOpen == old(isOpen) && error == Some(StartFailed)
    {
      isLoading := true;
      starts := starts + [other.id];
      if ok {
        isOpen := false;
      } else {
        error := Some(StartFailed);
      }
      isLoading := false;
    }
  }

  function Me(): User { User(Num(1), "me", None) }
  function Carol(): User { User(Num(2), "carol", None) }
  function Dave(): User { User(Num(3), "dave", None) }

  /** Carol only shares a group with the signed-in user and is offered; Dave
      already has a private chat with them and is not. */
  method GroupMembersStillOffered() returns (shown: seq<User>)
    ensures shown == [Carol()]
  {
    var group := Chat(Num(10), true, Some([Me(), Carol()]), None, None);
    var direct := Chat(Num(11), false, None, Some([Me(), Dave()]), None);
    var dialog := new PrivateChatDialog(Some(Me()), [group, direct], true, false);
    dialog.SetSearchTerm("da");
    dialog.FireSearch(Some([Carol(), Dave()]));
    shown := dialog.searchResults;
    var ids := ExcludedIds(Me(), [group, direct]);
    assert [group, direct][..1] == [group];
    assert MembersOf(direct) == [Me(), Dave()];
    assert PrivateMemberIds([group]) == {};
    assert IdSet([Me(), Dave()]) == {Num(1), Num(3)};
    assert ids == {Num(1), Num(3)};
    assert [Carol(), Dave()][1..] == [Dave()];
    assert WithoutIds([Carol(), Dave()], ids) == [Carol()] + WithoutIds([Dave()], ids);
  }

  /** As written: after results for "ca", shortening the term to "c" leaves them
      on screen and sends no query. */
  method ShortTermKeepsResults() returns (shown: seq<User>, queries: seq<string>)
    ensures shown == [Carol()] && queries == ["ca"]
  {
    var dialog := new PrivateChatDialog(Some(Me()), [], true, false);
    dialog.SetSearchTerm("ca");
    dialog.FireSearch(Some([Carol()]));
    assert ExcludedIds(Me(), []) == {Num(1)};
    dialog.SetSearchTerm("c");
    dialog.FireSearch(Some([Carol(), Dave()]));
    shown, queries := dialog.searchResults, dialog.queries;
  }

  /** With a short term clearing the results, the same steps leave none. */
  method ShortTermClearsResults() returns (shown: seq<User>, queries: seq<string>)
    ensures shown == [] && queries == ["ca"]
  {
    var dialog := new PrivateChatDialog(Some(Me()), [], true, true);
    dialog.SetSearchTerm("ca");
    dialog.FireSearch(Some([Carol()]));
    dialog.SetSearchTerm("c");
    dialog.FireSearch(Some([Carol(), Dave()]));
    shown, queries := dialog.searchResults, dialog.queries;
  }
}

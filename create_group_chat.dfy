/** The "create group chat" dialog: the debounced user search with its result
    filter, picking and dropping members, and the validation in front of the
    create call. */
module CreateGroupChat {
  import opened JsBase
  import opened Entities

  const NameRequired := "Group name is required"
  const SelectRequired := "Please select at least one user"
  const SearchFailed := "Failed to search users. Please try again."
  const CreateFailed := "Failed to create group. Please try again."

  /** Delay of the search debounce timer, in milliseconds. */
  const SearchDelay := 500

  /** The search results shown for a response: the server's users without the
      signed-in user and without anyone already selected, in server order. */
  function SearchResultsFor(data: seq<User>, me: Option<User>, selected: seq<User>): (r: seq<User>)
    ensures forall u :: u in r <==>
      u in data && !(me.Some? && u.id == me.value.id) && forall s :: s in selected ==> s.id != u.id
  {
    WithoutIds(data, (if me.Some? then {me.value.id} else {}) + IdSet(selected))
  }

  lemma SearchResultsKeepOrder(data: seq<User>, me: Option<User>, selected: seq<User>)
    ensures IsSubsequence(SearchResultsFor(data, me, selected), data)
  {
    WithoutIdsKeepsOrder(data, (if me.Some? then {me.value.id} else {}) + IdSet(selected));
  }

  /** The validation of `handleCreateGroup`: a blank name is reported first,
      then an empty selection. */
  function CreateGroupError(name: string, selected: seq<User>): (r: Option<string>)
    ensures r == Some(NameRequired) <==> IsBlank(name)
    ensures r == Some(SelectRequired) <==> !IsBlank(name) && selected == []
    ensures r.None? <==> !IsBlank(name) && selected != []
  {
    TrimEmptyIffBlank(name);
    if Trim(name) == "" then Some(NameRequired)
    else if |selected| == 0 then Some(SelectRequired)
    else None
  }

  /** An armed search timer and the values its callback closed over. */
  datatype SearchTimer = SearchTimer(term: string, selected: seq<User>)

  /** One `createGroupChat(name, memberIds)` call. */
  datatype CreateCall = CreateCall(name: string, memberIds: seq<Id>)

  class GroupChatForm {
    /** Whether a short term clears the results when the timer fires; the
        dialog as written leaves them as they are. */
    const clearsShortTerm: bool
    const me: Option<User>
    var open: bool
    var groupName: string
    var searchTerm: string
    var searchResults: seq<User>
    var selectedUsers: seq<User>
    var isLoading: bool
    var error: Option<string>
    /** The search timer armed by the last run of the search effect, if it has
        not fired yet. */
    var pending: Option<SearchTimer>
    /** Every search query sent to the server. */
    var queries: seq<string>
    /** Every create call made. */
    var creates: seq<CreateCall>

    constructor(me: Option<User>, open: bool, clearsShortTerm: bool)
      ensures this.me == me && this.open == open && this.clearsShortTerm == clearsShortTerm
      ensures groupName == "" && searchTerm == "" && searchResults == [] && selectedUsers == []
      ensures !isLoading && error.None? && pending == Some(SearchTimer("", []))
      ensures queries == [] && creates == []
    {
      this.me := me;
      this.open := open;
      this.clearsShortTerm := clearsShortTerm;
      groupName := "";
      searchTerm := "";
      searchResults := [];
      selectedUsers := [];
      isLoading := false;
      error := None;
      pending := Some(SearchTimer("", []));
      queries := [];
      creates := [];
    }

    /** The `open` prop changes. Opening resets the form; the fresh empty
        selection re-runs the search effect. */
    method SetOpen(o: bool)
      modifies this
      ensures open == o && unchanged(this`isLoading, this`queries, this`creates)
      ensures o && !old(open) ==>
        && groupName == "" && searchTerm == "" && searchResults == [] && selectedUsers == []
        && error.None? && pending == Some(SearchTimer("", []))
      ensures !(o && !old(open)) ==>
        unchanged(this`groupName, this`searchTerm, this`searchResults, this`selectedUsers, this`error, this`pending)
    {
      if o != open {
        open := o;
        if o {
          groupName := "";
          searchTerm := "";
          searchResults := [];
          selectedUsers := [];
          error := None;
          pending := Some(SearchTimer("", []));
        }
      }
    }

    method SetGroupName(name: string)
      modifies this`groupName
      ensures groupName == name
    {
      groupName := name;
    }

    /** A keystroke in the search field re-runs the search effect: the cleanup
        cancels the armed timer and a new one is armed. */
    method SetSearchTerm(term: string)
      modifies this`searchTerm, this`pending
      ensures searchTerm == term
      ensures pending == if term == old(searchTerm) then old(pending) else Some(SearchTimer(term, selectedUsers))
    {
      if term != searchTerm {
        searchTerm := term;
        pending := Some(SearchTimer(term, selectedUsers));
      }
    }

    /** The debounce timer fires. A term of at least two UTF-16 code units
        (`searchTerm.length >= 2`) sends the query; `response` is what the
        server answers, `None` for a failed request. A shorter term sends
        nothing. */
    method FireSearch(response: Option<seq<User>>)
      requires pending.Some?
      modifies this`pending, this`queries, this`searchResults, this`error, this`isLoading
      ensures pending.None?
      ensures var t := old(pending).value;
        if Utf16Length(t.term) >= 2 then
          && queries == old(queries) + [t.term] && !isLoading
          && (response.None? ==> searchResults == old(searchResults) && error == Some(SearchFailed))
          && (response.Some? ==> searchResults == SearchResultsFor(response.value, me, t.selected) && error.None?)
        else
          && queries == old(queries) && isLoading == old(isLoading) && error == old(error)
          && searchResults == if clearsShortTerm then [] else old(searchResults)
    {
      var t := pending.value;
      pending := None;
      if Utf16Length(t.term) >= 2 {
        isLoading := true;
        error := None;
        queries := queries + [t.term];
        if response.None? {
          error := Some(SearchFailed);
        } else {
          searchResults := SearchResultsFor(response.value, me, t.selected);
        }
        isLoading := false;
      } else if clearsShortTerm {
        searchResults := [];
      }
    }

    /** `handleSelectUser`: the user joins the selection and leaves the
        results, and the search term is cleared. */
    method SelectUser(u: User)
      modifies this`selectedUsers, this`searchResults, this`searchTerm, this`pending
      ensures selectedUsers == old(selectedUsers) + [u]
      ensures searchResults == WithoutIds(old(searchResults), {u.id})
      ensures searchTerm == "" && pending == Some(SearchTimer("", selectedUsers))
    {
      selectedUsers := selectedUsers + [u];
      searchResults := WithoutIds(searchResults, {u.id});
      searchTerm := "";
      pending := Some(SearchTimer("", selectedUsers));
    }

    /** `handleRemoveUser`: every selected entry with that id goes, the rest
        keep their order. */
    method RemoveUser(id: Id)
      modifies this`selectedUsers, this`pending
      ensures selectedUsers == WithoutIds(old(selectedUsers), {id})
      ensures pending == Some(SearchTimer(searchTerm, selectedUsers))
    {
      selectedUsers := WithoutIds(selectedUsers, {id});
      pending := Some(SearchTimer(searchTerm, selectedUsers));
    }

    /** `handleCreateGroup`; `ok` says whether `createGroupChat` succeeds.
        Returns the call made, if any. */
    method CreateGroup(ok: bool) returns (call: Option<CreateCall>)
      modifies this`error, this`isLoading, this`creates, this`open
      ensures CreateGroupError(groupName, selectedUsers).Some? ==>
        && call.None? && error == CreateGroupError(groupName, selectedUsers)
        && unchanged(this`isLoading, this`creates, this`open)
      ensures CreateGroupError(groupName, selectedUsers).None? ==>
        && call == Some(CreateCall(groupName, MemberIds(selectedUsers)))
        && creates == old(creates) + [call.value] && !isLoading
        && (ok ==> error.None? && !open)
        && (!ok ==> error == Some(CreateFailed) && open == old(open))
    {
      var problem := CreateGroupError(groupName, selectedUsers);
      if problem.Some? {
        error := problem;
        return None;
      }
      isLoading := true;
      error := None;
      call := Some(CreateCall(groupName, MemberIds(selectedUsers)));
      creates := creates + [call.value];
      if ok {
        open := false;
      } else {
        error := Some(CreateFailed);
      }
      isLoading := false;
    }
  }

  function Alice(): User { User(Num(2), "alice", None) }
  function Bob(): User { User(Num(3), "bob", None) }

  /** As written: after results for "al", shortening the term to "a" leaves the
      old results on screen and sends no query. */
  method ShortTermKeepsResults() returns (shown: seq<User>, queries: seq<string>)
    ensures shown == [Alice()] && queries == ["al"]
  {
    var form := new GroupChatForm(Some(User(Num(1), "me", None)), true, false);
    form.SetSearchTerm("al");
    form.FireSearch(Some([Alice()]));
    form.SetSearchTerm("a");
    form.FireSearch(Some([Alice(), Bob()]));
    shown, queries := form.searchResults, form.queries;
  }

  /** With a short term clearing the results, the same steps leave none. */
  method ShortTermClearsResults() returns (shown: seq<User>, queries: seq<string>)
    ensures shown == [] && queries == ["al"]
  {
    var form := new GroupChatForm(Some(User(Num(1), "me", None)), true, true);
    form.SetSearchTerm("al");
    form.FireSearch(Some([Alice()]));
    form.SetSearchTerm("a");
    form.FireSearch(Some([Alice(), Bob()]));
    shown, queries := form.searchResults, form.queries;
  }

  /** Once selected, a user no longer shows in later results, and the
      signed-in user never does. */
  method SelectedUserHidden() returns (shown: seq<User>)
    ensures shown == []
  {
    var me := User(Num(1), "me", None);
    var form := new GroupChatForm(Some(me), true, false);
    form.SelectUser(Bob());
    assert form.selectedUsers == [Bob()];
    form.SetSearchTerm("bob");
    form.FireSearch(Some([Bob(), me]));
    shown := form.searchResults;
    var ids := {me.id} + IdSet([Bob()]);
    assert Bob().id in ids && me.id in ids;
    assert [Bob(), me][1..] == [me];
    assert WithoutIds([Bob(), me], ids) == WithoutIds([me], ids) == [];
  }

  /** A single emoji is two UTF-16 code units, so it is long enough to be
      queried. */
  method EmojiTermIsQueried() returns (queries: seq<string>)
    ensures queries == ["\U{1F600}"]
  {
    var form := new GroupChatForm(None, true, false);
    form.SetSearchTerm("\U{1F600}");
    EmojiLength();
    form.FireSearch(Some([]));
    queries := form.queries;
  }

  lemma PaddedNameNotBlank()
    ensures !IsBlank(" team ")
  {
    assert !IsSpace(" team "[1]);
  }

  /** The create call gets the untrimmed name and the ids in selection order. */
  method CreateKeepsName() returns (call: Option<CreateCall>)
    ensures call == Some(CreateCall(" team ", [Num(3), Num(2)]))
  {
    var form := new GroupChatForm(None, true, false);
    form.SelectUser(Bob());
    form.SelectUser(Alice());
    assert form.selectedUsers == [Bob(), Alice()];
    form.SetGroupName(" team ");
    PaddedNameNotBlank();
    call := form.CreateGroup(true);
    assert MemberIds([Bob(), Alice()]) == [Num(3), Num(2)];
  }
}

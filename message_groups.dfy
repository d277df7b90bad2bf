/** How the message list groups consecutive messages: a message joins the
    previous message's group when it has the same sender and arrives at most
    five minutes after it; otherwise it opens a new group. */
module MessageGroups {
  import opened JsBase
  import opened Entities

  /** Five minutes in milliseconds. */
  const MaxGap := 5 * 60 * 1000

  /** `m` continues the group of `prev`. */
  predicate Linked(prev: Message, m: Message)
  {
    prev.sender_id == m.sender_id && m.created_at - prev.created_at <= MaxGap
  }

  function Flatten(gs: seq<seq<Message>>): seq<Message>
  {
    if gs == [] then [] else Flatten(gs[..|gs| - 1]) + gs[|gs| - 1]
  }

  /** The messages of one group: non-empty, each linked to the one before. */
  ghost predicate Chained(g: seq<Message>)
  {
    g != [] && forall j :: 0 < j < |g| ==> Linked(g[j - 1], g[j])
  }

  /** Group `b` follows group `a` because its first message is not linked to
      the last message of `a`. */
  ghost predicate Separated(a: seq<Message>, b: seq<Message>)
  {
    a != [] && b != [] && !Linked(a[|a| - 1], b[0])
  }

  /** Every group is chained and each group is separated from the one before. */
  ghost predicate WellGrouped(gs: seq<seq<Message>>)
    decreases |gs|
  {
    gs == [] ||
      (var init, last := gs[..|gs| - 1], gs[|gs| - 1];
       Chained(last) && (init != [] ==> Separated(init[|init| - 1], last)) && WellGrouped(init))
  }

  /** `gs` partitions `ms` into runs of linked messages. */
  ghost predicate IsGrouping(gs: seq<seq<Message>>, ms: seq<Message>)
  {
    Flatten(gs) == ms && WellGrouped(gs)
  }

  lemma FlattenLast(gs: seq<seq<Message>>)
    requires gs != [] && gs[|gs| - 1] != []
    ensures Flatten(gs) != [] && Flatten(gs)[|Flatten(gs)| - 1] == gs[|gs| - 1][|gs[|gs| - 1]| - 1]
  {
  }

  /** Every group of a well-formed grouping is chained. */
  lemma {:induction false} GroupsChained(gs: seq<seq<Message>>, k: int)
    requires WellGrouped(gs) && 0 <= k < |gs|
    ensures Chained(gs[k])
    decreases |gs|
  {
    if k < |gs| - 1 {
      GroupsChained(gs[..|gs| - 1], k);
    }
  }

  /** Consecutive groups of a well-formed grouping are separated. */
  lemma {:induction false} GroupsSeparated(gs: seq<seq<Message>>, k: int)
    requires WellGrouped(gs) && 0 < k < |gs|
    ensures Separated(gs[k - 1], gs[k])
    decreases |gs|
  {
    if k < |gs| - 1 {
      GroupsSeparated(gs[..|gs| - 1], k);
    }
  }

  /** No messages give no groups, and some messages give some groups. */
  lemma GroupsEmptyIff(gs: seq<seq<Message>>, ms: seq<Message>)
    requires IsGrouping(gs, ms)
    ensures gs == [] <==> ms == []
  {
    if gs != [] {
      assert Flatten(gs) == Flatten(gs[..|gs| - 1]) + gs[|gs| - 1];
    }
  }

  /** The `groups.push([message])` step. */
  lemma StepNewGroup(gs: seq<seq<Message>>, ms: seq<Message>, m: Message)
    requires IsGrouping(gs, ms)
    requires ms == [] || !Linked(ms[|ms| - 1], m)
    ensures IsGrouping(gs + [[m]], ms + [m])
  {
    var r := gs + [[m]];
    assert r[..|r| - 1] == gs;
    GroupsEmptyIff(gs, ms);
    if gs != [] {
      FlattenLast(gs);
    }
  }

  /** The `groups[groups.length - 1].push(message)` step. */
  lemma StepExtendGroup(gs: seq<seq<Message>>, ms: seq<Message>, m: Message)
    requires IsGrouping(gs, ms)
    requires ms != [] && Linked(ms[|ms| - 1], m)
    ensures gs != [] && IsGrouping(gs[..|gs| - 1] + [gs[|gs| - 1] + [m]], ms + [m])
  {
    GroupsEmptyIff(gs, ms);
    FlattenLast(gs);
    var n := |gs|;
    var last := gs[n - 1] + [m];
    var r := gs[..n - 1] + [last];
    assert r[..|r| - 1] == gs[..n - 1];
    assert Flatten(gs) == Flatten(gs[..n - 1]) + gs[n - 1];
    assert Chained(last) by {
      forall j | 0 < j < |last| ensures Linked(last[j - 1], last[j]) {
        if j < |gs[n - 1]| {
          assert last[j - 1] == gs[n - 1][j - 1] && last[j] == gs[n - 1][j];
        }
      }
    }
  }

  /** The `groupedMessages` reduce. */
  method GroupMessages(messages: seq<Message>) returns (groups: seq<seq<Message>>)
    ensures IsGrouping(groups, messages)
  {
    groups := [];
    var index := 0;
    while index < |messages|
      invariant 0 <= index <= |messages|
      invariant IsGrouping(groups, messages[..index])
    {
      var message := messages[index];
      assert messages[..index + 1] == messages[..index] + [message];
      if index == 0 || !Linked(messages[index - 1], message) {
        StepNewGroup(groups, messages[..index], message);
        groups := groups + [[message]];
      } else {
        StepExtendGroup(groups, messages[..index], message);
        groups := groups[..|groups| - 1] + [groups[|groups| - 1] + [message]];
      }
      index := index + 1;
    }
    assert messages[..index] == messages;
  }

  /** Every message of a group has the sender of the group's first message. */
  lemma {:induction false} GroupSharesSender(gs: seq<seq<Message>>, ms: seq<Message>, k: int, j: int)
    requires IsGrouping(gs, ms) && 0 <= k < |gs| && 0 <= j < |gs[k]|
    ensures gs[k][j].sender_id == gs[k][0].sender_id
    decreases j
  {
    if j > 0 {
      GroupSharesSender(gs, ms, k, j - 1);
      GroupsChained(gs, k);
    }
  }

  /** The last message stays in the last group exactly when it is linked to the
      message before it. */
  lemma LastLinkedIff(gs: seq<seq<Message>>, ms: seq<Message>)
    requires IsGrouping(gs, ms) && ms != []
    ensures gs != [] && gs[|gs| - 1] != []
    ensures |gs[|gs| - 1]| > 1 <==> |ms| > 1 && Linked(ms[|ms| - 2], ms[|ms| - 1])
  {
    GroupsEmptyIff(gs, ms);
    var n := |gs|;
    var l := gs[n - 1];
    var init := gs[..n - 1];
    var before := Flatten(init);
    assert ms == before + l;
    if |l| > 1 {
      assert ms[|ms| - 2] == l[|l| - 2] && ms[|ms| - 1] == l[|l| - 1];
    } else if n > 1 {
      GroupsChained(init, n - 2);
      FlattenLast(init);
      assert ms[|ms| - 2] == before[|before| - 1];
    } else {
      assert init == [];
    }
  }

  /** Removing a one-message last group leaves a grouping of the rest. */
  lemma DropLastGroup(gs: seq<seq<Message>>, ms: seq<Message>)
    requires IsGrouping(gs, ms) && gs != [] && |gs[|gs| - 1]| == 1
    ensures IsGrouping(gs[..|gs| - 1], ms[..|ms| - 1])
  {
    assert Flatten(gs) == Flatten(gs[..|gs| - 1]) + gs[|gs| - 1];
  }

  /** Removing the last message of a longer last group leaves a grouping of the
      rest. */
  lemma DropLastMessage(gs: seq<seq<Message>>, ms: seq<Message>)
    requires IsGrouping(gs, ms) && gs != [] && |gs[|gs| - 1]| > 1
    ensures var n := |gs|; IsGrouping(gs[..n - 1] + [gs[n - 1][..|gs[n - 1]| - 1]], ms[..|ms| - 1])
  {
    var n := |gs|;
    var g := gs[n - 1];
    var l := g[..|g| - 1];
    var r := gs[..n - 1] + [l];
    assert r[..|r| - 1] == gs[..n - 1];
    assert Flatten(gs) == Flatten(gs[..n - 1]) + g;
    assert g == l + [g[|g| - 1]];
    assert Chained(l) by {
      forall j | 0 < j < |l| ensures Linked(l[j - 1], l[j]) {
        assert l[j - 1] == g[j - 1] && l[j] == g[j];
      }
    }
  }

  /** The grouping of a list is unique: any two groupings of the same messages
      are equal, so the conditions above determine the reduce's result. */
  lemma {:induction false} GroupingUnique(g1: seq<seq<Message>>, g2: seq<seq<Message>>, ms: seq<Message>)
    requires IsGrouping(g1, ms) && IsGrouping(g2, ms)
    ensures g1 == g2
    decreases |ms|
  {
    GroupsEmptyIff(g1, ms);
    GroupsEmptyIff(g2, ms);
    if ms != [] {
      LastLinkedIff(g1, ms);
      LastLinkedIff(g2, ms);
      var n1, n2 := |g1|, |g2|;
      var l1, l2 := g1[n1 - 1], g2[n2 - 1];
      var rest := ms[..|ms| - 1];
      FlattenLast(g1);
      FlattenLast(g2);
      if |l1| == 1 {
        DropLastGroup(g1, ms);
        DropLastGroup(g2, ms);
        GroupingUnique(g1[..n1 - 1], g2[..n2 - 1], rest);
        Rebuild(g1);
        Rebuild(g2);
      } else {
        DropLastMessage(g1, ms);
        DropLastMessage(g2, ms);
        var s1, s2 := g1[..n1 - 1] + [l1[..|l1| - 1]], g2[..n2 - 1] + [l2[..|l2| - 1]];
        GroupingUnique(s1, s2, rest);
        assert s1[..n1 - 1] == g1[..n1 - 1] && s2[..n2 - 1] == g2[..n2 - 1];
        Rebuild(g1);
        Rebuild(g2);
      }
    }
  }

  lemma Rebuild(gs: seq<seq<Message>>)
    requires gs != [] && gs[|gs| - 1] != []
    ensures var n := |gs|; var l := gs[n - 1];
      gs == gs[..n - 1] + [l[..|l| - 1] + [l[|l| - 1]]]
  {
    var n := |gs|;
    var l := gs[n - 1];
    assert l == l[..|l| - 1] + [l[|l| - 1]];
  }

  /** Gaps are measured between neighbours, not from the group's start: three
      messages four minutes apart form one group spanning eight minutes, while
      a gap of one millisecond more than five minutes splits. */
  method GroupSpanExamples() returns (longRun: seq<seq<Message>>, split: seq<seq<Message>>)
    ensures |longRun| == 1 && |longRun[0]| == 3
    ensures |split| == 2
  {
    var a := Message(Num(1), Num(9), Num(4), "a", 0, false, None, false, false);
    var b := a.(id := Num(2), created_at := 240000);
    var c := a.(id := Num(3), created_at := 480000);
    longRun := GroupMessages([a, b, c]);
    assert IsGrouping([[a, b, c]], [a, b, c]) by {
      assert Flatten([[a, b, c]]) == [a, b, c];
    }
    GroupingUnique(longRun, [[a, b, c]], [a, b, c]);
    var d := a.(id := Num(5), created_at := MaxGap + 1);
    split := GroupMessages([a, d]);
    assert IsGrouping([[a], [d]], [a, d]) by {
      assert Flatten([[a], [d]]) == [a, d] by {
        assert [[a], [d]][..1] == [[a]];
      }
    }
    GroupingUnique(split, [[a], [d]], [a, d]);
  }
}

/** The message composer: the text field's state, the typing indicator it
    drives through a 2000 ms stop timer, and the submit handler.

    React's effect rule is modelled step by step: whenever `message` (or the
    context's `setTypingStatus`) changes, the previous run's cleanup runs first
    and then the effect body. The timer is an explicit event, `FireTimer`.

    The transitions are stated as functions on `Snapshot`, the component's
    whole state, and the `Composer` class performs them on its fields. Each
    transition takes `cleanupOnRerun`: `true` is the component as written,
    `false` the variant whose cleanup runs only on unmount. */
module MessageInput {
  import opened JsBase
  import opened Entities

  /** What `setTypingStatus` closes over: the current chat, whether the socket
      exists and is connected, and the signed-in user. */
  datatype Context = Context(currentChat: Option<Chat>, connected: bool, user: Option<User>)

  /** The `typing` event the client emits. */
  datatype TypingEvent = TypingEvent(chatId: Id, userId: Id, isTyping: bool)

  /** A scheduled stop timer and the context its callback closed over. */
  datatype Timer = Timer(id: nat, ctx: Context)

  /** Delay of the stop timer, in milliseconds. */
  const StopDelay := 2000

  /** The socket emits of one `setTypingStatus` call: none unless there is a
      current chat, a connected socket and a user. */
  function TypingEmits(c: Context, isTyping: bool): (r: seq<TypingEvent>)
    ensures |r| <= 1
    ensures r != [] <==> c.currentChat.Some? && c.connected && c.user.Some?
    ensures forall e :: e in r ==> e.chatId == c.currentChat.value.id && e.userId == c.user.value.id && e.isTyping == isTyping
  {
    if c.currentChat.None? || !c.connected || c.user.None? then []
    else [TypingEvent(c.currentChat.value.id, c.user.value.id, isTyping)]
  }

  /** `clearTimeout(id)`: cancels the scheduled timer if it is that one. */
  function Cleared(scheduled: Option<Timer>, id: nat): (r: Option<Timer>)
    ensures r.None? <==> scheduled.None? || scheduled.value.id == id
    ensures r.Some? ==> r == scheduled
  {
    if scheduled.Some? && scheduled.value.id == id then None else scheduled
  }

  /** The component's state. `timerRef` is `typingTimeoutRef.current`, a timer
      id that may belong to a cancelled timer; `scheduled` is the stop timer
      still due to fire; `announced` lists every `setTypingStatus` call and
      `sent` every `typing` event the socket carried; `draft` is the text an
      in-flight submit closed over. */
  datatype Snapshot = Snapshot(
    ctx: Context, message: string, isSending: bool, draft: string,
    timerRef: Option<nat>, scheduled: Option<Timer>, nextTimer: nat,
    announced: seq<bool>, sent: seq<TypingEvent>, mounted: bool)

  function Initial(ctx: Context): Snapshot
  {
    Snapshot(ctx, "", false, "", None, None, 0, [], [], true)
  }

  /** The last announced typing status was `true`. */
  predicate Typing(s: Snapshot)
  {
    s.announced != [] && s.announced[|s.announced| - 1]
  }

  /** A scheduled timer is always the one the ref holds. Without the cleanup on
      re-runs, the ref is never stale and a stop is always scheduled while
      typing is announced. */
  ghost predicate Inv(s: Snapshot, cleanupOnRerun: bool)
  {
    && (s.scheduled.Some? ==> s.timerRef == Some(s.scheduled.value.id))
    && (s.scheduled.Some? ==> s.scheduled.value.id < s.nextTimer)
    && (s.mounted && !cleanupOnRerun ==> (s.timerRef.Some? ==> s.scheduled.Some?) && (Typing(s) ==> s.scheduled.Some?))
  }

  /** One `setTypingStatus(isTyping)` call through context `c`. */
  function Announce(s: Snapshot, c: Context, isTyping: bool): (r: Snapshot)
    ensures r.announced == s.announced + [isTyping] && r.sent == s.sent + TypingEmits(c, isTyping)
    ensures r == s.(announced := r.announced, sent := r.sent)
  {
    s.(announced := s.announced + [isTyping], sent := s.sent + TypingEmits(c, isTyping))
  }

  /** The effect's cleanup: cancels the ref's timer but leaves the ref set. */
  function CleanupStep(s: Snapshot): (r: Snapshot)
    ensures r == s.(scheduled := r.scheduled)
    ensures r.scheduled.None? <==> s.scheduled.None? || s.timerRef == Some(s.scheduled.value.id)
  {
    if s.timerRef.Some? then s.(scheduled := Cleared(s.scheduled, s.timerRef.value)) else s
  }

  /** The effect body. A non-blank message with no ref announces typing and
      arms a stop timer; a blank message with the ref set cancels that timer,
      clears the ref and announces the stop; otherwise nothing happens. */
  function EffectStep(s: Snapshot): (r: Snapshot)
    ensures r.message == s.message && r.ctx == s.ctx && r.isSending == s.isSending && r.mounted == s.mounted
    ensures r.timerRef.Some? <==> Trim(s.message) != ""
    ensures |r.announced| <= |s.announced| + 1
  {
    if Trim(s.message) != "" && s.timerRef.None? then
      Announce(s, s.ctx, true).(timerRef := Some(s.nextTimer), scheduled := Some(Timer(s.nextTimer, s.ctx)), nextTimer := s.nextTimer + 1)
    else if Trim(s.message) == "" && s.timerRef.Some? then
      Announce(s.(scheduled := Cleared(s.scheduled, s.timerRef.value), timerRef := None), s.ctx, false)
    else s
  }

  /** A re-run of the effect: the previous run's cleanup, then the body. */
  function RerunStep(s: Snapshot, cleanupOnRerun: bool): (r: Snapshot)
    ensures r.message == s.message && r.ctx == s.ctx && r.isSending == s.isSending
    ensures r.timerRef.Some? <==> Trim(s.message) != ""
  {
    EffectStep(if cleanupOnRerun then CleanupStep(s) else s)
  }

  /** A keystroke. The field is disabled while a send is in flight or when
      there is no current chat, and setting the same text re-renders nothing. */
  function TypeStep(s: Snapshot, text: string, cleanupOnRerun: bool): (r: Snapshot)
    ensures s.isSending || s.ctx.currentChat.None? ==> r == s
    ensures !s.isSending && s.ctx.currentChat.Some? ==> r.message == text
    ensures r.ctx == s.ctx && r.isSending == s.isSending && r.draft == s.draft
  {
    if s.isSending || s.ctx.currentChat.None? || text == s.message then s
    else RerunStep(s.(message := text), cleanupOnRerun)
  }

  /** `setTypingStatus` changes identity with the chat, the connection or the
      user, and that re-runs the effect. */
  function ChangeContextStep(s: Snapshot, c: Context, cleanupOnRerun: bool): (r: Snapshot)
    ensures r.ctx == c && r.message == s.message && r.isSending == s.isSending
  {
    if c == s.ctx then s else RerunStep(s.(ctx := c), cleanupOnRerun)
  }

  /** The stop timer's callback: the stop is announced through the context the
      callback closed over, and the ref is cleared. */
  function FireStep(s: Snapshot): (r: Snapshot)
    requires s.scheduled.Some?
    ensures r.message == s.message && r.ctx == s.ctx && r.nextTimer == s.nextTimer
    ensures r.sent == s.sent + TypingEmits(s.scheduled.value.ctx, false)
  {
    Announce(s.(scheduled := None, timerRef := None), s.scheduled.value.ctx, false)
  }

  /** Unmounting runs the last cleanup and announces nothing. */
  function UnmountStep(s: Snapshot): (r: Snapshot)
    ensures !r.mounted && r.announced == s.announced && r.sent == s.sent
    ensures r.scheduled.Some? ==> s.scheduled.Some? && r.scheduled == s.scheduled
  {
    CleanupStep(s).(mounted := false)
  }

  /** `handleSubmit` refuses a blank message, a second send and a missing chat. */
  predicate SubmitRefused(s: Snapshot)
  {
    Trim(s.message) == "" || s.isSending || s.ctx.currentChat.None?
  }

  /** `handleSubmit` up to the `await`: the send starts, the untrimmed text is
      kept for the failure path, and the field is cleared. */
  function SubmitStep(s: Snapshot, cleanupOnRerun: bool): (r: Snapshot)
    ensures r.ctx == s.ctx && r.mounted == s.mounted
    ensures !SubmitRefused(s) ==> r.timerRef.None?
  {
    if SubmitRefused(s) then s
    else RerunStep(s.(isSending := true, draft := s.message, message := ""), cleanupOnRerun)
  }

  /** The rest of `handleSubmit` once `sendMessage` settles: on failure the
      kept text is put back, and the send is over in every case. */
  function SettleStep(s: Snapshot, ok: bool, cleanupOnRerun: bool): (r: Snapshot)
    ensures !r.isSending && r.ctx == s.ctx
    ensures r.message == if ok then s.message else s.draft
  {
    (if ok || s.draft == s.message then s
     else RerunStep(s.(message := s.draft), cleanupOnRerun)).(isSending := false)
  }

  // ----- What the transitions guarantee -----

  /** Every transition keeps the invariant. */
  lemma StepsKeepInv(s: Snapshot, c: Context, text: string, ok: bool, cleanupOnRerun: bool)
    requires Inv(s, cleanupOnRerun) && s.mounted
    ensures Inv(TypeStep(s, text, cleanupOnRerun), cleanupOnRerun)
    ensures Inv(ChangeContextStep(s, c, cleanupOnRerun), cleanupOnRerun)
    ensures s.scheduled.Some? ==> Inv(FireStep(s), cleanupOnRerun)
    ensures Inv(SubmitStep(s, cleanupOnRerun), cleanupOnRerun)
    ensures Inv(SettleStep(s, ok, cleanupOnRerun), cleanupOnRerun)
    ensures Inv(UnmountStep(s), cleanupOnRerun)
  {
    TypeKeepsInv(s, text, cleanupOnRerun);
    ChangeContextKeepsInv(s, c, cleanupOnRerun);
    if s.scheduled.Some? {
      FireKeepsInv(s, cleanupOnRerun);
    }
    SubmitKeepsInv(s, cleanupOnRerun);
    SettleKeepsInv(s, ok, cleanupOnRerun);
    UnmountKeepsInv(s, cleanupOnRerun);
  }

  lemma TypeKeepsInv(s: Snapshot, text: string, cleanupOnRerun: bool)
    requires Inv(s, cleanupOnRerun) && s.mounted
    ensures Inv(TypeStep(s, text, cleanupOnRerun), cleanupOnRerun)
  {
    RerunKeepsInv(s.(message := text), cleanupOnRerun);
  }

  lemma ChangeContextKeepsInv(s: Snapshot, c: Context, cleanupOnRerun: bool)
    requires Inv(s, cleanupOnRerun) && s.mounted
    ensures Inv(ChangeContextStep(s, c, cleanupOnRerun), cleanupOnRerun)
  {
    RerunKeepsInv(s.(ctx := c), cleanupOnRerun);
  }

  lemma FireKeepsInv(s: Snapshot, cleanupOnRerun: bool)
    requires Inv(s, cleanupOnRerun) && s.mounted && s.scheduled.Some?
    ensures Inv(FireStep(s), cleanupOnRerun)
  {
  }

  lemma SubmitKeepsInv(s: Snapshot, cleanupOnRerun: bool)
    requires Inv(s, cleanupOnRerun) && s.mounted
    ensures Inv(SubmitStep(s, cleanupOnRerun), cleanupOnRerun)
  {
    RerunKeepsInv(s.(isSending := true, draft := s.message, message := ""), cleanupOnRerun);
  }

  lemma SettleKeepsInv(s: Snapshot, ok: bool, cleanupOnRerun: bool)
    requires Inv(s, cleanupOnRerun) && s.mounted
    ensures Inv(SettleStep(s, ok, cleanupOnRerun), cleanupOnRerun)
  {
    RerunKeepsInv(s.(message := s.draft), cleanupOnRerun);
  }

  lemma UnmountKeepsInv(s: Snapshot, cleanupOnRerun: bool)
    requires Inv(s, cleanupOnRerun) && s.mounted
    ensures Inv(UnmountStep(s), cleanupOnRerun)
  {
  }

  lemma RerunKeepsInv(s: Snapshot, cleanupOnRerun: bool)
    requires Inv(s, cleanupOnRerun) && s.mounted
    ensures Inv(RerunStep(s, cleanupOnRerun), cleanupOnRerun)
  {
    var t := if cleanupOnRerun then CleanupStep(s) else s;
    assert Inv(t, cleanupOnRerun);
    if Trim(t.message) == "" && t.timerRef.Some? {
      assert t.scheduled.Some? ==> t.scheduled.value.id == t.timerRef.value;
    }
  }

  /** A non-blank keystroke with no ref set announces typing once and arms a
      stop timer. */
  lemma FirstKeystrokeArms(s: Snapshot, text: string, cleanupOnRerun: bool)
    requires !s.isSending && s.ctx.currentChat.Some? && text != s.message
    requires !IsBlank(text) && s.timerRef.None?
    ensures TypeStep(s, text, cleanupOnRerun) == s.(
      message := text, timerRef := Some(s.nextTimer), scheduled := Some(Timer(s.nextTimer, s.ctx)),
      nextTimer := s.nextTimer + 1, announced := s.announced + [true], sent := s.sent + TypingEmits(s.ctx, true))
  {
    TrimEmptyIffBlank(text);
  }

  /** While the ref is set, non-blank keystrokes announce nothing and arm no
      timer; as written, the cleanup cancels the timer the ref holds. */
  lemma RefSetKeystrokeSilent(s: Snapshot, text: string, cleanupOnRerun: bool)
    requires !IsBlank(text) && s.timerRef.Some?
    ensures var r := TypeStep(s, text, cleanupOnRerun);
      r.announced == s.announced && r.sent == s.sent && r.timerRef == s.timerRef && r.nextTimer == s.nextTimer
    ensures !s.isSending && s.ctx.currentChat.Some? && text != s.message ==>
      TypeStep(s, text, cleanupOnRerun) == s.(
        message := text,
        scheduled := if cleanupOnRerun then Cleared(s.scheduled, s.timerRef.value) else s.scheduled)
  {
    TrimEmptyIffBlank(text);
  }

  /** A keystroke that blanks the field with the ref set cancels the timer,
      clears the ref and announces the stop exactly once. */
  lemma BlankingAnnouncesStop(s: Snapshot, text: string, cleanupOnRerun: bool)
    requires Inv(s, cleanupOnRerun)
    requires !s.isSending && s.ctx.currentChat.Some? && text != s.message
    requires IsBlank(text) && s.timerRef.Some?
    ensures var r := TypeStep(s, text, cleanupOnRerun);
      && r.announced == s.announced + [false] && r.sent == s.sent + TypingEmits(s.ctx, false)
      && r.timerRef.None? && r.scheduled.None?
  {
    TrimEmptyIffBlank(text);
  }

  /** The timer's expiry announces the stop and clears the ref. */
  lemma ExpiryAnnouncesStop(s: Snapshot)
    requires s.scheduled.Some?
    ensures FireStep(s).announced == s.announced + [false]
    ensures FireStep(s).timerRef.None? && FireStep(s).scheduled.None?
  {
  }

  /** As written, every effect re-run with the ref set first cancels the timer
      the ref holds: after any keystroke that leaves the ref set, no stop timer
      is scheduled. */
  lemma RerunCancelsStop(s: Snapshot, text: string)
    requires Inv(s, true)
    requires !s.isSending && s.ctx.currentChat.Some? && text != s.message
    requires !IsBlank(text) && s.timerRef.Some?
    ensures TypeStep(s, text, true).scheduled.None?
    ensures TypeStep(s, text, true).timerRef == s.timerRef
  {
    TrimEmptyIffBlank(text);
  }

  /** As written, a stale ref (set, with nothing scheduled) stays stale under
      every non-blank keystroke: typing stays announced and `false` is sent
      only once the field is blank. */
  lemma StaleRefSurvivesKeystroke(s: Snapshot, text: string)
    requires s.timerRef.Some? && s.scheduled.None? && Typing(s)
    requires !IsBlank(text)
    ensures var r := TypeStep(s, text, true);
      r.timerRef.Some? && r.scheduled.None? && r.announced == s.announced && Typing(r)
  {
    TrimEmptyIffBlank(text);
  }

  /** The same holds when the context changes under a non-blank message. */
  lemma StaleRefSurvivesContextChange(s: Snapshot, c: Context)
    requires s.timerRef.Some? && s.scheduled.None? && Typing(s)
    requires !IsBlank(s.message)
    ensures var r := ChangeContextStep(s, c, true);
      r.timerRef.Some? && r.scheduled.None? && r.announced == s.announced && Typing(r)
  {
    TrimEmptyIffBlank(s.message);
  }

  /** A context whose chat is `c1`, with a connected socket and user `u7`. */
  function ChatOpen(): Context
  {
    Context(Some(Chat(Num(1), false, None, None, None)), true, Some(User(Num(7), "u7", None)))
  }

  /** The component as written: after "h" and "hi" typing is announced, no stop
      is scheduled and the socket carried a single `true`. */
  lemma SecondKeystrokeCancelsStop()
    ensures var s := TypeStep(TypeStep(Initial(ChatOpen()), "h", true), "hi", true);
      Typing(s) && s.scheduled.None? && s.sent == [TypingEvent(Num(1), Num(7), true)]
  {
    var s0 := Initial(ChatOpen());
    assert !IsSpace("h"[0]) && !IsSpace("hi"[0]);
    FirstKeystrokeArms(s0, "h", true);
    var s1 := TypeStep(s0, "h", true);
    RefSetKeystrokeSilent(s1, "hi", true);
  }

  /** Without the cleanup on re-runs, the stop timer armed by "h" survives "hi"
      and its expiry sends `false`. */
  lemma StopFiresWithoutRerunCleanup()
    ensures var s := TypeStep(TypeStep(Initial(ChatOpen()), "h", false), "hi", false);
      && s.scheduled.Some?
      && FireStep(s).sent == [TypingEvent(Num(1), Num(7), true), TypingEvent(Num(1), Num(7), false)]
  {
    var s0 := Initial(ChatOpen());
    assert !IsSpace("h"[0]) && !IsSpace("hi"[0]);
    FirstKeystrokeArms(s0, "h", false);
    var s1 := TypeStep(s0, "h", false);
    RefSetKeystrokeSilent(s1, "hi", false);
    var s2 := s1.(message := "hi");
    assert TypeStep(s1, "hi", false) == s2;
    assert s2.scheduled == Some(Timer(0, ChatOpen()));
    OpenChatEmits();
  }

  lemma OpenChatEmits()
    ensures forall b :: TypingEmits(ChatOpen(), b) == [TypingEvent(Num(1), Num(7), b)]
  {
  }

  /** Without the cleanup on re-runs a stop is always scheduled while typing is
      announced, from the first render on. */
  lemma StopAlwaysScheduled(s: Snapshot)
    requires Inv(s, false) && s.mounted && Typing(s)
    ensures s.scheduled.Some?
  {
  }

  /** A re-run of the effect changes only the timer, the ref and the
      announcements: the text, the send flag, the draft and the context stay. */
  lemma RerunFrame(s: Snapshot, cleanupOnRerun: bool)
    ensures var r := RerunStep(s, cleanupOnRerun);
      && r.message == s.message && r.isSending == s.isSending && r.draft == s.draft
      && r.ctx == s.ctx && r.mounted == s.mounted
      && |r.announced| <= |s.announced| + 1 && r.announced[..|s.announced|] == s.announced
  {
    var t := if cleanupOnRerun then CleanupStep(s) else s;
    assert t.message == s.message && t.announced == s.announced;
  }

  /** `handleSubmit` does nothing when refused; otherwise it clears the field,
      marks the send in flight and keeps the untrimmed text. */
  lemma SubmitOutcome(s: Snapshot, cleanupOnRerun: bool)
    ensures SubmitRefused(s) ==> SubmitStep(s, cleanupOnRerun) == s
    ensures !SubmitRefused(s) ==>
      var r := SubmitStep(s, cleanupOnRerun);
      r.message == "" && r.isSending && r.draft == s.message && r.ctx == s.ctx
  {
    if !SubmitRefused(s) {
      RerunFrame(s.(isSending := true, draft := s.message, message := ""), cleanupOnRerun);
    }
  }

  /** A submit while the ref is set stops the typing indicator: the cleared
      field makes the effect cancel the timer and announce `false`. */
  lemma SubmitStopsTyping(s: Snapshot, cleanupOnRerun: bool)
    requires !SubmitRefused(s) && s.timerRef.Some? && Inv(s, cleanupOnRerun)
    ensures var r := SubmitStep(s, cleanupOnRerun);
      r.announced == s.announced + [false] && r.timerRef.None? && r.scheduled.None?
  {
    var t := s.(isSending := true, draft := s.message, message := "");
    assert Trim(t.message) == "";
  }

  /** Once `sendMessage` settles the send is over; a failure restores the
      untrimmed text, a success keeps the cleared field. */
  lemma SettleOutcome(s: Snapshot, ok: bool, cleanupOnRerun: bool)
    ensures !SettleStep(s, ok, cleanupOnRerun).isSending
    ensures SettleStep(s, ok, cleanupOnRerun).message == if ok then s.message else s.draft
  {
  }

  function Ev(b: bool): TypingEvent
  {
    TypingEvent(Num(1), Num(7), b)
  }

  /** The states of the failed-send run below, written out. */
  function TypedHi(): Snapshot
  {
    Snapshot(ChatOpen(), " hi ", false, "", Some(0), Some(Timer(0, ChatOpen())), 1, [true], [Ev(true)], true)
  }

  function SubmittedHi(): Snapshot
  {
    Snapshot(ChatOpen(), "", true, " hi ", None, None, 1, [true, false], [Ev(true), Ev(false)], true)
  }

  function RestoredHi(): Snapshot
  {
    Snapshot(ChatOpen(), " hi ", false, " hi ", Some(1), Some(Timer(1, ChatOpen())), 2,
      [true, false, true], [Ev(true), Ev(false), Ev(true)], true)
  }

  lemma TypeHi()
    ensures TypeStep(Initial(ChatOpen()), " hi ", true) == TypedHi()
  {
    assert !IsSpace(" hi "[1]);
    OpenChatEmits();
    FirstKeystrokeArms(Initial(ChatOpen()), " hi ", true);
  }

  lemma HiNotBlank()
    ensures Trim(" hi ") != "" && Trim("") == ""
  {
    NotBlankAt(" hi ", 1);
  }

  /** `TypedHi` once the submit has marked the send and cleared the field,
      before the effect re-runs. */
  function ClearedHi(): Snapshot
  {
    Snapshot(ChatOpen(), "", true, " hi ", Some(0), Some(Timer(0, ChatOpen())), 1, [true], [Ev(true)], true)
  }

  lemma SubmitHiStarts()
    ensures !SubmitRefused(TypedHi()) && SubmitStep(TypedHi(), true) == RerunStep(ClearedHi(), true)
  {
    HiNotBlank();
  }

  lemma SubmitHiStops()
    ensures EffectStep(CleanupStep(ClearedHi())) == SubmittedHi()
  {
    assert Trim("") == "";
    assert TypingEmits(ChatOpen(), false) == [Ev(false)];
    var c2 := ClearedHi().(scheduled := None);
    assert CleanupStep(ClearedHi()) == c2;
    var a := Announce(c2.(timerRef := None), ChatOpen(), false);
    assert EffectStep(c2) == a;
    assert a.announced == [true] + [false];
    assert a.sent == [Ev(true)] + [Ev(false)];
    assert a == Snapshot(ChatOpen(), "", true, " hi ", None, None, 1, a.announced, a.sent, true);
  }

  lemma SubmitHi()
    ensures !SubmitRefused(TypedHi()) && SubmitStep(TypedHi(), true) == SubmittedHi()
  {
    SubmitHiStarts();
    SubmitHiStops();
  }

  /** The effect re-run after the failed send puts " hi " back. */
  lemma RestoreHiRerun()
    ensures RerunStep(SubmittedHi().(message := " hi "), true) == RestoredHi().(isSending := true)
  {
    HiNotBlank();
    var restored := SubmittedHi().(message := " hi ");
    assert CleanupStep(restored) == restored;
    assert TypingEmits(ChatOpen(), true) == [Ev(true)];
    var a := Announce(restored, ChatOpen(), true);
    assert a.announced == [true, false] + [true];
    assert a.sent == [Ev(true), Ev(false)] + [Ev(true)];
    assert EffectStep(restored) == a.(timerRef := Some(1), scheduled := Some(Timer(1, ChatOpen())), nextTimer := 2);
  }

  lemma SettleHi()
    ensures SettleStep(SubmittedHi(), false, true) == RestoredHi()
  {
    RestoreHiRerun();
  }

  /** After " hi " a submit clears the field and stops the typing indicator;
      a failed send then puts " hi " back and re-announces typing. */
  lemma FailedSendRestoresDraft()
    ensures var s := TypeStep(Initial(ChatOpen()), " hi ", true);
      var sub := SubmitStep(s, true);
      var back := SettleStep(sub, false, true);
      && !SubmitRefused(s) && sub.message == "" && sub.isSending
      && back.message == " hi " && !back.isSending
      && back.sent == [Ev(true), Ev(false), Ev(true)]
  {
    TypeHi();
    SubmitHi();
    SettleHi();
  }

  // ----- The component -----

  class Composer {
    const cleanupOnRerun: bool
    var ctx: Context
    var message: string
    var isSending: bool
    var draft: string
    var timerRef: Option<nat>
    var scheduled: Option<Timer>
    var nextTimer: nat
    var announced: seq<bool>
    var sent: seq<TypingEvent>
    var mounted: bool

    function State(): Snapshot
      reads this
    {
      Snapshot(ctx, message, isSending, draft, timerRef, scheduled, nextTimer, announced, sent, mounted)
    }

    ghost predicate Valid()
      reads this
    {
      Inv(State(), cleanupOnRerun)
    }

    constructor(cleanupOnRerun: bool, ctx: Context)
      ensures Valid() && State() == Initial(ctx) && this.cleanupOnRerun == cleanupOnRerun
    {
      this.cleanupOnRerun := cleanupOnRerun;
      this.ctx := ctx;
      message := "";
      isSending := false;
      draft := "";
      timerRef := None;
      scheduled := None;
      nextTimer := 0;
      announced := [];
      sent := [];
      mounted := true;
    }

    /** `setTypingStatus(isTyping)` through context `c`. */
    method SetTypingStatus(c: Context, isTyping: bool)
      modifies this`announced, this`sent
      ensures State() == Announce(old(State()), c, isTyping)
    {
      announced := announced + [isTyping];
      sent := sent + TypingEmits(c, isTyping);
    }

    method Cleanup()
      modifies this`scheduled
      ensures State() == CleanupStep(old(State()))
    {
      if timerRef.Some? {
        scheduled := Cleared(scheduled, timerRef.value);
      }
    }

    method Effect()
      modifies this`timerRef, this`scheduled, this`nextTimer, this`announced, this`sent
      ensures State() == EffectStep(old(State()))
    {
      var blank := Trim(message) == "";
      if !blank && timerRef.None? {
        SetTypingStatus(ctx, true);
        timerRef := Some(nextTimer);
        scheduled := Some(Timer(nextTimer, ctx));
        nextTimer := nextTimer + 1;
      } else if blank && timerRef.Some? {
        scheduled := Cleared(scheduled, timerRef.value);
        timerRef := None;
        SetTypingStatus(ctx, false);
      }
    }

    method Rerun()
      modifies this`timerRef, this`scheduled, this`nextTimer, this`announced, this`sent
      ensures State() == RerunStep(old(State()), cleanupOnRerun)
    {
      if cleanupOnRerun {
        Cleanup();
      }
      Effect();
    }

    /** The `onChange` handler. */
    method Type(text: string)
      requires Valid() && mounted
      modifies this
      ensures Valid() && State() == TypeStep(old(State()), text, cleanupOnRerun)
    {
      if !isSending && ctx.currentChat.Some? && text != message {
        message := text;
        RerunKeepsInv(State(), cleanupOnRerun);
        Rerun();
      }
    }

    method ChangeContext(c: Context)
      requires Valid() && mounted
      modifies this
      ensures Valid() && State() == ChangeContextStep(old(State()), c, cleanupOnRerun)
    {
      if c != ctx {
        ctx := c;
        RerunKeepsInv(State(), cleanupOnRerun);
        Rerun();
      }
    }

    /** The stop timer's callback. */
    method FireTimer()
      requires Valid() && mounted && scheduled.Some?
      modifies this`timerRef, this`scheduled, this`announced, this`sent
      ensures Valid() && State() == FireStep(old(State()))
    {
      var t := scheduled.value;
      scheduled := None;
      timerRef := None;
      SetTypingStatus(t.ctx, false);
    }

    method Unmount()
      requires Valid() && mounted
      modifies this`scheduled, this`mounted
      ensures Valid() && State() == UnmountStep(old(State()))
    {
      Cleanup();
      mounted := false;
    }

    /** `handleSubmit` up to the `await`; returns the text handed to the chat's
        `sendMessage`, if any. */
    method Submit() returns (text: Option<string>)
      requires Valid() && mounted
      modifies this
      ensures Valid() && State() == SubmitStep(old(State()), cleanupOnRerun)
      ensures text == if SubmitRefused(old(State())) then None else Some(Trim(old(message)))
    {
      if Trim(message) == "" || isSending || ctx.currentChat.None? {
        return None;
      }
      text := Some(Trim(message));
      isSending := true;
      draft := message;
      message := "";
      RerunKeepsInv(State(), cleanupOnRerun);
      Rerun();
    }

    /** The rest of `handleSubmit` once `sendMessage` settles. */
    method Settle(ok: bool)
      requires Valid() && mounted && isSending
      modifies this
      ensures Valid() && State() == SettleStep(old(State()), ok, cleanupOnRerun)
    {
      if !ok && draft != message {
        message := draft;
        RerunKeepsInv(State(), cleanupOnRerun);
        Rerun();
      }
      isSending := false;
    }
  }
}

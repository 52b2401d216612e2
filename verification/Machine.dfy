/**
 The lock screen's state as a value, and what every event does to it
 (src/password.c, src/clock.c, src/seat.c, and reply_in, term_in and display_in of main.c).
 The classes of module Lock are proved to take exactly these steps.
 */
module Machine {
  import opened Options
  import opened Utf8
  import opened Editor
  import opened Deadlines

  datatype AuthState = Idle | Validating | Invalid
  datatype InputState = Pristine | Dirty

  datatype Keysym =
    | KPEnter | Return
    | Delete | BackSpace
    | Escape
    | CapsLock | ShiftL | ShiftR | ControlL | ControlR | MetaL | MetaR | AltL | AltR | SuperL | SuperR
    | LetterM | LetterD | LetterJ
    | LetterC | LetterU
    | OtherKey

  predicate IsModifier(sym: Keysym) {
    sym.CapsLock? || sym.ShiftL? || sym.ShiftR? || sym.ControlL? || sym.ControlR? || sym.MetaL? || sym.MetaR?
    || sym.AltL? || sym.AltR? || sym.SuperL? || sym.SuperR?
  }

  /** Key repeat of one seat. */
  datatype SeatView = SeatView(periodMs: int, delayMs: int, sym: Keysym, codepoint: CodePoint, repeatDue: Option<Alarm>)

  /** What is known of the keyboard: `dewlock_xkb_t`. */
  datatype Xkb = Xkb(capsLock: bool, control: bool, keymap: bool)

  /** The size of the password buffer (main.c:429). */
  const PASSWORD_CAPACITY: nat := 1024

  /** The alarms behind the three timer handles; None for a handle that is NULL. */
  datatype Alarms = Alarms(clock: Option<Alarm>, authIdle: Option<Alarm>, clear: Option<Alarm>)

  /** `dewlock_state_t`, with each timer handle replaced by the alarm of the timer it points to. */
  datatype Core = Core(
    auth: AuthState,
    input: InputState,
    text: seq<CodePoint>,
    xkb: Xkb,
    alarms: Alarms,
    failed: nat,
    running: bool,
    minute: nat)

  /** The whole state: the shared part and the seats announced so far. */
  datatype View = View(core: Core, seats: seq<SeatView>)

  /** What a frame depends on. */
  datatype Snapshot = Snapshot(auth: AuthState, input: InputState, length: nat, capsLock: bool, minute: nat)

  function Initial(minute: nat): Core {
    Core(Idle, Pristine, [], Xkb(false, false, false), Alarms(None, None, None), 0, false, minute)
  }

  const AUTH_IDLE_MS: int := 3000
  const CLEAR_MS: int := 10000
  const CLOCK_MS: int := 1000

  /**
   Everything that can happen. `at` is the clock when a timer is armed, `sent` whether
   a request made by the event went out in full.
   */
  datatype Event =
    | KeyPressed(seat: nat, sym: Keysym, codepoint: CodePoint, at: Timespec, sent: bool, armedAt: Timespec)
    | KeyReleased(seat: nat)
    | Leave(seat: nat)
    | RepeatInfo(seat: nat, rate: int, delay: int)
    | Modifiers(layoutSame: bool, capsLock: bool, control: bool)
    | Keymap(present: bool)
    | NewSeat
    | ReplyRead(success: bool, at: Timespec)
    | Terminate
    | DisplayFailed
    | ClockFires(minute: nat, at: Timespec)
    | AuthIdleFires
    | ClearFires
    | RepeatFires(seat: nat, armedAt: Timespec, at: Timespec, sent: bool)
    | Start(at: Timespec)
    | Finish

  /** Whether a key makes a request: Enter, or control with m, d or j, unless one is being validated. */
  predicate Submits(c: Core, sym: Keysym) {
    !c.auth.Validating? && (sym.KPEnter? || sym.Return?
        || ((sym.LetterM? || sym.LetterD? || sym.LetterJ?) && c.xkb.control))
  }

  function ScheduleAuthIdle(c: Core, at: Timespec): Core {
    c.(alarms := c.alarms.(authIdle := Some(Alarm(at, AUTH_IDLE_MS))))
  }

  function ScheduleClear(c: Core, at: Timespec): Core {
    c.(alarms := c.alarms.(clear := Some(Alarm(at, CLEAR_MS))))
  }

  function NoClear(c: Core): Core {
    c.(alarms := c.alarms.(clear := None))
  }

  /** `submit_password`: the buffer is wiped whether or not the request went out. */
  function Submitted(c: Core, at: Timespec, sent: bool): Core {
    c.(input := Pristine, text := [], auth := if sent then Validating else Invalid,
       alarms := c.alarms.(clear := None, authIdle := if sent then c.alarms.authIdle
           else Some(Alarm(at, AUTH_IDLE_MS))))
  }

  /** Delete or Backspace. */
  function EraseKey(c: Core, at: Timespec): Core {
    if c.xkb.control then NoClear(c).(text := [])
    else
      var w := c.(text := Erased(c.text));
      if w.text != [] then ScheduleClear(w, at) else NoClear(w)
  }

  function EscapeKey(c: Core): Core {
    NoClear(c).(text := [], input := Pristine)
  }

  /** Control with c or u. */
  function ControlClear(c: Core): Core {
    NoClear(c).(input := Dirty, text := [])
  }

  /** A key that types `codepoint`. */
  function TypeKey(c: Core, codepoint: CodePoint, at: Timespec): Core {
    ScheduleClear(c.(auth := Idle, text := Typed(c.text, PASSWORD_CAPACITY, codepoint), input := Dirty), at)
  }

  /** Keys that reach the letters and the default of the switch in `pwd_handle_key`. */
  function LetterKey(c: Core, sym: Keysym, codepoint: CodePoint, at: Timespec): Core {
    if c.xkb.control && !sym.OtherKey? then ControlClear(c)
    else if codepoint != 0 then TypeKey(c, codepoint, at)
    else c
  }

  /** Modifier keys, letters and the default. */
  function TextKey(c: Core, sym: Keysym, codepoint: CodePoint, at: Timespec): Core {
    if IsModifier(sym) then ScheduleClear(c, at) else LetterKey(c, sym, codepoint, at)
  }

  /** Delete, Backspace and Escape. */
  function CorrectionKey(c: Core, sym: Keysym, at: Timespec): Core {
    if sym.Escape? then EscapeKey(c) else EraseKey(c, at)
  }

  predicate IsCorrection(sym: Keysym) {
    sym.Delete? || sym.BackSpace? || sym.Escape?
  }

  /** Keys that do not make a request. */
  function EditKey(c: Core, sym: Keysym, codepoint: CodePoint, at: Timespec): Core {
    if IsCorrection(sym) then CorrectionKey(c, sym, at) else TextKey(c, sym, codepoint, at)
  }

  /** `pwd_handle_key` */
  function PwdKey(c: Core, sym: Keysym, codepoint: CodePoint, at: Timespec, sent: bool): Core {
    if c.auth.Validating? then c
    else if Submits(c, sym) then Submitted(c, at, sent)
    else EditKey(c, sym, codepoint, at)
  }

  /** The repeat period for a rate in keys per second. */
  function Period(rate: int): int {
    if rate <= 0 then -1 else 1000 / rate
  }

  /** `set_time` */
  function ClockFired(c: Core, minute: nat, at: Timespec): Core {
    c.(minute := minute, alarms := c.alarms.(clock := Some(Alarm(at, CLOCK_MS))))
  }

  /** `set_auth_idle` */
  function AuthIdleFired(c: Core): Core {
    c.(alarms := c.alarms.(authIdle := None), auth := Idle)
  }

  /** `clear_password` */
  function ClearFired(c: Core): Core {
    NoClear(c).(input := Pristine, text := [])
  }

  /** `reply_in` for a refused password. */
  function Refused(c: Core, at: Timespec): Core {
    ScheduleAuthIdle(c.(auth := Invalid, failed := c.failed + 1), at)
  }

  /** `keyboard_modifiers` */
  function ModifiersSet(c: Core, capsLock: bool, control: bool): Core {
    if !c.xkb.keymap then c else c.(xkb := c.xkb.(capsLock := capsLock, control := control))
  }

  /** The part of an event that touches the shared state; `s` is the seat it comes from, if any. */
  function CoreStep(c: Core, s: SeatView, e: Event): Core {
    match e
    case KeyPressed(_, sym, codepoint, at, sent, _) => if !c.xkb.keymap then c else PwdKey(c, sym, codepoint, at, sent)
    case RepeatFires(_, _, at, sent) => PwdKey(c, s.sym, s.codepoint, at, sent)
    case Modifiers(_, caps, control) => ModifiersSet(c, caps, control)
    case Keymap(present) => c.(xkb := c.xkb.(keymap := present))
    case ReplyRead(success, at) =>
      if success then c.(running := false) else Refused(c, at)
    case Terminate => c.(running := false)
    case DisplayFailed => c.(running := false)
    case ClockFires(minute, at) => ClockFired(c, minute, at)
    case AuthIdleFires => AuthIdleFired(c)
    case ClearFires => ClearFired(c)
    case Start(at) => c.(running := true, alarms := c.alarms.(clock := Some(Alarm(at, CLOCK_MS))))
    case Finish => c.(alarms := c.alarms.(clock := None))
    case _ => c
  }

  /** What an event does to the seat it comes from. */
  function SeatStep(keymap: bool, s: SeatView, e: Event): SeatView {
    match e
    case KeyPressed(_, sym, codepoint, _, _, armedAt) =>
      if !keymap then s
      else if s.periodMs > 0 then
        s.(sym := sym, codepoint := codepoint, repeatDue := Some(Alarm(armedAt, s.delayMs)))
      else s.(repeatDue := None)
    case KeyReleased(_) => if !keymap then s else s.(repeatDue := None)
    case Leave(_) => s.(repeatDue := None)
    case RepeatInfo(_, rate, delay) => s.(periodMs := Period(rate), delayMs := delay)
    case RepeatFires(_, armedAt, _, _) => s.(repeatDue := Some(Alarm(armedAt, s.periodMs)))
    case _ => s
  }

  const NO_SEAT: SeatView := SeatView(0, 0, OtherKey, 0, None)

  predicate FromSeat(e: Event) {
    e.KeyPressed? || e.KeyReleased? || e.Leave? || e.RepeatInfo? || e.RepeatFires?
  }

  /** Events that name no announced seat do not occur; in a list of events they are skipped. */
  function Step(v: View, e: Event): View {
    if FromSeat(e) then
      if e.seat < |v.seats| then
        var s := v.seats[e.seat];
        View(CoreStep(v.core, s, e), v.seats[e.seat := SeatStep(v.core.xkb.keymap, s, e)])
      else v
    else if e.NewSeat? then View(v.core, v.seats + [NO_SEAT])
    else View(CoreStep(v.core, NO_SEAT, e), v.seats)
  }

  function Replay(v: View, events: seq<Event>): View {
    if events == [] then v else Step(Replay(v, events[..|events| - 1]), events[|events| - 1])
  }

  /** The texts an event puts on the wire in full. */
  function Posts(v: View, e: Event): seq<seq<CodePoint>> {
    if e.KeyPressed? && e.seat < |v.seats| && v.core.xkb.keymap && e.sent && Submits(v.core, e.sym) then [v.core.text]
    else if e.RepeatFires? && e.seat < |v.seats| && e.sent && Submits(v.core, v.seats[e.seat].sym) then [v.core.text]
    else []
  }

  function Posted(v: View, events: seq<Event>): seq<seq<CodePoint>> {
    if events == [] then []
    else Posted(v, events[..|events| - 1]) + Posts(Replay(v, events[..|events| - 1]), events[|events| - 1])
  }

  /** `events` lead from view `v` to view `w`, and what has been posted from `before` to `after`. */
  predicate Leads(v: View, before: seq<seq<CodePoint>>, events: seq<Event>, w: View, after: seq<seq<CodePoint>>) {
    w == Replay(v, events) && after == before + Posted(v, events)
  }

  lemma LeadsNowhere(v: View, before: seq<seq<CodePoint>>)
    ensures Leads(v, before, [], v, before)
  {}

  lemma LeadsOne(v: View, before: seq<seq<CodePoint>>, e: Event, w: View, after: seq<seq<CodePoint>>)
    requires w == Step(v, e) && after == before + Posts(v, e)
    ensures Leads(v, before, [e], w, after)
  {
    var first := [e][..0];
    assert first == [] && Replay(v, first) == v && Posted(v, first) == [];
    assert [] + Posts(v, e) == Posts(v, e);
  }

  /** Steps of any kind, one after the other. */
  function Fold<S, E>(step: (S, E) -> S, s: S, es: seq<E>): S {
    if es == [] then s else step(Fold(step, s, es[..|es| - 1]), es[|es| - 1])
  }

  lemma {:induction false} FoldAppend<S, E>(step: (S, E) -> S, s: S, es: seq<E>, more: seq<E>)
    ensures Fold(step, s, es + more) == Fold(step, Fold(step, s, es), more)
  {
    if more == [] {
      assert es + more == es;
    } else {
      var all := es + more;
      assert all[..|all| - 1] == es + more[..|more| - 1];
      FoldAppend(step, s, es, more[..|more| - 1]);
    }
  }

  function Trace(s: (View, seq<seq<CodePoint>>), e: Event): (View, seq<seq<CodePoint>>) {
    (Step(s.0, e), s.1 + Posts(s.0, e))
  }

  lemma {:induction false} TraceIsReplay(v: View, before: seq<seq<CodePoint>>, events: seq<Event>)
    ensures Fold(Trace, (v, before), events) == (Replay(v, events), before + Posted(v, events))
  {
    if events == [] {
      assert before + [] == before;
    } else {
      var first, e := events[..|events| - 1], events[|events| - 1];
      TraceIsReplay(v, before, first);
      assert Fold(Trace, (v, before), events) == Trace((Replay(v, first), before + Posted(v, first)), e);
      assert before + (Posted(v, first) + Posts(Replay(v, first), e))
          == before + Posted(v, first) + Posts(Replay(v, first), e);
    }
  }

  lemma LeadsOnward(v: View, before: seq<seq<CodePoint>>, events: seq<Event>, w: View, mid: seq<seq<CodePoint>>,
                    more: seq<Event>, x: View, after: seq<seq<CodePoint>>)
    requires Leads(v, before, events, w, mid) && Leads(w, mid, more, x, after)
    ensures Leads(v, before, events + more, x, after)
  {
    TraceIsReplay(v, before, events);
    TraceIsReplay(w, mid, more);
    TraceIsReplay(v, before, events + more);
    FoldAppend(Trace, (v, before), events, more);
  }

  // ---------------------------------------------------------------- invariants over all runs

  /** Each of the three timers is armed for its own duration. */
  predicate Durations(a: Alarms) {
    && (a.clock.Some? ==> a.clock.value.ms == CLOCK_MS)
    && (a.authIdle.Some? ==> a.authIdle.value.ms == AUTH_IDLE_MS)
    && (a.clear.Some? ==> a.clear.value.ms == CLEAR_MS)
  }

  /**
   Text is held only while input is dirty and its clearing is scheduled; nothing is held while a
   request is validated; an error message is on a timer.
   */
  predicate Good(c: Core) {
    && (c.text != [] ==> c.input == Dirty && c.alarms.clear.Some?)
    && (c.auth == Validating ==> c.text == [] && c.alarms.clear == None)
    && (c.auth == Invalid ==> c.alarms.authIdle.Some?)
    && 0 !in c.text && Durations(c.alarms)
  }

  /** The text leaves room for its terminator and one byte more. */
  predicate Fits(c: Core) {
    c.text != [] ==> ByteLength(c.text) + 2 <= PASSWORD_CAPACITY
  }

  lemma TextKeyGood(c: Core, sym: Keysym, codepoint: CodePoint, at: Timespec)
    requires Good(c) && !c.auth.Validating?
    ensures Good(TextKey(c, sym, codepoint, at))
  {}

  lemma CorrectionKeyGood(c: Core, sym: Keysym, at: Timespec)
    requires Good(c) && !c.auth.Validating?
    ensures Good(CorrectionKey(c, sym, at))
  {}

  lemma SubmittedGood(c: Core, at: Timespec, sent: bool)
    requires Good(c)
    ensures Good(Submitted(c, at, sent))
  {}

  lemma PwdKeyGood(c: Core, sym: Keysym, codepoint: CodePoint, at: Timespec, sent: bool)
    requires Good(c)
    ensures Good(PwdKey(c, sym, codepoint, at, sent))
  {
    if !c.auth.Validating? {
      if Submits(c, sym) {
        SubmittedGood(c, at, sent);
      } else if IsCorrection(sym) {
        CorrectionKeyGood(c, sym, at);
      } else {
        TextKeyGood(c, sym, codepoint, at);
      }
    }
  }

  lemma CoreStepGood(c: Core, s: SeatView, e: Event)
    requires Good(c)
    ensures Good(CoreStep(c, s, e))
  {
    if e.KeyPressed? {
      PwdKeyGood(c, e.sym, e.codepoint, e.at, e.sent);
    } else if e.RepeatFires? {
      PwdKeyGood(c, s.sym, s.codepoint, e.at, e.sent);
    }
  }

  /** A key leaves the text alone, empties it, drops its last code point, or types one. */
  lemma PwdKeyText(c: Core, sym: Keysym, codepoint: CodePoint, at: Timespec, sent: bool)
    ensures var d := PwdKey(c, sym, codepoint, at, sent);
            (d.text == c.text || d.text == [] || d.text == Erased(c.text)
             || (codepoint != 0 && d.text == Typed(c.text, PASSWORD_CAPACITY, codepoint)))
  {}

  lemma EditFits(c: Core, d: Core, ch: CodePoint)
    requires Fits(c)
    requires d.text == c.text || d.text == [] || d.text == Erased(c.text)
            || d.text == Typed(c.text, PASSWORD_CAPACITY, ch)
    ensures Fits(d)
  {
    ByteLengthAppend(c.text, ch);
  }

  lemma PwdKeyFits(c: Core, sym: Keysym, codepoint: CodePoint, at: Timespec, sent: bool)
    requires Fits(c)
    ensures Fits(PwdKey(c, sym, codepoint, at, sent))
  {
    PwdKeyText(c, sym, codepoint, at, sent);
    EditFits(c, PwdKey(c, sym, codepoint, at, sent), codepoint);
  }

  lemma CoreStepFits(c: Core, s: SeatView, e: Event)
    requires Fits(c)
    ensures Fits(CoreStep(c, s, e))
  {
    var d := CoreStep(c, s, e);
    if e.KeyPressed? {
      PwdKeyFits(c, e.sym, e.codepoint, e.at, e.sent);
    } else if e.RepeatFires? {
      PwdKeyFits(c, s.sym, s.codepoint, e.at, e.sent);
    } else {
      assert d.text == c.text || d.text == [];
    }
  }

  lemma StepGood(v: View, e: Event)
    requires Good(v.core) && Fits(v.core)
    ensures Good(Step(v, e).core) && Fits(Step(v, e).core)
  {
    var s := if FromSeat(e) && e.seat < |v.seats| then v.seats[e.seat] else NO_SEAT;
    CoreStepGood(v.core, s, e);
    CoreStepFits(v.core, s, e);
  }

  /** Over every sequence of events. */
  lemma {:induction false} GoodThroughout(v: View, events: seq<Event>)
    requires Good(v.core) && Fits(v.core)
    ensures Good(Replay(v, events).core) && Fits(Replay(v, events).core)
  {
    if events != [] {
      GoodThroughout(v, events[..|events| - 1]);
      StepGood(Replay(v, events[..|events| - 1]), events[|events| - 1]);
    }
  }

  predicate Stops(e: Event) {
    (e.ReplyRead? && e.success) || e.Terminate? || e.DisplayFailed?
  }

  /** The main loop's flag is cleared only by a reply of success, SIGUSR1 or a failed dispatch, and never set again. */
  lemma {:induction false} StopsOnly(v: View, events: seq<Event>)
    requires forall i :: 0 <= i < |events| ==> !events[i].Start?
    ensures Replay(v, events).core.running <==> v.core.running && forall i :: 0 <= i < |events| ==> !Stops(events[i])
  {
    if events != [] {
      StopsOnly(v, events[..|events| - 1]);
    }
  }

  /** The replies consumed, in order. */
  function Verdicts(events: seq<Event>): seq<bool> {
    if events == [] then []
    else Verdicts(events[..|events| - 1]) + if events[|events| - 1].ReplyRead? then [events[|events| - 1].success]
        else []
  }

  function Refusals(verdicts: seq<bool>): nat {
    if verdicts == [] then 0 else Refusals(verdicts[..|verdicts| - 1]) + if verdicts[|verdicts| - 1] then 0 else 1
  }

  lemma StepSeats(v: View, e: Event)
    ensures |Step(v, e).seats| == |v.seats| + if e.NewSeat? then 1 else 0
  {}

  lemma StepRunning(v: View, e: Event)
    requires !e.Start?
    ensures Step(v, e).core.running <==> v.core.running && !Stops(e)
  {}

  lemma StepStarts(v: View, e: Event)
    requires e.Start?
    ensures Step(v, e).core.running
  {}

  lemma StepFailed(v: View, e: Event)
    ensures Step(v, e).core.failed == v.core.failed + if e.ReplyRead? && !e.success then 1 else 0
  {}

  /** The attempts counted are the replies of failure. */
  lemma {:induction false} FailuresCounted(v: View, events: seq<Event>)
    ensures Replay(v, events).core.failed == v.core.failed + Refusals(Verdicts(events))
  {
    if events != [] {
      var before, e := events[..|events| - 1], events[|events| - 1];
      FailuresCounted(v, before);
      StepFailed(Replay(v, before), e);
      if e.ReplyRead? {
        RefusalsNext(Verdicts(before), e.success);
      } else {
        assert Verdicts(events) == Verdicts(before);
      }
    }
  }

  lemma RefusalsNext(verdicts: seq<bool>, v: bool)
    ensures Refusals(verdicts + [v]) == Refusals(verdicts) + if v then 0 else 1
  {
    assert (verdicts + [v])[..|verdicts|] == verdicts;
  }

  lemma {:induction false} VerdictsAppend(events: seq<Event>, more: seq<Event>)
    ensures Verdicts(events + more) == Verdicts(events) + Verdicts(more)
  {
    if more == [] {
      assert events + more == events;
    } else {
      var n := |more| - 1;
      assert (events + more)[..|events| + n] == events + more[..n];
      VerdictsAppend(events, more[..n]);
    }
  }

  predicate IsKey(e: Event) {
    e.KeyPressed? || e.RepeatFires?
  }

  /**
   A step that leaves text behind either left it and its clearing alone, or was a key that scheduled its
   clearing anew.
   */
  lemma StepSchedules(v: View, e: Event)
    ensures var d := Step(v, e).core;
            d.text != [] ==>
              (d.text == v.core.text && d.alarms.clear == v.core.alarms.clear)
              || (IsKey(e) && d.alarms.clear == Some(Alarm(e.at, CLEAR_MS)))
  {}

  /** Whenever text is held, it has not changed since the key ten seconds after which it will be cleared. */
  lemma {:induction false} ClearedInTime(v: View, events: seq<Event>) returns (k: nat)
    requires v.core.text == []
    ensures var d := Replay(v, events).core;
            d.text != [] ==>
              k < |events| && IsKey(events[k]) && d.alarms.clear == Some(Alarm(events[k].at, CLEAR_MS))
              && forall j {:trigger Replay(v, events[..j])} :: k < j <= |events| ==>
                  Replay(v, events[..j]).core.text == d.text
  {
    k := 0;
    if events != [] {
      var last := |events| - 1;
      var before := events[..last];
      k := ClearedInTime(v, before);
      StepSchedules(Replay(v, before), events[last]);
      var d, e := Replay(v, events).core, events[last];
      if IsKey(e) && d.alarms.clear == Some(Alarm(e.at, CLEAR_MS)) {
        k := last;
      }
      forall j | k < j <= |events| && d.text != []
        ensures Replay(v, events[..j]).core.text == d.text
      {
        if j == |events| {
          assert events[..j] == events;
        } else {
          assert before[..j] == events[..j];
        }
      }
    }
  }

  // ---------------------------------------------------------------- which events can happen

  /** A timer's event happens only while the timer is armed. */
  predicate Armed(v: View, e: Event) {
    && (e.ClockFires? ==> v.core.alarms.clock.Some?)
    && (e.AuthIdleFires? ==> v.core.alarms.authIdle.Some?)
    && (e.ClearFires? ==> v.core.alarms.clear.Some?)
    && (e.RepeatFires? ==> e.seat < |v.seats| && v.seats[e.seat].repeatDue.Some?)
  }

  /** Every timer that fires in `events` is armed then. */
  predicate ArmedThroughout(v: View, events: seq<Event>) {
    events == []
    || (var before := events[..|events| - 1];
        ArmedThroughout(v, before) && Armed(Replay(v, before), events[|events| - 1]))
  }

  lemma ArmedNext(v: View, events: seq<Event>, e: Event)
    requires ArmedThroughout(v, events) && Armed(Replay(v, events), e)
    ensures ArmedThroughout(v, events + [e])
  {
    assert (events + [e])[..|events|] == events;
  }

  lemma {:induction false} ArmedOnward(v: View, events: seq<Event>, w: View, more: seq<Event>)
    requires ArmedThroughout(v, events) && w == Replay(v, events) && ArmedThroughout(w, more)
    ensures ArmedThroughout(v, events + more)
  {
    if more == [] {
      assert events + more == events;
    } else {
      var before, e := more[..|more| - 1], more[|more| - 1];
      ArmedOnward(v, events, w, before);
      ReplayOnward(v, events, before);
      ArmedNext(v, events + before, e);
      Apart(events, more);
    }
  }

  lemma Apart(events: seq<Event>, more: seq<Event>)
    requires more != []
    ensures events + more == events + more[..|more| - 1] + [more[|more| - 1]]
  {}

  lemma {:induction false} ReplayOnward(v: View, events: seq<Event>, more: seq<Event>)
    ensures Replay(v, events + more) == Replay(Replay(v, events), more)
  {
    if more == [] {
      assert events + more == events;
    } else {
      var before := more[..|more| - 1];
      ReplayOnward(v, events, before);
      assert (events + more)[..|events + more| - 1] == events + before;
    }
  }

  predicate FromTimer(e: Event) {
    e.ClockFires? || e.AuthIdleFires? || e.ClearFires? || e.RepeatFires?
  }

  lemma {:induction false} NoTimerArmed(v: View, events: seq<Event>)
    requires forall i :: 0 <= i < |events| ==> !FromTimer(events[i])
    ensures ArmedThroughout(v, events)
  {
    if events != [] {
      NoTimerArmed(v, events[..|events| - 1]);
    }
  }

  /** A request is made but does not go out. */
  predicate WriteFails(v: View, e: Event) {
    || (e.KeyPressed? && e.seat < |v.seats| && v.core.xkb.keymap && Submits(v.core, e.sym) && !e.sent)
    || (e.RepeatFires? && e.seat < |v.seats| && Submits(v.core, v.seats[e.seat].sym) && !e.sent)
  }

  // ---------------------------------------------------------------- negative timeouts

  predicate Forward(a: Option<Alarm>) {
    a.Some? ==> a.value.ms >= 0
  }

  /** Every armed timer was armed for a time that is not negative. */
  predicate AllForward(v: View) {
    && AlarmsForward(v.core.alarms)
    && forall i {:trigger v.seats[i]} :: 0 <= i < |v.seats| ==> Forward(v.seats[i].repeatDue)
  }

  /** The guards under which `keyboard_key` and `keyboard_repeat` arm a timer for a negative time. */
  predicate Backward(v: View, e: Event) {
    && (e.RepeatFires? || e.KeyPressed?) && e.seat < |v.seats|
    && var s := v.seats[e.seat];
       if e.RepeatFires? then s.periodMs < 0 else v.core.xkb.keymap && s.periodMs > 0 && s.delayMs < 0
  }

  predicate AlarmsForward(a: Alarms) {
    Forward(a.clock) && Forward(a.authIdle) && Forward(a.clear)
  }

  lemma TextKeyForward(c: Core, sym: Keysym, codepoint: CodePoint, at: Timespec)
    requires AlarmsForward(c.alarms)
    ensures AlarmsForward(TextKey(c, sym, codepoint, at).alarms)
  {}

  lemma CorrectionKeyForward(c: Core, sym: Keysym, at: Timespec)
    requires AlarmsForward(c.alarms)
    ensures AlarmsForward(CorrectionKey(c, sym, at).alarms)
  {}

  lemma PwdKeyForward(c: Core, sym: Keysym, codepoint: CodePoint, at: Timespec, sent: bool)
    requires AlarmsForward(c.alarms)
    ensures AlarmsForward(PwdKey(c, sym, codepoint, at, sent).alarms)
  {
    if IsCorrection(sym) {
      CorrectionKeyForward(c, sym, at);
    } else {
      TextKeyForward(c, sym, codepoint, at);
    }
  }

  lemma CoreStepForward(c: Core, s: SeatView, e: Event)
    requires AlarmsForward(c.alarms)
    ensures AlarmsForward(CoreStep(c, s, e).alarms)
  {
    if e.KeyPressed? {
      PwdKeyForward(c, e.sym, e.codepoint, e.at, e.sent);
    } else if e.RepeatFires? {
      PwdKeyForward(c, s.sym, s.codepoint, e.at, e.sent);
    }
  }

  lemma StepForwardExactly(v: View, e: Event)
    requires AllForward(v)
    ensures AllForward(Step(v, e)) <==> !Backward(v, e)
  {
    var w := Step(v, e);
    CoreStepForward(v.core, if FromSeat(e) && e.seat < |v.seats| then v.seats[e.seat] else NO_SEAT, e);
    if FromSeat(e) && e.seat < |v.seats| {
      assert w.seats[e.seat] == SeatStep(v.core.xkb.keymap, v.seats[e.seat], e);
      assert forall i {:trigger w.seats[i]} :: 0 <= i < |w.seats| && i != e.seat ==> w.seats[i] == v.seats[i];
    } else {
      assert forall i {:trigger w.seats[i]} :: 0 <= i < |w.seats| ==> w.seats[i] == NO_SEAT || w.seats[i] in v.seats;
    }
  }

  /** After none of `events` is a timer armed for a negative time. */
  predicate ForwardAllThrough(v: View, events: seq<Event>) {
    AllForward(Replay(v, events)) && (events == [] || ForwardAllThrough(v, events[..|events| - 1]))
  }

  /** None of `events` comes at a time when it arms a timer for a negative time. */
  predicate NoneBackward(v: View, events: seq<Event>) {
    events == []
    || (var before := events[..|events| - 1];
        NoneBackward(v, before) && !Backward(Replay(v, before), events[|events| - 1]))
  }

  /**
   Over every sequence of events: no timer is ever armed for a negative time exactly if no event passes such a guard.
   */
  lemma {:induction false} ForwardExactly(v: View, events: seq<Event>)
    requires AllForward(v)
    ensures ForwardAllThrough(v, events) <==> NoneBackward(v, events)
  {
    if events != [] {
      var before := events[..|events| - 1];
      ForwardExactly(v, before);
      if AllForward(Replay(v, before)) {
        StepForwardExactly(Replay(v, before), events[|events| - 1]);
      } else {
        assert !ForwardAllThrough(v, before);
      }
    }
  }

  /** Such an event: the rate drops to zero while a key is held, and the next repeat is armed for -1 ms. */
  lemma RateDropsWhileHeld(at: Timespec)
    ensures var held := SeatView(40, 600, OtherKey, 97, Some(Alarm(at, 600)));
            var dropped := SeatStep(true, held, RepeatInfo(0, 0, 600));
            SeatStep(true, dropped, RepeatFires(0, at, at, false)).repeatDue == Some(Alarm(at, -1))
            && (0 <= at.nsec < NANOS_PER_MS ==> !Normal(Deadline(at, -1)))
  {
    assert Remainder(-1, 1000) == -1;
  }
}

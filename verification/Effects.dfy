/**
 The state machine told the other way round: not what each event does, but what each field of the state depends on
 (src/password.c:16-175, src/clock.c:25-47, src/seat.c:57-170, main.c:354-391). Symbols and durations are written
 out here, and nothing of this module is used by module Machine.
 */
module Effects {
  import opened Options
  import opened Utf8
  import opened Deadlines
  import opened Machine

  /** What a key is for. */
  datatype Purpose = Submit | DropLast | DropAll | Reset | Discard | Hold | Insert | Nothing

  /** By the key's symbol, whether control is down, and whether the key stands for a character. */
  function PurposeOf(sym: Keysym, control: bool, codepoint: CodePoint): Purpose {
    if sym in {KPEnter, Return} || (control && sym in {LetterM, LetterD, LetterJ}) then Submit
    else if control && sym in {LetterC, LetterU} then Discard
    else if sym == Escape then Reset
    else if sym in {Delete, BackSpace} then if control then DropAll else DropLast
    else if sym in {CapsLock, ShiftL, ShiftR, ControlL, ControlR, MetaL, MetaR, AltL, AltR, SuperL, SuperR} then Hold
    else if codepoint > 0 then Insert
    else Nothing
  }

  /** A key that reaches the password. */
  datatype Key = NoKey | Key(purpose: Purpose, codepoint: CodePoint, at: Timespec, sent: bool)

  /** A press under a keymap, or a repeat of what was pressed; none while a password is validated. */
  function KeyOf(v: View, e: Event): Key {
    if v.core.auth == Validating || !(e.KeyPressed? || e.RepeatFires?) || e.seat >= |v.seats| then NoKey
    else if e.RepeatFires? then
      var s := v.seats[e.seat];
      Key(PurposeOf(s.sym, v.core.xkb.control, s.codepoint), s.codepoint, e.at, e.sent)
    else if v.core.xkb.keymap then
      Key(PurposeOf(e.sym, v.core.xkb.control, e.codepoint), e.codepoint, e.at, e.sent)
    else NoKey
  }

  /** What the key does that an event brings, if it brings one. */
  function Does(v: View, e: Event): Purpose {
    if KeyOf(v, e).Key? then KeyOf(v, e).purpose else Nothing
  }

  predicate Wipes(p: Purpose) {
    p == Submit || p == DropAll || p == Reset || p == Discard
  }

  /** A request is made and its bytes do not all go out. */
  predicate GetsStuck(v: View, e: Event) {
    Does(v, e) == Submit && !KeyOf(v, e).sent
  }

  predicate Refuses(e: Event) {
    e.ReplyRead? && !e.success
  }

  /** The bytes of a text, its terminator and one byte more are at most 1024. */
  predicate Holds(text: seq<CodePoint>) {
    ByteLength(text) + 2 <= 1024
  }

  function TextAfter(v: View, e: Event): seq<CodePoint> {
    var text := v.core.text;
    if e.ClearFires? || Wipes(Does(v, e)) then []
    else if Does(v, e) == DropLast && text != [] then text[..|text| - 1]
    else if Does(v, e) == Insert && Holds(text + [KeyOf(v, e).codepoint]) then text + [KeyOf(v, e).codepoint]
    else text
  }

  function InputAfter(v: View, e: Event): InputState {
    if e.ClearFires? || Does(v, e) == Submit || Does(v, e) == Reset then Pristine
    else if Does(v, e) == Insert || Does(v, e) == Discard then Dirty
    else v.core.input
  }

  function AuthAfter(v: View, e: Event): AuthState {
    if e.AuthIdleFires? || Does(v, e) == Insert then Idle
    else if Refuses(e) || GetsStuck(v, e) then Invalid
    else if Does(v, e) == Submit then Validating
    else v.core.auth
  }

  /** The alarm that clears the password: ten seconds after the last key that touched it. */
  function ClearAfter(v: View, e: Event): Option<Alarm> {
    if e.ClearFires? || Wipes(Does(v, e)) then None
    else if Does(v, e) == DropLast && TextAfter(v, e) == [] then None
    else if Does(v, e) == DropLast || Does(v, e) == Insert || Does(v, e) == Hold then
      Some(Alarm(KeyOf(v, e).at, 10_000))
    else v.core.alarms.clear
  }

  /** The alarm that hides a message: three seconds after a refusal or a request that got stuck. */
  function AuthIdleAfter(v: View, e: Event): Option<Alarm> {
    if e.AuthIdleFires? then None
    else if Refuses(e) then Some(Alarm(e.at, 3_000))
    else if GetsStuck(v, e) then Some(Alarm(KeyOf(v, e).at, 3_000))
    else v.core.alarms.authIdle
  }

  /** The clock's alarm: every second from the start of the loop to its end. */
  function ClockAfter(v: View, e: Event): Option<Alarm> {
    if e.Finish? then None
    else if e.Start? || e.ClockFires? then Some(Alarm(e.at, 1_000))
    else v.core.alarms.clock
  }

  function RunningAfter(v: View, e: Event): bool {
    e.Start? || (v.core.running && !(e.Terminate? || e.DisplayFailed? || (e.ReplyRead? && e.success)))
  }

  /** The keyboard as last told; modifiers count only under a keymap. */
  function XkbAfter(v: View, e: Event): Xkb {
    if e.Keymap? then Xkb(v.core.xkb.capsLock, v.core.xkb.control, e.present)
    else if e.Modifiers? && v.core.xkb.keymap then Xkb(e.capsLock, e.control, true)
    else v.core.xkb
  }

  lemma SubmitsExactly(c: Core, sym: Keysym, codepoint: CodePoint)
    requires c.auth != Validating
    ensures Submits(c, sym) <==> PurposeOf(sym, c.xkb.control, codepoint) == Submit
  {}

  lemma CorrectsExactly(c: Core, sym: Keysym, codepoint: CodePoint)
    ensures IsCorrection(sym) <==> PurposeOf(sym, c.xkb.control, codepoint) in {Reset, DropAll, DropLast}
  {}

  /** Keys that submit. */
  lemma SubmitKey(c: Core, sym: Keysym, codepoint: CodePoint, at: Timespec, sent: bool)
    requires c.auth != Validating && PurposeOf(sym, c.xkb.control, codepoint) == Submit
    ensures PwdKey(c, sym, codepoint, at, sent) ==
            c.(text := [], input := Pristine, auth := if sent then Validating else Invalid,
               alarms := Alarms(c.alarms.clock, if sent then c.alarms.authIdle else Some(Alarm(at, 3_000)), None))
  {
    SubmitsExactly(c, sym, codepoint);
  }

  /** Keys that take something back. */
  lemma CorrectingKey(c: Core, sym: Keysym, codepoint: CodePoint, at: Timespec, sent: bool)
    requires c.auth != Validating && PurposeOf(sym, c.xkb.control, codepoint) in {Reset, DropAll, DropLast}
    ensures var purpose := PurposeOf(sym, c.xkb.control, codepoint);
            var rest := if purpose == DropLast && c.text != [] then c.text[..|c.text| - 1] else [];
            PwdKey(c, sym, codepoint, at, sent) ==
            c.(text := rest, input := if purpose == Reset then Pristine else c.input,
               alarms := c.alarms.(clear := if rest == [] then None else Some(Alarm(at, 10_000))))
  {
    SubmitsExactly(c, sym, codepoint);
    CorrectsExactly(c, sym, codepoint);
  }

  /** All other keys. */
  lemma OtherKeys(c: Core, sym: Keysym, codepoint: CodePoint, at: Timespec, sent: bool)
    requires c.auth != Validating && PurposeOf(sym, c.xkb.control, codepoint) in {Discard, Hold, Insert, Nothing}
    ensures PwdKey(c, sym, codepoint, at, sent) ==
            match PurposeOf(sym, c.xkb.control, codepoint)
            case Discard => c.(text := [], input := Dirty, alarms := c.alarms.(clear := None))
            case Hold => c.(alarms := c.alarms.(clear := Some(Alarm(at, 10_000))))
            case Insert =>
              c.(text := if Holds(c.text + [codepoint]) then c.text + [codepoint] else c.text, input := Dirty,
                 auth := Idle, alarms := c.alarms.(clear := Some(Alarm(at, 10_000))))
            case _ => c
  {
    SubmitsExactly(c, sym, codepoint);
    CorrectsExactly(c, sym, codepoint);
    ByteLengthAppend(c.text, codepoint);
  }

  /** What one key does to the fields it can touch. */
  lemma KeyByField(v: View, e: Event)
    requires KeyOf(v, e).Key?
    ensures var c := Step(v, e).core;
            && c.text == TextAfter(v, e) && c.input == InputAfter(v, e) && c.auth == AuthAfter(v, e)
            && c.alarms == Alarms(v.core.alarms.clock, AuthIdleAfter(v, e), ClearAfter(v, e))
            && c.xkb == v.core.xkb && c.failed == v.core.failed && c.running == v.core.running
            && c.minute == v.core.minute
  {
    var sym := if e.RepeatFires? then v.seats[e.seat].sym else e.sym;
    var k := KeyOf(v, e);
    assert Step(v, e).core == PwdKey(v.core, sym, k.codepoint, k.at, k.sent);
    if k.purpose == Submit {
      SubmitKey(v.core, sym, k.codepoint, k.at, k.sent);
    } else if k.purpose in {Reset, DropAll, DropLast} {
      CorrectingKey(v.core, sym, k.codepoint, k.at, k.sent);
    } else {
      OtherKeys(v.core, sym, k.codepoint, k.at, k.sent);
    }
  }

  /** Every field after any event. */
  lemma CoreByField(v: View, e: Event)
    ensures Step(v, e).core == Core(AuthAfter(v, e), InputAfter(v, e), TextAfter(v, e), XkbAfter(v, e),
                                    Alarms(ClockAfter(v, e), AuthIdleAfter(v, e), ClearAfter(v, e)),
                                    v.core.failed + (if Refuses(e) then 1 else 0), RunningAfter(v, e),
                                    if e.ClockFires? then e.minute else v.core.minute)
  {
    if KeyOf(v, e).Key? {
      KeyByField(v, e);
    }
  }

  /** A request carries the text held when it is made. */
  lemma PostsExactly(v: View, e: Event)
    ensures Posts(v, e) == if Does(v, e) == Submit && !GetsStuck(v, e) then [v.core.text] else []
    ensures WriteFails(v, e) <==> GetsStuck(v, e)
  {}

  // ---------------------------------------------------------------- what is typed is what is sent

  /** No event wipes the password or takes anything back. */
  predicate Undisturbed(v: View, events: seq<Event>) {
    events == []
    || (var before, e := events[..|events| - 1], events[|events| - 1];
        && Undisturbed(v, before) && !e.ClearFires?
        && !Wipes(Does(Replay(v, before), e)) && Does(Replay(v, before), e) != DropLast)
  }

  /** The characters of the keys that insert one, in order. */
  function Typed(v: View, events: seq<Event>): seq<CodePoint> {
    if events == [] then []
    else
      var before, e := events[..|events| - 1], events[|events| - 1];
      Typed(v, before) + if Does(Replay(v, before), e) == Insert then [KeyOf(Replay(v, before), e).codepoint] else []
  }

  lemma {:induction false} TextIsTyped(v: View, events: seq<Event>)
    requires Undisturbed(v, events) && (Typed(v, events) == [] || Holds(v.core.text + Typed(v, events)))
    ensures Replay(v, events).core.text == v.core.text + Typed(v, events)
  {
    if events == [] {
      assert v.core.text + [] == v.core.text;
    } else {
      var before, e := events[..|events| - 1], events[|events| - 1];
      var w := Replay(v, before);
      CoreByField(w, e);
      if Does(w, e) == Insert {
        var ch := KeyOf(w, e).codepoint;
        assert v.core.text + Typed(v, events) == v.core.text + Typed(v, before) + [ch];
        ByteLengthAppend(v.core.text + Typed(v, before), ch);
      } else {
        assert Typed(v, before) + [] == Typed(v, before);
      }
      TextIsTyped(v, before);
    }
  }

  /**
   Whatever else happens in between, keys that insert characters and then one that submits put exactly those
   characters on the wire, behind what was held before, if they fit.
   */
  lemma TypedIsPosted(v: View, events: seq<Event>, enter: Event)
    requires Undisturbed(v, events) && (Typed(v, events) == [] || Holds(v.core.text + Typed(v, events)))
    requires var w := Replay(v, events); Does(w, enter) == Submit && !GetsStuck(w, enter)
    ensures Posts(Replay(v, events), enter) == [v.core.text + Typed(v, events)]
    ensures var c := Step(Replay(v, events), enter).core; c.text == [] && c.auth == Validating && c.input == Pristine
  {
    TextIsTyped(v, events);
    PostsExactly(Replay(v, events), enter);
    CoreByField(Replay(v, events), enter);
  }

  // ---------------------------------------------------------------- messages and the clock

  /** While a refusal is shown, it is due to be hidden three seconds after the event that made it appear. */
  lemma {:induction false} MessageInTime(v: View, events: seq<Event>) returns (k: nat)
    requires v.core.auth != Invalid
    ensures var c := Replay(v, events).core;
            c.auth == Invalid ==>
              && k < |events| && (Refuses(events[k]) || GetsStuck(Replay(v, events[..k]), events[k]))
              && c.alarms.authIdle == Some(Alarm(events[k].at, 3_000))
              && forall j {:trigger Replay(v, events[..j])} :: k < j <= |events| ==>
                   Replay(v, events[..j]).core.auth == Invalid
  {
    k := 0;
    if events != [] {
      var last := |events| - 1;
      var before, e := events[..last], events[last];
      k := MessageInTime(v, before);
      CoreByField(Replay(v, before), e);
      if Refuses(e) || GetsStuck(Replay(v, before), e) {
        k := last;
      } else if Replay(v, events).core.auth == Invalid {
        assert before[..k] == events[..k];
      }
      forall j | k < j <= |events| && Replay(v, events).core.auth == Invalid
        ensures Replay(v, events[..j]).core.auth == Invalid
      {
        if j == |events| {
          assert events[..j] == events;
        } else {
          assert before[..j] == events[..j];
        }
      }
    }
  }

  lemma ClockByField(v: View, e: Event)
    ensures var c := Step(v, e).core;
            && c.alarms.clock == ClockAfter(v, e) && c.running == RunningAfter(v, e)
            && c.minute == if e.ClockFires? then e.minute else v.core.minute
  {
    CoreByField(v, e);
  }

  /** While the loop runs, the clock fires a second after it last did, or after the start; it then shows that minute. */
  lemma {:induction false} ClockTicks(v: View, events: seq<Event>) returns (k: nat)
    requires !v.core.running && forall i :: 0 <= i < |events| ==> !events[i].Finish?
    ensures var c := Replay(v, events).core;
            c.running ==>
              && k < |events| && (events[k].Start? || events[k].ClockFires?)
              && c.alarms.clock == Some(Alarm(events[k].at, 1_000))
              && (events[k].ClockFires? ==> c.minute == events[k].minute)
              && forall j :: k < j < |events| ==> !events[j].Start? && !events[j].ClockFires?
  {
    k := 0;
    if events != [] {
      var last := |events| - 1;
      k := ClockTicks(v, events[..last]);
      ClockByField(Replay(v, events[..last]), events[last]);
      if events[last].Start? || events[last].ClockFires? {
        k := last;
      }
    }
  }

  // ---------------------------------------------------------------- key repeat

  /** A key of seat `i` goes down under a keymap. */
  predicate Presses(v: View, e: Event, i: nat) {
    e.KeyPressed? && e.seat == i && v.core.xkb.keymap
  }

  /** The repeat of seat `i` is stopped: a key comes up under a keymap, or the focus leaves. */
  predicate Stills(v: View, e: Event, i: nat) {
    (e.KeyReleased? && e.seat == i && v.core.xkb.keymap) || e == Leave(i)
  }

  predicate Repeats(e: Event, i: nat) {
    e.RepeatFires? && e.seat == i
  }

  /** The repeat of seat `i`: from a press, after the delay; from a repeat, after the period; until it is stopped. */
  function RepeatAfter(v: View, e: Event, i: nat): Option<Alarm>
    requires i < |v.seats|
  {
    var s := v.seats[i];
    if Stills(v, e, i) || (Presses(v, e, i) && s.periodMs <= 0) then None
    else if Presses(v, e, i) then Some(Alarm(e.armedAt, s.delayMs))
    else if Repeats(e, i) then Some(Alarm(e.armedAt, s.periodMs))
    else s.repeatDue
  }

  /** Every field of a seat after any event, and what a new seat starts with. */
  lemma SeatByField(v: View, e: Event, i: nat)
    ensures |Step(v, e).seats| == |v.seats| + if e.NewSeat? then 1 else 0
    ensures i < |v.seats| ==>
              var s, t := v.seats[i], Step(v, e).seats[i];
              var held := Presses(v, e, i) && s.periodMs > 0;
              && t.repeatDue == RepeatAfter(v, e, i)
              && t.sym == (if held then e.sym else s.sym) && t.codepoint == (if held then e.codepoint else s.codepoint)
              && (e.RepeatInfo? && e.seat == i ==>
                    && t.delayMs == e.delay && (e.rate <= 0 ==> t.periodMs == -1)
                    && (e.rate > 0 ==> t.periodMs * e.rate <= 1000 < (t.periodMs + 1) * e.rate))
              && (!(e.RepeatInfo? && e.seat == i) ==> t.periodMs == s.periodMs && t.delayMs == s.delayMs)
    ensures i == |v.seats| && e.NewSeat? ==>
              var t := Step(v, e).seats[i]; t.repeatDue == None && t.periodMs == 0
  {
    if e.RepeatInfo? && e.rate > 0 {
      PeriodExact(e.rate);
    }
  }

  /** The period in milliseconds is the greatest that makes at least `rate` keys in a second. */
  lemma PeriodExact(rate: int)
    requires rate > 0
    ensures Period(rate) * rate <= 1000 < (Period(rate) + 1) * rate
  {
    var q := 1000 / rate;
    assert 1000 == q * rate + 1000 % rate;
    assert (q + 1) * rate == q * rate + rate;
  }

  /** Once its repeat is stopped, a seat repeats nothing until a key of it is pressed again. */
  lemma {:induction false} SilentUntilPressed(v: View, events: seq<Event>, i: nat)
    requires i < |v.seats| ==> v.seats[i].repeatDue == None
    requires ArmedThroughout(v, events)
    requires forall k :: 0 <= k < |events| ==> !(events[k].KeyPressed? && events[k].seat == i)
    ensures forall k :: 0 <= k < |events| ==> !Repeats(events[k], i)
    ensures var seats := Replay(v, events).seats; i < |seats| ==> seats[i].repeatDue == None
  {
    if events != [] {
      var last := |events| - 1;
      SilentUntilPressed(v, events[..last], i);
      SeatByField(Replay(v, events[..last]), events[last], i);
      forall k | 0 <= k < |events|
        ensures !Repeats(events[k], i)
      {
        assert k < last ==> events[k] == events[..last][k];
      }
    }
  }

  /** No phantom key after the focus has left, or the key was released: until the next press nothing is repeated. */
  lemma NoPhantomKeys(v: View, stop: Event, events: seq<Event>, i: nat)
    requires Stills(v, stop, i) && ArmedThroughout(Step(v, stop), events)
    requires forall k :: 0 <= k < |events| ==> !(events[k].KeyPressed? && events[k].seat == i)
    ensures forall k :: 0 <= k < |events| ==> !Repeats(events[k], i)
    ensures var seats := Replay(Step(v, stop), events).seats; i < |seats| ==> seats[i].repeatDue == None
  {
    SeatByField(v, stop, i);
    SilentUntilPressed(Step(v, stop), events, i);
  }

  /** A release stops a repeat exactly if there is a keymap. */
  lemma ReleaseStops(v: View, i: nat)
    requires i < |v.seats| && v.seats[i].repeatDue.Some?
    ensures Step(v, KeyReleased(i)).seats[i].repeatDue == None <==> v.core.xkb.keymap
  {
    SeatByField(v, KeyReleased(i), i);
  }

  /** A key is held, and the keymap is gone. */
  predicate Stuck(v: View) {
    && |v.seats| == 1 && v.seats[0].repeatDue.Some? && v.seats[0].sym == OtherKey && v.seats[0].codepoint == 97
    && !v.core.xkb.keymap && v.core.auth == Idle && v.core.text == [97]
  }

  lemma GetsHeld(v: View, at: Timespec)
    requires |v.seats| == 1 && v.seats[0].periodMs > 0 && v.core.xkb.keymap && v.core.auth == Idle && v.core.text == []
    ensures Stuck(Step(Step(v, KeyPressed(0, OtherKey, 97, at, false, at)), Keymap(false)))
  {
    OneByte(97);
    assert [] + [97 as CodePoint] == [97];
  }

  lemma StaysStuck(v: View, at: Timespec)
    requires Stuck(v)
    ensures Stuck(Step(v, KeyReleased(0))) && Step(v, RepeatFires(0, at, at, false)).core.text == [97, 97]
  {
    OneByte(97);
    assert [97 as CodePoint] + [97] == [97, 97];
  }

  /** One more event that comes from no timer. */
  lemma OnwardUntimed(v: View, events: seq<Event>, u: View, e: Event) returns (more: seq<Event>)
    requires ArmedThroughout(v, events) && Replay(v, events) == u && !FromTimer(e)
    ensures ArmedThroughout(v, more) && Replay(v, more) == Step(u, e) && e in more
  {
    more := events + [e];
    Onward(v, events, e);
    assert more[|events|] == e;
  }

  lemma GetsStuckKey(v: View, at: Timespec) returns (events: seq<Event>)
    requires |v.seats| == 1 && v.seats[0].periodMs > 0 && v.core.xkb.keymap && v.core.auth == Idle && v.core.text == []
    ensures ArmedThroughout(v, events) && Stuck(Replay(v, events)) && KeyReleased(0) in events
  {
    var down := KeyPressed(0, OtherKey, 97, at, false, at);
    events := OnwardUntimed(v, [], v, down);
    events := OnwardUntimed(v, events, Step(v, down), Keymap(false));
    events := OnwardUntimed(v, events, Step(Step(v, down), Keymap(false)), KeyReleased(0));
    GetsHeld(v, at);
    StaysStuck(Step(Step(v, down), Keymap(false)), at);
  }

  /** A key goes down, the keymap is taken away, the key goes up, and its repeat types all the same. */
  lemma StuckKey(v: View, at: Timespec) returns (events: seq<Event>)
    requires |v.seats| == 1 && v.seats[0].periodMs > 0 && v.core.xkb.keymap && v.core.auth == Idle && v.core.text == []
    ensures ArmedThroughout(v, events) && KeyReleased(0) in events && Replay(v, events).core.text == [97, 97]
  {
    var up := GetsStuckKey(v, at);
    StaysStuck(Replay(v, up), at);
    Onward(v, up, RepeatFires(0, at, at, false));
    events := up + [RepeatFires(0, at, at, false)];
  }

  lemma OneByte(ch: CodePoint)
    requires 0 < ch < 0x80
    ensures ByteLength([]) == 0 && ByteLength([ch]) == 1 && ByteLength([ch, ch]) == 2
  {
    assert [] + [ch] == [ch] && [ch] + [ch] == [ch, ch];
    ByteLengthAppend([], ch);
    ByteLengthAppend([ch], ch);
  }

  /** One more event. */
  lemma Onward(v: View, events: seq<Event>, e: Event)
    ensures Replay(v, events + [e]) == Step(Replay(v, events), e)
    ensures ArmedThroughout(v, events + [e]) <==> ArmedThroughout(v, events) && Armed(Replay(v, events), e)
  {
    assert (events + [e])[..|events|] == events;
  }

  /** The seat repeats the key that the k-th event pressed, and has not been stopped since. */
  predicate Holding(v: View, events: seq<Event>, i: nat, k: nat) {
    && k < |events| && Presses(Replay(v, events[..k]), events[k], i)
    && forall j {:trigger events[j]} :: k < j < |events| ==>
         !Presses(Replay(v, events[..j]), events[j], i) && !Stills(Replay(v, events[..j]), events[j], i)
  }

  /**
   A repeat that is armed is that of the key last pressed on the seat, which has not been released since and the focus
   has not left; it was armed by that press for the delay, or by the last repeat since for the period.
   */
  lemma {:induction false} RepeatOf(v: View, events: seq<Event>, i: nat) returns (k: nat, m: nat)
    requires (i < |v.seats| ==> v.seats[i].repeatDue == None) && ArmedThroughout(v, events)
    ensures var w := Replay(v, events);
            i < |w.seats| && w.seats[i].repeatDue.Some? ==>
              && Holding(v, events, i, k) && k <= m < |events|
              && w.seats[i].sym == events[k].sym && w.seats[i].codepoint == events[k].codepoint
              && var seats := Replay(v, events[..m]).seats;
                 && i < |seats| && (if m == k then events[m].KeyPressed? else Repeats(events[m], i))
                 && w.seats[i].repeatDue ==
                      Some(Alarm(events[m].armedAt, if m == k then seats[i].delayMs else seats[i].periodMs))
  {
    k, m := 0, 0;
    if events != [] {
      var last := |events| - 1;
      var front, e := events[..last], events[last];
      var u := Replay(v, front);
      k, m := RepeatOf(v, front, i);
      SeatByField(u, e, i);
      if i < |u.seats| && RepeatAfter(u, e, i).Some? {
        if Presses(u, e, i) {
          k, m := last, last;
        } else {
          HoldingNext(v, events, i, k);
          assert front[..m] == events[..m];
          if Repeats(e, i) {
            m := last;
          }
        }
      }
    }
  }

  lemma HoldingNext(v: View, events: seq<Event>, i: nat, k: nat)
    requires events != [] && Holding(v, events[..|events| - 1], i, k)
    requires var u, e := Replay(v, events[..|events| - 1]), events[|events| - 1]; !Presses(u, e, i) && !Stills(u, e, i)
    ensures Holding(v, events, i, k)
  {
    var front := events[..|events| - 1];
    assert front[..k] == events[..k];
    forall j | k < j < |events|
      ensures !Presses(Replay(v, events[..j]), events[j], i) && !Stills(Replay(v, events[..j]), events[j], i)
    {
      assert j < |front| ==> front[..j] == events[..j] && front[j] == events[j];
    }
  }

  lemma Cut(events: seq<Event>, from: nat)
    requires from < |events|
    ensures var last := |events| - 1;
            && events[..last][..from] == events[..from] && events[..last][from..last] == events[from..last]
            && events[..from] + events[from..last] == events[..last]
            && events[from..last] + [events[last]] == events[from..]
  {}

  /** A part of a sequence of events is armed where it begins. */
  lemma {:induction false} ArmedPart(v: View, events: seq<Event>, from: nat, to: nat)
    requires ArmedThroughout(v, events) && from <= to <= |events|
    ensures ArmedThroughout(Replay(v, events[..from]), events[from..to])
    decreases |events|
  {
    if from < to {
      var last := |events| - 1;
      ArmedPart(v, events[..last], from, if to == |events| then last else to);
      Cut(events, from);
      if to == |events| {
        ReplayOnward(v, events[..from], events[from..last]);
        ArmedNext(Replay(v, events[..from]), events[from..last], events[last]);
        assert events[from..to] == events[from..];
      } else {
        assert events[..last][from..to] == events[from..to];
      }
    }
  }

  /** Over every run: between the moment a repeat is stopped and the next repeat, a key of that seat was pressed. */
  lemma PressedBetween(v: View, events: seq<Event>, i: nat, k: nat, m: nat) returns (j: nat)
    requires ArmedThroughout(v, events) && k < m < |events|
    requires Stills(Replay(v, events[..k]), events[k], i) && Repeats(events[m], i)
    ensures k < j < m && events[j].KeyPressed? && events[j].seat == i
  {
    var w, part := Replay(v, events[..k]), events[k + 1..m + 1];
    assert events[..k + 1][..k] == events[..k];
    ArmedPart(v, events, k + 1, m + 1);
    assert part[m - k - 1] == events[m];
    if forall n :: 0 <= n < |part| ==> !(part[n].KeyPressed? && part[n].seat == i) {
      NoPhantomKeys(w, events[k], part, i);
      assert false;
    }
    var n :| 0 <= n < |part| && part[n].KeyPressed? && part[n].seat == i;
    assert part[n] == events[n + k + 1];
    j := n + k + 1;
  }

  /** Over every run: what a repeat hands to the password is the key last pressed on that seat, and still held. */
  lemma RepeatedKey(v: View, events: seq<Event>, i: nat, m: nat) returns (k: nat)
    requires ArmedThroughout(v, events) && v.seats == [] && m < |events| && Repeats(events[m], i)
    ensures Holding(v, events[..m], i, k)
    ensures var w := Replay(v, events[..m]);
            i < |w.seats| && w.seats[i].sym == events[k].sym && w.seats[i].codepoint == events[k].codepoint
  {
    ArmedPart(v, events, 0, m + 1);
    var upTo := events[0..m + 1];
    assert events[..0] == [] && upTo[..m] == events[..m] && upTo[m] == events[m];
    var n;
    k, n := RepeatOf(v, events[..m], i);
  }
}

/**
 The running lock screen: `dewlock_state_t` with its timers, password buffer and seats, and the
 handlers that update it in place (src/password.c, src/clock.c, src/seat.c, src/loop.c:107-128,
 and reply_in, term_in and display_in of main.c).
 Every handler is proved to take the step of module Machine of the same name.
 */
module Lock {
  import opened Options
  import opened Utf8
  import opened SafeBuffer
  import opened Editor
  import opened Pipes
  import opened Framing
  import opened Auth
  import opened Deadlines
  import opened EventLoop
  import M = Machine

  /** The alarm behind a timer handle. */
  function Due(t: Timers, a: Address): Option<Alarm> {
    if 0 < a < |t.nodes| then Some(t.nodes[a].alarm) else None
  }

  /** The request pipe's contents after requests for these texts. */
  function Wire(posted: seq<seq<CodePoint>>): seq<Byte> {
    if posted == [] then [] else Wire(posted[..|posted| - 1]) + Frame(EncodeAll(posted[|posted| - 1]))
  }

  /** The request pipe carries one frame for each text, in order. */
  lemma {:induction false} WireIsFrames(posted: seq<seq<CodePoint>>)
    ensures Wire(posted) == Frames(Requests(posted))
  {
    if posted != [] {
      var front, last := posted[..|posted| - 1], posted[|posted| - 1];
      WireIsFrames(front);
      RequestsNext(front, last);
      assert front + [last] == posted;
      FramesAppend(Requests(front), EncodeAll(last));
    }
  }

  /** The child reads back what was typed, text by text. */
  lemma WireReadBack(posted: seq<seq<CodePoint>>)
    requires forall i :: 0 <= i < |posted| ==> Sendable(EncodeAll(posted[i]))
    ensures ParseAll(Wire(posted)) == (Requests(posted), true)
  {
    WireIsFrames(posted);
    ParseAllFrames(Requests(posted));
  }

  /** `dewlock_seat_t` */
  datatype Seat = Seat(periodMs: int, delayMs: int, sym: M.Keysym, codepoint: CodePoint, repeatTimer: Address)

  const NEW_SEAT: Seat := Seat(0, 0, M.OtherKey, 0, NULL)

  function SeatAsView(t: Timers, s: Seat): M.SeatView {
    M.SeatView(s.periodMs, s.delayMs, s.sym, s.codepoint, Due(t, s.repeatTimer))
  }

  /** The handles kept by password.c and clock.c. */
  datatype Handles = Handles(clock: Address, authIdle: Address, clear: Address)

  /** A handle is NULL, or the address of a listed timer that is not cancelled and has its callback. */
  predicate Live(t: Timers, a: Address, c: Callback, firing: Address) {
    a != NULL ==> a in t.live && a < |t.nodes| && t.nodes[a].callback == c && a != firing
  }

  /** `a` is what the handle for callback `c` holds. */
  predicate Holds(h: Handles, seats: seq<Seat>, c: Callback, a: Address) {
    match c
    case SetTime => a == h.clock
    case SetAuthIdle => a == h.authIdle
    case ClearPassword => a == h.clear
    case KeyboardRepeat(i) => i < |seats| && seats[i].repeatTimer == a
  }

  /**
   Handles and live timers are in bijection. `firing` is the timer whose callback is running, if any:
   its handle has already been let go, and its node is about to be freed.
   */
  predicate Linked(t: Timers, h: Handles, seats: seq<Seat>, firing: Address) {
    && Sound(t) && firing < |t.nodes|
    && Live(t, h.clock, SetTime, firing)
    && Live(t, h.authIdle, SetAuthIdle, firing)
    && Live(t, h.clear, ClearPassword, firing)
    && (forall i :: 0 <= i < |seats| ==> Live(t, seats[i].repeatTimer, KeyboardRepeat(i), firing))
    && (forall a {:trigger a in t.live} :: a in t.live && a != firing ==>
        a < |t.nodes| && Holds(h, seats, t.nodes[a].callback, a))
  }

  /** Between callbacks a timer is live exactly when a handle holds it, and then only one does. */
  lemma HandlesAreLiveTimers(t: Timers, h: Handles, seats: seq<Seat>, a: Address)
    requires Linked(t, h, seats, NULL) && a != NULL
    ensures a in t.live <==> exists c :: Holds(h, seats, c, a)
    ensures forall c, d :: Holds(h, seats, c, a) && Holds(h, seats, d, a) ==> c == d
    ensures forall c :: Holds(h, seats, c, a) ==> a < |t.nodes| && t.nodes[a].callback == c
  {
    if a in t.live {
      assert Holds(h, seats, t.nodes[a].callback, a);
    }
    forall c | Holds(h, seats, c, a)
      ensures a in t.live && a < |t.nodes| && t.nodes[a].callback == c
    {
      if c.KeyboardRepeat? {
        assert Live(t, seats[c.seat].repeatTimer, c, NULL);
      }
    }
  }

  function RepeatHandles(seats: seq<Seat>): (r: set<Address>)
    ensures |r| <= |seats|
    ensures forall i {:trigger seats[i]} :: 0 <= i < |seats| ==> seats[i].repeatTimer in r
  {
    if seats == [] then {} else RepeatHandles(seats[..|seats| - 1]) + {seats[|seats| - 1].repeatTimer}
  }

  /** At most three timers and one more for each seat are ever live. */
  lemma FewLiveTimers(t: Timers, h: Handles, seats: seq<Seat>)
    requires Linked(t, h, seats, NULL)
    ensures |t.live| <= 3 + |seats|
  {
    var all := {h.clock, h.authIdle, h.clear} + RepeatHandles(seats);
    forall a | a in t.live
      ensures a in all
    {
      assert Holds(h, seats, t.nodes[a].callback, a);
    }
    Within(t.live, all);
  }

  lemma {:induction false} Within(small: set<Address>, large: set<Address>)
    requires small <= large
    ensures |small| <= |large|
  {
    if small != {} {
      var a :| a in small;
      Within(small - {a}, large - {a});
    }
  }

  function SeatViewsOf(t: Timers, seats: seq<Seat>): (r: seq<M.SeatView>)
    ensures |r| == |seats|
  {
    seq(|seats|, i requires 0 <= i < |seats| => SeatAsView(t, seats[i]))
  }

  /** Adding and cancelling timers does not move the alarms behind seats' handles. */
  lemma SeatViewsKept(t: Timers, u: Timers, h: Handles, seats: seq<Seat>, firing: Address)
    requires Linked(t, h, seats, firing) && Grows(t, u)
    ensures SeatViewsOf(u, seats) == SeatViewsOf(t, seats)
  {
    forall i | 0 <= i < |seats|
      ensures SeatAsView(u, seats[i]) == SeatAsView(t, seats[i])
    {
      assert Live(t, seats[i].repeatTimer, KeyboardRepeat(i), firing);
    }
  }

  /** The alarms behind the handles. */
  function AlarmsOf(t: Timers, h: Handles): M.Alarms {
    M.Alarms(Due(t, h.clock), Due(t, h.authIdle), Due(t, h.clear))
  }

  function WithAlarm(a: M.Alarms, c: Callback, due: Option<Alarm>): M.Alarms
    requires !c.KeyboardRepeat?
  {
    match c
    case SetTime => a.(clock := due)
    case SetAuthIdle => a.(authIdle := due)
    case ClearPassword => a.(clear := due)
  }

  /** The handle for a callback other than a key repeat. */
  function Get(h: Handles, c: Callback): Address
    requires !c.KeyboardRepeat?
  {
    match c
    case SetTime => h.clock
    case SetAuthIdle => h.authIdle
    case ClearPassword => h.clear
  }

  function Put(h: Handles, c: Callback, a: Address): Handles
    requires !c.KeyboardRepeat?
  {
    match c
    case SetTime => h.(clock := a)
    case SetAuthIdle => h.(authIdle := a)
    case ClearPassword => h.(clear := a)
  }

  /** Cancelling the timer behind a handle, if there is one, and clearing the handle. */
  lemma Disarmed(t: Timers, h: Handles, seats: seq<Seat>, firing: Address, c: Callback)
    requires Linked(t, h, seats, firing) && !c.KeyboardRepeat?
    ensures Linked(Marked(t, Get(h, c)), Put(h, c, NULL), seats, firing)
    ensures Grows(t, Marked(t, Get(h, c)))
    ensures AlarmsOf(Marked(t, Get(h, c)), Put(h, c, NULL)) == WithAlarm(AlarmsOf(t, h), c, None)
  {
    MarkedSound(t, Get(h, c));
  }

  /** Arming a new timer for a handle that is NULL. */
  lemma Armed(t: Timers, h: Handles, seats: seq<Seat>, firing: Address, timer: Timer)
    requires Linked(t, h, seats, firing) && !timer.callback.KeyboardRepeat? && Get(h, timer.callback) == NULL
    ensures Linked(Added(t, timer), Put(h, timer.callback, |t.nodes|), seats, firing)
    ensures Grows(t, Added(t, timer))
    ensures AlarmsOf(Added(t, timer), Put(h, timer.callback, |t.nodes|))
            == WithAlarm(AlarmsOf(t, h), timer.callback, Some(timer.alarm))
  {
    AddedSound(t, timer);
  }

  /** Both: what every schedule function of password.c and clock.c does. */
  lemma Rearmed(t: Timers, h: Handles, seats: seq<Seat>, firing: Address, timer: Timer)
    requires Linked(t, h, seats, firing) && !timer.callback.KeyboardRepeat?
    ensures var u := Added(Marked(t, Get(h, timer.callback)), timer);
            Linked(u, Put(h, timer.callback, |t.nodes|), seats, firing) && Grows(t, u)
            && AlarmsOf(u, Put(h, timer.callback, |t.nodes|))
                == WithAlarm(AlarmsOf(t, h), timer.callback, Some(timer.alarm))
  {
    Disarmed(t, h, seats, firing, timer.callback);
    Armed(Marked(t, Get(h, timer.callback)), Put(h, timer.callback, NULL), seats, firing, timer);
  }

  /** A timer whose callback runs lets go of its handle. */
  lemma LetGo(t: Timers, h: Handles, seats: seq<Seat>, c: Callback)
    requires Linked(t, h, seats, NULL) && !c.KeyboardRepeat? && Get(h, c) != NULL
    ensures Linked(t, Put(h, c, NULL), seats, Get(h, c))
    ensures AlarmsOf(t, Put(h, c, NULL)) == WithAlarm(AlarmsOf(t, h), c, None)
  {}

  lemma RepeatLetGo(t: Timers, h: Handles, seats: seq<Seat>, i: nat)
    requires Linked(t, h, seats, NULL) && i < |seats| && seats[i].repeatTimer != NULL
    ensures Linked(t, h, seats[i := seats[i].(repeatTimer := NULL)], seats[i].repeatTimer)
  {
    assert Live(t, seats[i].repeatTimer, KeyboardRepeat(i), NULL);
  }

  /** A node that is not live may be the one being freed. */
  lemma LinkedWhileFiring(t: Timers, h: Handles, seats: seq<Seat>, a: Address)
    requires Linked(t, h, seats, NULL) && a !in t.live && 0 < a < |t.nodes|
    ensures Linked(t, h, seats, a)
  {}

  /** Once the callback has returned and its node is freed, handles and live timers are in bijection again. */
  lemma LinkedAfterFree(t: Timers, h: Handles, seats: seq<Seat>, at: nat)
    requires at < |t.list| && Linked(t, h, seats, t.list[at])
    ensures Linked(Freed(t, at), h, seats, NULL)
    ensures AlarmsOf(Freed(t, at), h) == AlarmsOf(t, h) && SeatViewsOf(Freed(t, at), seats) == SeatViewsOf(t, seats)
  {
    FreedSound(t, at);
    forall i | 0 <= i < |seats|
      ensures SeatAsView(Freed(t, at), seats[i]) == SeatAsView(t, seats[i])
    {}
  }

  lemma MarkNull(t: Timers)
    requires Sound(t)
    ensures Marked(t, NULL) == t
  {
    assert t.live - {NULL} == t.live;
  }

  /** Replacing a seat record without touching its handle. */
  lemma SameHandle(t: Timers, h: Handles, seats: seq<Seat>, firing: Address, i: nat, s: Seat)
    requires Linked(t, h, seats, firing) && i < |seats| && s.repeatTimer == seats[i].repeatTimer
    ensures Linked(t, h, seats[i := s], firing)
    ensures SeatViewsOf(t, seats[i := s]) == SeatViewsOf(t, seats)[i := SeatAsView(t, s)]
  {}

  /** A new seat has no timer. */
  lemma SeatAppended(t: Timers, h: Handles, seats: seq<Seat>, firing: Address)
    requires Linked(t, h, seats, firing)
    ensures Linked(t, h, seats + [NEW_SEAT], firing)
    ensures SeatViewsOf(t, seats + [NEW_SEAT]) == SeatViewsOf(t, seats) + [M.NO_SEAT]
  {}

  /** Cancelling a key repeat. */
  lemma RepeatDisarmed(t: Timers, h: Handles, seats: seq<Seat>, firing: Address, i: nat)
    requires Linked(t, h, seats, firing) && i < |seats|
    ensures var a := seats[i].repeatTimer;
            Linked(Marked(t, a), h, seats[i := seats[i].(repeatTimer := NULL)], firing) && Grows(t, Marked(t, a))
            && AlarmsOf(Marked(t, a), h) == AlarmsOf(t, h)
            && SeatViewsOf(Marked(t, a), seats[i := seats[i].(repeatTimer := NULL)])
               == SeatViewsOf(t, seats)[i := SeatAsView(t, seats[i]).(repeatDue := None)]
  {
    MarkedSound(t, seats[i].repeatTimer);
  }

  /** Arming a key repeat; `firing` may be the repeat timer of this very seat. */
  lemma RepeatArmed(t: Timers, h: Handles, seats: seq<Seat>, i: nat, s: Seat, alarm: Alarm, firing: Address)
    requires i < |seats| && Linked(t, h, seats[i := s.(repeatTimer := NULL)], firing)
    ensures var u := Added(t, Timer(KeyboardRepeat(i), alarm));
            Linked(u, h, seats[i := s.(repeatTimer := |t.nodes|)], firing) && Grows(t, u)
                && AlarmsOf(u, h) == AlarmsOf(t, h)
            && SeatViewsOf(u, seats[i := s.(repeatTimer := |t.nodes|)])
               == SeatViewsOf(t, seats[i := s.(repeatTimer := NULL)])[i := SeatAsView(t, s).(repeatDue := Some(alarm))]
  {
    var u, before := Added(t, Timer(KeyboardRepeat(i), alarm)), seats[i := s.(repeatTimer := NULL)];
    AddedSound(t, Timer(KeyboardRepeat(i), alarm));
    SeatViewsKept(t, u, h, before, firing);
    SameElse(u, before, i, s.(repeatTimer := |t.nodes|));
    assert before[i := s.(repeatTimer := |t.nodes|)] == seats[i := s.(repeatTimer := |t.nodes|)];
  }

  lemma SameElse(t: Timers, seats: seq<Seat>, i: nat, s: Seat)
    requires i < |seats|
    ensures SeatViewsOf(t, seats[i := s]) == SeatViewsOf(t, seats)[i := SeatAsView(t, s)]
  {}

  /** What the compositor and SIGUSR1 can tell the handlers. */
  datatype Signal =
    | KeyDown(seat: nat, sym: M.Keysym, codepoint: CodePoint)
    | KeyUp(seat: nat)
    | FocusLost(seat: nat)
    | RepeatRate(seat: nat, rate: int, delay: int)
    | ModifierState(layoutSame: bool, capsLock: bool, control: bool)
    | KeymapSent(present: bool)
    | SeatAnnounced
    | TermSignal

  predicate OnSeat(s: Signal) {
    s.KeyDown? || s.KeyUp? || s.FocusLost? || s.RepeatRate?
  }

  /** A signal comes from a seat that was announced. */
  predicate Addressed(s: Signal, seats: nat) {
    OnSeat(s) ==> s.seat < seats
  }

  /** Event `e` is the handling of signal `s`. */
  predicate Meets(s: Signal, e: M.Event) {
    match s
    case KeyDown(i, sym, codepoint) => e.KeyPressed? && e.seat == i && e.sym == sym && e.codepoint == codepoint
    case KeyUp(i) => e == M.KeyReleased(i)
    case FocusLost(i) => e == M.Leave(i)
    case RepeatRate(i, rate, delay) => e == M.RepeatInfo(i, rate, delay)
    case ModifierState(same, caps, control) => e == M.Modifiers(same, caps, control)
    case KeymapSent(present) => e == M.Keymap(present)
    case SeatAnnounced => e == M.NewSeat
    case TermSignal => e == M.Terminate
  }

  /** When callback `c` is armed to run. */
  function AlarmFor(v: M.View, c: Callback): Option<Alarm> {
    match c
    case SetTime => v.core.alarms.clock
    case SetAuthIdle => v.core.alarms.authIdle
    case ClearPassword => v.core.alarms.clear
    case KeyboardRepeat(i) => if i < |v.seats| then v.seats[i].repeatDue else None
  }

  /** The live timers are the alarms that are armed, each with its callback. */
  ghost predicate Carries(t: Timers, v: M.View) {
    && Sound(t)
    && (forall a {:trigger a in t.live} :: a in t.live ==> AlarmFor(v, t.nodes[a].callback) == Some(t.nodes[a].alarm))
    && (forall c {:trigger AlarmFor(v, c)} :: AlarmFor(v, c).Some? ==>
          exists a {:trigger a in t.live} :: a in t.live && t.nodes[a] == Timer(c, AlarmFor(v, c).value))
    && OneEach(t)
  }

  /** No two live timers have the same callback. */
  ghost predicate OneEach(t: Timers)
    requires Sound(t)
  {
    forall a, b {:trigger a in t.live, b in t.live} ::
      a in t.live && b in t.live && t.nodes[a].callback == t.nodes[b].callback ==> a == b
  }

  /**
   The turns of a pass one by one: before each, the live timers were the alarms armed after the events of the turns
   before it, the list was split as `Progress` says, and no timer had been added with an earlier time than `now`.
   */
  ghost predicate Followed(t: Timers, seen: seq<Timers>, now: Timespec, v: M.View, events: seq<M.Event>)
    requires Sound(t) && |seen| <= |t.list|
  {
    seen == []
    || (var last := |seen| - 1;
        var before := seen[..last];
        var n := |Ran(t, before, now)|;
        && n <= |events| && Followed(t, before, now, v, events[..n])
        && Carries(seen[last], M.Replay(v, events[..n]))
        && Progress(t, before, seen[last], now) && Since(t, now, seen[last]))
  }

  lemma FollowedNext(t: Timers, seen: seq<Timers>, u: Timers, now: Timespec, v: M.View, events: seq<M.Event>,
                     e: seq<M.Event>)
    requires Sound(t) && |seen| < |t.list| && Followed(t, seen, now, v, events) && |events| == |Ran(t, seen, now)|
    requires Carries(u, M.Replay(v, events)) && Progress(t, seen, u, now) && Since(t, now, u)
    ensures Followed(t, seen + [u], now, v, events + e)
  {
    assert (seen + [u])[..|seen|] == seen && (events + e)[..|events|] == events;
  }

  lemma LinkedCarries(t: Timers, h: Handles, seats: seq<Seat>, v: M.View)
    requires Linked(t, h, seats, NULL) && v.core.alarms == AlarmsOf(t, h) && v.seats == SeatViewsOf(t, seats)
    ensures Carries(t, v)
  {
    forall c | AlarmFor(v, c).Some?
      ensures exists a :: a in t.live && t.nodes[a] == Timer(c, AlarmFor(v, c).value)
    {
      var a := if c.KeyboardRepeat? then seats[c.seat].repeatTimer else Get(h, c);
      assert Live(t, a, c, NULL) && a in t.live;
    }
  }

  /** The event of a timer that fires is one of an armed alarm. */
  lemma FiringArmed(t: Timers, v: M.View, a: Address, e: M.Event)
    requires Carries(t, v) && a in t.live && Runs(t.nodes[a].callback, e)
    ensures M.Armed(v, e)
  {
    assert AlarmFor(v, t.nodes[a].callback).Some?;
  }

  /** Event `e` is callback `c` running. */
  predicate Runs(c: Callback, e: M.Event) {
    match c
    case SetTime => e.ClockFires?
    case SetAuthIdle => e.AuthIdleFires?
    case ClearPassword => e.ClearFires?
    case KeyboardRepeat(i) => e.RepeatFires? && e.seat == i
  }

  /** One event for each timer that ran, in order. */
  predicate Account(t: Timers, ran: seq<Address>, events: seq<M.Event>) {
    |events| == |ran| && forall i :: 0 <= i < |ran| ==> ran[i] < |t.nodes| && Runs(t.nodes[ran[i]].callback, events[i])
  }

  /** What a pass that started with `t` has done when the timers are `u`. */
  ghost predicate Passed(t: Timers, seen: seq<Timers>, u: Timers, now: Timespec, events: seq<M.Event>) {
    Sound(t) && |seen| <= |t.list|
    && Chained(t, seen, u, now) && Progress(t, seen, u, now) && Account(t, Ran(t, seen, now), events)
    && Since(t, now, u)
  }

  lemma PassedNothing(t: Timers, now: Timespec)
    requires Sound(t)
    ensures Passed(t, [], t, now, [])
  {
    assert t.list[..|t.list|] + Kept(t, [], now) == t.list;
  }

  lemma SinceNext(t: Timers, u: Timers, grown: Timers, w: Timers, now: Timespec)
    requires Since(t, now, u) && Since(u, now, grown) && u.nodes <= grown.nodes && t.nodes <= u.nodes
    requires w.nodes == u.nodes || w.nodes == grown.nodes
    ensures Since(t, now, w)
  {
    forall a | |t.nodes| <= a < |w.nodes|
      ensures Nanos(now) <= Nanos(w.nodes[a].alarm.at)
    {
      if a < |u.nodes| {
        assert w.nodes[a] == u.nodes[a];
      } else {
        assert w.nodes[a] == grown.nodes[a];
      }
    }
  }

  /** One more turn. */
  lemma PassedNext(t: Timers, seen: seq<Timers>, u: Timers, grown: Timers, w: Timers, now: Timespec,
          events: seq<M.Event>, e: seq<M.Event>)
    requires Passed(t, seen, u, now, events) && |seen| < |t.list|
    requires Sound(grown) && Grows(u, grown) && Since(u, now, grown) && AtTurn(t, |seen|) < |u.nodes|
    requires var a := AtTurn(t, |seen|);
             && |e| == (if a in u.live && Past(u, a, now) then 1 else 0)
             && w == (if a in u.live && e == [] then u else Freed(grown, |t.list| - |seen| - 1))
             && (e == [] ==> w.live == u.live)
             && (e != [] ==> Runs(u.nodes[a].callback, e[0]))
    ensures Passed(t, seen + [u], w, now, events + e)
  {
    Advance(t, seen, u, grown, w, now);
    ChainedNext(t, seen, u, w, now);
    SinceNext(t, u, grown, w, now);
    assert (seen + [u])[..|seen|] == seen;
  }

  class State {
    const loop: Loop
    const password: SBuf
    const requests: WriteEnd

    var authIdleTimer: Address
    var clearPasswordTimer: Address
    var clockTimer: Address
    var seats: seq<Seat>
    var auth: M.AuthState
    var input: M.InputState
    var failedAttempts: nat
    var runDisplay: bool
    var xkb: M.Xkb
    var minute: nat
    /** The surfaces are to be repainted when the running handler returns. */
    var damaged: bool

    /** The code points in the password buffer. */
    ghost var text: seq<CodePoint>
    /** The texts of the requests that went out in full, in order. */
    ghost var posted: seq<seq<CodePoint>>
    /** No request has failed half way. */
    ghost var intact: bool
    /** What the last repaint asked for was to show. */
    ghost var shown: M.Snapshot

    /** The fields, with handles replaced by the alarms behind them. */
    ghost function Fields(): M.Core
      reads `auth, `input, `text, `xkb, `clockTimer, `authIdleTimer, `clearPasswordTimer,
            `failedAttempts, `runDisplay, `minute, loop`timers
    {
      M.Core(auth, input, text, xkb, AllAlarms(), failedAttempts, runDisplay, minute)
    }

    function Views(): seq<M.SeatView>
      reads `seats, loop`timers
    {
      SeatViewsOf(loop.timers, seats)
    }

    /** The state as a value of module Machine. */
    ghost function View(): M.View
      reads `auth, `input, `text, `xkb, `clockTimer, `authIdleTimer, `clearPasswordTimer, `seats,
            `failedAttempts, `runDisplay, `minute, loop`timers
    {
      M.View(Fields(), Views())
    }

    function Snap(): M.Snapshot
      reads `auth, `input, `xkb, `minute, password`len
    {
      M.Snapshot(auth, input, password.len, xkb.capsLock, minute)
    }

    /** Nothing visible has changed since a repaint was last asked for. */
    ghost predicate Shown()
      reads `auth, `input, `xkb, `minute, `shown, password`len
    {
      shown == Snap()
    }

    function AllHandles(): Handles
      reads `clockTimer, `authIdleTimer, `clearPasswordTimer
    {
      Handles(clockTimer, authIdleTimer, clearPasswordTimer)
    }

    function AllAlarms(): M.Alarms
      reads `clockTimer, `authIdleTimer, `clearPasswordTimer, loop`timers
    {
      AlarmsOf(loop.timers, AllHandles())
    }

    ghost predicate TimersOk(firing: Address)
      reads `clockTimer, `authIdleTimer, `clearPasswordTimer, `seats, loop
    {
      Normal(loop.clock) && Timed(loop.timers, loop.clock) && Linked(loop.timers, AllHandles(), seats, firing)
    }

    /**
     The buffer spells the text, and the request pipe carries one frame for each request made.
     The trigger keeps proofs that do not mention the wire from unfolding it.
     */
    ghost predicate PasswordOk()
      reads `text, `posted, `intact, password, password.buf, requests
    {
      && password.Spells(text) && password.buf.Length == M.PASSWORD_CAPACITY
      && (forall p {:trigger Wire(p)} :: intact && p == posted ==> requests.sent == Wire(p))
    }

    /** What every handler keeps, also while the callback of `firing` runs. */
    ghost predicate Wired(firing: Address)
      reads this, loop, password, password.buf, requests
    {
      TimersOk(firing) && PasswordOk() && Shown() && Wiped()
    }

    /** While a password is being validated, no byte of it is left in the buffer. */
    ghost predicate Wiped()
      reads `auth, password, password.buf
    {
      auth == M.Validating ==> password.Blank()
    }

    /** What holds between callbacks. */
    ghost predicate Valid()
      reads this, loop, password, password.buf, requests
    {
      Wired(NULL) && M.Good(Fields()) && M.Fits(Fields())
    }

    twostate predicate KeepsTimers()
      reads loop
    {
      Onward(old(loop.timers), old(loop.clock), loop.timers, loop.clock)
    }

    /** The state `main` sets up before it connects: nothing armed, nothing typed, not yet running. */
    constructor (now: Timespec, minute: nat, plan: seq<Outcome>)
      requires Normal(now)
      ensures Valid() && seats == [] && loop.timers == EMPTY && loop.clock == now && !damaged
      ensures Fields() == M.Initial(minute) && posted == [] && intact
      ensures fresh(loop) && fresh(password) && fresh(password.buf) && fresh(requests)
    {
      loop := new Loop(now);
      var pw := new SBuf.Unallocated();
      pw.Create(M.PASSWORD_CAPACITY);
      password := pw;
      requests := new WriteEnd(plan);
      authIdleTimer, clearPasswordTimer, clockTimer := NULL, NULL, NULL;
      seats := [];
      auth, input := M.Idle, M.Pristine;
      failedAttempts := 0;
      runDisplay, damaged := false, false;
      xkb := M.Xkb(false, false, false);
      this.minute := minute;
      text, posted, intact := [], [], true;
      shown := M.Snapshot(M.Idle, M.Pristine, 0, false, minute);
    }

    // ------------------------------------------------------------ timers of password.c and clock.c

    /** `cancel_password_clear` */
    method CancelClear(ghost firing: Address)
      requires TimersOk(firing)
      modifies `clearPasswordTimer, loop`timers
      ensures TimersOk(firing) && KeepsTimers() && clearPasswordTimer == NULL
      ensures AllAlarms() == old(AllAlarms()).(clear := None)
    {
      Disarmed(loop.timers, AllHandles(), seats, firing, ClearPassword);
      MarkNull(loop.timers);
      if clearPasswordTimer != NULL {
        var found := loop.RemoveTimer(clearPasswordTimer);
        clearPasswordTimer := NULL;
      }
    }

    /** `schedule_password_clear` */
    method ScheduleClear(ghost firing: Address)
      requires TimersOk(firing)
      modifies `clearPasswordTimer, loop
      ensures TimersOk(firing) && KeepsTimers()
      ensures AllAlarms() == old(AllAlarms()).(clear := Some(Alarm(loop.clock, M.CLEAR_MS)))
    {
      ghost var t, h := loop.timers, AllHandles();
      MarkNull(loop.timers);
      if clearPasswordTimer != NULL {
        var found := loop.RemoveTimer(clearPasswordTimer);
      }
      clearPasswordTimer := loop.AddTimer(M.CLEAR_MS, ClearPassword);
      Rearmed(t, h, seats, firing, Timer(ClearPassword, Alarm(loop.clock, M.CLEAR_MS)));
    }

    /** `pwd_schedule_auth_idle` */
    method ScheduleAuthIdle(ghost firing: Address)
      requires TimersOk(firing)
      modifies `authIdleTimer, loop
      ensures TimersOk(firing) && KeepsTimers()
      ensures AllAlarms() == old(AllAlarms()).(authIdle := Some(Alarm(loop.clock, M.AUTH_IDLE_MS)))
    {
      ghost var t, h := loop.timers, AllHandles();
      MarkNull(loop.timers);
      if authIdleTimer != NULL {
        var found := loop.RemoveTimer(authIdleTimer);
      }
      authIdleTimer := loop.AddTimer(M.AUTH_IDLE_MS, SetAuthIdle);
      Rearmed(t, h, seats, firing, Timer(SetAuthIdle, Alarm(loop.clock, M.AUTH_IDLE_MS)));
    }

    /** `clk_schedule_timer`; called from its own callback it cancels the timer that is firing. */
    method ScheduleClock()
      requires TimersOk(NULL)
      modifies `clockTimer, loop
      ensures TimersOk(NULL) && KeepsTimers()
      ensures |old(loop.timers).nodes| <= clockTimer && old(clockTimer) !in loop.timers.live
      ensures AllAlarms() == old(AllAlarms()).(clock := Some(Alarm(loop.clock, M.CLOCK_MS)))
    {
      ghost var t, h := loop.timers, AllHandles();
      MarkNull(loop.timers);
      if clockTimer != NULL {
        var found := loop.RemoveTimer(clockTimer);
      }
      clockTimer := loop.AddTimer(M.CLOCK_MS, SetTime);
      Rearmed(t, h, seats, NULL, Timer(SetTime, Alarm(loop.clock, M.CLOCK_MS)));
    }

    /** `clk_cancel_timer` */
    method CancelClock()
      requires TimersOk(NULL)
      modifies `clockTimer, loop`timers
      ensures TimersOk(NULL) && KeepsTimers() && clockTimer == NULL
      ensures AllAlarms() == old(AllAlarms()).(clock := None)
    {
      Disarmed(loop.timers, AllHandles(), seats, NULL, SetTime);
      MarkNull(loop.timers);
      if clockTimer != NULL {
        var found := loop.RemoveTimer(clockTimer);
        clockTimer := NULL;
      }
    }

    /** `stop_repeat` */
    method StopRepeat(i: nat, ghost firing: Address)
      requires TimersOk(firing) && i < |seats|
      modifies `seats, loop`timers
      ensures TimersOk(firing) && KeepsTimers()
      ensures seats == old(seats)[i := old(seats)[i].(repeatTimer := NULL)] && AllAlarms() == old(AllAlarms())
      ensures Views() == old(Views())[i := old(Views())[i].(repeatDue := None)]
    {
      RepeatDisarmed(loop.timers, AllHandles(), seats, firing, i);
      MarkNull(loop.timers);
      if seats[i].repeatTimer != NULL {
        var found := loop.RemoveTimer(seats[i].repeatTimer);
        seats := seats[i := seats[i].(repeatTimer := NULL)];
      } else {
        assert seats[i := seats[i].(repeatTimer := NULL)] == seats;
      }
    }

    /** Arms the repeat of seat `i`, which becomes `s` with the new timer; `firing` may be the seat's old one. */
    method ArmRepeat(i: nat, s: Seat, ms: int, ghost firing: Address)
      requires i < |seats| && Normal(loop.clock) && Timed(loop.timers, loop.clock)
              && Linked(loop.timers, AllHandles(), seats[i := s.(repeatTimer := NULL)], firing)
      modifies `seats, loop
      ensures TimersOk(firing) && KeepsTimers() && |seats| == |old(seats)| && AllAlarms() == old(AllAlarms())
      ensures seats[i].(repeatTimer := s.repeatTimer) == s
      ensures Views() == SeatViewsOf(old(loop.timers), old(seats)[i := s.(repeatTimer := NULL)])
                         [i := M.SeatView(s.periodMs, s.delayMs, s.sym, s.codepoint, Some(Alarm(loop.clock, ms)))]
    {
      ghost var t := loop.timers;
      var timer := loop.AddTimer(ms, KeyboardRepeat(i));
      RepeatArmed(t, AllHandles(), seats, i, s, Alarm(loop.clock, ms), firing);
      seats := seats[i := s.(repeatTimer := timer)];
    }

    // ------------------------------------------------------------ password.c

    /** `auth_write_request` on the password buffer. */
    method SendPassword() returns (sent: bool)
      requires PasswordOk()
      modifies `text, `posted, `intact, password`len, password.buf, requests
      ensures PasswordOk() && text == [] && password.Blank()
      ensures posted == old(posted) + if sent then [old(text)] else []
      ensures intact == (old(intact) && sent)
    {
      assert Wire(posted) == Wire(posted) && EncodeAll(text) == EncodeAll(text);
      var r := WriteRequest(requests, password);
      sent := r == Ok;
      if sent {
        assert (posted + [text])[..|posted|] == posted;
        posted := posted + [text];
      } else {
        intact := false;
      }
      text := [];
    }

    /** The end of `submit_password`: send the password, or show the failure. */
    method SendOrFail(ghost firing: Address) returns (sent: bool)
      requires TimersOk(firing) && PasswordOk()
      modifies `authIdleTimer, `auth, `text, `posted, `intact
      modifies loop, password`len, password.buf, requests
      ensures TimersOk(firing) && KeepsTimers() && PasswordOk() && password.Blank()
      ensures text == [] && posted == old(posted) + if sent then [old(text)] else []
      ensures auth == if sent then old(auth) else M.Invalid
      ensures AllAlarms() == old(AllAlarms()).(authIdle := if sent then old(AllAlarms()).authIdle
              else Some(Alarm(loop.clock, M.AUTH_IDLE_MS)))
    {
      sent := SendPassword();
      if !sent {
        auth := M.Invalid;
        ScheduleAuthIdle(firing);
      }
    }

    /** `submit_password` without its repaint. */
    method SubmitRequest(ghost firing: Address) returns (sent: bool)
      requires TimersOk(firing) && PasswordOk()
      modifies `clearPasswordTimer, `authIdleTimer, `auth, `input, `text, `posted, `intact
      modifies loop, password`len, password.buf, requests
      ensures TimersOk(firing) && KeepsTimers() && PasswordOk() && password.Blank()
      ensures input == M.Pristine
      ensures text == [] && posted == old(posted) + if sent then [old(text)] else []
      ensures auth == if sent then M.Validating else M.Invalid
      ensures AllAlarms() == old(AllAlarms()).(clear := None,
                               authIdle := if sent then old(AllAlarms()).authIdle
                                   else Some(Alarm(loop.clock, M.AUTH_IDLE_MS)))
    {
      input := M.Pristine;
      auth := M.Validating;
      CancelClear(firing);
      sent := SendOrFail(firing);
    }

    /** `submit_password` */
    method SubmitPassword(ghost firing: Address) returns (sent: bool)
      requires Wired(firing) && auth != M.Validating
      modifies `clearPasswordTimer, `authIdleTimer, `auth, `input, `text, `posted, `intact
      modifies `damaged, `shown
      modifies loop, password`len, password.buf, requests
      ensures Wired(firing) && KeepsTimers() && damaged && password.Blank()
      ensures Fields() == M.Submitted(old(Fields()), loop.clock, sent)
      ensures posted == old(posted) + if sent then [old(text)] else []
    {
      sent := SubmitRequest(firing);
      AskRepaint(firing);
    }

    /** The call of `damage_state`. */
    method AskRepaint(ghost firing: Address)
      requires TimersOk(firing) && PasswordOk() && Wiped()
      modifies `damaged, `shown
      ensures Wired(firing) && damaged
    {
      damaged, shown := true, Snap();
    }

    /** Wipes the password and cancels its clearing. */
    method WipePassword(ghost firing: Address)
      requires TimersOk(firing) && PasswordOk()
      modifies `clearPasswordTimer, `text, loop`timers, password`len, password.buf
      ensures TimersOk(firing) && KeepsTimers() && PasswordOk()
      ensures text == [] && AllAlarms() == old(AllAlarms()).(clear := None)
    {
      WipeText();
      CancelClear(firing);
    }

    /** The edit of Delete and Backspace. */
    method Erase(ghost firing: Address)
      requires TimersOk(firing) && PasswordOk()
      modifies `clearPasswordTimer, `text, loop, password`len, password.buf
      ensures TimersOk(firing) && KeepsTimers() && PasswordOk()
      ensures text == if xkb.control then [] else Erased(old(text))
      ensures AllAlarms() == old(AllAlarms()).(clear := if text == [] then None
              else Some(Alarm(loop.clock, M.CLEAR_MS)))
    {
      if xkb.control {
        WipePassword(firing);
      } else {
        var kept := EraseLast();
        if kept {
          ScheduleClear(firing);
        } else {
          CancelClear(firing);
        }
      }
    }

    /** `backspace(...) && password.len != 0` */
    method EraseLast() returns (kept: bool)
      requires PasswordOk()
      modifies `text, password`len, password.buf
      ensures PasswordOk() && text == Erased(old(text))
      ensures kept <==> text != []
    {
      var erased := Backspace(password, text);
      text := Erased(text);
      kept := erased && password.len != 0;
      assert password.len == |EncodeAll(text)|;
      EncodeAllLength(text);
    }

    /** The edit of a key that types a code point. */
    method Type(codepoint: CodePoint, ghost firing: Address)
      requires TimersOk(firing) && PasswordOk() && codepoint != 0
      modifies `clearPasswordTimer, `text, `auth, `input, loop, password`len, password.buf
      ensures TimersOk(firing) && KeepsTimers() && PasswordOk()
      ensures text == Typed(old(text), M.PASSWORD_CAPACITY, codepoint)
      ensures auth == (if old(auth) == M.Invalid then M.Idle else old(auth)) && input == M.Dirty
      ensures AllAlarms() == old(AllAlarms()).(clear := Some(Alarm(loop.clock, M.CLEAR_MS)))
    {
      if auth == M.Invalid {
        auth := M.Idle;
      }
      AppendCh(password, codepoint, text);
      text := Typed(text, M.PASSWORD_CAPACITY, codepoint);
      input := M.Dirty;
      ScheduleClear(firing);
    }

    method EraseKey(ghost firing: Address)
      requires Wired(firing) && auth != M.Validating
      modifies `clearPasswordTimer, `text, `damaged, `shown, loop, password`len, password.buf
      ensures Wired(firing) && KeepsTimers() && damaged
      ensures Fields() == M.EraseKey(old(Fields()), loop.clock)
    {
      Erase(firing);
      damaged, shown := true, Snap();
    }

    /** Escape, and control with c or u. */
    method WipeKey(after: M.InputState, ghost firing: Address)
      requires Wired(firing) && auth != M.Validating
      modifies `clearPasswordTimer, `text, `input, `damaged, `shown, loop`timers, password`len, password.buf
      ensures Wired(firing) && KeepsTimers() && damaged
      ensures Fields() == M.NoClear(old(Fields())).(text := [], input := after)
    {
      WipePassword(firing);
      input := after;
      damaged, shown := true, Snap();
    }

    method ModifierKey(ghost firing: Address)
      requires Wired(firing)
      modifies `clearPasswordTimer, `damaged, `shown, loop
      ensures Wired(firing) && KeepsTimers() && damaged
      ensures Fields() == M.ScheduleClear(old(Fields()), loop.clock)
    {
      ScheduleClear(firing);
      damaged, shown := true, Snap();
    }

    method TypeKey(codepoint: CodePoint, ghost firing: Address)
      requires Wired(firing) && auth != M.Validating && codepoint != 0
      modifies `clearPasswordTimer, `text, `auth, `input, `damaged, `shown, loop, password`len, password.buf
      ensures Wired(firing) && KeepsTimers() && damaged
      ensures Fields() == M.TypeKey(old(Fields()), codepoint, loop.clock)
    {
      Type(codepoint, firing);
      damaged, shown := true, Snap();
    }

    /** The letters and the default of the switch in `pwd_handle_key`. */
    method LetterKey(sym: M.Keysym, codepoint: CodePoint, ghost firing: Address)
      requires Wired(firing) && auth != M.Validating
      modifies `clearPasswordTimer, `text, `auth, `input, `damaged, `shown, loop, password`len, password.buf
      ensures Wired(firing) && KeepsTimers()
      ensures Fields() == M.LetterKey(old(Fields()), sym, codepoint, loop.clock)
      ensures damaged || (old(damaged) == damaged && shown == old(shown))
    {
      if xkb.control && sym != M.OtherKey {
        WipeKey(M.Dirty, firing);
      } else if codepoint != 0 {
        TypeKey(codepoint, firing);
      }
    }

    /** Delete, Backspace and Escape. */
    method CorrectionKey(sym: M.Keysym, ghost firing: Address)
      requires Wired(firing) && auth != M.Validating
      modifies `clearPasswordTimer, `text, `input, `damaged, `shown, loop, password`len, password.buf
      ensures Wired(firing) && KeepsTimers() && damaged
      ensures Fields() == M.CorrectionKey(old(Fields()), sym, loop.clock)
    {
      if sym == M.Escape {
        WipeKey(M.Pristine, firing);
      } else {
        EraseKey(firing);
      }
    }

    /** Modifier keys, letters and the default. */
    method TextKey(sym: M.Keysym, codepoint: CodePoint, ghost firing: Address)
      requires Wired(firing) && auth != M.Validating
      modifies `clearPasswordTimer, `text, `auth, `input, `damaged, `shown, loop, password`len, password.buf
      ensures Wired(firing) && KeepsTimers()
      ensures Fields() == M.TextKey(old(Fields()), sym, codepoint, loop.clock)
      ensures damaged || (old(damaged) == damaged && shown == old(shown))
    {
      if M.IsModifier(sym) {
        ModifierKey(firing);
      } else {
        LetterKey(sym, codepoint, firing);
      }
    }

    /** The cases of the switch in `pwd_handle_key` that make no request. */
    method EditKey(sym: M.Keysym, codepoint: CodePoint, ghost firing: Address)
      requires Wired(firing) && auth != M.Validating
      modifies `clearPasswordTimer, `text, `auth, `input, `damaged, `shown, loop, password`len, password.buf
      ensures Wired(firing) && KeepsTimers()
      ensures Fields() == M.EditKey(old(Fields()), sym, codepoint, loop.clock)
      ensures damaged || (old(damaged) == damaged && shown == old(shown))
    {
      if M.IsCorrection(sym) {
        CorrectionKey(sym, firing);
      } else {
        TextKey(sym, codepoint, firing);
      }
    }

    /** `pwd_handle_key`; the cases that submit are taken together. */
    method PwdHandleKey(sym: M.Keysym, codepoint: CodePoint, ghost firing: Address) returns (sent: bool)
      requires Wired(firing)
      modifies `clearPasswordTimer, `authIdleTimer, `auth, `input, `text, `posted, `intact
      modifies `damaged, `shown, loop, password`len, password.buf, requests
      ensures Wired(firing) && KeepsTimers()
      ensures Fields() == M.PwdKey(old(Fields()), sym, codepoint, loop.clock, sent)
      ensures posted == old(posted) + if M.Submits(old(Fields()), sym) && sent then [old(text)] else []
      ensures damaged || (old(damaged) == damaged && shown == old(shown))
    {
      if auth == M.Validating {
        sent := false;
      } else {
        sent := AwakeKey(sym, codepoint, firing);
      }
    }

    /** The switch in `pwd_handle_key`. */
    method AwakeKey(sym: M.Keysym, codepoint: CodePoint, ghost firing: Address) returns (sent: bool)
      requires Wired(firing) && auth != M.Validating
      modifies `clearPasswordTimer, `authIdleTimer, `auth, `input, `text, `posted, `intact
      modifies `damaged, `shown, loop, password`len, password.buf, requests
      ensures Wired(firing) && KeepsTimers()
      ensures Fields() == M.PwdKey(old(Fields()), sym, codepoint, loop.clock, sent)
      ensures posted == old(posted) + if M.Submits(old(Fields()), sym) && sent then [old(text)] else []
      ensures damaged || (old(damaged) == damaged && shown == old(shown))
    {
      if sym.KPEnter? || sym.Return? || ((sym.LetterM? || sym.LetterD? || sym.LetterJ?) && xkb.control) {
        sent := SubmitPassword(firing);
      } else {
        sent := false;
        EditKey(sym, codepoint, firing);
      }
    }

    // ------------------------------------------------------------ timer callbacks

    /** `set_time`: asks for a repaint, and re-arms itself by cancelling the timer that is firing. */
    method SetTimeFires(cur: Address, now: nat)
      requires Wired(NULL) && clockTimer == cur && cur != NULL
      modifies `minute, `clockTimer, `damaged, `shown, loop
      ensures Wired(cur) && KeepsTimers() && damaged
      ensures Fields() == M.ClockFired(old(Fields()), now, loop.clock)
    {
      ScheduleClock();
      LinkedWhileFiring(loop.timers, AllHandles(), seats, cur);
      minute := now;
      damaged, shown := true, Snap();
    }

    /** `set_auth_idle` */
    method SetAuthIdleFires(cur: Address)
      requires Wired(NULL) && authIdleTimer == cur && cur != NULL
      modifies `auth, `authIdleTimer, `damaged, `shown
      ensures Wired(cur) && damaged
      ensures Fields() == M.AuthIdleFired(old(Fields()))
    {
      LetGo(loop.timers, AllHandles(), seats, SetAuthIdle);
      authIdleTimer := NULL;
      auth := M.Idle;
      AskRepaint(cur);
    }

    /** `clear_password` */
    method ClearPasswordFires(cur: Address)
      requires Wired(NULL) && clearPasswordTimer == cur && cur != NULL
      modifies `input, `text, `clearPasswordTimer, `damaged, `shown, password`len, password.buf
      ensures Wired(cur) && damaged && password.Blank()
      ensures Fields() == M.ClearFired(old(Fields()))
    {
      ClearOnTimer(cur);
      damaged, shown := true, Snap();
    }

    /** `clear_password` without its repaint. */
    method ClearOnTimer(cur: Address)
      requires TimersOk(NULL) && PasswordOk() && clearPasswordTimer == cur && cur != NULL
      modifies `input, `text, `clearPasswordTimer, password`len, password.buf
      ensures TimersOk(cur) && PasswordOk() && password.Blank() && input == M.Pristine && text == []
      ensures AllAlarms() == old(AllAlarms()).(clear := None)
    {
      LetGoOfClear(cur);
      input := M.Pristine;
      WipeText();
    }

    method WipeText()
      requires PasswordOk()
      modifies `text, password`len, password.buf
      ensures PasswordOk() && password.Blank() && text == []
    {
      password.Clear();
      text := [];
    }

    method LetGoOfClear(cur: Address)
      requires TimersOk(NULL) && clearPasswordTimer == cur && cur != NULL
      modifies `clearPasswordTimer
      ensures TimersOk(cur) && AllAlarms() == old(AllAlarms()).(clear := None)
    {
      LetGo(loop.timers, AllHandles(), seats, ClearPassword);
      clearPasswordTimer := NULL;
    }

    /** `keyboard_repeat`: overwrites its own handle, then handles the key. */
    method RepeatFires(cur: Address, i: nat) returns (sent: bool, ghost armedAt: Timespec)
      requires Wired(NULL) && i < |seats| && seats[i].repeatTimer == cur && cur != NULL
      modifies `seats, `clearPasswordTimer, `authIdleTimer, `auth, `input, `text, `posted, `intact
      modifies `damaged, `shown, loop, password`len, password.buf, requests
      ensures Wired(cur) && KeepsTimers()
      ensures Fields() == M.PwdKey(old(Fields()), old(Views())[i].sym, old(Views())[i].codepoint, loop.clock, sent)
      ensures Views() == old(Views())[i :=
                old(Views())[i].(repeatDue := Some(Alarm(armedAt, old(Views())[i].periodMs)))]
      ensures posted == old(posted) + if sent && M.Submits(old(Fields()), old(seats)[i].sym) then [old(text)] else []
      ensures damaged || (old(damaged) == damaged && shown == old(shown))
    {
      var s := seats[i];
      RearmRepeat(cur, i);
      armedAt := loop.clock;
      ghost var t, h, c := loop.timers, AllHandles(), loop.clock;
      sent := PwdHandleKey(s.sym, s.codepoint, cur);
      SeatViewsKept(t, loop.timers, h, seats, cur);
      OnwardTransitive(old(loop.timers), old(loop.clock), t, c, loop.timers, loop.clock);
    }

    /** The first statement of `keyboard_repeat`. */
    method RearmRepeat(cur: Address, i: nat)
      requires TimersOk(NULL) && i < |seats| && seats[i].repeatTimer == cur && cur != NULL
      modifies `seats, loop
      ensures TimersOk(cur) && KeepsTimers() && AllAlarms() == old(AllAlarms())
      ensures Views() == old(Views())[i :=
                old(Views())[i].(repeatDue := Some(Alarm(loop.clock, old(seats)[i].periodMs)))]
    {
      ghost var t, before := loop.timers, seats;
      RepeatLetGo(t, AllHandles(), seats, i);
      SameElse(t, before, i, before[i].(repeatTimer := NULL));
      ArmRepeat(i, seats[i], seats[i].periodMs, cur);
    }

    /** Between callbacks, the live timers are the alarms that are armed. */
    lemma AlarmsAreTimers()
      requires Wired(NULL)
      ensures Carries(loop.timers, View())
    {
      LinkedCarries(loop.timers, AllHandles(), seats, View());
    }

    // ------------------------------------------------------------ the timer pass of loop_poll

    method FireSetTime(cur: Address, now: nat) returns (ghost e: M.Event)
      requires Wired(NULL) && clockTimer == cur && cur != NULL
      modifies `minute, `clockTimer, `damaged, `shown, loop
      ensures Wired(cur) && KeepsTimers() && damaged
      ensures e.ClockFires? && View() == M.Step(old(View()), e)
    {
      ghost var t, h := loop.timers, AllHandles();
      SetTimeFires(cur, now);
      SeatViewsKept(t, loop.timers, h, seats, NULL);
      e := M.ClockFires(now, loop.clock);
    }

    method FireRepeat(cur: Address, i: nat) returns (ghost e: M.Event)
      requires Wired(NULL) && i < |seats| && seats[i].repeatTimer == cur && cur != NULL
      modifies `seats, `clearPasswordTimer, `authIdleTimer, `auth, `input, `text, `posted, `intact
      modifies `damaged, `shown, loop, password`len, password.buf, requests
      ensures Wired(cur) && KeepsTimers()
      ensures e.RepeatFires? && e.seat == i && View() == M.Step(old(View()), e)
              && posted == old(posted) + M.Posts(old(View()), e)
      ensures damaged || (old(damaged) == damaged && shown == old(shown))
    {
      var sent;
      ghost var armedAt;
      sent, armedAt := RepeatFires(cur, i);
      e := M.RepeatFires(i, armedAt, loop.clock, sent);
    }

    method FireAuthIdle(cur: Address) returns (ghost e: M.Event)
      requires Wired(NULL) && authIdleTimer == cur && cur != NULL
      modifies `auth, `authIdleTimer, `damaged, `shown
      ensures Wired(cur) && damaged && e.AuthIdleFires? && View() == M.Step(old(View()), e)
    {
      SetAuthIdleFires(cur);
      e := M.AuthIdleFires;
    }

    method FireClear(cur: Address) returns (ghost e: M.Event)
      requires Wired(NULL) && clearPasswordTimer == cur && cur != NULL
      modifies `input, `text, `clearPasswordTimer, `damaged, `shown, password`len, password.buf
      ensures Wired(cur) && damaged && e.ClearFires? && View() == M.Step(old(View()), e)
    {
      ClearPasswordFires(cur);
      e := M.ClearFires;
    }

    /** `set_auth_idle` or `clear_password` */
    method FirePassword(cur: Address) returns (ghost e: M.Event)
      requires Wired(NULL) && cur in loop.timers.live
      requires loop.timers.nodes[cur].callback == SetAuthIdle || loop.timers.nodes[cur].callback == ClearPassword
      modifies `clearPasswordTimer, `authIdleTimer, `auth, `input, `text, `damaged, `shown, password`len, password.buf
      ensures Wired(cur) && damaged && Runs(old(loop.timers).nodes[cur].callback, e)
      ensures View() == M.Step(old(View()), e) && M.Posts(old(View()), e) == []
    {
      if loop.timers.nodes[cur].callback == SetAuthIdle {
        e := FireAuthIdle(cur);
      } else {
        e := FireClear(cur);
      }
    }

    /** `set_time`, `set_auth_idle` or `clear_password` */
    method FireOwn(cur: Address, now: nat) returns (ghost e: M.Event)
      requires Wired(NULL) && cur in loop.timers.live && !loop.timers.nodes[cur].callback.KeyboardRepeat?
      modifies `clearPasswordTimer, `authIdleTimer, `clockTimer, `auth, `input, `text
      modifies `minute, `damaged, `shown, loop, password`len, password.buf
      ensures Wired(cur) && KeepsTimers() && damaged && Runs(old(loop.timers).nodes[cur].callback, e)
      ensures View() == M.Step(old(View()), e) && M.Posts(old(View()), e) == []
    {
      if loop.timers.nodes[cur].callback == SetTime {
        e := FireSetTime(cur, now);
      } else {
        e := FirePassword(cur);
      }
    }

    /** Runs the callback of a timer that is listed and not cancelled. */
    method Fire(cur: Address, now: nat) returns (ghost e: M.Event)
      requires Wired(NULL) && cur in loop.timers.live
      modifies `seats, `clearPasswordTimer, `authIdleTimer, `clockTimer, `auth, `input, `text
      modifies `posted, `intact, `minute, `damaged, `shown, loop, password`len, password.buf, requests
      ensures Wired(cur) && KeepsTimers() && Runs(old(loop.timers).nodes[cur].callback, e)
      ensures View() == M.Step(old(View()), e) && posted == old(posted) + M.Posts(old(View()), e)
      ensures damaged || (old(damaged) == damaged && shown == old(shown))
    {
      if loop.timers.nodes[cur].callback.KeyboardRepeat? {
        e := FireRepeat(cur, loop.timers.nodes[cur].callback.seat);
      } else {
        e := FireOwn(cur, now);
      }
    }

    /** A timer found cancelled at its turn is unlinked and freed. */
    method Sweep(cur: Address, ghost at: nat)
      requires Wired(NULL) && at < |loop.timers.list| && loop.timers.list[at] == cur && cur !in loop.timers.live
      modifies loop`timers
      ensures Wired(NULL) && loop.timers == Freed(old(loop.timers), at) && View() == old(View())
    {
      LinkedWhileFiring(loop.timers, AllHandles(), seats, cur);
      LinkedAfterFree(loop.timers, AllHandles(), seats, at);
      loop.Unlink(cur, at);
    }

    /** The callback has returned: its timer is unlinked and freed. */
    method FreeFired(cur: Address, ghost at: nat)
      requires Wired(cur) && at < |loop.timers.list| && loop.timers.list[at] == cur
      modifies loop`timers
      ensures Wired(NULL) && loop.timers == Freed(old(loop.timers), at) && View() == old(View())
    {
      LinkedAfterFree(loop.timers, AllHandles(), seats, at);
      loop.Unlink(cur, at);
    }

    /** An expired timer runs and is freed afterwards. */
    method RunTimer(cur: Address, ghost at: nat, minute: nat) returns (ghost e: M.Event, ghost grown: Timers)
      requires Wired(NULL) && at < |loop.timers.list| && loop.timers.list[at] == cur && cur in loop.timers.live
      modifies `seats, `clearPasswordTimer, `authIdleTimer, `clockTimer, `auth, `input, `text
      modifies `posted, `intact, `minute, `damaged, `shown, loop, password`len, password.buf, requests
      ensures Wired(NULL) && Nanos(old(loop.clock)) <= Nanos(loop.clock)
      ensures Sound(grown) && Grows(old(loop.timers), grown) && loop.timers == Freed(grown, at)
      ensures Since(old(loop.timers), old(loop.clock), grown)
      ensures Runs(old(loop.timers).nodes[cur].callback, e)
      ensures View() == M.Step(old(View()), e) && posted == old(posted) + M.Posts(old(View()), e)
      ensures damaged || (old(damaged) == damaged && shown == old(shown))
    {
      e := Fire(cur, minute);
      grown := loop.timers;
      FreeFired(cur, at);
    }

    /** One turn of the pass. */
    method Visit(cur: Address, ghost at: nat, now: Timespec, minute: nat)
      returns (ghost e: seq<M.Event>, ghost grown: Timers)
      requires Wired(NULL) && at < |loop.timers.list| && loop.timers.list[at] == cur
      modifies `seats, `clearPasswordTimer, `authIdleTimer, `clockTimer, `auth, `input, `text
      modifies `posted, `intact, `minute, `damaged, `shown, loop, password`len, password.buf, requests
      ensures Wired(NULL) && Nanos(old(loop.clock)) <= Nanos(loop.clock)
      ensures |e| == if cur in old(loop.timers).live && Past(old(loop.timers), cur, now) then 1 else 0
      ensures Sound(grown) && Grows(old(loop.timers), grown) && Since(old(loop.timers), old(loop.clock), grown)
      ensures loop.timers == if cur in old(loop.timers).live && e == [] then old(loop.timers) else Freed(grown, at)
      ensures e == [] ==> loop.timers.live == old(loop.timers).live
      ensures e != [] ==> Runs(old(loop.timers).nodes[cur].callback, e[0]) && M.Armed(old(View()), e[0])
                          && View() == M.Step(old(View()), e[0]) && posted == old(posted) + M.Posts(old(View()), e[0])
      ensures e == [] ==> View() == old(View()) && posted == old(posted)
      ensures damaged || (old(damaged) == damaged && shown == old(shown))
    {
      e, grown := [], loop.timers;
      if cur !in loop.timers.live {
        Sweep(cur, at);
      } else if Expired(Expiry(loop.timers.nodes[cur]), now) {
        ghost var event;
        AlarmsAreTimers();
        ghost var t, view := loop.timers, View();
        event, grown := RunTimer(cur, at, minute);
        FiringArmed(t, view, cur, event);
        e := [event];
      }
    }

    /** One iteration of the pass: `next` is read before the callback runs. */
    method PassTurn(cur: Address, now: Timespec, minute: nat, ghost t: Timers, ghost seen: seq<Timers>,
            ghost events: seq<M.Event>)
      returns (next: Address, ghost e: seq<M.Event>)
      requires Wired(NULL) && Passed(t, seen, loop.timers, now, events) && Nanos(now) <= Nanos(loop.clock)
      requires |seen| < |t.list| && cur == AtTurn(t, |seen|)
      modifies `seats, `clearPasswordTimer, `authIdleTimer, `clockTimer, `auth, `input, `text
      modifies `posted, `intact, `minute, `damaged, `shown, loop, password`len, password.buf, requests
      ensures Wired(NULL) && Nanos(old(loop.clock)) <= Nanos(loop.clock)
      ensures Passed(t, seen + [old(loop.timers)], loop.timers, now, events + e)
      ensures next == if |seen| + 1 < |t.list| then AtTurn(t, |seen| + 1) else NULL
      ensures e != [] ==> M.Armed(old(View()), e[0])
      ensures |e| <= 1 && (e == [] ==> View() == old(View()) && posted == old(posted))
      ensures e != [] ==> View() == M.Step(old(View()), e[0]) && posted == old(posted) + M.Posts(old(View()), e[0])
      ensures damaged || (old(damaged) == damaged && shown == old(shown))
    {
      ghost var k, u := |t.list| - 1 - |seen|, loop.timers;
      assert u.list[k] == cur && (k > 0 ==> u.list[k - 1] == t.list[k - 1]);
      next := loop.Next(cur, k);
      ghost var grown;
      ghost var c := loop.clock;
      e, grown := Visit(cur, k, now, minute);
      SinceEarlier(u, now, c, grown);
      PassedNext(t, seen, u, grown, loop.timers, now, events, e);
    }

    /** The clock is read once, unless no timer is listed; the walk starts at the head. */
    method StartPass() returns (now: Timespec, cur: Address)
      requires Wired(NULL)
      modifies loop`clock
      ensures Wired(NULL) && Normal(now) && Nanos(old(loop.clock)) <= Nanos(now) <= Nanos(loop.clock)
      ensures cur == if |loop.timers.list| > 0 then AtTurn(loop.timers, 0) else NULL
      ensures Passed(loop.timers, [], loop.timers, now, [])
    {
      now, cur := loop.clock, NULL;
      if loop.timers.list != [] {
        now := loop.ReadClock();
        cur := loop.timers.list[|loop.timers.list| - 1];
      }
      PassedNothing(loop.timers, now);
    }

    // ------------------------------------------------------------ seat.c

    /** `keyboard_key` for a key press. */
    method KeyPressed(i: nat, sym: M.Keysym, codepoint: CodePoint) returns (sent: bool, ghost at: Timespec)
      requires Wired(NULL) && i < |seats|
      modifies `seats, `clearPasswordTimer, `authIdleTimer, `auth, `input, `text, `posted, `intact
      modifies `damaged, `shown, loop, password`len, password.buf, requests
      ensures Wired(NULL) && KeepsTimers()
      ensures Fields() == if old(xkb).keymap then M.PwdKey(old(Fields()), sym, codepoint, at, sent) else old(Fields())
      ensures Views() == old(Views())[i := M.SeatStep(old(xkb).keymap, old(Views())[i],
              M.KeyPressed(i, sym, codepoint, at, sent, loop.clock))]
      ensures posted == old(posted) + if sent && M.Submits(old(Fields()), sym) then [old(text)] else []
      ensures sent ==> old(xkb).keymap
      ensures damaged || (old(damaged) == damaged && shown == old(shown))
    {
      sent, at := false, loop.clock;
      if xkb.keymap {
        sent, at := MappedKey(i, sym, codepoint);
      }
    }

    method MappedKey(i: nat, sym: M.Keysym, codepoint: CodePoint) returns (sent: bool, ghost at: Timespec)
      requires Wired(NULL) && i < |seats|
      modifies `seats, `clearPasswordTimer, `authIdleTimer, `auth, `input, `text, `posted, `intact
      modifies `damaged, `shown, loop, password`len, password.buf, requests
      ensures Wired(NULL) && KeepsTimers()
      ensures Fields() == M.PwdKey(old(Fields()), sym, codepoint, at, sent)
      ensures Views() == old(Views())[i := M.SeatStep(true, old(Views())[i],
              M.KeyPressed(i, sym, codepoint, at, sent, loop.clock))]
      ensures posted == old(posted) + if sent && M.Submits(old(Fields()), sym) then [old(text)] else []
      ensures damaged || (old(damaged) == damaged && shown == old(shown))
    {
      ghost var h := AllHandles();
      sent := PwdHandleKey(sym, codepoint, NULL);
      at := loop.clock;
      ghost var t, c := loop.timers, loop.clock;
      SeatViewsKept(old(loop.timers), t, h, seats, NULL);
      RestartRepeat(i, sym, codepoint);
      OnwardTransitive(old(loop.timers), old(loop.clock), t, c, loop.timers, loop.clock);
    }

    /** The end of `keyboard_key`: the old repeat stops, and a new one is armed if the seat repeats keys. */
    method RestartRepeat(i: nat, sym: M.Keysym, codepoint: CodePoint)
      requires TimersOk(NULL) && i < |seats|
      modifies `seats, loop
      ensures TimersOk(NULL) && KeepsTimers() && AllAlarms() == old(AllAlarms())
      ensures var s := old(Views())[i];
              Views() == old(Views())[i := if s.periodMs > 0
                                           then s.(sym := sym, codepoint := codepoint,
                                               repeatDue := Some(Alarm(loop.clock, s.delayMs)))
                                           else s.(repeatDue := None)]
    {
      StopRepeat(i, NULL);
      var s := seats[i];
      if s.periodMs > 0 {
        ghost var t, c, before := loop.timers, loop.clock, seats;
        SameElse(t, before, i, s.(sym := sym, codepoint := codepoint));
        SameHandle(t, AllHandles(), seats, NULL, i, s.(sym := sym, codepoint := codepoint));
        ArmRepeat(i, s.(sym := sym, codepoint := codepoint), s.delayMs, NULL);
        OnwardTransitive(old(loop.timers), old(loop.clock), t, c, loop.timers, loop.clock);
      }
    }

    /** `keyboard_key` for a key release. */
    method KeyReleased(i: nat)
      requires Wired(NULL) && i < |seats|
      modifies `seats, loop`timers
      ensures Wired(NULL) && KeepsTimers() && Fields() == old(Fields())
      ensures Views() == if xkb.keymap then old(Views())[i := old(Views())[i].(repeatDue := None)] else old(Views())
    {
      if xkb.keymap {
        StopRepeat(i, NULL);
      }
    }

    /** `keyboard_leave` */
    method Leave(i: nat)
      requires Wired(NULL) && i < |seats|
      modifies `seats, loop`timers
      ensures Wired(NULL) && KeepsTimers() && Fields() == old(Fields())
      ensures Views() == old(Views())[i := old(Views())[i].(repeatDue := None)]
    {
      StopRepeat(i, NULL);
    }

    /** `keyboard_repeat_info` */
    method RepeatInfo(i: nat, rate: int, delay: int)
      requires Wired(NULL) && i < |seats|
      modifies `seats
      ensures Wired(NULL) && Fields() == old(Fields())
      ensures Views() == old(Views())[i := M.SeatStep(xkb.keymap, old(Views())[i], M.RepeatInfo(i, rate, delay))]
    {
      var s := seats[i].(periodMs := if rate <= 0 then -1 else 1000 / rate, delayMs := delay);
      SameHandle(loop.timers, AllHandles(), seats, NULL, i, s);
      seats := seats[i := s];
    }

    /** `keyboard_modifiers`: repaints only if the visible part changed. */
    method Modifiers(layoutSame: bool, capsLock: bool, control: bool)
      requires Wired(NULL)
      modifies `xkb, `damaged, `shown
      ensures Wired(NULL)
      ensures Fields() == M.ModifiersSet(old(Fields()), capsLock, control)
      ensures old(xkb).keymap && (capsLock != old(xkb).capsLock || !layoutSame) ==> damaged
      ensures !old(xkb).keymap || (capsLock == old(xkb).capsLock && layoutSame) ==>
              damaged == old(damaged) && shown == old(shown)
    {
      if xkb.keymap {
        if capsLock != xkb.capsLock || !layoutSame {
          SetCaps(capsLock, control);
        } else {
          SetControl(control);
        }
      }
    }

    method SetCaps(capsLock: bool, control: bool)
      requires Wired(NULL)
      modifies `xkb, `damaged, `shown
      ensures Wired(NULL) && damaged
              && Fields() == old(Fields()).(xkb := old(xkb).(capsLock := capsLock, control := control))
    {
      xkb := xkb.(capsLock := capsLock, control := control);
      damaged, shown := true, Snap();
    }

    method SetControl(control: bool)
      requires Wired(NULL)
      modifies `xkb
      ensures Wired(NULL) && Fields() == old(Fields()).(xkb := old(xkb).(control := control))
    {
      xkb := xkb.(control := control);
    }

    /** `keyboard_keymap` */
    method Keymap(present: bool)
      requires Wired(NULL)
      modifies `xkb
      ensures Wired(NULL)
      ensures Fields() == old(Fields()).(xkb := old(xkb).(keymap := present))
    {
      xkb := xkb.(keymap := present);
    }

    /** `handle_global` for a seat. */
    method AddSeat()
      requires Wired(NULL)
      modifies `seats
      ensures Wired(NULL) && Fields() == old(Fields()) && Views() == old(Views()) + [M.NO_SEAT]
    {
      SeatAppended(loop.timers, AllHandles(), seats, NULL);
      seats := seats + [NEW_SEAT];
    }

    // ------------------------------------------------------------ main.c

    /** The branch of `reply_in` for a readable pipe; `exited` where the process ends. */
    method ReplyIn(replies: ReadEnd) returns (exited: bool, success: bool)
      requires Wired(NULL)
      modifies `runDisplay, `auth, `failedAttempts, `authIdleTimer, `damaged, `shown, loop, replies
      ensures Wired(NULL) && KeepsTimers() && Views() == old(Views())
      ensures exited <==> TakeReply(old(replies.plan), old(replies.stream)).result != Complete
      ensures replies.plan == TakeReply(old(replies.plan), old(replies.stream)).plan
      ensures exited ==> Fields() == old(Fields()) && replies.stream == old(replies.stream)
      ensures !exited ==> |old(replies.stream)| > 0 && replies.stream == old(replies.stream)[1..]
      ensures !exited ==> (success <==> old(replies.stream)[0] != 0)
      ensures !exited ==>
                Fields() == if success then old(Fields()).(running := false) else M.Refused(old(Fields()), loop.clock)
      ensures damaged || (old(damaged) == damaged && shown == old(shown))
    {
      var r;
      r, success := ReadReply(replies);
      exited := r != Ok;
      if exited {
        return;
      }
      if success {
        runDisplay := false;
      } else {
        ghost var t, h := loop.timers, AllHandles();
        ShowInvalid();
        SeatViewsKept(t, loop.timers, h, seats, NULL);
      }
    }

    /** What a refused password does. */
    method ShowInvalid()
      requires Wired(NULL)
      modifies `auth, `failedAttempts, `authIdleTimer, `damaged, `shown, loop
      ensures Wired(NULL) && KeepsTimers() && damaged
      ensures Fields() == M.Refused(old(Fields()), loop.clock)
    {
      CountFailure();
      damaged, shown := true, Snap();
    }

    method CountFailure()
      requires TimersOk(NULL)
      modifies `auth, `failedAttempts, `authIdleTimer, loop
      ensures TimersOk(NULL) && KeepsTimers() && auth == M.Invalid && failedAttempts == old(failedAttempts) + 1
      ensures AllAlarms() == old(AllAlarms()).(authIdle := Some(Alarm(loop.clock, M.AUTH_IDLE_MS)))
    {
      auth := M.Invalid;
      ScheduleAuthIdle(NULL);
      failedAttempts := failedAttempts + 1;
    }

    /** `term_in`, and `display_in` when the dispatch fails. */
    method StopRunning()
      requires Wired(NULL)
      modifies `runDisplay
      ensures Wired(NULL)
      ensures Fields() == old(Fields()).(running := false)
    {
      runDisplay := false;
    }

    // ------------------------------------------------------------ every signal

    method HandleKeyDown(i: nat, sym: M.Keysym, codepoint: CodePoint) returns (ghost e: M.Event)
      requires Wired(NULL) && i < |seats|
      modifies `seats, `clearPasswordTimer, `authIdleTimer, `auth, `input, `text, `posted, `intact
      modifies `damaged, `shown, loop, password`len, password.buf, requests
      ensures Wired(NULL) && KeepsTimers() && Meets(KeyDown(i, sym, codepoint), e)
      ensures View() == M.Step(old(View()), e) && posted == old(posted) + M.Posts(old(View()), e)
      ensures damaged || (old(damaged) == damaged && shown == old(shown))
    {
      var sent;
      ghost var at;
      sent, at := KeyPressed(i, sym, codepoint);
      e := M.KeyPressed(i, sym, codepoint, at, sent, loop.clock);
    }

    method HandleSeat(s: Signal) returns (ghost e: M.Event)
      requires Wired(NULL) && Addressed(s, |seats|) && OnSeat(s)
      modifies `seats, `clearPasswordTimer, `authIdleTimer, `auth, `input, `text, `posted, `intact
      modifies `damaged, `shown, loop, password`len, password.buf, requests
      ensures Wired(NULL) && KeepsTimers() && Meets(s, e)
      ensures View() == M.Step(old(View()), e) && posted == old(posted) + M.Posts(old(View()), e)
      ensures damaged || (old(damaged) == damaged && shown == old(shown))
    {
      match s {
        case KeyDown(i, sym, codepoint) =>
          e := HandleKeyDown(i, sym, codepoint);
        case KeyUp(i) =>
          KeyReleased(i);
          e := M.KeyReleased(i);
        case FocusLost(i) =>
          Leave(i);
          e := M.Leave(i);
        case RepeatRate(i, rate, delay) =>
          RepeatInfo(i, rate, delay);
          e := M.RepeatInfo(i, rate, delay);
      }
    }

    method HandleGlobal(s: Signal) returns (ghost e: M.Event)
      requires Wired(NULL) && !OnSeat(s)
      modifies `seats, `xkb, `runDisplay, `damaged, `shown
      ensures Wired(NULL) && Meets(s, e) && View() == M.Step(old(View()), e)
      ensures damaged || (old(damaged) == damaged && shown == old(shown))
    {
      if s.ModifierState? || s.KeymapSent? {
        e := HandleXkb(s);
      } else if s.SeatAnnounced? {
        AddSeat();
        e := M.NewSeat;
      } else {
        StopRunning();
        e := M.Terminate;
      }
    }

    method HandleXkb(s: Signal) returns (ghost e: M.Event)
      requires Wired(NULL) && (s.ModifierState? || s.KeymapSent?)
      modifies `xkb, `damaged, `shown
      ensures Wired(NULL) && Meets(s, e) && View() == M.Step(old(View()), e)
      ensures damaged || (old(damaged) == damaged && shown == old(shown))
    {
      if s.ModifierState? {
        Modifiers(s.layoutSame, s.capsLock, s.control);
        e := M.Modifiers(s.layoutSame, s.capsLock, s.control);
      } else {
        Keymap(s.present);
        e := M.Keymap(s.present);
      }
    }

    /** Every signal takes the step of the event it stands for. */
    method Handle(s: Signal) returns (ghost e: M.Event)
      requires Wired(NULL) && Addressed(s, |seats|)
      modifies `seats, `clearPasswordTimer, `authIdleTimer, `auth, `input, `text, `posted, `intact
      modifies `xkb, `runDisplay, `damaged, `shown, loop, password`len, password.buf, requests
      ensures Wired(NULL) && KeepsTimers() && Meets(s, e)
      ensures View() == M.Step(old(View()), e) && posted == old(posted) + M.Posts(old(View()), e)
      ensures damaged || (old(damaged) == damaged && shown == old(shown))
    {
      if OnSeat(s) {
        e := HandleSeat(s);
      } else {
        e := HandleGlobal(s);
      }
    }

    /** `reply_in` as a step. */
    method HandleReply(replies: ReadEnd) returns (exited: bool, ghost e: M.Event)
      requires Wired(NULL)
      modifies `runDisplay, `auth, `failedAttempts, `authIdleTimer, `damaged, `shown, loop, replies
      ensures Wired(NULL) && KeepsTimers()
      ensures exited <==> TakeReply(old(replies.plan), old(replies.stream)).result != Complete
      ensures replies.plan == TakeReply(old(replies.plan), old(replies.stream)).plan
      ensures exited ==> View() == old(View()) && replies.stream == old(replies.stream)
      ensures !exited ==> |old(replies.stream)| > 0 && replies.stream == old(replies.stream)[1..]
      ensures !exited ==>
                e.ReplyRead? && (e.success <==> old(replies.stream)[0] != 0) && View() == M.Step(old(View()), e)
      ensures damaged || (old(damaged) == damaged && shown == old(shown))
    {
      var success;
      exited, success := ReplyIn(replies);
      e := M.ReplyRead(success, loop.clock);
    }

    /** The clock timer is armed and the main loop entered. */
    method Start() returns (ghost e: M.Event)
      requires Wired(NULL)
      modifies `clockTimer, `runDisplay, loop
      ensures Wired(NULL) && KeepsTimers() && e.Start? && View() == M.Step(old(View()), e)
    {
      ghost var t, h := loop.timers, AllHandles();
      ScheduleClock();
      SeatViewsKept(t, loop.timers, h, seats, NULL);
      runDisplay := true;
      e := M.Start(loop.clock);
    }

    /** The main loop has been left. */
    method Finish()
      requires Wired(NULL)
      modifies `clockTimer, loop`timers
      ensures Wired(NULL) && KeepsTimers() && View() == M.Step(old(View()), M.Finish)
    {
      ghost var t, h := loop.timers, AllHandles();
      CancelClock();
      SeatViewsKept(t, loop.timers, h, seats, NULL);
    }
  }
}

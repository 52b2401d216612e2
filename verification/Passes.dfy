/** What a timer pass of the main loop does to the alarms that are due (src/loop.c:107-128). */
module Passes {
  import opened Options
  import opened Deadlines
  import opened EventLoop
  import opened Lock
  import opened Runs
  import M = Machine

  /** When an alarm is due. */
  function DueTime(alarm: Alarm): int {
    Nanos(alarm.at) + alarm.ms * NANOS_PER_MS
  }

  /** An alarm that is due and was not armed for a negative duration. */
  predicate Overdue(alarm: Alarm, now: Timespec) {
    alarm.ms >= 0 && DueTime(alarm) < Nanos(now)
  }

  lemma OverdueIsPast(alarm: Alarm, now: Timespec)
    requires Normal(alarm.at) && Normal(now) && alarm.ms >= 0
    ensures Overdue(alarm, now) <==> Expired(Deadline(alarm.at, alarm.ms), now)
  {
    DeadlineExact(alarm.at, alarm.ms);
    ExpiredExact(Deadline(alarm.at, alarm.ms), now);
  }

  /** After a pass no alarm is overdue, whenever it was armed. */
  lemma NothingOverdue(s: Status, seen: seq<Timers>, now: Timespec, events: seq<M.Event>, t: Status, c: Callback)
    requires PassDone(s, seen, now, events, t) && AlarmFor(t.at.view, c).Some?
    ensures !Overdue(AlarmFor(t.at.view, c).value, now)
  {
    var alarm := AlarmFor(t.at.view, c).value;
    var a :| a in t.timers.live && t.timers.nodes[a] == Timer(c, alarm);
    assert a in t.timers.list;
    if a < |s.timers.nodes| {
      NoneLeftBehind(s.timers, seen, t.timers, now, a);
      if alarm.ms >= 0 {
        OverdueIsPast(alarm, now);
      }
    }
  }

  /** Text still held after a pass had its clearing armed no more than ten seconds before the pass read the clock. */
  lemma OverdueTextCleared(s: Status, seen: seq<Timers>, now: Timespec, events: seq<M.Event>, t: Status)
    requires PassDone(s, seen, now, events, t) && t.at.view.core.text != []
    ensures t.at.view.core.alarms.clear.Some?
    ensures Nanos(now) <= Nanos(t.at.view.core.alarms.clear.value.at) + 10_000 * NANOS_PER_MS
  {
    assert AlarmFor(t.at.view, ClearPassword) == t.at.view.core.alarms.clear;
    NothingOverdue(s, seen, now, events, t, ClearPassword);
  }

  /** A message still shown after a pass had its hiding armed no more than three seconds before. */
  lemma OverdueMessageHidden(s: Status, seen: seq<Timers>, now: Timespec, events: seq<M.Event>, t: Status)
    requires PassDone(s, seen, now, events, t) && t.at.view.core.auth == M.Invalid
    ensures t.at.view.core.alarms.authIdle.Some?
    ensures Nanos(now) <= Nanos(t.at.view.core.alarms.authIdle.value.at) + 3_000 * NANOS_PER_MS
  {
    assert AlarmFor(t.at.view, SetAuthIdle) == t.at.view.core.alarms.authIdle;
    NothingOverdue(s, seen, now, events, t, SetAuthIdle);
  }

  /** The view after the first events of a pass. */
  function ViewAt(v: M.View, events: seq<M.Event>, n: nat): M.View
    requires n <= |events|
  {
    M.Replay(v, events[..n])
  }

  /** Event `k` changes the alarm of `c`. */
  predicate Changes(v: M.View, events: seq<M.Event>, k: nat, c: Callback) {
    k < |events| && AlarmFor(ViewAt(v, events, k + 1), c) != AlarmFor(ViewAt(v, events, k), c)
  }

  /** An alarm that is not what it was was changed by some event. */
  lemma {:induction false} ChangedBySome(v: M.View, events: seq<M.Event>, n: nat, c: Callback) returns (k: nat)
    requires n <= |events| && AlarmFor(ViewAt(v, events, n), c) != AlarmFor(v, c)
    ensures k < n && Changes(v, events, k, c) && AlarmFor(ViewAt(v, events, k), c) == AlarmFor(v, c)
  {
    assert events[..0] == [] && n > 0;
    if AlarmFor(ViewAt(v, events, n - 1), c) == AlarmFor(v, c) {
      k := n - 1;
    } else {
      k := ChangedBySome(v, events, n - 1, c);
    }
  }

  // ---------------------------------------------------------------- turn by turn

  /** How many events the turns before the j-th made. */
  function EventsBefore(t: Timers, seen: seq<Timers>, now: Timespec, j: nat): nat
    requires Sound(t) && j <= |seen| <= |t.list|
  {
    |Ran(t, seen[..j], now)|
  }

  /** What held when the j-th turn began. */
  lemma {:induction false} FollowedAt(t: Timers, seen: seq<Timers>, now: Timespec,
                                      v: M.View, events: seq<M.Event>, j: nat)
    requires Sound(t) && j < |seen| <= |t.list| && Followed(t, seen, now, v, events)
    ensures EventsBefore(t, seen, now, j) <= |events|
    ensures Carries(seen[j], ViewAt(v, events, EventsBefore(t, seen, now, j)))
    ensures Progress(t, seen[..j], seen[j], now) && Since(t, now, seen[j])
  {
    var last := |seen| - 1;
    if j < last {
      var n := EventsBefore(t, seen, now, last);
      FollowedAt(t, seen[..last], now, v, events[..n], j);
      assert seen[..last][..j] == seen[..j];
      assert events[..n][..EventsBefore(t, seen, now, j)] == events[..EventsBefore(t, seen, now, j)];
    }
  }

  /** A timer that runs is the next of those that ran. */
  lemma {:induction false} RanThere(t: Timers, seen: seq<Timers>, now: Timespec, j: nat)
    requires Sound(t) && j < |seen| <= |t.list|
    requires AtTurn(t, j) in seen[j].live && Past(t, AtTurn(t, j), now)
    ensures var n := EventsBefore(t, seen, now, j);
            n < |Ran(t, seen, now)| && Ran(t, seen, now)[n] == AtTurn(t, j)
  {
    var last := |seen| - 1;
    if j < last {
      RanThere(t, seen[..last], now, j);
      assert seen[..last][..j] == seen[..j];
    }
  }

  /** Each of those that ran had its turn. */
  lemma {:induction false} RanAt(t: Timers, seen: seq<Timers>, now: Timespec, k: nat) returns (j: nat)
    requires Sound(t) && |seen| <= |t.list| && k < |Ran(t, seen, now)|
    ensures j < |seen| && k == EventsBefore(t, seen, now, j) && Ran(t, seen, now)[k] == AtTurn(t, j)
    ensures AtTurn(t, j) in seen[j].live && Past(t, AtTurn(t, j), now)
  {
    var last := |seen| - 1;
    if k < |Ran(t, seen[..last], now)| {
      j := RanAt(t, seen[..last], now, k);
      assert seen[..last][..j] == seen[..j];
    } else {
      j := last;
    }
  }

  /** Nothing fires early or after it was cancelled: each event of a pass is that of a due alarm armed just then. */
  lemma FiresItsAlarm(s: Status, seen: seq<Timers>, now: Timespec, events: seq<M.Event>, t: Status, k: nat)
    returns (c: Callback)
    requires PassDone(s, seen, now, events, t) && k < |events|
    ensures Lock.Runs(c, events[k]) && AlarmFor(ViewAt(s.at.view, events, k), c).Some?
    ensures DueTime(AlarmFor(ViewAt(s.at.view, events, k), c).value) < Nanos(now)
  {
    var j := RanAt(s.timers, seen, now, k);
    FollowedAt(s.timers, seen, now, s.at.view, events, j);
    var a := AtTurn(s.timers, j);
    var timer := s.timers.nodes[a];
    c := timer.callback;
    assert seen[j].nodes[a] == timer && t.timers.nodes[a] == timer;
    DeadlineExact(timer.alarm.at, timer.alarm.ms);
    ExpiredExact(Deadline(timer.alarm.at, timer.alarm.ms), now);
  }

  lemma OneCallback(c: Callback, d: Callback, e: M.Event)
    requires Lock.Runs(c, e) && Lock.Runs(d, e)
    ensures c == d && M.FromTimer(e)
  {}

  /** A timer that runs was live when the pass began. */
  lemma RanLive(s: Status, seen: seq<Timers>, now: Timespec, events: seq<M.Event>, t: Status, k: nat)
    requires PassDone(s, seen, now, events, t) && k < |events|
    ensures Ran(s.timers, seen, now)[k] in s.timers.live
  {
    var j := RanAt(s.timers, seen, now, k);
    FollowedAt(s.timers, seen, now, s.at.view, events, j);
    assert AtTurn(s.timers, j) in s.timers.list;
  }

  /** No alarm fires twice in a pass. */
  lemma FiresOnce(s: Status, seen: seq<Timers>, now: Timespec, events: seq<M.Event>, t: Status,
                  j: nat, k: nat, c: Callback)
    requires PassDone(s, seen, now, events, t) && OneEach(s.timers) && j < k < |events|
    ensures !(Lock.Runs(c, events[j]) && Lock.Runs(c, events[k]))
  {
    var ran := Ran(s.timers, seen, now);
    RanLive(s, seen, now, events, t, j);
    RanLive(s, seen, now, events, t, k);
    RanInOrder(s.timers, seen, now, ran);
    if Lock.Runs(c, events[j]) && Lock.Runs(c, events[k]) {
      OneCallback(c, s.timers.nodes[ran[j]].callback, events[j]);
      OneCallback(c, s.timers.nodes[ran[k]].callback, events[k]);
      assert false;
    }
  }

  // ---------------------------------------------------------------- every alarm that is due

  /** The event of a timer changes its own alarm, or it is a repeated key, which may arm or cancel two others. */
  lemma TimerChanges(v: M.View, e: M.Event, c: Callback)
    requires M.FromTimer(e) && AlarmFor(M.Step(v, e), c) != AlarmFor(v, c)
    ensures Lock.Runs(c, e) || (e.RepeatFires? && (c == SetAuthIdle || c == ClearPassword))
  {
    if e.RepeatFires? && e.seat < |v.seats| {
      KeyLeavesClock(v.core, v.seats[e.seat], e);
    }
  }

  lemma KeyLeavesClock(core: M.Core, s: M.SeatView, e: M.Event)
    requires e.RepeatFires?
    ensures M.CoreStep(core, s, e).alarms.clock == core.alarms.clock
  {}

  /**
   An alarm that is overdue when the pass reads the clock fires in that pass, unless it hides a message or clears the
   password and a repeated key of the same pass changed it before.
   */
  lemma DueAlarmFires(s: Status, seen: seq<Timers>, now: Timespec, events: seq<M.Event>, t: Status, c: Callback)
    returns (k: nat)
    requires PassDone(s, seen, now, events, t)
    requires AlarmFor(s.at.view, c).Some? && Overdue(AlarmFor(s.at.view, c).value, now)
    ensures k < |events| && AlarmFor(ViewAt(s.at.view, events, k), c) == AlarmFor(s.at.view, c)
    ensures Lock.Runs(c, events[k]) || (events[k].RepeatFires? && (c == SetAuthIdle || c == ClearPassword))
  {
    var n := |events|;
    assert events[..n] == events;
    if AlarmFor(t.at.view, c).Some? {
      NothingOverdue(s, seen, now, events, t, c);
    }
    k := ChangedBySome(s.at.view, events, n, c);
    ChangedByTimer(s.timers, Ran(s.timers, seen, now), s.at.view, events, k, c);
  }

  /** What changed an alarm in a pass was its own timer or a repeated key. */
  lemma ChangedByTimer(t: Timers, ran: seq<Address>, v: M.View, events: seq<M.Event>, k: nat, c: Callback)
    requires Account(t, ran, events) && Changes(v, events, k, c)
    ensures Lock.Runs(c, events[k]) || (events[k].RepeatFires? && (c == SetAuthIdle || c == ClearPassword))
  {
    OneCallback(t.nodes[ran[k]].callback, t.nodes[ran[k]].callback, events[k]);
    assert events[..k + 1][..k] == events[..k];
    TimerChanges(ViewAt(v, events, k), events[k], c);
  }

  /** So in every turn of the main loop: whatever is overdue when its timers are looked at fires, but for those two. */
  lemma TurnFiresDue(s: Status, r: Round, turn: Turn, t: Status, c: Callback) returns (k: nat)
    requires TurnDone(s, r, turn, t)
    requires var v := End(turn.calls).at.view; AlarmFor(v, c).Some? && Overdue(AlarmFor(v, c).value, turn.now)
    ensures k < |turn.timers|
    ensures Lock.Runs(c, turn.timers[k]) || (turn.timers[k].RepeatFires? && (c == SetAuthIdle || c == ClearPassword))
  {
    k := DueAlarmFires(End(turn.calls), turn.seen, turn.now, turn.timers, t, c);
  }

  lemma SleptInTime(s: Status, turn: Turn, c: Callback, alarm: Alarm, now: Timespec)
    requires Slept(s, turn) && AlarmFor(s.at.view, c) == Some(alarm) && now == Begin(turn.calls).clock
    requires alarm.ms <= INT_MAX && InSight(Deadline(alarm.at, alarm.ms), now)
    ensures turn.timeout * NANOS_PER_MS < Max(0, DueTime(alarm) - Nanos(now)) + NANOS_PER_MS
  {
    var i := ListedAlarm(s.timers, s.at.view, now, c);
    TimeoutBounded(turn.timeout, Expiries(s.timers), now, i, alarm);
  }

  /**
   In every turn `poll` is told to wait for no armed alarm longer than until it is due, by less than a millisecond,
   unless it is more than 2^31 ms past.
   */
  lemma WakesInTime(s: Status, r: Round, turn: Turn, t: Status, c: Callback, alarm: Alarm, now: Timespec)
    requires TurnMade(s, r, turn, t) && AlarmFor(s.at.view, c) == Some(alarm) && now == Begin(turn.calls).clock
    requires alarm.ms <= INT_MAX && InSight(Deadline(alarm.at, alarm.ms), now)
    ensures turn.timeout * NANOS_PER_MS < Max(0, DueTime(alarm) - Nanos(now)) + NANOS_PER_MS
  {
    SleptInTime(s, turn, c, alarm, now);
  }

  lemma ListedAlarm(t: Timers, v: M.View, now: Timespec, c: Callback) returns (i: nat)
    requires Carries(t, v) && Timed(t, now) && AlarmFor(v, c).Some?
    ensures var alarm := AlarmFor(v, c).value;
            && i < |t.list| && Expiries(t)[i] == Deadline(alarm.at, alarm.ms)
            && Normal(alarm.at) && Nanos(alarm.at) <= Nanos(now)
  {
    var a :| a in t.live && t.nodes[a] == Timer(c, AlarmFor(v, c).value);
    assert a in t.list;
    i :| 0 <= i < |t.list| && t.list[i] == a;
  }

  /**
   At its turn an overdue timer runs exactly if the alarm it carries is still what is armed: exactly if no earlier turn
   of the pass has changed it.
   */
  lemma RunsIfArmed(s: Status, seen: seq<Timers>, now: Timespec, events: seq<M.Event>, t: Status, j: nat)
    requires PassDone(s, seen, now, events, t) && OneEach(s.timers) && j < |s.timers.list|
    requires var a := AtTurn(s.timers, j); a in s.timers.live && Overdue(s.timers.nodes[a].alarm, now)
    ensures var a, n := AtTurn(s.timers, j), EventsBefore(s.timers, seen, now, j);
            && n <= |events|
            && (a in Ran(s.timers, seen, now) <==>
                AlarmFor(ViewAt(s.at.view, events, n), s.timers.nodes[a].callback) == Some(s.timers.nodes[a].alarm))
  {
    var a, n := AtTurn(s.timers, j), EventsBefore(s.timers, seen, now, j);
    var timer := s.timers.nodes[a];
    FollowedAt(s.timers, seen, now, s.at.view, events, j);
    RanExactly(s.timers, seen, now, j);
    assert t.timers.nodes[a] == timer && seen[j].nodes[a] == timer;
    OverdueIsPast(timer.alarm, now);
    if AlarmFor(ViewAt(s.at.view, events, n), timer.callback) == Some(timer.alarm) {
      StillLive(s.timers, seen[j], now, ViewAt(s.at.view, events, n), a);
    }
  }

  lemma StillLive(t: Timers, u: Timers, now: Timespec, v: M.View, a: Address)
    requires Sound(t) && Carries(u, v) && OneEach(t) && Since(t, now, u) && t.nodes <= u.nodes
    requires forall b :: b in u.live ==> b in t.live || |t.nodes| <= b
    requires a in t.live && Overdue(t.nodes[a].alarm, now)
    requires AlarmFor(v, t.nodes[a].callback) == Some(t.nodes[a].alarm)
    ensures a in u.live
  {
    var b :| b in u.live && u.nodes[b] == t.nodes[a];
    if b < |t.nodes| {
      assert b in t.live && t.nodes[b] == u.nodes[b];
    }
  }
}

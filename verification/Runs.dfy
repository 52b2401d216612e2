/**
 What a run of the main loop is told and what it does, as values: arrivals, turns, the events they
 account for, and the order of what the session says (main.c:354-391, main.c:481-529).
 */
module Runs {
  import opened Options
  import opened Utf8
  import opened Deadlines
  import opened EventLoop
  import opened FdTable
  import opened Lock
  import opened Pipes
  import opened Sequences
  import opened Auth
  import M = Machine

  /** Whether the buffers a repaint needs can be had. */
  datatype Room = Room(background: bool, indicator: bool)

  /** What the compositor can send. */
  datatype Arrival =
    | Told(signal: Signal)
    | ConfigureSent(surface: nat, width: nat, height: nat)
    | FrameEvent(surface: nat)
    | ReleaseSent(surface: nat, buffer: int)
    | GeometryEvent(surface: nat)
    | ScaleEvent(surface: nat, factor: int)
    | DoneSent(surface: nat)
    | OutputAnnounced
    | OutputGone(surface: nat)
    | LockedSent
    | FinishedSent
    | KeymapBroken

  predicate AboutSurface(a: Arrival) {
    a.ConfigureSent? || a.FrameEvent? || a.ReleaseSent? || a.GeometryEvent? || a.ScaleEvent?
  }

  function SurfaceOf(a: Arrival): nat {
    if AboutSurface(a) || a.DoneSent? || a.OutputGone? then a.surface else 0
  }

  /** An event, and the buffers to be had for each surface while it is handled. */
  datatype Message = Message(arrival: Arrival, room: nat -> Room)

  /** One turn of the main loop: what flushing, polling and dispatching return, and what there is to handle. */
  datatype Round = Round(
    flushed: bool, polled: bool, display: Mask, reply: Mask, term: Mask,
    messages: seq<Message>, dispatched: bool,
    room: nat -> Room, minute: nat, timerRoom: (Address, nat) -> Room)

  /** What main registers before it starts the loop. */
  function Registered(displayFd: int, replyFd: int, termFd: int): seq<Registration> {
    [Registration(displayFd, POLLIN, DisplayIn), Registration(replyFd, POLLIN, ReplyIn),
        Registration(termFd, POLLIN, TermIn)]
  }

  /** Replies were read in order from the front of the pipe. */
  predicate Consumed(before: seq<Byte>, after: seq<Byte>, verdicts: seq<bool>) {
    && |verdicts| <= |before| && after == before[|verdicts|..]
    && forall k :: 0 <= k < |verdicts| ==> (verdicts[k] <==> before[k] != 0)
  }

  /** The state, the requests made, and the replies still to be read. */
  datatype Point = Point(view: M.View, posted: seq<seq<CodePoint>>, stream: seq<Byte>)

  /** From `p`, the events lead to `q`; every reply they read was the next one in the pipe. */
  predicate Reached(p: Point, events: seq<M.Event>, q: Point) {
    M.Leads(p.view, p.posted, events, q.view, q.posted) && Consumed(p.stream, q.stream, M.Verdicts(events))
  }

  lemma ReachedOnward(p: Point, events: seq<M.Event>, q: Point, more: seq<M.Event>, r: Point)
    requires Reached(p, events, q) && Reached(q, more, r)
    ensures Reached(p, events + more, r)
  {
    M.LeadsOnward(p.view, p.posted, events, q.view, q.posted, more, r.view, r.posted);
    M.VerdictsAppend(events, more);
    ConsumedOnward(p.stream, q.stream, r.stream, M.Verdicts(events), M.Verdicts(more));
  }

  lemma ConsumedOnward(before: seq<Byte>, mid: seq<Byte>, after: seq<Byte>, v: seq<bool>, w: seq<bool>)
    requires Consumed(before, mid, v) && Consumed(mid, after, w)
    ensures Consumed(before, after, v + w)
  {
    forall k | 0 <= k < |v + w|
      ensures (v + w)[k] <==> before[k] != 0
    {
      if k >= |v| {
        assert mid[k - |v|] == before[k];
      }
    }
  }

  lemma ReachedUnread(p: Point, events: seq<M.Event>, q: Point)
    requires M.Leads(p.view, p.posted, events, q.view, q.posted) && M.Verdicts(events) == [] && p.stream == q.stream
    ensures Reached(p, events, q)
  {}

  lemma ReachedReading(p: Point, e: M.Event, q: Point)
    requires M.Leads(p.view, p.posted, [e], q.view, q.posted) && e.ReplyRead?
    requires |p.stream| > 0 && q.stream == p.stream[1..] && (e.success <==> p.stream[0] != 0)
    ensures Reached(p, [e], q)
  {
    assert [e][..0] == [] && M.Verdicts([e]) == [] + [e.success];
  }

  lemma ReachedNothing(p: Point)
    ensures Reached(p, [], p)
  {
    M.LeadsNowhere(p.view, p.posted);
  }

  // ---------------------------------------------------------------- what can be observed

  /** What the session is told, and what it tells. */
  datatype Entry = LockRequested | LockedReceived | ReadinessSent | UnlockRequested

  /** All that was added to the log is `LockedReceived`. */
  predicate OnlyLocked(before: seq<Entry>, after: seq<Entry>) {
    before <= after && forall i :: |before| <= i < |after| ==> after[i] == LockedReceived
  }

  lemma OnlyLockedNext(before: seq<Entry>, mid: seq<Entry>, after: seq<Entry>)
    requires OnlyLocked(before, mid) && OnlyLocked(mid, after)
    ensures OnlyLocked(before, after)
  {
    assert forall i :: |before| <= i < |mid| ==> after[i] == mid[i];
  }

  /** An output that was announced as the `at`-th arrival, and whether it has its lock surface. */
  datatype Output = Output(at: nat, created: bool)

  /** A point, and what else of the client a turn changes. */
  datatype Status = Status(
    at: Point, plan: seq<Outcome>, handled: seq<Arrival>, outputs: seq<Output>, log: seq<Entry>,
    timers: Timers, clock: Timespec)

  /** What every handler leaves in place: no timer is freed, time does not go back, and only the lock is reported. */
  predicate Forward(s: Status, t: Status) {
    Onward(s.timers, s.clock, t.timers, t.clock) && OnlyLocked(s.log, t.log)
  }

  lemma ForwardOnward(s: Status, t: Status, u: Status)
    requires Forward(s, t) && Forward(t, u)
    ensures Forward(s, u)
  {
    OnwardTransitive(s.timers, s.clock, t.timers, t.clock, u.timers, u.clock);
    OnlyLockedNext(s.log, t.log, u.log);
  }

  lemma ForwardSame(s: Status)
    ensures Forward(s, s)
  {}

  /** Only the clock may have been read. */
  predicate Later(s: Status, t: Status) {
    t == s.(clock := t.clock) && Nanos(s.clock) <= Nanos(t.clock)
  }

  /** What was done, newest last, and the statuses between. */
  datatype Trace<X> = Begun(start: Status) | Then(before: Trace<X>, what: X, now: Status)

  function Begin<X>(trace: Trace<X>): Status {
    match trace
    case Begun(s) => s
    case Then(before, _, _) => Begin(before)
  }

  function End<X>(trace: Trace<X>): Status {
    match trace
    case Begun(s) => s
    case Then(_, _, t) => t
  }

  function Length<X>(trace: Trace<X>): nat {
    match trace
    case Begun(_) => 0
    case Then(before, _, _) => Length(before) + 1
  }

  lemma OneThing<X>(trace: Trace<X>)
    requires trace.Then? && Length(trace) <= 1
    ensures trace.before.Begun? && Length(trace.before) == 0 && Begin(trace) == End(trace.before)
  {
    assert Length(trace) == Length(trace.before) + 1;
  }

  // ---------------------------------------------------------------- what the compositor sends

  function Arrivals(messages: seq<Message>): (r: seq<Arrival>)
    ensures |r| == |messages| && forall i :: 0 <= i < |messages| ==> r[i] == messages[i].arrival
  {
    seq(|messages|, i requires 0 <= i < |messages| => messages[i].arrival)
  }

  /** The process ends in the handler: the lock is refused, or a keymap cannot be mapped or compiled. */
  predicate Kills(a: Arrival) {
    a.FinishedSent? || a.KeymapBroken?
  }

  predicate AnyKills(messages: seq<Message>) {
    exists k :: 0 <= k < |messages| && Kills(messages[k].arrival)
  }

  /** The signal an arrival brings to the state while `seats` seats are announced. */
  function SignalOf(a: Arrival, seats: nat): seq<Signal> {
    if a.Told? && !a.signal.TermSignal? && Addressed(a.signal, seats) then [a.signal] else []
  }

  function Announced(a: Arrival): nat {
    if a.Told? && a.signal.SeatAnnounced? then 1 else 0
  }

  /** What an arrival adds to the log. */
  function Heard(a: Arrival): seq<Entry> {
    if a.LockedSent? then [LockedReceived] else []
  }

  /**
   What an arrival, the `at`-th, does to the outputs: one is added, one goes, or one that is complete gets its lock
   surface if the main loop runs.
   */
  function OutputStep(outputs: seq<Output>, running: bool, at: nat, a: Arrival): seq<Output> {
    match a
    case OutputAnnounced => outputs + [Output(at, false)]
    case OutputGone(i) => if i < |outputs| then outputs[..i] + outputs[i + 1..] else outputs
    case DoneSent(i) => if i < |outputs| && running then outputs[i := outputs[i].(created := true)] else outputs
    case _ => outputs
  }

  function OutputsAfter(outputs: seq<Output>, running: bool, at: nat, arrivals: seq<Arrival>): seq<Output> {
    if arrivals == [] then outputs
    else
      var n := |arrivals| - 1;
      OutputStep(OutputsAfter(outputs, running, at, arrivals[..n]), running, at + n, arrivals[n])
  }

  lemma OutputsNext(outputs: seq<Output>, running: bool, at: nat, arrivals: seq<Arrival>, a: Arrival)
    ensures OutputsAfter(outputs, running, at, arrivals + [a])
         == OutputStep(OutputsAfter(outputs, running, at, arrivals), running, at + |arrivals|, a)
  {
    assert (arrivals + [a])[..|arrivals|] == arrivals;
  }

  lemma {:induction false} OutputsOnward(outputs: seq<Output>, running: bool, at: nat,
                                         arrivals: seq<Arrival>, more: seq<Arrival>)
    ensures OutputsAfter(outputs, running, at, arrivals + more)
         == OutputsAfter(OutputsAfter(outputs, running, at, arrivals), running, at + |arrivals|, more)
  {
    if more == [] {
      assert arrivals + more == arrivals;
    } else {
      var before, a := more[..|more| - 1], more[|more| - 1];
      assert arrivals + more == (arrivals + before) + [a];
      OutputsOnward(outputs, running, at, arrivals, before);
      OutputsNext(outputs, running, at, arrivals + before, a);
    }
  }

  lemma OutputsAdded(outputs: seq<Output>, running: bool, at: nat, arrivals: seq<Arrival>,
                     after: seq<Output>, later: nat, a: Arrival)
    requires after == OutputsAfter(outputs, running, at, arrivals) && later == at + |arrivals|
    ensures OutputStep(after, running, later, a) == OutputsAfter(outputs, running, at, arrivals + [a])
  {
    OutputsNext(outputs, running, at, arrivals, a);
  }

  lemma OutputsJoined(outputs: seq<Output>, running: bool, at: nat, arrivals: seq<Arrival>,
                      after: seq<Output>, later: nat, more: seq<Arrival>)
    requires after == OutputsAfter(outputs, running, at, arrivals) && later == at + |arrivals|
    ensures OutputsAfter(after, running, later, more) == OutputsAfter(outputs, running, at, arrivals + more)
  {
    OutputsOnward(outputs, running, at, arrivals, more);
  }

  /** The seats announced when `arrivals` have been handled. */
  function SeatsAfter(arrivals: seq<Arrival>, seats: nat): nat {
    if arrivals == [] then seats
    else SeatsAfter(arrivals[..|arrivals| - 1], seats) + Announced(arrivals[|arrivals| - 1])
  }

  /** All signals that arrivals bring. */
  function Delivered(arrivals: seq<Arrival>, seats: nat): seq<Signal> {
    if arrivals == [] then []
    else
      var before := arrivals[..|arrivals| - 1];
      Delivered(before, seats) + SignalOf(arrivals[|arrivals| - 1], SeatsAfter(before, seats))
  }

  /** The signals told, in order. */
  function SignalsTold(arrivals: seq<Arrival>): seq<Signal> {
    if arrivals == [] then []
    else
      var n := |arrivals| - 1;
      SignalsTold(arrivals[..n]) + if arrivals[n].Told? then [arrivals[n].signal] else []
  }

  /** No signal that the compositor can send to a seat it announced is lost. */
  lemma {:induction false} AllDelivered(arrivals: seq<Arrival>, seats: nat)
    requires forall k :: 0 <= k < |arrivals| && arrivals[k].Told? ==>
               arrivals[k].signal != TermSignal
               && match arrivals[k].signal
                  case KeyDown(i, _, _) => i < seats
                  case KeyUp(i) => i < seats
                  case FocusLost(i) => i < seats
                  case RepeatRate(i, _, _) => i < seats
                  case _ => true
    ensures Delivered(arrivals, seats) == SignalsTold(arrivals) && SeatsAfter(arrivals, seats) >= seats
  {
    if arrivals != [] {
      AllDelivered(arrivals[..|arrivals| - 1], seats);
    }
  }

  function AllHeard(arrivals: seq<Arrival>): seq<Entry> {
    if arrivals == [] then [] else AllHeard(arrivals[..|arrivals| - 1]) + Heard(arrivals[|arrivals| - 1])
  }

  /** One event for each signal, in order. */
  predicate Matches(signals: seq<Signal>, events: seq<M.Event>) {
    |signals| == |events| && forall i :: 0 <= i < |events| ==> Meets(signals[i], events[i])
  }

  /** Events that neither start nor stop the main loop, nor read a reply. */
  predicate Quiet(events: seq<M.Event>) {
    forall i :: 0 <= i < |events| ==>
      !events[i].Start? && !events[i].ReplyRead? && !events[i].Terminate? && !events[i].DisplayFailed?
  }

  lemma {:induction false} QuietReadsNothing(events: seq<M.Event>)
    requires Quiet(events)
    ensures M.Verdicts(events) == []
  {
    if events != [] {
      QuietReadsNothing(events[..|events| - 1]);
    }
  }

  /** Messages do not touch the main loop's flag. */
  lemma StillStopped(p: Point, events: seq<M.Event>, q: Point)
    requires Reached(p, events, q) && Quiet(events)
    ensures q.view.core.running <==> p.view.core.running
  {
    M.StopsOnly(p.view, events);
  }

  /** What every part of a turn does to a status: its events, and nothing to the pipe unless it reads it. */
  predicate Moves(s: Status, events: seq<M.Event>, t: Status) {
    Reached(s.at, events, t.at) && Forward(s, t)
  }

  lemma MovesOnward(s: Status, events: seq<M.Event>, t: Status, more: seq<M.Event>, u: Status)
    requires Moves(s, events, t) && Moves(t, more, u)
    ensures Moves(s, events + more, u)
  {
    ReachedOnward(s.at, events, t.at, more, u.at);
    ForwardOnward(s, t, u);
  }

  lemma MovesNot(s: Status)
    ensures Moves(s, [], s)
  {
    ReachedNothing(s.at);
    ForwardSame(s);
  }

  /** The step of one event that reads no reply. */
  lemma MovesOne(s: Status, e: M.Event, t: Status)
    requires t.at.view == M.Step(s.at.view, e) && t.at.posted == s.at.posted + M.Posts(s.at.view, e)
    requires t.at.stream == s.at.stream && !e.ReplyRead? && Forward(s, t)
    ensures Moves(s, [e], t)
  {
    M.LeadsOne(s.at.view, s.at.posted, e, t.at.view, t.at.posted);
    assert [e][..0] == [] && M.Verdicts([e][..0]) == [];
    ReachedUnread(s.at, [e], t.at);
  }

  /** The step a signal makes keeps what holds of every state. */
  lemma SignalStep(s: Status, signal: Signal, e: M.Event, t: Status)
    requires t.at.view == M.Step(s.at.view, e) && t.at.posted == s.at.posted + M.Posts(s.at.view, e)
    requires t.at.stream == s.at.stream && Meets(signal, e) && Forward(s, t)
    requires M.Good(s.at.view.core) && M.Fits(s.at.view.core)
    ensures Moves(s, [e], t) && M.Good(t.at.view.core) && M.Fits(t.at.view.core)
    ensures |t.at.view.seats| == |s.at.view.seats| + if signal.SeatAnnounced? then 1 else 0
  {
    MovesOne(s, e, t);
    M.StepGood(s.at.view, e);
    M.StepSeats(s.at.view, e);
  }

  /** The step of a reply. */
  lemma MovesReading(s: Status, e: M.Event, t: Status)
    requires t.at.view == M.Step(s.at.view, e) && t.at.posted == s.at.posted && Forward(s, t) && e.ReplyRead?
    requires |s.at.stream| > 0 && t.at.stream == s.at.stream[1..] && (e.success <==> s.at.stream[0] != 0)
    ensures Moves(s, [e], t)
  {
    M.LeadsOne(s.at.view, s.at.posted, e, t.at.view, t.at.posted);
    ReachedReading(s.at, e, t.at);
  }

  /** One arrival has been handled. */
  predicate ArrivalDone(s: Status, a: Arrival, events: seq<M.Event>, t: Status) {
    && Moves(s, events, t) && Quiet(events) && Matches(SignalOf(a, |s.at.view.seats|), events)
    && |t.at.view.seats| == |s.at.view.seats| + Announced(a)
    && t.handled == s.handled + [a] && t.log == s.log + Heard(a) && t.plan == s.plan
    && t.outputs == OutputStep(s.outputs, s.at.view.core.running, |s.handled|, a)
  }

  /** A signal has been handled, or was not for a seat that is announced. */
  predicate SignalDone(s: Status, signal: Signal, events: seq<M.Event>, t: Status) {
    && Moves(s, events, t) && Quiet(events) && Matches(SignalOf(Told(signal), |s.at.view.seats|), events)
    && |t.at.view.seats| == |s.at.view.seats| + Announced(Told(signal))
    && t.handled == s.handled && t.outputs == s.outputs && t.log == s.log && t.plan == s.plan
  }

  lemma SignalTaken(s: Status, signal: Signal, e: M.Event, t: Status)
    requires Moves(s, [e], t) && Meets(signal, e) && !signal.TermSignal? && Addressed(signal, |s.at.view.seats|)
    requires |t.at.view.seats| == |s.at.view.seats| + if signal.SeatAnnounced? then 1 else 0
    requires t.handled == s.handled && t.outputs == s.outputs && t.log == s.log && t.plan == s.plan
    ensures SignalDone(s, signal, [e], t)
  {}

  lemma SignalDropped(s: Status, signal: Signal)
    requires signal.TermSignal? || !Addressed(signal, |s.at.view.seats|)
    ensures SignalDone(s, signal, [], s)
  {
    MovesNot(s);
  }

  lemma SignalArrived(s: Status, signal: Signal, events: seq<M.Event>, t: Status)
    requires SignalDone(s, signal, events, t)
    ensures ArrivalDone(s, Told(signal), events, t.(handled := t.handled + [Told(signal)]))
  {}

  lemma OtherArrived(s: Status, a: Arrival, t: Status)
    requires !a.Told?
    requires t == s.(handled := s.handled + [a], log := s.log + Heard(a),
                     outputs := OutputStep(s.outputs, s.at.view.core.running, |s.handled|, a))
    ensures ArrivalDone(s, a, [], t)
  {
    MovesNot(s);
  }

  /** These arrivals have been handled. */
  predicate ArrivalsDone(s: Status, arrivals: seq<Arrival>, events: seq<M.Event>, t: Status) {
    && Moves(s, events, t) && Quiet(events) && Matches(Delivered(arrivals, |s.at.view.seats|), events)
    && |t.at.view.seats| == SeatsAfter(arrivals, |s.at.view.seats|)
    && t.handled == s.handled + arrivals && t.log == s.log + AllHeard(arrivals) && t.plan == s.plan
    && t.outputs == OutputsAfter(s.outputs, s.at.view.core.running, |s.handled|, arrivals)
  }

  lemma ArrivalsNone(s: Status)
    ensures ArrivalsDone(s, [], [], s)
  {
    MovesNot(s);
  }

  lemma ArrivalsNext(s: Status, arrivals: seq<Arrival>, events: seq<M.Event>, t: Status,
                     a: Arrival, more: seq<M.Event>, u: Status)
    requires ArrivalsDone(s, arrivals, events, t) && ArrivalDone(t, a, more, u)
    ensures ArrivalsDone(s, arrivals + [a], events + more, u)
  {
    MovesOnward(s, events, t, more, u);
    DeliveredNext(arrivals, a, |s.at.view.seats|);
    MatchesOnward(Delivered(arrivals, |s.at.view.seats|), events, SignalOf(a, |t.at.view.seats|), more);
    Regroup(s.handled, arrivals, [a]);
    Regroup(s.log, AllHeard(arrivals), Heard(a));
    StillStopped(s.at, events, t.at);
    OutputsAdded(s.outputs, s.at.view.core.running, |s.handled|, arrivals, t.outputs, |t.handled|, a);
  }

  /** The first `n` messages have been handled, and whether the last of them ends the process. */
  predicate Handled(s: Status, messages: seq<Message>, n: nat, finished: bool, events: seq<M.Event>, t: Status) {
    && n <= |messages| && ArrivalsDone(s, Arrivals(messages)[..n], events, t)
    && (finished <==> n > 0 && Kills(messages[n - 1].arrival))
    && (forall k :: 0 <= k < n - 1 ==> !Kills(messages[k].arrival))
    && t.at.view.core.running == s.at.view.core.running
  }

  lemma HandledNone(s: Status, messages: seq<Message>)
    ensures Handled(s, messages, 0, false, [], s)
  {
    ArrivalsNone(s);
    assert Arrivals(messages)[..0] == [];
  }

  lemma HandledNext(s: Status, messages: seq<Message>, n: nat, events: seq<M.Event>, t: Status,
                    finished: bool, more: seq<M.Event>, u: Status)
    requires Handled(s, messages, n, false, events, t) && n < |messages| && ArrivalDone(t, messages[n].arrival, more, u)
    requires finished <==> Kills(messages[n].arrival)
    ensures Handled(s, messages, n + 1, finished, events + more, u)
  {
    PrefixNext(Arrivals(messages), n);
    ArrivalsNext(s, Arrivals(messages)[..n], events, t, messages[n].arrival, more, u);
    StillStopped(t.at, more, u.at);
  }

  lemma PrefixNext(arrivals: seq<Arrival>, n: nat)
    requires n < |arrivals|
    ensures arrivals[..n + 1] == arrivals[..n] + [arrivals[n]]
  {}

  lemma HandledAll(s: Status, messages: seq<Message>, n: nat, finished: bool, events: seq<M.Event>, t: Status)
    requires Handled(s, messages, n, finished, events, t) && (finished || n == |messages|)
    ensures finished <==> AnyKills(messages)
    ensures !finished ==> ArrivalsDone(s, Arrivals(messages), events, t)
    ensures OnlyLocked(s.log, t.log) && t.at.view.core.running == s.at.view.core.running
  {
    assert Arrivals(messages)[..|messages|] == Arrivals(messages);
  }

  /** Arrivals after others. */
  lemma ArrivalsOnward(s: Status, arrivals: seq<Arrival>, events: seq<M.Event>, t: Status,
                       more: seq<Arrival>, others: seq<M.Event>, u: Status)
    requires ArrivalsDone(s, arrivals, events, t) && ArrivalsDone(t, more, others, u)
    ensures ArrivalsDone(s, arrivals + more, events + others, u)
  {
    var seats := |s.at.view.seats|;
    MovesOnward(s, events, t, others, u);
    DeliveredOnward(arrivals, more, seats);
    MatchesOnward(Delivered(arrivals, seats), events, Delivered(more, |t.at.view.seats|), others);
    Regroup(s.handled, arrivals, more);
    Regroup(s.log, AllHeard(arrivals), AllHeard(more));
    StillStopped(s.at, events, t.at);
    OutputsJoined(s.outputs, s.at.view.core.running, |s.handled|, arrivals, t.outputs, |t.handled|, more);
  }

  lemma {:induction false} DeliveredOnward(arrivals: seq<Arrival>, more: seq<Arrival>, seats: nat)
    ensures SeatsAfter(arrivals + more, seats) == SeatsAfter(more, SeatsAfter(arrivals, seats))
    ensures Delivered(arrivals + more, seats)
            == Delivered(arrivals, seats) + Delivered(more, SeatsAfter(arrivals, seats))
    ensures AllHeard(arrivals + more) == AllHeard(arrivals) + AllHeard(more)
  {
    if more == [] {
      assert arrivals + more == arrivals;
    } else {
      var before, a := more[..|more| - 1], more[|more| - 1];
      assert arrivals + more == (arrivals + before) + [a] && more == before + [a];
      DeliveredOnward(arrivals, before, seats);
      DeliveredNext(arrivals + before, a, seats);
    }
  }

  lemma DeliveredNext(arrivals: seq<Arrival>, a: Arrival, seats: nat)
    ensures Delivered(arrivals + [a], seats) == Delivered(arrivals, seats) + SignalOf(a, SeatsAfter(arrivals, seats))
    ensures SeatsAfter(arrivals + [a], seats) == SeatsAfter(arrivals, seats) + Announced(a)
    ensures AllHeard(arrivals + [a]) == AllHeard(arrivals) + Heard(a)
  {
    assert (arrivals + [a])[..|arrivals|] == arrivals;
  }

  lemma MatchesOnward(signals: seq<Signal>, events: seq<M.Event>, others: seq<Signal>, more: seq<M.Event>)
    requires Matches(signals, events) && Matches(others, more) && Quiet(events) && Quiet(more)
    ensures Matches(signals + others, events + more) && Quiet(events + more)
  {}

  // ---------------------------------------------------------------- callbacks

  /** The handlers a turn's poll results ask for, in registration order. */
  function DueCalls(r: Round): seq<Handler> {
    IfReady(DisplayIn, r.display) + IfReady(ReplyIn, r.reply) + IfReady(TermIn, r.term)
  }

  function IfReady(h: Handler, mask: Mask): seq<Handler> {
    if Ready(PollFd(0, POLLIN, mask)) then [h] else []
  }

  /** The reply pipe is hung up with nothing to read, or what there is cannot be read. */
  predicate PipeAborts(mask: Mask, plan: seq<Outcome>, stream: seq<Byte>) {
    if mask & POLLIN != 0 then TakeReply(plan, stream).result != Complete else mask & (POLLHUP | POLLERR) != 0
  }

  /** The process ends in a callback: an arrival ends it, or the reply pipe is closed or cannot be read. */
  predicate CallAborts(h: Handler, r: Round, s: Status) {
    match h
    case DisplayIn => AnyKills(r.messages)
    case ReplyIn => PipeAborts(r.reply, s.plan, s.at.stream)
    case _ => false
  }

  /** The display's events: one for each signal delivered, and a failure exactly if the dispatch failed. */
  predicate DisplayPart(r: Round, seats: nat, events: seq<M.Event>) {
    var signals := Delivered(Arrivals(r.messages), seats);
    && |events| == |signals| + (if r.dispatched then 0 else 1)
    && Matches(signals, events[..|signals|]) && Quiet(events[..|signals|])
    && (!r.dispatched ==> events[|signals|] == M.DisplayFailed)
  }

  /** One callback has been made. */
  predicate CallDone(s: Status, h: Handler, r: Round, events: seq<M.Event>, t: Status) {
    && !CallAborts(h, r, s) && Moves(s, events, t)
    && match h
       case DisplayIn =>
         && DisplayPart(r, |s.at.view.seats|, events) && t.plan == s.plan && t.at.stream == s.at.stream
         && t.handled == s.handled + Arrivals(r.messages) && t.log == s.log + AllHeard(Arrivals(r.messages))
         && t.outputs == OutputsAfter(s.outputs, s.at.view.core.running, |s.handled|, Arrivals(r.messages))
       case ReplyIn =>
         && |events| == 1 && events[0].ReplyRead? && t.plan == TakeReply(s.plan, s.at.stream).plan
         && t.handled == s.handled && t.outputs == s.outputs && t.log == s.log
       case _ =>
         && events == (if h == TermIn then [M.Terminate] else []) && t.plan == s.plan && t.at.stream == s.at.stream
         && t.handled == s.handled && t.outputs == s.outputs && t.log == s.log
  }

  lemma DisplayedWell(s: Status, r: Round, events: seq<M.Event>, t: Status)
    requires ArrivalsDone(s, Arrivals(r.messages), events, t) && t.at.stream == s.at.stream
    requires r.dispatched && !AnyKills(r.messages)
    ensures CallDone(s, DisplayIn, r, events, t)
  {
    assert events[..|events|] == events;
  }

  lemma DisplayedBadly(s: Status, r: Round, events: seq<M.Event>, t: Status, u: Status)
    requires ArrivalsDone(s, Arrivals(r.messages), events, t) && t.at.stream == s.at.stream
    requires !r.dispatched && !AnyKills(r.messages)
    requires Moves(t, [M.DisplayFailed], u) && u == t.(at := t.at.(view := u.at.view, posted := u.at.posted))
    ensures CallDone(s, DisplayIn, r, events + [M.DisplayFailed], u)
  {
    MovesOnward(s, events, t, [M.DisplayFailed], u);
    assert (events + [M.DisplayFailed])[..|events|] == events;
  }

  /** The first callbacks due have been made, one after the other. */
  predicate CallsDone(r: Round, calls: Trace<seq<M.Event>>) {
    match calls
    case Begun(_) => true
    case Then(before, events, t) =>
      && CallsDone(r, before) && Length(before) < |DueCalls(r)|
      && CallDone(End(before), DueCalls(r)[Length(before)], r, events, t)
  }

  /** From `s`, the first `n` callbacks due have been made and led to `t`. */
  predicate CallsMade(s: Status, r: Round, n: nat, calls: Trace<seq<M.Event>>, t: Status) {
    CallsDone(r, calls) && Begin(calls) == s && Length(calls) == n && End(calls) == t
  }

  lemma CallsNext(s: Status, r: Round, n: nat, calls: Trace<seq<M.Event>>, t: Status,
                  events: seq<M.Event>, u: Status)
    requires CallsMade(s, r, n, calls, t) && n < |DueCalls(r)| && CallDone(t, DueCalls(r)[n], r, events, u)
    ensures CallsMade(s, r, n + 1, Then(calls, events, u), u)
  {}

  /** A turn in status `s` ends the process: decided before any of its callbacks runs. */
  predicate Aborts(r: Round, s: Status) {
    || (Ready(PollFd(0, POLLIN, r.display)) && CallAborts(DisplayIn, r, s))
    || (Ready(PollFd(0, POLLIN, r.reply)) && CallAborts(ReplyIn, r, s))
  }

  /** The process ends in a handler of one of these messages: the lock is refused, or a keymap is broken. */
  predicate Deadly(messages: seq<Message>) {
    exists k :: 0 <= k < |messages| && (messages[k].arrival == FinishedSent || messages[k].arrival == KeymapBroken)
  }

  lemma KillsExactly(messages: seq<Message>)
    ensures AnyKills(messages) <==> Deadly(messages)
  {}

  /** The child's end of the reply pipe is closed, and nothing is left to read. */
  predicate Crashed(r: Round) {
    r.reply & POLLIN == 0 && (r.reply & POLLHUP != 0 || r.reply & POLLERR != 0)
  }

  /**
   In terms of what `poll` reported and what there is to receive: a turn ends the process exactly if the display has
   something and a message is deadly, the reply pipe can be read and the read fails, or the child has crashed.
   */
  lemma AbortsExactly(r: Round, s: Status)
    ensures Aborts(r, s) <==>
            || (Concerns(POLLIN, r.display) && Deadly(r.messages))
            || (r.reply & POLLIN != 0 && TakeReply(s.plan, s.at.stream).result != Complete)
            || Crashed(r)
  {
    KillsExactly(r.messages);
    ReadyExactly(PollFd(0, POLLIN, r.display));
    ReadyExactly(PollFd(0, POLLIN, r.reply));
    HangUpExactly(r.reply);
  }

  lemma HangUpExactly(mask: Mask)
    ensures mask & (POLLHUP | POLLERR) != 0 <==> mask & POLLHUP != 0 || mask & POLLERR != 0
  {}

  /** A handler is called exactly if its descriptor can be read, is hung up or in error. */
  lemma DueExactly(r: Round)
    ensures DisplayIn in DueCalls(r) <==> Concerns(POLLIN, r.display)
    ensures ReplyIn in DueCalls(r) <==> Concerns(POLLIN, r.reply)
    ensures TermIn in DueCalls(r) <==> Concerns(POLLIN, r.term)
  {
    ReadyExactly(PollFd(0, POLLIN, r.display));
    ReadyExactly(PollFd(0, POLLIN, r.reply));
    ReadyExactly(PollFd(0, POLLIN, r.term));
    assert |IfReady(DisplayIn, r.display)| > 0 ==> IfReady(DisplayIn, r.display)[0] == DisplayIn;
    assert |IfReady(ReplyIn, r.reply)| > 0 ==> IfReady(ReplyIn, r.reply)[0] == ReplyIn;
    assert |IfReady(TermIn, r.term)| > 0 ==> IfReady(TermIn, r.term)[0] == TermIn;
  }

  /** How the main loop ends: the flag was cleared, a call failed, or the process ended inside a callback. */
  datatype Left = Cleared | FlushFailed | PollFailed | Aborted | StillRunning

  /** A turn that ends the loop before its timer pass. */
  predicate Ends(left: Left, s: Status, r: Round, t: Status) {
    match left
    case FlushFailed => !r.flushed && t == s
    case PollFailed => r.flushed && !r.polled && Later(s, t)
    case Aborted => r.flushed && r.polled && Aborts(r, s) && OnlyLocked(s.log, t.log)
    case _ => false
  }

  lemma ReplySecond(r: Round, k: nat)
    requires k < |DueCalls(r)| && DueCalls(r)[k] == ReplyIn
    ensures k == 0 || (k == 1 && DueCalls(r)[0] == DisplayIn)
  {}

  lemma DisplayKeepsPipe(s: Status, r: Round, events: seq<M.Event>, t: Status)
    requires CallDone(s, DisplayIn, r, events, t)
    ensures t.plan == s.plan && t.at.stream == s.at.stream
  {}

  /** Until the reply pipe's callback, the pipe is as it was. */
  lemma PipeUntouched(r: Round, calls: Trace<seq<M.Event>>)
    requires CallsDone(r, calls) && Length(calls) < |DueCalls(r)| && DueCalls(r)[Length(calls)] == ReplyIn
    ensures End(calls).plan == Begin(calls).plan && End(calls).at.stream == Begin(calls).at.stream
  {
    ReplySecond(r, Length(calls));
    if calls.Then? {
      OneThing(calls);
      DisplayKeepsPipe(Begin(calls), r, calls.what, calls.now);
    }
  }

  /** Whether a callback aborts can be told when the turn begins. */
  lemma AbortsThere(r: Round, calls: Trace<seq<M.Event>>)
    requires CallsDone(r, calls) && Length(calls) < |DueCalls(r)|
    ensures CallAborts(DueCalls(r)[Length(calls)], r, End(calls)) <==>
            CallAborts(DueCalls(r)[Length(calls)], r, Begin(calls))
  {
    if DueCalls(r)[Length(calls)] == ReplyIn {
      PipeUntouched(r, calls);
    }
    AbortsAlike(DueCalls(r)[Length(calls)], r, End(calls), Begin(calls));
  }

  lemma AbortsAlike(h: Handler, r: Round, s: Status, t: Status)
    requires h == ReplyIn ==> t.plan == s.plan && t.at.stream == s.at.stream
    ensures CallAborts(h, r, s) <==> CallAborts(h, r, t)
  {}

  function CallEvents(calls: Trace<seq<M.Event>>): seq<M.Event> {
    match calls
    case Begun(_) => []
    case Then(before, events, _) => CallEvents(before) + events
  }

  lemma {:induction false} CallsMove(r: Round, calls: Trace<seq<M.Event>>)
    requires CallsDone(r, calls)
    ensures Moves(Begin(calls), CallEvents(calls), End(calls))
  {
    match calls
    case Begun(s) =>
      MovesNot(s);
    case Then(before, events, t) =>
      CallsMove(r, before);
      MovesOnward(Begin(before), CallEvents(before), End(before), events, t);
  }

  /** A callback that ends the process was bound to do so. */
  lemma AbortsIn(r: Round, calls: Trace<seq<M.Event>>, t: Status)
    requires CallsDone(r, calls) && Length(calls) < |DueCalls(r)|
            && CallAborts(DueCalls(r)[Length(calls)], r, End(calls))
    requires r.flushed && r.polled && OnlyLocked(End(calls).log, t.log)
    ensures Ends(Aborted, Begin(calls), r, t)
  {
    AbortsBegun(r, calls);
    CallsSay(r, calls, t.log);
  }

  lemma AbortsBegun(r: Round, calls: Trace<seq<M.Event>>)
    requires CallsDone(r, calls) && Length(calls) < |DueCalls(r)|
    requires CallAborts(DueCalls(r)[Length(calls)], r, End(calls))
    ensures Aborts(r, Begin(calls))
  {
    AbortsThere(r, calls);
  }

  lemma CallsSay(r: Round, calls: Trace<seq<M.Event>>, log: seq<Entry>)
    requires CallsDone(r, calls) && OnlyLocked(End(calls).log, log)
    ensures OnlyLocked(Begin(calls).log, log)
  {
    CallsMove(r, calls);
    OnlyLockedNext(Begin(calls).log, End(calls).log, log);
  }

  lemma LastReturned(r: Round, calls: Trace<seq<M.Event>>)
    requires CallsDone(r, calls) && calls.Then?
    ensures CallsDone(r, calls.before) && Length(calls.before) < |DueCalls(r)|
    ensures !CallAborts(DueCalls(r)[Length(calls.before)], r, Begin(calls.before))
  {
    AbortsThere(r, calls.before);
  }

  lemma {:induction false} CallsAbortNowhere(r: Round, calls: Trace<seq<M.Event>>, j: nat)
    requires CallsDone(r, calls) && j < Length(calls) && j < |DueCalls(r)|
    ensures !CallAborts(DueCalls(r)[j], r, Begin(calls))
    decreases calls
  {
    LastReturned(r, calls);
    if j < Length(calls.before) {
      CallsAbortNowhere(r, calls.before, j);
    } else {
      assert j == Length(calls.before);
    }
  }

  /** When all callbacks due have returned, the turn was not one that ends the process. */
  lemma AbortsNowhere(r: Round, calls: Trace<seq<M.Event>>)
    requires CallsDone(r, calls) && Length(calls) == |DueCalls(r)|
    ensures !Aborts(r, Begin(calls))
  {
    var k := |IfReady(DisplayIn, r.display)|;
    if Ready(PollFd(0, POLLIN, r.display)) {
      assert DueCalls(r)[0] == DisplayIn;
      CallsAbortNowhere(r, calls, 0);
    }
    if Ready(PollFd(0, POLLIN, r.reply)) {
      assert DueCalls(r)[k] == ReplyIn;
      CallsAbortNowhere(r, calls, k);
    }
  }

  /** A callback that can be due, with the mask it is due for. */
  predicate CallFits(c: Call, r: Round) {
    match c.handler
    case DisplayIn => true
    case ReplyIn => c.revents == r.reply && Ready(PollFd(0, POLLIN, c.revents))
    case TermIn => true
    case _ => false
  }

  /** A pipe that is ready without input was hung up. */
  lemma ReadyWithoutInput(mask: Mask)
    requires Ready(PollFd(0, POLLIN, mask)) && mask & POLLIN == 0
    ensures mask & (POLLHUP | POLLERR) != 0
  {}

  /** The calls a walk over the registrations makes are those due. */
  predicate CallsOf(calls: seq<Call>, r: Round) {
    && |calls| == |DueCalls(r)|
    && forall j :: 0 <= j < |calls| ==> calls[j].handler == DueCalls(r)[j] && CallFits(calls[j], r)
  }

  lemma DispatchedCalls(displayFd: int, replyFd: int, termFd: int, r: Round)
    ensures CallsOf(Dispatched(Registered(displayFd, replyFd, termFd), [r.display, r.reply, r.term]), r)
  {
    ThreeCalls(Registration(displayFd, POLLIN, DisplayIn), Registration(replyFd, POLLIN, ReplyIn),
               Registration(termFd, POLLIN, TermIn), r.display, r.reply, r.term);
  }

  lemma ThreeCalls(a: Registration, b: Registration, c: Registration, l: Mask, m: Mask, n: Mask)
    ensures Dispatched([a, b, c], [l, m, n]) == CallFor(a, l) + CallFor(b, m) + CallFor(c, n)
  {
    var none, noMasks := [], [];
    var one, oneMask := none + [a], noMasks + [l];
    var two, twoMasks := one + [b], oneMask + [m];
    DispatchedNext(none, noMasks, a, l, []);
    assert [] + CallFor(a, l) == CallFor(a, l);
    DispatchedNext(one, oneMask, b, m, CallFor(a, l));
    DispatchedNext(two, twoMasks, c, n, CallFor(a, l) + CallFor(b, m));
    assert two + [c] == [a, b, c] && twoMasks + [n] == [l, m, n];
  }

  // ---------------------------------------------------------------- the timer pass

  lemma TimersQuiet(t: Timers, ran: seq<Address>, events: seq<M.Event>)
    requires Account(t, ran, events)
    ensures Quiet(events)
  {
    forall i | 0 <= i < |events|
      ensures !events[i].Start? && !events[i].ReplyRead? && !events[i].Terminate? && !events[i].DisplayFailed?
    {
      assert Runs(t.nodes[ran[i]].callback, events[i]);
    }
  }

  /** One timer pass has been made over the alarms that were armed: an event for each that was due. */
  ghost predicate PassDone(s: Status, seen: seq<Timers>, now: Timespec, events: seq<M.Event>, t: Status) {
    && Reached(s.at, events, t.at) && Passed(s.timers, seen, t.timers, now, events) && |seen| == |s.timers.list|
    && Nanos(s.clock) <= Nanos(now) <= Nanos(t.clock)
    && t.plan == s.plan && t.handled == s.handled && t.outputs == s.outputs && t.log == s.log
    && Carries(t.timers, t.at.view) && M.Good(t.at.view.core) && M.ArmedThroughout(s.at.view, events)
    && Followed(s.timers, seen, now, s.at.view, events) && Timed(t.timers, t.clock) && Normal(now)
  }

  lemma TimersMove(s: Status, seen: seq<Timers>, now: Timespec, events: seq<M.Event>, t: Status)
    requires M.Leads(s.at.view, s.at.posted, events, t.at.view, t.at.posted) && t.at.stream == s.at.stream
    requires Passed(s.timers, seen, t.timers, now, events) && |seen| == |s.timers.list|
    requires Nanos(s.clock) <= Nanos(now) <= Nanos(t.clock)
    requires t.plan == s.plan && t.handled == s.handled && t.outputs == s.outputs && t.log == s.log
    requires Carries(t.timers, t.at.view) && M.Good(t.at.view.core) && M.ArmedThroughout(s.at.view, events)
    requires Followed(s.timers, seen, now, s.at.view, events) && Timed(t.timers, t.clock) && Normal(now)
    ensures PassDone(s, seen, now, events, t)
  {
    TimersQuiet(s.timers, Ran(s.timers, seen, now), events);
    QuietReadsNothing(events);
    ReachedUnread(s.at, events, t.at);
  }

  // ---------------------------------------------------------------- turns

  /** What happened in a turn: how long `poll` was to wait, the callbacks with their events, and the timer pass. */
  datatype Turn = Turn(
    timeout: int, calls: Trace<seq<M.Event>>, seen: seq<Timers>, now: Timespec, timers: seq<M.Event>)

  /** `poll` was to wait for the first of the alarms armed then, as the clock read before it was called says. */
  ghost predicate Slept(s: Status, turn: Turn) {
    var clock := Begin(turn.calls).clock;
    && Carries(s.timers, s.at.view) && Timed(s.timers, clock)
    && IsTimeout(turn.timeout, Expiries(s.timers), clock)
  }

  /** A turn that was made: exactly the callbacks that were due, then one timer pass over the armed alarms. */
  ghost predicate TurnDone(s: Status, r: Round, turn: Turn, t: Status) {
    var mid := End(turn.calls);
    && Later(s, Begin(turn.calls)) && CallsDone(r, turn.calls) && Length(turn.calls) == |DueCalls(r)|
    && Carries(mid.timers, mid.at.view) && PassDone(mid, turn.seen, turn.now, turn.timers, t)
  }

  function EventsOf(turn: Turn): seq<M.Event> {
    CallEvents(turn.calls) + turn.timers
  }

  /** The events of a turn lead from its beginning to its end. */
  lemma TurnReaches(s: Status, r: Round, turn: Turn, t: Status)
    requires TurnDone(s, r, turn, t)
    ensures Reached(s.at, EventsOf(turn), t.at) && OnlyLocked(s.log, t.log)
  {
    CallsMove(r, turn.calls);
    ReachedOnward(s.at, CallEvents(turn.calls), End(turn.calls).at, turn.timers, t.at);
  }

  predicate NoStart(events: seq<M.Event>) {
    forall k :: 0 <= k < |events| ==> !events[k].Start?
  }

  lemma CallStartsNothing(s: Status, h: Handler, r: Round, events: seq<M.Event>, t: Status)
    requires CallDone(s, h, r, events, t)
    ensures NoStart(events)
  {
    if h == DisplayIn {
      var n := |Delivered(Arrivals(r.messages), |s.at.view.seats|)|;
      forall k | 0 <= k < |events|
        ensures !events[k].Start?
      {
        assert k < n ==> events[..n][k] == events[k];
      }
    }
  }

  lemma {:induction false} CallsStartNothing(r: Round, calls: Trace<seq<M.Event>>)
    requires CallsDone(r, calls)
    ensures NoStart(CallEvents(calls))
  {
    match calls
    case Begun(_) =>
    case Then(before, events, t) =>
      CallsStartNothing(r, before);
      CallStartsNothing(End(before), DueCalls(r)[Length(before)], r, events, t);
  }

  lemma TurnStartsNothing(s: Status, r: Round, turn: Turn, t: Status)
    requires TurnDone(s, r, turn, t)
    ensures NoStart(EventsOf(turn))
  {
    var mid := End(turn.calls);
    CallsStartNothing(r, turn.calls);
    TimersQuiet(mid.timers, Ran(mid.timers, turn.seen, turn.now), turn.timers);
  }

  /** A turn after which the loop looks at its flag again. */
  ghost predicate TurnMade(s: Status, r: Round, turn: Turn, t: Status) {
    r.flushed && r.polled && !Aborts(r, s) && TurnDone(s, r, turn, t) && Slept(s, turn)
  }

  /** How a turn was left. */
  ghost predicate TurnLeft(left: Left, s: Status, r: Round, turn: Turn, t: Status) {
    if left == StillRunning then TurnMade(s, r, turn, t) else Ends(left, s, r, t)
  }

  /** A turn that is not made. */
  function NoTurn(s: Status): Turn {
    Turn(0, Begun(s), [], s.clock, [])
  }

  /** The clock may have been read before the descriptors were handled. */
  lemma RoundLater(left: Left, s: Status, before: Status, r: Round, turn: Turn, t: Status)
    requires Later(s, before) && (left == StillRunning || left == Aborted)
    requires TurnLeft(left, before, r, turn, t)
    ensures TurnLeft(left, s, r, turn, t)
  {
    AbortsLater(r, s, before);
    if left == StillRunning {
      TurnLater(s, before, r, turn, t);
    }
  }

  lemma AbortsLater(r: Round, s: Status, t: Status)
    requires t.plan == s.plan && t.at.stream == s.at.stream
    ensures Aborts(r, s) <==> Aborts(r, t)
  {}

  lemma TurnLater(s: Status, before: Status, r: Round, turn: Turn, t: Status)
    requires Later(s, before) && TurnDone(before, r, turn, t)
    ensures TurnDone(s, r, turn, t)
  {}

  // ---------------------------------------------------------------- runs

  /** The first `n` turns have been made and led to `t`. */
  ghost predicate TurnsMade(rounds: seq<Round>, n: nat, turns: Trace<Turn>, t: Status) {
    TurnsDone(rounds, turns) && Length(turns) == n && End(turns) == t
  }

  /** The turns made: each begins, with the flag set, where the one before ended. */
  ghost predicate TurnsDone(rounds: seq<Round>, turns: Trace<Turn>) {
    match turns
    case Begun(_) => true
    case Then(before, turn, t) =>
      && TurnsDone(rounds, before) && Length(before) < |rounds|
      && End(before).at.view.core.running && TurnMade(End(before), rounds[Length(before)], turn, t)
  }

  function AllEvents(turns: Trace<Turn>): seq<M.Event> {
    match turns
    case Begun(_) => []
    case Then(before, turn, _) => AllEvents(before) + EventsOf(turn)
  }

  /** A whole run: the turns made, and why there was no other. */
  ghost predicate RunMade(left: Left, rounds: seq<Round>, turns: Trace<Turn>, t: Status) {
    var n, last := Length(turns), End(turns);
    && TurnsDone(rounds, turns)
    && match left
       case Cleared => t == last && !last.at.view.core.running
       case StillRunning => n == |rounds| && t == last && last.at.view.core.running
       case _ => n < |rounds| && last.at.view.core.running && Ends(left, last, rounds[n], t)
  }

  /** The events of all turns lead from the first status to the last, and none of them starts the loop. */
  lemma {:induction false} RunReaches(rounds: seq<Round>, turns: Trace<Turn>)
    requires TurnsDone(rounds, turns)
    ensures Reached(Begin(turns).at, AllEvents(turns), End(turns).at)
    ensures NoStart(AllEvents(turns)) && OnlyLocked(Begin(turns).log, End(turns).log)
  {
    match turns
    case Begun(s) =>
      ReachedNothing(s.at);
    case Then(before, turn, t) =>
      var s, mid, r := Begin(before), End(before), rounds[Length(before)];
      RunReaches(rounds, before);
      TurnReaches(mid, r, turn, t);
      TurnStartsNothing(mid, r, turn, t);
      ReachedOnward(s.at, AllEvents(before), mid.at, EventsOf(turn), t.at);
      OnlyLockedNext(s.log, mid.log, t.log);
  }

  /** From `s`, the run is at `t` after `n` turns, or has ended there. */
  ghost predicate RunningOn(left: Left, s: Status, rounds: seq<Round>, n: nat, turns: Trace<Turn>, t: Status) {
    Begin(turns) == s && if left == StillRunning then TurnsMade(rounds, n, turns, t)
        else RunMade(left, rounds, turns, t)
  }

  lemma RunsOn(left: Left, s: Status, rounds: seq<Round>, n: nat, turns: Trace<Turn>, t: Status, turn: Turn, u: Status)
    requires RunningOn(StillRunning, s, rounds, n, turns, t) && n < |rounds| && t.at.view.core.running
    requires TurnLeft(left, t, rounds[n], turn, u)
    ensures RunningOn(left, s, rounds, n + 1, if left == StillRunning then Then(turns, turn, u) else turns, u)
  {}

  lemma RunEnds(left: Left, s: Status, rounds: seq<Round>, n: nat, turns: Trace<Turn>, t: Status)
    requires RunningOn(left, s, rounds, n, turns, t)
    requires left != StillRunning || n == |rounds| || !t.at.view.core.running
    ensures Begin(turns) == s
    ensures RunMade(if left == StillRunning && !t.at.view.core.running then Cleared else left, rounds, turns, t)
  {}

  /** A run adds nothing to the log but what the compositor says about the lock. */
  lemma RunSays(left: Left, rounds: seq<Round>, turns: Trace<Turn>, t: Status)
    requires RunMade(left, rounds, turns, t)
    ensures OnlyLocked(Begin(turns).log, t.log)
  {
    RunReaches(rounds, turns);
    OnlyLockedNext(Begin(turns).log, End(turns).log, t.log);
  }

  // ---------------------------------------------------------------- when a run stops

  predicate NoneStops(events: seq<M.Event>) {
    forall k :: 0 <= k < |events| ==> !M.Stops(events[k])
  }

  lemma ClearedByStop(p: Point, events: seq<M.Event>, q: Point)
    requires Reached(p, events, q) && NoStart(events) && p.view.core.running
    ensures q.view.core.running <==> NoneStops(events)
  {
    M.StopsOnly(p.view, events);
  }

  /** The flag is found cleared exactly if some turn had a reply of success, SIGUSR1 or a failed dispatch. */
  lemma ClearedExactly(rounds: seq<Round>, turns: Trace<Turn>)
    requires TurnsDone(rounds, turns) && Begin(turns).at.view.core.running
    ensures !End(turns).at.view.core.running <==> !NoneStops(AllEvents(turns))
  {
    RunReaches(rounds, turns);
    ClearedByStop(Begin(turns).at, AllEvents(turns), End(turns).at);
  }

  /** Nothing in this turn asks the loop to end: no SIGUSR1, and no dispatch that fails. */
  predicate Harmless(r: Round) {
    !Ready(PollFd(0, POLLIN, r.term)) && (Ready(PollFd(0, POLLIN, r.display)) ==> r.dispatched)
  }

  /** Every reply still to be read refuses. */
  predicate AllRefuse(stream: seq<Byte>) {
    forall i :: 0 <= i < |stream| ==> stream[i] == 0
  }

  lemma CallHarmless(s: Status, h: Handler, r: Round, events: seq<M.Event>, t: Status)
    requires CallDone(s, h, r, events, t) && AllRefuse(s.at.stream) && Harmless(r) && h in DueCalls(r)
    ensures NoneStops(events) && AllRefuse(t.at.stream)
  {
    match h
    case DisplayIn =>
      assert events[..|events|] == events;
    case ReplyIn =>
      assert events[..0] == [] && M.Verdicts(events) == [events[0].success];
      assert M.Verdicts(events)[0] <==> s.at.stream[0] != 0;
    case _ =>
  }

  lemma {:induction false} CallsHarmless(r: Round, calls: Trace<seq<M.Event>>)
    requires CallsDone(r, calls) && AllRefuse(Begin(calls).at.stream) && Harmless(r)
    ensures NoneStops(CallEvents(calls)) && AllRefuse(End(calls).at.stream)
  {
    match calls
    case Begun(_) =>
    case Then(before, events, t) =>
      CallsHarmless(r, before);
      CallHarmless(End(before), DueCalls(r)[Length(before)], r, events, t);
  }

  lemma TurnHarmless(s: Status, r: Round, turn: Turn, t: Status)
    requires TurnDone(s, r, turn, t) && AllRefuse(s.at.stream) && Harmless(r)
    ensures NoneStops(EventsOf(turn)) && AllRefuse(t.at.stream)
  {
    var mid := End(turn.calls);
    CallsHarmless(r, turn.calls);
    TimersQuiet(mid.timers, Ran(mid.timers, turn.seen, turn.now), turn.timers);
    QuietReadsNothing(turn.timers);
  }

  lemma NeitherStops(events: seq<M.Event>, more: seq<M.Event>)
    requires NoneStops(events) && NoneStops(more)
    ensures NoneStops(events + more)
  {}

  /** The lock holds: while every reply refuses and no turn asks the loop to end, its flag stays set. */
  lemma {:induction false} StaysLocked(rounds: seq<Round>, turns: Trace<Turn>)
    requires TurnsDone(rounds, turns) && Begin(turns).at.view.core.running && AllRefuse(Begin(turns).at.stream)
    requires forall i :: 0 <= i < |rounds| ==> Harmless(rounds[i])
    ensures NoneStops(AllEvents(turns)) && AllRefuse(End(turns).at.stream) && End(turns).at.view.core.running
  {
    match turns
    case Begun(_) =>
    case Then(before, turn, t) =>
      StaysLocked(rounds, before);
      TurnHarmless(End(before), rounds[Length(before)], turn, t);
      NeitherStops(AllEvents(before), EventsOf(turn));
      ClearedExactly(rounds, turns);
  }

  /** What a turn's rounds ask of the flag: SIGUSR1, a failed dispatch, or a reply of success. */
  predicate AsksToStop(r: Round, stream: seq<Byte>) {
    || Concerns(POLLIN, r.term)
    || (Concerns(POLLIN, r.display) && !r.dispatched)
    || (Concerns(POLLIN, r.reply) && stream != [] && stream[0] != 0)
  }

  /** What one callback asks of the flag. */
  predicate CallStops(h: Handler, r: Round, stream: seq<Byte>) {
    match h
    case DisplayIn => !r.dispatched
    case ReplyIn => stream != [] && stream[0] != 0
    case TermIn => true
    case _ => false
  }

  lemma CallStopsExactly(s: Status, h: Handler, r: Round, events: seq<M.Event>, t: Status)
    requires CallDone(s, h, r, events, t)
    ensures NoneStops(events) <==> !CallStops(h, r, s.at.stream)
  {
    match h
    case DisplayIn =>
      var n := |Delivered(Arrivals(r.messages), |s.at.view.seats|)|;
      assert forall k :: 0 <= k < n ==> events[k] == events[..n][k];
    case ReplyIn =>
      assert events[..0] == [] && M.Verdicts(events) == [events[0].success];
      assert M.Verdicts(events)[0] <==> s.at.stream[0] != 0;
    case _ =>
  }

  /** The first `n` callbacks due. */
  predicate SomeStops(r: Round, stream: seq<Byte>, n: nat) {
    exists k :: 0 <= k < n && k < |DueCalls(r)| && CallStops(DueCalls(r)[k], r, stream)
  }

  lemma LastCallStops(r: Round, calls: Trace<seq<M.Event>>)
    requires CallsDone(r, calls) && calls.Then?
    ensures CallsDone(r, calls.before) && Length(calls.before) < |DueCalls(r)|
    ensures NoneStops(calls.what) <==> !CallStops(DueCalls(r)[Length(calls.before)], r, Begin(calls).at.stream)
  {
    var h := DueCalls(r)[Length(calls.before)];
    CallStopsExactly(End(calls.before), h, r, calls.what, calls.now);
    if h == ReplyIn {
      PipeUntouched(r, calls.before);
    }
  }

  lemma StopsNext(r: Round, stream: seq<Byte>, n: nat, before: seq<M.Event>, events: seq<M.Event>)
    requires n < |DueCalls(r)| && (NoneStops(before) <==> !SomeStops(r, stream, n))
    requires NoneStops(events) <==> !CallStops(DueCalls(r)[n], r, stream)
    ensures NoneStops(before + events) <==> !SomeStops(r, stream, n + 1)
  {
    assert SomeStops(r, stream, n + 1) <==> SomeStops(r, stream, n) || CallStops(DueCalls(r)[n], r, stream);
    StopsJoined(before, events);
  }

  lemma {:induction false} CallsStopExactly(r: Round, calls: Trace<seq<M.Event>>)
    requires CallsDone(r, calls)
    ensures NoneStops(CallEvents(calls)) <==> !SomeStops(r, Begin(calls).at.stream, Length(calls))
    decreases calls
  {
    if calls.Then? {
      LastCallStops(r, calls);
      CallsStopExactly(r, calls.before);
      StopsNext(r, Begin(calls).at.stream, Length(calls.before), CallEvents(calls.before), calls.what);
    }
  }

  lemma StopsJoined(events: seq<M.Event>, more: seq<M.Event>)
    ensures NoneStops(events + more) <==> NoneStops(events) && NoneStops(more)
  {
    var all := events + more;
    assert forall k :: 0 <= k < |events| ==> all[k] == events[k];
    assert forall k :: 0 <= k < |more| ==> all[|events| + k] == more[k];
  }

  /** Some callback due asks to stop exactly if the turn does. */
  lemma AskedByCalls(r: Round, stream: seq<Byte>)
    ensures SomeStops(r, stream, |DueCalls(r)|) <==> AsksToStop(r, stream)
  {
    var due := DueCalls(r);
    DueExactly(r);
    if DisplayIn in due {
      var k :| 0 <= k < |due| && due[k] == DisplayIn;
    }
    if ReplyIn in due {
      var k :| 0 <= k < |due| && due[k] == ReplyIn;
    }
    if TermIn in due {
      var k :| 0 <= k < |due| && due[k] == TermIn;
    }
  }

  /** A turn clears the flag exactly if it brought SIGUSR1, a dispatch that failed, or a reply of success. */
  lemma TurnStopsExactly(s: Status, r: Round, turn: Turn, t: Status)
    requires TurnMade(s, r, turn, t) && s.at.view.core.running
    ensures !t.at.view.core.running <==> AsksToStop(r, s.at.stream)
  {
    var mid := End(turn.calls);
    CallsStopExactly(r, turn.calls);
    AskedByCalls(r, s.at.stream);
    TimersQuiet(mid.timers, Ran(mid.timers, turn.seen, turn.now), turn.timers);
    StopsJoined(CallEvents(turn.calls), turn.timers);
    TurnReaches(s, r, turn, t);
    TurnStartsNothing(s, r, turn, t);
    ClearedByStop(s.at, EventsOf(turn), t.at);
  }

  /** A loop that was entered is left by a cleared flag only after a turn that asked for it. */
  lemma LeftBecauseAsked(rounds: seq<Round>, turns: Trace<Turn>, t: Status)
    requires RunMade(Cleared, rounds, turns, t) && Begin(turns).at.view.core.running
    ensures turns.Then? && Length(turns.before) < |rounds|
    ensures AsksToStop(rounds[Length(turns.before)], End(turns.before).at.stream)
  {
    assert turns.Then?;
    TurnStopsExactly(End(turns.before), rounds[Length(turns.before)], turns.what, turns.now);
  }

  /** A turn that cannot be survived: the child has crashed, or a deadly message is there to be handled. */
  predicate Lethal(r: Round) {
    Crashed(r) || (Concerns(POLLIN, r.display) && Deadly(r.messages))
  }

  lemma LethalAborts(r: Round, s: Status)
    requires Lethal(r)
    ensures Aborts(r, s)
  {
    AbortsExactly(r, s);
  }

  lemma LastTurn(rounds: seq<Round>, turns: Trace<Turn>)
    requires TurnsDone(rounds, turns) && turns.Then?
    ensures TurnsDone(rounds, turns.before) && Length(turns) == Length(turns.before) + 1
    ensures Length(turns.before) < |rounds| && !Lethal(rounds[Length(turns.before)])
  {
    var n := Length(turns.before);
    if Lethal(rounds[n]) {
      LethalAborts(rounds[n], End(turns.before));
    }
  }

  /** The turns up to and including the n-th. */
  lemma {:induction false} TurnAt(rounds: seq<Round>, turns: Trace<Turn>, n: nat) returns (upTo: Trace<Turn>)
    requires TurnsDone(rounds, turns) && n < Length(turns)
    ensures TurnsDone(rounds, upTo) && upTo.Then? && Length(upTo.before) == n
    decreases turns
  {
    upTo := turns;
    if Length(turns.before) != n {
      upTo := TurnAt(rounds, turns.before, n);
    }
  }

  lemma NoLethalTurn(rounds: seq<Round>, turns: Trace<Turn>, n: nat)
    requires TurnsDone(rounds, turns) && n < |rounds| && Lethal(rounds[n])
    ensures Length(turns) <= n
  {
    if n < Length(turns) {
      var upTo := TurnAt(rounds, turns, n);
      LastTurn(rounds, upTo);
    }
  }

  /** When the loop comes to such a turn, and can poll, the process ends there. */
  lemma LethalEndsRun(left: Left, rounds: seq<Round>, turns: Trace<Turn>, t: Status, n: nat)
    requires RunMade(left, rounds, turns, t) && n < |rounds| && Lethal(rounds[n])
    ensures Length(turns) <= n
    ensures Length(turns) == n && End(turns).at.view.core.running && rounds[n].flushed && rounds[n].polled ==>
              left == Aborted
  {
    NoLethalTurn(rounds, turns, n);
  }

  // ---------------------------------------------------------------- the session

  /** Events of one dispatch or round trip, and whether the call succeeds. */
  datatype Batch = Batch(messages: seq<Message>, dispatched: bool)

  /** The program ends when a dispatch fails or an arrival ends it. */
  predicate Fails(b: Batch) {
    !b.dispatched || AnyKills(b.messages)
  }

  /** The compositor says that the session is locked. */
  predicate Grants(b: Batch) {
    AllHeard(Arrivals(b.messages)) != []
  }

  /** In terms of what is received. */
  predicate Broken(b: Batch) {
    !b.dispatched || Deadly(b.messages)
  }

  predicate LockedBy(b: Batch) {
    exists k :: 0 <= k < |b.messages| && b.messages[k].arrival == LockedSent
  }

  lemma {:induction false} HeardExactly(arrivals: seq<Arrival>)
    ensures AllHeard(arrivals) != [] <==> LockedSent in arrivals
  {
    if arrivals != [] {
      var n := |arrivals| - 1;
      HeardExactly(arrivals[..n]);
      assert arrivals == arrivals[..n] + [arrivals[n]];
    }
  }

  lemma BatchExactly(b: Batch)
    ensures Fails(b) <==> Broken(b)
    ensures Grants(b) <==> LockedBy(b)
  {
    KillsExactly(b.messages);
    HeardExactly(Arrivals(b.messages));
    if LockedBy(b) {
      var k :| 0 <= k < |b.messages| && b.messages[k].arrival == LockedSent;
      assert Arrivals(b.messages)[k] == LockedSent;
    }
  }

  function Sent(batches: seq<Batch>): seq<Arrival> {
    if batches == [] then [] else Sent(batches[..|batches| - 1]) + Arrivals(batches[|batches| - 1].messages)
  }

  /** Everything outside the process that `main` depends on from the moment it is connected. */
  datatype Script = Script(
    first: Batch, globals: bool, second: Batch, waiting: seq<Batch>,
    ready: Option<bool>, daemonized: Option<bool>, rounds: seq<Round>)

  /** How the wait for the lock ends: after some batches, with a failure, or not before the script does. */
  datatype Wait = After(batches: nat) | Failing | Pending

  function WaitFor(locked: bool, waiting: seq<Batch>): (w: Wait)
    ensures w.After? ==> w.batches <= |waiting|
    decreases |waiting|
  {
    if locked then After(0)
    else if waiting == [] then Pending
    else if Fails(waiting[0]) then Failing
    else Behind(1, WaitFor(Grants(waiting[0]), waiting[1..]))
  }

  function Behind(n: nat, w: Wait): Wait {
    if w.After? then After(n + w.batches) else w
  }

  lemma SentNext(batches: seq<Batch>, n: nat)
    requires n < |batches|
    ensures Sent(batches[..n + 1]) == Sent(batches[..n]) + Arrivals(batches[n].messages)
  {
    assert batches[..n + 1][..n] == batches[..n];
  }

  lemma BatchNext(s: Status, batches: seq<Batch>, n: nat, events: seq<M.Event>, t: Status, more: seq<M.Event>,
          u: Status)
    requires n < |batches| && ArrivalsDone(s, Sent(batches[..n]), events, t)
    requires ArrivalsDone(t, Arrivals(batches[n].messages), more, u)
    ensures ArrivalsDone(s, Sent(batches[..n + 1]), events + more, u)
  {
    SentNext(batches, n);
    ArrivalsOnward(s, Sent(batches[..n]), events, t, Arrivals(batches[n].messages), more, u);
  }

  /** After `n` batches, the lock is still waited for, or granted, or the wait has failed. */
  predicate WaitedFor(s: Status, was: bool, waiting: seq<Batch>, n: nat, failed: bool, locked: bool,
                      events: seq<M.Event>, t: Status) {
    && n <= |waiting|
    && if failed then WaitFor(was, waiting) == Failing
       else WaitFor(was, waiting) == Behind(n, WaitFor(locked, waiting[n..]))
            && ArrivalsDone(s, Sent(waiting[..n]), events, t)
  }

  lemma WaitedNone(s: Status, was: bool, waiting: seq<Batch>)
    ensures WaitedFor(s, was, waiting, 0, false, was, [], s)
  {
    ArrivalsNone(s);
    assert waiting[..0] == [] && waiting[0..] == waiting;
  }

  lemma WaitedNext(s: Status, was: bool, waiting: seq<Batch>, n: nat, events: seq<M.Event>, t: Status,
                   failed: bool, locked: bool, more: seq<M.Event>, u: Status)
    requires n < |waiting| && WaitedFor(s, was, waiting, n, false, false, events, t)
    requires failed <==> Fails(waiting[n])
    requires !failed ==> ArrivalsDone(t, Arrivals(waiting[n].messages), more, u) && (locked <==> Grants(waiting[n]))
    ensures WaitedFor(s, was, waiting, n + 1, failed, locked, events + more, u)
  {
    WaitNext(was, waiting, n);
    if !failed {
      BatchNext(s, waiting, n, events, t, more, u);
    }
  }

  lemma WaitOver(was: bool, waiting: seq<Batch>, n: nat, locked: bool)
    requires n <= |waiting| && WaitFor(was, waiting) == Behind(n, WaitFor(locked, waiting[n..]))
    requires locked || n == |waiting|
    ensures WaitFor(was, waiting) == if locked then After(n) else Pending
  {}

  lemma WaitedEnough(s: Status, was: bool, waiting: seq<Batch>, n: nat, failed: bool, locked: bool,
                     events: seq<M.Event>, t: Status)
    requires WaitedFor(s, was, waiting, n, failed, locked, events, t) && (failed || locked || n == |waiting|)
    ensures failed <==> WaitFor(was, waiting).Failing?
    ensures !failed ==> (locked <==> WaitFor(was, waiting).After?)
    ensures !failed && locked ==> ArrivalsDone(s, Sent(waiting[..WaitFor(was, waiting).batches]), events, t)
  {
    if !failed {
      WaitOver(was, waiting, n, locked);
    }
  }

  lemma WaitNext(was: bool, waiting: seq<Batch>, n: nat)
    requires n < |waiting| && WaitFor(was, waiting) == Behind(n, WaitFor(false, waiting[n..]))
    ensures Fails(waiting[n]) ==> WaitFor(was, waiting) == Failing
    ensures !Fails(waiting[n]) ==> WaitFor(was, waiting) == Behind(n + 1, WaitFor(Grants(waiting[n]), waiting[n + 1..]))
  {
    assert waiting[n..][1..] == waiting[n + 1..];
  }

  /** How the way to a locked session ends. */
  function Outset(s: Script): Wait {
    if Fails(s.first) || !s.globals || Fails(s.second) then Failing
    else WaitFor(Grants(s.first) || Grants(s.second), s.waiting)
  }

  /** Neither a failure nor the lock has come with these batches. */
  predicate Uneventful(batches: seq<Batch>) {
    forall i :: 0 <= i < |batches| ==> !Broken(batches[i]) && !LockedBy(batches[i])
  }

  /** The `n`-th batch is the first that fails or brings the lock. */
  predicate FirstEventful(batches: seq<Batch>, n: nat) {
    n < |batches| && Uneventful(batches[..n]) && (Broken(batches[n]) || LockedBy(batches[n]))
  }

  /** The wait ends with the first batch that fails or brings the lock, and as that batch says. */
  lemma {:induction false} WaitExactly(waiting: seq<Batch>)
    ensures match WaitFor(false, waiting)
            case After(n) => n > 0 && FirstEventful(waiting, n - 1) && !Broken(waiting[n - 1])
            case Failing => exists n: nat :: FirstEventful(waiting, n) && Broken(waiting[n])
            case Pending => Uneventful(waiting)
  {
    if waiting != [] {
      BatchExactly(waiting[0]);
      if Broken(waiting[0]) || LockedBy(waiting[0]) {
        assert FirstEventful(waiting, 0);
      } else {
        WaitExactly(waiting[1..]);
        WaitBehind(waiting);
      }
    }
  }

  lemma WaitBehind(waiting: seq<Batch>)
    requires waiting != [] && !Broken(waiting[0]) && !LockedBy(waiting[0])
    requires match WaitFor(false, waiting[1..])
             case After(n) => n > 0 && FirstEventful(waiting[1..], n - 1) && !Broken(waiting[1..][n - 1])
             case Failing => exists n: nat :: FirstEventful(waiting[1..], n) && Broken(waiting[1..][n])
             case Pending => Uneventful(waiting[1..])
    ensures match WaitFor(false, waiting)
            case After(n) => n > 0 && FirstEventful(waiting, n - 1) && !Broken(waiting[n - 1])
            case Failing => exists n: nat :: FirstEventful(waiting, n) && Broken(waiting[n])
            case Pending => Uneventful(waiting)
  {
    BatchExactly(waiting[0]);
    match WaitFor(false, waiting[1..])
    case After(n) =>
      FirstBehind(waiting, n - 1);
    case Failing =>
      var n: nat :| FirstEventful(waiting[1..], n) && Broken(waiting[1..][n]);
      FirstBehind(waiting, n);
    case Pending =>
      NoneBehind(waiting);
  }

  lemma FirstBehind(waiting: seq<Batch>, n: nat)
    requires waiting != [] && !Broken(waiting[0]) && !LockedBy(waiting[0]) && FirstEventful(waiting[1..], n)
    ensures FirstEventful(waiting, n + 1)
  {
    UneventfulFirst(waiting, n);
  }

  lemma NoneBehind(waiting: seq<Batch>)
    requires waiting != [] && !Broken(waiting[0]) && !LockedBy(waiting[0]) && Uneventful(waiting[1..])
    ensures Uneventful(waiting)
  {
    var n := |waiting| - 1;
    assert waiting[1..][..n] == waiting[1..] && waiting[..n + 1] == waiting;
    UneventfulFirst(waiting, n);
  }

  lemma UneventfulFirst(waiting: seq<Batch>, n: nat)
    requires waiting != [] && n <= |waiting[1..]| && Uneventful(waiting[1..][..n])
    requires !Broken(waiting[0]) && !LockedBy(waiting[0])
    ensures Uneventful(waiting[..n + 1])
  {
    forall i | 0 < i < n + 1
      ensures !Broken(waiting[i]) && !LockedBy(waiting[i])
    {
      assert waiting[1..][..n][i - 1] == waiting[i];
    }
  }

  /** The main loop is entered. */
  predicate EntersLoop(s: Script) {
    Outset(s).After? && s.ready != Some(false) && s.daemonized != Some(false)
  }

  /** How the process ends: with the session as it is, waiting when the script is over, or with the lock given up. */
  datatype Ending = GaveUp | Waiting | Unlocked(ok: bool)

  /** The process ends without unlocking when it was aborted, and unlocks when the loop was left. */
  function EndingFor(left: Left): Ending {
    match left
    case Aborted => GaveUp
    case StillRunning => Waiting
    case _ => Unlocked(left != PollFailed)
  }

  /** How the process ends before it gets to the main loop. */
  function EarlyEnding(s: Script): Ending
    requires !EntersLoop(s)
  {
    match Outset(s)
    case Failing => GaveUp
    case Pending => Waiting
    case After(_) => if s.ready == Some(false) then GaveUp else Unlocked(false)
  }

  /** Every output has its lock surface. */
  function AllCreated(outputs: seq<Output>): (all: seq<Output>)
    ensures |all| == |outputs| && forall i :: 0 <= i < |outputs| ==> all[i] == outputs[i].(created := true)
  {
    seq(|outputs|, i requires 0 <= i < |outputs| => outputs[i].(created := true))
  }

  function Said(s: Status, e: Entry): Status {
    s.(log := s.log + [e])
  }

  /** What was received up to the lock, and the statuses in between. */
  datatype Opening = Opening(
    first: seq<M.Event>, connected: Status, second: seq<M.Event>, requested: Status,
    rest: seq<M.Event>, granted: Status)

  /** The outputs known when the lock was requested get their lock surfaces. */
  function Covered(s: Status): Status {
    s.(outputs := AllCreated(s.outputs))
  }

  predicate Opened(s: Status, script: Script, o: Opening) {
    && Outset(script).After? && Requested(s, script, o, Covered(o.requested))
    && ArrivalsDone(Covered(o.requested), Sent(script.waiting[..Outset(script).batches]), o.rest, o.granted)
  }

  predicate Requested(s: Status, script: Script, o: Opening, t: Status) {
    && ArrivalsDone(s, Arrivals(script.first.messages), o.first, o.connected)
    && ArrivalsDone(Said(o.connected, LockRequested), Arrivals(script.second.messages), o.second, o.requested)
    && t == Covered(o.requested)
  }

  /** How the wait for the lock ended. */
  predicate OpensAs(failed: bool, locked: bool, s: Status, script: Script, o: Opening) {
    if failed then Outset(script) == Failing
    else if locked then Opened(s, script, o) else Outset(script) == Pending
  }

  lemma OpenedBy(s: Status, script: Script, asked: Opening, t: Status, failed: bool, locked: bool, o: Opening)
    requires Requested(s, script, asked, t) && o == asked.(rest := o.rest, granted := o.granted)
    requires !Fails(script.first) && script.globals && !Fails(script.second)
    requires failed <==> Outset(script).Failing?
    requires !failed ==> (locked <==> Outset(script).After?)
    requires !failed && locked ==>
               ArrivalsDone(t, Sent(script.waiting[..Outset(script).batches]), o.rest, o.granted)
    ensures OpensAs(failed, locked, s, script, o)
  {}

  /** The whole course of a process that holds the lock. */
  datatype Course = Course(opening: Opening, start: M.Event, left: Left, turns: Trace<Turn>, last: Status)

  /** Where the main loop starts. */
  function BeforeLoop(script: Script, o: Opening): Status {
    if script.ready == Some(true) then Said(o.granted, ReadinessSent) else o.granted
  }

  predicate Entered(s: Status, start: M.Event, t: Status) {
    && Moves(s, [start], t) && start.Start? && t.at.view.core.running
    && t.plan == s.plan && t.handled == s.handled && t.outputs == s.outputs && t.log == s.log
  }

  lemma EnteredBy(s: Status, start: M.Event, t: Status)
    requires start.Start? && t.at.view == M.Step(s.at.view, start) && t.at.posted == s.at.posted
    requires t.at.stream == s.at.stream && Forward(s, t) && t.plan == s.plan
    requires t.handled == s.handled && t.outputs == s.outputs && t.log == s.log
    ensures Entered(s, start, t)
  {
    MovesOne(s, start, t);
  }

  ghost predicate Taken(s: Status, script: Script, c: Course) {
    && Opened(s, script, c.opening) && Entered(BeforeLoop(script, c.opening), c.start, Begin(c.turns))
    && RunMade(c.left, script.rounds, c.turns, c.last)
  }

  /** No loop was entered. */
  function NoCourse(o: Opening): Course {
    Course(o, M.Terminate, Cleared, Begun(o.granted), o.granted)
  }

  /** How a process that holds the lock ends, with what it then has said. */
  ghost predicate Concluded(script: Script, o: Opening, ending: Ending, c: Course, log: seq<Entry>) {
    if EntersLoop(script) then
      && c.opening == o && Entered(BeforeLoop(script, o), c.start, Begin(c.turns))
      && RunMade(c.left, script.rounds, c.turns, c.last) && ending == EndingFor(c.left)
      && log == c.last.log + if ending.Unlocked? then [UnlockRequested] else []
    else ending == EarlyEnding(script)
  }

  /** How the process ends: before the loop as the script says, and after that as its course does. */
  ghost predicate Finished(s: Status, script: Script, ending: Ending, c: Course, log: seq<Entry>) {
    if EntersLoop(script) then
      && Taken(s, script, c) && ending == EndingFor(c.left)
      && log == c.last.log + if ending.Unlocked? then [UnlockRequested] else []
    else ending == EarlyEnding(script)
  }

  lemma ConcludedFinished(s: Status, script: Script, o: Opening, ending: Ending, c: Course, log: seq<Entry>)
    requires Opened(s, script, o) && Concluded(script, o, ending, c, log)
    ensures Finished(s, script, ending, c, log)
  {}

  lemma NoLoop(s: Status, script: Script, ending: Ending, c: Course, log: seq<Entry>)
    requires !Outset(script).After? && ending == EarlyEnding(script)
    ensures Finished(s, script, ending, c, log)
  {}

  /** The first two round trips succeed, and everything needed is there. */
  predicate Connects(script: Script) {
    !Broken(script.first) && script.globals && !Broken(script.second)
  }

  /** The exit status is that of a failure exactly if `poll` failed; a loop that aborts does not get to unlock. */
  lemma EndingExactly(left: Left)
    ensures EndingFor(left) == Unlocked(true) <==> left == Cleared || left == FlushFailed
    ensures EndingFor(left) == Unlocked(false) <==> left == PollFailed
    ensures EndingFor(left) == GaveUp <==> left == Aborted
  {}

  /**
   How the process ends, in terms of what it received and of how its loop was left. It ends with a failure and the
   session left as it is if connecting or waiting for the lock fails, readiness cannot be announced, or the loop
   aborts; otherwise it asks to unlock and ends well exactly if the loop was left by a cleared flag or a failed flush.
   */
  lemma EndsExactly(s: Status, script: Script, ending: Ending, c: Course, log: seq<Entry>)
    requires Finished(s, script, ending, c, log)
    ensures var early := LockedBy(script.first) || LockedBy(script.second);
            var wait := if early then After(0) else WaitFor(false, script.waiting);
            if !Connects(script) || wait == Failing then ending == GaveUp
            else if wait == Pending then ending == Waiting
            else if script.ready == Some(false) then ending == GaveUp
            else if script.daemonized == Some(false) then ending == Unlocked(false)
            else match c.left
                 case Cleared => ending == Unlocked(true) && log == c.last.log + [UnlockRequested]
                 case FlushFailed => ending == Unlocked(true) && log == c.last.log + [UnlockRequested]
                 case PollFailed => ending == Unlocked(false) && log == c.last.log + [UnlockRequested]
                 case Aborted => ending == GaveUp && log == c.last.log
                 case StillRunning => ending == Waiting && log == c.last.log
  {
    BatchExactly(script.first);
    BatchExactly(script.second);
    EndingExactly(c.left);
  }

  /** A crash of the child, or a refusal by the compositor, ends the process without the lock being given up. */
  lemma LethalKeepsLock(s: Status, script: Script, ending: Ending, c: Course, log: seq<Entry>)
    requires Finished(s, script, ending, c, log) && EntersLoop(script)
    requires var n := Length(c.turns);
             n < |script.rounds| && Lethal(script.rounds[n]) && script.rounds[n].flushed && script.rounds[n].polled
             && End(c.turns).at.view.core.running
    ensures ending == GaveUp && log == c.last.log && OnlyLocked(Begin(c.turns).log, log)
  {
    LethalEndsRun(c.left, script.rounds, c.turns, c.last, Length(c.turns));
    RunSays(c.left, script.rounds, c.turns, c.last);
  }

  function OpeningEvents(o: Opening): seq<M.Event> {
    o.first + o.second + o.rest
  }

  function CourseEvents(c: Course): seq<M.Event> {
    OpeningEvents(c.opening) + [c.start] + AllEvents(c.turns)
  }

  /** All that was received before the loop, in order. */
  function OpeningArrivals(script: Script): seq<Arrival>
    requires Outset(script).After?
  {
    Arrivals(script.first.messages) + Arrivals(script.second.messages) + Sent(script.waiting[..Outset(script).batches])
  }

  /** From the connection to the end of the last turn, every event is a step and every reply read was the next one. */
  lemma CourseReaches(s: Status, script: Script, c: Course)
    requires Taken(s, script, c)
    ensures Reached(s.at, CourseEvents(c), End(c.turns).at)
    ensures Begin(c.turns).handled == s.handled + OpeningArrivals(script)
  {
    OpeningReaches(s, script, c.opening);
    RunReaches(script.rounds, c.turns);
    ReachedOnward(s.at, OpeningEvents(c.opening), c.opening.granted.at, [c.start], Begin(c.turns).at);
    ReachedOnward(s.at, OpeningEvents(c.opening) + [c.start], Begin(c.turns).at, AllEvents(c.turns), End(c.turns).at);
  }

  lemma OpeningReaches(s: Status, script: Script, o: Opening)
    requires Opened(s, script, o)
    ensures Reached(s.at, OpeningEvents(o), o.granted.at) && o.granted.handled == s.handled + OpeningArrivals(script)
  {
    ReachedOnward(s.at, o.first, o.connected.at, o.second, o.requested.at);
    ReachedOnward(s.at, o.first + o.second, o.requested.at, o.rest, o.granted.at);
    var a, b := Arrivals(script.first.messages), Arrivals(script.second.messages);
    Regroup(s.handled, a, b);
    Regroup(s.handled, a + b, Sent(script.waiting[..Outset(script).batches]));
  }

  /**
   A process that only gets refusals, no SIGUSR1 and no failing call does not give the lock up by leaving its
   loop.
   */
  lemma LockHolds(s: Status, script: Script, c: Course)
    requires Taken(s, script, c) && AllRefuse(s.at.stream)
    requires forall i :: 0 <= i < |script.rounds| ==> Harmless(script.rounds[i])
    requires forall i :: 0 <= i < |script.rounds| ==> script.rounds[i].flushed && script.rounds[i].polled
    ensures c.left == Aborted || c.left == StillRunning
  {
    var o := c.opening;
    QuietReadsNothing(o.first);
    QuietReadsNothing(o.second);
    QuietReadsNothing(o.rest);
    assert [c.start][..0] == [] && M.Verdicts([c.start]) == [];
    StaysLocked(script.rounds, c.turns);
  }

  /** Readiness and the unlock request come only after the session was locked. */
  predicate InOrder(log: seq<Entry>) {
    forall i :: 0 <= i < |log| && (log[i] == ReadinessSent || log[i] == UnlockRequested) ==>
      exists j :: 0 <= j < i && log[j] == LockedReceived
  }

  lemma InOrderOnward(log: seq<Entry>, after: seq<Entry>)
    requires InOrder(log) && OnlyLocked(log, after)
    ensures InOrder(after)
    ensures LockedReceived in after <==> LockedReceived in log || |after| > |log|
    ensures UnlockRequested !in log ==> UnlockRequested !in after
  {
    forall i | 0 <= i < |after| && (after[i] == ReadinessSent || after[i] == UnlockRequested)
      ensures exists j :: 0 <= j < i && after[j] == LockedReceived
    {
      assert log[i] == after[i];
      var j :| 0 <= j < i && log[j] == LockedReceived;
      assert after[j] == log[j];
    }
    assert after == log + after[|log|..];
    if |after| > |log| {
      assert after[|log|] == LockedReceived;
    }
  }

  lemma InOrderNext(log: seq<Entry>, e: Entry)
    requires InOrder(log) && (e == LockRequested || LockedReceived in log)
    ensures InOrder(log + [e])
  {
    var after := log + [e];
    forall i | 0 <= i < |after| && (after[i] == ReadinessSent || after[i] == UnlockRequested)
      ensures exists j :: 0 <= j < i && after[j] == LockedReceived
    {
      if i < |log| {
        assert after[i] == log[i];
        var j :| 0 <= j < i && log[j] == LockedReceived;
        assert after[j] == log[j];
      } else {
        var j :| 0 <= j < |log| && log[j] == LockedReceived;
        assert after[j] == log[j];
      }
    }
  }

  /** The log goes on from `before`, in order, and gives the lock up exactly if the process ends so. */
  predicate EndsIn(before: seq<Entry>, log: seq<Entry>, ending: Ending) {
    InOrder(log) && before <= log && (UnlockRequested in log <==> ending.Unlocked?)
  }

  lemma EndsAfterAnnouncing(before: seq<Entry>, ready: bool, announced: seq<Entry>, log: seq<Entry>, ending: Ending)
    requires announced == before + (if ready then [ReadinessSent] else []) && EndsIn(announced, log, ending)
    ensures EndsIn(before, log, ending) && (ready ==> ReadinessSent in log)
  {
    if ready {
      assert log[|before|] == announced[|before|];
    }
  }

  lemma Ordered(before: seq<Entry>, mid: seq<Entry>, log: seq<Entry>, ending: Ending)
    requires InOrder(before) && LockedReceived in before && UnlockRequested !in before && OnlyLocked(before, mid)
    requires log == mid + if ending.Unlocked? then [UnlockRequested] else []
    ensures EndsIn(before, log, ending)
  {
    InOrderOnward(before, mid);
    if ending.Unlocked? {
      InOrderNext(mid, UnlockRequested);
      assert log[|mid|] == UnlockRequested;
    } else {
      assert log == mid;
    }
  }

  /** What was said stays said. */
  lemma Carried(before: seq<Entry>, after: seq<Entry>)
    requires before <= after
    ensures forall e :: e in before ==> e in after
  {
    assert after == before + after[|before|..];
  }
}

/**
 The course of `main` as the parent's part of the two-process protocol: which sequences of events can happen beside a
 child, and what the verdicts of the child mean for the lock (main.c:354-391, main.c:458-531, src/auth.c:16-160).
 */
module Joint {
  import opened Options
  import opened Utf8
  import opened Framing
  import opened Deadlines
  import opened Sequences
  import opened AuthProtocol
  import E = Effects
  import F = FdTable
  import L = Lock
  import M = Machine
  import R = Runs
  import PB = PamBackend
  import SB = ShadowBackend

  /** The event of the parent in an act that happens. */
  function EventOf(s: System, a: Act): seq<M.Event> {
    if !Can(s, a) then []
    else if a.Parent? then [a.e]
    else if a.ParentReads? then [M.ReplyRead(s.replies[0] != 0, a.at)]
    else []
  }

  /** The parent's part of a run of both processes. */
  function PartOf(w: World, s: System, acts: seq<Act>): seq<M.Event> {
    if acts == [] then []
    else
      var before := acts[..|acts| - 1];
      PartOf(w, s, before) + EventOf(Exec(w, s, before), acts[|acts| - 1])
  }

  lemma PartNext(w: World, s: System, acts: seq<Act>, a: Act)
    ensures PartOf(w, s, acts + [a]) == PartOf(w, s, acts) + EventOf(Exec(w, s, acts), a)
  {
    assert (acts + [a])[..|acts|] == acts;
  }

  /** The main loop has not been started. */
  function StillWaiting(waiting: bool, events: seq<M.Event>): bool {
    if events == [] then waiting
    else StillWaiting(waiting, events[..|events| - 1]) && !events[|events| - 1].Start?
  }

  /** An event that can happen to the parent after `before`: timers fire when armed, and replies follow requests. */
  predicate Possible(v: M.View, waiting: bool, before: seq<M.Event>, e: M.Event) {
    && M.Armed(M.Replay(v, before), e) && !M.WriteFails(M.Replay(v, before), e)
    && (e.Start? ==> StillWaiting(waiting, before))
    && (e.ReplyRead? ==> !StillWaiting(waiting, before) && |M.Verdicts(before)| < |M.Posted(v, before)|)
  }

  predicate Realisable(v: M.View, waiting: bool, events: seq<M.Event>) {
    events == []
    || (var before := events[..|events| - 1];
        Realisable(v, waiting, before) && Possible(v, waiting, before, events[|events| - 1]))
  }

  /** What the protocol's records say of the parent's part. */
  predicate Records(s: System, events: seq<M.Event>, t: System) {
    && M.Leads(s.parent, [], events, t.parent, M.Posted(s.parent, events))
    && t.submitted == Requests(M.Posted(s.parent, events)) && t.consumed == |M.Verdicts(events)|
    && t.waiting == StillWaiting(s.waiting, events)
    && (t.interrupted <==> exists k :: 0 <= k < |events| && (events[k].Terminate? || events[k].DisplayFailed?))
  }

  lemma RecordsNothing(s: System)
    requires Begins(s)
    ensures Records(s, [], s)
  {}

  lemma VerdictsNext(events: seq<M.Event>, e: M.Event)
    ensures M.Verdicts(events + [e]) == M.Verdicts(events) + if e.ReplyRead? then [e.success] else []
    ensures forall v :: M.Replay(v, events + [e]) == M.Step(M.Replay(v, events), e)
    ensures forall v :: M.Posted(v, events + [e]) == M.Posted(v, events) + M.Posts(M.Replay(v, events), e)
    ensures forall w :: StillWaiting(w, events + [e]) == (StillWaiting(w, events) && !e.Start?)
  {
    assert (events + [e])[..|events|] == events;
  }

  lemma RequestsJoin(texts: seq<seq<CodePoint>>, more: seq<seq<CodePoint>>)
    ensures Requests(texts + more) == Requests(texts) + Requests(more)
  {}

  /** An event of the parent, or a reply it reads. */
  lemma RecordsNext(s: System, events: seq<M.Event>, t: System, e: M.Event, u: System)
    requires Records(s, events, t)
    requires u.parent == M.Step(t.parent, e) && u.submitted == t.submitted + Requests(M.Posts(t.parent, e))
    requires u.consumed == t.consumed + (if e.ReplyRead? then 1 else 0) && u.waiting == (t.waiting && !e.Start?)
    requires u.interrupted <==> t.interrupted || e.Terminate? || e.DisplayFailed?
    ensures Records(s, events + [e], u)
  {
    VerdictsNext(events, e);
    RequestsJoin(M.Posted(s.parent, events), M.Posts(t.parent, e));
    InterruptedNext(events, e);
  }

  lemma InterruptedNext(events: seq<M.Event>, e: M.Event)
    ensures (exists k :: 0 <= k < |events + [e]| && ((events + [e])[k].Terminate? || (events + [e])[k].DisplayFailed?))
            <==> (exists k :: 0 <= k < |events| && (events[k].Terminate? || events[k].DisplayFailed?))
                 || e.Terminate? || e.DisplayFailed?
  {
    var all := events + [e];
    if k :| 0 <= k < |events| && (events[k].Terminate? || events[k].DisplayFailed?) {
      assert all[k] == events[k];
    }
    assert all[|events|] == e;
  }

  /** Acts that are no event of the parent leave its records alone. */
  lemma RecordsKept(s: System, events: seq<M.Event>, t: System, u: System)
    requires Records(s, events, t) && u.parent == t.parent && u.submitted == t.submitted && u.consumed == t.consumed
    requires u.waiting == t.waiting && u.interrupted == t.interrupted
    ensures Records(s, events, u)
  {}

  lemma RealisableNext(v: M.View, waiting: bool, events: seq<M.Event>, e: M.Event)
    requires Realisable(v, waiting, events) && Possible(v, waiting, events, e)
    ensures Realisable(v, waiting, events + [e])
  {
    assert (events + [e])[..|events|] == events;
  }

  lemma EventRecords(s: System, events: seq<M.Event>, t: System, e: M.Event)
    requires Records(s, events, t) && Can(t, Parent(e)) && Realisable(s.parent, s.waiting, events)
    ensures Records(s, events + [e], ParentStep(t, e)) && Realisable(s.parent, s.waiting, events + [e])
  {
    RecordsNext(s, events, t, e, ParentStep(t, e));
    RealisableNext(s.parent, s.waiting, events, e);
  }

  lemma ReplyRecords(w: World, s: System, events: seq<M.Event>, t: System, at: Timespec)
    requires Records(s, events, t) && Can(t, ParentReads(at)) && Realisable(s.parent, s.waiting, events)
    requires RepliesConserved(w, t)
    ensures var e := M.ReplyRead(t.replies[0] != 0, at);
            Records(s, events + [e], Heard(t, at)) && Realisable(s.parent, s.waiting, events + [e])
  {
    var e := M.ReplyRead(t.replies[0] != 0, at);
    FirstReply(w, t);
    assert M.Posts(t.parent, e) == [] && Requests([]) == [] && t.submitted + [] == t.submitted;
    RecordsNext(s, events, t, e, Heard(t, at));
    assert |M.Verdicts(events)| < |t.submitted| == |M.Posted(s.parent, events)|;
    RealisableNext(s.parent, s.waiting, events, e);
  }

  lemma OtherRecords(w: World, s: System, events: seq<M.Event>, t: System, a: Act)
    requires Records(s, events, t) && !(Can(t, a) && (a.Parent? || a.ParentReads?))
    ensures Records(s, events, Next(w, t, a)) && EventOf(t, a) == []
  {
    RecordsKept(s, events, t, Next(w, t, a));
  }

  /** One act, for the records and for what was possible. */
  lemma ActRecords(w: World, s: System, events: seq<M.Event>, t: System, a: Act)
    requires Records(s, events, t) && Conserved(w, t) && Realisable(s.parent, s.waiting, events)
    ensures Records(s, events + EventOf(t, a), Next(w, t, a))
    ensures Realisable(s.parent, s.waiting, events + EventOf(t, a))
  {
    if Can(t, a) && a.Parent? {
      EventRecords(s, events, t, a.e);
    } else if Can(t, a) && a.ParentReads? {
      ReplyRecords(w, s, events, t, a.at);
    } else {
      OtherRecords(w, s, events, t, a);
      assert events + [] == events;
    }
  }

  /** In every run of both processes the parent's part is one that can happen, and the records are its own. */
  lemma {:induction false} PartRealisable(w: World, s: System, acts: seq<Act>)
    requires Begins(s)
    ensures Realisable(s.parent, s.waiting, PartOf(w, s, acts))
    ensures Records(s, PartOf(w, s, acts), Exec(w, s, acts))
  {
    if acts == [] {
      RecordsNothing(s);
    } else {
      var before := acts[..|acts| - 1];
      PartRealisable(w, s, before);
      ConservedThroughout(w, s, before);
      ActRecords(w, s, PartOf(w, s, before), Exec(w, s, before), acts[|acts| - 1]);
    }
  }

  // ---------------------------------------------------------------- whatever can happen does

  /** A child that gives these verdicts, whatever the passwords. */
  function Scripted(verdicts: seq<bool>): World {
    World((n: nat, pw: seq<Byte>) => Some(n < |verdicts| && verdicts[n]), false)
  }

  /** Between events: nothing half written or half read, and no reply unread. */
  predicate Settled(t: System) {
    t.out == [] && t.alive && t.child == Reading([]) && t.replies == [] && |t.judged| == t.consumed
  }

  lemma PartGlue(w: World, s: System, acts: seq<Act>, t: System, before: seq<Act>, a: Act, more: seq<Act>)
    requires more == before + [a]
    requires PartOf(w, s, acts + before) == PartOf(w, s, acts) + PartOf(w, t, before)
    requires Exec(w, s, acts + before) == Exec(w, t, before)
    ensures PartOf(w, s, acts + more) == PartOf(w, s, acts) + PartOf(w, t, more)
  {
    Regroup(acts, before, [a]);
    PartNext(w, s, acts + before, a);
    PartNext(w, t, before, a);
    Regroup(PartOf(w, s, acts), PartOf(w, t, before), EventOf(Exec(w, t, before), a));
  }

  lemma {:induction false} PartOnward(w: World, s: System, acts: seq<Act>, more: seq<Act>, t: System)
    requires t == Exec(w, s, acts)
    ensures PartOf(w, s, acts + more) == PartOf(w, s, acts) + PartOf(w, t, more)
  {
    if more == [] {
      assert acts + more == acts;
    } else {
      var before, a := more[..|more| - 1], more[|more| - 1];
      PartOnward(w, s, acts, before, t);
      ExecAppend(w, s, acts, before);
      PartGlue(w, s, acts, t, before, a, more);
    }
  }

  lemma {:induction false} PartNone(w: World, s: System, acts: seq<Act>)
    requires forall i :: 0 <= i < |acts| ==> !acts[i].Parent? && !acts[i].ParentReads?
    ensures PartOf(w, s, acts) == []
  {
    if acts != [] {
      PartNone(w, s, acts[..|acts| - 1]);
    }
  }

  lemma PartOne(w: World, s: System, a: Act)
    ensures PartOf(w, s, [a]) == EventOf(s, a) && Exec(w, s, [a]) == Next(w, s, a)
  {
    assert [a][..0] == [];
  }

  /** An event happens, and what it sends is written. */
  lemma Happening(w: World, t: System, e: M.Event) returns (acts: seq<Act>)
    requires Settled(t) && Can(t, Parent(e))
    ensures PartOf(w, t, acts) == [e] && Settled(Exec(w, t, acts))
  {
    var u := ParentStep(t, e);
    PartOne(w, t, Parent(e));
    acts := [Parent(e)];
    if u.out != [] {
      var write := ParentWrites(|u.out|);
      PartNext(w, t, acts, write);
      ExecOn(w, t, acts, write);
      acts := acts + [write];
    }
  }

  /** The acts that answer a request are one event of the parent, a reply. */
  lemma TripPart(w: World, t: System, pw: seq<Byte>, v: bool, at: Timespec)
    requires var m := Exec(w, t, RoundTrip(pw, at)[..4]); m.replies == [Reply(v)] && Can(m, ParentReads(at))
    ensures PartOf(w, t, RoundTrip(pw, at)) == [M.ReplyRead(v, at)]
  {
    var acts := RoundTrip(pw, at);
    PartNone(w, t, acts[..4]);
    PartNext(w, t, acts[..4], ParentReads(at));
    assert acts == acts[..4] + [ParentReads(at)];
  }

  /** Between events the request pipe holds the frames of the requests not answered. */
  lemma SettledRequests(w: World, t: System)
    requires Settled(t) && Conserved(w, t)
    ensures t.consumed <= |t.submitted| && t.requests == Frames(t.submitted[t.consumed..])
  {
    assert t.requests + [] == t.requests && [] + t.requests == t.requests;
  }

  /** The next request is answered, and the reply read. */
  lemma AnswerNext(verdicts: seq<bool>, t: System, at: Timespec) returns (acts: seq<Act>)
    requires Settled(t) && Conserved(Scripted(verdicts), t) && !t.waiting
    requires t.consumed < |t.submitted| && t.consumed < |verdicts|
    ensures PartOf(Scripted(verdicts), t, acts) == [M.ReplyRead(verdicts[t.consumed], at)]
    ensures Settled(Exec(Scripted(verdicts), t, acts))
  {
    var w, v := Scripted(verdicts), verdicts[t.consumed];
    var pending := t.submitted[t.consumed..];
    SettledRequests(w, t);
    assert pending[0] == t.submitted[t.consumed];
    Answering(w, t, pending[0], Frames(pending[1..]), v, at);
    TripPart(w, t, pending[0], v, at);
    acts := RoundTrip(pending[0], at);
  }

  /** Every sequence of events that can happen is the parent's part of some run of both processes. */
  lemma {:induction false} Realised(s: System, events: seq<M.Event>, verdicts: seq<bool>) returns (acts: seq<Act>)
    requires Begins(s) && Realisable(s.parent, s.waiting, events) && M.Verdicts(events) <= verdicts
    ensures PartOf(Scripted(verdicts), s, acts) == events && Settled(Exec(Scripted(verdicts), s, acts))
  {
    if events == [] {
      acts := [];
    } else {
      var before, e := events[..|events| - 1], events[|events| - 1];
      assert before + [e] == events;
      VerdictsNext(before, e);
      var first := Realised(s, before, verdicts);
      acts := RealisedNext(s, first, before, e, verdicts);
    }
  }

  lemma RealisedNext(s: System, first: seq<Act>, before: seq<M.Event>, e: M.Event, verdicts: seq<bool>)
    returns (acts: seq<Act>)
    requires Begins(s) && Possible(s.parent, s.waiting, before, e) && M.Verdicts(before + [e]) <= verdicts
    requires PartOf(Scripted(verdicts), s, first) == before && Settled(Exec(Scripted(verdicts), s, first))
    ensures PartOf(Scripted(verdicts), s, acts) == before + [e] && Settled(Exec(Scripted(verdicts), s, acts))
  {
    var w := Scripted(verdicts);
    var t := Exec(w, s, first);
    ConservedThroughout(w, s, first);
    PartRealisable(w, s, first);
    var more := OneMore(s, before, t, e, verdicts);
    PartOnward(w, s, first, more, t);
    ExecAppend(w, s, first, more);
    acts := first + more;
  }

  lemma OneMore(s: System, before: seq<M.Event>, t: System, e: M.Event, verdicts: seq<bool>) returns (acts: seq<Act>)
    requires Records(s, before, t) && Settled(t) && Conserved(Scripted(verdicts), t)
    requires Possible(s.parent, s.waiting, before, e) && M.Verdicts(before + [e]) <= verdicts
    ensures PartOf(Scripted(verdicts), t, acts) == [e] && Settled(Exec(Scripted(verdicts), t, acts))
  {
    if e.ReplyRead? {
      VerdictsNext(before, e);
      assert M.Verdicts(before + [e])[t.consumed] == e.success;
      acts := AnswerNext(verdicts, t, e.at);
    } else {
      acts := Happening(Scripted(verdicts), t, e);
    }
  }

  // ---------------------------------------------------------------- the course of main

  predicate NoneFails(v: M.View, events: seq<M.Event>) {
    events == []
    || (var before := events[..|events| - 1];
        NoneFails(v, before) && !M.WriteFails(M.Replay(v, before), events[|events| - 1]))
  }

  /** No reply is read before its request was made. */
  predicate Causal(v: M.View, events: seq<M.Event>) {
    events == []
    || (var before := events[..|events| - 1];
        Causal(v, before)
        && (events[|events| - 1].ReplyRead? ==> |M.Verdicts(before)| < |M.Posted(v, before)|))
  }

  /** The loop is started once, and replies are read only after that. */
  predicate Ordered(waiting: bool, events: seq<M.Event>) {
    events == []
    || (var before, e := events[..|events| - 1], events[|events| - 1];
        Ordered(waiting, before)
        && (e.Start? ==> StillWaiting(waiting, before)) && (e.ReplyRead? ==> !StillWaiting(waiting, before)))
  }

  lemma {:induction false} RealisableParts(v: M.View, waiting: bool, events: seq<M.Event>)
    ensures Realisable(v, waiting, events) <==>
            M.ArmedThroughout(v, events) && NoneFails(v, events) && Causal(v, events) && Ordered(waiting, events)
  {
    if events != [] {
      RealisableParts(v, waiting, events[..|events| - 1]);
    }
  }

  /** Events that signals stand for come from no timer. */
  lemma MatchesUntimed(signals: seq<L.Signal>, events: seq<M.Event>)
    requires R.Matches(signals, events)
    ensures forall i :: 0 <= i < |events| ==> !M.FromTimer(events[i])
  {
    forall i | 0 <= i < |events|
      ensures !M.FromTimer(events[i])
    {
      assert L.Meets(signals[i], events[i]);
    }
  }

  lemma DisplayUntimed(r: R.Round, seats: nat, events: seq<M.Event>)
    requires R.DisplayPart(r, seats, events)
    ensures forall i :: 0 <= i < |events| ==> !M.FromTimer(events[i])
  {
    var signals := R.Delivered(R.Arrivals(r.messages), seats);
    MatchesUntimed(signals, events[..|signals|]);
    forall i | 0 <= i < |events|
      ensures !M.FromTimer(events[i])
    {
      assert i < |signals| ==> events[i] == events[..|signals|][i];
    }
  }

  lemma CallUntimed(s: R.Status, h: F.Handler, r: R.Round, events: seq<M.Event>, t: R.Status)
    requires R.CallDone(s, h, r, events, t)
    ensures M.ArmedThroughout(s.at.view, events)
  {
    if h.DisplayIn? {
      DisplayUntimed(r, |s.at.view.seats|, events);
    }
    M.NoTimerArmed(s.at.view, events);
  }

  lemma {:induction false} CallsArmed(r: R.Round, calls: R.Trace<seq<M.Event>>)
    requires R.CallsDone(r, calls)
    ensures M.ArmedThroughout(R.Begin(calls).at.view, R.CallEvents(calls))
  {
    match calls
    case Begun(_) =>
    case Then(before, events, t) =>
      CallsArmed(r, before);
      R.CallsMove(r, before);
      CallUntimed(R.End(before), R.DueCalls(r)[R.Length(before)], r, events, t);
      M.ArmedOnward(R.Begin(before).at.view, R.CallEvents(before), R.End(before).at.view, events);
  }

  lemma TurnArmed(s: R.Status, r: R.Round, turn: R.Turn, t: R.Status)
    requires R.TurnDone(s, r, turn, t)
    ensures M.ArmedThroughout(s.at.view, R.EventsOf(turn))
  {
    CallsArmed(r, turn.calls);
    R.CallsMove(r, turn.calls);
    M.ArmedOnward(s.at.view, R.CallEvents(turn.calls), R.End(turn.calls).at.view, turn.timers);
  }

  lemma {:induction false} RunArmed(rounds: seq<R.Round>, turns: R.Trace<R.Turn>)
    requires R.TurnsDone(rounds, turns)
    ensures M.ArmedThroughout(R.Begin(turns).at.view, R.AllEvents(turns))
  {
    match turns
    case Begun(_) =>
    case Then(before, turn, t) =>
      RunArmed(rounds, before);
      R.RunReaches(rounds, before);
      TurnArmed(R.End(before), rounds[R.Length(before)], turn, t);
      M.ArmedOnward(R.Begin(before).at.view, R.AllEvents(before), R.End(before).at.view, R.EventsOf(turn));
  }

  lemma PartUntimed(s: R.Status, arrivals: seq<R.Arrival>, events: seq<M.Event>, t: R.Status)
    requires R.ArrivalsDone(s, arrivals, events, t)
    ensures M.ArmedThroughout(s.at.view, events) && R.Reached(s.at, events, t.at) && R.Quiet(events)
  {
    MatchesUntimed(R.Delivered(arrivals, |s.at.view.seats|), events);
    M.NoTimerArmed(s.at.view, events);
  }

  lemma OpeningArmed(s: R.Status, script: R.Script, o: R.Opening)
    requires R.Opened(s, script, o)
    ensures M.ArmedThroughout(s.at.view, R.OpeningEvents(o)) && R.Quiet(R.OpeningEvents(o))
    ensures R.Reached(s.at, R.OpeningEvents(o), o.granted.at)
  {
    var a, b := R.Arrivals(script.first.messages), R.Arrivals(script.second.messages);
    var rest := R.Sent(script.waiting[..R.Outset(script).batches]);
    PartUntimed(s, a, o.first, o.connected);
    PartUntimed(R.Said(o.connected, R.LockRequested), b, o.second, o.requested);
    PartUntimed(R.Covered(o.requested), rest, o.rest, o.granted);
    OpeningJoined(s.at, o.first, o.connected.at, o.second, o.requested.at, o.rest, o.granted.at);
  }

  lemma OpeningJoined(p: R.Point, a: seq<M.Event>, q: R.Point, b: seq<M.Event>, r: R.Point, c: seq<M.Event>, t: R.Point)
    requires R.Reached(p, a, q) && R.Reached(q, b, r) && R.Reached(r, c, t)
    requires M.ArmedThroughout(p.view, a) && M.ArmedThroughout(q.view, b) && M.ArmedThroughout(r.view, c)
    requires R.Quiet(a) && R.Quiet(b) && R.Quiet(c)
    ensures M.ArmedThroughout(p.view, a + b + c) && R.Quiet(a + b + c) && R.Reached(p, a + b + c, t)
  {
    M.ArmedOnward(p.view, a, q.view, b);
    R.ReachedOnward(p, a, q, b, r);
    M.ArmedOnward(p.view, a + b, r.view, c);
    R.ReachedOnward(p, a + b, r, c, t);
  }

  lemma {:induction false} QuietOrdered(events: seq<M.Event>)
    requires R.Quiet(events)
    ensures Ordered(true, events) && StillWaiting(true, events)
  {
    if events != [] {
      QuietOrdered(events[..|events| - 1]);
    }
  }

  lemma {:induction false} OrderedOnward(before: seq<M.Event>, rest: seq<M.Event>)
    requires Ordered(true, before) && !StillWaiting(true, before) && R.NoStart(rest)
    ensures Ordered(true, before + rest) && !StillWaiting(true, before + rest)
  {
    if rest == [] {
      assert before + rest == before;
    } else {
      OrderedOnward(before, rest[..|rest| - 1]);
      assert (before + rest)[..|before + rest| - 1] == before + rest[..|rest| - 1];
    }
  }

  lemma OrderedStart(before: seq<M.Event>, start: M.Event)
    requires Ordered(true, before) && StillWaiting(true, before) && start.Start?
    ensures Ordered(true, before + [start]) && !StillWaiting(true, before + [start])
  {
    assert (before + [start])[..|before|] == before;
  }

  /** Every event of the course of `main` could happen: its timers were armed, and replies are read in the loop only. */
  lemma CourseArmed(s: R.Status, script: R.Script, c: R.Course)
    requires R.Taken(s, script, c)
    ensures M.ArmedThroughout(s.at.view, R.CourseEvents(c)) && Ordered(true, R.CourseEvents(c))
  {
    var first := R.OpeningEvents(c.opening);
    OpeningArmed(s, script, c.opening);
    QuietOrdered(first);
    OrderedStart(first, c.start);
    RunArmed(script.rounds, c.turns);
    R.RunReaches(script.rounds, c.turns);
    OrderedOnward(first + [c.start], R.AllEvents(c.turns));
    StartArmed(s.at, first, c.opening.granted.at, c.start, R.Begin(c.turns).at, R.AllEvents(c.turns));
  }

  lemma StartArmed(p: R.Point, first: seq<M.Event>, q: R.Point, start: M.Event, r: R.Point, rest: seq<M.Event>)
    requires R.Reached(p, first, q) && M.ArmedThroughout(p.view, first) && start.Start?
    requires R.Reached(q, [start], r) && M.ArmedThroughout(r.view, rest)
    ensures M.ArmedThroughout(p.view, first + [start] + rest)
  {
    M.ArmedNext(p.view, first, start);
    R.ReachedOnward(p, first, q, [start], r);
    M.ArmedOnward(p.view, first + [start], r.view, rest);
  }

  /** No phantom keys in the course of `main`: whatever stopped a repeat, a key was pressed before there is another. */
  lemma CoursePressedBetween(s: R.Status, script: R.Script, c: R.Course, i: nat, k: nat, m: nat) returns (j: nat)
    requires R.Taken(s, script, c) && k < m < |R.CourseEvents(c)|
    requires var events := R.CourseEvents(c);
             E.Stills(M.Replay(s.at.view, events[..k]), events[k], i) && E.Repeats(events[m], i)
    ensures k < j < m && R.CourseEvents(c)[j].KeyPressed? && R.CourseEvents(c)[j].seat == i
  {
    CourseArmed(s, script, c);
    j := E.PressedBetween(s.at.view, R.CourseEvents(c), i, k, m);
  }

  /** The state `main` begins with: nothing typed that could not be sent, no attempt counted, the loop not started. */
  predicate Fresh(v: M.View) {
    !v.core.running && v.core.failed == 0 && M.Good(v.core) && M.Fits(v.core)
  }

  /**
   The course of `main` is the parent's part of some run of both processes exactly if every request it makes goes out
   and no reply comes before its request.
   */
  lemma CourseIsJoint(s: R.Status, script: R.Script, c: R.Course) returns (w: World, acts: seq<Act>)
    requires R.Taken(s, script, c) && Fresh(s.at.view)
    ensures PartOf(w, Initial(s.at.view), acts) == R.CourseEvents(c) <==>
            NoneFails(s.at.view, R.CourseEvents(c)) && Causal(s.at.view, R.CourseEvents(c))
  {
    var events, t := R.CourseEvents(c), Initial(s.at.view);
    CourseArmed(s, script, c);
    RealisableParts(s.at.view, true, events);
    w, acts := Scripted(M.Verdicts(events)), [];
    if Realisable(s.at.view, true, events) {
      acts := Realised(t, events, M.Verdicts(events));
    } else {
      PartRealisable(w, t, acts);
    }
  }

  /** No run of both processes has any other course as its parent's part. */
  lemma JointOnly(s: R.Status, script: R.Script, c: R.Course, w: World, acts: seq<Act>)
    requires R.Taken(s, script, c) && Fresh(s.at.view)
    requires PartOf(w, Initial(s.at.view), acts) == R.CourseEvents(c)
    ensures NoneFails(s.at.view, R.CourseEvents(c)) && Causal(s.at.view, R.CourseEvents(c))
  {
    PartRealisable(w, Initial(s.at.view), acts);
    RealisableParts(s.at.view, true, R.CourseEvents(c));
  }

  predicate Interrupts(events: seq<M.Event>) {
    exists k :: 0 <= k < |events| && (events[k].Terminate? || events[k].DisplayFailed?)
  }

  /**
   Main result: when the course of `main` runs beside a child, the requests submitted are the texts it posted, and its
   loop is left by a cleared flag, without SIGUSR1 or a failed dispatch, only if one of those passwords was found right.
   */
  lemma UnlockedByRightPassword(s: R.Status, script: R.Script, c: R.Course, w: World, acts: seq<Act>)
    requires R.Taken(s, script, c) && Fresh(s.at.view) && s.at.posted == []
    requires PartOf(w, Initial(s.at.view), acts) == R.CourseEvents(c)
    ensures var t := Exec(w, Initial(s.at.view), acts);
            && t.parent == R.End(c.turns).at.view && t.submitted == Requests(R.End(c.turns).at.posted)
            && t.consumed == |M.Verdicts(R.CourseEvents(c))| <= |t.judged| <= |t.submitted|
            && (c.left == R.Cleared && !Interrupts(R.CourseEvents(c)) ==>
                  exists k :: 0 <= k < t.consumed && w.verdict(k, t.submitted[k]) == Some(true))
  {
    var p := Initial(s.at.view);
    R.CourseReaches(s, script, c);
    PartRealisable(w, p, acts);
    VerdictsMatchSubmissions(w, p, acts);
    CourseStarted(s, script, c);
    assert [] + M.Posted(s.at.view, R.CourseEvents(c)) == M.Posted(s.at.view, R.CourseEvents(c));
  }

  lemma CourseStarted(s: R.Status, script: R.Script, c: R.Course)
    requires R.Taken(s, script, c)
    ensures !StillWaiting(true, R.CourseEvents(c))
  {
    var first := R.OpeningEvents(c.opening);
    OpeningArmed(s, script, c.opening);
    QuietOrdered(first);
    OrderedStart(first, c.start);
    R.RunReaches(script.rounds, c.turns);
    OrderedOnward(first + [c.start], R.AllEvents(c.turns));
  }

  /** The text that opened the lock. */
  lemma RightText(s: R.Status, script: R.Script, c: R.Course, w: World, acts: seq<Act>) returns (k: nat)
    requires R.Taken(s, script, c) && Fresh(s.at.view) && s.at.posted == []
    requires PartOf(w, Initial(s.at.view), acts) == R.CourseEvents(c)
    requires c.left == R.Cleared && !Interrupts(R.CourseEvents(c))
    ensures var t, posted := Exec(w, Initial(s.at.view), acts), R.End(c.turns).at.posted;
            k < |t.judged| && t.judged[k] && k < |posted| && k < |t.submitted| && t.submitted[k] == EncodeAll(posted[k])
  {
    var t := Exec(w, Initial(s.at.view), acts);
    UnlockedByRightPassword(s, script, c, w, acts);
    VerdictsMatchSubmissions(w, Initial(s.at.view), acts);
    k :| k < t.consumed && w.verdict(k, t.submitted[k]) == Some(true);
    assert Some(t.judged[k]) == w.verdict(k, t.submitted[k]);
  }

  /** With the PAM child: only if `pam_authenticate` succeeded on one of the texts posted. */
  lemma UnlockedByPam(s: R.Status, script: R.Script, c: R.Course, stack: PB.Stack, acts: seq<Act>) returns (k: nat)
    requires R.Taken(s, script, c) && Fresh(s.at.view) && s.at.posted == []
    requires PartOf(PamWorld(stack), Initial(s.at.view), acts) == R.CourseEvents(c)
    requires c.left == R.Cleared && !Interrupts(R.CourseEvents(c))
    ensures k < |R.End(c.turns).at.posted|
    ensures var pw := EncodeAll(R.End(c.turns).at.posted[k]);
            stack.judge(k, if PB.Asked(stack.calls(k)) then Some(pw) else None) == PB.PamSuccess
  {
    k := RightText(s, script, c, PamWorld(stack), acts);
    JudgedAsOwed(stack, Initial(s.at.view), acts);
  }

  /** With the shadow child: only if `crypt` makes the stored hash of one of the texts posted. */
  lemma UnlockedByHash(s: R.Status, script: R.Script, c: R.Course, crypt: SB.Crypt, hash: seq<Byte>, acts: seq<Act>)
    returns (k: nat)
    requires R.Taken(s, script, c) && Fresh(s.at.view) && s.at.posted == []
    requires PartOf(ShadowWorld(crypt, hash), Initial(s.at.view), acts) == R.CourseEvents(c)
    requires c.left == R.Cleared && !Interrupts(R.CourseEvents(c))
    ensures k < |R.End(c.turns).at.posted| && crypt(EncodeAll(R.End(c.turns).at.posted[k]), hash) == Some(hash)
  {
    k := RightText(s, script, c, ShadowWorld(crypt, hash), acts);
    JudgedAsServed(crypt, hash, Initial(s.at.view), acts);
  }
}

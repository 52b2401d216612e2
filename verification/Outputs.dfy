/** Which outputs have a lock surface, over the whole course of `main` (main.c:214-220, main.c:458-529). */
module Outputs {
  import opened Sequences
  import opened FdTable
  import opened Runs
  import M = Machine

  /**
   The outputs after the arrivals `h`, when lock surfaces were made for all of them after the first `made` arrivals and
   the main loop runs from the `entered`-th on.
   */
  function History(h: seq<Arrival>, made: nat, entered: nat): seq<Output> {
    if h == [] then []
    else
      var n := |h| - 1;
      var outputs := OutputStep(History(h[..n], made, entered), n >= entered, n, h[n]);
      if |h| == made then AllCreated(outputs) else outputs
  }

  /** The `k`-th arrival comes while the loop runs, and says that the output announced as the `at`-th is complete. */
  predicate Completes(h: seq<Arrival>, made: nat, entered: nat, k: nat, at: nat) {
    && entered <= k < |h| && h[k].DoneSent?
    && var outputs := History(h[..k], made, entered);
       h[k].surface < |outputs| && outputs[h[k].surface].at == at
  }

  predicate Completed(h: seq<Arrival>, made: nat, entered: nat, at: nat) {
    exists k {:trigger Completes(h, made, entered, k, at)} :: 0 <= k < |h| && Completes(h, made, entered, k, at)
  }

  lemma CompletesBefore(h: seq<Arrival>, made: nat, entered: nat, k: nat, at: nat)
    requires h != [] && k < |h| - 1
    ensures Completes(h, made, entered, k, at) <==> Completes(h[..|h| - 1], made, entered, k, at)
  {
    assert h[..|h| - 1][..k] == h[..k];
  }

  lemma CompletedNext(h: seq<Arrival>, made: nat, entered: nat, at: nat)
    requires h != []
    ensures var n := |h| - 1;
            Completed(h, made, entered, at) <==>
            Completed(h[..n], made, entered, at) || Completes(h, made, entered, n, at)
  {
    var n := |h| - 1;
    forall k | 0 <= k < n
      ensures Completes(h, made, entered, k, at) <==> Completes(h[..n], made, entered, k, at)
    {
      CompletesBefore(h, made, entered, k, at);
    }
  }

  predicate Ascending(outputs: seq<Output>, bound: nat) {
    && (forall i :: 0 <= i < |outputs| ==> outputs[i].at < bound)
    && (forall i, j :: 0 <= i < j < |outputs| ==> outputs[i].at < outputs[j].at)
  }

  lemma {:induction false} HistoryAscends(h: seq<Arrival>, made: nat, entered: nat)
    ensures Ascending(History(h, made, entered), |h|)
  {
    if h != [] {
      var n := |h| - 1;
      HistoryAscends(h[..n], made, entered);
      StepAscends(History(h[..n], made, entered), n >= entered, n, h[n]);
    }
  }

  lemma StepAscends(outputs: seq<Output>, running: bool, at: nat, a: Arrival)
    requires Ascending(outputs, at)
    ensures Ascending(OutputStep(outputs, running, at, a), at + 1)
  {}

  lemma NotYetCompleted(h: seq<Arrival>, made: nat, entered: nat, at: nat)
    requires at >= |h|
    ensures !Completed(h, made, entered, at)
  {
    forall k | 0 <= k < |h|
      ensures !Completes(h, made, entered, k, at)
    {
      HistoryAscends(h[..k], made, entered);
    }
  }

  /** What is to be shown of one output. */
  predicate Exact(h: seq<Arrival>, made: nat, entered: nat, o: Output) {
    && o.at < |h| && h[o.at] == OutputAnnounced
    && (o.created <==> o.at < made <= |h| || Completed(h, made, entered, o.at))
  }

  lemma ExactKept(h: seq<Arrival>, made: nat, entered: nat, o: Output, p: Output)
    requires h != [] && |h| != made && Exact(h[..|h| - 1], made, entered, o) && p.at == o.at
    requires p.created <==> o.created || Completes(h, made, entered, |h| - 1, o.at)
    ensures Exact(h, made, entered, p)
  {
    CompletedNext(h, made, entered, o.at);
  }

  lemma ExactMade(h: seq<Arrival>, made: nat, entered: nat, o: Output)
    requires |h| == made && o.created && o.at < |h| && h[o.at] == OutputAnnounced
    ensures Exact(h, made, entered, o)
  {}

  lemma ExactNew(h: seq<Arrival>, made: nat, entered: nat, o: Output)
    requires h != [] && |h| != made && o == Output(|h| - 1, false) && h[|h| - 1] == OutputAnnounced
    ensures Exact(h, made, entered, o)
  {
    NotYetCompleted(h[..|h| - 1], made, entered, o.at);
    CompletedNext(h, made, entered, o.at);
  }

  /** Where an output comes from that an arrival did not add. */
  lemma StepFrom(outputs: seq<Output>, running: bool, at: nat, a: Arrival, i: nat) returns (j: nat)
    requires i < |OutputStep(outputs, running, at, a)| && !(a == OutputAnnounced && i == |outputs|)
    ensures j < |outputs|
    ensures var o := OutputStep(outputs, running, at, a)[i];
            o.at == outputs[j].at && (o.created <==> outputs[j].created || (running && a.DoneSent? && a.surface == j))
  {
    j := if a.OutputGone? && a.surface < |outputs| && a.surface <= i then i + 1 else i;
  }

  /** The last arrival completes an output exactly if it names its place. */
  lemma CompletesLast(h: seq<Arrival>, made: nat, entered: nat, j: nat)
    requires h != []
    requires var before := History(h[..|h| - 1], made, entered); Ascending(before, |h| - 1) && j < |before|
    ensures var n := |h| - 1;
            Completes(h, made, entered, n, History(h[..n], made, entered)[j].at) <==>
            n >= entered && h[n].DoneSent? && h[n].surface == j
  {}

  /** Every output listed was announced, and has a lock surface exactly if it was given one or completed in the loop. */
  lemma {:induction false} HistoryExact(h: seq<Arrival>, made: nat, entered: nat, i: nat)
    requires made <= entered && i < |History(h, made, entered)|
    ensures Exact(h, made, entered, History(h, made, entered)[i])
  {
    var n := |h| - 1;
    var before, a := History(h[..n], made, entered), h[n];
    var after := OutputStep(before, n >= entered, n, a);
    HistoryAscends(h[..n], made, entered);
    if a == OutputAnnounced && i == |before| {
      NewExact(h, made, entered, after[i], History(h, made, entered)[i]);
    } else {
      var j := StepFrom(before, n >= entered, n, a, i);
      HistoryExact(h[..n], made, entered, j);
      CompletesLast(h, made, entered, j);
      OldExact(h, made, entered, before[j], after[i], History(h, made, entered)[i]);
    }
  }

  lemma NewExact(h: seq<Arrival>, made: nat, entered: nat, o: Output, p: Output)
    requires h != [] && o == Output(|h| - 1, false) && h[|h| - 1] == OutputAnnounced
    requires p == if |h| == made then o.(created := true) else o
    ensures Exact(h, made, entered, p)
  {
    if |h| == made {
      ExactMade(h, made, entered, p);
    } else {
      ExactNew(h, made, entered, p);
    }
  }

  lemma OldExact(h: seq<Arrival>, made: nat, entered: nat, o: Output, p: Output, q: Output)
    requires h != [] && Exact(h[..|h| - 1], made, entered, o) && p.at == o.at
    requires p.created <==> o.created || Completes(h, made, entered, |h| - 1, o.at)
    requires q == if |h| == made then p.(created := true) else p
    ensures Exact(h, made, entered, q)
  {
    if |h| == made {
      ExactMade(h, made, entered, q);
    } else {
      ExactKept(h, made, entered, o, q);
    }
  }

  // ---------------------------------------------------------------- the course of main

  /** Arrivals that cross neither point. */
  lemma {:induction false} HistoryOnward(h: seq<Arrival>, more: seq<Arrival>, running: bool, made: nat, entered: nat)
    requires if running then |h| >= entered else |h + more| <= entered
    requires |h + more| < made || |h| >= made
    ensures History(h + more, made, entered) == OutputsAfter(History(h, made, entered), running, |h|, more)
  {
    if more == [] {
      assert h + more == h;
    } else {
      var before := more[..|more| - 1];
      HistoryOnward(h, before, running, made, entered);
      assert (h + more)[..|h + more| - 1] == h + before;
    }
  }

  /** Arrivals up to the point where lock surfaces are made. */
  lemma HistoryMade(h: seq<Arrival>, entered: nat)
    requires |h| <= entered
    ensures History(h, |h|, entered) == AllCreated(OutputsAfter([], false, 0, h))
  {
    if h == [] {
      assert AllCreated([]) == [];
    } else {
      var before := h[..|h| - 1];
      HistoryOnward([], before, false, |h|, entered);
      assert [] + before == before;
    }
  }

  /** What a part of the loop did to the outputs: it handled `more`. */
  predicate Brought(s: Status, more: seq<Arrival>, t: Status) {
    t.handled == s.handled + more && t.outputs == OutputsAfter(s.outputs, true, |s.handled|, more)
  }

  lemma BroughtOnward(s: Status, more: seq<Arrival>, t: Status, others: seq<Arrival>, u: Status)
    requires Brought(s, more, t) && Brought(t, others, u)
    ensures Brought(s, more + others, u)
  {
    OutputsOnward(s.outputs, true, |s.handled|, more, others);
    Regroup(s.handled, more, others);
  }

  lemma BroughtNothing(s: Status, t: Status)
    requires t.handled == s.handled && t.outputs == s.outputs
    ensures Brought(s, [], t)
  {}

  lemma CallBringsNothing(s: Status, h: Handler, r: Round, events: seq<M.Event>, t: Status)
    requires CallDone(s, h, r, events, t) && h != DisplayIn
    ensures t.handled == s.handled && t.outputs == s.outputs
  {}

  lemma DisplayBrings(s: Status, r: Round, events: seq<M.Event>, t: Status)
    requires CallDone(s, DisplayIn, r, events, t) && s.at.view.core.running
    ensures Brought(s, Arrivals(r.messages), t)
  {}

  lemma DisplayFirst(r: Round, k: nat)
    requires k < |DueCalls(r)| && DueCalls(r)[k] == DisplayIn
    ensures k == 0
  {}

  /** Only the display's callback, which comes first, brings anything. */
  lemma LastCallBrings(r: Round, calls: Trace<seq<M.Event>>)
    requires CallsDone(r, calls) && calls.Then? && Begin(calls).at.view.core.running
    ensures CallsDone(r, calls.before)
    ensures if DueCalls(r)[Length(calls.before)] == DisplayIn
            then Brought(Begin(calls), Arrivals(r.messages), calls.now)
            else calls.now.handled == End(calls.before).handled && calls.now.outputs == End(calls.before).outputs
  {
    if DueCalls(r)[Length(calls.before)] == DisplayIn {
      DisplayFirst(r, Length(calls.before));
      DisplayBrings(Begin(calls), r, calls.what, calls.now);
    } else {
      CallBringsNothing(End(calls.before), DueCalls(r)[Length(calls.before)], r, calls.what, calls.now);
    }
  }

  lemma {:induction false} CallsBring(r: Round, calls: Trace<seq<M.Event>>) returns (more: seq<Arrival>)
    requires CallsDone(r, calls) && Begin(calls).at.view.core.running
    ensures Brought(Begin(calls), more, End(calls))
    decreases calls
  {
    if calls.Begun? {
      more := [];
      BroughtNothing(calls.start, calls.start);
    } else {
      LastCallBrings(r, calls);
      if DueCalls(r)[Length(calls.before)] == DisplayIn {
        more := Arrivals(r.messages);
      } else {
        more := CallsBring(r, calls.before);
      }
    }
  }

  lemma TurnBrings(s: Status, r: Round, turn: Turn, t: Status) returns (more: seq<Arrival>)
    requires TurnDone(s, r, turn, t) && s.at.view.core.running
    ensures Brought(s, more, t)
  {
    more := CallsBring(r, turn.calls);
  }

  lemma {:induction false} RunBrings(rounds: seq<Round>, turns: Trace<Turn>) returns (more: seq<Arrival>)
    requires TurnsDone(rounds, turns)
    ensures Brought(Begin(turns), more, End(turns))
  {
    match turns
    case Begun(s) =>
      more := [];
      BroughtNothing(s, s);
    case Then(before, turn, t) =>
      var first := RunBrings(rounds, before);
      var last := TurnBrings(End(before), rounds[Length(before)], turn, t);
      BroughtOnward(Begin(before), first, End(before), last, t);
      more := first + last;
  }

  lemma OpeningHistory(a: seq<Arrival>, b: seq<Arrival>, rest: seq<Arrival>)
    ensures History(a + b + rest, |a + b|, |a + b + rest|) ==
            OutputsAfter(AllCreated(OutputsAfter(OutputsAfter([], false, 0, a), false, |a|, b)), false, |a + b|, rest)
  {
    OutputsOnward([], false, 0, a, b);
    HistoryMade(a + b, |a + b + rest|);
    HistoryOnward(a + b, rest, false, |a + b|, |a + b + rest|);
  }

  /** What arrivals before the loop do to the outputs. */
  lemma PartBrings(s: Status, arrivals: seq<Arrival>, events: seq<M.Event>, t: Status)
    requires ArrivalsDone(s, arrivals, events, t) && !s.at.view.core.running
    ensures !t.at.view.core.running && t.handled == s.handled + arrivals
    ensures t.outputs == OutputsAfter(s.outputs, false, |s.handled|, arrivals)
  {
    StillStopped(s.at, events, t.at);
  }

  lemma OpeningBrings(s: Status, script: Script, o: Opening)
    requires Opened(s, script, o) && s.handled == [] && s.outputs == [] && !s.at.view.core.running
    ensures |o.requested.handled| <= |o.granted.handled|
    ensures o.granted.outputs == History(o.granted.handled, |o.requested.handled|, |o.granted.handled|)
  {
    var a, b := Arrivals(script.first.messages), Arrivals(script.second.messages);
    var rest := Sent(script.waiting[..Outset(script).batches]);
    PartBrings(s, a, o.first, o.connected);
    PartBrings(Said(o.connected, LockRequested), b, o.second, o.requested);
    PartBrings(Covered(o.requested), rest, o.rest, o.granted);
    assert [] + a == a;
    OpeningHistory(a, b, rest);
  }

  /**
   At every turn of the loop an output has its lock surface exactly if it was announced before `main` made one for
   all, or its completion came while the loop ran.
   */
  lemma LockSurfacesExactly(s: Status, script: Script, c: Course, i: nat)
    requires Taken(s, script, c) && s.handled == [] && s.outputs == [] && !s.at.view.core.running
    requires i < |End(c.turns).outputs|
    ensures var h, o := End(c.turns).handled, End(c.turns).outputs[i];
            var made, entered := |c.opening.requested.handled|, |Begin(c.turns).handled|;
            && o.at < |h| && h[o.at] == OutputAnnounced
            && (o.created <==> o.at < made || Completed(h, made, entered, o.at))
  {
    var made, entered := |c.opening.requested.handled|, |Begin(c.turns).handled|;
    OpeningBrings(s, script, c.opening);
    var more := RunBrings(script.rounds, c.turns);
    HistoryOnward(Begin(c.turns).handled, more, true, made, entered);
    HistoryExact(End(c.turns).handled, made, entered, i);
  }
}

/** Timers of the event loop (src/loop.c:66-83, src/loop.c:107-128, src/loop.c:157-182, src/loop.c:203-213). */
module EventLoop {
  import opened Deadlines

  /** The callbacks timers are created with; the data pointer of a key repeat is its seat. */
  datatype Callback = SetTime | SetAuthIdle | ClearPassword | KeyboardRepeat(seat: nat)

  /** `struct loop_timer`, without its mark and link. */
  datatype Timer = Timer(callback: Callback, alarm: Alarm)

  /** The expiry stored in a timer. */
  function Expiry(t: Timer): Timespec {
    Deadline(t.alarm.at, t.alarm.ms)
  }

  /** A timer handle: the address of a node, or NULL. An address is not given out twice. */
  type Address = nat
  const NULL: Address := 0

  /**
   The nodes ever allocated, in order of allocation; those in `list` are allocated now and linked,
   newest last (the head, where timers are inserted and walks start, is the last element); those in
   `live` are not marked removed. A node that has left `list` has been freed.
   */
  datatype Timers = Timers(nodes: seq<Timer>, list: seq<Address>, live: set<Address>)

  const EMPTY: Timers := Timers([Timer(SetTime, Alarm(Timespec(0, 0), 0))], [], {})

  predicate Sound(t: Timers) {
    && |t.nodes| > 0
    && (forall i, j :: 0 <= i < j < |t.list| ==> t.list[i] < t.list[j])
    && (forall i {:trigger t.list[i]} :: 0 <= i < |t.list| ==> 0 < t.list[i] < |t.nodes|)
    && (forall a {:trigger a in t.live} :: a in t.live ==> 0 < a < |t.nodes|)
    && (forall a {:trigger a in t.list} :: a in t.live ==> a in t.list)
  }

  /** Every timer was armed at a time the clock has shown. */
  predicate Timed(t: Timers, now: Timespec) {
    forall a {:trigger t.nodes[a]} :: 0 < a < |t.nodes| ==>
      Normal(t.nodes[a].alarm.at) && Nanos(t.nodes[a].alarm.at) <= Nanos(now)
  }

  /** The state after `loop_add_timer`. */
  function Added(t: Timers, timer: Timer): Timers {
    Timers(t.nodes + [timer], t.list + [|t.nodes|], t.live + {|t.nodes|})
  }

  /** The state after `loop_remove_timer`: the node is marked, not unlinked. */
  function Marked(t: Timers, a: Address): Timers {
    t.(live := t.live - {a})
  }

  /** The state after a node is unlinked and freed. */
  function Freed(t: Timers, at: nat): Timers
    requires at < |t.list|
  {
    Timers(t.nodes, t.list[..at] + t.list[at + 1..], t.live - {t.list[at]})
  }

  lemma AddedSound(t: Timers, timer: Timer)
    requires Sound(t)
    ensures Sound(Added(t, timer))
  {
    var u := Added(t, timer);
    forall a | a in u.live
      ensures a in u.list
    {
      if a == |t.nodes| {
        assert u.list[|t.list|] == a;
      } else {
        assert a in t.list;
      }
    }
  }

  lemma MarkedSound(t: Timers, a: Address)
    requires Sound(t)
    ensures Sound(Marked(t, a))
  {}

  lemma FreedSound(t: Timers, at: nat)
    requires Sound(t) && at < |t.list|
    ensures Sound(Freed(t, at))
    ensures t.list[at] !in Freed(t, at).list
  {
    var u := Freed(t, at);
    forall i | 0 <= i < |u.list|
      ensures u.list[i] == t.list[if i < at then i else i + 1]
    {}
    forall a | a in u.live
      ensures a in u.list
    {
      assert a in t.list;
      var k :| 0 <= k < |t.list| && t.list[k] == a;
      assert u.list[if k < at then k else k - 1] == a;
    }
  }

  /** Timers are only added at the head and only marked; none is unlinked or freed. */
  predicate Grows(t: Timers, u: Timers) {
    && t.list <= u.list && t.nodes <= u.nodes
    && (forall i :: |t.list| <= i < |u.list| ==> |t.nodes| <= u.list[i])
    && (forall a :: a in u.live ==> a in t.live || |t.nodes| <= a)
  }

  lemma GrowsTransitive(t: Timers, u: Timers, v: Timers)
    requires Grows(t, u) && Grows(u, v)
    ensures Grows(t, v)
  {
    forall i | |t.list| <= i < |v.list|
      ensures |t.nodes| <= v.list[i]
    {
      if i < |u.list| {
        assert v.list[i] == u.list[i];
      }
    }
  }

  /** Timers added since `t` were armed no earlier than `from`. */
  predicate Since(t: Timers, from: Timespec, u: Timers) {
    forall a {:trigger u.nodes[a]} :: |t.nodes| <= a < |u.nodes| ==> Nanos(from) <= Nanos(u.nodes[a].alarm.at)
  }

  lemma SinceEarlier(t: Timers, earlier: Timespec, from: Timespec, u: Timers)
    requires Since(t, from, u) && Nanos(earlier) <= Nanos(from)
    ensures Since(t, earlier, u)
  {}

  /** Timers are only added or marked while time goes on, and those added are armed with the clock of the moment. */
  predicate Onward(t: Timers, c: Timespec, u: Timers, d: Timespec) {
    Grows(t, u) && Nanos(c) <= Nanos(d) && Since(t, c, u)
  }

  lemma OnwardTransitive(t: Timers, c: Timespec, u: Timers, d: Timespec, v: Timers, e: Timespec)
    requires Onward(t, c, u, d) && Onward(u, d, v, e)
    ensures Onward(t, c, v, e)
  {
    GrowsTransitive(t, u, v);
    forall a | |t.nodes| <= a < |v.nodes|
      ensures Nanos(c) <= Nanos(v.nodes[a].alarm.at)
    {
      if a < |u.nodes| {
        assert v.nodes[a] == u.nodes[a];
      }
    }
  }

  // ---------------------------------------------------------------- one pass over the timers

  /** The timer whose turn is the j-th of a pass that starts with `t`: newest first. */
  function AtTurn(t: Timers, j: nat): Address
    requires j < |t.list|
  {
    t.list[|t.list| - 1 - j]
  }

  /** Past its expiry when the pass read the clock. */
  predicate Past(t: Timers, a: Address, now: Timespec)
    requires a < |t.nodes|
  {
    Expired(Expiry(t.nodes[a]), now)
  }

  /** The timers that run, in order: those past their expiry that are not cancelled when their turn comes. */
  function Ran(t: Timers, seen: seq<Timers>, now: Timespec): (r: seq<Address>)
    requires Sound(t) && |seen| <= |t.list|
    ensures |r| <= |seen|
  {
    if seen == [] then []
    else
      var last := |seen| - 1;
      var a := AtTurn(t, last);
      Ran(t, seen[..last], now) + if a in seen[last].live && Past(t, a, now) then [a] else []
  }

  /** The timers that stay listed, oldest first: those not yet past their expiry nor cancelled before their turn. */
  function Kept(t: Timers, seen: seq<Timers>, now: Timespec): (r: seq<Address>)
    requires Sound(t) && |seen| <= |t.list|
    ensures |r| <= |seen|
  {
    if seen == [] then []
    else
      var last := |seen| - 1;
      var a := AtTurn(t, last);
      (if a in seen[last].live && !Past(t, a, now) then [a] else []) + Kept(t, seen[..last], now)
  }

  /**
   After the turns whose states were `seen`, the list holds the timers whose turn is still to come,
   the visited ones that stay, and those added during the pass.
   */
  ghost predicate Progress(t: Timers, seen: seq<Timers>, u: Timers, now: Timespec)
    requires Sound(t) && |seen| <= |t.list|
  {
    var k := |t.list| - |seen|;
    var stay := t.list[..k] + Kept(t, seen, now);
    && Sound(u) && t.nodes <= u.nodes
    && stay <= u.list
    && (forall i :: |stay| <= i < |u.list| ==> |t.nodes| <= u.list[i])
    && (forall a :: a in u.live ==> a in t.live || |t.nodes| <= a)
  }

  /** A turn at which the timer stays. */
  lemma Stays(t: Timers, seen: seq<Timers>, u: Timers, now: Timespec)
    requires Sound(t) && |seen| < |t.list| && Progress(t, seen, u, now)
    requires AtTurn(t, |seen|) in u.live && !Past(t, AtTurn(t, |seen|), now)
    ensures Progress(t, seen + [u], u, now)
  {
    var k := |t.list| - |seen| - 1;
    assert (seen + [u])[..|seen|] == seen;
    assert t.list[..k] + Kept(t, seen + [u], now) == t.list[..k + 1] + Kept(t, seen, now);
  }

  /** A turn at which the timer is unlinked, after the additions its callback made if it ran. */
  lemma Leaves(t: Timers, seen: seq<Timers>, u: Timers, v: Timers, now: Timespec)
    requires Sound(t) && |seen| < |t.list| && Progress(t, seen, u, now)
    requires !(AtTurn(t, |seen|) in u.live && !Past(t, AtTurn(t, |seen|), now))
    requires Sound(v) && Grows(u, v)
    ensures |t.list| - |seen| - 1 < |v.list|
    ensures Progress(t, seen + [u], Freed(v, |t.list| - |seen| - 1), now)
  {
    var k := |t.list| - |seen| - 1;
    assert (seen + [u])[..|seen|] == seen;
    var stay, after := t.list[..k + 1] + Kept(t, seen, now), t.list[..k] + Kept(t, seen, now);
    FreedSound(v, k);
    StayInFront(stay, u.list, v.list);
    Unlinked(stay, after, v.list, k);
    forall i | |after| <= i < |Freed(v, k).list|
      ensures |t.nodes| <= Freed(v, k).list[i]
    {
      NewBehind(t, u, v, k, i);
    }
  }

  lemma StayInFront(stay: seq<Address>, u: seq<Address>, v: seq<Address>)
    requires stay <= u && u <= v
    ensures stay <= v
  {}

  /** What is behind those that stay was added during the pass. */
  lemma NewBehind(t: Timers, u: Timers, v: Timers, k: nat, i: nat)
    requires Grows(u, v) && t.nodes <= u.nodes && k < |v.list| && k <= i < |v.list| - 1
    requires i + 1 < |u.list| ==> |t.nodes| <= u.list[i + 1]
    ensures |t.nodes| <= Freed(v, k).list[i]
  {
    assert Freed(v, k).list[i] == v.list[i + 1];
    if i + 1 < |u.list| {
      assert v.list[i + 1] == u.list[i + 1];
    }
  }

  /** One turn: the timer stays, or it is unlinked after the additions its callback made, if it ran. */
  lemma Advance(t: Timers, seen: seq<Timers>, u: Timers, v: Timers, w: Timers, now: Timespec)
    requires Sound(t) && |seen| < |t.list| && Progress(t, seen, u, now)
    requires Sound(v) && Grows(u, v)
    requires var k := |t.list| - |seen| - 1;
             w == if t.list[k] in u.live && !Past(t, t.list[k], now) then u else Freed(v, k)
    ensures Progress(t, seen + [u], w, now)
  {
    if AtTurn(t, |seen|) in u.live && !Past(t, AtTurn(t, |seen|), now) {
      Stays(t, seen, u, now);
    } else {
      Leaves(t, seen, u, v, now);
    }
  }

  lemma Unlinked(stay: seq<Address>, after: seq<Address>, list: seq<Address>, k: nat)
    requires k < |stay| && stay <= list && after == stay[..k] + stay[k + 1..]
    ensures after <= list[..k] + list[k + 1..]
  {
    var rest := list[..k] + list[k + 1..];
    forall i | 0 <= i < |after|
      ensures after[i] == rest[i]
    {}
  }

  /** Timers run newest first, each of them had a turn, and none runs twice. */
  lemma {:induction false} RanInOrder(t: Timers, seen: seq<Timers>, now: Timespec, r: seq<Address>)
    requires Sound(t) && |seen| <= |t.list| && r == Ran(t, seen, now)
    ensures forall i {:trigger r[i]} :: 0 <= i < |r| ==> exists j :: 0 <= j < |seen| && AtTurn(t, j) == r[i]
    ensures forall i, k :: 0 <= i < k < |r| ==> r[i] > r[k]
  {
    if seen != [] {
      var last := |seen| - 1;
      var before := Ran(t, seen[..last], now);
      RanInOrder(t, seen[..last], now, before);
      forall i | 0 <= i < |r|
        ensures exists j :: 0 <= j < |seen| && AtTurn(t, j) == r[i]
        ensures i < |before| ==> r[i] > AtTurn(t, last)
      {
        if i < |before| {
          var j :| 0 <= j < last && AtTurn(t, j) == before[i];
        }
      }
    }
  }

  /** Which timers run: exactly those alive at their turn and past their expiry. */
  lemma {:induction false} RanExactly(t: Timers, seen: seq<Timers>, now: Timespec, j: nat)
    requires Sound(t) && j < |seen| <= |t.list|
    ensures AtTurn(t, j) in Ran(t, seen, now) <==> AtTurn(t, j) in seen[j].live && Past(t, AtTurn(t, j), now)
  {
    var last := |seen| - 1;
    var before := Ran(t, seen[..last], now);
    if j < last {
      RanExactly(t, seen[..last], now, j);
    } else {
      RanInOrder(t, seen[..last], now, before);
      NotYet(t, before, last);
    }
  }

  /**
   In terms of time: a timer that runs was armed for a time that is past, and one armed for no negative duration runs
   exactly if it is alive at its turn and that time is past.
   */
  lemma RanOnTime(t: Timers, seen: seq<Timers>, now: Timespec, j: nat)
    requires Sound(t) && Timed(t, now) && Normal(now) && j < |seen| <= |t.list|
    ensures var a := AtTurn(t, j);
            var alarm := t.nodes[a].alarm;
            var due := Nanos(alarm.at) + alarm.ms * NANOS_PER_MS;
            && (a in Ran(t, seen, now) ==> a in seen[j].live && due < Nanos(now))
            && (alarm.ms >= 0 ==> (a in Ran(t, seen, now) <==> a in seen[j].live && due < Nanos(now)))
  {
    var alarm := t.nodes[AtTurn(t, j)].alarm;
    RanExactly(t, seen, now, j);
    DeadlineExact(alarm.at, alarm.ms);
    ExpiredExact(Deadline(alarm.at, alarm.ms), now);
  }

  /** A timer is not among those whose turn came earlier. */
  lemma NotYet(t: Timers, before: seq<Address>, last: nat)
    requires Sound(t) && last < |t.list|
    requires forall i {:trigger before[i]} :: 0 <= i < |before| ==>
            exists j :: 0 <= j < last && AtTurn(t, j) == before[i]
    ensures AtTurn(t, last) !in before
  {
    forall i | 0 <= i < |before|
      ensures before[i] != AtTurn(t, last)
    {
      var j :| 0 <= j < last && AtTurn(t, j) == before[i];
    }
  }

  /** Which timers stay: exactly those alive at their turn and not past their expiry. */
  lemma {:induction false} KeptExactly(t: Timers, seen: seq<Timers>, now: Timespec, j: nat)
    requires Sound(t) && j < |seen| <= |t.list|
    ensures AtTurn(t, j) in Kept(t, seen, now) <==> AtTurn(t, j) in seen[j].live && !Past(t, AtTurn(t, j), now)
  {
    var last := |seen| - 1;
    var before := Kept(t, seen[..last], now);
    if j < last {
      KeptExactly(t, seen[..last], now, j);
    } else {
      KeptHadTurn(t, seen[..last], now, before);
      NotYet(t, before, last);
    }
  }

  lemma {:induction false} KeptHadTurn(t: Timers, seen: seq<Timers>, now: Timespec, r: seq<Address>)
    requires Sound(t) && |seen| <= |t.list| && r == Kept(t, seen, now)
    ensures forall i {:trigger r[i]} :: 0 <= i < |r| ==>
              exists j :: 0 <= j < |seen| && AtTurn(t, j) == r[i] && !Past(t, r[i], now)
  {
    if seen != [] {
      var last := |seen| - 1;
      var before := Kept(t, seen[..last], now);
      KeptHadTurn(t, seen[..last], now, before);
      forall i | 0 <= i < |r|
        ensures exists j :: 0 <= j < |seen| && AtTurn(t, j) == r[i] && !Past(t, r[i], now)
      {
        var m := if |r| == |before| then i else i - 1;
        if m < 0 {
          assert AtTurn(t, last) == r[i];
        } else {
          assert r[i] == before[m];
          var j :| 0 <= j < last && AtTurn(t, j) == before[m] && !Past(t, before[m], now);
        }
      }
    }
  }

  lemma KeptBounded(t: Timers, seen: seq<Timers>, u: Timers, now: Timespec)
    requires Sound(t) && |seen| == |t.list| && Progress(t, seen, u, now)
    ensures Kept(t, seen, now) <= u.list
    ensures forall i :: |Kept(t, seen, now)| <= i < |u.list| ==> |t.nodes| <= u.list[i]
  {
    assert t.list[..0] + Kept(t, seen, now) == Kept(t, seen, now);
  }

  lemma StaysListed(t: Timers, stay: seq<Address>, u: seq<Address>, a: Address)
    requires stay <= u && a < |t.nodes| && forall i :: |stay| <= i < |u| ==> |t.nodes| <= u[i]
    ensures a in u <==> a in stay
  {
    if a in u {
      var i :| 0 <= i < |u| && u[i] == a;
      assert stay[i] == a;
    }
    if a in stay {
      var i :| 0 <= i < |stay| && stay[i] == a;
      assert u[i] == a;
    }
  }

  /**
   After a whole pass a timer that was listed is still listed exactly when it was alive at its turn
   and not past its expiry; all the others have been unlinked and freed.
   */
  lemma PassLeaves(t: Timers, seen: seq<Timers>, u: Timers, now: Timespec, j: nat)
    requires Sound(t) && |seen| == |t.list| && Progress(t, seen, u, now) && j < |seen|
    ensures AtTurn(t, j) in u.list <==> AtTurn(t, j) in seen[j].live && !Past(t, AtTurn(t, j), now)
  {
    KeptBounded(t, seen, u, now);
    StaysListed(t, Kept(t, seen, now), u.list, AtTurn(t, j));
    KeptExactly(t, seen, now, j);
  }

  /** No timer that was listed before the pass and is past its expiry is left behind. */
  lemma NoneLeftBehind(t: Timers, seen: seq<Timers>, u: Timers, now: Timespec, a: Address)
    requires Sound(t) && |seen| == |t.list| && Progress(t, seen, u, now)
    requires a in u.list && a < |t.nodes|
    ensures a in t.list && !Past(t, a, now)
  {
    var stay := Kept(t, seen, now);
    KeptBounded(t, seen, u, now);
    StaysListed(t, stay, u.list, a);
    KeptHadTurn(t, seen, now, stay);
    var i :| 0 <= i < |stay| && stay[i] == a;
    var j :| 0 <= j < |seen| && AtTurn(t, j) == stay[i] && !Past(t, stay[i], now);
  }

  /** The timers as they were after the j-th turn. */
  function After(seen: seq<Timers>, u: Timers, j: nat): Timers
    requires j < |seen|
  {
    if j + 1 < |seen| then seen[j + 1] else u
  }

  /** `seen` starts with the timers at the start of the pass, and a turn at which nothing runs cancels nothing. */
  ghost predicate Chained(t: Timers, seen: seq<Timers>, u: Timers, now: Timespec)
    requires Sound(t) && |seen| <= |t.list|
  {
    && (if seen == [] then u else seen[0]) == t
    && forall j {:trigger AtTurn(t, j)} ::
         0 <= j < |seen| && !(AtTurn(t, j) in seen[j].live && Past(t, AtTurn(t, j), now)) ==>
           After(seen, u, j).live == seen[j].live
  }

  lemma ChainedNext(t: Timers, seen: seq<Timers>, u: Timers, w: Timers, now: Timespec)
    requires Sound(t) && |seen| < |t.list| && Chained(t, seen, u, now)
    requires var a := AtTurn(t, |seen|); !(a in u.live && Past(t, a, now)) ==> w.live == u.live
    ensures Chained(t, seen + [u], w, now)
  {
    forall j | 0 <= j < |seen|
      ensures After(seen + [u], w, j) == After(seen, u, j)
    {}
  }

  class Loop {
    var timers: Timers
    /** CLOCK_MONOTONIC as last read. */
    var clock: Timespec

    ghost predicate Valid()
      reads this
    {
      Normal(clock) && Sound(timers) && Timed(timers, clock)
    }

    constructor (now: Timespec)
      requires Normal(now)
      ensures Valid() && timers == EMPTY && clock == now
    {
      timers := EMPTY;
      clock := now;
    }

    /** `clock_gettime`: the clock may have advanced by any amount. */
    method ReadClock() returns (now: Timespec)
      requires Normal(clock)
      modifies this`clock
      ensures now == clock && Normal(now) && Nanos(old(clock)) <= Nanos(now)
    {
      var sec, nsec :| 0 <= nsec < NANOS && Nanos(clock) <= Nanos(Timespec(sec, nsec));
      clock := Timespec(sec, nsec);
      now := clock;
    }

    /** `loop_add_timer`: the new timer goes to the head of the list. */
    method AddTimer(ms: int, callback: Callback) returns (t: Address)
      requires Valid()
      modifies this
      ensures Valid() && t == |old(timers).nodes|
      ensures timers == Added(old(timers), Timer(callback, Alarm(clock, ms)))
      ensures Nanos(old(clock)) <= Nanos(clock)
    {
      var now := ReadClock();
      t := |timers.nodes|;
      AddedSound(timers, Timer(callback, Alarm(now, ms)));
      timers := Timers(timers.nodes + [Timer(callback, Alarm(now, ms))], timers.list + [t], timers.live + {t});
    }

    /** `loop_remove_timer`: compares addresses only, and marks the timer it finds. */
    method RemoveTimer(t: Address) returns (found: bool)
      requires Valid()
      modifies this`timers
      ensures Valid()
      ensures found <==> t in timers.list
      ensures timers == Marked(old(timers), t)
    {
      var i := 0;
      while i < |timers.list|
        invariant 0 <= i <= |timers.list| && t !in timers.list[..i]
        invariant timers == old(timers)
      {
        if timers.list[i] == t {
          timers := timers.(live := timers.live - {t});
          MarkedSound(old(timers), t);
          return true;
        }
        i := i + 1;
      }
      assert t !in timers.list && t !in timers.live;
      assert timers.live - {t} == timers.live;
      return false;
    }

    /** `pos->link.next`: the node behind a listed node, NULL when the walk is back at the list head. */
    method Next(t: Address, ghost at: nat) returns (next: Address)
      requires Valid() && at < |timers.list| && timers.list[at] == t
      ensures next == if at > 0 then timers.list[at - 1] else NULL
    {
      var i := 0;
      while timers.list[i] != t
        invariant 0 <= i <= at
        decreases at - i
      {
        i := i + 1;
      }
      next := if i > 0 then timers.list[i - 1] else NULL;
    }

    /** `wl_list_remove` and `free` */
    method Unlink(t: Address, ghost at: nat)
      requires Valid() && at < |timers.list| && timers.list[at] == t
      modifies this`timers
      ensures Valid() && timers == Freed(old(timers), at)
    {
      var i := 0;
      while timers.list[i] != t
        invariant 0 <= i <= at
        decreases at - i
      {
        i := i + 1;
      }
      FreedSound(timers, at);
      timers := Timers(timers.nodes, timers.list[..i] + timers.list[i + 1..], timers.live - {t});
    }

    /** The timeout `loop_poll` computes: cancelled timers still in the list count too. */
    method PollTimeout() returns (ms: int)
      requires Valid()
      modifies this`clock
      ensures Valid() && IsTimeout(ms, Expiries(timers), clock)
      ensures Nanos(old(clock)) <= Nanos(clock)
    {
      ms := INT_MAX;
      if timers.list != [] {
        var now := ReadClock();
        ghost var expiries := Expiries(timers);
        var i := |timers.list|;
        while i > 0
          invariant 0 <= i <= |timers.list| && ms <= INT_MAX
          invariant forall j :: i <= j < |timers.list| ==> ms <= Estimate(expiries[j], now)
          invariant ms == INT_MAX || exists j :: i <= j < |timers.list| && ms == Estimate(expiries[j], now)
        {
          i := i - 1;
          var timerMs := Estimate(Expiry(timers.nodes[timers.list[i]]), now);
          if timerMs < ms {
            ms := timerMs;
          }
        }
      }
      if ms < 0 {
        ms := 0;
      }
    }
  }

  /** The expiries of the listed timers. */
  function Expiries(t: Timers): (r: seq<Timespec>)
    requires Sound(t)
    ensures |r| == |t.list| && forall i :: 0 <= i < |t.list| ==> r[i] == Expiry(t.nodes[t.list[i]])
  {
    seq(|t.list|, i requires 0 <= i < |t.list| => Expiry(t.nodes[t.list[i]]))
  }

  /** The loop sleeps until within a millisecond of the earliest expiry it has listed, unless one is 24 days past. */
  lemma SleepsUntilDue(t: Timers, ms: int, now: Timespec, earliest: int)
    requires Sound(t) && Timed(t, now)
    requires forall i {:trigger t.list[i]} :: 0 <= i < |t.list| ==> t.nodes[t.list[i]].alarm.ms <= INT_MAX
    requires IsTimeout(ms, Expiries(t), now) && IsEarliest(earliest, Expiries(t)) && InSightAll(t, now)
    ensures -NANOS_PER_MS < ms * NANOS_PER_MS - Max(0, earliest - Nanos(now)) < NANOS_PER_MS
  {
    forall i | 0 <= i < |t.list|
      ensures InIntRange(Expiries(t)[i], now) && Nanos(Expiries(t)[i]) - Nanos(now) <= INT_MAX * NANOS_PER_MS
    {
      InSightInRange(t.nodes[t.list[i]].alarm, now);
    }
    TimeoutAccurate(ms, Expiries(t), now, earliest);
  }

  predicate InSightAll(t: Timers, now: Timespec)
    requires Sound(t)
  {
    forall i {:trigger t.list[i]} :: 0 <= i < |t.list| ==> InSight(Expiry(t.nodes[t.list[i]]), now)
  }
}

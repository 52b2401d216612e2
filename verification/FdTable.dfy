/**
 Registrations of file descriptors (src/loop.c:91-105, src/loop.c:133-155, src/loop.c:184-201):
 a list of callbacks and a separately grown `pollfd` array that must stay in step with it.
 */
module FdTable {

  datatype Handler = DisplayIn | ReplyIn | TermIn | Other(id: nat)

  type Mask = bv16
  const POLLIN: Mask := 0x001
  const POLLERR: Mask := 0x008
  const POLLHUP: Mask := 0x010

  datatype PollFd = PollFd(fd: int, events: Mask, revents: Mask)

  /** What a caller registered. */
  datatype Registration = Registration(fd: int, events: Mask, handler: Handler)

  /** One invocation of a callback: which one, on which descriptor, with which events. */
  datatype Call = Call(handler: Handler, fd: int, revents: Mask)

  predicate Ready(p: PollFd) {
    p.revents & (p.events | POLLHUP | POLLERR) != 0
  }

  /** Each ready registration gets its own callback once, in registration order. */
  function Dispatched(regs: seq<Registration>, revents: seq<Mask>): seq<Call>
    requires |regs| == |revents|
  {
    if regs == [] then []
    else
      var last := |regs| - 1;
      var r := regs[last];
      Dispatched(regs[..last], revents[..last])
      + if Ready(PollFd(r.fd, r.events, revents[last])) then [Call(r.handler, r.fd, revents[last])] else []
  }

  /** The call one registration gets. */
  function CallFor(r: Registration, mask: Mask): seq<Call> {
    if Ready(PollFd(r.fd, r.events, mask)) then [Call(r.handler, r.fd, mask)] else []
  }

  lemma DispatchedNext(regs: seq<Registration>, revents: seq<Mask>, r: Registration, mask: Mask, before: seq<Call>)
    requires |regs| == |revents| && before == Dispatched(regs, revents)
    ensures Dispatched(regs + [r], revents + [mask]) == before + CallFor(r, mask)
  {
    assert (regs + [r])[..|regs|] == regs && (revents + [mask])[..|revents|] == revents;
  }

  /** Position of the first registration of `fd`, or the number of registrations. */
  function FirstOf(regs: seq<Registration>, fd: int): (i: nat)
    ensures i <= |regs|
    ensures i < |regs| ==> regs[i].fd == fd
    ensures forall j :: 0 <= j < i ==> regs[j].fd != fd
  {
    if regs == [] then 0 else if regs[0].fd == fd then 0 else 1 + FirstOf(regs[1..], fd)
  }

  class Table {
    var fds: array<PollFd>
    var length: nat
    var events: seq<Handler>

    ghost predicate Valid()
      reads this, fds
    {
      length == |events| <= fds.Length && fds.Length > 0
    }

    ghost function Registrations(): (regs: seq<Registration>)
      requires Valid()
      reads this, fds
      ensures |regs| == length
    {
      seq(length, i requires 0 <= i < length reads this, fds requires Valid() =>
        Registration(fds[i].fd, fds[i].events, events[i]))
    }

    ghost function Revents(): (masks: seq<Mask>)
      requires Valid()
      reads this, fds
      ensures |masks| == length
    {
      seq(length, i requires 0 <= i < length reads this, fds requires Valid() => fds[i].revents)
    }

    constructor ()
      ensures Valid() && Registrations() == [] && fresh(fds)
    {
      fds := new PollFd[10](_ => PollFd(0, 0, 0));
      length := 0;
      events := [];
    }

    /** `loop_add_fd` */
    method Add(fd: int, mask: Mask, handler: Handler)
      requires Valid()
      modifies this, fds
      ensures Valid() && (fds == old(fds) || fresh(fds))
      ensures Registrations() == old(Registrations()) + [Registration(fd, mask, handler)]
    {
      if length == fds.Length {
        var old_fds := fds;
        fds := new PollFd[old_fds.Length + 10](i requires 0 <= i reads old_fds =>
          if i < old_fds.Length then old_fds[i] else PollFd(0, 0, 0));
      }
      fds[length] := PollFd(fd, mask, 0);
      events := events + [handler];
      length := length + 1;
    }

    /** `loop_remove_fd`: drops the first registration of `fd` from both structures. */
    method Remove(fd: int) returns (found: bool)
      requires Valid()
      modifies this, fds
      ensures Valid() && fds == old(fds)
      ensures var i := FirstOf(old(Registrations()), fd);
              && (found <==> i < |old(Registrations())|)
              && Registrations() == if found then old(Registrations())[..i] + old(Registrations())[i + 1..]
                  else old(Registrations())
    {
      ghost var regs := Registrations();
      var i := 0;
      while i < |events|
        invariant 0 <= i <= length
        invariant i <= FirstOf(regs, fd)
      {
        assert regs[i].fd == fds[i].fd;
        if fds[i].fd == fd {
          events := events[..i] + events[i + 1..];
          length := length - 1;
          MoveDown(i);
          return true;
        }
        i := i + 1;
      }
      return false;
    }

    /** `memmove` of the entries behind `at` onto it. */
    method MoveDown(at: nat)
      requires at <= length < fds.Length
      modifies fds
      ensures forall j :: at <= j < length ==> fds[j] == old(fds[j + 1])
      ensures forall j :: 0 <= j < at ==> fds[j] == old(fds[j])
    {
      var j := at;
      while j < length
        invariant at <= j <= length
        invariant forall k :: at <= k < j ==> fds[k] == old(fds[k + 1])
        invariant forall k :: 0 <= k < at || j <= k < fds.Length ==> fds[k] == old(fds[k])
      {
        fds[j] := fds[j + 1];
        j := j + 1;
      }
    }

    /** `poll` writes `revents` and nothing else. */
    method Poll(revents: seq<Mask>)
      requires Valid() && |revents| == length
      modifies fds
      ensures Valid() && Registrations() == old(Registrations())
      ensures Revents() == revents
    {
      var i := 0;
      while i < length
        invariant 0 <= i <= length
        invariant forall j :: 0 <= j < i ==> fds[j].revents == revents[j]
        invariant forall j :: 0 <= j < length ==> fds[j].fd == old(fds[j].fd) && fds[j].events == old(fds[j].events)
      {
        fds[i] := fds[i].(revents := revents[i]);
        i := i + 1;
      }
    }

    /** The dispatch loop: walks the callback list with a running index into the array. */
    method Dispatch() returns (calls: seq<Call>)
      requires Valid()
      ensures calls == Dispatched(Registrations(), Revents())
    {
      ghost var regs, revents := Registrations(), Revents();
      calls := [];
      var i := 0;
      while i < |events|
        invariant 0 <= i <= length
        invariant calls == Dispatched(regs[..i], revents[..i])
      {
        var p := fds[i];
        if Ready(p) {
          calls := calls + [Call(events[i], p.fd, p.revents)];
        }
        assert regs[..i + 1][..i] == regs[..i] && revents[..i + 1][..i] == revents[..i];
        assert Registration(p.fd, p.events, events[i]) == regs[i] && p.revents == revents[i];
        i := i + 1;
      }
      assert regs[..i] == regs && revents[..i] == revents;
    }
  }

  /** What `poll` reports of a descriptor concerns the caller: an event asked for, a hang-up or an error. */
  predicate Concerns(events: Mask, mask: Mask) {
    mask & events != 0 || mask & POLLHUP != 0 || mask & POLLERR != 0
  }

  lemma EitherBits(x: Mask, y: Mask)
    ensures x | y != 0 <==> x != 0 || y != 0
  {}

  lemma BitsAmong(m: Mask, x: Mask, y: Mask)
    ensures m & (x | y) == (m & x) | (m & y)
  {}

  lemma ReadyExactly(p: PollFd)
    ensures Ready(p) <==> Concerns(p.events, p.revents)
  {
    var m, e := p.revents, p.events;
    BitsAmong(m, e | POLLHUP, POLLERR);
    BitsAmong(m, e, POLLHUP);
    EitherBits(m & (e | POLLHUP), m & POLLERR);
    EitherBits(m & e, m & POLLHUP);
  }

  /**
   Calls are made exactly for the descriptors on which something asked for happened, or a hang-up, or an error; with
   distinct descriptors, once each.
   */
  lemma {:induction false} DispatchedExactly(regs: seq<Registration>, revents: seq<Mask>)
    requires |regs| == |revents|
    ensures forall c :: c in Dispatched(regs, revents) ==>
                          exists i :: 0 <= i < |regs| && c == Call(regs[i].handler, regs[i].fd, revents[i])
                                      && Concerns(regs[i].events, revents[i])
    ensures forall i :: 0 <= i < |regs| && Concerns(regs[i].events, revents[i]) ==>
                          Call(regs[i].handler, regs[i].fd, revents[i]) in Dispatched(regs, revents)
    ensures (forall i, j :: 0 <= i < j < |regs| ==> regs[i].fd != regs[j].fd) ==>
              forall i, j :: 0 <= i < j < |Dispatched(regs, revents)| ==>
                  Dispatched(regs, revents)[i].fd != Dispatched(regs, revents)[j].fd
  {
    if regs != [] {
      var last := |regs| - 1;
      DispatchedExactly(regs[..last], revents[..last]);
      ReadyExactly(PollFd(regs[last].fd, regs[last].events, revents[last]));
      var before := Dispatched(regs[..last], revents[..last]);
      assert forall k :: 0 <= k < |before| ==> before[k] in before;
    }
  }

  /** Registrations made later are called later. */
  lemma {:induction false} DispatchedInOrder(regs: seq<Registration>, revents: seq<Mask>,
                                             more: seq<Registration>, others: seq<Mask>)
    requires |regs| == |revents| && |more| == |others|
    ensures Dispatched(regs + more, revents + others) == Dispatched(regs, revents) + Dispatched(more, others)
  {
    if more == [] {
      assert regs + more == regs && revents + others == revents;
    } else {
      var last := |more| - 1;
      assert regs + more == (regs + more[..last]) + [more[last]];
      assert revents + others == (revents + others[..last]) + [others[last]];
      DispatchedInOrder(regs, revents, more[..last], others[..last]);
    }
  }
}

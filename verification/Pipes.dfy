/**
 The two ends of a pipe and the retry loops over them (src/auth.c:16-57).

 The kernel's choices are a finite plan of call outcomes: a call may move fewer bytes than
 asked, be interrupted, or fail. Once the plan is used up, calls move all they can.
 */
module Pipes {
  import opened Utf8

  /** What the next `read` or `write` call will do. */
  datatype Outcome = Moved(limit: nat) | Interrupted | Failed

  /** Plans with short transfers and interruptions, but no error. */
  ghost predicate Benign(plan: seq<Outcome>) {
    forall i :: 0 <= i < |plan| ==> plan[i] == Interrupted || (plan[i].Moved? && plan[i].limit > 0)
  }

  function Min(a: int, b: int): int {
    if a < b then a else b
  }

  /** Result of one system call: `count` bytes moved, `EINTR`, or another error. */
  datatype CallResult = Transferred(count: nat) | Eintr | Error

  class WriteEnd {
    /** Every byte accepted by the pipe so far. */
    var sent: seq<Byte>
    var plan: seq<Outcome>

    constructor (plan: seq<Outcome>)
      ensures sent == [] && this.plan == plan
    {
      sent := [];
      this.plan := plan;
    }

    /** `write(2)` */
    method Write(src: array<Byte>, offset: nat, count: nat) returns (r: CallResult)
      requires offset + count <= src.Length
      modifies this
      ensures r.Transferred? ==> r.count <= count && sent == old(sent) + src[offset..offset + r.count]
      ensures !r.Transferred? ==> sent == old(sent)
      ensures r.Eintr? ==> |plan| < |old(plan)|
      ensures |plan| <= |old(plan)|
      ensures Benign(old(plan)) ==> Benign(plan) && !r.Error? && (r.Transferred? && count > 0 ==> r.count > 0)
    {
      if plan == [] {
        sent := sent + src[offset..offset + count];
        return Transferred(count);
      }
      var next := plan[0];
      plan := plan[1..];
      match next {
        case Interrupted => return Eintr;
        case Failed => return Error;
        case Moved(limit) =>
          var n := Min(limit, count);
          sent := sent + src[offset..offset + n];
          return Transferred(n);
      }
    }
  }

  /** What is left of a plan when one call has been made. */
  function AfterCall(plan: seq<Outcome>): seq<Outcome> {
    if plan == [] then [] else plan[1..]
  }

  /** The result of the next `read` of `count` bytes while `avail` bytes will still arrive. */
  function NextRead(plan: seq<Outcome>, avail: nat, count: nat): (r: CallResult)
    requires count > 0
    ensures r.Transferred? ==> r.count <= avail && r.count <= count && (r.count == 0 <==> avail == 0)
  {
    if plan == [] then Transferred(Min(count, avail))
    else
      match plan[0]
      case Interrupted => Eintr
      case Failed => Error
      case Moved(l) => Transferred(Min(Min(if l == 0 then 1 else l, count), avail))
  }

  class ReadEnd {
    /** The bytes that will still arrive before end of file; a call blocks until it can deliver one. */
    var stream: seq<Byte>
    var plan: seq<Outcome>

    constructor (stream: seq<Byte>, plan: seq<Outcome>)
      ensures this.stream == stream && this.plan == plan
    {
      this.stream := stream;
      this.plan := plan;
    }

    /** `read(2)`: zero bytes mean end of file. */
    method Read(dst: array<Byte>, offset: nat, count: nat) returns (r: CallResult)
      requires 0 < count && offset + count <= dst.Length
      modifies this, dst
      ensures r == NextRead(old(plan), |old(stream)|, count) && plan == AfterCall(old(plan))
      ensures r.Transferred? ==> stream == old(stream)[r.count..]
      ensures r.Transferred? ==> dst[..] == old(dst[..offset]) + old(stream)[..r.count] + old(dst[offset + r.count..])
      ensures !r.Transferred? ==> stream == old(stream) && dst[..] == old(dst[..])
    {
      var limit := count;
      if plan != [] {
        var next := plan[0];
        plan := plan[1..];
        match next {
          case Interrupted => return Eintr;
          case Failed => return Error;
          case Moved(l) => limit := if l == 0 then 1 else l;
        }
      }
      var n := Min(Min(limit, count), |stream|);
      forall i | 0 <= i < n {
        dst[offset + i] := stream[i];
      }
      stream := stream[n..];
      return Transferred(n);
    }
  }

  /** The first `k` of the bytes went out. */
  predicate SentPart(before: seq<Byte>, after: seq<Byte>, bytes: seq<Byte>, k: nat) {
    k <= |bytes| && after == before + bytes[..k]
  }

  /** The first `k` bytes were taken from the pipe. */
  predicate TookPart(before: seq<Byte>, after: seq<Byte>, k: nat) {
    k <= |before| && after == before[k..]
  }

  /** `write_full`: all of `src[..size]` is sent, or a proper prefix of it and the call reports failure. */
  method WriteFull(fd: WriteEnd, src: array<Byte>, size: nat) returns (ok: bool)
    requires size <= src.Length
    modifies fd
    ensures ok ==> fd.sent == old(fd.sent) + src[..size]
    ensures !ok ==> exists k :: 0 <= k < size && SentPart(old(fd.sent), fd.sent, src[..], k)
    ensures Benign(old(fd.plan)) ==> ok && Benign(fd.plan)
  {
    var offset := 0;
    while offset < size
      invariant 0 <= offset <= size
      invariant SentPart(old(fd.sent), fd.sent, src[..], offset)
      invariant Benign(old(fd.plan)) ==> Benign(fd.plan)
      decreases size - offset, |fd.plan|
    {
      var r := fd.Write(src, offset, size - offset);
      match r {
        case Eintr =>
        case Error =>
          assert SentPart(old(fd.sent), fd.sent, src[..], offset);
          return false;
        case Transferred(n) =>
          if n == 0 {
            assert src[offset..offset + n] == [];
            assert SentPart(old(fd.sent), fd.sent, src[..], offset);
            return false;
          }
          assert src[..][..offset + n] == src[..][..offset] + src[offset..offset + n];
          offset := offset + n;
      }
    }
    assert src[..][..size] == src[..size];
    return true;
  }

  /** A buffer that started as `start` holds the first `n` bytes of `all`. */
  predicate Filled(bytes: seq<Byte>, all: seq<Byte>, start: seq<Byte>, n: nat) {
    n <= |all| && n <= |start| && bytes == all[..n] + start[n..]
  }

  /** One more piece read: `after` holds one piece more of `all` than `before`. */
  lemma Extended(all: seq<Byte>, before: seq<Byte>, after: seq<Byte>, offset: nat, n: nat, start: seq<Byte>)
    requires offset + n <= |all| && offset + n <= |start| && Filled(before, all, start, offset)
    requires after == before[..offset] + all[offset..][..n] + before[offset + n..]
    ensures Filled(after, all, start, offset + n) && TookPart(all, all[offset..][n..], offset + n)
  {}

  datatype FullRead = Complete | EndOfFile | Broken

  /** How a whole read ends, how many bytes it takes, and what is left of the plan. */
  datatype Reading = Reading(result: FullRead, taken: nat, plan: seq<Outcome>)

  /** A read of `size` bytes that has `got` of the `avail` bytes that arrive. */
  function ReadAll(plan: seq<Outcome>, avail: nat, size: nat, got: nat): (o: Reading)
    requires got <= size && got <= avail
    ensures got <= o.taken <= avail && o.taken <= size
    ensures o.result.Complete? <==> o.taken == size
    ensures o.result.EndOfFile? ==> avail == 0
    ensures Benign(plan) ==>
              Benign(o.plan) && (o.result.Complete? <==> size <= avail) && (o.result.Broken? ==> avail > 0)
    decreases size - got, |plan|
  {
    if got == size then Reading(Complete, got, plan)
    else
      match NextRead(plan, avail - got, size - got)
      case Eintr => ReadAll(AfterCall(plan), avail, size, got)
      case Error => Reading(Broken, got, AfterCall(plan))
      case Transferred(n) =>
        if n > 0 then ReadAll(AfterCall(plan), avail, size, got + n)
        else Reading(if got == 0 then EndOfFile else Broken, got, AfterCall(plan))
  }

  /**
   `read_full`: never takes more than `size` bytes from the pipe, reports end of file only
   when not one byte of the item had arrived, and an item cut short as an error.
   */
  method ReadFull(fd: ReadEnd, dst: array<Byte>, size: nat) returns (r: FullRead)
    requires 0 < size <= dst.Length
    modifies fd, dst
    ensures var o := ReadAll(old(fd.plan), |old(fd.stream)|, size, 0);
            r == o.result && fd.plan == o.plan && TookPart(old(fd.stream), fd.stream, o.taken)
            && Filled(dst[..], old(fd.stream), old(dst[..]), o.taken)
  {
    var offset, going := 0, true;
    ghost var all, start, o := fd.stream, dst[..], ReadAll(fd.plan, |fd.stream|, size, 0);
    r := Complete;
    while going && offset < size
      invariant 0 <= offset <= size && offset <= |all|
      invariant TookPart(all, fd.stream, offset) && Filled(dst[..], all, start, offset)
      invariant o == if going then ReadAll(fd.plan, |all|, size, offset) else Reading(r, offset, fd.plan)
      invariant going ==> r == Complete
      decreases going, size - offset, |fd.plan|
    {
      r, offset, going := ReadOn(fd, dst, offset, size, all, start);
    }
  }

  /** One turn of the loop in `read_full`. */
  method ReadOn(fd: ReadEnd, dst: array<Byte>, offset: nat, size: nat, ghost all: seq<Byte>, ghost start: seq<Byte>)
    returns (r: FullRead, after: nat, going: bool)
    requires offset < size <= dst.Length && TookPart(all, fd.stream, offset) && Filled(dst[..], all, start, offset)
    modifies fd, dst
    ensures offset <= after <= size && TookPart(all, fd.stream, after) && Filled(dst[..], all, start, after)
    ensures ReadAll(old(fd.plan), |all|, size, offset)
         == if going then ReadAll(fd.plan, |all|, size, after) else Reading(r, after, fd.plan)
    ensures going ==> r == Complete && (after > offset || |fd.plan| < |old(fd.plan)|)
  {
    var c := ReadMore(fd, dst, offset, size, all, start);
    r, after, going := Complete, offset, true;
    match c {
      case Eintr =>
      case Error =>
        r, going := Broken, false;
      case Transferred(n) =>
        if n == 0 {
          r, going := if offset == 0 then EndOfFile else Broken, false;
        }
        after := offset + n;
    }
  }

  /** One `read` of `read_full`. */
  method ReadMore(fd: ReadEnd, dst: array<Byte>, offset: nat, size: nat, ghost all: seq<Byte>, ghost start: seq<Byte>)
    returns (c: CallResult)
    requires offset < size <= dst.Length && TookPart(all, fd.stream, offset) && Filled(dst[..], all, start, offset)
    modifies fd, dst
    ensures c == NextRead(old(fd.plan), |all| - offset, size - offset) && fd.plan == AfterCall(old(fd.plan))
    ensures var n := if c.Transferred? then c.count else 0;
            TookPart(all, fd.stream, offset + n) && Filled(dst[..], all, start, offset + n)
  {
    ghost var before := dst[..];
    c := fd.Read(dst, offset, size - offset);
    if c.Transferred? {
      Extended(all, before, dst[..], offset, c.count, start);
    }
  }
}

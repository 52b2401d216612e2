/**
 Length-prefixed requests and one-byte replies (src/auth.c:59-101, src/auth.c:130-160).
 A `size_t` is eight little-endian bytes.
 */
module Framing {
  import opened Utf8

  const PREFIX: nat := 8

  function Power256(k: nat): (p: nat)
    ensures p > 0
  {
    if k == 0 then 1 else 256 * Power256(k - 1)
  }

  function Digits(n: nat, k: nat): (bytes: seq<Byte>)
    ensures |bytes| == k
    decreases k, n
  {
    if k == 0 then [] else [(n % 256) as Byte] + Digits(n / 256, k - 1)
  }

  function Value(bytes: seq<Byte>): nat {
    if bytes == [] then 0 else bytes[0] as nat + 256 * Value(bytes[1..])
  }

  lemma ByteRoundTrip(n: nat)
    requires n < 256
    ensures (n as Byte) as nat == n
  {}

  lemma {:induction false} ValueOfDigits(n: nat, k: nat)
    requires n < Power256(k)
    ensures Value(Digits(n, k)) == n
  {
    if k > 0 {
      ByteRoundTrip(n % 256);
      ValueOfDigits(n / 256, k - 1);
      var bytes := Digits(n, k);
      assert bytes[1..] == Digits(n / 256, k - 1);
    }
  }

  lemma {:induction false} DigitsOfValue(bytes: seq<Byte>)
    ensures Digits(Value(bytes), |bytes|) == bytes && Value(bytes) < Power256(|bytes|)
  {
    if bytes != [] {
      DigitsOfValue(bytes[1..]);
      LowByte(bytes[0], Value(bytes[1..]));
    }
  }

  lemma LowByte(b: Byte, n: nat)
    ensures (b + 256 * n) % 256 == b && (b + 256 * n) / 256 == n
  {}

  /** What one request puts on the wire: the size with the terminator counted, the bytes, the terminator. */
  function Frame(pw: seq<Byte>): seq<Byte> {
    Digits(|pw| + 1, PREFIX) + pw + [0]
  }

  function Frames(pws: seq<seq<Byte>>): seq<Byte> {
    if pws == [] then [] else Frame(pws[0]) + Frames(pws[1..])
  }

  /** The passwords that texts are sent as. */
  function Requests(texts: seq<seq<CodePoint>>): seq<seq<Byte>> {
    seq(|texts|, i requires 0 <= i < |texts| => EncodeAll(texts[i]))
  }

  lemma RequestsNext(texts: seq<seq<CodePoint>>, last: seq<CodePoint>)
    ensures Requests(texts + [last]) == Requests(texts) + [EncodeAll(last)]
  {}

  /** Passwords whose size fits a `size_t`. */
  predicate Sendable(pw: seq<Byte>) {
    |pw| + 1 < Power256(PREFIX)
  }

  /** What the child makes of the bytes it will receive. */
  datatype Parsed = NoMore | Malformed | Request(pw: seq<Byte>, rest: seq<Byte>)

  function Parse(stream: seq<Byte>): Parsed {
    if stream == [] then NoMore
    else if |stream| < PREFIX then Malformed
    else
      var size := Value(stream[..PREFIX]);
      var body := stream[PREFIX..];
      if size == 0 || |body| < size || body[size - 1] != 0 then Malformed
      else Request(body[..size - 1], body[size..])
  }

  lemma FrameShape(pw: seq<Byte>, rest: seq<Byte>)
    requires Sendable(pw)
    ensures var stream := Frame(pw) + rest;
            |stream| >= PREFIX + |pw| + 1 && Value(stream[..PREFIX]) == |pw| + 1
            && stream[PREFIX..] == pw + [0] + rest
  {
    ValueOfDigits(|pw| + 1, PREFIX);
    Pieces(Digits(|pw| + 1, PREFIX), pw, rest);
  }

  lemma Pieces(head: seq<Byte>, pw: seq<Byte>, rest: seq<Byte>)
    ensures (head + pw + [0] + rest)[..|head|] == head
    ensures (head + pw + [0] + rest)[|head|..] == pw + [0] + rest
  {}

  /** Reading back one frame, whatever follows it. */
  lemma ParseFrame(pw: seq<Byte>, rest: seq<Byte>)
    requires Sendable(pw)
    ensures Parse(Frame(pw) + rest) == Request(pw, rest)
  {
    FrameShape(pw, rest);
    var body := pw + [0] + rest;
    assert body[..|pw|] == pw && body[|pw| + 1..] == rest;
  }

  /** A request is found exactly where a frame begins, and is that frame's password. */
  lemma ParseExactly(stream: seq<Byte>, pw: seq<Byte>, rest: seq<Byte>)
    ensures Parse(stream) == Request(pw, rest) <==> Sendable(pw) && stream == Frame(pw) + rest
    ensures Parse(stream) == NoMore <==> stream == []
  {
    if Parse(stream) == Request(pw, rest) {
      var head, body := stream[..PREFIX], stream[PREFIX..];
      DigitsOfValue(head);
      assert body == pw + [body[|pw|]] + rest && body[|pw|] == 0;
      assert stream == head + body;
    } else if Sendable(pw) && stream == Frame(pw) + rest {
      ParseFrame(pw, rest);
    }
  }

  /** The frame of a password the lock screen can hold: two bytes of size, six of zero, the bytes, the terminator. */
  lemma FrameLayout(pw: seq<Byte>)
    requires |pw| + 1 < 65536
    ensures Frame(pw) == [(|pw| + 1) % 256, (|pw| + 1) / 256, 0, 0, 0, 0, 0, 0] + pw + [0]
  {
    var n := |pw| + 1;
    assert n / 256 / 256 == 0;
    ZeroDigits(6);
    assert Digits(n, 8) == [n % 256] + Digits(n / 256, 7) && Digits(n / 256, 7) == [n / 256] + Digits(0, 6);
  }

  lemma {:induction false} ZeroDigits(k: nat)
    ensures forall i :: 0 <= i < k ==> Digits(0, k)[i] == 0
  {
    if k > 0 {
      ZeroDigits(k - 1);
    }
  }

  /** Every request in the stream, in order; None when some request is malformed. */
  function ParseAll(stream: seq<Byte>): (r: (seq<seq<Byte>>, bool))
    decreases |stream|
  {
    match Parse(stream)
    case NoMore => ([], true)
    case Malformed => ([], false)
    case Request(pw, rest) =>
      var (more, ok) := ParseAll(rest);
      ([pw] + more, ok)
  }

  /** Round trip: any sequence of passwords is read back as the same sequence. */
  lemma {:induction false} ParseAllFrames(pws: seq<seq<Byte>>)
    requires forall p :: p in pws ==> Sendable(p)
    ensures ParseAll(Frames(pws)) == (pws, true)
  {
    if pws != [] {
      ParseFrame(pws[0], Frames(pws[1..]));
      ParseAllFrames(pws[1..]);
      assert pws == [pws[0]] + pws[1..];
    }
  }

  lemma {:induction false} FramesAppend(pws: seq<seq<Byte>>, pw: seq<Byte>)
    ensures Frames(pws + [pw]) == Frames(pws) + Frame(pw)
  {
    if pws == [] {
      assert pws + [pw] == [pw] && Frames([]) == [];
      assert Frames([pw]) == Frame(pw) + Frames([pw][1..]);
    } else {
      assert (pws + [pw])[1..] == pws[1..] + [pw];
      FramesAppend(pws[1..], pw);
    }
  }

  /** A `bool` on the wire. */
  function Reply(success: bool): Byte {
    if success then 1 else 0
  }

  function Replies(verdicts: seq<bool>): (bytes: seq<Byte>)
    ensures |bytes| == |verdicts|
    ensures forall i :: 0 <= i < |verdicts| ==> (bytes[i] != 0 <==> verdicts[i])
  {
    seq(|verdicts|, i requires 0 <= i < |verdicts| => Reply(verdicts[i]))
  }
}

/** The four transfers of src/auth.c over the pipe ends. */
module Auth {
  import opened Utf8
  import opened SafeBuffer
  import opened Pipes
  import opened Sequences
  import opened Framing

  datatype Result = Ok | ErrWrite | ErrRead | ErrEof | ErrInvalid

  /** The object representation of a `size_t`. */
  method SizeObject(n: nat) returns (bytes: array<Byte>)
    ensures fresh(bytes) && bytes[..] == Digits(n, PREFIX)
  {
    var digits := Digits(n, PREFIX);
    bytes := new Byte[PREFIX](i requires 0 <= i < PREFIX => digits[i]);
  }

  /**
   `auth_write_request`: the password goes out as one frame, or a proper prefix of the frame does and
   the call fails; either way the buffer is wiped.
   */
  method WriteRequest(fd: WriteEnd, pw: SBuf) returns (r: Result)
    requires pw.Terminated()
    modifies fd, pw`len, pw.buf
    ensures r == Ok || r == ErrWrite
    ensures r == Ok ==> fd.sent == old(fd.sent) + Frame(old(pw.Contents()))
    ensures r != Ok ==>
              exists k :: 0 <= k < |Frame(old(pw.Contents()))|
                          && SentPart(old(fd.sent), fd.sent, Frame(old(pw.Contents())), k)
    ensures pw.buf == old(pw.buf) && pw.Blank() && pw.Spells([])
    ensures Benign(old(fd.plan)) ==> r == Ok && Benign(fd.plan)
  {
    var size := pw.len + 1;
    var prefix := SizeObject(size);
    ghost var head, tail := prefix[..], pw.buf[..size];
    assert tail == pw.Contents() + [0];
    assert head + tail == Frame(pw.Contents());
    var ok := WriteBoth(fd, prefix, pw.buf, size);
    r := if ok then Ok else ErrWrite;
    pw.Clear();
  }

  /** Size object first, then the bytes; the second write is not attempted when the first fails. */
  method WriteBoth(fd: WriteEnd, head: array<Byte>, tail: array<Byte>, size: nat) returns (ok: bool)
    requires size <= tail.Length
    modifies fd
    ensures ok ==> fd.sent == old(fd.sent) + (head[..] + tail[..size])
    ensures !ok ==>
              exists k :: 0 <= k < head.Length + size
                          && SentPart(old(fd.sent), fd.sent, head[..] + tail[..size], k)
    ensures Benign(old(fd.plan)) ==> ok && Benign(fd.plan)
  {
    ghost var sent := fd.sent;
    ok := WriteFull(fd, head, head.Length);
    if ok {
      assert head[..head.Length] == head[..];
      ok := WriteFull(fd, tail, size);
      if ok {
        Regroup(sent, head[..], tail[..size]);
      } else {
        ghost var k :| 0 <= k < size && SentPart(sent + head[..], fd.sent, tail[..], k);
        SecondPart(sent, fd.sent, head[..], tail[..], size, k);
        assert tail[..][..size] == tail[..size];
      }
    } else {
      ghost var k :| 0 <= k < head.Length && SentPart(sent, fd.sent, head[..], k);
      assert head[..][..k] == (head[..] + tail[..size])[..k];
      assert SentPart(sent, fd.sent, head[..] + tail[..size], k);
    }
  }

  lemma SecondPart(sent: seq<Byte>, after: seq<Byte>, head: seq<Byte>, tail: seq<Byte>, size: nat, k: nat)
    requires k < size <= |tail| && SentPart(sent + head, after, tail, k)
    ensures SentPart(sent, after, head + tail[..size], |head| + k)
  {
    assert head + tail[..k] == (head + tail[..size])[..|head| + k];
  }

  /** How reading a request ends, how many bytes it takes, and what is left of the plan. */
  datatype Taking = Taking(result: Result, taken: nat, plan: seq<Outcome>)

  /** The size object is read whole, then as many bytes as it says; the last of them must be NUL. */
  function TakeRequest(plan: seq<Outcome>, stream: seq<Byte>): (t: Taking)
    ensures t.taken <= |stream|
  {
    var head := ReadAll(plan, |stream|, PREFIX, 0);
    match head.result
    case EndOfFile => Taking(ErrEof, 0, head.plan)
    case Broken => Taking(ErrRead, head.taken, head.plan)
    case Complete => TakeBody(head.plan, stream[PREFIX..], Value(stream[..PREFIX]))
  }

  function TakeBody(plan: seq<Outcome>, stream: seq<Byte>, size: nat): (t: Taking)
    ensures PREFIX <= t.taken <= PREFIX + |stream|
  {
    if size == 0 then Taking(ErrInvalid, PREFIX, plan)
    else
      var body := ReadAll(plan, |stream|, size, 0);
      if !body.result.Complete? then Taking(ErrRead, PREFIX + body.taken, body.plan)
      else Taking(if stream[size - 1] != 0 then ErrInvalid else Ok, PREFIX + size, body.plan)
  }

  /** What is taken is what the parser makes of the stream, if the reads succeed. */
  lemma TakingParses(plan: seq<Outcome>, stream: seq<Byte>)
    ensures var t := TakeRequest(plan, stream);
            && (t.result == Ok ==> Parse(stream).Request? && Parse(stream).rest == stream[t.taken..])
            && (t.result == ErrEof ==> stream == [])
            && (t.result == ErrInvalid ==> Parse(stream) == Malformed)
            && t.result != ErrWrite
            && (Benign(plan) ==> Benign(t.plan))
            && (Benign(plan) ==>
                  match Parse(stream)
                  case NoMore => t.result == ErrEof
                  case Malformed => t.result == ErrInvalid || t.result == ErrRead
                  case Request(_, _) => t.result == Ok)
  {
    var head := ReadAll(plan, |stream|, PREFIX, 0);
    if head.result.Complete? && Value(stream[..PREFIX]) > 0 {
      var body := ReadAll(head.plan, |stream[PREFIX..]|, Value(stream[..PREFIX]), 0);
    }
  }

  /** `auth_read_request`, when the buffer for the announced size can be allocated. */
  method ReadRequest(fd: ReadEnd, pw: SBuf) returns (r: Result)
    modifies fd, pw
    ensures var t := TakeRequest(old(fd.plan), old(fd.stream));
            r == t.result && fd.plan == t.plan && TookPart(old(fd.stream), fd.stream, t.taken)
    ensures r == Ok ==> pw.Terminated() && fresh(pw.buf) && Parse(old(fd.stream)) == Request(pw.Contents(), fd.stream)
    ensures r == Ok ==> pw.past == old(pw.past) + {pw.buf}
    ensures r == ErrEof ==> old(fd.stream) == []
    ensures r == ErrInvalid ==> Parse(old(fd.stream)) == Malformed
    ensures r != ErrWrite
    ensures Benign(old(fd.plan)) ==> Benign(fd.plan)
    ensures Benign(old(fd.plan)) ==>
              match Parse(old(fd.stream))
              case NoMore => r == ErrEof
              case Malformed => r == ErrInvalid || r == ErrRead
              case Request(_, _) => r == Ok
  {
    TakingParses(fd.plan, fd.stream);
    r := ReadFrame(fd, pw);
  }

  /** The two reads of `auth_read_request`, and the checks on what they delivered. */
  method ReadFrame(fd: ReadEnd, pw: SBuf) returns (r: Result)
    modifies fd, pw
    ensures var t := TakeRequest(old(fd.plan), old(fd.stream));
            r == t.result && fd.plan == t.plan && TookPart(old(fd.stream), fd.stream, t.taken)
    ensures r == Ok ==> pw.Terminated() && fresh(pw.buf) && Parse(old(fd.stream)) == Request(pw.Contents(), fd.stream)
    ensures r == Ok ==> pw.past == old(pw.past) + {pw.buf}
  {
    ghost var stream := fd.stream;
    var prefix := new Byte[PREFIX];
    var n := ReadFull(fd, prefix, PREFIX);
    if n.EndOfFile? {
      return ErrEof;
    }
    if n.Broken? {
      return ErrRead;
    }
    assert prefix[..] == stream[..PREFIX];
    var size := Value(prefix[..]);
    if size == 0 {
      return ErrInvalid;
    }
    ghost var body := fd.stream;
    pw.Create(size);
    n := ReadFull(fd, pw.buf, size);
    if !n.Complete? {
      return ErrRead;
    }
    assert pw.buf[..] == body[..size];
    if pw.buf[size - 1] != 0 {
      return ErrInvalid;
    }
    pw.len := size - 1;
    assert pw.buf[..pw.len] == body[..size - 1];
    return Ok;
  }

  /** `auth_write_reply` */
  method WriteReply(fd: WriteEnd, success: bool) returns (r: Result)
    modifies fd
    ensures r == Ok ==> fd.sent == old(fd.sent) + [if success then 1 else 0]
    ensures r != Ok ==> r == ErrWrite && fd.sent == old(fd.sent)
    ensures Benign(old(fd.plan)) ==> r == Ok && Benign(fd.plan)
  {
    var item := new Byte[1](_ => Reply(success));
    assert item[..1] == [Reply(success)];
    var ok := WriteFull(fd, item, 1);
    r := if ok then Ok else ErrWrite;
  }

  /** The read of one byte: how it ends is decided by the first call that is not interrupted. */
  function TakeReply(plan: seq<Outcome>, stream: seq<Byte>): Reading {
    ReadAll(plan, |stream|, 1, 0)
  }

  /** `auth_read_reply` */
  method ReadReply(fd: ReadEnd) returns (r: Result, success: bool)
    modifies fd
    ensures r == Ok <==> TakeReply(old(fd.plan), old(fd.stream)).result == Complete
    ensures fd.plan == TakeReply(old(fd.plan), old(fd.stream)).plan
    ensures r != Ok ==> fd.stream == old(fd.stream)
    ensures r == Ok ==>
              |old(fd.stream)| > 0 && (success <==> old(fd.stream)[0] != 0) && fd.stream == old(fd.stream)[1..]
    ensures r == Ok || r == ErrRead
    ensures Benign(old(fd.plan)) ==> Benign(fd.plan) && (r == Ok <==> old(fd.stream) != [])
  {
    success := false;
    var item := new Byte[1];
    var n := ReadFull(fd, item, 1);
    if !n.Complete? {
      return ErrRead, false;
    }
    assert item[..][0] == old(fd.stream)[..1][0];
    return Ok, item[0] != 0;
  }
}

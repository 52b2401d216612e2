/**
 The lock screen and its authentication child as two processes joined by two pipes, one step per
 system call (src/auth.c:16-160, src/auth-pam.c:115-142, src/auth-shadow.c:65-95, main.c:363-384).
 The runs considered are those without a write error on the request pipe.
 */
module AuthProtocol {
  import opened Options
  import opened Utf8
  import opened Framing
  import opened Deadlines
  import M = Machine
  import PB = PamBackend
  import SB = ShadowBackend

  /**
   What stands outside the protocol: the verdict on the n-th password, None where the child ends instead of judging
   it, and whether the child ends after a success.
   */
  datatype World = World(verdict: (nat, seq<Byte>) -> Option<bool>, endsOnSuccess: bool)

  /** Where the child is: reading a request of which it has `got` the first bytes, authenticating, or replying. */
  datatype Child = Reading(got: seq<Byte>) | Judging(pw: seq<Byte>) | Replying(verdict: bool)

  /**
   Both processes and the bytes in flight. `out` is what the parent still has to write of a request; until then
   it does nothing else. `submitted`, `judged`, `consumed` and `strays` record the past;
   `waiting` is set until the parent starts its main loop, and only then replies are read.
   */
  datatype System = System(
    parent: M.View, out: seq<Byte>, requests: seq<Byte>,
    child: Child, alive: bool, replies: seq<Byte>,
    submitted: seq<seq<Byte>>, judged: seq<bool>, consumed: nat,
    strays: nat, interrupted: bool, waiting: bool)

  datatype Act =
    | Parent(e: M.Event)
    | ParentWrites(count: nat)
    | ParentReads(at: Timespec)
    | ChildReads(count: nat)
    | ChildJudges
    | ChildReplies
    | ChildDies

  /** How many bytes the child's next read asks for at most: the rest of the size, then the rest of the body. */
  function Wanted(got: seq<Byte>): int {
    if |got| < PREFIX then PREFIX - |got| else PREFIX + Value(got[..PREFIX]) - |got|
  }

  predicate Can(s: System, a: Act) {
    match a
    case Parent(e) =>
      && s.out == [] && !e.ReplyRead? && (e.Start? ==> s.waiting)
      && M.Armed(s.parent, e) && !M.WriteFails(s.parent, e)
    case ParentWrites(n) => 0 < n <= |s.out| && s.alive
    case ParentReads(_) => s.out == [] && s.replies != [] && !s.waiting
    case ChildReads(n) => s.alive && s.child.Reading? && 0 < n <= |s.requests| && n <= Wanted(s.child.got)
    case ChildJudges => s.alive && s.child.Judging?
    case ChildReplies => s.alive && s.child.Replying?
    case ChildDies => s.alive
  }

  /** An event of the parent; a request's bytes are then still to be written. */
  function ParentStep(s: System, e: M.Event): System {
    var pws := Requests(M.Posts(s.parent, e));
    s.(parent := M.Step(s.parent, e), out := s.out + Frames(pws), submitted := s.submitted + pws,
       strays := s.strays + (if e.AuthIdleFires? && s.parent.core.auth.Validating? then 1 else 0),
       interrupted := s.interrupted || e.Terminate? || e.DisplayFailed?, waiting := s.waiting && !e.Start?)
  }

  /** The child, having read `got`, reads on, goes to work, or ends because the request is malformed. */
  function Received(s: System, got: seq<Byte>): System {
    if Wanted(got) > 0 then s.(child := Reading(got))
    else
      match Parse(got)
      case Request(pw, _) => s.(child := Judging(pw))
      case _ => s.(alive := false)
  }

  /** One `write` of the parent. */
  function Wrote(s: System, n: nat): System
    requires n <= |s.out|
  {
    s.(requests := s.requests + s.out[..n], out := s.out[n..])
  }

  /** The parent consumes a reply. */
  function Heard(s: System, at: Timespec): System
    requires s.replies != []
  {
    s.(parent := M.Step(s.parent, M.ReplyRead(s.replies[0] != 0, at)), replies := s.replies[1..],
        consumed := s.consumed + 1)
  }

  /** The child comes to a verdict. */
  function Decided(s: System, v: bool): System {
    s.(child := Replying(v), judged := s.judged + [v])
  }

  /** The child judges, or ends because it cannot. */
  function Judged(s: System, verdict: Option<bool>): System {
    if verdict.Some? then Decided(s, verdict.value) else s.(alive := false)
  }

  /** The child writes its reply, and ends or starts over. */
  function Answered(w: World, s: System): System
    requires s.child.Replying?
  {
    s.(child := Reading([]), replies := s.replies + [Reply(s.child.verdict)],
        alive := !(w.endsOnSuccess && s.child.verdict))
  }

  /** Acts that cannot happen leave the system as it is. */
  function Next(w: World, s: System, a: Act): System {
    if !Can(s, a) then s
    else
      match a
      case Parent(e) => ParentStep(s, e)
      case ParentWrites(n) => Wrote(s, n)
      case ParentReads(at) => Heard(s, at)
      case ChildReads(n) => Received(s.(requests := s.requests[n..]), s.child.got + s.requests[..n])
      case ChildJudges => Judged(s, w.verdict(|s.judged|, s.child.pw))
      case ChildReplies => Answered(w, s)
      case ChildDies => s.(alive := false)
  }

  function Exec(w: World, s: System, acts: seq<Act>): System {
    if acts == [] then s else Next(w, Exec(w, s, acts[..|acts| - 1]), acts[|acts| - 1])
  }

  function Initial(parent: M.View): System {
    System(parent, [], [], Reading([]), true, [], [], [], 0, 0, false, !parent.core.running)
  }

  // ---------------------------------------------------------------- conservation

  /** How many requests the child has read in full. */
  function Taken(s: System): nat {
    |s.judged| + if s.child.Judging? then 1 else 0
  }

  /** How many replies the child has written. */
  function Written(s: System): int {
    |s.judged| - if s.child.Replying? then 1 else 0
  }

  function Got(s: System): seq<Byte> {
    if s.child.Reading? then s.child.got else []
  }

  /**
   Every submitted password is judged, with the child, or in the bytes in flight; nothing is lost, doubled or
   reordered.
   */
  predicate RequestsConserved(s: System) {
    && Taken(s) <= |s.submitted|
    && Got(s) + (s.requests + s.out) == Frames(s.submitted[Taken(s)..])
    && (s.child.Judging? ==> s.child.pw == s.submitted[|s.judged|])
    && (s.child.Reading? ==> Wanted(s.child.got) > 0)
  }

  /**
   Every verdict is that on the password of the same rank, and is consumed, in the reply pipe, or about to be
   written.
   */
  predicate RepliesConserved(w: World, s: System) {
    && s.consumed <= Written(s) && |s.judged| <= |s.submitted|
    && s.replies == Replies(s.judged[s.consumed..Written(s)])
    && (s.child.Replying? ==> s.judged != [] && s.child.verdict == s.judged[|s.judged| - 1])
    && (forall k :: 0 <= k < |s.judged| ==> Some(s.judged[k]) == w.verdict(k, s.submitted[k]))
  }

  /** The main loop runs, or is still to be started. */
  predicate Serving(s: System) {
    s.parent.core.running || s.waiting
  }

  /** What the parent has made of the replies. */
  predicate ParentInformed(s: System) {
    && s.consumed <= |s.judged|
    && s.parent.core.failed == M.Refusals(s.judged[..s.consumed])
    && (Serving(s) || s.interrupted || exists k :: 0 <= k < s.consumed && s.judged[k])
  }

  /** Every password fits its frame's size field and holds no NUL. */
  predicate AllSendable(pws: seq<seq<Byte>>) {
    forall i :: 0 <= i < |pws| ==> Sendable(pws[i]) && 0 !in pws[i]
  }

  predicate Conserved(w: World, s: System) {
    && RequestsConserved(s) && RepliesConserved(w, s) && ParentInformed(s)
    && AllSendable(s.submitted) && M.Good(s.parent.core) && M.Fits(s.parent.core)
  }

  // ---------------------------------------------------------------- each act conserves

  /** How much of a frame the child's reads take: never more than the frame. */
  lemma WantedOfFrame(got: seq<Byte>, tail: seq<Byte>, pw: seq<Byte>, rest: seq<Byte>)
    requires Sendable(pw) && got + tail == Frame(pw) + rest && |got| <= |Frame(pw)|
    ensures |got| < PREFIX ==> Wanted(got) == PREFIX - |got|
    ensures |got| >= PREFIX ==> Wanted(got) == |Frame(pw)| - |got|
  {
    FrameShape(pw, rest);
    if |got| >= PREFIX {
      assert got[..PREFIX] == (got + tail)[..PREFIX];
    }
  }

  lemma ChildReadsConserves(s: System, n: nat)
    requires RequestsConserved(s) && AllSendable(s.submitted) && Can(s, ChildReads(n))
    ensures var got := s.child.got + s.requests[..n];
            var t := Received(s.(requests := s.requests[n..]), got);
            RequestsConserved(t) && t == s.(requests := t.requests, child := t.child) && !t.child.Replying?
  {
    var pending, got, tail := s.submitted[Taken(s)..], s.child.got + s.requests[..n], s.requests[n..] + s.out;
    assert got + tail == s.child.got + (s.requests + s.out);
    assert pending != [];
    var pw, rest := pending[0], Frames(pending[1..]);
    assert pw == s.submitted[Taken(s)];
    assert Frames(pending) == Frame(pw) + rest;
    GotBounded(s.child.got, s.requests + s.out, pw, rest);
    WantedOfFrame(s.child.got, s.requests + s.out, pw, rest);
    WantedOfFrame(got, tail, pw, rest);
    if Wanted(got) <= 0 {
      assert got == (got + tail)[..|got|] == Frame(pw);
      ParseFrame(pw, []);
      assert Frame(pw) + [] == Frame(pw);
      assert tail == (got + tail)[|got|..] == rest;
      assert s.submitted[Taken(s) + 1..] == pending[1..];
    }
  }

  /** A child that still wants bytes has not got a whole frame. */
  lemma GotBounded(got: seq<Byte>, tail: seq<Byte>, pw: seq<Byte>, rest: seq<Byte>)
    requires Sendable(pw) && got + tail == Frame(pw) + rest && Wanted(got) > 0
    ensures |got| < |Frame(pw)|
  {
    FrameShape(pw, rest);
    if |got| >= PREFIX {
      assert got[..PREFIX] == (got + tail)[..PREFIX];
    }
  }

  lemma WroteConserves(w: World, s: System, n: nat)
    requires Conserved(w, s) && n <= |s.out|
    ensures Conserved(w, Wrote(s, n))
  {
    var t := Wrote(s, n);
    assert t.requests + t.out == s.requests + s.out;
    assert Got(t) == Got(s) && Taken(t) == Taken(s);
    RepliesUntouched(w, s, t);
    StillInformed(s, t);
  }

  /** Nothing the child does after reading changes what the parent has been told. */
  lemma StillInformed(s: System, t: System)
    requires ParentInformed(s) && t.parent == s.parent && t.consumed == s.consumed && t.interrupted == s.interrupted
    requires t.waiting == s.waiting
    requires s.judged <= t.judged
    ensures ParentInformed(t)
  {
    assert t.judged[..t.consumed] == s.judged[..s.consumed];
    if !Serving(s) && !s.interrupted {
      var k :| 0 <= k < s.consumed && s.judged[k];
      assert t.judged[k];
    }
  }

  lemma ReceivedConserves(w: World, s: System, n: nat)
    requires Conserved(w, s) && Can(s, ChildReads(n))
    ensures Conserved(w, Received(s.(requests := s.requests[n..]), s.child.got + s.requests[..n]))
  {
    var t := Received(s.(requests := s.requests[n..]), s.child.got + s.requests[..n]);
    ChildReadsConserves(s, n);
    RepliesUntouched(w, s, t);
    StillInformed(s, t);
  }

  lemma DecidedRequests(s: System, v: bool)
    requires RequestsConserved(s) && s.child.Judging?
    ensures RequestsConserved(Decided(s, v))
  {
    assert Taken(Decided(s, v)) == Taken(s) && Got(Decided(s, v)) == Got(s);
  }

  lemma DecidedReplies(w: World, s: System, v: bool)
    requires RepliesConserved(w, s) && s.child.Judging? && |s.judged| < |s.submitted|
    requires Some(v) == w.verdict(|s.judged|, s.submitted[|s.judged|])
    ensures RepliesConserved(w, Decided(s, v))
  {
    assert (s.judged + [v])[s.consumed..|s.judged|] == s.judged[s.consumed..|s.judged|];
  }

  lemma DecidedConserves(w: World, s: System, v: bool)
    requires Conserved(w, s) && s.child.Judging? && w.verdict(|s.judged|, s.child.pw) == Some(v)
    ensures Conserved(w, Decided(s, v))
  {
    DecidedRequests(s, v);
    DecidedReplies(w, s, v);
    StillInformed(s, Decided(s, v));
  }

  lemma AnsweredReplies(w: World, s: System)
    requires RepliesConserved(w, s) && s.child.Replying?
    ensures RepliesConserved(w, Answered(w, s))
  {
    var t, v := Answered(w, s), s.child.verdict;
    assert s.judged[s.consumed..|s.judged|] == s.judged[s.consumed..Written(s)] + [v];
    RepliesNext(s.judged[s.consumed..Written(s)], v);
    assert Written(t) == |s.judged|;
  }

  lemma RepliesNext(verdicts: seq<bool>, v: bool)
    ensures Replies(verdicts + [v]) == Replies(verdicts) + [Reply(v)]
  {}

  lemma AnsweredConserves(w: World, s: System)
    requires Conserved(w, s) && s.child.Replying?
    ensures Conserved(w, Answered(w, s))
  {
    var t := Answered(w, s);
    AnsweredReplies(w, s);
    assert Got(t) == Got(s) && Taken(t) == Taken(s) && Wanted([]) == PREFIX;
    StillInformed(s, t);
  }

  /** The next reply is the next verdict. */
  lemma FirstReply(w: World, s: System)
    requires RepliesConserved(w, s) && s.replies != []
    ensures s.consumed < |s.judged| && (s.replies[0] != 0 <==> s.judged[s.consumed])
  {
    var pending := s.judged[s.consumed..Written(s)];
    assert |pending| == |s.replies| && pending[0] == s.judged[s.consumed];
  }

  /** Whatever the parent makes of a reply, the rest of the replies stay in order. */
  lemma RepliesAfterFirst(w: World, s: System, t: System)
    requires RepliesConserved(w, s) && s.replies != []
    requires t == s.(parent := t.parent, replies := s.replies[1..], consumed := s.consumed + 1)
    ensures RepliesConserved(w, t)
  {
    var pending := s.judged[s.consumed..Written(s)];
    assert t.judged[t.consumed..Written(t)] == pending[1..];
  }

  lemma InformedByReply(s: System, t: System, right: bool)
    requires ParentInformed(s) && s.consumed < |s.judged| && right == s.judged[s.consumed]
    requires t == s.(parent := t.parent, replies := t.replies, consumed := s.consumed + 1)
    requires t.parent.core.failed == s.parent.core.failed + (if right then 0 else 1)
    requires t.parent.core.running <==> s.parent.core.running && !right
    ensures ParentInformed(t)
  {
    assert s.judged[..t.consumed] == s.judged[..s.consumed] + [right];
    M.RefusalsNext(s.judged[..s.consumed], right);
    if right {
      assert t.judged[s.consumed];
    }
  }

  lemma HeardConserves(w: World, s: System, at: Timespec)
    requires Conserved(w, s) && s.replies != [] && !s.waiting
    ensures Conserved(w, Heard(s, at))
  {
    var t, e := Heard(s, at), M.ReplyRead(s.replies[0] != 0, at);
    M.StepGood(s.parent, e);
    M.StepFailed(s.parent, e);
    M.StepRunning(s.parent, e);
    FirstReply(w, s);
    RepliesAfterFirst(w, s, t);
    InformedByReply(s, t, s.judged[s.consumed]);
    RequestsUntouched(s, t);
  }

  lemma RequestsUntouched(s: System, t: System)
    requires RequestsConserved(s)
    requires t.submitted == s.submitted && t.judged == s.judged && t.child == s.child && t.requests == s.requests
            && t.out == s.out
    ensures RequestsConserved(t)
  {
    assert Got(t) == Got(s) && Taken(t) == Taken(s);
  }

  lemma RepliesUntouched(w: World, s: System, t: System)
    requires RepliesConserved(w, s)
    requires t.submitted == s.submitted && t.judged == s.judged && t.replies == s.replies && t.consumed == s.consumed
    requires t.child == s.child || (!t.child.Replying? && !s.child.Replying?)
    ensures RepliesConserved(w, t)
  {
    assert Written(t) == Written(s);
  }

  lemma SendableText(c: M.Core)
    requires M.Good(c) && M.Fits(c)
    ensures Sendable(EncodeAll(c.text)) && 0 !in EncodeAll(c.text)
  {
    EncodeAllHasNul(c.text);
    EncodeAllLength(c.text);
    PowerAtLeast(PREFIX);
  }

  lemma {:induction false} PowerAtLeast(k: nat)
    ensures k >= 2 ==> Power256(k) >= 65536
  {
    if k > 2 {
      PowerAtLeast(k - 1);
    } else if k == 2 {
      assert Power256(2) == 256 * Power256(1) && Power256(1) == 256 * Power256(0);
    }
  }

  /** A request made: its frame is to be written, behind everything in flight. */
  lemma SubmissionConserves(w: World, s: System, pw: seq<Byte>)
    requires RequestsConserved(s) && RepliesConserved(w, s) && s.out == []
    ensures var t := s.(out := Frame(pw), submitted := s.submitted + [pw]);
            RequestsConserved(t) && RepliesConserved(w, t)
  {
    var t := s.(out := Frame(pw), submitted := s.submitted + [pw]);
    FramesAppend(s.submitted[Taken(s)..], pw);
    assert t.submitted[Taken(t)..] == s.submitted[Taken(s)..] + [pw];
    assert Got(t) + (t.requests + t.out) == Got(s) + (s.requests + s.out) + Frame(pw);
  }

  lemma PostsText(v: M.View, e: M.Event)
    ensures M.Posts(v, e) == [] || M.Posts(v, e) == [v.core.text]
  {}

  /** What a parent's event does to the protocol: nothing, or one more request. */
  predicate Shaped(s: System, t: System, pw: seq<Byte>) {
    && t == s.(parent := t.parent, out := t.out, submitted := t.submitted, strays := t.strays,
        interrupted := t.interrupted, waiting := t.waiting)
    && ((t.out == s.out && t.submitted == s.submitted) || (t.out == Frame(pw) && t.submitted == s.submitted + [pw]))
  }

  lemma ParentStepShape(s: System, e: M.Event)
    requires s.out == []
    ensures Shaped(s, ParentStep(s, e), EncodeAll(s.parent.core.text))
  {
    PostsText(s.parent, e);
    var posts, pw := M.Posts(s.parent, e), EncodeAll(s.parent.core.text);
    if posts == [] {
      assert Requests(posts) == [] && s.submitted + [] == s.submitted;
    } else {
      assert Requests(posts) == [pw];
      assert Frames([pw]) == Frame(pw) + Frames([pw][1..]);
    }
  }

  lemma ShapedConserves(w: World, s: System, t: System, pw: seq<Byte>)
    requires Shaped(s, t, pw) && s.out == [] && RequestsConserved(s) && RepliesConserved(w, s)
    ensures RequestsConserved(t) && RepliesConserved(w, t)
  {
    if t.submitted != s.submitted {
      SubmissionConserves(w, s, pw);
    }
  }

  lemma ParentStepInforms(s: System, e: M.Event)
    requires ParentInformed(s) && !e.ReplyRead?
    ensures ParentInformed(ParentStep(s, e))
  {
    M.StepFailed(s.parent, e);
    if e.Start? {
      M.StepStarts(s.parent, e);
    } else {
      M.StepRunning(s.parent, e);
    }
  }

  lemma ParentStepConserves(w: World, s: System, e: M.Event)
    requires Conserved(w, s) && s.out == [] && !e.ReplyRead?
    ensures Conserved(w, ParentStep(s, e))
  {
    M.StepGood(s.parent, e);
    ParentStepShape(s, e);
    SendableText(s.parent.core);
    ShapedConserves(w, s, ParentStep(s, e), EncodeAll(s.parent.core.text));
    ParentStepInforms(s, e);
  }

  /** A child that dies takes nothing back. */
  lemma DeathConserves(w: World, s: System)
    requires Conserved(w, s)
    ensures Conserved(w, s.(alive := false))
  {
    var t := s.(alive := false);
    StillInformed(s, t);
    RequestsUntouched(s, t);
    RepliesUntouched(w, s, t);
  }

  lemma ParentActConserves(w: World, s: System, a: Act)
    requires Conserved(w, s) && Can(s, a) && (a.Parent? || a.ParentWrites? || a.ParentReads?)
    ensures Conserved(w, Next(w, s, a))
  {
    match a
    case Parent(e) => ParentStepConserves(w, s, e);
    case ParentWrites(n) => WroteConserves(w, s, n);
    case ParentReads(at) => HeardConserves(w, s, at);
  }

  lemma ChildActConserves(w: World, s: System, a: Act)
    requires Conserved(w, s) && Can(s, a) && (a.ChildReads? || a.ChildJudges? || a.ChildReplies? || a.ChildDies?)
    ensures Conserved(w, Next(w, s, a))
  {
    match a
    case ChildReads(n) => ReceivedConserves(w, s, n);
    case ChildJudges =>
      if w.verdict(|s.judged|, s.child.pw).Some? {
        DecidedConserves(w, s, w.verdict(|s.judged|, s.child.pw).value);
      } else {
        DeathConserves(w, s);
      }
    case ChildReplies => AnsweredConserves(w, s);
    case ChildDies => DeathConserves(w, s);
  }

  /** Every act of either process. */
  lemma NextConserves(w: World, s: System, a: Act)
    requires Conserved(w, s)
    ensures Conserved(w, Next(w, s, a))
  {
    if Can(s, a) {
      if a.Parent? || a.ParentWrites? || a.ParentReads? {
        ParentActConserves(w, s, a);
      } else {
        ChildActConserves(w, s, a);
      }
    }
  }

  /** Nothing was sent yet; the main loop runs or is still to be started. */
  predicate Begins(s: System) {
    s == Initial(s.parent) && s.parent.core.failed == 0 && M.Good(s.parent.core) && M.Fits(s.parent.core)
  }

  lemma BeginsConserved(w: World, s: System)
    requires Begins(s)
    ensures Conserved(w, s)
  {
    assert s.judged[..0] == [] && s.submitted[0..] == [];
  }

  /** Over every interleaving of the two processes. */
  lemma {:induction false} ConservedThroughout(w: World, s: System, acts: seq<Act>)
    requires Begins(s)
    ensures Conserved(w, Exec(w, s, acts))
  {
    if acts == [] {
      BeginsConserved(w, s);
    } else {
      var before := Exec(w, s, acts[..|acts| - 1]);
      ConservedThroughout(w, s, acts[..|acts| - 1]);
      NextConserves(w, before, acts[|acts| - 1]);
      assert Exec(w, s, acts) == Next(w, before, acts[|acts| - 1]);
    }
  }

  /**
   Main result: over every interleaving, the k-th reply the parent consumes is the verdict on the k-th password
   submitted, refusals are counted, and the loop is stopped only by an interruption or a password found right.
   */
  lemma VerdictsMatchSubmissions(w: World, s: System, acts: seq<Act>)
    requires Begins(s)
    ensures var t := Exec(w, s, acts);
            && t.consumed <= |t.judged| <= |t.submitted|
            && (forall k :: 0 <= k < |t.judged| ==> Some(t.judged[k]) == w.verdict(k, t.submitted[k]))
            && t.parent.core.failed == M.Refusals(t.judged[..t.consumed])
            && (!Serving(t) && !t.interrupted ==>
                exists k :: 0 <= k < t.consumed && w.verdict(k, t.submitted[k]) == Some(true))
  {
    ConservedThroughout(w, s, acts);
    var t := Exec(w, s, acts);
    if !Serving(t) && !t.interrupted {
      var k :| 0 <= k < t.consumed && t.judged[k];
      assert w.verdict(k, t.submitted[k]) == Some(true);
    }
  }

  // ---------------------------------------------------------------- requests in flight

  predicate Validating(s: System) {
    s.parent.core.auth.Validating?
  }

  function Unanswered(s: System): int {
    |s.submitted| - s.consumed
  }

  /**
   While a password is being validated some request is unanswered; beyond that one, each stray firing allows one
   more.
   */
  predicate Tracked(s: System) {
    && (Validating(s) && Serving(s) ==> Unanswered(s) >= 1)
    && Unanswered(s) <= (if Validating(s) then 1 else 0) + s.strays
  }

  /** Exactly one request is unanswered while one is being validated, and none otherwise. */
  predicate Exact(s: System) {
    Unanswered(s) == if Validating(s) then 1 else 0
  }

  /** The timer that hides a message fires while a password is being validated. */
  predicate Stray(s: System, a: Act) {
    Can(s, a) && a == Parent(M.AuthIdleFires) && Validating(s)
  }

  /** Validation begins exactly with a request and ends, short of a reply, exactly with a stray firing. */
  lemma ValidationChanges(v: M.View, e: M.Event)
    requires !e.ReplyRead? && !M.WriteFails(v, e)
    ensures var before, after := v.core.auth.Validating?, M.Step(v, e).core.auth.Validating?;
            (|M.Posts(v, e)| == 1 <==> !before && after) && |M.Posts(v, e)| <= 1
            && (before && !after <==> before && e.AuthIdleFires?)
  {}

  lemma ParentStepCounts(s: System, e: M.Event)
    requires Can(s, Parent(e))
    ensures var t := ParentStep(s, e);
            && Unanswered(t) == Unanswered(s) + (if !Validating(s) && Validating(t) then 1 else 0)
            && (Validating(s) && !Validating(t) <==> Stray(s, Parent(e)))
            && t.strays == s.strays + (if Stray(s, Parent(e)) then 1 else 0)
            && (Serving(t) ==> Serving(s))
  {
    ValidationChanges(s.parent, e);
    if !e.Start? {
      M.StepRunning(s.parent, e);
    }
  }

  /** Only the parent's own events and the replies it reads bear on what is unanswered. */
  lemma OtherActs(w: World, s: System, a: Act)
    requires !a.Parent?
    ensures var t := Next(w, s, a);
            && t.submitted == s.submitted && t.strays == s.strays && t.waiting == s.waiting
            && (!(Can(s, a) && a.ParentReads?) ==> t.consumed == s.consumed && t.parent == s.parent)
            && (Can(s, a) && a.ParentReads? ==>
                  t.consumed == s.consumed + 1 && (Serving(t) ==> !Validating(t)) && (Validating(t) ==> Validating(s))
                  && (Serving(t) ==> Serving(s)))
  {
    if Can(s, a) && a.ParentReads? {
      ReplyEndsValidation(s.parent, M.ReplyRead(s.replies[0] != 0, a.at));
    }
  }

  /** A reply of failure ends validation; one of success ends the loop. */
  lemma ReplyEndsValidation(v: M.View, e: M.Event)
    requires e.ReplyRead?
    ensures var c, d := v.core, M.Step(v, e).core;
            (d.running <==> c.running && !e.success) && d.auth == (if e.success then c.auth else M.Invalid)
  {}

  lemma NextTracked(w: World, s: System, a: Act)
    requires Tracked(s) && Conserved(w, s)
    ensures Tracked(Next(w, s, a))
  {
    if a.Parent? {
      if Can(s, a) {
        ParentStepCounts(s, a.e);
      }
    } else {
      OtherActs(w, s, a);
      if Can(s, a) && a.ParentReads? {
        ReadsOutstanding(w, s, a);
      }
    }
  }

  lemma ReadsOutstanding(w: World, s: System, a: Act)
    requires Conserved(w, s) && Can(s, a) && a.ParentReads?
    ensures Unanswered(s) >= 1
  {
    FirstReply(w, s);
  }

  lemma {:induction false} TrackedThroughout(w: World, s: System, acts: seq<Act>)
    requires Begins(s) && !Validating(s)
    ensures Tracked(Exec(w, s, acts))
  {
    if acts != [] {
      TrackedThroughout(w, s, acts[..|acts| - 1]);
      ConservedThroughout(w, s, acts[..|acts| - 1]);
      NextTracked(w, Exec(w, s, acts[..|acts| - 1]), acts[|acts| - 1]);
    }
  }

  /** On runs without a stray firing there is never a second request, and validation is exactly one being unanswered. */
  lemma ExactWithoutStrays(w: World, s: System, acts: seq<Act>)
    requires Begins(s) && !Validating(s)
    ensures var t := Exec(w, s, acts);
            t.strays == 0 ==> Unanswered(t) <= 1 && (Serving(t) ==> Exact(t))
  {
    TrackedThroughout(w, s, acts);
    ConservedThroughout(w, s, acts);
  }

  /** A stray firing is exactly what breaks the correspondence. */
  lemma StrayBreaksExactly(w: World, s: System, a: Act)
    requires Conserved(w, s) && Exact(s) && Serving(s)
    ensures var t := Next(w, s, a);
            !Exact(t) && Serving(t) <==> Stray(s, a)
  {
    if a.Parent? {
      if Can(s, a) {
        ParentStepCounts(s, a.e);
      }
    } else {
      OtherActs(w, s, a);
      if Can(s, a) && a.ParentReads? {
        ReadsOutstanding(w, s, a);
      }
    }
  }

  // ---------------------------------------------------------------- no deadlock

  /** An act that serves the requests made: neither an event of the parent nor the child's death. */
  predicate Serves(a: Act) {
    !a.Parent? && !a.ChildDies?
  }

  /** The main loop runs and so reads replies, and the child lives. */
  predicate Attended(s: System) {
    s.alive && s.parent.core.running && !s.waiting
  }

  /**
   While the main loop runs, the child lives and a request is unanswered, one of the processes can move it towards its
   answer.
   */
  lemma NoDeadlock(w: World, s: System) returns (a: Act)
    requires Conserved(w, s) && Attended(s) && Unanswered(s) >= 1
    ensures Can(s, a) && Serves(a)
  {
    if s.out != [] {
      a := ParentWrites(1);
    } else if s.replies != [] {
      a := ParentReads(Timespec(0, 0));
    } else if s.child.Judging? {
      a := ChildJudges;
    } else if s.child.Replying? {
      a := ChildReplies;
    } else {
      a := ChildReads(1);
      var pending := s.submitted[Taken(s)..];
      assert s.replies == Replies(s.judged[s.consumed..Written(s)]);
      assert pending != [] && pending[0] == s.submitted[Taken(s)];
      GotBounded(s.child.got, s.requests, pending[0], Frames(pending[1..]));
    }
  }

  /** What is left to do for the requests made: bytes to move, requests to take, judge and answer, replies to read. */
  function Work(s: System): int {
    2 * |s.out| + |s.requests| + 4 * (|s.submitted| - Taken(s)) + |s.replies|
    + (if s.child.Judging? then 3 else if s.child.Replying? then 2 else 0) + (if s.alive then 1 else 0)
  }

  lemma WorkBounded(s: System)
    requires RequestsConserved(s)
    ensures Work(s) >= 0
  {}

  lemma ReadLessens(s: System, n: nat)
    requires RequestsConserved(s) && AllSendable(s.submitted) && Can(s, ChildReads(n))
    ensures Work(Received(s.(requests := s.requests[n..]), s.child.got + s.requests[..n])) < Work(s)
  {
    var t := Received(s.(requests := s.requests[n..]), s.child.got + s.requests[..n]);
    ChildReadsConserves(s, n);
    assert t.requests == s.requests[n..];
  }

  lemma JudgedLessens(w: World, s: System)
    requires Can(s, ChildJudges)
    ensures Work(Next(w, s, ChildJudges)) < Work(s)
  {}

  lemma OthersLessen(w: World, s: System, a: Act)
    requires Can(s, a) && (a.ParentWrites? || a.ParentReads? || a.ChildReplies?)
    ensures Work(Next(w, s, a)) < Work(s)
  {
    assert Taken(Next(w, s, a)) == Taken(s);
  }

  /** Each such act leaves less to do. */
  lemma WorkLessens(w: World, s: System, a: Act)
    requires Conserved(w, s) && Can(s, a) && Serves(a)
    ensures Conserved(w, Next(w, s, a)) && 0 <= Work(Next(w, s, a)) < Work(s)
  {
    NextConserves(w, s, a);
    WorkBounded(Next(w, s, a));
    if a.ChildReads? {
      ReadLessens(s, a.count);
    } else if a.ChildJudges? {
      JudgedLessens(w, s);
    } else {
      OthersLessen(w, s, a);
    }
  }

  /** Acts that all happen and serve the requests made. */
  predicate AllServe(w: World, s: System, acts: seq<Act>) {
    acts == []
    || (var before, a := acts[..|acts| - 1], acts[|acts| - 1];
        AllServe(w, s, before) && Serves(a) && Can(Exec(w, s, before), a))
  }

  /**
   From every state that can be reached, every way to serve the requests made comes to an end, after at most as many
   acts as there is work; and when it can go no further all requests are answered, or the child has ended, or the main
   loop has.
   */
  lemma {:induction false} AllAnswered(w: World, s: System, acts: seq<Act>)
    requires Conserved(w, s) && !s.waiting && AllServe(w, s, acts)
    ensures Conserved(w, Exec(w, s, acts)) && 0 <= Work(Exec(w, s, acts)) <= Work(s) - |acts|
    ensures var t := Exec(w, s, acts);
            t.submitted == s.submitted && !t.waiting
            && ((exists a :: Serves(a) && Can(t, a)) || Unanswered(t) == 0 || !t.alive || !t.parent.core.running)
  {
    var t := Exec(w, s, acts);
    if acts == [] {
      WorkBounded(s);
    } else {
      var before, a := acts[..|acts| - 1], acts[|acts| - 1];
      AllAnswered(w, s, before);
      WorkLessens(w, Exec(w, s, before), a);
      OtherActs(w, Exec(w, s, before), a);
    }
    Stuck(w, t);
  }

  lemma Stuck(w: World, t: System)
    requires Conserved(w, t) && !t.waiting
    ensures (exists a :: Serves(a) && Can(t, a)) || Unanswered(t) == 0 || !t.alive || !t.parent.core.running
  {
    if Unanswered(t) != 0 && Attended(t) {
      var a := NoDeadlock(w, t);
    }
  }

  lemma ActsFirst(w: World, s: System, a: Act, rest: seq<Act>)
    ensures Exec(w, s, [a] + rest) == Exec(w, Next(w, s, a), rest)
  {
    assert Exec(w, s, [a]) == Next(w, Exec(w, s, [a][..0]), a);
    ExecAppend(w, s, [a], rest);
  }

  // ---------------------------------------------------------------- how the child ends

  /** An act ends the child exactly if it dies, cannot judge a password, or has answered one it ends after. */
  lemma ChildEndsExactly(w: World, s: System, a: Act)
    requires Conserved(w, s) && s.alive
    ensures !Next(w, s, a).alive <==>
            || a == ChildDies
            || (a == ChildJudges && s.child.Judging? && w.verdict(|s.judged|, s.child.pw) == None)
            || (a == ChildReplies && s.child == Replying(true) && w.endsOnSuccess)
  {
    if Can(s, a) && a.ChildReads? {
      ChildReadsConserves(s, a.count);
      ReadsWell(s, a.count);
    }
  }

  /** No request the parent makes is malformed. */
  lemma ReadsWell(s: System, n: nat)
    requires RequestsConserved(s) && AllSendable(s.submitted) && Can(s, ChildReads(n))
    ensures Received(s.(requests := s.requests[n..]), s.child.got + s.requests[..n]).alive
  {
    var pending, got, tail := s.submitted[Taken(s)..], s.child.got + s.requests[..n], s.requests[n..] + s.out;
    assert got + tail == s.child.got + (s.requests + s.out);
    assert pending != [];
    var pw, rest := pending[0], Frames(pending[1..]);
    assert pw == s.submitted[Taken(s)] && Frames(pending) == Frame(pw) + rest;
    GotBounded(s.child.got, s.requests + s.out, pw, rest);
    WantedOfFrame(s.child.got, s.requests + s.out, pw, rest);
    WantedOfFrame(got, tail, pw, rest);
    if Wanted(got) <= 0 {
      assert got == (got + tail)[..|got|] == Frame(pw);
      ParseFrame(pw, []);
      assert Frame(pw) + [] == Frame(pw);
    }
  }

  /** The last password judged was right, and its answer is written. */
  predicate Satisfied(s: System) {
    s.child.Reading? && s.judged != [] && s.judged[|s.judged| - 1]
  }

  predicate EndsByItself(w: World, s: System) {
    && (!s.alive ==>
          || (w.endsOnSuccess && Satisfied(s))
          || (s.child.Judging? && w.verdict(|s.judged|, s.child.pw) == None))
    && (w.endsOnSuccess && Satisfied(s) ==> !s.alive)
  }

  lemma ParentLeavesChild(w: World, s: System, a: Act)
    requires a.Parent? || a.ParentWrites? || a.ParentReads?
    ensures var t := Next(w, s, a); t.alive == s.alive && t.child == s.child && t.judged == s.judged
  {
    if Can(s, a) && a.Parent? {
      ParentStepShape(s, a.e);
    }
  }

  lemma NextEndsByItself(w: World, s: System, a: Act)
    requires Conserved(w, s) && EndsByItself(w, s) && a != ChildDies
    ensures EndsByItself(w, Next(w, s, a))
  {
    if a.Parent? || a.ParentWrites? || a.ParentReads? {
      ParentLeavesChild(w, s, a);
    } else if Can(s, a) {
      if a.ChildReads? {
        ReadingEnds(w, s, a.count);
      } else {
        AnsweringEnds(w, s, a);
      }
    }
  }

  lemma ReadingEnds(w: World, s: System, n: nat)
    requires RequestsConserved(s) && AllSendable(s.submitted) && EndsByItself(w, s) && Can(s, ChildReads(n))
    ensures EndsByItself(w, Next(w, s, ChildReads(n)))
  {
    ReadsWell(s, n);
    ChildReadsConserves(s, n);
  }

  lemma AnsweringEnds(w: World, s: System, a: Act)
    requires RepliesConserved(w, s) && EndsByItself(w, s) && Can(s, a) && (a.ChildJudges? || a.ChildReplies?)
    ensures EndsByItself(w, Next(w, s, a))
  {}

  /** Over every run in which the child is not killed. */
  lemma {:induction false} EndsThroughout(w: World, s: System, acts: seq<Act>)
    requires Begins(s) && ChildDies !in acts
    ensures EndsByItself(w, Exec(w, s, acts))
  {
    if acts != [] {
      EndsThroughout(w, s, acts[..|acts| - 1]);
      ConservedThroughout(w, s, acts[..|acts| - 1]);
      NextEndsByItself(w, Exec(w, s, acts[..|acts| - 1]), acts[|acts| - 1]);
    }
  }

  // ---------------------------------------------------------------- a run with two requests in flight

  lemma ExecOn(w: World, s: System, acts: seq<Act>, a: Act)
    ensures Exec(w, s, acts + [a]) == Next(w, Exec(w, s, acts), a)
  {
    assert (acts + [a])[..|acts|] == acts;
  }

  const ENTER: Act := Parent(M.KeyPressed(0, M.Return, 0, Timespec(0, 0), true, Timespec(0, 0)))

  /** One seat, a keymap, nothing typed, the loop running. */
  function Ready(): System {
    Initial(M.View(M.Core(M.Idle, M.Pristine, [], M.Xkb(false, false, true), M.Alarms(None, None, None), 0, true, 0),
        [M.NO_SEAT]))
  }

  /** Enter with nothing typed sends the empty password. */
  lemma EnterSubmits(w: World, s: System)
    requires s.out == [] && s.parent.core.xkb.keymap && |s.parent.seats| == 1 && !Validating(s)
            && s.parent.core.text == []
    ensures var t := Next(w, s, ENTER);
            && Validating(t) && t == s.(parent := t.parent, out := Frame([]), submitted := s.submitted + [[]])
            && t.parent.core == M.Submitted(s.parent.core, Timespec(0, 0), true) && |t.parent.seats| == 1
  {
    assert EncodeAll([]) == [];
    assert Requests([[]]) == [[]];
    assert Frames([[]]) == Frame([]) + Frames([[]][1..]);
  }

  /** The child takes one frame: first the size, then the body. */
  lemma TakeFrame(w: World, s: System, pw: seq<Byte>, rest: seq<Byte>)
    requires Sendable(pw) && s.alive && s.child == Reading([]) && s.requests == Frame(pw) + rest
    ensures Next(w, Next(w, s, ChildReads(PREFIX)), ChildReads(|pw| + 1))
         == s.(child := Judging(pw), requests := rest)
  {
    var f := Frame(pw);
    FrameShape(pw, rest);
    WantedOfFrame([], f + rest, pw, rest);
    var size := f[..PREFIX];
    assert size == (f + rest)[..PREFIX] && f[PREFIX..] + rest == (f + rest)[PREFIX..];
    assert size + (f[PREFIX..] + rest) == f + rest;
    WantedOfFrame(size, f[PREFIX..] + rest, pw, rest);
    var t := Next(w, s, ChildReads(PREFIX));
    assert [] + size == size;
    assert t == s.(child := Reading(size), requests := f[PREFIX..] + rest);
    BodyTaken(w, t, pw, rest);
  }

  lemma BodyTaken(w: World, t: System, pw: seq<Byte>, rest: seq<Byte>)
    requires Sendable(pw) && t.alive && t.child == Reading(Frame(pw)[..PREFIX])
    requires |Frame(pw)| == PREFIX + |pw| + 1 && t.requests == Frame(pw)[PREFIX..] + rest
    requires Wanted(Frame(pw)[..PREFIX]) == |pw| + 1
    ensures Next(w, t, ChildReads(|pw| + 1)) == t.(child := Judging(pw), requests := rest)
  {
    var f := Frame(pw);
    assert t.requests[..|pw| + 1] == f[PREFIX..] && t.requests[|pw| + 1..] == rest;
    assert f[..PREFIX] + f[PREFIX..] == f && f + [] == f;
    WantedOfFrame(f, [], pw, []);
    ParseFrame(pw, []);
  }

  /** The acts by which a request in the pipe is answered. */
  function RoundTrip(pw: seq<Byte>, at: Timespec): seq<Act> {
    [ChildReads(PREFIX), ChildReads(|pw| + 1), ChildJudges, ChildReplies, ParentReads(at)]
  }

  /** A request first in the pipe is taken, judged and answered, and the parent reads the reply. */
  lemma Answering(w: World, s: System, pw: seq<Byte>, rest: seq<Byte>, v: bool, at: Timespec)
    requires Sendable(pw) && s.alive && s.child == Reading([]) && s.requests == Frame(pw) + rest
    requires s.out == [] && s.replies == [] && !s.waiting
    requires w.verdict(|s.judged|, pw) == Some(v) && !(w.endsOnSuccess && v)
    ensures Exec(w, s, RoundTrip(pw, at))
         == s.(requests := rest, judged := s.judged + [v], consumed := s.consumed + 1,
               parent := M.Step(s.parent, M.ReplyRead(v, at)))
    ensures var t := Exec(w, s, RoundTrip(pw, at)[..4]); t.replies == [Reply(v)] && Can(t, ParentReads(at))
  {
    TakeFrame(w, s, pw, rest);
    var s2 := s.(child := Judging(pw), requests := rest);
    var s3 := Next(w, s2, ChildJudges);
    assert s3 == s2.(child := Replying(v), judged := s.judged + [v]);
    var s4 := Next(w, s3, ChildReplies);
    assert s4 == s3.(child := Reading([]), replies := [Reply(v)]);
    var s5 := Next(w, s4, ParentReads(at));
    assert s5 == s4.(replies := [], consumed := s.consumed + 1, parent := M.Step(s.parent, M.ReplyRead(v, at)));
    Exec5(w, s, RoundTrip(pw, at));
  }

  lemma Exec5(w: World, s: System, acts: seq<Act>)
    requires |acts| == 5
    ensures Exec(w, s, acts[..4]) == Next(w, Next(w, Next(w, Next(w, s, acts[0]), acts[1]), acts[2]), acts[3])
    ensures Exec(w, s, acts) == Next(w, Exec(w, s, acts[..4]), acts[4])
  {
    assert acts[..4][..3] == acts[..3] && acts[..3][..2] == acts[..2] && acts[..2][..1] == acts[..1];
    assert Exec(w, s, acts[..1]) == Next(w, s, acts[0]);
    assert Exec(w, s, acts[..2]) == Next(w, Exec(w, s, acts[..1]), acts[1]);
    assert Exec(w, s, acts[..3]) == Next(w, Exec(w, s, acts[..2]), acts[2]);
    assert Exec(w, s, acts[..4]) == Next(w, Exec(w, s, acts[..3]), acts[3]);
  }

  lemma EmptySendable()
    ensures Sendable([])
  {
    PowerAtLeast(PREFIX);
  }

  /** An empty password can be sent now. */
  predicate CanEnter(s: System) {
    && s.out == [] && s.alive && s.parent.core.xkb.keymap && |s.parent.seats| == 1 && !Validating(s)
    && s.parent.core.text == [] && s.parent.core.running && !s.waiting
  }

  /** An empty password is sent and refused; the message stays for three seconds. */
  lemma FirstExchange(w: World) returns (acts: seq<Act>)
    requires w.verdict(0, []) == Some(false)
    ensures var t := Exec(w, Ready(), acts);
            CanEnter(t) && t.parent.core.auth == M.Invalid && t.parent.core.alarms.authIdle.Some?
            && Unanswered(t) == 0 && t.strays == 0
  {
    var s, n, at := Ready(), |Frame([])|, Timespec(0, 0);
    EmptySendable();
    FrameShape([], []);
    assert Frame([]) + [] == Frame([]);
    var s1 := Next(w, s, ENTER);
    EnterSubmits(w, s);
    var s2 := Next(w, s1, ParentWrites(n));
    assert s2 == s1.(out := [], requests := Frame([]));
    Answering(w, s2, [], [], false, at);
    Refusal(s2.parent, M.ReplyRead(false, at));
    ActsFirst(w, s1, ParentWrites(n), RoundTrip([], at));
    ActsFirst(w, s, ENTER, [ParentWrites(n)] + RoundTrip([], at));
    acts := [ENTER] + ([ParentWrites(n)] + RoundTrip([], at));
  }

  /** What a refusal leaves behind. */
  lemma Refusal(v: M.View, e: M.Event)
    requires e.ReplyRead? && !e.success
    ensures M.Step(v, e) == M.View(M.Refused(v.core, e.at), v.seats)
  {}

  /** Enter is pressed again, the timer that hides the message fires, and Enter is pressed once more. */
  lemma SecondExchange(w: World, s: System) returns (acts: seq<Act>)
    requires CanEnter(s) && s.parent.core.alarms.authIdle.Some? && Unanswered(s) == 0 && s.strays == 0
    ensures var t := Exec(w, s, acts); Unanswered(t) == 2 && t.strays == 1 && t.parent.core.running
  {
    var n := |Frame([])|;
    EmptySendable();
    FrameShape([], []);
    assert Frame([]) + [] == Frame([]);
    var s1 := Next(w, s, ENTER);
    EnterSubmits(w, s);
    var s2 := Next(w, s1, ParentWrites(n));
    var s3 := Next(w, s2, Parent(M.AuthIdleFires));
    assert M.Posts(s2.parent, M.AuthIdleFires) == [];
    var s4 := Next(w, s3, ENTER);
    EnterSubmits(w, s3);
    acts := [ENTER] + [ParentWrites(n)] + [Parent(M.AuthIdleFires)] + [ENTER];
    assert Exec(w, s, [ENTER]) == Next(w, Exec(w, s, [ENTER][..0]), ENTER);
    ExecOn(w, s, [ENTER], ParentWrites(n));
    ExecOn(w, s, [ENTER] + [ParentWrites(n)], Parent(M.AuthIdleFires));
    ExecOn(w, s, [ENTER] + [ParentWrites(n)] + [Parent(M.AuthIdleFires)], ENTER);
  }

  /**
   The run that puts two requests in flight: an empty password is refused, Enter is pressed again within the three
   seconds the message stays, the timer that hides the message fires, and Enter is pressed once more.
   */
  lemma TwoInFlight(w: World) returns (acts: seq<Act>)
    requires w.verdict(0, []) == Some(false)
    ensures Begins(Ready()) && !Validating(Ready())
    ensures var t := Exec(w, Ready(), acts); Unanswered(t) == 2 && t.strays == 1 && t.parent.core.running
  {
    var first := FirstExchange(w);
    var second := SecondExchange(w, Exec(w, Ready(), first));
    ExecAppend(w, Ready(), first, second);
    acts := first + second;
  }

  lemma {:induction false} ExecAppend(w: World, s: System, acts: seq<Act>, more: seq<Act>)
    ensures Exec(w, s, acts + more) == Exec(w, Exec(w, s, acts), more)
  {
    if more == [] {
      assert acts + more == acts;
    } else {
      assert (acts + more)[..|acts + more| - 1] == acts + more[..|more| - 1];
      ExecAppend(w, s, acts, more[..|more| - 1]);
    }
  }

  // ---------------------------------------------------------------- the PAM child is the child of this protocol

  /** The world in which the child is the one of module PamBackend. */
  function PamWorld(stack: PB.Stack): World {
    World((n: nat, pw: seq<Byte>) => Some(PB.Verdict(stack, n, PB.CString(pw))), true)
  }

  /** A password found right is the last one judged. */
  predicate LastRight(s: System) {
    forall k :: 0 <= k < |s.judged| && s.judged[k] ==> k == |s.judged| - 1 && (s.child.Replying? || !s.alive)
  }

  lemma NextLastRight(w: World, s: System, a: Act)
    requires w.endsOnSuccess && LastRight(s) && RepliesConserved(w, s)
    ensures LastRight(Next(w, s, a))
  {
    if Can(s, a) && a.Parent? {
      ParentStepShape(s, a.e);
    }
  }

  lemma {:induction false} LastRightThroughout(w: World, s: System, acts: seq<Act>)
    requires w.endsOnSuccess && Begins(s)
    ensures LastRight(Exec(w, s, acts))
  {
    if acts != [] {
      LastRightThroughout(w, s, acts[..|acts| - 1]);
      ConservedThroughout(w, s, acts[..|acts| - 1]);
      NextLastRight(w, Exec(w, s, acts[..|acts| - 1]), acts[|acts| - 1]);
    }
  }

  /**
   In every interleaving the verdicts are the first of those the request loop gives for the frames of the passwords
   submitted. Each is success exactly if that is what `pam_authenticate` returns for that very password.
   */
  lemma JudgedAsOwed(stack: PB.Stack, s: System, acts: seq<Act>)
    requires Begins(s)
    ensures var t := Exec(PamWorld(stack), s, acts);
            && t.judged <= PB.Serve(stack, 0, Frames(t.submitted))
            && |t.judged| <= |t.submitted|
            && forall k :: 0 <= k < |t.judged| ==> (t.judged[k] <==> Accepts(stack, k, t.submitted[k]))
  {
    var w := PamWorld(stack);
    var t := Exec(w, s, acts);
    ConservedThroughout(w, s, acts);
    LastRightThroughout(w, s, acts);
    OwedAsFar(stack, t.submitted, t.judged);
  }

  /** `pam_authenticate` succeeds on its n-th call, given the password if it asks for one. */
  predicate Accepts(stack: PB.Stack, n: nat, pw: seq<Byte>) {
    stack.judge(n, if PB.Asked(stack.calls(n)) then Some(pw) else None) == PB.PamSuccess
  }

  lemma OwedAsFar(stack: PB.Stack, pws: seq<seq<Byte>>, verdicts: seq<bool>)
    requires AllSendable(pws) && |verdicts| <= |pws|
    requires forall k {:trigger pws[k]} :: 0 <= k < |verdicts| ==>
               PB.Verdict(stack, k, PB.CString(pws[k])) == verdicts[k]
    requires forall k :: 0 <= k < |verdicts| - 1 ==> !verdicts[k]
    ensures verdicts <= PB.Serve(stack, 0, Frames(pws))
    ensures forall k :: 0 <= k < |verdicts| ==> (verdicts[k] <==> Accepts(stack, k, pws[k]))
  {
    var owed := PB.Owed(stack, 0, pws);
    PB.ServeFrames(stack, 0, pws);
    PB.OwedAnswers(stack, 0, pws);
    assert forall k {:trigger pws[k]} :: 0 <= k < |owed| && k < |verdicts| ==> owed[k] == verdicts[k];
    assert |verdicts| <= |owed|;
    forall k | 0 <= k < |verdicts|
      ensures verdicts[k] == owed[k] && (owed[k] <==> Accepts(stack, k, pws[k]))
    {
      PB.CStringWhole(pws[k]);
    }
  }

  /** Unless it is killed the PAM child ends exactly when it has answered a password that was accepted. */
  lemma PamChildEnds(stack: PB.Stack, s: System, acts: seq<Act>)
    requires Begins(s) && ChildDies !in acts
    ensures var t := Exec(PamWorld(stack), s, acts);
            && |t.judged| <= |t.submitted|
            && (!t.alive <==> t.child.Reading? && t.judged != []
                              && Accepts(stack, |t.judged| - 1, t.submitted[|t.judged| - 1]))
  {
    JudgedAsOwed(stack, s, acts);
    EndsThroughout(PamWorld(stack), s, acts);
  }

  // ---------------------------------------------------------------- so is the shadow child

  /** The world in which the child is the one of module ShadowBackend, which ends at an unsupported hash. */
  function ShadowWorld(crypt: SB.Crypt, hash: seq<Byte>): World {
    World((n: nat, pw: seq<Byte>) => SB.Compare(crypt, hash, PB.CString(pw)), false)
  }

  lemma ServedAsFar(crypt: SB.Crypt, hash: seq<Byte>, pws: seq<seq<Byte>>, verdicts: seq<bool>)
    requires AllSendable(pws) && |verdicts| <= |pws|
    requires forall k {:trigger pws[k]} :: 0 <= k < |verdicts| ==>
               SB.Compare(crypt, hash, PB.CString(pws[k])) == Some(verdicts[k])
    ensures verdicts <= SB.Serve(crypt, hash, Frames(pws))
    ensures forall k :: 0 <= k < |verdicts| ==>
              SB.Comparable(crypt(pws[k], hash), hash) && (verdicts[k] <==> crypt(pws[k], hash) == Some(hash))
  {
    SB.ServeAnswers(crypt, hash, pws);
    var served := SB.Serve(crypt, hash, Frames(pws));
    assert |verdicts| <= |served|;
    forall k | 0 <= k < |verdicts|
      ensures verdicts[k] == served[k]
      ensures SB.Comparable(crypt(pws[k], hash), hash) && (verdicts[k] <==> crypt(pws[k], hash) == Some(hash))
    {
      PB.CStringWhole(pws[k]);
    }
  }

  /**
   In every interleaving the verdicts are the first of those the loop gives for the frames of the passwords
   submitted. Each is success exactly if `crypt` makes the hash of that very password, and comes only of a result
   that can be compared with it.
   */
  lemma JudgedAsServed(crypt: SB.Crypt, hash: seq<Byte>, s: System, acts: seq<Act>)
    requires Begins(s)
    ensures var t := Exec(ShadowWorld(crypt, hash), s, acts);
            && t.judged <= SB.Serve(crypt, hash, Frames(t.submitted))
            && |t.judged| <= |t.submitted|
            && forall k :: 0 <= k < |t.judged| ==>
                 && SB.Comparable(crypt(t.submitted[k], hash), hash)
                 && (t.judged[k] <==> crypt(t.submitted[k], hash) == Some(hash))
  {
    var w := ShadowWorld(crypt, hash);
    var t := Exec(w, s, acts);
    ConservedThroughout(w, s, acts);
    ServedAsFar(crypt, hash, t.submitted, t.judged);
  }

  /** Unless it is killed the shadow child ends only at a password whose hash cannot be compared. */
  lemma ShadowChildEnds(crypt: SB.Crypt, hash: seq<Byte>, s: System, acts: seq<Act>)
    requires Begins(s) && ChildDies !in acts
    ensures var t := Exec(ShadowWorld(crypt, hash), s, acts);
            !t.alive ==> t.child.Judging? && !SB.Comparable(crypt(t.child.pw, hash), hash)
  {
    var w := ShadowWorld(crypt, hash);
    var t := Exec(w, s, acts);
    assert !w.endsOnSuccess;
    EndsThroughout(w, s, acts);
    ConservedThroughout(w, s, acts);
    if t.child.Judging? {
      PB.CStringWhole(t.child.pw);
      SB.CompareExactly(crypt, hash, t.child.pw);
    }
  }
}

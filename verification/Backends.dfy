/** The PAM child: conversation and request loop (src/auth-pam.c:33-70, src/auth-pam.c:114-151). */
module PamBackend {
  import opened Options
  import opened Utf8
  import opened SafeBuffer
  import opened Pipes
  import opened Framing
  import opened Auth

  datatype Style = PromptEchoOff | PromptEchoOn | ErrorMsg | TextInfo

  predicate IsPrompt(s: Style) {
    s.PromptEchoOff? || s.PromptEchoOn?
  }

  function Prompts(msgs: seq<Style>): nat {
    if msgs == [] then 0 else Prompts(msgs[..|msgs| - 1]) + if IsPrompt(msgs[|msgs| - 1]) then 1 else 0
  }

  lemma {:induction false} PromptsMonotone(msgs: seq<Style>, i: nat)
    requires i <= |msgs|
    ensures Prompts(msgs[..i]) <= Prompts(msgs)
    ensures i < |msgs| && IsPrompt(msgs[i]) ==> Prompts(msgs[..i]) < Prompts(msgs)
  {
    if i < |msgs| {
      var init := msgs[..|msgs| - 1];
      if i < |init| {
        assert init[..i] == msgs[..i];
        PromptsMonotone(init, i);
      }
    } else {
      assert msgs[..i] == msgs;
    }
  }

  /** The C string at the start of a buffer. */
  function CString(bytes: seq<Byte>): seq<Byte> {
    if bytes == [] || bytes[0] == 0 then [] else [bytes[0]] + CString(bytes[1..])
  }

  lemma {:induction false} CStringOf(bytes: seq<Byte>, tail: seq<Byte>)
    requires 0 !in bytes
    ensures CString(bytes + [0] + tail) == bytes
  {
    var all := bytes + [0] + tail;
    if bytes != [] {
      assert bytes[0] in bytes;
      assert all[1..] == bytes[1..] + [0] + tail;
      CStringOf(bytes[1..], tail);
    }
  }

  lemma {:induction false} CStringInside(bytes: seq<Byte>, len: nat)
    requires len < |bytes| && bytes[len] == 0
    ensures CString(bytes) == CString(bytes[..len])
  {
    if len > 0 && bytes[0] != 0 {
      CStringInside(bytes[1..], len - 1);
      assert bytes[1..][..len - 1] == bytes[..len][1..];
    }
  }

  /** A password without a NUL is handed on whole. */
  lemma CStringWhole(pw: seq<Byte>)
    requires 0 !in pw
    ensures CString(pw) == pw
  {
    CStringOf(pw, []);
    assert pw + [0] + [] == pw + [0];
    CStringInside(pw + [0], |pw|);
  }

  /** What PAM calls return: success, an aborted conversation, or another code. */
  datatype Status = PamSuccess | PamAbort | PamFailure(code: int)

  class ConvState {
    /** The string `password` points to, None when it is NULL. */
    var password: Option<seq<Byte>>

    constructor ()
      ensures password == None
    {
      password := None;
    }
  }

  /** The answer to message `i`: only the first prompt is answered, and only while a password is held. */
  function Answer(held: Option<seq<Byte>>, msgs: seq<Style>, i: nat): Option<seq<Byte>>
    requires i < |msgs|
  {
    if IsPrompt(msgs[i]) && Prompts(msgs[..i]) == 0 then held else None
  }

  /** Prompts that one held password can serve. */
  function Servable(held: Option<seq<Byte>>): nat {
    if held.Some? then 1 else 0
  }

  /** `handle_conversation` */
  method HandleConversation(msgs: seq<Style>, state: ConvState)
    returns (status: Status, replies: array<Option<seq<Byte>>>)
    modifies state
    ensures fresh(replies) && replies.Length == |msgs|
    ensures forall i :: 0 <= i < |msgs| ==> replies[i] == Answer(old(state.password), msgs, i)
    ensures status == if Prompts(msgs) > Servable(old(state.password)) then PamAbort else PamSuccess
    ensures state.password == if Prompts(msgs) == 0 then old(state.password) else None
  {
    replies := new Option<seq<Byte>>[|msgs|](_ => None);
    var i := 0;
    while i < |msgs|
      invariant 0 <= i <= |msgs|
      invariant forall j :: 0 <= j < i ==> replies[j] == Answer(old(state.password), msgs, j)
      invariant forall j :: i <= j < |msgs| ==> replies[j] == None
      invariant Prompts(msgs[..i]) <= Servable(old(state.password))
      invariant state.password == if Prompts(msgs[..i]) == 0 then old(state.password) else None
    {
      assert msgs[..i + 1][..i] == msgs[..i];
      if IsPrompt(msgs[i]) {
        if state.password == None {
          LaterPromptsUnanswered(old(state.password), msgs, i);
          return PamAbort, replies;
        }
        replies[i] := state.password;
        state.password := None;
      }
      i := i + 1;
    }
    assert msgs[..i] == msgs;
    return PamSuccess, replies;
  }

  lemma LaterPromptsUnanswered(held: Option<seq<Byte>>, msgs: seq<Style>, i: nat)
    requires i < |msgs| && IsPrompt(msgs[i])
    requires held == None || Prompts(msgs[..i]) > 0
    ensures forall j :: i <= j < |msgs| ==> Answer(held, msgs, j) == None
    ensures Prompts(msgs) > Prompts(msgs[..i])
  {
    PromptsMonotone(msgs, i);
    forall j | i <= j < |msgs| ensures Answer(held, msgs, j) == None {
      assert msgs[..j][..i] == msgs[..i];
      PromptsMonotone(msgs[..j], i);
    }
  }

  // ------------------------------------------------- one pam_authenticate, any number of conversations

  /** The password still held after the first `k` conversations. */
  function HeldAfter(pw: seq<Byte>, calls: seq<seq<Style>>, k: nat): Option<seq<Byte>>
    requires k <= |calls|
  {
    if k == 0 then Some(pw)
    else if Prompts(calls[k - 1]) == 0 then HeldAfter(pw, calls, k - 1)
    else None
  }

  /** Whether message `i` of conversation `k` was given the password. */
  predicate Handed(pw: seq<Byte>, calls: seq<seq<Style>>, k: nat, i: nat)
    requires k < |calls| && i < |calls[k]|
  {
    Answer(HeldAfter(pw, calls, k), calls[k], i).Some?
  }

  function TotalPrompts(calls: seq<seq<Style>>, k: nat): nat
    requires k <= |calls|
  {
    if k == 0 then 0 else TotalPrompts(calls, k - 1) + Prompts(calls[k - 1])
  }

  lemma {:induction false} HeldIff(pw: seq<Byte>, calls: seq<seq<Style>>, k: nat)
    requires k <= |calls|
    ensures HeldAfter(pw, calls, k) == if TotalPrompts(calls, k) == 0 then Some(pw) else None
  {
    if k > 0 {
      HeldIff(pw, calls, k - 1);
    }
  }

  lemma {:induction false} TotalMonotone(calls: seq<seq<Style>>, j: nat, k: nat)
    requires j <= k <= |calls|
    ensures TotalPrompts(calls, j) <= TotalPrompts(calls, k)
  {
    if j < k {
      TotalMonotone(calls, j, k - 1);
    }
  }

  /**
   Over all conversations of one authentication the password is handed out at most once, only to a
   prompt, and it is the password; a conversation aborts exactly when it holds a prompt that is not
   the first one of the authentication.
   */
  lemma PasswordHandedOnce(pw: seq<Byte>, calls: seq<seq<Style>>)
    ensures forall k, i, m, j ::
              (0 <= k < |calls| && 0 <= i < |calls[k]| && 0 <= m < |calls| && 0 <= j < |calls[m]|
               && Handed(pw, calls, k, i) && Handed(pw, calls, m, j)) ==> (k == m && i == j)
    ensures forall k, i ::
              (0 <= k < |calls| && 0 <= i < |calls[k]| && Handed(pw, calls, k, i)) ==>
                (IsPrompt(calls[k][i]) && Answer(HeldAfter(pw, calls, k), calls[k], i) == Some(pw))
    ensures forall k :: 0 <= k < |calls| ==>
                          (Prompts(calls[k]) > Servable(HeldAfter(pw, calls, k)) <==>
                           (Prompts(calls[k]) >= 1 && TotalPrompts(calls, k) + Prompts(calls[k]) >= 2))
  {
    forall k | 0 <= k < |calls|
      ensures HeldAfter(pw, calls, k) == if TotalPrompts(calls, k) == 0 then Some(pw) else None
    {
      HeldIff(pw, calls, k);
    }
    forall k, i, m, j | 0 <= k < |calls| && 0 <= i < |calls[k]| && 0 <= m < |calls| && 0 <= j < |calls[m]|
                        && Handed(pw, calls, k, i) && Handed(pw, calls, m, j)
      ensures k == m && i == j
    {
      if k < m || (k == m && i < j) {
        EarlierPrompt(calls, k, i, m, j);
      } else if m < k || (m == k && j < i) {
        EarlierPrompt(calls, m, j, k, i);
      }
    }
  }

  lemma EarlierPrompt(calls: seq<seq<Style>>, k: nat, i: nat, m: nat, j: nat)
    requires k < |calls| && i < |calls[k]| && m < |calls| && j < |calls[m]|
    requires k < m || (k == m && i < j)
    requires IsPrompt(calls[k][i])
    ensures TotalPrompts(calls, m) + Prompts(calls[m][..j]) > 0
  {
    if k < m {
      PromptsMonotone(calls[k], i);
      TotalMonotone(calls, k + 1, m);
    } else {
      assert calls[k][..j][..i] == calls[k][..i];
      PromptsMonotone(calls[k][..j], i);
    }
  }

  /** Message `i` of conversation `k` asks for something. */
  predicate PromptAt(calls: seq<seq<Style>>, k: nat, i: nat) {
    k < |calls| && i < |calls[k]| && (calls[k][i] == PromptEchoOff || calls[k][i] == PromptEchoOn)
  }

  predicate Earlier(m: nat, j: nat, k: nat, i: nat) {
    m < k || (m == k && j < i)
  }

  predicate Asked(calls: seq<seq<Style>>) {
    exists k: nat, i: nat :: k < |calls| && i < |calls[k]| && PromptAt(calls, k, i)
  }

  lemma {:induction false} SomePrompt(msgs: seq<Style>) returns (i: nat)
    requires Prompts(msgs) > 0
    ensures i < |msgs| && IsPrompt(msgs[i])
  {
    i := |msgs| - 1;
    if !IsPrompt(msgs[i]) {
      i := SomePrompt(msgs[..i]);
    }
  }

  lemma {:induction false} SomeConversation(calls: seq<seq<Style>>, k: nat) returns (m: nat, i: nat)
    requires k <= |calls| && TotalPrompts(calls, k) > 0
    ensures m < k && PromptAt(calls, m, i)
  {
    if Prompts(calls[k - 1]) > 0 {
      m := k - 1;
      i := SomePrompt(calls[m]);
    } else {
      m, i := SomeConversation(calls, k - 1);
    }
  }

  /** The password goes to the first prompt of all conversations, whatever its style, and to no other message. */
  lemma HandedExactly(pw: seq<Byte>, calls: seq<seq<Style>>, k: nat, i: nat)
    requires k < |calls| && i < |calls[k]|
    ensures var first :=
              PromptAt(calls, k, i) && forall m: nat, j: nat :: Earlier(m, j, k, i) ==> !PromptAt(calls, m, j);
            Answer(HeldAfter(pw, calls, k), calls[k], i) == if first then Some(pw) else None
  {
    HeldIff(pw, calls, k);
    forall m: nat, j: nat | Earlier(m, j, k, i) && PromptAt(calls, m, j)
      ensures TotalPrompts(calls, k) + Prompts(calls[k][..i]) > 0
    {
      EarlierPrompt(calls, m, j, k, i);
    }
    if TotalPrompts(calls, k) > 0 {
      var m, j := SomeConversation(calls, k);
      assert Earlier(m, j, k, i);
    } else if Prompts(calls[k][..i]) > 0 {
      var j := SomePrompt(calls[k][..i]);
      assert Earlier(k, j, k, i) && PromptAt(calls, k, j);
    }
  }

  // ------------------------------------------------- the request loop

  /**
   What is outside dewlock: the conversations PAM starts on the n-th attempt, and what `pam_authenticate`
   returns given the password it obtained from them, if any.
   */
  datatype Stack = Stack(calls: nat -> seq<seq<Style>>, judge: (nat, Option<seq<Byte>>) -> Status)

  function Obtained(pw: seq<Byte>, calls: seq<seq<Style>>): Option<seq<Byte>> {
    if TotalPrompts(calls, |calls|) == 0 then None else Some(pw)
  }

  /** The verdict of the n-th attempt on password `pw` and on nothing else. */
  function Verdict(stack: Stack, n: nat, pw: seq<Byte>): bool {
    stack.judge(n, Obtained(pw, stack.calls(n))) == PamSuccess
  }

  /** In PAM's terms: what `pam_authenticate` returns for the password, if it asks for it, is success. */
  lemma VerdictExactly(stack: Stack, n: nat, pw: seq<Byte>)
    ensures Verdict(stack, n, pw) <==>
            stack.judge(n, if Asked(stack.calls(n)) then Some(pw) else None) == PamSuccess
  {
    var calls := stack.calls(n);
    if TotalPrompts(calls, |calls|) > 0 {
      var m, i := SomeConversation(calls, |calls|);
    } else if k: nat, i: nat :| k < |calls| && i < |calls[k]| && PromptAt(calls, k, i) {
      PromptsMonotone(calls[k], i);
      TotalMonotone(calls, k + 1, |calls|);
    }
  }

  /** Replies owed for a request stream: one verdict per request, none after a success. */
  function Serve(stack: Stack, n: nat, stream: seq<Byte>): (verdicts: seq<bool>)
    decreases |stream|
  {
    match Parse(stream)
    case NoMore => []
    case Malformed => []
    case Request(pw, rest) =>
      var v := Verdict(stack, n, CString(pw));
      if v then [true] else [false] + Serve(stack, n + 1, rest)
  }

  /** `pam_authenticate` with `handle_conversation` as its conversation function. */
  method Authenticate(stack: Stack, n: nat, state: ConvState) returns (success: bool)
    requires state.password.Some?
    modifies state
    ensures success == Verdict(stack, n, old(state.password).value)
  {
    ghost var pw := state.password.value;
    var calls := stack.calls(n);
    var got: Option<seq<Byte>> := None;
    var k := 0;
    while k < |calls|
      invariant 0 <= k <= |calls|
      invariant state.password == HeldAfter(pw, calls, k)
      invariant got == if TotalPrompts(calls, k) == 0 then None else Some(pw)
    {
      HeldIff(pw, calls, k);
      var status, replies := HandleConversation(calls[k], state);
      got := Collect(calls[k], HeldAfter(pw, calls, k), replies, got);
      k := k + 1;
    }
    success := stack.judge(n, got) == PamSuccess;
  }

  /** PAM keeps the response it was given. */
  method Collect(msgs: seq<Style>, ghost held: Option<seq<Byte>>, replies: array<Option<seq<Byte>>>,
          before: Option<seq<Byte>>)
    returns (got: Option<seq<Byte>>)
    requires replies.Length == |msgs|
    requires forall i :: 0 <= i < |msgs| ==> replies[i] == Answer(held, msgs, i)
    ensures got == if held.Some? && Prompts(msgs) > 0 then held else before
  {
    got := before;
    var i := 0;
    while i < |msgs|
      invariant 0 <= i <= |msgs|
      invariant got == if held.Some? && Prompts(msgs[..i]) > 0 then held else before
    {
      assert msgs[..i + 1][..i] == msgs[..i];
      if replies[i].Some? {
        got := replies[i];
      }
      i := i + 1;
    }
    assert msgs[..i] == msgs;
  }

  datatype Round = Answered(verdict: bool) | Closed | GaveUp

  /** One turn of the loop: read a request, authenticate, wipe the password, reply. */
  method Turn(requests: ReadEnd, replies: WriteEnd, pw: SBuf, state: ConvState, stack: Stack, n: nat) returns (r: Round)
    requires pw.Forgotten()
    modifies requests, replies, pw, state
    ensures r.Answered? ==> pw.Forgotten() && old(pw.past) < pw.past
    ensures r.Answered? ==> Parse(old(requests.stream)).Request? && requests.stream == Parse(old(requests.stream)).rest
    ensures r.Answered? ==> r.verdict == Verdict(stack, n, CString(Parse(old(requests.stream)).pw))
    ensures replies.sent == old(replies.sent) + if r.Answered? then [Reply(r.verdict)] else []
    ensures r.Closed? ==> old(requests.stream) == []
    ensures r.Answered? ==> state.password == None && pw.buf.Length == 0
    ensures Benign(old(requests.plan)) ==> Benign(requests.plan)
    ensures Benign(old(replies.plan)) ==> Benign(replies.plan)
    ensures Benign(old(requests.plan)) && Benign(old(replies.plan)) ==>
            (r.Answered? <==> Parse(old(requests.stream)).Request?)
  {
    var res := ReadRequest(requests, pw);
    if res == ErrEof {
      return Closed;
    } else if res != Ok {
      return GaveUp;
    }
    CStringInside(pw.buf[..], pw.len);
    assert pw.buf[..][..pw.len] == pw.Contents();
    state.password := Some(CString(pw.buf[..]));
    var success := Authenticate(stack, n, state);
    pw.Destroy();
    state.password := None;
    res := WriteReply(replies, success);
    r := if res == Ok then Answered(success) else GaveUp;
  }

  /** `auth_run` */
  method Run(requests: ReadEnd, replies: WriteEnd, stack: Stack)
    modifies requests, replies
    ensures exists k :: 0 <= k <= |Serve(stack, 0, old(requests.stream))|
                        && replies.sent == old(replies.sent) + Replies(Serve(stack, 0, old(requests.stream))[..k])
    ensures Benign(old(requests.plan)) && Benign(old(replies.plan)) ==>
              replies.sent == old(replies.sent) + Replies(Serve(stack, 0, old(requests.stream)))
  {
    var pw := new SBuf.Unallocated();
    var state := new ConvState();
    var n := 0;
    ghost var owed, start := Serve(stack, 0, requests.stream), replies.sent;
    ghost var rest := owed;
    while true
      invariant fresh(pw) && fresh(state) && pw.Forgotten()
      invariant rest == Serve(stack, n, requests.stream) && Underway(owed, n, rest, start, replies.sent)
      invariant Benign(old(requests.plan)) ==> Benign(requests.plan)
      invariant Benign(old(replies.plan)) ==> Benign(replies.plan)
      decreases |requests.stream|
    {
      ghost var sent := replies.sent;
      var r := Turn(requests, replies, pw, state, stack, n);
      if !r.Answered? {
        UnderwayEnds(owed, n, rest, start, replies.sent);
        return;
      }
      UnderwayNext(owed, n, rest, start, sent);
      rest := rest[1..];
      n := n + 1;
      if r.verdict {
        UnderwayEnds(owed, n, rest, start, replies.sent);
        return;
      }
    }
  }

  /** After `n` replies of those owed, `rest` is still owed. */
  predicate Underway(owed: seq<bool>, n: nat, rest: seq<bool>, start: seq<Byte>, sent: seq<Byte>) {
    n <= |owed| && rest == owed[n..] && sent == start + Replies(owed[..n])
  }

  lemma UnderwayNext(owed: seq<bool>, n: nat, rest: seq<bool>, start: seq<Byte>, sent: seq<Byte>)
    requires Underway(owed, n, rest, start, sent) && rest != []
    ensures Underway(owed, n + 1, rest[1..], start, sent + [Reply(rest[0])])
  {
    assert Replies(owed[..n + 1]) == Replies(owed[..n]) + [Reply(owed[n])];
  }

  lemma UnderwayEnds(owed: seq<bool>, n: nat, rest: seq<bool>, start: seq<Byte>, sent: seq<Byte>)
    requires Underway(owed, n, rest, start, sent)
    ensures exists k :: 0 <= k <= |owed| && sent == start + Replies(owed[..k])
    ensures rest == [] ==> sent == start + Replies(owed)
  {
    assert rest == [] ==> owed[..n] == owed;
  }

  /** The verdicts owed for a list of passwords, with no bytes in sight. */
  function Owed(stack: Stack, n: nat, pws: seq<seq<Byte>>): (verdicts: seq<bool>)
    decreases pws
  {
    if pws == [] then []
    else if Verdict(stack, n, CString(pws[0])) then [true]
    else [false] + Owed(stack, n + 1, pws[1..])
  }

  /** Serving the bytes of a list of requests is serving the list. */
  lemma {:induction false} ServeFrames(stack: Stack, n: nat, pws: seq<seq<Byte>>)
    requires forall p :: p in pws ==> Sendable(p)
    ensures Serve(stack, n, Frames(pws)) == Owed(stack, n, pws)
    decreases pws
  {
    if pws != [] {
      ParseFrame(pws[0], Frames(pws[1..]));
      ServeFrames(stack, n + 1, pws[1..]);
    }
  }

  lemma {:induction false} OwedCompares(stack: Stack, n: nat, pws: seq<seq<Byte>>)
    ensures var verdicts := Owed(stack, n, pws);
            && |verdicts| <= |pws|
            && (forall k :: 0 <= k < |verdicts| ==> verdicts[k] == Verdict(stack, n + k, CString(pws[k])))
            && (forall k :: 0 <= k < |verdicts| - 1 ==> !verdicts[k])
            && (|verdicts| < |pws| ==> |verdicts| > 0 && verdicts[|verdicts| - 1])
    decreases pws
  {
    if pws != [] && !Verdict(stack, n, CString(pws[0])) {
      OwedCompares(stack, n + 1, pws[1..]);
      var verdicts, more := Owed(stack, n, pws), Owed(stack, n + 1, pws[1..]);
      forall k | 0 < k < |verdicts| ensures verdicts[k] == Verdict(stack, n + k, CString(pws[k])) {
        assert more[k - 1] == Verdict(stack, n + 1 + (k - 1), CString(pws[1..][k - 1]));
      }
    }
  }

  /** Every request is answered in order by the verdict on that very password, until the first success. */
  lemma OwedAnswers(stack: Stack, n: nat, pws: seq<seq<Byte>>)
    ensures var verdicts := Owed(stack, n, pws);
            && |verdicts| <= |pws|
            && (forall k :: 0 <= k < |verdicts| ==> verdicts[k] == Verdict(stack, n + k, CString(pws[k])))
            && (forall k :: 0 <= k < |verdicts| && 0 !in pws[k] ==>
                  (verdicts[k] <==>
                   stack.judge(n + k, if Asked(stack.calls(n + k)) then Some(pws[k]) else None) == PamSuccess))
            && (forall k :: 0 <= k < |verdicts| - 1 ==> !verdicts[k])
            && (|verdicts| < |pws| ==> |verdicts| > 0 && verdicts[|verdicts| - 1])
  {
    OwedCompares(stack, n, pws);
    forall k | 0 <= k < |pws| && 0 !in pws[k]
      ensures CString(pws[k]) == pws[k]
      ensures Verdict(stack, n + k, pws[k]) <==>
              stack.judge(n + k, if Asked(stack.calls(n + k)) then Some(pws[k]) else None) == PamSuccess
    {
      CStringWhole(pws[k]);
      VerdictExactly(stack, n + k, pws[k]);
    }
  }
}

/** The shadow child (src/auth-shadow.c:65-95): compares hashes, and keeps serving after a success. */
module ShadowBackend {
  import opened Options
  import opened Utf8
  import opened SafeBuffer
  import opened Pipes
  import opened Framing
  import opened Auth
  import PB = PamBackend

  /** `crypt(password, setting)`; None for NULL. */
  type Crypt = (seq<Byte>, seq<Byte>) -> Option<seq<Byte>>

  /** The verdict on a password, or None where the hash format is not supported. */
  function Compare(crypt: Crypt, hash: seq<Byte>, pw: seq<Byte>): Option<bool> {
    match crypt(pw, hash)
    case None => None
    case Some(c) =>
      if (c != [] && c[0] == '*' as Byte) || |c| != |hash| then None else Some(c == hash)
  }

  /** What `crypt` returned can be compared with the hash: a string of the same length that reports no failure. */
  predicate Comparable(c: Option<seq<Byte>>, hash: seq<Byte>) {
    c != None && |c.value| == |hash| && !(['*' as Byte] <= c.value)
  }

  /** In `crypt`'s terms: there is a verdict exactly if its result can be compared, and success if it is the hash. */
  lemma CompareExactly(crypt: Crypt, hash: seq<Byte>, pw: seq<Byte>)
    ensures Compare(crypt, hash, pw) != None <==> Comparable(crypt(pw, hash), hash)
    ensures Compare(crypt, hash, pw) == Some(true) <==>
            crypt(pw, hash) == Some(hash) && !(['*' as Byte] <= hash)
    ensures Compare(crypt, hash, pw) != None ==>
            (Compare(crypt, hash, pw).value <==> crypt(pw, hash) == Some(hash))
  {}

  function Serve(crypt: Crypt, hash: seq<Byte>, stream: seq<Byte>): (verdicts: seq<bool>)
    decreases |stream|
  {
    match Parse(stream)
    case NoMore => []
    case Malformed => []
    case Request(pw, rest) =>
      match Compare(crypt, hash, PB.CString(pw))
      case None => []
      case Some(v) => [v] + Serve(crypt, hash, rest)
  }

  /** One turn of the loop. */
  method Turn(requests: ReadEnd, replies: WriteEnd, hash: seq<Byte>, crypt: Crypt)
    returns (r: PB.Round, ghost used: SBuf)
    modifies requests, replies
    ensures r.Answered? ==> used.Forgotten() && used.past != {}
    ensures r.Answered? ==> Parse(old(requests.stream)).Request? && requests.stream == Parse(old(requests.stream)).rest
    ensures r.Answered? ==> Some(r.verdict) == Compare(crypt, hash, PB.CString(Parse(old(requests.stream)).pw))
    ensures r.Answered? ==>
              var c := crypt(PB.CString(Parse(old(requests.stream)).pw), hash);
              Comparable(c, hash) && (r.verdict <==> c == Some(hash))
    ensures replies.sent == old(replies.sent) + if r.Answered? then [Reply(r.verdict)] else []
    ensures r.Closed? ==> old(requests.stream) == []
    ensures Benign(old(requests.plan)) ==> Benign(requests.plan)
    ensures Benign(old(replies.plan)) ==> Benign(replies.plan)
    ensures Benign(old(requests.plan)) && Benign(old(replies.plan)) ==>
              (r.Answered? <==> Parse(old(requests.stream)).Request?
                                && Compare(crypt, hash, PB.CString(Parse(old(requests.stream)).pw)).Some?)
  {
    var pw := new SBuf.Unallocated();
    used := pw;
    var res := ReadRequest(requests, pw);
    if res == ErrEof {
      return PB.Closed, pw;
    } else if res != Ok {
      return PB.GaveUp, pw;
    }
    PB.CStringInside(pw.buf[..], pw.len);
    assert pw.buf[..][..pw.len] == pw.Contents();
    var c := crypt(PB.CString(pw.buf[..]), hash);
    pw.Destroy();
    if c == None || (c.value != [] && c.value[0] == '*' as Byte) || |c.value| != |hash| {
      return PB.GaveUp, pw;
    }
    var success := c.value == hash;
    res := WriteReply(replies, success);
    r := if res == Ok then PB.Answered(success) else PB.GaveUp;
  }

  /** `auth_run` */
  method Run(requests: ReadEnd, replies: WriteEnd, hash: seq<Byte>, crypt: Crypt)
    modifies requests, replies
    ensures exists k :: 0 <= k <= |Serve(crypt, hash, old(requests.stream))|
                        && replies.sent == old(replies.sent) + Replies(Serve(crypt, hash, old(requests.stream))[..k])
    ensures Benign(old(requests.plan)) && Benign(old(replies.plan)) ==>
              replies.sent == old(replies.sent) + Replies(Serve(crypt, hash, old(requests.stream)))
  {
    ghost var owed, start := Serve(crypt, hash, requests.stream), replies.sent;
    ghost var n: nat, rest := 0, owed;
    while true
      invariant rest == Serve(crypt, hash, requests.stream) && PB.Underway(owed, n, rest, start, replies.sent)
      invariant Benign(old(requests.plan)) ==> Benign(requests.plan)
      invariant Benign(old(replies.plan)) ==> Benign(replies.plan)
      decreases |requests.stream|
    {
      ghost var sent := replies.sent;
      var r;
      ghost var used;
      r, used := Turn(requests, replies, hash, crypt);
      if !r.Answered? {
        PB.UnderwayEnds(owed, n, rest, start, replies.sent);
        return;
      }
      PB.UnderwayNext(owed, n, rest, start, sent);
      rest := rest[1..];
      n := n + 1;
    }
  }

  lemma {:induction false} ServeCompares(crypt: Crypt, hash: seq<Byte>, pws: seq<seq<Byte>>)
    requires forall p :: p in pws ==> Sendable(p)
    ensures var verdicts := Serve(crypt, hash, Frames(pws));
            && |verdicts| <= |pws|
            && (forall k :: 0 <= k < |verdicts| ==> Some(verdicts[k]) == Compare(crypt, hash, PB.CString(pws[k])))
            && (|verdicts| < |pws| ==> Compare(crypt, hash, PB.CString(pws[|verdicts|])) == None)
  {
    if pws != [] {
      ParseFrame(pws[0], Frames(pws[1..]));
      ServeCompares(crypt, hash, pws[1..]);
      var verdicts, more := Serve(crypt, hash, Frames(pws)), Serve(crypt, hash, Frames(pws[1..]));
      forall k | 0 < k < |verdicts| ensures Some(verdicts[k]) == Compare(crypt, hash, PB.CString(pws[k])) {
        assert Some(more[k - 1]) == Compare(crypt, hash, PB.CString(pws[1..][k - 1]));
      }
    }
  }

  /**
   Replies come in request order: success exactly if `crypt` makes the hash of that very password. They stop exactly
   at the first password for which `crypt` returns nothing that can be compared.
   */
  lemma ServeAnswers(crypt: Crypt, hash: seq<Byte>, pws: seq<seq<Byte>>)
    requires forall p :: p in pws ==> Sendable(p)
    ensures var verdicts := Serve(crypt, hash, Frames(pws));
            && |verdicts| <= |pws|
            && (forall k :: 0 <= k < |verdicts| ==> Some(verdicts[k]) == Compare(crypt, hash, PB.CString(pws[k])))
            && (forall k :: 0 <= k < |verdicts| && 0 !in pws[k] ==>
                  Comparable(crypt(pws[k], hash), hash) && (verdicts[k] <==> crypt(pws[k], hash) == Some(hash)))
            && (|verdicts| < |pws| ==>
                  Compare(crypt, hash, PB.CString(pws[|verdicts|])) == None
                  && (0 !in pws[|verdicts|] ==> !Comparable(crypt(pws[|verdicts|], hash), hash)))
  {
    ServeCompares(crypt, hash, pws);
    forall k | 0 <= k < |pws| && 0 !in pws[k]
      ensures PB.CString(pws[k]) == pws[k]
    {
      PB.CStringWhole(pws[k]);
      CompareExactly(crypt, hash, pws[k]);
    }
  }
}

/**
 The path rewriting of `load_image` and `join_args` (src/config.c:62-79, src/config.c:118-131):
 a path is escaped, split into words as the shell does, and joined again.
 */
module Config {
  import opened Options
  import opened Sequences

  const NUL: char := '\0'

  /** A C string in an array. */
  predicate IsString(a: array<char>, s: string)
    reads a
  {
    |s| < a.Length && a[..|s|] == s && a[|s|] == NUL && NUL !in s
  }

  /** Two adjacent spaces at `i`. */
  predicate DoubleAt(s: string, i: int) {
    0 <= i < |s| - 1 && s[i] == ' ' && s[i + 1] == ' '
  }

  /** A backslash between every two adjacent spaces. */
  function Escape(s: string): string {
    if |s| < 2 then s
    else if DoubleAt(s, 0) then [' ', '\\'] + Escape(s[1..])
    else [s[0]] + Escape(s[1..])
  }

  /** How many adjacent pairs of spaces there are. */
  function Pairs(s: string): nat {
    if |s| < 2 then 0 else (if DoubleAt(s, 0) then 1 else 0) + Pairs(s[1..])
  }

  /** One turn of the loop: a backslash goes between the two spaces at `i`. */
  function Split(s: string, i: nat): string
    requires DoubleAt(s, i)
  {
    s[..i + 1] + ['\\'] + s[i + 1..]
  }

  /** Splitting the first pair changes neither the escaped form nor any other pair. */
  lemma {:induction false} SplitFirst(s: string, i: nat)
    requires DoubleAt(s, i) && forall j :: 0 <= j < i ==> !DoubleAt(s, j)
    ensures Escape(Split(s, i)) == Escape(s) && Pairs(Split(s, i)) == Pairs(s) - 1
  {
    var t := Split(s, i);
    if i == 0 {
      assert t == [' ', '\\'] + s[1..];
      assert t[1..] == ['\\'] + s[1..] && t[1..][1..] == s[1..];
      assert !DoubleAt(t, 0) && !DoubleAt(t[1..], 0);
      assert Escape(t) == [' '] + Escape(t[1..]);
      assert Escape(t[1..]) == ['\\'] + Escape(s[1..]);
    } else {
      assert DoubleAt(s[1..], i - 1);
      assert forall j :: 0 <= j < i - 1 && DoubleAt(s[1..], j) ==> DoubleAt(s, j + 1);
      SplitFirst(s[1..], i - 1);
      assert t[1..] == Split(s[1..], i - 1);
      assert !DoubleAt(s, 0) && (DoubleAt(t, 0) <==> DoubleAt(s, 0));
    }
  }

  /** Without such pairs there is nothing to escape. */
  lemma {:induction false} EscapeNothing(s: string)
    requires forall j :: !DoubleAt(s, j)
    ensures Escape(s) == s && Pairs(s) == 0
  {
    if |s| >= 2 {
      assert forall j :: DoubleAt(s[1..], j) ==> DoubleAt(s, j + 1);
      EscapeNothing(s[1..]);
      assert !DoubleAt(s, 0);
    }
  }

  /** Which characters of the escaped form were put in. */
  function Inserted(s: string): (mask: seq<bool>)
    ensures |mask| == |Escape(s)|
  {
    if |s| < 2 then seq(|s|, _ => false)
    else if DoubleAt(s, 0) then [false, true] + Inserted(s[1..])
    else [false] + Inserted(s[1..])
  }

  function Without(t: string, mask: seq<bool>): string
    requires |t| == |mask|
  {
    if t == "" then "" else (if mask[0] then [] else [t[0]]) + Without(t[1..], mask[1..])
  }

  /** The escaped form has no two adjacent spaces. */
  lemma {:induction false} EscapeSeparates(s: string, j: int)
    ensures !DoubleAt(Escape(s), j)
    ensures s != "" ==> Escape(s) != "" && Escape(s)[0] == s[0]
  {
    if |s| >= 2 {
      var t, rest := Escape(s), Escape(s[1..]);
      EscapeSeparates(s[1..], if DoubleAt(s, 0) then j - 2 else j - 1);
      if DoubleAt(s, 0) {
        assert t == [' ', '\\'] + rest;
        assert j >= 2 && DoubleAt(t, j) ==> DoubleAt(rest, j - 2);
      } else {
        assert t == [s[0]] + rest;
        assert j >= 1 && DoubleAt(t, j) ==> DoubleAt(rest, j - 1);
      }
    }
  }

  /** The characters put in are backslashes. */
  lemma {:induction false} InsertedAreBackslashes(s: string, j: nat)
    requires j < |Escape(s)| && Inserted(s)[j]
    ensures Escape(s)[j] == '\\'
  {
    if |s| >= 2 {
      if DoubleAt(s, 0) {
        if j >= 2 {
          InsertedAreBackslashes(s[1..], j - 2);
        }
      } else if j >= 1 {
        InsertedAreBackslashes(s[1..], j - 1);
      }
    }
  }

  lemma WithoutFirst(t: string, mask: seq<bool>, c: char, rest: string, flag: bool, more: seq<bool>)
    requires |rest| == |more| && t == [c] + rest && mask == [flag] + more
    ensures |t| == |mask| && Without(t, mask) == (if flag then [] else [c]) + Without(rest, more)
  {
    assert t[1..] == rest && mask[1..] == more;
  }

  lemma Apart<T>(x: T, y: T, rest: seq<T>)
    ensures [x, y] + rest == [x] + ([y] + rest)
  {}

  /** Without the characters put in, the escaped form is the original. */
  lemma {:induction false} EscapeKeeps(s: string)
    ensures Without(Escape(s), Inserted(s)) == s
  {
    if s == "" {
    } else if |s| == 1 {
      WithoutFirst(s, Inserted(s), s[0], "", false, []);
    } else {
      var rest, mask := Escape(s[1..]), Inserted(s[1..]);
      EscapeKeeps(s[1..]);
      if DoubleAt(s, 0) {
        Apart(' ', '\\', rest);
        Apart(false, true, mask);
        WithoutFirst(['\\'] + rest, [true] + mask, '\\', rest, true, mask);
        WithoutFirst(Escape(s), Inserted(s), ' ', ['\\'] + rest, false, [true] + mask);
      } else {
        WithoutFirst(Escape(s), Inserted(s), s[0], rest, false, mask);
      }
    }
  }

  /** `strlen` */
  method Strlen(a: array<char>, ghost s: string) returns (n: nat)
    requires IsString(a, s)
    ensures n == |s|
  {
    n := 0;
    while a[n] != NUL
      invariant n <= |s|
      decreases |s| - n
    {
      assert a[n] == s[n];
      n := n + 1;
    }
  }

  /** `strstr` for two spaces; -1 for NULL. */
  method Strstr(a: array<char>, ghost s: string) returns (i: int)
    requires IsString(a, s)
    ensures i == -1 || DoubleAt(s, i)
    ensures forall j :: 0 <= j && (i == -1 || j < i) ==> !DoubleAt(s, j)
  {
    i := 0;
    while a[i] != NUL && !(a[i] == ' ' && a[i + 1] == ' ')
      invariant 0 <= i <= |s|
      invariant forall j :: 0 <= j < i ==> !DoubleAt(s, j)
      decreases |s| - i
    {
      assert a[i] == s[i];
      assert i + 1 < |s| ==> a[i + 1] == s[i + 1];
      i := i + 1;
    }
    assert i < |s| ==> a[i] == s[i];
    assert i + 1 < |s| ==> a[i + 1] == s[i + 1];
    if a[i] == NUL {
      i := -1;
    }
  }

  /** `realloc` to a size that is large enough for the string. */
  method Realloc(a: array<char>, size: nat, ghost s: string) returns (r: array<char>)
    requires IsString(a, s) && |s| < size
    ensures fresh(r) && r.Length == size && IsString(r, s)
  {
    var bytes := a[..];
    r := new char[size](k requires 0 <= k < size => if k < |bytes| then bytes[k] else NUL);
    assert r[..|s|] == bytes[..|s|] == s;
  }

  /** `memmove` of what is behind `at`, terminator included, by one place, and a backslash in the gap. */
  method Insert(a: array<char>, at: nat, ghost s: string)
    requires IsString(a, s) && 0 < at <= |s| && |s| + 2 <= a.Length
    modifies a
    ensures IsString(a, s[..at] + ['\\'] + s[at..])
  {
    var n := Strlen(a, s);
    ghost var was := a[..];
    var k := n + 1;
    while k > at
      invariant at <= k <= n + 1
      invariant forall j :: k < j <= n + 1 ==> a[j] == was[j - 1]
      invariant forall j :: 0 <= j <= k ==> j <= n ==> a[j] == was[j]
    {
      a[k] := a[k - 1];
      k := k - 1;
    }
    a[at] := '\\';
    assert was[..n] == s;
    var t := s[..at] + ['\\'] + s[at..];
    forall j | 0 <= j < |t|
      ensures a[j] == t[j]
    {
      assert j < at ==> t[j] == was[j];
      assert j > at ==> t[j] == was[j - 1];
    }
    assert a[..|t|] == t;
  }

  /** The escaping loop: each turn removes one pair of adjacent spaces, and the reallocated buffer always has room. */
  method EscapeSpaces(path: array<char>, ghost s: string) returns (r: array<char>)
    requires IsString(path, s)
    ensures IsString(r, Escape(s))
    ensures path[..] == old(path[..])
  {
    r := path;
    ghost var cur := s;
    var i := Strstr(r, cur);
    while i != -1
      invariant IsString(r, cur) && Escape(cur) == Escape(s) && (r == path || fresh(r))
      invariant path[..] == old(path[..])
      invariant i == -1 || DoubleAt(cur, i)
      invariant forall j :: 0 <= j && (i == -1 || j < i) ==> !DoubleAt(cur, j)
      decreases Pairs(cur)
    {
      var n := Strlen(r, cur);
      r := Realloc(r, n + 2, cur);
      var ptr := Strstr(r, cur);
      SplitFirst(cur, ptr);
      Insert(r, ptr + 1, cur);
      cur := Split(cur, ptr);
      i := Strstr(r, cur);
    }
    EscapeNothing(cur);
  }

  // ---------------------------------------------------------------- words

  /** Words with one space between each two. */
  function Joined(words: seq<string>): string
    requires words != []
  {
    if |words| == 1 then words[0] else words[0] + [' '] + Joined(words[1..])
  }

  /** The sum `join_args` allocates: every word and one character more. */
  function Room(words: seq<string>): nat {
    if words == [] then 0 else Room(words[..|words| - 1]) + |words[|words| - 1]| + 1
  }

  /** What the second loop has written: every word so far with a space behind it. */
  function Spaced(words: seq<string>): (r: string)
    ensures |r| == Room(words)
  {
    if words == [] then "" else Spaced(words[..|words| - 1]) + words[|words| - 1] + [' ']
  }

  lemma {:induction false} SpacedFront(words: seq<string>)
    requires words != []
    ensures Spaced(words) == words[0] + [' '] + Spaced(words[1..])
  {
    if |words| > 1 {
      var front := words[..|words| - 1];
      SpacedFront(front);
      assert words[1..][..|words| - 2] == front[1..];
    } else {
      assert words[..0] == [] && words[1..] == [];
    }
  }

  /** Dropping the last space leaves the joined words. */
  lemma {:induction false} SpacedIsJoined(words: seq<string>)
    requires words != []
    ensures Spaced(words) == Joined(words) + [' ']
  {
    SpacedFront(words);
    if |words| > 1 {
      SpacedIsJoined(words[1..]);
    } else {
      assert words[1..] == [];
    }
  }

  lemma {:induction false} RoomGrows(words: seq<string>, i: nat)
    requires i <= |words|
    ensures Room(words[..i]) <= Room(words)
    decreases |words| - i
  {
    if i == |words| {
      assert words[..i] == words;
    } else {
      RoomGrows(words, i + 1);
      assert words[..i + 1][..i] == words[..i];
    }
  }

  /** `strcpy` */
  method Strcpy(res: array<char>, at: nat, word: string)
    requires at + |word| < res.Length
    modifies res
    ensures res[..at] == old(res[..at]) && res[at..at + |word|] == word
  {
    var k := 0;
    while k < |word|
      invariant 0 <= k <= |word|
      invariant res[..at] == old(res[..at]) && res[at..at + k] == word[..k]
    {
      res[at + k] := word[k];
      k := k + 1;
    }
    res[at + |word|] := NUL;
  }

  /** The first loop of `join_args`. */
  method Measure(words: seq<string>) returns (len: nat)
    ensures len == Room(words)
  {
    len := 0;
    var i := 0;
    while i < |words|
      invariant 0 <= i <= |words| && len == Room(words[..i])
    {
      len := len + |words[i]| + 1;
      assert words[..i + 1][..i] == words[..i];
      i := i + 1;
    }
    assert words[..i] == words;
  }

  /** The second loop: every word with a space behind it. */
  method Fill(res: array<char>, words: seq<string>)
    requires res.Length == Room(words)
    modifies res
    ensures res[..] == Spaced(words)
  {
    var len, i := 0, 0;
    while i < |words|
      invariant 0 <= i <= |words| && len == Room(words[..i]) <= res.Length
      invariant res[..len] == Spaced(words[..i])
    {
      RoomGrows(words, i + 1);
      assert words[..i + 1][..i] == words[..i];
      Strcpy(res, len, words[i]);
      len := len + |words[i]|;
      res[len] := ' ';
      len := len + 1;
      assert res[..len] == Spaced(words[..i]) + words[i] + [' '];
      i := i + 1;
    }
    assert words[..i] == words;
  }

  /** `join_args`: fills exactly what it allocated. */
  method JoinArgs(words: seq<string>) returns (res: array<char>)
    requires words != []
    ensures fresh(res) && res.Length == Room(words) && res[..] == Joined(words) + [NUL]
  {
    var len := Measure(words);
    res := new char[len](_ => NUL);
    Fill(res, words);
    SpacedIsJoined(words);
    assert res[len - 1] == Spaced(words)[len - 1];
    res[len - 1] := NUL;
  }

  // ---------------------------------------------------------------- what the escaping is for

  /**
   Characters that mean something to the shell, or that `wordexp` refuses; a plain path has none of them but
   spaces.
   */
  const SPECIAL: string := "\\\t\n\"\'`$|&;<>(){}*?[~#"

  predicate Plain(s: string) {
    forall i :: 0 <= i < |s| ==> s[i] !in SPECIAL
  }

  lemma PlainUnescaped(s: string)
    requires Plain(s)
    ensures '\\' !in s
  {
    assert SPECIAL[0] == '\\';
  }

  /**
   The words `wordexp` makes of plain text in which backslashes were put: spaces separate, a backslash makes the
   next character an ordinary one. `cur` is the word being built.
   */
  function Words(t: string, cur: Option<string>): (words: seq<string>)
    ensures cur.Some? ==> words != []
    decreases |t|
  {
    var done := if cur.Some? then [cur.value] else [];
    var so := if cur.Some? then cur.value else "";
    if t == "" then done
    else if t[0] == ' ' then done + Words(t[1..], None)
    else if t[0] == '\\' && |t| > 1 then Words(t[2..], Some(so + [t[1]]))
    else Words(t[1..], Some(so + [t[0]]))
  }

  /**
   The path that reaches the image loader, by what `wordexp` makes of the escaped one: without words there is
   nothing `join_args` could return, and where `wordexp` fails the escaped path itself is used.
   */
  function Loaded(s: string, expansion: Option<seq<string>>): Option<string> {
    match expansion
    case None => Some(Escape(s))
    case Some(words) => if words == [] then None else Some(Joined(words))
  }

  /** What `wordexp` makes of a plain path that was escaped. */
  function Expanded(s: string): Option<seq<string>> {
    Some(Words(Escape(s), None))
  }

  /** A single space at the very end. */
  predicate LoneSpaceLast(s: string) {
    s != "" && s[|s| - 1] == ' ' && !(|s| > 1 && s[|s| - 2] == ' ')
  }

  /** What becomes of text behind a word already begun: only a lone last space is lost. */
  function Kept(s: string): string {
    if LoneSpaceLast(s) then s[..|s| - 1] else s
  }

  lemma JoinedBehind(word: string, words: seq<string>)
    requires words != []
    ensures Joined([word] + words) == word + [' '] + Joined(words)
  {
    assert ([word] + words)[1..] == words;
  }

  /** A word begins with its first ordinary or escaped character, whether or not something is in front of it. */
  lemma WordBegins(t: string)
    requires t != "" && t[0] != ' '
    ensures Words(t, None) == Words(t, Some(""))
  {}

  /** Escaping text that does not begin with two spaces leaves its first character in front. */
  lemma EscapedFirst(s: string)
    requires s != "" && !DoubleAt(s, 0)
    ensures Escape(s) == [s[0]] + Escape(s[1..]) && Escape(s)[1..] == Escape(s[1..])
  {
    if |s| == 1 {
      assert s == [s[0]] && s[1..] == "";
    }
  }

  lemma EscapedDouble(s: string)
    requires DoubleAt(s, 0)
    ensures Escape(s)[0] == ' ' && Escape(s)[1..] == ['\\'] + Escape(s[1..])
  {}

  lemma KeptFirst(s: string)
    requires |s| > 1 && !(|s| == 2 && s == "  ")
    ensures Kept(s) == [s[0]] + Kept(s[1..])
  {}

  /** A word goes on with the characters of the path. */
  lemma {:induction false} WordGoesOn(c: string, s: string)
    requires '\\' !in s
    ensures Joined(Words(Escape(s), Some(c))) == c + Kept(s)
    decreases |s|, 2
  {
    if s == "" {
    } else if s[0] == ' ' {
      SpaceEndsWord(c, s);
    } else {
      EscapedFirst(s);
      WordGoesOn(c + [s[0]], s[1..]);
      assert c + Kept(s) == c + [s[0]] + Kept(s[1..]);
    }
  }

  /** A space ends the word; if another follows, that one begins the next word. */
  lemma {:induction false} SpaceEndsWord(c: string, s: string)
    requires '\\' !in s && s != "" && s[0] == ' '
    ensures Joined(Words(Escape(s), Some(c))) == c + Kept(s)
    decreases |s|, 1
  {
    var e := Escape(s);
    assert e != "" && e[0] == ' ' && Words(e, Some(c)) == [c] + Words(e[1..], None);
    if |s| == 1 {
      assert Kept(s) == "" && c + "" == c;
    } else {
      NextWord(s);
      WordsOfNext(s);
      JoinedBehind(c, Words(e[1..], None));
      Regroup(c, [' '], Kept(s)[1..]);
    }
  }

  /** What follows a space, when anything does, is a word of its own. */
  lemma {:induction false} NextWord(s: string)
    requires '\\' !in s && |s| > 1 && s[0] == ' '
    ensures Joined(Words(Escape(s)[1..], Some(""))) == Kept(s)[1..]
    ensures Kept(s) == [' '] + Kept(s)[1..]
    decreases |s|, 0
  {
    if s[1] == ' ' {
      EscapedDouble(s);
      SpaceGoesOn("", s[1..]);
      assert [' '] + s[1..] == s;
    } else {
      EscapedFirst(s);
      WordGoesOn("", s[1..]);
      KeptFirst(s);
    }
  }

  lemma WordsOfNext(s: string)
    requires '\\' !in s && |s| > 1 && s[0] == ' '
    ensures var t := Escape(s)[1..]; t != "" && Words(t, None) == Words(t, Some("")) && Words(t, None) != []
  {
    if s[1] == ' ' {
      EscapedDouble(s);
    } else {
      EscapedFirst(s);
      EscapedFirst(s[1..]);
    }
    WordBegins(Escape(s)[1..]);
  }

  lemma QuotedNext(e: string, c: string)
    requires e != ""
    ensures Words(['\\'] + e, Some(c)) == Words(e[1..], Some(c + [e[0]]))
  {
    var t := ['\\'] + e;
    assert t[1] == e[0] && t[2..] == e[1..];
  }

  /** A space behind another one has a backslash in front and belongs to the word. */
  lemma {:induction false} SpaceGoesOn(c: string, s: string)
    requires '\\' !in s && s != "" && s[0] == ' '
    ensures Joined(Words(['\\'] + Escape(s), Some(c))) == c + Kept([' '] + s)[1..]
    decreases |s|, 1
  {
    var e := Escape(s);
    assert e != "" && e[0] == ' ';
    QuotedNext(e, c);
    KeptBehindSpace(s);
    if |s| == 1 {
      assert s == " ";
    } else {
      BehindQuoted(c, s);
    }
  }

  lemma {:induction false} BehindQuoted(c: string, s: string)
    requires '\\' !in s && |s| > 1 && s[0] == ' '
    ensures Joined(Words(Escape(s)[1..], Some(c + [' ']))) == c + Kept(s)
    decreases |s|, 0
  {
    if s[1] == ' ' {
      EscapedDouble(s);
      SpaceGoesOn(c + [' '], s[1..]);
      assert [' '] + s[1..] == s;
      KeptBehindSpace(s);
      Regroup(c, [' '], Kept(s)[1..]);
    } else {
      EscapedFirst(s);
      WordGoesOn(c + [' '], s[1..]);
      KeptFirst(s);
      Regroup(c, [' '], Kept(s[1..]));
    }
  }

  /** Behind another space, a last space is not a lone one. */
  lemma KeptBehindSpace(s: string)
    requires s != "" && s[0] == ' '
    ensures Kept([' '] + s)[1..] == if |s| == 1 then s else Kept(s)
    ensures |s| > 1 ==> Kept(s) == [' '] + Kept(s)[1..]
  {
    assert ([' '] + s)[1..] == s;
    if |s| > 1 {
      assert LoneSpaceLast([' '] + s) <==> LoneSpaceLast(s);
    }
  }

  /**
   A plain path comes through escaping, splitting and joining unchanged exactly when it is not empty, no space
   begins it and no lone space ends it.
   */
  lemma PathSurvives(s: string)
    requires Plain(s)
    ensures Loaded(s, Expanded(s)) == Some(s) <==> s != "" && s[0] != ' ' && !LoneSpaceLast(s)
  {
    PlainUnescaped(s);
    if s == "" {
    } else if s[0] != ' ' {
      EscapedFirst(s);
      WordBegins(Escape(s));
      WordGoesOn("", s);
      assert Loaded(s, Expanded(s)) == Some("" + Kept(s)) && "" + Kept(s) == Kept(s);
    } else {
      LeadingSpaceLost(s);
    }
  }

  /** `join_args` demands a word: there is none exactly for an empty path and for a single space. */
  lemma WordsExist(s: string)
    requires Plain(s)
    ensures Loaded(s, Expanded(s)) == None <==> s == "" || s == " "
  {
    PlainUnescaped(s);
    var e := Escape(s);
    if s == "" || s == " " {
      assert s == " " ==> Words(e, None) == Words(e[1..], None);
    } else if s[0] != ' ' {
      EscapedFirst(s);
      WordBegins(e);
    } else {
      WordsOfNext(s);
    }
  }

  /** A space at the very beginning is lost. */
  lemma LeadingSpaceLost(s: string)
    requires '\\' !in s && s != "" && s[0] == ' '
    ensures Loaded(s, Expanded(s)) != Some(s)
  {
    var e := Escape(s);
    assert e != "" && e[0] == ' ' && Words(e, None) == Words(e[1..], None);
    if |s| > 1 {
      NextWord(s);
      WordsOfNext(s);
    }
  }

  /** Where `wordexp` fails, the path keeps the backslashes put in: it is the original exactly if there were none. */
  lemma FailedExpansion(s: string)
    ensures Loaded(s, None) == Some(s) <==> forall j :: !DoubleAt(s, j)
  {
    if forall j :: !DoubleAt(s, j) {
      EscapeNothing(s);
    } else {
      var j :| DoubleAt(s, j);
      EscapeSeparates(s, j);
    }
  }
}

/**
 UTF-8 encoding, sizes and the backward scan (src/unicode.c).

 Bytes and code points are numbers, and the masks and shifts of the source are written as the
 remainders and quotients they are: `x & 0x3f` is `x % 64`, `x >> 6` is `x / 64`, and `|` with
 bits that are clear is addition. `Encoding` is the layout of section 3 of RFC 3629.
 */
module Utf8 {

  type Byte = b: int | 0 <= b < 256

  /** `uint32_t` */
  type CodePoint = c: int | 0 <= c < 0x1_0000_0000

  /** From here on a four-byte lead needs more than its three payload bits. */
  const LEAD_LIMIT: int := 0x20_0000

  function ChSize(ch: CodePoint): (n: nat)
    ensures 1 <= n <= 4
  {
    if ch < 0x80 then 1 else if ch < 0x800 then 2 else if ch < 0x1_0000 then 3 else 4
  }

  /** `ch >> 6` */
  function Shift(ch: CodePoint): CodePoint {
    ch / 64
  }

  /** `(ch & 0x3f) | 0x80` */
  function Tail(ch: CodePoint): Byte {
    ch % 64 + 0x80
  }

  /** The length markers of a lead byte. */
  predicate IsMarker(m: int) {
    m == 0 || m == 0xC0 || m == 0xE0 || m == 0xF0
  }

  /** `(char)(ch | marker)`: the bits of `ch` below the marker's, under the marker. */
  function Lead(ch: CodePoint, marker: int): Byte
    requires IsMarker(marker)
  {
    if marker == 0 then ch % 256
    else if marker == 0xC0 then 0xC0 + ch % 64
    else if marker == 0xE0 then 0xE0 + ch % 32
    else 0xF0 + ch % 16
  }

  function Encoding(ch: CodePoint): (bytes: seq<Byte>)
    ensures |bytes| == ChSize(ch)
  {
    if ch < 0x80 then [Lead(ch, 0)]
    else if ch < 0x800 then [Lead(Shift(ch), 0xC0), Tail(ch)]
    else if ch < 0x1_0000 then [Lead(Shift(Shift(ch)), 0xE0), Tail(Shift(ch)), Tail(ch)]
    else [Lead(Shift(Shift(Shift(ch))), 0xF0), Tail(Shift(Shift(ch))), Tail(Shift(ch)), Tail(ch)]
  }

  /** `(b & 0xc0) == 0x80` */
  predicate IsContinuation(b: Byte) {
    0x80 <= b < 0xC0
  }

  /** What section 3 of RFC 3629 reads back from an encoding of one to four bytes. */
  function Decode(bytes: seq<Byte>): int
    requires 1 <= |bytes| <= 4
  {
    if |bytes| == 1 then bytes[0]
    else if |bytes| == 2 then Join(bytes[0] % 32, bytes[1])
    else if |bytes| == 3 then Join(Join(bytes[0] % 16, bytes[1]), bytes[2])
    else Join(Join(Join(bytes[0] % 8, bytes[1]), bytes[2]), bytes[3])
  }

  function Join(high: int, b: Byte): int {
    high * 64 + b % 64
  }

  /** Decoding gives the value back exactly below 2^21, hence for every Unicode code point. */
  lemma DecodeEncoding(ch: CodePoint)
    ensures Decode(Encoding(ch)) == ch <==> ch < LEAD_LIMIT
  {
    if ch < 0x800 {
      DecodeShort(ch);
    } else if ch < 0x1_0000 {
      DecodeThree(ch);
    } else {
      DecodeFour(ch);
    }
  }

  lemma DecodeShort(ch: CodePoint)
    requires ch < 0x800
    ensures Decode(Encoding(ch)) == ch
  {}

  lemma DecodeThree(ch: CodePoint)
    requires 0x800 <= ch < 0x1_0000
    ensures Decode(Encoding(ch)) == ch
  {
    var a := Shift(ch);
    var b := Shift(a);
    Peel(ch, a);
    Peel(a, b);
    assert b < 16;
    LowBitsThree(b);
    assert Encoding(ch) == [Lead(b, 0xE0), Tail(a), Tail(ch)];
  }

  lemma DecodeFour(ch: CodePoint)
    requires 0x1_0000 <= ch
    ensures Decode(Encoding(ch)) == ch <==> ch < LEAD_LIMIT
  {
    var a := Shift(ch);
    var b := Shift(a);
    var c := Shift(b);
    Peel(ch, a);
    Peel(a, b);
    Peel(b, c);
    LowBits(c);
    assert Encoding(ch) == [Lead(c, 0xF0), Tail(b), Tail(a), Tail(ch)];
  }

  /** Six bits go into a continuation byte, and come back. */
  lemma Peel(ch: CodePoint, rest: CodePoint)
    requires rest == Shift(ch)
    ensures ch == Join(rest, Tail(ch))
  {}

  lemma LowBitsThree(b: CodePoint)
    requires b < 16
    ensures Lead(b, 0xE0) % 16 == b
  {}

  lemma LowBits(c: CodePoint)
    ensures Lead(c, 0xF0) % 8 == c % 8
    ensures c % 8 == c <==> c < 8
  {}

  /** Self-synchronisation: exactly the first byte of an encoding is not a continuation byte. */
  lemma SelfSynchronising(ch: CodePoint, k: nat)
    requires k < ChSize(ch)
    ensures IsContinuation(Encoding(ch)[k]) <==> k > 0
  {
    assert ch < 0x80 ==> Encoding(ch)[0] == ch;
  }

  /** Only U+0000 puts a NUL into the buffer. */
  lemma EncodingHasNul(ch: CodePoint)
    ensures 0 in Encoding(ch) <==> ch == 0
  {
    if ch == 0 {
      assert Encoding(ch)[0] == 0;
    }
  }

  // ---------------------------------------------------------------- whole texts

  function EncodeAll(text: seq<CodePoint>): (bytes: seq<Byte>)
  {
    if text == [] then [] else EncodeAll(text[..|text| - 1]) + Encoding(text[|text| - 1])
  }

  lemma EncodeAllAppend(text: seq<CodePoint>, ch: CodePoint)
    ensures EncodeAll(text + [ch]) == EncodeAll(text) + Encoding(ch)
  {
    assert (text + [ch])[..|text|] == text;
  }

  lemma {:induction false} EncodeAllHasNul(text: seq<CodePoint>)
    ensures 0 in EncodeAll(text) <==> 0 in text
  {
    if text != [] {
      var init, last := text[..|text| - 1], text[|text| - 1];
      assert text == init + [last];
      EncodeAllHasNul(init);
      EncodingHasNul(last);
    }
  }

  /** Bytes needed for a text. */
  function ByteLength(text: seq<CodePoint>): nat {
    if text == [] then 0 else ByteLength(text[..|text| - 1]) + ChSize(text[|text| - 1])
  }

  lemma {:induction false} EncodeAllLength(text: seq<CodePoint>)
    ensures |EncodeAll(text)| == ByteLength(text)
    ensures |text| <= ByteLength(text) <= 4 * |text|
  {
    if text != [] {
      EncodeAllLength(text[..|text| - 1]);
    }
  }

  lemma ByteLengthAppend(text: seq<CodePoint>, ch: CodePoint)
    ensures ByteLength(text + [ch]) == ByteLength(text) + ChSize(ch)
  {
    assert (text + [ch])[..|text|] == text;
  }

  // ---------------------------------------------------------------- backward scan

  /** Length of the shortest suffix that starts at a non-continuation byte; 0 when there is none. */
  function LastSizeOf(bytes: seq<Byte>): (n: nat)
    ensures n <= |bytes|
  {
    if bytes == [] then 0
    else if !IsContinuation(bytes[|bytes| - 1]) then 1
    else
      var n := LastSizeOf(bytes[..|bytes| - 1]);
      if n == 0 then 0 else n + 1
  }

  /** Scanning back over any number of continuation bytes. */
  lemma {:induction false} ScanBack(bytes: seq<Byte>, k: nat)
    requires k < |bytes|
    requires !IsContinuation(bytes[|bytes| - 1 - k])
    requires forall j :: |bytes| - k <= j < |bytes| ==> IsContinuation(bytes[j])
    ensures LastSizeOf(bytes) == k + 1
  {
    if k > 0 {
      var init := bytes[..|bytes| - 1];
      ScanBack(init, k - 1);
    }
  }

  /** Whatever precedes it, the scan finds the last encoded code point whole. */
  lemma LastSizeOfEncoding(prefix: seq<Byte>, ch: CodePoint)
    ensures LastSizeOf(prefix + Encoding(ch)) == ChSize(ch)
  {
    var bytes := prefix + Encoding(ch);
    var n := ChSize(ch);
    forall k | 0 <= k < n ensures bytes[|prefix| + k] == Encoding(ch)[k]
        && (IsContinuation(bytes[|prefix| + k]) <==> k > 0) {
      SelfSynchronising(ch, k);
    }
    assert !IsContinuation(bytes[|prefix| + 0]);
    forall j | |bytes| - (n - 1) <= j < |bytes| ensures IsContinuation(bytes[j]) {
      assert j == |prefix| + (j - |prefix|);
    }
    ScanBack(bytes, n - 1);
  }

  // ---------------------------------------------------------------- the source's loops

  /** `utf8_encode`: continuation bytes from the back, then the marked lead byte. */
  method Encode(str: array<Byte>, at: nat, ch: CodePoint) returns (len: nat)
    requires at + ChSize(ch) <= str.Length
    modifies str
    ensures len == ChSize(ch)
    ensures str[..] == old(str[..at]) + Encoding(ch) + old(str[at + ChSize(ch)..])
  {
    var first := 0;
    if ch < 0x80 {
      first, len := 0, 1;
    } else if ch < 0x800 {
      first, len := 0xC0, 2;
    } else if ch < 0x1_0000 {
      first, len := 0xE0, 3;
    } else {
      first, len := 0xF0, 4;
    }
    ghost var bytes, rests := Layout(ch);
    var rest := PutTails(str, at, len, ch, bytes, rests);
    str[at] := Lead(rest, first);
    assert str[..] == old(str[..at]) + bytes + old(str[at + len..]);
  }

  /** The loop of `utf8_encode`; what is left of `ch` belongs in the lead byte. */
  method PutTails(str: array<Byte>, at: nat, len: nat, ch: CodePoint, ghost bytes: seq<Byte>,
          ghost rests: seq<CodePoint>)
    returns (rest: CodePoint)
    requires 0 < len == |bytes| == |rests| && at + len <= str.Length
    requires rests[0] == ch && Peels(bytes, rests)
    modifies str
    ensures rest == rests[len - 1]
    ensures forall j :: 0 <= j < str.Length && !(at < j < at + len) ==> str[j] == old(str[j])
    ensures forall j :: 0 < j < len ==> str[at + j] == bytes[j]
  {
    rest := ch;
    var i := len - 1;
    while i > 0
      invariant 0 <= i < len
      invariant rest == rests[len - 1 - i]
      invariant forall j :: 0 <= j < str.Length && !(at + i < j < at + len) ==> str[j] == old(str[j])
      invariant forall j :: i < j < len ==> str[at + j] == bytes[j]
    {
      assert Tail(rests[len - 1 - i]) == bytes[i];
      str[at + i] := Tail(rest);
      rest := Shift(rest);
      i := i - 1;
    }
  }

  /** `rests` are the successive values of `ch` in the loop, `bytes` the bytes they give, last byte first. */
  ghost predicate Peels(bytes: seq<Byte>, rests: seq<CodePoint>)
    requires |bytes| == |rests|
  {
    forall k :: 0 <= k < |rests| - 1 ==> Shift(rests[k]) == rests[k + 1] && Tail(rests[k]) == bytes[|rests| - 1 - k]
  }

  lemma Layout(ch: CodePoint) returns (bytes: seq<Byte>, rests: seq<CodePoint>)
    ensures bytes == Encoding(ch) && |rests| == |bytes| && rests[0] == ch
    ensures Peels(bytes, rests)
    ensures bytes[0] == Lead(rests[|rests| - 1], Marker(ch))
  {
    bytes := Encoding(ch);
    var rest1 := Shift(ch);
    var rest2 := Shift(rest1);
    rests := [ch, rest1, rest2, Shift(rest2)][..|bytes|];
  }

  function Marker(ch: CodePoint): (m: int)
    ensures IsMarker(m)
  {
    if ch < 0x80 then 0 else if ch < 0x800 then 0xC0 else if ch < 0x1_0000 then 0xE0 else 0xF0
  }

  /** `utf8_last_size`: find the terminator, then walk back to a non-continuation byte. */
  method LastSize(str: array<Byte>, ghost end: nat) returns (len: nat)
    requires end < str.Length && str[end] == 0
    requires forall j :: 0 <= j < end ==> str[j] != 0
    ensures len == LastSizeOf(str[..end])
  {
    len := 0;
    var pos := 0;
    while str[pos] != 0
      invariant pos <= end
      decreases end - pos
    {
      pos := pos + 1;
    }
    while pos > 0
      invariant pos + len == end
      invariant forall j :: pos <= j < end ==> IsContinuation(str[j])
    {
      pos := pos - 1;
      len := len + 1;
      if !IsContinuation(str[pos]) {
        ScanBack(str[..end], len - 1);
        return;
      }
    }
    AllContinuation(str[..end]);
    return 0;
  }

  lemma {:induction false} AllContinuation(bytes: seq<Byte>)
    requires forall j :: 0 <= j < |bytes| ==> IsContinuation(bytes[j])
    ensures LastSizeOf(bytes) == 0
  {
    if bytes != [] {
      AllContinuation(bytes[..|bytes| - 1]);
    }
  }

  // ---------------------------------------------------------------- size from a lead byte

  /** One row of the `sizes` table; the mask keeps the bits of weight `unit` and above. */
  datatype SizeRow = SizeRow(unit: int, result: Byte, octets: int)

  /** Masks 0x80, 0xE0, 0xF0, 0xF8, 0xFC, 0xFE, 0x80. */
  const SIZES: seq<SizeRow> := [
    SizeRow(128, 0x00, 1), SizeRow(32, 0xC0, 2), SizeRow(16, 0xE0, 3), SizeRow(8, 0xF0, 4),
    SizeRow(4, 0xF8, 5), SizeRow(2, 0xF8, 6), SizeRow(128, 0x80, -1)]

  /** `c & mask` for the mask that keeps the bits of weight `unit` and above. */
  function Masked(c: Byte, unit: int): int {
    if unit == 128 then c - c % 128 else if unit == 32 then c - c % 32 else if unit == 16 then c - c % 16
    else if unit == 8 then c - c % 8 else if unit == 4 then c - c % 4 else c - c % 2
  }

  /** Number of bytes announced by a lead byte, by the ranges the leads fall in. */
  function SizeOfLead(c: Byte): int {
    if c < 0x80 then 1
    else if 0xC0 <= c < 0xE0 then 2
    else if 0xE0 <= c < 0xF0 then 3
    else if 0xF0 <= c < 0xF8 then 4
    else if 0xF8 <= c < 0xFC then 5
    else -1
  }

  /** How many of the bits of weight `unit` and below come before the first that is clear. */
  function LeadingOnes(c: Byte, unit: int): nat
    requires unit >= 0
    decreases unit
  {
    if unit == 0 || c / unit % 2 == 0 then 0 else 1 + LeadingOnes(c, unit / 2)
  }

  /** A lead byte announces as many bytes as it has leading ones, up to five, and a byte with none stands alone. */
  lemma SizeByLeadingOnes(c: Byte)
    ensures var ones := LeadingOnes(c, 128);
            SizeOfLead(c) == if ones == 0 then 1 else if 2 <= ones <= 5 then ones else -1
  {
    assert LeadingOnes(c, 128) == if c < 128 then 0 else 1 + LeadingOnes(c, 64);
    assert LeadingOnes(c, 32) == if c / 32 % 2 == 0 then 0 else 1 + LeadingOnes(c, 16);
    assert LeadingOnes(c, 8) == if c / 8 % 2 == 0 then 0 else 1 + LeadingOnes(c, 4);
  }

  /** `utf8_size`: the first matching row. The row for six octets is never reached. */
  method Size(c: Byte) returns (octets: int)
    ensures octets == SizeOfLead(c)
    ensures octets != 6
  {
    var i := 0;
    while i < |SIZES|
      invariant 0 <= i <= |SIZES|
      invariant i > 0 ==> c >= 0x80
      invariant i > 1 ==> !(0xC0 <= c < 0xE0)
      invariant i > 2 ==> !(0xE0 <= c < 0xF0)
      invariant i > 3 ==> !(0xF0 <= c < 0xF8)
      invariant i > 4 ==> !(0xF8 <= c < 0xFC)
    {
      if Masked(c, SIZES[i].unit) == SIZES[i].result {
        return SIZES[i].octets;
      }
      i := i + 1;
    }
    return -1;
  }

  /** No shorter sequence of the lengths its lead byte announces stands for the value: the encoding is the shortest. */
  lemma ShortestForm(ch: CodePoint, bytes: seq<Byte>)
    requires 1 <= |bytes| <= 4 && SizeOfLead(bytes[0]) == |bytes| && Decode(bytes) == ch
    ensures ChSize(ch) <= |bytes|
  {}

  /** The lead byte announces the encoder's own length, except where bit 21 of a four-byte value is set. */
  lemma LeadAnnouncesSize(ch: CodePoint)
    ensures SizeOfLead(Encoding(ch)[0]) == ChSize(ch) <==> ch < 0x1_0000 || Shift(Shift(Shift(ch))) % 16 < 8
    ensures ch < LEAD_LIMIT ==> SizeOfLead(Encoding(ch)[0]) == ChSize(ch)
  {
    var c := Shift(Shift(Shift(ch)));
    assert ch >= 0x1_0000 ==> Encoding(ch)[0] == Lead(c, 0xF0);
  }
}

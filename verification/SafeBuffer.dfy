/**
 The wiped byte buffer (src/safebuf.c) and the two edits password.c makes in it.
 Memory locking and alignment are not part of this model.
 */
module SafeBuffer {
  import opened Utf8

  /** Nothing but zero bytes. */
  predicate AllZero(bytes: array<Byte>)
    reads bytes
  {
    forall i :: 0 <= i < bytes.Length ==> bytes[i] == 0
  }

  class SBuf {
    var buf: array<Byte>
    var len: nat
    /** Every allocation ever made for this buffer. */
    ghost var past: set<array<Byte>>

    /** No byte but zero is left in any of them. */
    ghost predicate Forgotten()
      reads this, past
    {
      forall bytes :: bytes in past ==> AllZero(bytes)
    }

    /** The text kept in the buffer is NUL-terminated: `len` bytes, then a zero inside the capacity. */
    ghost predicate Terminated()
      reads this, buf
    {
      len < buf.Length && buf[len] == 0
    }

    /** Every byte up to the capacity is zero. */
    ghost predicate Blank()
      reads `buf, buf
    {
      AllZero(buf)
    }

    ghost function Contents(): seq<Byte>
      requires Terminated()
      reads this, buf
    {
      buf[..len]
    }

    /**
     The buffer spells `text`. Nothing is said about the bytes beyond the terminator.
     The trigger keeps proofs that do not mention the encoding from unfolding it.
     */
    ghost predicate Spells(text: seq<CodePoint>)
      reads this, buf
    {
      && Terminated() && 0 !in text
      && (forall t {:trigger EncodeAll(t)} :: t == text ==> buf[..len] == EncodeAll(t))
    }

    /** An `sbuf_t` initialised with `{0}`. */
    constructor Unallocated()
      ensures fresh(buf) && buf.Length == 0 && len == 0 && past == {}
    {
      buf := new Byte[0];
      len := 0;
      past := {};
    }

    /** `sbuf_create`, when allocation and locking succeed. */
    method Create(cap: nat)
      requires cap > 0
      modifies this
      ensures fresh(buf) && buf.Length == cap && len == 0
      ensures Blank() && Spells([]) && past == old(past) + {buf}
    {
      var bytes := new Byte[cap];
      Wipe(bytes);
      buf := bytes;
      len := 0;
      past := past + {bytes};
    }

    /** `sbuf_clear`: every byte up to the capacity is wiped, and the allocation is kept. */
    method Clear()
      requires buf.Length > 0
      modifies this`len, buf
      ensures buf == old(buf) && len == 0
      ensures Blank() && Spells([])
    {
      Wipe(buf);
      len := 0;
    }

    /** `sbuf_destroy`: the bytes are wiped before the allocation is given up. */
    method Destroy()
      modifies this, buf
      ensures AllZero(old(buf))
      ensures fresh(buf) && buf.Length == 0 && len == 0 && past == old(past)
    {
      Wipe(buf);
      buf := new Byte[0];
      len := 0;
    }

    /** `memset(buf, 0, cap)` */
    static method Wipe(bytes: array<Byte>)
      modifies bytes
      ensures AllZero(bytes)
    {
      var i := 0;
      while i < bytes.Length
        invariant 0 <= i <= bytes.Length
        invariant forall j :: 0 <= j < i ==> bytes[j] == 0
      {
        bytes[i] := 0;
        i := i + 1;
      }
    }
  }
}

/** The list-of-code-points editor and the byte editor of src/password.c that refines it. */
module Editor {
  import opened Utf8
  import opened SafeBuffer

  /** A typed code point is kept when its bytes, the terminator and one spare byte fit. */
  function Typed(text: seq<CodePoint>, cap: nat, ch: CodePoint): seq<CodePoint> {
    if ByteLength(text) + ChSize(ch) + 1 >= cap then text else text + [ch]
  }

  /** Backspace drops the last code point. */
  function Erased(text: seq<CodePoint>): seq<CodePoint> {
    if text == [] then [] else text[..|text| - 1]
  }

  /** `append_ch` */
  method AppendCh(pw: SBuf, ch: CodePoint, ghost text: seq<CodePoint>)
    requires ch != 0 && pw.Spells(text)
    modifies pw`len, pw.buf
    ensures pw.buf == old(pw.buf)
    ensures pw.Spells(Typed(text, pw.buf.Length, ch))
    ensures pw.len != old(pw.len) ==> pw.len + 2 <= pw.buf.Length
  {
    EncodeAllLength(text);
    var size := ChSize(ch);
    if pw.len + size + 1 >= pw.buf.Length {
      return;
    }
    PutAndTerminate(pw, ch);
    EncodeAllAppend(text, ch);
  }

  /** Encoding at the end of the text, then a new terminator. */
  method PutAndTerminate(pw: SBuf, ch: CodePoint)
    requires pw.Terminated() && pw.len + ChSize(ch) + 1 < pw.buf.Length
    modifies pw`len, pw.buf
    ensures pw.buf == old(pw.buf) && pw.Terminated() && pw.len == old(pw.len) + ChSize(ch)
    ensures pw.Contents() == old(pw.Contents()) + Encoding(ch)
  {
    var size := ChSize(ch);
    var written := Encode(pw.buf, pw.len, ch);
    ghost var after := pw.buf[..pw.len + size];
    assert after == old(pw.buf[..pw.len]) + Encoding(ch);
    pw.buf[pw.len + size] := 0;
    assert pw.buf[..pw.len + size] == after;
    pw.len := pw.len + size;
  }

  /** `backspace`; only the terminator is rewritten, so the erased bytes stay behind it. */
  method Backspace(pw: SBuf, ghost text: seq<CodePoint>) returns (erased: bool)
    requires pw.Spells(text)
    modifies pw`len, pw.buf
    ensures pw.buf == old(pw.buf)
    ensures erased <==> text != []
    ensures pw.Spells(Erased(text))
    ensures pw.len == old(pw.len) - if erased then ChSize(text[|text| - 1]) else 0
    ensures forall i :: 0 <= i < pw.buf.Length && i != pw.len ==> pw.buf[i] == old(pw.buf[i])
  {
    assert EncodeAll(text) == EncodeAll(text);
    EncodeAllLength(text);
    erased := pw.len != 0;
    if erased {
      var size := SizeOfLast(pw, text);
      CutTo(pw, pw.len - size, Erased(text));
    }
  }

  /** What `utf8_last_size` finds in the buffer. */
  method SizeOfLast(pw: SBuf, ghost text: seq<CodePoint>) returns (size: nat)
    requires pw.Spells(text) && text != [] && pw.len == |EncodeAll(text)|
    ensures size == ChSize(text[|text| - 1]) && size <= pw.len
    ensures pw.buf[..pw.len - size] == EncodeAll(Erased(text))
  {
    NoNulInside(text, pw.buf[..pw.len]);
    size := LastSize(pw.buf, pw.len);
    ScanDropsLast(text);
    assert pw.buf[..pw.len - size] == pw.buf[..pw.len][..pw.len - size];
  }

  /** The new terminator. */
  method CutTo(pw: SBuf, len: nat, ghost text: seq<CodePoint>)
    requires len < pw.buf.Length && pw.buf[..len] == EncodeAll(text) && 0 !in text
    modifies pw`len, pw.buf
    ensures pw.buf == old(pw.buf) && pw.len == len && pw.Spells(text)
    ensures forall i :: 0 <= i < pw.buf.Length && i != len ==> pw.buf[i] == old(pw.buf[i])
  {
    ghost var before := pw.buf[..len];
    pw.len := len;
    pw.buf[len] := 0;
    assert pw.buf[..len] == before;
  }

  lemma NoNulInside(text: seq<CodePoint>, bytes: seq<Byte>)
    requires 0 !in text && bytes == EncodeAll(text)
    ensures forall j :: 0 <= j < |bytes| ==> bytes[j] != 0
  {
    EncodeAllHasNul(text);
  }

  /** What the backward scan measures is exactly the last code point. */
  lemma ScanDropsLast(text: seq<CodePoint>)
    requires text != []
    ensures LastSizeOf(EncodeAll(text)) == ChSize(text[|text| - 1])
    ensures EncodeAll(text)[..|EncodeAll(text)| - LastSizeOf(EncodeAll(text))] == EncodeAll(Erased(text))
  {
    LastSizeOfEncoding(EncodeAll(Erased(text)), text[|text| - 1]);
  }

  /** Typing what fits and erasing it again leaves the text as it was. */
  lemma EraseUndoesType(text: seq<CodePoint>, cap: nat, ch: CodePoint)
    ensures Typed(text, cap, ch) != text ==> Erased(Typed(text, cap, ch)) == text
    ensures Typed(text, cap, ch) == text <==> ByteLength(text) + ChSize(ch) + 1 >= cap
  {
    assert (text + [ch])[..|text|] == text;
  }
}

/** Bytes, C-string constants and the search for a line end that the whole protocol rests on. */
module Bytes {

  type byte = b: int | 0 <= b < 256

  datatype Option<+T> = None | Some(value: T)

  const CR: byte := 13
  const LF: byte := 10
  const MINUS: byte := 45
  const ZERO: byte := 48

  const CRLF: seq<byte> := [CR, LF]

  /** The bytes of an ASCII text. */
  function Ascii(s: string): (r: seq<byte>)
    requires forall i :: 0 <= i < |s| ==> s[i] as int < 128
    ensures |r| == |s| && forall i :: 0 <= i < |s| ==> r[i] == s[i] as int
  {
    seq(|s|, i requires 0 <= i < |s| => s[i] as int)
  }

  /** c is the letter l, a lower-case one, in either case; other bytes only equal themselves. */
  predicate SameLetter(c: byte, l: byte) {
    c == l || (97 <= l <= 122 && c == l - 32)
  }

  /** isspace in the C locale. */
  predicate IsSpace(b: byte) {
    b == 32 || 9 <= b <= 13
  }

  /** A line end starts at index i. */
  predicate LineEndAt(s: seq<byte>, i: int) {
    0 <= i && i + 1 < |s| && s[i] == CR && s[i + 1] == LF
  }

  /** Index of the first CR that an LF follows. */
  function FindCRLF(s: seq<byte>): (r: Option<nat>)
    ensures r.Some? ==> LineEndAt(s, r.value) && forall j :: 0 <= j < r.value ==> !LineEndAt(s, j)
    ensures r.None? ==> forall j :: 0 <= j ==> !LineEndAt(s, j)
  {
    FindCRLFFrom(s, 0)
  }

  function FindCRLFFrom(s: seq<byte>, i: nat): (r: Option<nat>)
    ensures r.Some? ==> i <= r.value && LineEndAt(s, r.value) && forall j :: i <= j < r.value ==> !LineEndAt(s, j)
    ensures r.None? ==> forall j :: i <= j ==> !LineEndAt(s, j)
    decreases |s| - i
  {
    if i + 1 >= |s| then None
    else if LineEndAt(s, i) then Some(i)
    else FindCRLFFrom(s, i + 1)
  }

  /** A line that is complete stays the same line whatever bytes arrive later. */
  lemma {:induction false} FindCRLFStable(s: seq<byte>, ext: seq<byte>)
    requires FindCRLF(s).Some?
    ensures FindCRLF(s + ext) == FindCRLF(s)
  {
    var i := FindCRLF(s).value;
    assert LineEndAt(s + ext, i);
    forall j | 0 <= j < i ensures !LineEndAt(s + ext, j) {
      assert !LineEndAt(s, j);
    }
    var r := FindCRLF(s + ext);
    assert r.Some?;
  }

  /** A payload without CR followed by CRLF is found whole. */
  lemma {:induction false} FindCRLFOfLine(line: seq<byte>, ext: seq<byte>)
    requires forall j :: 0 <= j < |line| ==> !LineEndAt(line + [CR], j)
    ensures FindCRLF(line + CRLF + ext) == Some(|line|)
  {
    var s := line + CRLF + ext;
    assert LineEndAt(s, |line|);
    forall j | 0 <= j < |line| ensures !LineEndAt(s, j) {
      assert !LineEndAt(line + [CR], j);
      if j + 1 < |line| {
        assert s[j] == (line + [CR])[j] && s[j + 1] == (line + [CR])[j + 1];
      } else {
        assert s[j + 1] == CR;
      }
    }
  }

  /** First CR/LF pair, searched the way the reader does: an outer scan that restarts after a lone CR. */
  method SeekNewline(s: seq<byte>) returns (r: Option<nat>)
    ensures r == FindCRLF(s)
  {
    var pos := 0;
    var last := |s| - 1;
    while pos < last
      invariant 0 <= pos
      invariant pos <= last || |s| <= 1
      invariant forall j :: 0 <= j < pos ==> !LineEndAt(s, j)
      decreases last - pos
    {
      while pos < last && s[pos] != CR
        invariant 0 <= pos <= last
        invariant forall j :: 0 <= j < pos ==> !LineEndAt(s, j)
      {
        pos := pos + 1;
      }
      if pos == last {
        return None;
      } else {
        if s[pos + 1] == LF {
          assert LineEndAt(s, pos);
          return Some(pos);
        } else {
          pos := pos + 1;
        }
      }
    }
    return None;
  }
}

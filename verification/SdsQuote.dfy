/**
 Quoting and splitting of command lines: sdscatrepr writes a byte string between double quotes, sdssplitargs reads
 a line of such arguments back.  A line is a C string: it ends at its first NUL, or at the NUL after its last byte.
 */
module SdsQuote {
  import opened Bytes
  import opened SdsSplit

  const SPACE: byte := 32
  const DQUOTE: byte := 34
  const SQUOTE: byte := 39
  const BACKSLASH: byte := 92
  const LETTER_X: byte := 120

  /** The byte a C string shows at i; the terminating NUL is the last one that may be read. */
  function At(line: seq<byte>, i: nat): (b: byte)
    requires i <= |line|
  {
    if i < |line| then line[i] else 0
  }

  predicate IsPrint(b: byte) { 32 <= b <= 126 }

  predicate IsXDigit(b: byte) { 48 <= b <= 57 || 65 <= b <= 70 || 97 <= b <= 102 }

  /** hex_digit_to_int. */
  function HexDigitToInt(c: byte): (v: nat)
    ensures v < 16
  {
    if 48 <= c <= 57 then c - 48
    else if 65 <= c <= 70 then c - 55
    else if 97 <= c <= 102 then c - 87
    else 0
  }

  /** One digit of the conversion %02x. */
  function HexDigit(v: nat): byte
    requires v < 16
  {
    if v < 10 then 48 + v else 87 + v
  }

  lemma {:induction false} HexRoundTrip(b: byte)
    ensures IsXDigit(HexDigit(b / 16)) && IsXDigit(HexDigit(b % 16))
    ensures HexDigitToInt(HexDigit(b / 16)) * 16 + HexDigitToInt(HexDigit(b % 16)) == b
  {
  }

  // ---- Quoting ----

  function Escaped(b: byte): (r: seq<byte>)
    ensures r != []
  {
    if b == BACKSLASH || b == DQUOTE then [BACKSLASH, b]
    else if b == 10 then [BACKSLASH, 110]
    else if b == 13 then [BACKSLASH, 114]
    else if b == 9 then [BACKSLASH, 116]
    else if b == 7 then [BACKSLASH, 97]
    else if b == 8 then [BACKSLASH, 98]
    else if IsPrint(b) then [b]
    else [BACKSLASH, LETTER_X, HexDigit(b / 16), HexDigit(b % 16)]
  }

  function EscapedAll(s: seq<byte>): seq<byte> {
    if s == [] then [] else Escaped(s[0]) + EscapedAll(s[1..])
  }

  function Repr(s: seq<byte>): seq<byte> {
    [DQUOTE] + EscapedAll(s) + [DQUOTE]
  }

  lemma {:induction false} EscapedAllSnoc(s: seq<byte>, b: byte)
    ensures EscapedAll(s + [b]) == EscapedAll(s) + Escaped(b)
    decreases |s|
  {
    if s == [] {
      assert [b][1..] == [];
    } else {
      assert (s + [b])[1..] == s[1..] + [b];
      EscapedAllSnoc(s[1..], b);
    }
  }

  lemma {:induction false} EscapedMore(front: seq<byte>, p: seq<byte>, i: nat)
    requires i < |p|
    ensures front + EscapedAll(p[..i]) + Escaped(p[i]) == front + EscapedAll(p[..i + 1])
  {
    EscapedAllSnoc(p[..i], p[i]);
    assert p[..i + 1] == p[..i] + [p[i]];
  }

  /** sdscatrepr. */
  method CatRepr(s0: seq<byte>, p: seq<byte>) returns (s: seq<byte>)
    ensures s == s0 + Repr(p)
  {
    s := s0 + [DQUOTE];
    var i := 0;
    while i < |p|
      invariant 0 <= i <= |p|
      invariant s == s0 + [DQUOTE] + EscapedAll(p[..i])
    {
      ghost var before := s;
      var c := p[i];
      if c == BACKSLASH || c == DQUOTE {
        s := s + [BACKSLASH, c];
      } else if c == 10 {
        s := s + [BACKSLASH, 110];
      } else if c == 13 {
        s := s + [BACKSLASH, 114];
      } else if c == 9 {
        s := s + [BACKSLASH, 116];
      } else if c == 7 {
        s := s + [BACKSLASH, 97];
      } else if c == 8 {
        s := s + [BACKSLASH, 98];
      } else if IsPrint(c) {
        s := s + [c];
      } else {
        s := s + [BACKSLASH, LETTER_X, HexDigit(c / 16), HexDigit(c % 16)];
      }
      assert s == before + Escaped(c);
      hide Escaped;
      EscapedMore(s0 + [DQUOTE], p, i);
      i := i + 1;
    }
    assert p[..i] == p;
    assert s0 + [DQUOTE] + EscapedAll(p) + [DQUOTE] == s0 + Repr(p);
    s := s + [DQUOTE];
  }

  // ---- Splitting ----

  datatype Mode = Plain | InDouble | InSingle

  datatype Step = Failed | Ended(p: nat) | More(mode: Mode, out: seq<byte>, p: nat)

  /** One round of the token loop: what it appends, where it goes on, or how it ends. */
  function StepAt(line: seq<byte>, p: nat, mode: Mode): (r: Step)
    requires p <= |line|
    ensures r.Ended? ==> p <= r.p <= |line| && (mode != Plain ==> p < r.p)
    ensures r.More? ==> p < r.p <= |line|
  {
    var c := At(line, p);
    match mode
    case InDouble =>
      if c == BACKSLASH && At(line, p + 1) == LETTER_X && IsXDigit(At(line, p + 2)) && IsXDigit(At(line, p + 3)) then
        More(mode, [HexDigitToInt(line[p + 2]) * 16 + HexDigitToInt(line[p + 3])], p + 4)
      else if c == BACKSLASH && At(line, p + 1) != 0 then More(mode, [Unescaped(line[p + 1])], p + 2)
      else if c == DQUOTE then Closing(line, p)
      else if c == 0 then Failed
      else More(mode, [c], p + 1)
    case InSingle =>
      if c == BACKSLASH && At(line, p + 1) == SQUOTE then More(mode, [SQUOTE], p + 2)
      else if c == SQUOTE then Closing(line, p)
      else if c == 0 then Failed
      else More(mode, [c], p + 1)
    case Plain =>
      if c == 0 then Ended(p)
      else if c == SPACE || c == 10 || c == 13 || c == 9 then Ended(p + 1)
      else if c == DQUOTE then More(InDouble, [], p + 1)
      else if c == SQUOTE then More(InSingle, [], p + 1)
      else More(Plain, [c], p + 1)
  }

  /** A closing quote must be followed by a space or by the end of the line. */
  function Closing(line: seq<byte>, p: nat): Step
    requires p < |line|
  {
    if At(line, p + 1) != 0 && !IsSpace(At(line, p + 1)) then Failed else Ended(p + 1)
  }

  function Unescaped(c: byte): byte {
    if c == 110 then 10
    else if c == 114 then 13
    else if c == 116 then 9
    else if c == 98 then 8
    else if c == 97 then 7
    else c
  }

  datatype Token = NoToken | Token(text: seq<byte>, p: nat)

  /** The token that is read from p on, after the bytes of `current`. */
  function TokenAt(line: seq<byte>, p: nat, mode: Mode, current: seq<byte>): (r: Token)
    requires p <= |line|
    ensures r.Token? ==> p <= r.p <= |line|
    decreases |line| - p
  {
    match StepAt(line, p, mode)
    case Failed => NoToken
    case Ended(q) => Token(current, q)
    case More(m, out, q) => TokenAt(line, q, m, current + out)
  }

  function SkipBlanks(line: seq<byte>, p: nat): (q: nat)
    requires p <= |line|
    ensures p <= q <= |line| && !IsSpace(At(line, q))
    ensures forall k :: p <= k < q ==> IsSpace(line[k])
    decreases |line| - p
  {
    if At(line, p) != 0 && IsSpace(At(line, p)) then SkipBlanks(line, p + 1) else p
  }

  /** The arguments of the line from p on; None for unbalanced quotes or a closing quote that touches a byte. */
  function ArgsFrom(line: seq<byte>, p: nat): Option<seq<seq<byte>>>
    requires p <= |line|
    decreases |line| - p
  {
    var q := SkipBlanks(line, p);
    if At(line, q) == 0 then Some([])
    else
      match TokenAt(line, q, Plain, [])
      case NoToken => None
      case Token(text, next) =>
        TokenAdvances(line, q);
        Prepend([text], ArgsFrom(line, next))
  }

  lemma {:induction false} TokenAdvances(line: seq<byte>, q: nat)
    requires q < |line| && !IsSpace(line[q]) && line[q] != 0
    ensures var r := TokenAt(line, q, Plain, []);
            r.Token? ==> q < r.p
  {
  }

  function Args(line: seq<byte>): Option<seq<seq<byte>>> {
    ArgsFrom(line, 0)
  }

  /** sdssplitargs: None is its NULL. */
  method SplitArgs(line: seq<byte>) returns (r: Option<seq<seq<byte>>>)
    ensures r == Args(line)
  {
    var p := 0;
    var vector: seq<seq<byte>> := [];
    PrependNothing(vector, ArgsFrom(line, 0));
    while true
      invariant 0 <= p <= |line|
      invariant Args(line) == Prepend(vector, ArgsFrom(line, p))
      decreases |line| - p
    {
      ghost var start := p;
      while At(line, p) != 0 && IsSpace(At(line, p))
        invariant start <= p <= |line| && SkipBlanks(line, p) == SkipBlanks(line, start)
        decreases |line| - p
      {
        p := p + 1;
      }
      if At(line, p) == 0 {
        PrependNothing(vector, ArgsFrom(line, start));
        return Some(vector);
      }
      TokenAdvances(line, p);
      var ok, current, next := ReadToken(line, p);
      if !ok { return None; }
      p := next;
      PrependMore(vector, current, ArgsFrom(line, p));
      vector := vector + [current];
    }
  }

  /** The inner loop of sdssplitargs, on its flags inq, insq and done. */
  method ReadToken(line: seq<byte>, start: nat) returns (ok: bool, current: seq<byte>, p: nat)
    requires start < |line| && !IsSpace(line[start]) && line[start] != 0
    ensures p <= |line|
    ensures TokenAt(line, start, Plain, []) == if ok then Token(current, p) else NoToken
  {
    hide HexDigitToInt;
    p := start;
    current := [];
    var inq, insq, done := false, false, false;
    while !done
      invariant p <= |line| && !(inq && insq)
      invariant if done then TokenAt(line, start, Plain, []) == Token(current, p)
                else TokenAt(line, start, Plain, []) == TokenAt(line, p, ModeOf(inq, insq), current)
      decreases !done, |line| - p
    {
      assert current + [] == current;
      if inq {
        if At(line, p) == BACKSLASH && At(line, p + 1) == LETTER_X
           && IsXDigit(At(line, p + 2)) && IsXDigit(At(line, p + 3)) {
          current := current + [HexDigitToInt(line[p + 2]) * 16 + HexDigitToInt(line[p + 3])];
          p := p + 3;
        } else if At(line, p) == BACKSLASH && At(line, p + 1) != 0 {
          p := p + 1;
          var c: byte;
          match line[p] {
            case 110 => c := 10;
            case 114 => c := 13;
            case 116 => c := 9;
            case 98 => c := 8;
            case 97 => c := 7;
            case _ => c := line[p];
          }
          current := current + [c];
        } else if At(line, p) == DQUOTE {
          if At(line, p + 1) != 0 && !IsSpace(At(line, p + 1)) { return false, current, p; }
          done := true;
        } else if At(line, p) == 0 {
          return false, current, p;
        } else {
          current := current + [line[p]];
        }
      } else if insq {
        if At(line, p) == BACKSLASH && At(line, p + 1) == SQUOTE {
          p := p + 1;
          current := current + [SQUOTE];
        } else if At(line, p) == SQUOTE {
          if At(line, p + 1) != 0 && !IsSpace(At(line, p + 1)) { return false, current, p; }
          done := true;
        } else if At(line, p) == 0 {
          return false, current, p;
        } else {
          current := current + [line[p]];
        }
      } else {
        if At(line, p) == SPACE || At(line, p) == 10 || At(line, p) == 13 || At(line, p) == 9 || At(line, p) == 0 {
          done := true;
        } else if At(line, p) == DQUOTE {
          inq := true;
        } else if At(line, p) == SQUOTE {
          insq := true;
        } else {
          current := current + [line[p]];
        }
      }
      if At(line, p) != 0 { p := p + 1; }
    }
    ok := true;
  }

  function ModeOf(inq: bool, insq: bool): Mode {
    if inq then InDouble else if insq then InSingle else Plain
  }

  function Prepend(front: seq<seq<byte>>, rest: Option<seq<seq<byte>>>): Option<seq<seq<byte>>> {
    match rest
    case None => None
    case Some(back) => Some(front + back)
  }

  lemma {:induction false} PrependMore(front: seq<seq<byte>>, text: seq<byte>, rest: Option<seq<seq<byte>>>)
    ensures Prepend(front, Prepend([text], rest)) == Prepend(front + [text], rest)
  {
    if rest.Some? {
      assert front + ([text] + rest.value) == front + [text] + rest.value;
    }
  }

  lemma {:induction false} PrependNothing(front: seq<seq<byte>>, rest: Option<seq<seq<byte>>>)
    ensures Prepend([], rest) == rest && Prepend(front, Some([])) == Some(front)
  {
    if rest.Some? {
      assert [] + rest.value == rest.value;
    }
    assert front + [] == front;
  }

  // ---- What was quoted is read back ----

  /** The line shows w at p. */
  predicate Shows(line: seq<byte>, p: nat, w: seq<byte>) {
    p + |w| <= |line| && line[p..p + |w|] == w
  }

  lemma {:induction false} ShowsSplit(line: seq<byte>, p: nat, u: seq<byte>, v: seq<byte>)
    requires Shows(line, p, u + v)
    ensures Shows(line, p, u) && Shows(line, p + |u|, v)
  {
    assert line[p..p + |u|] == (u + v)[..|u|];
    assert line[p + |u|..p + |u| + |v|] == (u + v)[|u|..];
  }

  lemma {:induction false} ShowsAt(line: seq<byte>, p: nat, w: seq<byte>)
    requires Shows(line, p, w)
    ensures p + |w| <= |line| && forall k :: 0 <= k < |w| ==> line[p + k] == w[k]
  {
    forall k | 0 <= k < |w| ensures line[p + k] == w[k] {
      assert line[p..p + |w|][k] == line[p + k];
    }
  }

  /** Reading the escape of a byte yields the byte. */
  lemma {:induction false} EscapeStep(line: seq<byte>, p: nat, b: byte)
    requires Shows(line, p, Escaped(b))
    ensures p < |line| && StepAt(line, p, InDouble) == More(InDouble, [b], p + |Escaped(b)|)
  {
    ShowsAt(line, p, Escaped(b));
    HexRoundTrip(b);
    assert line[p] == Escaped(b)[0];
    if |Escaped(b)| > 1 {
      assert line[p + 1] == Escaped(b)[1];
    }
    if |Escaped(b)| > 2 {
      assert line[p + 2] == Escaped(b)[2] && line[p + 3] == Escaped(b)[3];
    }
  }

  lemma {:induction false} EscapesRead(line: seq<byte>, p: nat, s: seq<byte>, current: seq<byte>)
    requires Shows(line, p, EscapedAll(s) + [DQUOTE])
    ensures p + |EscapedAll(s)| < |line| && line[p + |EscapedAll(s)|] == DQUOTE
    ensures TokenAt(line, p, InDouble, current) == TokenAt(line, p + |EscapedAll(s)|, InDouble, current + s)
    decreases |s|
  {
    hide Shows, StepAt, Escaped;
    if s == [] {
      assert current + s == current;
      assert EscapedAll(s) + [DQUOTE] == [DQUOTE];
      ShowsByte(line, p, DQUOTE);
    } else {
      var e, rest := Escaped(s[0]), EscapedAll(s[1..]);
      assert EscapedAll(s) + [DQUOTE] == e + (rest + [DQUOTE]);
      ShowsSplit(line, p, e, rest + [DQUOTE]);
      EscapeStep(line, p, s[0]);
      EscapesRead(line, p + |e|, s[1..], current + [s[0]]);
      assert current + [s[0]] + s[1..] == current + s;
    }
  }

  lemma {:induction false} ShowsByte(line: seq<byte>, p: nat, b: byte)
    requires Shows(line, p, [b])
    ensures p < |line| && line[p] == b
  {
    assert line[p..p + 1][0] == line[p];
  }

  lemma {:induction false} ReprRead(line: seq<byte>, p: nat, s: seq<byte>)
    requires Shows(line, p, Repr(s))
    requires var q := p + |Repr(s)|; q == |line| || (q < |line| && IsSpace(line[q]))
    ensures p < |line| && line[p] == DQUOTE && p + |Repr(s)| <= |line|
    ensures TokenAt(line, p, Plain, []) == Token(s, p + |Repr(s)|)
  {
    hide Shows, EscapedAll, Repr, TokenAt, StepAt, IsSpace, Escaped, Closing;
    var n := |EscapedAll(s)|;
    ReprBody(line, p, s);
    EscapesRead(line, p + 1, s, []);
    NoPrefix(s);
    Opening(line, p);
    ClosingRead(line, p + 1 + n, s);
  }

  lemma {:induction false} NoPrefix(s: seq<byte>)
    ensures [] + s == s
  {
  }

  /** Behind the opening quote come the escapes and the closing quote. */
  lemma {:induction false} ReprBody(line: seq<byte>, p: nat, s: seq<byte>)
    requires Shows(line, p, Repr(s))
    ensures |Repr(s)| == |EscapedAll(s)| + 2
    ensures p < |line| && line[p] == DQUOTE && Shows(line, p + 1, EscapedAll(s) + [DQUOTE])
  {
    hide Shows, EscapedAll;
    var e := EscapedAll(s);
    assert Repr(s) == [DQUOTE] + (e + [DQUOTE]);
    hide Repr;
    ShowsSplit(line, p, [DQUOTE], e + [DQUOTE]);
    ShowsByte(line, p, DQUOTE);
  }

  lemma {:induction false} ClosingRead(line: seq<byte>, q: nat, s: seq<byte>)
    requires q < |line| && line[q] == DQUOTE && (q + 1 == |line| || IsSpace(line[q + 1]))
    ensures TokenAt(line, q, InDouble, s) == Token(s, q + 1)
  {
    assert Closing(line, q) == Ended(q + 1);
    assert TokenAt(line, q, InDouble, s) == Token(s, q + 1);
  }

  lemma {:induction false} Opening(line: seq<byte>, p: nat)
    requires p < |line| && line[p] == DQUOTE
    ensures TokenAt(line, p, Plain, []) == TokenAt(line, p + 1, InDouble, [])
  {
    var none: seq<byte> := [];
    assert none + none == none;
  }

  function Reprs(args: seq<seq<byte>>): (r: seq<seq<byte>>)
    ensures |r| == |args|
  {
    if args == [] then [] else [Repr(args[0])] + Reprs(args[1..])
  }

  /** The quoted forms, single spaces between them. */
  function Quoted(args: seq<seq<byte>>): seq<byte> {
    Join(Reprs(args), [SPACE])
  }

  lemma {:induction false} QuotedRead(line: seq<byte>, p: nat, args: seq<seq<byte>>)
    requires Shows(line, p, Quoted(args)) && p + |Quoted(args)| == |line|
    ensures ArgsFrom(line, p) == Some(args)
    decreases |args|
  {
    hide Shows, Repr, TokenAt, StepAt, Escaped, EscapedAll;
    if args != [] {
      var w := Repr(args[0]);
      var q := p + |w|;
      if |args| == 1 {
        assert Quoted(args) == w;
        ReprRead(line, p, args[0]);
        FirstArgs(line, p, args[0], q);
        assert ArgsFrom(line, q) == Some([]);
        assert [args[0]] + [] == args;
      } else {
        QuotedSplit(line, p, args);
        ReprRead(line, p, args[0]);
        FirstArgs(line, p, args[0], q);
        QuotedRead(line, q + 1, args[1..]);
        SkipsOne(line, q);
        assert [args[0]] + args[1..] == args;
      }
    }
  }

  lemma {:induction false} QuotedSplit(line: seq<byte>, p: nat, args: seq<seq<byte>>)
    requires |args| > 1 && Shows(line, p, Quoted(args))
    ensures var q := p + |Repr(args[0])|;
            && Shows(line, p, Repr(args[0])) && q < |line| && line[q] == SPACE
            && Shows(line, q + 1, Quoted(args[1..])) && q + 1 + |Quoted(args[1..])| == p + |Quoted(args)|
  {
    hide Shows, Repr;
    var w, rest := Repr(args[0]), Quoted(args[1..]);
    assert Reprs(args)[1..] == Reprs(args[1..]);
    assert Quoted(args) == w + ([SPACE] + rest);
    hide Quoted;
    ShowsSplit(line, p, w, [SPACE] + rest);
    ShowsSplit(line, p + |w|, [SPACE], rest);
    ShowsByte(line, p + |w|, SPACE);
  }

  lemma {:induction false} FirstArgs(line: seq<byte>, p: nat, text: seq<byte>, next: nat)
    requires p < |line| && line[p] == DQUOTE && next <= |line|
    requires TokenAt(line, p, Plain, []) == Token(text, next)
    ensures ArgsFrom(line, p) == Prepend([text], ArgsFrom(line, next))
  {
  }

  lemma {:induction false} SkipsOne(line: seq<byte>, q: nat)
    requires q < |line| && line[q] == SPACE
    ensures ArgsFrom(line, q) == ArgsFrom(line, q + 1)
  {
  }

  /** Every list of byte strings survives quoting and splitting. */
  lemma {:induction false} QuoteRoundTrip(args: seq<seq<byte>>)
    ensures Args(Quoted(args)) == Some(args)
  {
    assert Quoted(args)[0..0 + |Quoted(args)|] == Quoted(args);
    QuotedRead(Quoted(args), 0, args);
  }
}

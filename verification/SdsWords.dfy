/**
 Command lines byte by byte: what quoted text looks like, how every line of words is read, however the words are
 written, and which lines are refused.
 */
module SdsWords {
  import opened Bytes
  import opened SdsSplit
  import opened SdsQuote

  // ---- What is written ----

  /** Quoted text is printable: quotes and backslashes are escaped, five control bytes have letters, the rest is hex. */
  lemma {:induction false} EscapedBytes(b: byte)
    ensures b in [34, 92] ==> Escaped(b) == [92, b]
    ensures b == 10 ==> Escaped(b) == Ascii("\\n")
    ensures b == 13 ==> Escaped(b) == Ascii("\\r")
    ensures b == 9 ==> Escaped(b) == Ascii("\\t")
    ensures b == 7 ==> Escaped(b) == Ascii("\\a")
    ensures b == 8 ==> Escaped(b) == Ascii("\\b")
    ensures 32 <= b <= 126 && b !in [34, 92] ==> Escaped(b) == [b]
    ensures (b < 32 || b > 126) && b !in [7, 8, 9, 10, 13] ==>
              Escaped(b) == Ascii("\\x") + [LowerHex(b / 16), LowerHex(b % 16)]
  {
  }

  function LowerHex(v: nat): byte
    requires v < 16
  {
    Ascii("0123456789abcdef")[v]
  }

  function UpperHex(v: nat): byte
    requires v < 16
  {
    Ascii("0123456789ABCDEF")[v]
  }

  lemma {:induction false} ReprIs(s: seq<byte>, b: byte)
    ensures Repr([]) == [34, 34]
    ensures Repr(s + [b]) == Repr(s)[..|Repr(s)| - 1] + Escaped(b) + [34]
  {
    EscapedAllSnoc(s, b);
    assert Repr(s)[..|Repr(s)| - 1] == [34] + EscapedAll(s);
  }

  /** The two digits of b in hex, either of them in either case. */
  predicate HexOf(h: byte, l: byte, b: byte) {
    (h == LowerHex(b / 16) || h == UpperHex(b / 16)) && (l == LowerHex(b % 16) || l == UpperHex(b % 16))
  }

  lemma {:induction false} HexValues(h: byte, l: byte, b: byte)
    requires HexOf(h, l, b)
    ensures IsXDigit(h) && IsXDigit(l) && HexDigitToInt(h) * 16 + HexDigitToInt(l) == b
  {
    HexValue(h, b / 16);
    HexValue(l, b % 16);
  }

  lemma {:induction false} HexValue(d: byte, v: nat)
    requires v < 16 && (d == LowerHex(v) || d == UpperHex(v))
    ensures IsXDigit(d) && HexDigitToInt(d) == v
  {
  }

  /** Inside double quotes, a backslash, x and two hex digits are one byte. */
  lemma {:induction false} HexEscapes(line: seq<byte>, p: nat, current: seq<byte>, b: byte)
    requires p + 4 <= |line| && line[p] == 92 && line[p + 1] == 'x' as int && HexOf(line[p + 2], line[p + 3], b)
    ensures TokenAt(line, p, InDouble, current) == TokenAt(line, p + 4, InDouble, current + [b])
  {
    hide HexOf, IsXDigit, HexDigitToInt, TokenAt;
    HexValues(line[p + 2], line[p + 3], b);
    hide IsSpace, Closing, Unescaped;
    HexPair(line, p, b);
    StepGoesOn(line, p, InDouble, current, b, p + 4);
  }

  lemma {:induction false} HexPair(line: seq<byte>, p: nat, b: byte)
    requires p + 4 <= |line| && line[p] == 92 && line[p + 1] == 120
    requires IsXDigit(line[p + 2]) && IsXDigit(line[p + 3])
    requires HexDigitToInt(line[p + 2]) * 16 + HexDigitToInt(line[p + 3]) == b
    ensures StepAt(line, p, InDouble) == More(InDouble, [b], p + 4)
  {
    hide IsXDigit, HexDigitToInt;
  }

  /** A backslash gives five letters a meaning; any other byte behind it stands for itself. */
  lemma {:induction false} LetterEscapes(line: seq<byte>, p: nat, current: seq<byte>, c: byte)
    requires p + 2 <= |line| && line[p] == 92 && line[p + 1] == c && c != 0 && c != 'x' as int
    ensures TokenAt(line, p, InDouble, current) == TokenAt(line, p + 2, InDouble, current + [
              if c == 'n' as int then 10 else if c == 'r' as int then 13 else if c == 't' as int then 9
              else if c == 'b' as int then 8 else if c == 'a' as int then 7 else c])
  {
  }

  /** How a word may be written: unquoted bytes, and at most one quoted part behind them, which ends the word. */
  datatype Quoting = Bare | Doubles(text: seq<byte>) | Singles(text: seq<byte>)

  datatype Word = Word(plain: seq<byte>, quoting: Quoting)

  function Text(w: Word): seq<byte> {
    if w.quoting.Bare? then w.plain else w.plain + w.quoting.text
  }

  /** In single quotes only the quote itself is escaped. */
  function Single(s: seq<byte>): seq<byte> {
    if s == [] then [] else SingleByte(s[0]) + Single(s[1..])
  }

  function Written(w: Word): seq<byte> {
    match w.quoting
    case Bare => w.plain
    case Doubles(text) => w.plain + Repr(text)
    case Singles(text) => w.plain + ([39] + (Single(text) + [39]))
  }

  /** NUL, blanks and quotes cannot be written bare, nor NUL or a final backslash in single quotes. */
  predicate Writable(w: Word) {
    && (forall i :: 0 <= i < |w.plain| ==> w.plain[i] !in [0, 9, 10, 11, 12, 13, 32, 34, 39])
    && (w.quoting.Bare? ==> w.plain != [])
    && (w.quoting.Singles? ==> SingleOk(w.quoting.text))
  }

  predicate SingleOk(s: seq<byte>) {
    0 !in s && (s != [] ==> s[|s| - 1] != 92)
  }

  lemma {:induction false} PlainRead(line: seq<byte>, p: nat, s: seq<byte>, current: seq<byte>)
    requires Shows(line, p, s) && forall i :: 0 <= i < |s| ==> s[i] !in [0, 9, 10, 11, 12, 13, 32, 34, 39]
    ensures TokenAt(line, p, Plain, current) == TokenAt(line, p + |s|, Plain, current + s)
    decreases |s|
  {
    if s == [] {
      assert current + s == current;
    } else {
      assert s == [s[0]] + s[1..];
      ShowsSplit(line, p, [s[0]], s[1..]);
      ShowsByte(line, p, s[0]);
      assert StepAt(line, p, Plain) == More(Plain, [s[0]], p + 1);
      hide StepAt, Shows;
      PlainRead(line, p + 1, s[1..], current + [s[0]]);
      assert current + [s[0]] + s[1..] == current + s;
    }
  }

  lemma {:induction false} SinglesRead(line: seq<byte>, p: nat, s: seq<byte>, current: seq<byte>)
    requires Shows(line, p, Single(s) + [39]) && SingleOk(s)
    ensures p + |Single(s)| < |line| && line[p + |Single(s)|] == 39
    ensures TokenAt(line, p, InSingle, current) == TokenAt(line, p + |Single(s)|, InSingle, current + s)
    decreases |s|
  {
    hide StepAt, Shows, TokenAt, SingleOk;
    if s == [] {
      NoMore(current);
      assert Single(s) + [39] == [39];
      ShowsByte(line, p, 39);
    } else {
      var e, rest := SingleByte(s[0]), Single(s[1..]);
      SinglesSplit(line, p, s, [39]);
      SingleStep(line, p, s);
      StepGoesOn(line, p, InSingle, current, s[0], p + |e|);
      SingleRest(s);
      SinglesRead(line, p + |e|, s[1..], current + [s[0]]);
      OneMoreByte(current, s);
    }
  }

  lemma {:induction false} NoMore(current: seq<byte>)
    ensures current + [] == current
  {
  }

  lemma {:induction false} OneMoreByte(current: seq<byte>, s: seq<byte>)
    requires s != []
    ensures current + [s[0]] + s[1..] == current + s
  {
  }

  lemma {:induction false} SingleRest(s: seq<byte>)
    requires SingleOk(s) && s != []
    ensures SingleOk(s[1..])
  {
  }

  lemma {:induction false} StepGoesOn(line: seq<byte>, p: nat, mode: Mode, current: seq<byte>, b: byte, q: nat)
    requires p <= |line| && StepAt(line, p, mode) == More(mode, [b], q)
    ensures q <= |line| && TokenAt(line, p, mode, current) == TokenAt(line, q, mode, current + [b])
  {
    hide StepAt;
  }

  function SingleByte(b: byte): seq<byte> {
    if b == 39 then [92, 39] else [b]
  }

  lemma {:induction false} SinglesSplit(line: seq<byte>, p: nat, s: seq<byte>, tail: seq<byte>)
    requires s != [] && Shows(line, p, Single(s) + tail)
    ensures Single(s) == SingleByte(s[0]) + Single(s[1..])
    ensures Shows(line, p, SingleByte(s[0])) && Shows(line, p + |SingleByte(s[0])|, Single(s[1..]) + tail)
  {
    hide Shows;
    var e, rest := SingleByte(s[0]), Single(s[1..]);
    assert Single(s) + tail == e + (rest + tail);
    ShowsSplit(line, p, e, rest + tail);
  }

  lemma {:induction false} SingleStep(line: seq<byte>, p: nat, s: seq<byte>)
    requires s != [] && SingleOk(s)
    requires var e := SingleByte(s[0]);
             Shows(line, p, e) && Shows(line, p + |e|, Single(s[1..]) + [39])
    ensures var e := SingleByte(s[0]);
            p < |line| && StepAt(line, p, InSingle) == More(InSingle, [s[0]], p + |e|)
  {
    var e := SingleByte(s[0]);
    ShowsAt(line, p, e);
    assert line[p + 0] == e[0];
    ShowsAt(line, p + |e|, Single(s[1..]) + [39]);
    if s[0] == 39 {
      assert line[p + 1] == e[1];
    } else if s[0] == 92 {
      assert s[1..] != [] && s[1..] == [s[1]] + s[2..];
      assert (Single(s[1..]) + [39])[0] != 39;
      assert line[p + |e| + 0] != 39;
    }
  }

  /** Where a word ends: the line does, or a blank follows. */
  predicate EndsAt(line: seq<byte>, e: nat) {
    e == |line| || (e < |line| && line[e] in [9, 10, 13, 32])
  }

  lemma {:induction false} WordRead(line: seq<byte>, p: nat, w: Word)
    requires Shows(line, p, Written(w)) && Writable(w) && EndsAt(line, p + |Written(w)|)
    ensures p + |Written(w)| <= |line|
    ensures ArgsFrom(line, p) == Prepend([Text(w)], ArgsFrom(line, p + |Written(w)|))
  {
    hide Shows, TokenAt, StepAt, IsSpace, Prepend, ArgsFrom, Written, Writable, EndsAt, Text;
    var next := WordToken(line, p, w);
    WordStarts(line, p, w);
    ArgsStart(line, p, Text(w), next);
    if next == p + |Written(w)| + 1 {
      SkipsBlank(line, p + |Written(w)|);
    }
  }

  lemma {:induction false} WordToken(line: seq<byte>, p: nat, w: Word) returns (next: nat)
    requires Shows(line, p, Written(w)) && Writable(w) && EndsAt(line, p + |Written(w)|)
    ensures var e := p + |Written(w)|;
            && e <= next <= |line| && (next == e || (next == e + 1 && IsSpace(line[e])))
            && TokenAt(line, p, Plain, []) == Token(Text(w), next)
  {
    hide Shows, TokenAt, StepAt, Repr, Single, IsSpace, Tail, Written, SingleOk, EndsAt;
    WordParts(line, p, w);
    PlainRead(line, p, w.plain, []);
    NoPrefix(w.plain);
    next := TailRead(line, p + |w.plain|, w.quoting, w.plain);
  }

  /** The quoted part of a word. */
  function Tail(quoting: Quoting): seq<byte> {
    match quoting
    case Bare => []
    case Doubles(text) => Repr(text)
    case Singles(text) => [39] + (Single(text) + [39])
  }

  lemma {:induction false} WordParts(line: seq<byte>, p: nat, w: Word)
    requires Shows(line, p, Written(w))
    ensures |Written(w)| == |w.plain| + |Tail(w.quoting)| && p + |Written(w)| <= |line|
    ensures Shows(line, p, w.plain) && Shows(line, p + |w.plain|, Tail(w.quoting))
  {
    assert Written(w) == w.plain + Tail(w.quoting);
    ShowsSplit(line, p, w.plain, Tail(w.quoting));
  }

  lemma {:induction false} BlankIsSpace(b: byte)
    requires b in [9, 10, 13, 32]
    ensures IsSpace(b)
  {
  }

  lemma {:induction false} WordStarts(line: seq<byte>, p: nat, w: Word)
    requires Shows(line, p, Written(w)) && Writable(w)
    ensures Written(w) != [] && p < |line| && line[p] != 0 && !IsSpace(line[p])
  {
    ShowsAt(line, p, Written(w));
    assert Written(w) != [] && line[p + 0] == Written(w)[0];
    if w.plain != [] {
      assert Written(w)[0] == w.plain[0];
    }
  }

  /** The quoted part of a word, or the blank or end behind a bare one. */
  lemma {:induction false} TailRead(line: seq<byte>, q: nat, quoting: Quoting, current: seq<byte>) returns (next: nat)
    requires Shows(line, q, Tail(quoting)) && EndsAt(line, q + |Tail(quoting)|)
    requires quoting.Singles? ==> SingleOk(quoting.text)
    ensures var e := q + |Tail(quoting)|;
            && e <= next <= |line| && (next == e || (next == e + 1 && IsSpace(line[e])))
            && TokenAt(line, q, Plain, current)
            == Token(if quoting.Bare? then current else current + quoting.text, next)
  {
    hide Shows, TokenAt, StepAt, Repr, Single, SingleOk, IsSpace;
    match quoting
    case Bare =>
      next := if q < |line| then q + 1 else q;
      if q < |line| { BlankIsSpace(line[q]); }
      BareEnd(line, q, current);
    case Doubles(text) =>
      next := q + |Repr(text)|;
      ReprBody(line, q, text);
      if next < |line| { BlankIsSpace(line[next]); }
      DoubleTail(line, q, text, current);
    case Singles(text) =>
      next := q + |[39] + (Single(text) + [39])|;
      if next < |line| { BlankIsSpace(line[next]); }
      SingleTail(line, q, text, current);
  }

  lemma {:induction false} BareEnd(line: seq<byte>, q: nat, current: seq<byte>)
    requires EndsAt(line, q)
    ensures TokenAt(line, q, Plain, current) == Token(current, if q < |line| then q + 1 else q)
  {
  }

  /** A quote in unquoted text opens a quoted part. */
  lemma {:induction false} QuoteOpens(line: seq<byte>, q: nat, current: seq<byte>)
    requires q < |line| && line[q] in [34, 39]
    ensures TokenAt(line, q, Plain, current)
         == TokenAt(line, q + 1, if line[q] == 34 then InDouble else InSingle, current)
  {
    assert current + [] == current;
  }

  lemma {:induction false} DoubleTail(line: seq<byte>, q: nat, text: seq<byte>, current: seq<byte>)
    requires Shows(line, q, Repr(text))
    requires var e := q + |Repr(text)|; e == |line| || (e < |line| && IsSpace(line[e]))
    ensures TokenAt(line, q, Plain, current) == Token(current + text, q + |Repr(text)|)
  {
    hide Shows, TokenAt, StepAt, Repr, EscapedAll, IsSpace;
    ReprBody(line, q, text);
    QuoteOpens(line, q, current);
    EscapesRead(line, q + 1, text, current);
    ClosingRead(line, q + 1 + |EscapedAll(text)|, current + text);
  }

  lemma {:induction false} SingleBody(line: seq<byte>, q: nat, text: seq<byte>)
    requires Shows(line, q, [39] + (Single(text) + [39]))
    ensures q < |line| && line[q] == 39 && Shows(line, q + 1, Single(text) + [39])
    ensures |[39] + (Single(text) + [39])| == |Single(text)| + 2
  {
    hide Shows, Single;
    ShowsSplit(line, q, [39], Single(text) + [39]);
    ShowsByte(line, q, 39);
  }

  lemma {:induction false} SingleTail(line: seq<byte>, q: nat, text: seq<byte>, current: seq<byte>)
    requires Shows(line, q, [39] + (Single(text) + [39])) && SingleOk(text)
    requires var e := q + |Single(text)| + 2; e == |line| || (e < |line| && IsSpace(line[e]))
    ensures TokenAt(line, q, Plain, current) == Token(current + text, q + |Single(text)| + 2)
  {
    hide Shows, TokenAt, StepAt, Single, SingleOk, IsSpace;
    SingleBody(line, q, text);
    QuoteOpens(line, q, current);
    SinglesRead(line, q + 1, text, current);
    SingleClosing(line, q + 1 + |Single(text)|, current + text);
  }

  lemma {:induction false} SingleClosing(line: seq<byte>, q: nat, s: seq<byte>)
    requires q < |line| && line[q] == 39 && (q + 1 == |line| || IsSpace(line[q + 1]))
    ensures TokenAt(line, q, InSingle, s) == Token(s, q + 1)
  {
    assert Closing(line, q) == Ended(q + 1);
  }

  lemma {:induction false} ArgsStart(line: seq<byte>, p: nat, text: seq<byte>, next: nat)
    requires p < |line| && line[p] != 0 && !IsSpace(line[p]) && p < next <= |line|
    requires TokenAt(line, p, Plain, []) == Token(text, next)
    ensures ArgsFrom(line, p) == Prepend([text], ArgsFrom(line, next))
  {
  }

  lemma {:induction false} SkipsBlank(line: seq<byte>, q: nat)
    requires q < |line| && IsSpace(line[q])
    ensures ArgsFrom(line, q) == ArgsFrom(line, q + 1)
  {
  }

  predicate IsGap(gap: seq<byte>) {
    forall i :: 0 <= i < |gap| ==> gap[i] in [9, 10, 13, 32]
  }

  lemma {:induction false} GapRead(line: seq<byte>, p: nat, gap: seq<byte>)
    requires Shows(line, p, gap) && IsGap(gap)
    ensures p + |gap| <= |line| && ArgsFrom(line, p) == ArgsFrom(line, p + |gap|)
    decreases |gap|
  {
    if gap != [] {
      assert gap == [gap[0]] + gap[1..];
      ShowsSplit(line, p, [gap[0]], gap[1..]);
      ShowsByte(line, p, gap[0]);
      SkipsBlank(line, p);
      GapRead(line, p + 1, gap[1..]);
    }
  }

  /** Words with gaps between them, each gap in front of its word. */
  function Laid(words: seq<(seq<byte>, Word)>): seq<byte> {
    if words == [] then [] else words[0].0 + (Written(words[0].1) + Laid(words[1..]))
  }

  /** The gaps are blanks; only the first may be empty. */
  predicate WellLaid(words: seq<(seq<byte>, Word)>, first: bool) {
    words == [] ||
    (IsGap(words[0].0) && (first || words[0].0 != []) && Writable(words[0].1) && WellLaid(words[1..], false))
  }

  function Texts(words: seq<(seq<byte>, Word)>): seq<seq<byte>> {
    if words == [] then [] else [Text(words[0].1)] + Texts(words[1..])
  }

  lemma {:induction false} WordsRead(
    line: seq<byte>, p: nat, words: seq<(seq<byte>, Word)>, first: bool, tail: seq<byte>)
    requires Shows(line, p, Laid(words) + tail) && WellLaid(words, first)
    requires p + |Laid(words)| <= |line| && EndsAt(line, p + |Laid(words)|)
    ensures ArgsFrom(line, p) == Prepend(Texts(words), ArgsFrom(line, p + |Laid(words)|))
    decreases |words|
  {
    hide Shows, Written, Text, EndsAt, Prepend, ArgsFrom, IsGap, Writable;
    if words == [] {
      PrependNothing([], ArgsFrom(line, p));
    } else {
      var gap, w, rest := words[0].0, words[0].1, words[1..];
      LaidParts(line, p, words, tail);
      GapRead(line, p, gap);
      var e := p + |gap| + |Written(w)|;
      LaidStarts(line, e, rest, tail);
      WordRead(line, p + |gap|, w);
      WordsRead(line, e, rest, false, tail);
      PrependTwice(Text(w), Texts(rest), ArgsFrom(line, p + |Laid(words)|));
    }
  }

  lemma {:induction false} LaidParts(line: seq<byte>, p: nat, words: seq<(seq<byte>, Word)>, tail: seq<byte>)
    requires words != [] && Shows(line, p, Laid(words) + tail)
    ensures var gap, w, rest := words[0].0, words[0].1, words[1..];
            var e := p + |gap| + |Written(w)|;
            && Shows(line, p, gap) && Shows(line, p + |gap|, Written(w)) && Shows(line, e, Laid(rest) + tail)
            && e + |Laid(rest)| == p + |Laid(words)|
  {
    hide Shows, Written;
    var gap, w, rest := words[0].0, words[0].1, words[1..];
    var back := Laid(rest) + tail;
    assert Laid(words) + tail == gap + (Written(w) + back);
    hide Laid;
    ShowsSplit(line, p, gap, Written(w) + back);
    ShowsSplit(line, p + |gap|, Written(w), back);
  }

  lemma {:induction false} PrependTwice(text: seq<byte>, texts: seq<seq<byte>>, rest: Option<seq<seq<byte>>>)
    ensures Prepend([text], Prepend(texts, rest)) == Prepend([text] + texts, rest)
  {
    if rest.Some? {
      assert [text] + (texts + rest.value) == [text] + texts + rest.value;
    }
  }

  lemma {:induction false} LaidStarts(line: seq<byte>, e: nat, rest: seq<(seq<byte>, Word)>, tail: seq<byte>)
    requires Shows(line, e, Laid(rest) + tail) && WellLaid(rest, false)
    requires e + |Laid(rest)| <= |line| && EndsAt(line, e + |Laid(rest)|)
    ensures EndsAt(line, e)
  {
    hide Shows, Written, Writable;
    if rest != [] {
      var gap, back := rest[0].0, Written(rest[0].1) + Laid(rest[1..]);
      ShowsAt(line, e, Laid(rest) + tail);
      assert gap != [] && gap[0] in [9, 10, 13, 32];
      FirstOf(gap, back, tail);
      assert line[e + 0] == gap[0];
    }
  }

  lemma {:induction false} FirstOf(gap: seq<byte>, back: seq<byte>, tail: seq<byte>)
    requires gap != []
    ensures gap + back + tail != [] && (gap + back + tail)[0] == gap[0]
  {
  }

  /** Words written bare, in double or in single quotes, with any blanks around them, read as their texts. */
  lemma {:induction false} LinesOfWords(words: seq<(seq<byte>, Word)>, end: seq<byte>)
    requires WellLaid(words, true) && IsGap(end)
    ensures Args(Laid(words) + end) == Some(Texts(words))
  {
    hide Shows, Prepend;
    var line := Laid(words) + end;
    var q := |Laid(words)|;
    WholeLine(line);
    if end != [] {
      assert line[q] == end[0];
    }
    WordsRead(line, 0, words, true, end);
    ShowsSplit(line, 0, Laid(words), end);
    GapRead(line, q, end);
    assert ArgsFrom(line, |line|) == Some([]);
    PrependNothing(Texts(words), Some([]));
  }

  /** Unquoted words with single spaces between them. */
  lemma {:induction false} BareWords(tokens: seq<seq<byte>>)
    requires forall k :: 0 <= k < |tokens| ==>
               && tokens[k] != []
               && forall i :: 0 <= i < |tokens[k]| ==> tokens[k][i] !in [0, 9, 10, 11, 12, 13, 32, 34, 39]
    ensures Args(Join(tokens, [32])) == Some(tokens)
  {
    assert forall k :: 0 <= k < |tokens| ==> Writable(Word(tokens[k], Bare));
    var words := BareList(tokens, []);
    BareLaid(tokens, []);
    LinesOfWords(words, []);
    assert Laid(words) + [] == Laid(words);
    assert [] + Join(tokens, [32]) == Join(tokens, [32]);
  }

  function BareList(tokens: seq<seq<byte>>, gap: seq<byte>): seq<(seq<byte>, Word)> {
    if tokens == [] then [] else [(gap, Word(tokens[0], Bare))] + BareList(tokens[1..], [32])
  }

  lemma {:induction false} BareLaid(tokens: seq<seq<byte>>, gap: seq<byte>)
    requires IsGap(gap) && forall k :: 0 <= k < |tokens| ==> Writable(Word(tokens[k], Bare))
    ensures var words := BareList(tokens, gap);
            && WellLaid(words, gap == []) && Texts(words) == tokens
            && Laid(words) == if tokens == [] then [] else gap + Join(tokens, [32])
    decreases |tokens|
  {
    hide Join, Writable, IsGap;
    if tokens != [] {
      var rest, words := tokens[1..], BareList(tokens, gap);
      assert forall k :: 0 <= k < |rest| ==> rest[k] == tokens[k + 1];
      BlankGap();
      BareLaid(rest, [32]);
      assert words[1..] == BareList(rest, [32]) && words[0] == (gap, Word(tokens[0], Bare));
      JoinFront(tokens, gap);
    }
  }

  lemma {:induction false} BlankGap()
    ensures IsGap([32])
  {
  }

  lemma {:induction false} JoinFront(tokens: seq<seq<byte>>, gap: seq<byte>)
    requires tokens != []
    ensures gap + Join(tokens, [32])
         == gap + (tokens[0] + if |tokens| == 1 then [] else [32] + Join(tokens[1..], [32]))
  {
    if |tokens| == 1 {
      assert tokens[0] + [] == tokens[0];
    } else {
      assert tokens[0] + ([32] + Join(tokens[1..], [32])) == tokens[0] + [32] + Join(tokens[1..], [32]);
    }
  }

  /** Inside double quotes every byte but NUL, quote and backslash stands for itself. */
  lemma {:induction false} RawRead(line: seq<byte>, p: nat, s: seq<byte>, current: seq<byte>)
    requires Shows(line, p, s) && forall i :: 0 <= i < |s| ==> s[i] !in [0, 34, 92]
    ensures p + |s| <= |line| && TokenAt(line, p, InDouble, current) == TokenAt(line, p + |s|, InDouble, current + s)
    decreases |s|
  {
    if s == [] {
      NoMore(current);
    } else {
      assert s == [s[0]] + s[1..];
      ShowsSplit(line, p, [s[0]], s[1..]);
      ShowsByte(line, p, s[0]);
      assert StepAt(line, p, InDouble) == More(InDouble, [s[0]], p + 1);
      hide StepAt, Shows, TokenAt;
      StepGoesOn(line, p, InDouble, current, s[0], p + 1);
      RawRead(line, p + 1, s[1..], current + [s[0]]);
      OneMoreByte(current, s);
    }
  }

  /** A line that is one text in double quotes. */
  lemma {:induction false} DoubleQuotedLine(s: seq<byte>)
    requires forall i :: 0 <= i < |s| ==> s[i] !in [0, 34, 92]
    ensures Args([34] + s + [34]) == Some([s])
  {
    hide TokenAt, StepAt, Args;
    var line := [34] + s + [34];
    assert line[1..1 + |s|] == s;
    QuoteOpens(line, 0, []);
    RawRead(line, 1, s, []);
    NoPrefix(s);
    hide Shows;
    ClosingRead(line, 1 + |s|, s);
    OneArgument(line, s);
  }

  /** A line that is one text in single quotes. */
  lemma {:induction false} SingleQuotedLine(s: seq<byte>)
    requires forall i :: 0 <= i < |s| ==> s[i] !in [0, 39, 92]
    ensures Args([39] + s + [39]) == Some([s])
  {
    hide TokenAt, StepAt, Args, Single, SingleOk;
    var line := [39] + s + [39];
    SingleOfPlain(s);
    assert line[1..1 + |Single(s) + [39]|] == Single(s) + [39];
    QuoteOpens(line, 0, []);
    SinglesRead(line, 1, s, []);
    NoPrefix(s);
    hide Shows;
    SingleClosing(line, 1 + |s|, s);
    OneArgument(line, s);
  }

  lemma {:induction false} SingleOfPlain(s: seq<byte>)
    requires forall i :: 0 <= i < |s| ==> s[i] !in [0, 39, 92]
    ensures Single(s) == s && SingleOk(s)
    decreases |s|
  {
    if s != [] {
      SingleOfPlain(s[1..]);
      assert s == [s[0]] + s[1..];
    }
  }

  lemma {:induction false} OneArgument(line: seq<byte>, s: seq<byte>)
    requires line != [] && line[0] in [34, 39] && TokenAt(line, 0, Plain, []) == Token(s, |line|)
    ensures Args(line) == Some([s])
  {
    ArgsStart(line, 0, s, |line|);
    assert ArgsFrom(line, |line|) == Some([]);
    assert [s] + [] == [s];
  }

  // ---- Lines that are refused ----

  /** What cannot follow the words of a line: a quote that is not closed, or a closing quote that touches a byte. */
  datatype Flaw =
    | OpenDouble(plain: seq<byte>, text: seq<byte>)
    | OpenSingle(plain: seq<byte>, text: seq<byte>)
    | Touching(w: Word, c: byte, more: seq<byte>)

  function FlawWritten(f: Flaw): seq<byte> {
    match f
    case OpenDouble(plain, text) => plain + ([34] + EscapedAll(text))
    case OpenSingle(plain, text) => plain + ([39] + Single(text))
    case Touching(w, c, more) => Written(w) + ([c] + more)
  }

  predicate IsFlaw(f: Flaw) {
    match f
    case OpenDouble(plain, _) => Writable(Word(plain, Doubles([])))
    case OpenSingle(plain, text) => Writable(Word(plain, Singles(text)))
    case Touching(w, c, _) => Writable(w) && !w.quoting.Bare? && c != 0 && !IsSpace(c)
  }

  lemma {:induction false} OpenEscapes(line: seq<byte>, p: nat, s: seq<byte>, current: seq<byte>)
    requires Shows(line, p, EscapedAll(s)) && p + |EscapedAll(s)| == |line|
    ensures TokenAt(line, p, InDouble, current) == NoToken
    decreases |s|
  {
    if s != [] {
      ShowsSplit(line, p, Escaped(s[0]), EscapedAll(s[1..]));
      EscapeStep(line, p, s[0]);
      hide StepAt, Escaped, Shows;
      OpenEscapes(line, p + |Escaped(s[0])|, s[1..], current + [s[0]]);
    }
  }

  lemma {:induction false} OpenSingles(line: seq<byte>, p: nat, s: seq<byte>, current: seq<byte>)
    requires Shows(line, p, Single(s)) && p + |Single(s)| == |line| && SingleOk(s)
    ensures TokenAt(line, p, InSingle, current) == NoToken
    decreases |s|
  {
    hide Shows, SingleOk;
    if s != [] {
      NoMore(Single(s));
      NoMore(Single(s[1..]));
      SinglesSplit(line, p, s, []);
      OpenSingleStep(line, p, s);
      hide StepAt, TokenAt;
      StepGoesOn(line, p, InSingle, current, s[0], p + |SingleByte(s[0])|);
      SingleRest(s);
      OpenSingles(line, p + |SingleByte(s[0])|, s[1..], current + [s[0]]);
    }
  }

  lemma {:induction false} OpenSingleStep(line: seq<byte>, p: nat, s: seq<byte>)
    requires s != [] && SingleOk(s)
    requires var e := SingleByte(s[0]);
             Shows(line, p, e) && Shows(line, p + |e|, Single(s[1..]))
    ensures var e := SingleByte(s[0]);
            p < |line| && StepAt(line, p, InSingle) == More(InSingle, [s[0]], p + |e|)
  {
    var e := SingleByte(s[0]);
    ShowsAt(line, p, e);
    assert line[p + 0] == e[0];
    ShowsAt(line, p + |e|, Single(s[1..]));
    if s[0] == 39 {
      assert line[p + 1] == e[1];
    } else if s[0] == 92 {
      assert s[1..] != [] && s[1..] == [s[1]] + s[2..];
      assert Single(s[1..])[0] != 39;
      assert line[p + |e| + 0] != 39;
    }
  }

  /** What follows the unquoted bytes of a flaw. */
  function FlawTail(f: Flaw): seq<byte> {
    match f
    case OpenDouble(_, text) => [34] + EscapedAll(text)
    case OpenSingle(_, text) => [39] + Single(text)
    case Touching(w, c, more) => Tail(w.quoting) + ([c] + more)
  }

  function FlawPlain(f: Flaw): seq<byte> {
    if f.Touching? then f.w.plain else f.plain
  }

  lemma {:induction false} FlawParts(line: seq<byte>, p: nat, f: Flaw)
    requires Shows(line, p, FlawWritten(f)) && IsFlaw(f)
    ensures p < |line| && line[p] != 0 && !IsSpace(line[p])
    ensures |FlawWritten(f)| == |FlawPlain(f)| + |FlawTail(f)|
    ensures Shows(line, p, FlawPlain(f)) && Shows(line, p + |FlawPlain(f)|, FlawTail(f))
  {
    hide Shows, EscapedAll, Single, Repr, IsSpace, IsFlaw, FlawTail;
    FlawJoined(f);
    FlawStarts(f);
    ShowsAt(line, p, FlawWritten(f));
    assert line[p + 0] == FlawWritten(f)[0];
    hide FlawWritten;
    ShowsSplit(line, p, FlawPlain(f), FlawTail(f));
  }

  lemma {:induction false} FlawJoined(f: Flaw)
    requires IsFlaw(f)
    ensures FlawWritten(f) == FlawPlain(f) + FlawTail(f)
  {
    hide EscapedAll, Single, Repr, Writable, IsSpace;
    if f.Touching? {
      var tail, more := Tail(f.w.quoting), [f.c] + f.more;
      assert Written(f.w) == f.w.plain + tail;
      assert f.w.plain + tail + more == f.w.plain + (tail + more);
    }
  }

  lemma {:induction false} FlawStarts(f: Flaw)
    requires IsFlaw(f)
    ensures FlawWritten(f) != [] && FlawWritten(f)[0] != 0 && !IsSpace(FlawWritten(f)[0])
  {
    hide EscapedAll, Single;
    FlawJoined(f);
    if FlawPlain(f) != [] {
      assert FlawWritten(f)[0] == FlawPlain(f)[0];
    } else {
      assert FlawTail(f)[0] in [34, 39];
    }
  }

  lemma {:induction false} FlawRead(line: seq<byte>, p: nat, f: Flaw)
    requires Shows(line, p, FlawWritten(f)) && IsFlaw(f) && p + |FlawWritten(f)| == |line|
    ensures p < |line| && line[p] != 0 && !IsSpace(line[p]) && TokenAt(line, p, Plain, []) == NoToken
  {
    hide Shows, TokenAt, StepAt, FlawWritten, IsSpace, Repr, Single, EscapedAll, SingleOk;
    var plain := FlawPlain(f);
    var q := p + |plain|;
    FlawParts(line, p, f);
    PlainRead(line, p, plain, []);
    NoPrefix(plain);
    match f
    case OpenDouble(_, text) => OpenDoubleRead(line, q, text, plain);
    case OpenSingle(_, text) => OpenSingleRead(line, q, text, plain);
    case Touching(w, c, more) => TouchingRead(line, q, w, c, more, plain);
  }

  lemma {:induction false} OpenDoubleRead(line: seq<byte>, q: nat, text: seq<byte>, plain: seq<byte>)
    requires Shows(line, q, FlawTail(OpenDouble(plain, text))) && q + 1 + |EscapedAll(text)| == |line|
    ensures TokenAt(line, q, Plain, plain) == NoToken
  {
    hide Shows, TokenAt, StepAt, EscapedAll;
    ShowsSplit(line, q, [34], EscapedAll(text));
    ShowsByte(line, q, 34);
    QuoteOpens(line, q, plain);
    OpenEscapes(line, q + 1, text, plain);
  }

  lemma {:induction false} OpenSingleRead(line: seq<byte>, q: nat, text: seq<byte>, plain: seq<byte>)
    requires Shows(line, q, FlawTail(OpenSingle(plain, text))) && q + 1 + |Single(text)| == |line| && SingleOk(text)
    ensures TokenAt(line, q, Plain, plain) == NoToken
  {
    hide Shows, TokenAt, StepAt, Single, SingleOk;
    ShowsSplit(line, q, [39], Single(text));
    ShowsByte(line, q, 39);
    QuoteOpens(line, q, plain);
    OpenSingles(line, q + 1, text, plain);
  }

  lemma {:induction false} TouchingRead(line: seq<byte>, q: nat, w: Word, c: byte, more: seq<byte>, plain: seq<byte>)
    requires IsFlaw(Touching(w, c, more)) && Shows(line, q, FlawTail(Touching(w, c, more)))
    ensures TokenAt(line, q, Plain, plain) == NoToken
  {
    hide Shows, TokenAt, StepAt, Repr, Single, SingleOk, EscapedAll, IsSpace;
    var text, tail := w.quoting.text, Tail(w.quoting);
    ShowsSplit(line, q, tail, [c] + more);
    ShowsSplit(line, q + |tail|, [c], more);
    ShowsByte(line, q + |tail|, c);
    if w.quoting.Doubles? {
      ReprBody(line, q, text);
      QuoteOpens(line, q, plain);
      EscapesRead(line, q + 1, text, plain);
      BadClosing(line, q + 1 + |EscapedAll(text)|, InDouble, plain + text);
    } else {
      SingleBody(line, q, text);
      QuoteOpens(line, q, plain);
      SinglesRead(line, q + 1, text, plain);
      BadClosing(line, q + 1 + |Single(text)|, InSingle, plain + text);
    }
  }

  lemma {:induction false} BadClosing(line: seq<byte>, q: nat, mode: Mode, s: seq<byte>)
    requires q + 1 < |line| && line[q + 1] != 0 && !IsSpace(line[q + 1])
    requires (mode == InDouble && line[q] == 34) || (mode == InSingle && line[q] == 39)
    ensures TokenAt(line, q, mode, s) == NoToken
  {
    assert Closing(line, q) == Failed;
  }

  /** Words followed by a flaw are refused as a whole. */
  lemma {:induction false} FlawedLines(words: seq<(seq<byte>, Word)>, gap: seq<byte>, f: Flaw)
    requires WellLaid(words, true) && IsGap(gap) && (words == [] || gap != []) && IsFlaw(f)
    ensures Args(Laid(words) + (gap + FlawWritten(f))) == None
  {
    hide Shows, FlawWritten, TokenAt, Laid, Prepend, IsFlaw, IsSpace, WellLaid, ArgsFrom;
    var tail := gap + FlawWritten(f);
    var line, q := Laid(words) + tail, |Laid(words)|;
    WholeLine(line);
    ShowsSplit(line, 0, Laid(words), tail);
    ShowsSplit(line, q, gap, FlawWritten(f));
    GapRead(line, q, gap);
    FlawRead(line, q + |gap|, f);
    NoTokenNoArgs(line, q + |gap|);
    if words != [] {
      assert line[q] == gap[0];
      WordsRead(line, 0, words, true, tail);
      PrependNone(Texts(words));
    } else {
      EmptyLaid();
    }
  }

  lemma {:induction false} WholeLine(line: seq<byte>)
    ensures Shows(line, 0, line)
  {
    assert line[0..0 + |line|] == line;
  }

  lemma {:induction false} NoTokenNoArgs(line: seq<byte>, p: nat)
    requires p < |line| && line[p] != 0 && !IsSpace(line[p]) && TokenAt(line, p, Plain, []) == NoToken
    ensures ArgsFrom(line, p) == None
  {
    hide TokenAt;
  }

  lemma {:induction false} PrependNone(front: seq<seq<byte>>)
    ensures Prepend(front, None) == None
  {
  }

  lemma {:induction false} EmptyLaid()
    ensures Laid([]) == []
  {
  }
}

/**
 The language the reader accepts, byte by byte: what every item means, and which items are errors.  All tags, digits
 and line ends are literal bytes here, so these laws say what the parser computes without naming its parts.
 */
module RespGrammar {
  import opened Bytes
  import opened IntegerCodec
  import opened Resp

  /** No CR LF inside the line. */
  predicate NoLineEnd(line: seq<byte>) {
    forall j :: 0 <= j && j + 1 < |line| ==> !(line[j] == 13 && line[j + 1] == 10)
  }

  predicate IsTag(tag: byte) {
    tag in [36, 61, 42, 37, 126, 62, 43, 45, 58, 44, 95, 35]
  }

  /** The line is the decimal string of the 64-bit value n. */
  predicate Says(line: seq<byte>, n: int) {
    -0x8000_0000_0000_0000 <= n <= 0x7FFF_FFFF_FFFF_FFFF && line == Decimal(n)
  }

  ghost predicate SaysNothing(line: seq<byte>) {
    forall n :: !Says(line, n)
  }

  lemma {:induction false} OneLineIs(line: seq<byte>)
    ensures OneLine(line) <==> NoLineEnd(line)
  {
    if NoLineEnd(line) {
      forall j | 0 <= j < |line| ensures !LineEndAt(line + [CR], j) {
        if j + 1 < |line| {
          assert (line + [CR])[j + 1] == line[j + 1];
        }
      }
    }
    if OneLine(line) {
      forall j | 0 <= j && j + 1 < |line| ensures !(line[j] == 13 && line[j + 1] == 10) {
        assert !LineEndAt(line + [CR], j);
        assert (line + [CR])[j] == line[j] && (line + [CR])[j + 1] == line[j + 1];
      }
    }
  }

  lemma {:induction false} SaysIs(line: seq<byte>)
    ensures ParseLL(line) == None <==> SaysNothing(line)
    ensures forall n :: Says(line, n) <==> ParseLL(line) == Some(n)
  {
    forall n ensures Says(line, n) <==> ParseLL(line) == Some(n) {
      ParseLLExact(line, n);
    }
    if ParseLL(line).Some? {
      assert Says(line, ParseLL(line).value);
    }
  }

  /** An item begins with a tag and a line; the rest is decided by both. */
  lemma {:induction false} HeaderRead(strtod: Strtod, inPush: bool, tag: byte, line: seq<byte>, ext: seq<byte>)
    requires NoLineEnd(line) && TypeOf(tag).Some?
    ensures var t, b := TypeOf(tag).value, ([tag] + line + [13, 10]) + ext;
            && ParseItem(strtod, inPush, b) == ParseTyped(strtod, t, inPush, b[1..])
            && (t.TString? || t.TVerb? ==> ReadHead(strtod, t, inPush, b[1..]) == BulkHead(t.TVerb?, inPush, line, ext))
            && (t.TAggregate? ==> ReadHead(strtod, t, inPush, b[1..]) == AggregateHead(t.kind, inPush, line, ext))
            && (!t.TString? && !t.TVerb? && !t.TAggregate? ==>
                  ReadHead(strtod, t, inPush, b[1..]) == LineHead(strtod, t, inPush, line, ext))
  {
    OneLineIs(line);
    assert ([tag] + line + [13, 10]) == Line(tag, line);
    ReadEncodedLine(strtod, inPush, tag, line, ext);
  }

  function HeadOf(strtod: Strtod, inPush: bool, tag: byte, line: seq<byte>, ext: seq<byte>): Head
    requires TypeOf(tag).Some?
  {
    match TypeOf(tag).value
    case TString => BulkHead(false, inPush, line, ext)
    case TVerb => BulkHead(true, inPush, line, ext)
    case TAggregate(kind) => AggregateHead(kind, inPush, line, ext)
    case t => LineHead(strtod, t, inPush, line, ext)
  }

  lemma {:induction false} HeaderVerdict(strtod: Strtod, inPush: bool, tag: byte, line: seq<byte>, ext: seq<byte>)
    requires NoLineEnd(line) && TypeOf(tag).Some?
    ensures match HeadOf(strtod, inPush, tag, line, ext)
            case NeedMore => ParseItem(strtod, inPush, ([tag] + line + [13, 10]) + ext) == Incomplete
            case Fail(e) => ParseItem(strtod, inPush, ([tag] + line + [13, 10]) + ext) == Bad(e)
            case Leaf(v, rest) => ParseItem(strtod, inPush, ([tag] + line + [13, 10]) + ext) == Done(v, rest)
            case Open(_, _, _) => true
  {
    HeaderRead(strtod, inPush, tag, line, ext);
    hide BulkHead, AggregateHead, LineHead, ParseItem, ReadHead, TypeOf, ParseItems, NoLineEnd;
  }

  // ---- No item yet, or no item at all ----

  /** Without a whole header line nothing is decided; a byte that is no tag is an error. */
  lemma {:induction false} BeforeTheLine(strtod: Strtod, inPush: bool, tag: byte, b: seq<byte>)
    ensures ParseItem(strtod, inPush, []) == Incomplete
    ensures !IsTag(tag) ==> ParseItem(strtod, inPush, [tag] + b) == Bad(TypeByte(tag))
    ensures IsTag(tag) && NoLineEnd(b) ==> ParseItem(strtod, inPush, [tag] + b) == Incomplete
  {
    assert ([tag] + b)[1..] == b;
    if NoLineEnd(b) {
      assert FindCRLF(b) == None;
    }
  }

  // ---- Items of one line ----

  lemma {:induction false} TextItems(strtod: Strtod, inPush: bool, line: seq<byte>, ext: seq<byte>)
    requires NoLineEnd(line)
    ensures ParseItem(strtod, inPush, ([43] + line + [13, 10]) + ext) == Done(Status(line), ext)
    ensures ParseItem(strtod, inPush, ([45] + line + [13, 10]) + ext) == Done(Error(line), ext)
  {
    hide ParseItem, ParseTyped, ReadHead, ParseItems, NoLineEnd;
    HeaderVerdict(strtod, inPush, 43, line, ext);
    HeaderVerdict(strtod, inPush, 45, line, ext);
  }

  lemma {:induction false} IntegerItems(strtod: Strtod, inPush: bool, line: seq<byte>, ext: seq<byte>)
    requires NoLineEnd(line)
    ensures forall n :: Says(line, n) ==>
              ParseItem(strtod, inPush, ([58] + line + [13, 10]) + ext) == Done(Integer(n), ext)
    ensures SaysNothing(line) ==> ParseItem(strtod, inPush, ([58] + line + [13, 10]) + ext) == Bad(BadInteger)
  {
    hide ParseItem, ParseTyped, ReadHead, ParseItems, NoLineEnd, ParseLL;
    HeaderVerdict(strtod, inPush, 58, line, ext);
    SaysIs(line);
  }

  /** A nil line may hold anything; neither nil nor bool may sit directly inside a push. */
  lemma {:induction false} NilAndBoolItems(strtod: Strtod, inPush: bool, line: seq<byte>, ext: seq<byte>)
    requires NoLineEnd(line)
    ensures ParseItem(strtod, inPush, ([95] + line + [13, 10]) + ext) == if inPush then Bad(Aborted) else Done(Nil, ext)
    ensures var truth := line != [] && (line[0] == 't' as int || line[0] == 'T' as int);
            ParseItem(strtod, inPush, ([35] + line + [13, 10]) + ext)
            == if inPush then Bad(Aborted) else Done(Bool(truth), ext)
  {
    hide ParseItem, ParseTyped, ReadHead, ParseItems, NoLineEnd;
    HeaderVerdict(strtod, inPush, 95, line, ext);
    HeaderVerdict(strtod, inPush, 35, line, ext);
  }

  /** The text strtod sees: up to the first NUL. */
  predicate SeenAs(line: seq<byte>, text: seq<byte>) {
    0 !in text && |text| <= |line| && line[..|text|] == text && (|text| == |line| || line[|text|] == 0)
  }

  predicate SameText(text: seq<byte>, lower: seq<byte>) {
    |text| == |lower| && forall i :: 0 <= i < |text| ==> SameLetter(text[i], lower[i])
  }

  /** What counts as a double: what strtod accepts, and the two spellings the code looks for. */
  predicate DoubleText(strtod: Strtod, text: seq<byte>) {
    SameText(text, Ascii(",inf")) || SameText(text, Ascii(",-inf")) || (text != [] && strtod(text))
  }

  lemma {:induction false} DoubleItems(strtod: Strtod, inPush: bool, line: seq<byte>, text: seq<byte>, ext: seq<byte>)
    requires NoLineEnd(line) && SeenAs(line, text)
    ensures ParseItem(strtod, inPush, ([44] + line + [13, 10]) + ext)
         == if |line| >= 326 then Bad(DoubleTooLarge)
            else if !DoubleText(strtod, text) then Bad(BadDouble)
            else if inPush then Bad(Aborted)
            else Done(Double(line), ext)
  {
    hide ParseItem, ParseTyped, ReadHead, ParseItems, NoLineEnd, CString, Lower, SeenAs;
    HeaderVerdict(strtod, inPush, 44, line, ext);
    SeenIs(line, text);
    LowerIs(text, COMMA_INF, ",inf");
    LowerIs(text, COMMA_MINUS_INF, ",-inf");
  }

  lemma {:induction false} SeenIs(line: seq<byte>, text: seq<byte>)
    requires SeenAs(line, text)
    ensures CString(line) == text
    decreases |text|
  {
    if text != [] {
      assert line[0] == text[0];
      assert line[1..][..|text| - 1] == text[1..];
      SeenIs(line[1..], text[1..]);
    }
  }

  lemma {:induction false} LowerIs(text: seq<byte>, lit: seq<byte>, word: string)
    requires forall i :: 0 <= i < |word| ==> word[i] as int < 128
    requires lit == Ascii(word) && forall i :: 0 <= i < |lit| ==> !(65 <= lit[i] <= 90)
    ensures Lower(text) == lit <==> SameText(text, lit)
  {
    if SameText(text, lit) {
      assert forall i :: 0 <= i < |text| ==> Lower(text)[i] == lit[i];
    }
    if Lower(text) == lit {
      forall i | 0 <= i < |text| ensures SameLetter(text[i], lit[i]) {
        assert Lower(text)[i] == lit[i];
      }
    }
  }

  // ---- Bulk items ----

  /** A length of -1 is nil for each of these six tags. */
  predicate NilTag(tag: byte) {
    tag in [36, 61, 42, 37, 126, 62]
  }

  lemma {:induction false} NilLengths(strtod: Strtod, inPush: bool, tag: byte, ext: seq<byte>)
    requires NilTag(tag)
    ensures ParseItem(strtod, inPush, [tag, 45, 49, 13, 10] + ext) == if inPush then Bad(Aborted) else Done(Nil, ext)
  {
    var line: seq<byte> := [45, 49];
    MinusOne();
    SaysIs(line);
    assert ([tag] + line + [13, 10]) == [tag, 45, 49, 13, 10];
    hide ParseItem, ParseTyped, ReadHead, ParseItems, ParseLL;
    HeaderVerdict(strtod, inPush, tag, line, ext);
  }

  lemma {:induction false} MinusOne()
    ensures Says([45, 49], -1)
  {
    DecimalBytes(-1);
    DecimalBytes(1);
  }

  /** The two bytes behind the payload are not looked at. */
  lemma {:induction false} BulkItems(strtod: Strtod, inPush: bool, line: seq<byte>, n: int, rest: seq<byte>)
    requires NoLineEnd(line) && Says(line, n)
    ensures ParseItem(strtod, inPush, ([36] + line + [13, 10]) + rest)
         == if n < -1 then Bad(BulkLengthOutOfRange)
            else if n == -1 then (if inPush then Bad(Aborted) else Done(Nil, rest))
            else if |rest| < n + 2 then Incomplete
            else Done(Str(rest[..n]), rest[n + 2..])
  {
    SaysIs(line);
    hide ParseItem, ParseTyped, ReadHead, ParseItems, ParseLL, NoLineEnd, Says;
    HeaderVerdict(strtod, inPush, 36, line, rest);
  }

  lemma {:induction false} VerbatimItems(strtod: Strtod, inPush: bool, line: seq<byte>, n: int, rest: seq<byte>)
    requires NoLineEnd(line) && Says(line, n)
    ensures ParseItem(strtod, inPush, ([61] + line + [13, 10]) + rest)
         == if n < -1 then Bad(BulkLengthOutOfRange)
            else if n == -1 then (if inPush then Bad(Aborted) else Done(Nil, rest))
            else if |rest| < n + 2 then Incomplete
            else if n < 4 || rest[3] != ':' as int then Bad(BadVerbatim)
            else Done(Verb(rest[..3], rest[4..n]), rest[n + 2..])
  {
    SaysIs(line);
    hide ParseItem, ParseTyped, ReadHead, ParseItems, ParseLL, NoLineEnd, Says;
    HeaderVerdict(strtod, inPush, 61, line, rest);
  }

  lemma {:induction false} BadLengths(strtod: Strtod, inPush: bool, tag: byte, line: seq<byte>, rest: seq<byte>)
    requires NoLineEnd(line) && SaysNothing(line) && NilTag(tag)
    ensures ParseItem(strtod, inPush, ([tag] + line + [13, 10]) + rest)
         == Bad(if tag == 36 || tag == 61 then BadBulkLength else BadMultiBulkLength)
  {
    SaysIs(line);
    hide ParseItem, ParseTyped, ReadHead, ParseItems, ParseLL, NoLineEnd, SaysNothing;
    HeaderVerdict(strtod, inPush, tag, line, rest);
  }

  // ---- Aggregates ----

  function KindOf(tag: byte): Kind {
    if tag == 42 then Array else if tag == 37 then Map else if tag == 126 then Set else Push
  }

  /** b begins with the items vs, one after the other, and rest follows. */
  ghost predicate Reads(strtod: Strtod, inPush: bool, b: seq<byte>, vs: seq<Reply>, rest: seq<byte>)
    decreases |vs|
  {
    if vs == [] then rest == b
    else
      var r := ParseItem(strtod, inPush, b);
      r.Done? && r.v == vs[0] && Reads(strtod, inPush, r.rest, vs[1..], rest)
  }

  /** After the items vs, which are fewer than n, stands an item with the verdict r. */
  ghost predicate StopsAt(strtod: Strtod, inPush: bool, n: nat, b: seq<byte>, r: Parse)
    decreases n
  {
    n > 0 &&
    var first := ParseItem(strtod, inPush, b);
    if first.Done? then StopsAt(strtod, inPush, n - 1, first.rest, r) else first == r
  }

  lemma {:induction false} ItemsAre(strtod: Strtod, inPush: bool, n: nat, b: seq<byte>)
    ensures forall vs, rest ::
              ParseItems(strtod, inPush, n, b) == DoneMany(vs, rest)
              <==> |vs| == n && Reads(strtod, inPush, b, vs, rest)
    ensures forall e :: ParseItems(strtod, inPush, n, b) == BadMany(e) <==> StopsAt(strtod, inPush, n, b, Bad(e))
    ensures ParseItems(strtod, inPush, n, b) == IncompleteMany <==> StopsAt(strtod, inPush, n, b, Incomplete)
    decreases n
  {
    if n > 0 {
      var r := ParseItem(strtod, inPush, b);
      if r.Done? {
        ItemsAre(strtod, inPush, n - 1, r.rest);
      }
      forall vs, rest
        ensures ParseItems(strtod, inPush, n, b) == DoneMany(vs, rest)
                <==> |vs| == n && Reads(strtod, inPush, b, vs, rest)
      {
        OneItemMore(strtod, inPush, n, b, vs, rest);
      }
    }
  }

  lemma {:induction false} OneItemMore(
    strtod: Strtod, inPush: bool, n: nat, b: seq<byte>, vs: seq<Reply>, rest: seq<byte>)
    requires n > 0
    requires var r := ParseItem(strtod, inPush, b);
             r.Done? ==> forall ws, rest' ::
               ParseItems(strtod, inPush, n - 1, r.rest) == DoneMany(ws, rest') <==>
               |ws| == n - 1 && Reads(strtod, inPush, r.rest, ws, rest')
    ensures ParseItems(strtod, inPush, n, b) == DoneMany(vs, rest) <==> |vs| == n && Reads(strtod, inPush, b, vs, rest)
  {
    var r := ParseItem(strtod, inPush, b);
    hide ParseItem;
    if r.Done? && |vs| == n && r.v == vs[0] {
      assert vs == [r.v] + vs[1..];
    }
    if r.Done? && ParseItems(strtod, inPush, n, b) == DoneMany(vs, rest) {
      var m := ParseItems(strtod, inPush, n - 1, r.rest);
      assert m.DoneMany? && vs == [r.v] + m.vs && vs[1..] == m.vs;
    }
  }

  /** The count of a map counts pairs; the limit is on the count as written. */
  lemma {:induction false} AggregateItems(
    strtod: Strtod, inPush: bool, tag: byte, line: seq<byte>, n: int, b: seq<byte>)
    requires NoLineEnd(line) && Says(line, n) && tag in [42, 37, 126, 62]
    ensures var r := ParseItem(strtod, inPush, ([tag] + line + [13, 10]) + b);
            if n < -1 || n > 0xFFFF_FFFF then r == Bad(MultiBulkLengthOutOfRange)
            else if n == -1 then r == (if inPush then Bad(Aborted) else Done(Nil, b))
            else IsAggregateOf(strtod, tag, if tag == 37 then 2 * n else n, b, r)
  {
    hide ParseItem, ParseTyped, ReadHead, ParseItems, ParseLL, NoLineEnd, SaysNothing, IsAggregateOf;
    SaysIs(line);
    hide Says;
    if 0 <= n <= 0xFFFF_FFFF {
      AggregateInRange(strtod, inPush, tag, line, n, b);
    } else {
      HeaderVerdict(strtod, inPush, tag, line, b);
    }
  }

  lemma {:induction false} AggregateInRange(
    strtod: Strtod, inPush: bool, tag: byte, line: seq<byte>, n: nat, b: seq<byte>)
    requires NoLineEnd(line) && ParseLL(line) == Some(n) && tag in [42, 37, 126, 62] && n <= 0xFFFF_FFFF
    ensures IsAggregateOf(
              strtod, tag, if tag == 37 then 2 * n else n, b, ParseItem(strtod, inPush, ([tag] + line + [13, 10]) + b))
  {
    hide ParseItem, ParseTyped, ReadHead, ParseItems, ParseLL, NoLineEnd, IsAggregateOf;
    HeadInRange(inPush, tag, line, n, b);
    hide TypeOf, AggregateHead, BulkHead, LineHead, KindOf;
    HeaderRead(strtod, inPush, tag, line, b);
    AggregateVerdict(strtod, inPush, tag, if tag == 37 then 2 * n else n, (([tag] + line + [13, 10]) + b)[1..], b);
  }

  lemma {:induction false} HeadInRange(inPush: bool, tag: byte, line: seq<byte>, n: nat, rest: seq<byte>)
    requires ParseLL(line) == Some(n) && tag in [42, 37, 126, 62] && n <= 0xFFFF_FFFF
    ensures TypeOf(tag) == Some(TAggregate(KindOf(tag)))
    ensures AggregateHead(KindOf(tag), inPush, line, rest)
         == if n == 0 then Leaf(Aggregate(KindOf(tag), []), rest)
            else Open(KindOf(tag), if tag == 37 then 2 * n else n, rest)
  {
  }

  /** r is the verdict on k items in a row, gathered in an aggregate of the tag's kind. */
  ghost predicate IsAggregateOf(strtod: Strtod, tag: byte, k: nat, b: seq<byte>, r: Parse) {
    && (forall v, rest :: r == Done(v, rest) <==>
          v.Aggregate? && v.kind == KindOf(tag) && |v.elements| == k && Reads(strtod, tag == 62, b, v.elements, rest))
    && (forall e :: r == Bad(e) <==> StopsAt(strtod, tag == 62, k, b, Bad(e)))
    && (r == Incomplete <==> StopsAt(strtod, tag == 62, k, b, Incomplete))
  }

  lemma {:induction false} AggregateVerdict(
    strtod: Strtod, inPush: bool, tag: byte, k: nat, b: seq<byte>, rest: seq<byte>)
    requires tag in [42, 37, 126, 62]
    requires ReadHead(strtod, TAggregate(KindOf(tag)), inPush, b)
          == if k == 0 then Leaf(Aggregate(KindOf(tag), []), rest) else Open(KindOf(tag), k, rest)
    ensures IsAggregateOf(strtod, tag, k, rest, ParseTyped(strtod, TAggregate(KindOf(tag)), inPush, b))
  {
    ItemsAre(strtod, tag == 62, k, rest);
    EmptyItems(strtod, tag == 62, rest);
    hide ReadHead, ParseItems, Reads, StopsAt;
    var r, m := ParseTyped(strtod, TAggregate(KindOf(tag)), inPush, b), ParseItems(strtod, tag == 62, k, rest);
    assert r == match m
                case IncompleteMany => Incomplete
                case BadMany(e) => Bad(e)
                case DoneMany(vs, after) => Done(Aggregate(KindOf(tag), vs), after);
    hide ParseTyped;
    forall v, after
      ensures r == Done(v, after) <==>
              && v.Aggregate? && v.kind == KindOf(tag) && |v.elements| == k
              && Reads(strtod, tag == 62, rest, v.elements, after)
    {
      if v.Aggregate? {
        assert m == DoneMany(v.elements, after)
          <==> |v.elements| == k && Reads(strtod, tag == 62, rest, v.elements, after);
      }
    }
  }

  // ---- Nil ----

  /** What spells nil: a nil line, or one of six tags with length -1. */
  ghost predicate SpellsNil(b: seq<byte>, rest: seq<byte>) {
    || (exists tag: byte :: NilTag(tag) && b == [tag, 45, 49, 13, 10] + rest)
    || (exists line: seq<byte> :: NoLineEnd(line) && b == ([95] + line + [13, 10]) + rest)
  }

  lemma {:induction false} NilIff(strtod: Strtod, inPush: bool, b: seq<byte>, rest: seq<byte>)
    ensures ParseItem(strtod, inPush, b) == Done(Nil, rest) <==> !inPush && SpellsNil(b, rest)
  {
    if tag: byte :| NilTag(tag) && b == [tag, 45, 49, 13, 10] + rest {
      NilLengths(strtod, inPush, tag, rest);
    } else if line: seq<byte> :| NoLineEnd(line) && b == ([95] + line + [13, 10]) + rest {
      NilAndBoolItems(strtod, inPush, line, rest);
    }
    if ParseItem(strtod, inPush, b) == Done(Nil, rest) {
      OnlyNil(strtod, inPush, b, rest);
    }
  }

  lemma {:induction false} OnlyNil(strtod: Strtod, inPush: bool, b: seq<byte>, rest: seq<byte>)
    requires ParseItem(strtod, inPush, b) == Done(Nil, rest)
    ensures !inPush && SpellsNil(b, rest)
  {
    var t, c := TypeOf(b[0]).value, b[1..];
    var i := FindCRLF(c).value;
    var line, after := c[..i], c[i + 2..];
    HeaderSplit(b, i);
    hide ParseTyped, ReadHead, ParseItems, NoLineEnd, HeadOf, ParseLL;
    assert ParseTyped(strtod, t, inPush, c) == Done(Nil, rest);
    hide ParseItem;
    NilIsLeaf(strtod, t, inPush, c, rest);
    assert HeadOf(strtod, inPush, b[0], line, after) == Leaf(Nil, rest) by {
      HeadIs(strtod, inPush, b[0], line, after, c);
    }
    NilHeads(strtod, inPush, b[0], line, after, rest);
    if t == TNil {
      assert b == ([95] + line + [13, 10]) + rest;
    } else {
      ParseLLExact(line, -1);
      MinusOne();
      assert line == [45, 49] && after == rest;
      assert b == [b[0], 45, 49, 13, 10] + rest;
      assert NilTag(b[0]);
    }
  }

  lemma {:induction false} NilIsLeaf(strtod: Strtod, t: ItemType, inPush: bool, c: seq<byte>, rest: seq<byte>)
    requires ParseTyped(strtod, t, inPush, c) == Done(Nil, rest)
    ensures ReadHead(strtod, t, inPush, c) == Leaf(Nil, rest)
  {
    hide ReadHead, ParseItems;
  }

  lemma {:induction false} HeadIs(
    strtod: Strtod, inPush: bool, tag: byte, line: seq<byte>, ext: seq<byte>, c: seq<byte>)
    requires NoLineEnd(line) && TypeOf(tag).Some? && [tag] + c == ([tag] + line + [13, 10]) + ext
    ensures HeadOf(strtod, inPush, tag, line, ext) == ReadHead(strtod, TypeOf(tag).value, inPush, c)
  {
    hide ParseItem, ParseTyped, ReadHead, AggregateHead, BulkHead, LineHead, TypeOf, NoLineEnd;
    HeaderRead(strtod, inPush, tag, line, ext);
    assert ([tag] + c)[1..] == c;
  }

  lemma {:induction false} NilHeads(
    strtod: Strtod, inPush: bool, tag: byte, line: seq<byte>, ext: seq<byte>, rest: seq<byte>)
    requires TypeOf(tag).Some? && HeadOf(strtod, inPush, tag, line, ext) == Leaf(Nil, rest)
    ensures !inPush && rest == ext && (tag == 95 || (NilTag(tag) && ParseLL(line) == Some(-1)))
    ensures tag == 95 <==> TypeOf(tag) == Some(TNil)
  {
    hide ParseLL, DoubleOk;
  }

  lemma {:induction false} HeaderSplit(b: seq<byte>, i: nat)
    requires b != [] && FindCRLF(b[1..]) == Some(i)
    ensures NoLineEnd(b[1..][..i]) && b == ([b[0]] + b[1..][..i] + [13, 10]) + b[1..][i + 2..]
  {
    var c := b[1..];
    var line := c[..i];
    forall j | 0 <= j && j + 1 < |line| ensures !(line[j] == 13 && line[j + 1] == 10) {
      assert !LineEndAt(c, j);
    }
    assert c == line + [13, 10] + c[i + 2..];
    assert b == [b[0]] + c;
  }

  /** Every input is one of these: too short, no tag, or a tag with a whole line, which the laws above decide. */
  lemma {:induction false} EveryInput(b: seq<byte>)
    ensures || b == []
            || !IsTag(b[0])
            || NoLineEnd(b[1..])
            || exists line: seq<byte>, rest: seq<byte> :: NoLineEnd(line) && b == ([b[0]] + line + [13, 10]) + rest
  {
    if b != [] && !NoLineEnd(b[1..]) {
      var c := b[1..];
      var j :| 0 <= j && j + 1 < |c| && c[j] == 13 && c[j + 1] == 10;
      assert LineEndAt(c, j);
      HeaderSplit(b, FindCRLF(c).value);
    }
  }
}

/**
 What the reader accepts, as a recursive parser over the bytes received so far, and the
 serialiser it inverts.  The accepted language is the code's, not the stricter one of the RESP3
 specification: the two bytes after a bulk payload are skipped unread, the contents of a nil line are
 ignored, and length -1 denotes nil for every bulk and aggregate type.
 */
module Resp {
  import opened Bytes
  import opened IntegerCodec

  datatype Kind = Array | Map | Set | Push

  /** Missing is an element slot of a half-built aggregate that no reply has filled yet. */
  datatype Reply =
    | Missing
    | Str(str: seq<byte>)
    | Status(str: seq<byte>)
    | Error(str: seq<byte>)
    | Verb(vtype: seq<byte>, str: seq<byte>)
    | Integer(integer: int)
    | Double(str: seq<byte>)
    | Nil
    | Bool(bval: bool)
    | Aggregate(kind: Kind, elements: seq<Reply>)

  datatype ItemType = TError | TStatus | TInteger | TDouble | TNil | TBool | TString | TVerb | TAggregate(kind: Kind)

  /** Protocol errors by message; Aborted is a failed assert in a reply constructor. */
  datatype Err =
    | TypeByte(b: byte)
    | BadInteger
    | DoubleTooLarge
    | BadDouble
    | BadBulkLength
    | BulkLengthOutOfRange
    | BadVerbatim
    | BadMultiBulkLength
    | MultiBulkLengthOutOfRange
    | Aborted

  const MAX_ELEMENTS: int := 0xFFFF_FFFF
  const DOUBLE_BUF := 326

  /** Whether strtod consumes all of a non-empty C string without yielding NaN. */
  type Strtod = seq<byte> -> bool

  function TypeOf(b: byte): Option<ItemType> {
    match b
    case 45 => Some(TError)
    case 43 => Some(TStatus)
    case 58 => Some(TInteger)
    case 44 => Some(TDouble)
    case 95 => Some(TNil)
    case 36 => Some(TString)
    case 42 => Some(TAggregate(Array))
    case 37 => Some(TAggregate(Map))
    case 126 => Some(TAggregate(Set))
    case 35 => Some(TBool)
    case 61 => Some(TVerb)
    case 62 => Some(TAggregate(Push))
    case _ => None
  }

  /** The C string stored in a buffer: everything before the first NUL. */
  function CString(s: seq<byte>): seq<byte> {
    if s == [] || s[0] == 0 then [] else [s[0]] + CString(s[1..])
  }

  function Lower(s: seq<byte>): (r: seq<byte>)
    ensures |r| == |s|
  {
    seq(|s|, i requires 0 <= i < |s| => if 65 <= s[i] <= 90 then s[i] + 32 else s[i])
  }

  const COMMA_INF: seq<byte> := [44, 105, 110, 102]
  const COMMA_MINUS_INF: seq<byte> := [44, 45, 105, 110, 102]

  predicate DoubleOk(strtod: Strtod, line: seq<byte>) {
    var text := CString(line);
    Lower(text) == COMMA_INF || Lower(text) == COMMA_MINUS_INF || (text != [] && strtod(text))
  }

  // ---- One item header ----

  /** What the bytes after a type byte amount to: nothing yet, an error, a whole reply, or an open aggregate. */
  datatype Head =
    | NeedMore
    | Fail(err: Err)
    | Leaf(v: Reply, rest: seq<byte>)
    | Open(kind: Kind, count: nat, rest: seq<byte>)

  function NilHead(inPush: bool, rest: seq<byte>): Head {
    if inPush then Fail(Aborted) else Leaf(Nil, rest)
  }

  function LineHead(strtod: Strtod, t: ItemType, inPush: bool, line: seq<byte>, rest: seq<byte>): Head
    requires !t.TString? && !t.TVerb? && !t.TAggregate?
  {
    match t
    case TInteger => (match ParseLL(line) case None => Fail(BadInteger) case Some(n) => Leaf(Integer(n), rest))
    case TDouble =>
      if |line| >= DOUBLE_BUF then Fail(DoubleTooLarge)
      else if !DoubleOk(strtod, line) then Fail(BadDouble)
      else if inPush then Fail(Aborted)
      else Leaf(Double(line), rest)
    case TNil => NilHead(inPush, rest)
    case TBool =>
      if inPush then Fail(Aborted) else Leaf(Bool(|line| > 0 && (line[0] == 116 || line[0] == 84)), rest)
    case TStatus => Leaf(Status(line), rest)
    case TError => Leaf(Error(line), rest)
  }

  function BulkHead(verb: bool, inPush: bool, line: seq<byte>, rest: seq<byte>): Head {
    match ParseLL(line)
    case None => Fail(BadBulkLength)
    case Some(n) =>
      if n < -1 then Fail(BulkLengthOutOfRange)
      else if n == -1 then NilHead(inPush, rest)
      else if |rest| < n + 2 then NeedMore
      else if verb && (n < 4 || rest[3] != 58) then Fail(BadVerbatim)
      else Leaf(if verb then Verb(rest[..3], rest[4..n]) else Str(rest[..n]), rest[n + 2..])
  }

  function AggregateHead(kind: Kind, inPush: bool, line: seq<byte>, rest: seq<byte>): Head {
    match ParseLL(line)
    case None => Fail(BadMultiBulkLength)
    case Some(n) =>
      if n < -1 || n > MAX_ELEMENTS then Fail(MultiBulkLengthOutOfRange)
      else if n == -1 then NilHead(inPush, rest)
      else if n == 0 then Leaf(Aggregate(kind, []), rest)
      else Open(kind, if kind == Map then 2 * n else n, rest)
  }

  function ReadHead(strtod: Strtod, t: ItemType, inPush: bool, b: seq<byte>): (h: Head)
    ensures (h.Leaf? || h.Open?) ==> |h.rest| < |b|
    ensures h.Open? ==> h.count > 0
  {
    match FindCRLF(b)
    case None => NeedMore
    case Some(i) =>
      var line, rest := b[..i], b[i + 2..];
      match t
      case TString => BulkHead(false, inPush, line, rest)
      case TVerb => BulkHead(true, inPush, line, rest)
      case TAggregate(kind) => AggregateHead(kind, inPush, line, rest)
      case _ => LineHead(strtod, t, inPush, line, rest)
  }

  // ---- The recursive parser ----

  datatype Parse = Incomplete | Bad(err: Err) | Done(v: Reply, rest: seq<byte>)
  datatype ParseMany = IncompleteMany | BadMany(err: Err) | DoneMany(vs: seq<Reply>, rest: seq<byte>)

  /** Parses one item, type byte first.  inPush: the item sits directly inside a push. */
  function ParseItem(strtod: Strtod, inPush: bool, b: seq<byte>): (r: Parse)
    ensures r.Done? ==> |r.rest| < |b|
    decreases |b|, 0
  {
    if b == [] then Incomplete
    else match TypeOf(b[0])
      case None => Bad(TypeByte(b[0]))
      case Some(t) => ParseTyped(strtod, t, inPush, b[1..])
  }

  /** Parses what follows a type byte. */
  function ParseTyped(strtod: Strtod, t: ItemType, inPush: bool, b: seq<byte>): (r: Parse)
    ensures r.Done? ==> |r.rest| < |b|
    decreases |b|, 2
  {
    match ReadHead(strtod, t, inPush, b)
    case NeedMore => Incomplete
    case Fail(e) => Bad(e)
    case Leaf(v, rest) => Done(v, rest)
    case Open(kind, count, rest) =>
      match ParseItems(strtod, kind == Push, count, rest)
      case IncompleteMany => Incomplete
      case BadMany(e) => Bad(e)
      case DoneMany(vs, rest') => Done(Aggregate(kind, vs), rest')
  }

  /** Parses n items in a row. */
  function ParseItems(strtod: Strtod, inPush: bool, n: nat, b: seq<byte>): (r: ParseMany)
    ensures r.DoneMany? ==> |r.rest| <= |b| && |r.vs| == n
    decreases |b|, 1
  {
    if n == 0 then DoneMany([], b)
    else match ParseItem(strtod, inPush, b)
      case Incomplete => IncompleteMany
      case Bad(e) => BadMany(e)
      case Done(v, rest) =>
        match ParseItems(strtod, inPush, n - 1, rest)
        case IncompleteMany => IncompleteMany
        case BadMany(e) => BadMany(e)
        case DoneMany(vs, rest') => DoneMany([v] + vs, rest')
  }

  // ---- Verdicts are stable under later bytes ----

  function ExtendHead(h: Head, ext: seq<byte>): Head {
    match h
    case Leaf(v, rest) => Leaf(v, rest + ext)
    case Open(kind, count, rest) => Open(kind, count, rest + ext)
    case _ => h
  }

  function Extend(r: Parse, ext: seq<byte>): Parse {
    match r
    case Done(v, rest) => Done(v, rest + ext)
    case _ => r
  }

  function ExtendMany(r: ParseMany, ext: seq<byte>): ParseMany {
    match r
    case DoneMany(vs, rest) => DoneMany(vs, rest + ext)
    case _ => r
  }

  lemma {:induction false} BulkHeadStable(verb: bool, inPush: bool, line: seq<byte>, rest: seq<byte>, ext: seq<byte>)
    requires BulkHead(verb, inPush, line, rest) != NeedMore
    ensures BulkHead(verb, inPush, line, rest + ext) == ExtendHead(BulkHead(verb, inPush, line, rest), ext)
  {
    if ParseLL(line).Some? && ParseLL(line).value >= 0 {
      var n := ParseLL(line).value;
      assert (rest + ext)[..n] == rest[..n];
      assert (rest + ext)[n + 2..] == rest[n + 2..] + ext;
      if n >= 4 {
        assert (rest + ext)[..3] == rest[..3] && (rest + ext)[4..n] == rest[4..n];
      }
    }
  }

  lemma {:induction false} HeadStable(strtod: Strtod, t: ItemType, inPush: bool, b: seq<byte>, ext: seq<byte>)
    requires ReadHead(strtod, t, inPush, b) != NeedMore
    ensures ReadHead(strtod, t, inPush, b + ext) == ExtendHead(ReadHead(strtod, t, inPush, b), ext)
  {
    FindCRLFStable(b, ext);
    var i := FindCRLF(b).value;
    var line, rest := b[..i], b[i + 2..];
    assert (b + ext)[..i] == line;
    assert (b + ext)[i + 2..] == rest + ext;
    match t
    case TString => BulkHeadStable(false, inPush, line, rest, ext);
    case TVerb => BulkHeadStable(true, inPush, line, rest, ext);
    case TAggregate(kind) =>
      assert AggregateHead(kind, inPush, line, rest + ext) == ExtendHead(AggregateHead(kind, inPush, line, rest), ext);
    case _ =>
      assert LineHead(strtod, t, inPush, line, rest + ext) == ExtendHead(LineHead(strtod, t, inPush, line, rest), ext);
  }

  /** A verdict other than Incomplete never changes when more bytes arrive. */
  lemma {:induction false} ItemStable(strtod: Strtod, inPush: bool, b: seq<byte>, ext: seq<byte>)
    requires ParseItem(strtod, inPush, b) != Incomplete
    ensures ParseItem(strtod, inPush, b + ext) == Extend(ParseItem(strtod, inPush, b), ext)
    decreases |b|, 0
  {
    assert (b + ext)[0] == b[0] && (b + ext)[1..] == b[1..] + ext;
    if TypeOf(b[0]).Some? {
      TypedStable(strtod, TypeOf(b[0]).value, inPush, b[1..], ext);
    }
  }

  lemma {:induction false} TypedStable(strtod: Strtod, t: ItemType, inPush: bool, b: seq<byte>, ext: seq<byte>)
    requires ParseTyped(strtod, t, inPush, b) != Incomplete
    ensures ParseTyped(strtod, t, inPush, b + ext) == Extend(ParseTyped(strtod, t, inPush, b), ext)
    decreases |b|, 2
  {
    HeadStable(strtod, t, inPush, b, ext);
    var h := ReadHead(strtod, t, inPush, b);
    if h.Open? {
      ItemsStable(strtod, h.kind == Push, h.count, h.rest, ext);
    }
  }

  lemma {:induction false} ItemsStable(strtod: Strtod, inPush: bool, n: nat, b: seq<byte>, ext: seq<byte>)
    requires ParseItems(strtod, inPush, n, b) != IncompleteMany
    ensures ParseItems(strtod, inPush, n, b + ext) == ExtendMany(ParseItems(strtod, inPush, n, b), ext)
    decreases |b|, 1
  {
    if n > 0 {
      ItemStable(strtod, inPush, b, ext);
      var r := ParseItem(strtod, inPush, b);
      if r.Done? {
        ItemsStable(strtod, inPush, n - 1, r.rest, ext);
      }
    }
  }

  /** What a parse consumed is a prefix of its input, and what it left is the rest. */
  lemma {:induction false} ItemConsumesPrefix(strtod: Strtod, inPush: bool, b: seq<byte>)
    requires ParseItem(strtod, inPush, b).Done?
    ensures ParseItem(strtod, inPush, b).rest == b[|b| - |ParseItem(strtod, inPush, b).rest|..]
    decreases |b|, 0
  {
    TypedConsumesPrefix(strtod, TypeOf(b[0]).value, inPush, b[1..]);
  }

  lemma {:induction false} TypedHeadSuffix(strtod: Strtod, t: ItemType, inPush: bool, b: seq<byte>)
    requires var h := ReadHead(strtod, t, inPush, b); h.Leaf? || h.Open?
    ensures ReadHead(strtod, t, inPush, b).rest == b[|b| - |ReadHead(strtod, t, inPush, b).rest|..]
  {
  }

  lemma {:induction false} TypedConsumesPrefix(strtod: Strtod, t: ItemType, inPush: bool, b: seq<byte>)
    requires ParseTyped(strtod, t, inPush, b).Done?
    ensures ParseTyped(strtod, t, inPush, b).rest == b[|b| - |ParseTyped(strtod, t, inPush, b).rest|..]
    decreases |b|, 2
  {
    var h := ReadHead(strtod, t, inPush, b);
    TypedHeadSuffix(strtod, t, inPush, b);
    if h.Open? {
      ItemsConsumePrefix(strtod, h.kind == Push, h.count, h.rest);
    }
  }

  lemma {:induction false} ItemsConsumePrefix(strtod: Strtod, inPush: bool, n: nat, b: seq<byte>)
    requires ParseItems(strtod, inPush, n, b).DoneMany?
    ensures ParseItems(strtod, inPush, n, b).rest == b[|b| - |ParseItems(strtod, inPush, n, b).rest|..]
    decreases |b|, 1
  {
    hide ParseItem;
    if n > 0 {
      var r := ParseItem(strtod, inPush, b);
      ItemConsumesPrefix(strtod, inPush, b);
      ItemsConsumePrefix(strtod, inPush, n - 1, r.rest);
      SuffixOfSuffix(b, r.rest, ParseItems(strtod, inPush, n - 1, r.rest).rest);
    }
  }

  lemma {:induction false} SuffixOfSuffix(b: seq<byte>, c: seq<byte>, d: seq<byte>)
    requires |d| <= |c| <= |b| && c == b[|b| - |c|..] && d == c[|c| - |d|..]
    ensures d == b[|b| - |d|..]
  {
  }

  // ---- The serialiser ----

  function Line(tag: byte, s: seq<byte>): seq<byte> {
    [tag] + s + CRLF
  }

  function Bulk(tag: byte, payload: seq<byte>): seq<byte> {
    Line(tag, Decimal(|payload|)) + payload + CRLF
  }

  function KindTag(kind: Kind): byte {
    match kind
    case Array => 42
    case Map => 37
    case Set => 126
    case Push => 62
  }

  function Encode(v: Reply): seq<byte>
    decreases v
  {
    match v
    case Missing => []
    case Str(s) => Bulk(36, s)
    case Status(s) => Line(43, s)
    case Error(s) => Line(45, s)
    case Verb(vtype, s) => Bulk(61, vtype + [58] + s)
    case Integer(n) => Line(58, Decimal(n))
    case Double(s) => Line(44, s)
    case Nil => Line(95, [])
    case Bool(b) => Line(35, [if b then 116 else 102])
    case Aggregate(kind, vs) =>
      Line(KindTag(kind), Decimal(if kind == Map then |vs| / 2 else |vs|)) + EncodeAll(vs)
  }

  function EncodeAll(vs: seq<Reply>): seq<byte>
    decreases vs
  {
    if vs == [] then [] else Encode(vs[0]) + EncodeAll(vs[1..])
  }

  predicate OneLine(s: seq<byte>) {
    forall j :: 0 <= j < |s| ==> !LineEndAt(s + [CR], j)
  }

  /** The replies the reader can produce; inPush: directly inside a push. */
  ghost predicate WellFormed(strtod: Strtod, inPush: bool, v: Reply)
    decreases v
  {
    match v
    case Missing => false
    case Str(s) => |s| <= LLONG_MAX
    case Status(s) => OneLine(s)
    case Error(s) => OneLine(s)
    case Verb(vtype, s) => |vtype| == 3 && 4 + |s| <= LLONG_MAX
    case Integer(n) => -TWO63 <= n <= LLONG_MAX
    case Double(s) => !inPush && |s| < DOUBLE_BUF && OneLine(s) && DoubleOk(strtod, s)
    case Nil => !inPush
    case Bool(_) => !inPush
    case Aggregate(kind, vs) =>
      && |vs| <= (if kind == Map then 2 * MAX_ELEMENTS else MAX_ELEMENTS)
      && (kind == Map ==> |vs| % 2 == 0)
      && AllWellFormed(strtod, kind == Push, vs)
  }

  ghost predicate AllWellFormed(strtod: Strtod, inPush: bool, vs: seq<Reply>)
    decreases vs
  {
    vs == [] || (WellFormed(strtod, inPush, vs[0]) && AllWellFormed(strtod, inPush, vs[1..]))
  }

  lemma {:induction false} FindInLine(tag: byte, line: seq<byte>, ext: seq<byte>)
    requires OneLine(line)
    ensures var b := (Line(tag, line) + ext)[1..];
            FindCRLF(b) == Some(|line|) && b[..|line|] == line && b[|line| + 2..] == ext
  {
    FindCRLFOfLine(line, ext);
    assert (Line(tag, line) + ext)[1..] == line + CRLF + ext;
  }

  lemma {:induction false} DecimalIsOneLine(n: int)
    ensures OneLine(Decimal(n))
  {
    var s := Decimal(n);
    forall j | 0 <= j < |s| ensures s[j] != CR && s[j] != LF {
      if n < 0 {
        assert s[1..] == Digits(-n);
        if j > 0 { assert IsDigit(s[1..][j - 1]); }
      } else {
        assert IsDigit(s[j]);
      }
    }
    forall j | 0 <= j < |s| ensures !LineEndAt(s + [CR], j) {
      assert (s + [CR])[j] == s[j];
    }
  }

  /** The header of an encoded line is decided by its payload alone. */
  lemma {:induction false} ReadEncodedLine(strtod: Strtod, inPush: bool, tag: byte, line: seq<byte>, ext: seq<byte>)
    requires OneLine(line) && TypeOf(tag).Some?
    ensures var t, b := TypeOf(tag).value, Line(tag, line) + ext;
            && ParseItem(strtod, inPush, b) == ParseTyped(strtod, t, inPush, b[1..])
            && (t.TString? || t.TVerb? ==> ReadHead(strtod, t, inPush, b[1..]) == BulkHead(t.TVerb?, inPush, line, ext))
            && (t.TAggregate? ==> ReadHead(strtod, t, inPush, b[1..]) == AggregateHead(t.kind, inPush, line, ext))
            && (!t.TString? && !t.TVerb? && !t.TAggregate? ==>
                  ReadHead(strtod, t, inPush, b[1..]) == LineHead(strtod, t, inPush, line, ext))
  {
    hide ParseTyped, BulkHead, AggregateHead, LineHead;
    FindInLine(tag, line, ext);
  }

  lemma {:induction false} BulkHeadOfPayload(verb: bool, inPush: bool, payload: seq<byte>, ext: seq<byte>)
    requires |payload| <= LLONG_MAX
    requires verb ==> |payload| >= 4 && payload[3] == 58
    ensures BulkHead(verb, inPush, Decimal(|payload|), payload + CRLF + ext)
         == Leaf(if verb then Verb(payload[..3], payload[4..]) else Str(payload), ext)
  {
    hide ParseLL, Decimal;
    var n := |payload|;
    DecimalIsParsed(n);
    var rest := payload + CRLF + ext;
    assert rest[..n] == payload && rest[n + 2..] == ext;
    if verb {
      assert rest[..3] == payload[..3] && rest[4..n] == payload[4..];
    }
  }

  lemma {:induction false} ParseBulk(strtod: Strtod, inPush: bool, tag: byte, payload: seq<byte>, ext: seq<byte>)
    requires |payload| <= LLONG_MAX
    requires tag == 36 || (tag == 61 && |payload| >= 4 && payload[3] == 58)
    ensures ParseItem(strtod, inPush, Bulk(tag, payload) + ext)
         == Done(if tag == 36 then Str(payload) else Verb(payload[..3], payload[4..]), ext)
  {
    hide ParseItem, ReadHead, BulkHead, OneLine, Decimal;
    var n := |payload|;
    DecimalIsOneLine(n);
    ReadEncodedLine(strtod, inPush, tag, Decimal(n), payload + CRLF + ext);
    BulkHeadOfPayload(tag == 61, inPush, payload, ext);
    assert Bulk(tag, payload) + ext == Line(tag, Decimal(n)) + (payload + CRLF + ext);
  }

  lemma {:induction false} ParseLine(strtod: Strtod, inPush: bool, v: Reply, tag: byte, line: seq<byte>, ext: seq<byte>)
    requires TypeOf(tag).Some? && OneLine(line)
    requires var t := TypeOf(tag).value; !t.TString? && !t.TVerb? && !t.TAggregate?
    requires LineHead(strtod, TypeOf(tag).value, inPush, line, ext) == Leaf(v, ext)
    ensures ParseItem(strtod, inPush, Line(tag, line) + ext) == Done(v, ext)
  {
    hide ParseItem, ReadHead, LineHead, OneLine;
    ReadEncodedLine(strtod, inPush, tag, line, ext);
  }

  lemma {:induction false} ParseAggregate(
    strtod: Strtod, inPush: bool, kind: Kind, vs: seq<Reply>, body: seq<byte>, ext: seq<byte>)
    requires |vs| <= (if kind == Map then 2 * MAX_ELEMENTS else MAX_ELEMENTS)
    requires kind == Map ==> |vs| % 2 == 0
    requires ParseItems(strtod, kind == Push, |vs|, body) == DoneMany(vs, ext)
    ensures var n := if kind == Map then |vs| / 2 else |vs|;
            ParseItem(strtod, inPush, Line(KindTag(kind), Decimal(n)) + body) == Done(Aggregate(kind, vs), ext)
  {
    hide ParseItem, ReadHead, AggregateHead, OneLine, Decimal, ParseItems, TypeOf, KindTag, ParseTyped;
    var n := if kind == Map then |vs| / 2 else |vs|;
    DecimalIsOneLine(n);
    KindOfTag(kind);
    ReadEncodedLine(strtod, inPush, KindTag(kind), Decimal(n), body);
    AggregateHeadOfCount(inPush, kind, |vs|, body);
    AggregateOf(strtod, inPush, kind, vs, (Line(KindTag(kind), Decimal(n)) + body)[1..], body, ext);
  }

  lemma {:induction false} AggregateOf(
    strtod: Strtod, inPush: bool, kind: Kind, vs: seq<Reply>, b: seq<byte>, body: seq<byte>, ext: seq<byte>)
    requires ReadHead(strtod, TAggregate(kind), inPush, b)
          == if |vs| == 0 then Leaf(Aggregate(kind, []), body) else Open(kind, |vs|, body)
    requires ParseItems(strtod, kind == Push, |vs|, body) == DoneMany(vs, ext)
    ensures ParseTyped(strtod, TAggregate(kind), inPush, b) == Done(Aggregate(kind, vs), ext)
  {
    hide ReadHead;
    EmptyItems(strtod, kind == Push, body);
    hide ParseItems;
  }

  lemma {:induction false} KindOfTag(kind: Kind)
    ensures TypeOf(KindTag(kind)) == Some(TAggregate(kind))
  {
  }

  lemma {:induction false} EmptyItems(strtod: Strtod, inPush: bool, b: seq<byte>)
    ensures ParseItems(strtod, inPush, 0, b) == DoneMany([], b)
  {
  }

  lemma {:induction false} AggregateHeadOfCount(inPush: bool, kind: Kind, count: nat, body: seq<byte>)
    requires count <= (if kind == Map then 2 * MAX_ELEMENTS else MAX_ELEMENTS)
    requires kind == Map ==> count % 2 == 0
    ensures AggregateHead(kind, inPush, Decimal(if kind == Map then count / 2 else count), body)
         == if count == 0 then Leaf(Aggregate(kind, []), body) else Open(kind, count, body)
  {
    hide ParseLL, Decimal;
    DecimalIsParsed(if kind == Map then count / 2 else count);
  }

  /** Parsing undoes serialising, whatever bytes follow. */
  lemma {:induction false} RoundTrip(strtod: Strtod, inPush: bool, v: Reply, ext: seq<byte>)
    requires WellFormed(strtod, inPush, v)
    ensures ParseItem(strtod, inPush, Encode(v) + ext) == Done(v, ext)
    decreases v
  {
    if v.Str? || v.Verb? {
      RoundTripBulk(strtod, inPush, v, ext);
    } else if v.Aggregate? {
      RoundTripAll(strtod, v.kind == Push, v.elements, ext);
      RoundTripAggregate(strtod, inPush, v.kind, v.elements, ext);
    } else {
      RoundTripLine(strtod, inPush, v, ext);
    }
  }

  lemma {:induction false} RoundTripAggregate(strtod: Strtod, inPush: bool, kind: Kind, vs: seq<Reply>, ext: seq<byte>)
    requires WellFormed(strtod, inPush, Aggregate(kind, vs))
    requires ParseItems(strtod, kind == Push, |vs|, EncodeAll(vs) + ext) == DoneMany(vs, ext)
    ensures ParseItem(strtod, inPush, Encode(Aggregate(kind, vs)) + ext) == Done(Aggregate(kind, vs), ext)
  {
    var n := if kind == Map then |vs| / 2 else |vs|;
    var head := Line(KindTag(kind), Decimal(n));
    ParseAggregate(strtod, inPush, kind, vs, EncodeAll(vs) + ext, ext);
    assert (head + EncodeAll(vs)) + ext == head + (EncodeAll(vs) + ext);
  }

  lemma {:induction false} RoundTripBulk(strtod: Strtod, inPush: bool, v: Reply, ext: seq<byte>)
    requires WellFormed(strtod, inPush, v) && (v.Str? || v.Verb?)
    ensures ParseItem(strtod, inPush, Encode(v) + ext) == Done(v, ext)
  {
    match v
    case Str(s) => ParseBulk(strtod, inPush, 36, s, ext);
    case Verb(vtype, s) =>
      var payload := vtype + [58] + s;
      assert payload[..3] == vtype && payload[4..] == s;
      ParseBulk(strtod, inPush, 61, payload, ext);
  }

  lemma {:induction false} RoundTripLine(strtod: Strtod, inPush: bool, v: Reply, ext: seq<byte>)
    requires WellFormed(strtod, inPush, v)
    requires !v.Str? && !v.Verb? && !v.Aggregate?
    ensures ParseItem(strtod, inPush, Encode(v) + ext) == Done(v, ext)
  {
    match v
    case Status(s) => ParseLine(strtod, inPush, v, 43, s, ext);
    case Error(s) => ParseLine(strtod, inPush, v, 45, s, ext);
    case Integer(n) =>
      DecimalIsOneLine(n);
      DecimalIsParsed(n);
      ParseLine(strtod, inPush, v, 58, Decimal(n), ext);
    case Double(s) => ParseLine(strtod, inPush, v, 44, s, ext);
    case Nil => ParseLine(strtod, inPush, v, 95, [], ext);
    case Bool(b) => ParseLine(strtod, inPush, v, 35, [if b then 116 else 102], ext);
  }

  lemma {:induction false} RoundTripAll(strtod: Strtod, inPush: bool, vs: seq<Reply>, ext: seq<byte>)
    requires AllWellFormed(strtod, inPush, vs)
    ensures ParseItems(strtod, inPush, |vs|, EncodeAll(vs) + ext) == DoneMany(vs, ext)
    decreases vs
  {
    if vs == [] {
      assert EncodeAll(vs) + ext == ext;
    } else {
      assert EncodeAll(vs) + ext == Encode(vs[0]) + (EncodeAll(vs[1..]) + ext);
      RoundTrip(strtod, inPush, vs[0], EncodeAll(vs[1..]) + ext);
      RoundTripAll(strtod, inPush, vs[1..], ext);
      assert [vs[0]] + vs[1..] == vs;
    }
  }

  ghost predicate HeadOk(strtod: Strtod, inPush: bool, h: Head) {
    && (h.Leaf? ==> WellFormed(strtod, inPush, h.v))
    && (h.Open? ==> h.count <= (if h.kind == Map then 2 * MAX_ELEMENTS else MAX_ELEMENTS))
    && (h.Open? && h.kind == Map ==> h.count % 2 == 0)
  }

  lemma {:induction false} LineHeadWellFormed(
    strtod: Strtod, t: ItemType, inPush: bool, line: seq<byte>, rest: seq<byte>)
    requires OneLine(line) && !t.TString? && !t.TVerb? && !t.TAggregate?
    ensures HeadOk(strtod, inPush, LineHead(strtod, t, inPush, line, rest))
  {
    hide OneLine, ParseLL, DoubleOk, AllWellFormed;
    if ParseLL(line).Some? {
      ParsedIsDecimal(line);
    }
  }

  lemma {:induction false} BulkHeadWellFormed(
    strtod: Strtod, verb: bool, inPush: bool, line: seq<byte>, rest: seq<byte>)
    ensures HeadOk(strtod, inPush, BulkHead(verb, inPush, line, rest))
  {
    hide ParseLL, AllWellFormed;
    if ParseLL(line).Some? {
      ParsedIsDecimal(line);
    }
  }

  lemma {:induction false} HeadWellFormed(strtod: Strtod, t: ItemType, inPush: bool, b: seq<byte>)
    ensures HeadOk(strtod, inPush, ReadHead(strtod, t, inPush, b))
  {
    if FindCRLF(b).Some? {
      var i := FindCRLF(b).value;
      var line, rest := b[..i], b[i + 2..];
      forall j | 0 <= j < i ensures !LineEndAt(line + [CR], j) {
        assert !LineEndAt(b, j);
      }
      hide BulkHead, LineHead;
      if t.TString? || t.TVerb? {
        BulkHeadWellFormed(strtod, t.TVerb?, inPush, line, rest);
      } else if !t.TAggregate? {
        LineHeadWellFormed(strtod, t, inPush, line, rest);
      }
    }
  }

  /** Every reply the parser yields is one the serialiser covers: no slot of it is missing. */
  lemma {:induction false} ParsedIsWellFormed(strtod: Strtod, inPush: bool, b: seq<byte>)
    requires ParseItem(strtod, inPush, b).Done?
    ensures WellFormed(strtod, inPush, ParseItem(strtod, inPush, b).v)
    decreases |b|, 0
  {
    var t := TypeOf(b[0]).value;
    HeadWellFormed(strtod, t, inPush, b[1..]);
    var h := ReadHead(strtod, t, inPush, b[1..]);
    if h.Open? {
      ParsedAllWellFormed(strtod, h.kind == Push, h.count, h.rest);
    }
  }

  lemma {:induction false} ParsedAllWellFormed(strtod: Strtod, inPush: bool, n: nat, b: seq<byte>)
    requires ParseItems(strtod, inPush, n, b).DoneMany?
    ensures AllWellFormed(strtod, inPush, ParseItems(strtod, inPush, n, b).vs)
    decreases |b|, 1
  {
    if n > 0 {
      ParsedIsWellFormed(strtod, inPush, b);
      var r := ParseItem(strtod, inPush, b);
      ParsedAllWellFormed(strtod, inPush, n - 1, r.rest);
      var vs := ParseItems(strtod, inPush, n - 1, r.rest).vs;
      assert ([r.v] + vs)[1..] == vs;
    }
  }
}

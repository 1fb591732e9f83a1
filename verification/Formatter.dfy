/**
 The command formatters of hiredis.c.  Both compute the length first and then write exactly that many bytes,
 which are the encoding of the argument vector as an array of strings; so the reader, and the second parser
 of async.c, recover the arguments whatever bytes they hold.
 */
module Formatter {
  import opened Bytes
  import opened IntegerCodec
  import opened Resp
  import opened SdsBuffer

  const INT_MAX: int := 0x7FFF_FFFF
  const DOLLAR: byte := 36
  const STAR: byte := 42

  /** The reply value an argument vector is sent as. */
  function Strings(argv: seq<seq<byte>>): (vs: seq<Reply>)
    ensures |vs| == |argv| && forall i :: 0 <= i < |vs| ==> vs[i] == Str(argv[i])
  {
    seq(|argv|, i requires 0 <= i < |argv| => Str(argv[i]))
  }

  function Command(argv: seq<seq<byte>>): Reply {
    Aggregate(Array, Strings(argv))
  }

  /** The bulk items of the arguments, one after the other. */
  function Body(argv: seq<seq<byte>>): seq<byte> {
    if argv == [] then [] else Body(argv[..|argv| - 1]) + Bulk(DOLLAR, argv[|argv| - 1])
  }

  /** The bytes of a command. */
  function Formatted(argv: seq<seq<byte>>): seq<byte> {
    Line(STAR, Decimal(|argv|)) + Body(argv)
  }

  lemma {:induction false} EncodeSnoc(vs: seq<Reply>, v: Reply)
    ensures EncodeAll(vs + [v]) == EncodeAll(vs) + Encode(v)
    decreases |vs|
  {
    if vs == [] {
      assert [v][1..] == [] && vs + [v] == [v];
    } else {
      EncodeSnoc(vs[1..], v);
      assert (vs + [v])[0] == vs[0] && (vs + [v])[1..] == vs[1..] + [v];
      assert Encode(vs[0]) + (EncodeAll(vs[1..]) + Encode(v)) == Encode(vs[0]) + EncodeAll(vs[1..]) + Encode(v);
    }
  }

  lemma {:induction false} BodyIsEncodeAll(argv: seq<seq<byte>>)
    ensures Body(argv) == EncodeAll(Strings(argv))
    decreases |argv|
  {
    if argv != [] {
      var front, last := argv[..|argv| - 1], argv[|argv| - 1];
      BodyIsEncodeAll(front);
      EncodeSnoc(Strings(front), Str(last));
      assert Strings(argv) == Strings(front) + [Str(last)];
    }
  }

  /** The formatted command is the serialised array of its arguments. */
  lemma {:induction false} FormattedIsEncode(argv: seq<seq<byte>>)
    ensures Formatted(argv) == Encode(Command(argv))
  {
    BodyIsEncodeAll(argv);
  }

  // ---- The precomputed length ----

  lemma {:induction false} FourDigits(v: nat)
    requires v >= 10000
    ensures |Digits(v)| == 4 + |Digits(v / 10000)|
  {
    assert v / 10 / 10 == v / 100 && v / 100 / 10 == v / 1000 && v / 1000 / 10 == v / 10000;
    assert |Digits(v)| == 1 + |Digits(v / 10)|;
    assert |Digits(v / 10)| == 1 + |Digits(v / 100)|;
    assert |Digits(v / 100)| == 1 + |Digits(v / 1000)|;
    assert |Digits(v / 1000)| == 1 + |Digits(v / 10000)|;
  }

  lemma {:induction false} FewDigits(v: nat)
    requires v < 10000
    ensures |Digits(v)| == if v < 10 then 1 else if v < 100 then 2 else if v < 1000 then 3 else 4
  {
    if v >= 10 {
      assert |Digits(v)| == 1 + |Digits(v / 10)|;
      if v >= 100 {
        assert |Digits(v / 10)| == 1 + |Digits(v / 10 / 10)|;
      }
    }
  }

  /** countDigits: exactly the length of the decimal text. */
  method CountDigits(v0: u64) returns (result: nat)
    ensures result == |Digits(v0)|
  {
    var v: u64 := v0;
    result := 1;
    while true
      invariant v <= v0 && result - 1 + |Digits(v)| == |Digits(v0)|
      decreases v
    {
      if v < 10000 { FewDigits(v); }
      if v < 10 { return result; }
      if v < 100 { return result + 1; }
      if v < 1000 { return result + 2; }
      if v < 10000 { return result + 3; }
      FourDigits(v);
      v := v / 10000;
      result := result + 4;
    }
  }

  method BulkLen(len: u64) returns (n: nat)
    ensures n == |Digits(len)| + 5 + len
  {
    var d := CountDigits(len);
    n := 1 + d + 2 + len + 2;
  }

  lemma {:induction false} BulkLength(payload: seq<byte>)
    ensures |Bulk(DOLLAR, payload)| == |Digits(|payload|)| + 5 + |payload|
  {
  }

  lemma {:induction false} BodyStep(argv: seq<seq<byte>>, j: nat)
    requires j < |argv|
    ensures Body(argv[..j + 1]) == Body(argv[..j]) + Bulk(DOLLAR, argv[j])
    ensures |Body(argv[..j + 1])| <= |Body(argv)|
    decreases |argv|
  {
    assert argv[..j + 1][..j] == argv[..j];
    if j + 1 < |argv| {
      var front := argv[..|argv| - 1];
      BodyStep(front, j);
      assert front[..j + 1] == argv[..j + 1];
    } else {
      assert argv[..j + 1] == argv;
    }
  }

  /** The length pass shared by both formatters. */
  method TotalLength(argv: seq<seq<byte>>) returns (totlen: nat)
    requires |Formatted(argv)| <= INT_MAX
    ensures totlen == |Formatted(argv)|
  {
    hide Bulk, Digits;
    LengthsFit(argv, 0);
    var d := CountDigits(|argv|);
    totlen := 1 + d + 2;
    var j := 0;
    while j < |argv|
      invariant 0 <= j <= |argv|
      invariant totlen == 1 + |Digits(|argv|)| + 2 + |Body(argv[..j])|
    {
      BodyStep(argv, j);
      LengthsFit(argv, j);
      BulkLength(argv[j]);
      var n := BulkLen(|argv[j]|);
      totlen := totlen + n;
      j := j + 1;
    }
    assert argv[..j] == argv;
  }

  // ---- redisFormatCommandArgv: into one block of exactly totlen + 1 bytes ----

  /** memcpy at pos: the bytes before pos are kept. */
  method PutBytes(cmd: array<byte>, pos: nat, text: seq<byte>) returns (end: nat)
    requires pos + |text| <= cmd.Length
    modifies cmd
    ensures end == pos + |text| && cmd[..end] == old(cmd[..pos]) + text
  {
    CopyInto(cmd, pos, text);
    end := pos + |text|;
    Glue(cmd, pos, end);
  }

  /** sprintf at pos of a tag, a decimal number and CRLF; the NUL it adds must fit as well. */
  method PutCount(cmd: array<byte>, pos: nat, tag: byte, n: nat) returns (end: nat)
    requires pos + |Line(tag, Decimal(n))| < cmd.Length
    modifies cmd
    ensures end == pos + |Line(tag, Decimal(n))| && cmd[..end] == old(cmd[..pos]) + Line(tag, Decimal(n))
  {
    end := PutBytes(cmd, pos, Line(tag, Decimal(n)));
    ghost var was := cmd[..end];
    cmd[end] := 0;
    assert cmd[..end] == was;
  }

  method FormatCommandArgv(argv: seq<seq<byte>>) returns (cmd: array<byte>, totlen: nat)
    requires |Formatted(argv)| <= INT_MAX
    ensures fresh(cmd) && cmd.Length == totlen + 1
    ensures cmd[..totlen] == Formatted(argv) && cmd[totlen] == 0
  {
    hide Bulk, Line;
    totlen := TotalLength(argv);
    cmd := new byte[totlen + 1];
    assert cmd[..0] == [];
    assert |Line(STAR, Decimal(|argv|))| <= |Formatted(argv)|;
    var pos := PutCount(cmd, 0, STAR, |argv|);
    assert cmd[..pos] == Line(STAR, Decimal(|argv|)) + Body(argv[..0]);
    var j := 0;
    while j < |argv|
      invariant 0 <= j <= |argv| && fresh(cmd) && pos <= totlen
      invariant pos == |Line(STAR, Decimal(|argv|))| + |Body(argv[..j])|
      invariant cmd[..pos] == Line(STAR, Decimal(|argv|)) + Body(argv[..j])
    {
      BodyStep(argv, j);
      ghost var before := cmd[..pos];
      BulkParts(argv[j]);
      pos := PutCount(cmd, pos, DOLLAR, |argv[j]|);
      pos := PutBytes(cmd, pos, argv[j]);
      pos := PutBytes(cmd, pos, [CR]);
      pos := PutBytes(cmd, pos, [LF]);
      Pieces(before, Line(DOLLAR, Decimal(|argv[j]|)), argv[j]);
      Regroup3(Line(STAR, Decimal(|argv|)), Body(argv[..j]), Bulk(DOLLAR, argv[j]));
      j := j + 1;
    }
    assert argv[..j] == argv;
    assert pos == totlen;
    cmd[pos] := 0;
  }

  lemma {:induction false} BulkParts(payload: seq<byte>)
    ensures Bulk(DOLLAR, payload) == Line(DOLLAR, Decimal(|payload|)) + payload + CRLF
  {
  }

  lemma {:induction false} Pieces(before: seq<byte>, head: seq<byte>, payload: seq<byte>)
    ensures before + head + payload + [CR] + [LF] == before + (head + payload + CRLF)
  {
  }

  lemma {:induction false} Regroup3(a: seq<byte>, b: seq<byte>, c: seq<byte>)
    ensures a + b + c == a + (b + c)
  {
  }

  // ---- redisFormatSdsCommandArgv: into a growable string ----

  /** sdscatfmt for the formats "*%i\r\n" and "$%u\r\n". */
  method CatCount(cmd: Sds, tag: byte, n: nat)
    requires cmd.Valid() && n <= INT_MAX && cmd.Len() < SIZE_LIMIT / 4
    modifies cmd, cmd.buf
    ensures cmd.Valid() && cmd.Contents() == old(cmd.Contents()) + Line(tag, Decimal(n))
    ensures cmd.buf == old(cmd.buf) || fresh(cmd.buf)
  {
    hide Width, Decimal;
    ghost var was := cmd.Contents();
    DecimalFits(n);
    cmd.CatLen([tag]);
    var digits := new byte[LLSTR_SIZE];
    var l := SdsLl2str(digits, n);
    cmd.CatLen(digits[..l]);
    cmd.CatLen([CR]);
    cmd.CatLen([LF]);
    Pieces(was, [tag], Decimal(n));
  }

  lemma {:induction false} DecimalFits(n: nat)
    requires n <= INT_MAX
    ensures |Decimal(n)| <= 20
  {
    U64Fits(n);
  }

  /** One argument: its length, its bytes and a line end. */
  method CatBulk(cmd: Sds, arg: seq<byte>)
    requires cmd.Valid() && cmd.Len() + |Bulk(DOLLAR, arg)| <= INT_MAX && |arg| <= INT_MAX
    modifies cmd, cmd.buf
    ensures cmd.Valid() && cmd.Contents() == old(cmd.Contents()) + Bulk(DOLLAR, arg)
    ensures cmd.buf == old(cmd.buf) || fresh(cmd.buf)
  {
    hide Bulk, Line, Decimal, Width;
    ghost var before := cmd.Contents();
    BulkParts(arg);
    CatCount(cmd, DOLLAR, |arg|);
    cmd.CatLen(arg);
    cmd.CatLen(CRLF);
    Pieces2(before, Line(DOLLAR, Decimal(|arg|)), arg);
  }

  method FormatSdsCommandArgv(argv: seq<seq<byte>>) returns (cmd: Sds, totlen: nat)
    requires |Formatted(argv)| <= INT_MAX
    ensures fresh(cmd) && fresh(cmd.buf) && cmd.Valid()
    ensures cmd.Contents() == Formatted(argv) && totlen == |Formatted(argv)|
  {
    hide Bulk, Line, Decimal, Width;
    totlen := TotalLength(argv);
    cmd := new Sds.NewLen([]);
    cmd.MakeRoomFor(totlen);
    LengthsFit(argv, 0);
    CatCount(cmd, STAR, |argv|);
    assert cmd.Contents() == Line(STAR, Decimal(|argv|)) + Body(argv[..0]);
    var j := 0;
    while j < |argv|
      invariant 0 <= j <= |argv| && fresh(cmd) && fresh(cmd.buf) && cmd.Valid()
      invariant cmd.Contents() == Line(STAR, Decimal(|argv|)) + Body(argv[..j])
    {
      BodyStep(argv, j);
      LengthsFit(argv, j);
      CatBulk(cmd, argv[j]);
      Regroup3(Line(STAR, Decimal(|argv|)), Body(argv[..j]), Bulk(DOLLAR, argv[j]));
      j := j + 1;
    }
    assert argv[..j] == argv;
    assert cmd.Len() == totlen;
  }

  lemma {:induction false} Pieces2(before: seq<byte>, head: seq<byte>, payload: seq<byte>)
    ensures before + head + payload + CRLF == before + (head + payload + CRLF)
  {
  }

  lemma {:induction false} BodyCounts(argv: seq<seq<byte>>)
    ensures |argv| <= |Body(argv)|
    decreases |argv|
  {
    if argv != [] {
      BodyCounts(argv[..|argv| - 1]);
    }
  }

  lemma {:induction false} LengthsFit(argv: seq<seq<byte>>, j: nat)
    requires |Formatted(argv)| <= INT_MAX
    ensures |argv| <= INT_MAX && (j < |argv| ==> |argv[j]| <= INT_MAX)
  {
    BodyCounts(argv);
    if j < |argv| {
      BodyStep(argv, j);
      BulkLength(argv[j]);
    }
  }

  /** A command byte by byte: the count, then each argument with its length. */
  lemma {:induction false} FormattedBytes(argv: seq<seq<byte>>, arg: seq<byte>)
    ensures Formatted(argv) == [42] + Decimal(|argv|) + [13, 10] + Body(argv)
    ensures Body([]) == []
    ensures Body(argv + [arg]) == Body(argv) + ([36] + Decimal(|arg|) + [13, 10] + arg + [13, 10])
  {
    assert (argv + [arg])[..|argv|] == argv;
  }
}

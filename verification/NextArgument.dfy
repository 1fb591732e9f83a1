/**
 The second parser of commands, in async.c: it walks a formatted, NUL-terminated command with strchr and strtol,
 and visits exactly the arguments the formatter wrote.
 */
module NextArgument {
  import opened Bytes
  import opened IntegerCodec
  import opened Resp
  import opened Formatter

  /** strchr from position p: the first c before the terminating NUL. */
  function StrChr(s: seq<byte>, p: nat, c: byte): (r: Option<nat>)
    requires c != 0
    ensures r.Some? ==> p <= r.value < |s| && s[r.value] == c && forall i :: p <= i < r.value ==> s[i] != c && s[i] != 0
    decreases |s| - p
  {
    if p >= |s| || s[p] == 0 then None
    else if s[p] == c then Some(p)
    else StrChr(s, p + 1, c)
  }

  /** The value of the digits from position p on, after acc. */
  function DigitRun(s: seq<byte>, p: nat, acc: int): int
    decreases |s| - p
  {
    if p >= |s| || !IsDigit(s[p]) then acc else DigitRun(s, p + 1, 10 * acc + (s[p] - ZERO))
  }

  function SkipSpace(s: seq<byte>, p: nat): nat
    decreases |s| - p
  {
    if p >= |s| || !IsSpace(s[p]) then p else SkipSpace(s, p + 1)
  }

  function Clamp(n: int): int {
    if n > LLONG_MAX then LLONG_MAX else if n < -TWO63 then -TWO63 else n
  }

  /** strtol in base 10. */
  function Strtol(s: seq<byte>, p: nat): int {
    var q := SkipSpace(s, p);
    if q < |s| && s[q] == MINUS then Clamp(-DigitRun(s, q + 1, 0))
    else if q < |s| && s[q] == 43 then Clamp(DigitRun(s, q + 1, 0))
    else Clamp(DigitRun(s, q, 0))
  }

  /** The conversion of a long to a 32-bit int. */
  function ToInt(n: int): int {
    (n + 0x8000_0000) % 0x1_0000_0000 - 0x8000_0000
  }

  /** Arg: where the argument starts, its length, and where the next one starts.  AssertFailed: assert(p). */
  datatype Step = NoArg | AssertFailed | Arg(str: nat, len: int, next: int)

  function NextArgument(cmd: seq<byte>, start: nat): Step
    requires start < |cmd|
  {
    var p := if cmd[start] != DOLLAR then StrChr(cmd, start, DOLLAR) else Some(start);
    if p == None then NoArg
    else
      var len := ToInt(Strtol(cmd, p.value + 1));
      match StrChr(cmd, p.value, CR)
      case None => AssertFailed
      case Some(q) => Arg(q + 2, len, q + 2 + len + 2)
  }

  // ---- On formatted commands ----

  lemma {:induction false} StrChrFound(s: seq<byte>, p: nat, c: byte, q: nat)
    requires c != 0 && p <= q < |s| && s[q] == c
    requires forall i :: p <= i < q ==> s[i] != c && s[i] != 0
    ensures StrChr(s, p, c) == Some(q)
    decreases q - p
  {
    if p < q {
      StrChrFound(s, p + 1, c, q);
    }
  }

  lemma {:induction false} DigitRunReads(s: seq<byte>, p: nat, digits: seq<byte>, k: nat)
    requires AllDigits(digits) && k <= |digits| && p + |digits| < |s|
    requires s[p..p + |digits|] == digits && !IsDigit(s[p + |digits|])
    ensures AllDigits(digits[..k]) && DigitRun(s, p + k, Value(digits[..k])) == Value(digits)
    decreases |digits| - k
  {
    if k < |digits| {
      assert s[p..p + |digits|][k] == s[p + k];
      ValueStep(digits, k);
      DigitRunReads(s, p, digits, k + 1);
    } else {
      assert digits[..k] == digits;
    }
  }

  /** strtol reads back a printed length. */
  lemma {:induction false} StrtolReads(s: seq<byte>, p: nat, n: nat)
    requires n <= INT_MAX && p + |Digits(n)| < |s|
    requires s[p..p + |Digits(n)|] == Digits(n) && s[p + |Digits(n)|] == CR
    ensures ToInt(Strtol(s, p)) == n
  {
    var digits := Digits(n);
    assert s[p] == s[p..p + |digits|][0] == digits[0] && IsDigit(digits[0]);
    assert SkipSpace(s, p) == p;
    DigitRunReads(s, p, digits, 0);
    assert digits[..0] == [];
    ValueOfDigits(n);
  }

  /** Where argument j of a formatted command starts. */
  function Offset(argv: seq<seq<byte>>, j: nat): nat
    requires j <= |argv|
  {
    |Line(STAR, Decimal(|argv|))| + |Body(argv[..j])|
  }

  lemma {:induction false} BodySplit(argv: seq<seq<byte>>, j: nat) returns (post: seq<byte>)
    requires j < |argv|
    ensures Body(argv) == Body(argv[..j]) + (Bulk(DOLLAR, argv[j]) + post)
    decreases |argv|
  {
    hide Bulk;
    var n := |argv| - 1;
    BodyStep(argv, j);
    if j < n {
      var post' := BodySplit(argv[..n], j);
      assert argv[..n][..j] == argv[..j];
      post := post' + Bulk(DOLLAR, argv[n]);
      assert Body(argv) == Body(argv[..n]) + Bulk(DOLLAR, argv[n]);
      hide Body;
      Regroup4(Body(argv[..j]), Bulk(DOLLAR, argv[j]), post', Bulk(DOLLAR, argv[n]));
    } else {
      assert argv[..j + 1] == argv;
      post := [];
      assert Bulk(DOLLAR, argv[j]) + [] == Bulk(DOLLAR, argv[j]);
    }
  }

  lemma {:induction false} Regroup4(a: seq<byte>, b: seq<byte>, c: seq<byte>, d: seq<byte>)
    ensures a + (b + c) + d == a + (b + (c + d))
  {
  }

  /** The command cut before argument j. */
  lemma {:induction false} SplitAt(argv: seq<seq<byte>>, j: nat) returns (pre: seq<byte>, post: seq<byte>)
    requires j < |argv|
    ensures |pre| == Offset(argv, j) && Formatted(argv) == pre + (Bulk(DOLLAR, argv[j]) + post)
    ensures Offset(argv, j + 1) == Offset(argv, j) + |Bulk(DOLLAR, argv[j])| <= |Formatted(argv)|
  {
    hide Bulk, Body, Line;
    var head := Line(STAR, Decimal(|argv|));
    post := BodySplit(argv, j);
    BodyStep(argv, j);
    pre := head + Body(argv[..j]);
    Regroup3(head, Body(argv[..j]), Bulk(DOLLAR, argv[j]) + post);
  }

  /** One bulk item in the middle of a NUL-terminated text. */
  lemma {:induction false} NextOfBulk(pre: seq<byte>, arg: seq<byte>, post: seq<byte>)
    requires |arg| <= INT_MAX
    ensures var cmd, at := pre + (Bulk(DOLLAR, arg) + post), |pre|;
            var str := at + |Digits(|arg|)| + 3;
            && NextArgument(cmd, at) == Arg(str, |arg|, at + |Bulk(DOLLAR, arg)|)
            && str + |arg| <= |cmd| && cmd[str..str + |arg|] == arg
  {
    var digits := Digits(|arg|);
    var cmd, at := pre + (Bulk(DOLLAR, arg) + post), |pre|;
    var q := at + 1 + |digits|;
    BulkAt(pre, digits, arg, post);
    hide Bulk, Strtol, Digits;
    DigitsPlain(|arg|);
    forall i | at <= i < q ensures cmd[i] != CR && cmd[i] != 0 {
      if i > at {
        assert cmd[i] == cmd[at + 1..q][i - at - 1];
      }
    }
    StrChrFound(cmd, at, CR, q);
    StrtolReads(cmd, at + 1, |arg|);
  }

  lemma {:induction false} DigitsPlain(n: nat)
    ensures forall i :: 0 <= i < |Digits(n)| ==> Digits(n)[i] != CR && Digits(n)[i] != 0 && Digits(n)[i] != DOLLAR
  {
    assert AllDigits(Digits(n));
  }

  lemma {:induction false} BulkAt(pre: seq<byte>, digits: seq<byte>, arg: seq<byte>, post: seq<byte>)
    requires digits == Digits(|arg|)
    ensures var cmd, at := pre + (Bulk(DOLLAR, arg) + post), |pre|;
            var q := at + 1 + |digits|;
            && q + 4 + |arg| <= |cmd| && |Bulk(DOLLAR, arg)| == 1 + |digits| + 2 + |arg| + 2
            && cmd[at] == DOLLAR && cmd[at + 1..q] == digits && cmd[q] == CR
            && cmd[q + 2..q + 2 + |arg|] == arg
  {
    var cmd, at := pre + (Bulk(DOLLAR, arg) + post), |pre|;
    var q := at + 1 + |digits|;
    var bulk := Bulk(DOLLAR, arg);
    assert bulk == Line(DOLLAR, digits) + arg + CRLF;
    hide Bulk, Digits;
    var item := bulk + post;
    assert cmd[at..] == item;
    assert item[1..1 + |digits|] == digits && item[1 + |digits|] == CR;
    assert item[3 + |digits|..3 + |digits| + |arg|] == arg;
    Shift(pre, item, 1, 1 + |digits|);
    Shift(pre, item, 3 + |digits|, 3 + |digits| + |arg|);
  }

  lemma {:induction false} Shift(pre: seq<byte>, item: seq<byte>, i: nat, j: nat)
    requires i <= j <= |item|
    ensures (pre + item)[|pre| + i..|pre| + j] == item[i..j]
  {
  }

  lemma {:induction false} NextAt(argv: seq<seq<byte>>, j: nat)
    requires |Formatted(argv)| <= INT_MAX && j < |argv|
    ensures var cmd := Formatted(argv) + [0];
            && Offset(argv, j) < Offset(argv, j + 1) < |cmd|
            && NextArgument(cmd, Offset(argv, j)).Arg?
            && var a := NextArgument(cmd, Offset(argv, j));
               && a.next == Offset(argv, j + 1) && a.len == |argv[j]|
               && a.str + a.len <= |cmd| && cmd[a.str..a.str + a.len] == argv[j]
  {
    hide NextArgument, Bulk, Formatted, Offset;
    var pre, post := SplitAt(argv, j);
    LengthsFit(argv, j);
    Regroup4(pre, Bulk(DOLLAR, argv[j]), post, [0]);
    BulkLength(argv[j]);
    NextOfBulk(pre, argv[j], post + [0]);
  }

  /** The first call skips the argument count. */
  lemma {:induction false} FirstArgument(argv: seq<seq<byte>>)
    requires |Formatted(argv)| <= INT_MAX
    ensures var cmd := Formatted(argv) + [0];
            && Offset(argv, |argv|) == |cmd| - 1
            && NextArgument(cmd, |cmd| - 1) == NoArg
            && NextArgument(cmd, 0) == NextArgument(cmd, Offset(argv, 0))
  {
    var cmd, at := Formatted(argv) + [0], Offset(argv, 0);
    CommandHead(argv);
    hide Formatted, Offset, StrChr, Strtol, ToInt;
    if argv == [] {
      Skips(cmd, 0, DOLLAR, at);
    } else {
      StrChrFound(cmd, 0, DOLLAR, at);
    }
    Skips(cmd, |cmd| - 1, DOLLAR, |cmd| - 1);
  }

  /** Up to the first argument there is no dollar sign and no NUL. */
  lemma {:induction false} CommandHead(argv: seq<seq<byte>>)
    ensures var cmd, at := Formatted(argv) + [0], Offset(argv, 0);
            && 0 < at < |cmd| && cmd[0] != DOLLAR && cmd[|cmd| - 1] == 0 && Offset(argv, |argv|) == |cmd| - 1
            && (forall i :: 0 <= i < at ==> cmd[i] != DOLLAR && cmd[i] != 0)
            && if argv == [] then at == |cmd| - 1 else cmd[at] == DOLLAR
  {
    var cmd := Formatted(argv) + [0];
    var head := Line(STAR, Decimal(|argv|));
    assert argv[..|argv|] == argv && argv[..0] == [];
    BodyStarts(argv);
    assert forall i :: 0 <= i < |head| ==> cmd[i] == head[i];
    assert argv != [] ==> cmd[|head|] == Body(argv)[0];
    hide Body, Formatted;
    CountPlain(|argv|);
  }

  lemma {:induction false} CountPlain(n: nat)
    ensures var head := Line(STAR, Decimal(n));
            |head| > 0 && forall i :: 0 <= i < |head| ==> head[i] != DOLLAR && head[i] != 0
  {
    var head := Line(STAR, Decimal(n));
    DigitsPlain(n);
    hide Digits;
    forall i | 0 <= i < |head| ensures head[i] != DOLLAR && head[i] != 0 {
      if 1 <= i <= |Digits(n)| {
        assert head[i] == Digits(n)[i - 1];
      }
    }
  }

  lemma {:induction false} BodyStarts(argv: seq<seq<byte>>)
    ensures argv == [] ==> Body(argv) == []
    ensures argv != [] ==> Body(argv) != [] && Body(argv)[0] == DOLLAR
  {
    if argv != [] {
      var post := BodySplit(argv, 0);
      assert argv[..0] == [] && Body([]) == [];
      assert Bulk(DOLLAR, argv[0])[0] == DOLLAR;
    }
  }

  lemma {:induction false} Skips(s: seq<byte>, p: nat, c: byte, q: nat)
    requires c != 0 && p <= q < |s| && s[q] == 0
    requires forall i :: p <= i < q ==> s[i] != c && s[i] != 0
    ensures StrChr(s, p, c) == None
    decreases q - p
  {
    if p < q {
      Skips(s, p + 1, c, q);
    }
  }

  /** Iterating nextArgument over a formatted command yields its arguments in order and then stops. */
  method Arguments(cmd: seq<byte>, ghost argv: seq<seq<byte>>) returns (args: seq<seq<byte>>)
    requires |Formatted(argv)| <= INT_MAX && cmd == Formatted(argv) + [0]
    ensures args == argv
  {
    hide Formatted, Offset, NextArgument;
    FirstArgument(argv);
    if argv != [] {
      NextAt(argv, 0);
    }
    assert argv[..0] == [];
    args := [];
    var a := NextArgument(cmd, 0);
    while a.Arg?
      invariant |args| <= |argv| && args == argv[..|args|]
      invariant Offset(argv, |args|) < |cmd| && a == NextArgument(cmd, Offset(argv, |args|))
      decreases |argv| - |args|
    {
      assert |args| < |argv|;
      NextAt(argv, |args|);
      args := args + [cmd[a.str..a.str + a.len]];
      a := NextArgument(cmd, a.next);
    }
    if |args| < |argv| {
      NextAt(argv, |args|);
    }
    assert argv[..|args|] == args;
  }
}

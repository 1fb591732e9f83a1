/**
 The 64-bit integer codec: sdsll2str prints, string2ll parses, and each undoes the other on
 exactly the canonical decimal strings of the values a long long can hold.
 */
module IntegerCodec {
  import opened Bytes

  const TWO63: int := 0x8000_0000_0000_0000
  const ULLONG_MAX: int := 0xFFFF_FFFF_FFFF_FFFF
  const LLONG_MAX: int := 0x7FFF_FFFF_FFFF_FFFF

  type u64 = x: int | 0 <= x <= 0xFFFF_FFFF_FFFF_FFFF
  type i64 = x: int | -0x8000_0000_0000_0000 <= x <= 0x7FFF_FFFF_FFFF_FFFF

  const LLSTR_SIZE := 21

  predicate IsDigit(b: byte) {
    ZERO <= b <= ZERO + 9
  }

  predicate AllDigits(s: seq<byte>) {
    forall i :: 0 <= i < |s| ==> IsDigit(s[i])
  }

  // ---- Printing ----

  /** The decimal digits of n, most significant first, without leading zeros. */
  function Digits(n: nat): (s: seq<byte>)
    ensures |s| > 0 && AllDigits(s)
    ensures s[0] == ZERO ==> n == 0
  {
    if n < 10 then [ZERO + n] else Digits(n / 10) + [ZERO + n % 10]
  }

  /** The canonical decimal string of n. */
  function Decimal(n: int): (s: seq<byte>)
    ensures |s| > 0
  {
    if n < 0 then [MINUS] + Digits(-n) else Digits(n)
  }

  function Pow10(k: nat): (p: int)
    ensures p > 0
  {
    if k == 0 then 1 else 10 * Pow10(k - 1)
  }

  /** Digits(n) has k digits at most exactly when n is below 10^k. */
  lemma {:induction false} DigitsLength(n: nat, k: nat)
    requires k > 0
    ensures |Digits(n)| <= k <==> n < Pow10(k)
  {
    if k == 1 {
      assert Pow10(1) == 10 * Pow10(0) == 10;
    } else if n >= 10 {
      DigitsLength(n / 10, k - 1);
      assert Pow10(k) == 10 * Pow10(k - 1);
    } else {
      DigitsLength(n, k - 1);
      assert Pow10(k) == 10 * Pow10(k - 1);
    }
  }

  /** Twenty digits hold every unsigned 64-bit value, so 21 bytes hold sign-free text and its NUL. */
  lemma {:induction false} U64Fits(n: nat)
    requires n <= ULLONG_MAX
    ensures |Digits(n)| <= 20
    ensures n <= TWO63 ==> |Digits(n)| <= 19
  {
    DigitsLength(n, 20);
    DigitsLength(n, 19);
    Pow10Values();
  }

  lemma {:induction false} Pow10Values()
    ensures Pow10(19) == 10_000_000_000_000_000_000
    ensures Pow10(20) == 100_000_000_000_000_000_000
  {
    assert Pow10(4) == 10_000;
    Pow10Sum(4, 4);
    assert Pow10(8) == 100_000_000;
    Pow10Sum(8, 8);
    assert Pow10(16) == 10_000_000_000_000_000;
    Pow10Sum(16, 3);
    Pow10Sum(16, 4);
  }

  lemma {:induction false} Pow10Sum(a: nat, b: nat)
    ensures Pow10(a + b) == Pow10(a) * Pow10(b)
  {
    if b > 0 {
      Pow10Sum(a, b - 1);
      assert Pow10(a + b) == 10 * Pow10(a + b - 1) == 10 * (Pow10(a) * Pow10(b - 1));
      assert Pow10(b) == 10 * Pow10(b - 1);
      assert 10 * (Pow10(a) * Pow10(b - 1)) == Pow10(a) * (10 * Pow10(b - 1));
    }
  }

  // ---- Parsing ----

  /** The number a digit string denotes, read left to right. */
  function Value(s: seq<byte>): (v: int)
    requires AllDigits(s)
    ensures v >= 0
  {
    if s == [] then 0 else 10 * Value(s[..|s| - 1]) + (s[|s| - 1] - ZERO)
  }

  /** A non-empty digit string that does not start with 0. */
  predicate Magnitude(s: seq<byte>) {
    |s| > 0 && AllDigits(s) && s[0] != ZERO
  }

  /** What string2ll accepts, and the value it returns. */
  function ParseLL(s: seq<byte>): (r: Option<int>)
  {
    if s == [ZERO] then Some(0)
    else if |s| > 0 && s[0] == MINUS then
      if Magnitude(s[1..]) && Value(s[1..]) <= TWO63 then Some(-Value(s[1..])) else None
    else if Magnitude(s) && Value(s) <= LLONG_MAX then Some(Value(s))
    else None
  }

  lemma {:induction false} ValueOfDigits(n: nat)
    ensures Value(Digits(n)) == n
  {
    if n >= 10 {
      ValueOfDigits(n / 10);
      assert Digits(n)[..|Digits(n)| - 1] == Digits(n / 10);
    } else {
      var s := Digits(n);
      assert s[..0] == [];
    }
  }

  lemma {:induction false} DigitsOfValue(s: seq<byte>)
    requires Magnitude(s)
    ensures Value(s) > 0 && Digits(Value(s)) == s
  {
    var front, d := s[..|s| - 1], s[|s| - 1] - ZERO;
    if |s| == 1 {
      assert Value(front) == 0;
    } else {
      assert front[0] == s[0];
      DigitsOfValue(front);
      var v := Value(s);
      assert v == 10 * Value(front) + d;
      assert v / 10 == Value(front) && v % 10 == d;
      assert s == front + [s[|s| - 1]];
    }
  }

  lemma {:induction false} DecimalIsParsed(n: int)
    requires -TWO63 <= n <= LLONG_MAX
    ensures ParseLL(Decimal(n)) == Some(n)
  {
    if n < 0 {
      ValueOfDigits(-n);
      assert Decimal(n)[1..] == Digits(-n);
    } else {
      ValueOfDigits(n);
      assert IsDigit(Digits(n)[0]);
    }
  }

  lemma {:induction false} ParsedIsDecimal(s: seq<byte>)
    requires ParseLL(s).Some?
    ensures -TWO63 <= ParseLL(s).value <= LLONG_MAX && s == Decimal(ParseLL(s).value)
  {
    if s == [ZERO] {
    } else if s[0] == MINUS {
      DigitsOfValue(s[1..]);
      assert s == [MINUS] + s[1..];
    } else {
      DigitsOfValue(s);
    }
  }

  /** string2ll accepts exactly the canonical strings of 64-bit values, with the value they denote. */
  lemma {:induction false} ParseLLExact(s: seq<byte>, n: int)
    ensures ParseLL(s) == Some(n) <==> -TWO63 <= n <= LLONG_MAX && s == Decimal(n)
  {
    if ParseLL(s) == Some(n) {
      ParsedIsDecimal(s);
    }
    if -TWO63 <= n <= LLONG_MAX {
      DecimalIsParsed(n);
    }
  }

  /** The bytes of a decimal string: a minus sign 45, and digits 48 to 57. */
  lemma {:induction false} DecimalBytes(n: int)
    ensures 0 <= n <= 9 ==> Decimal(n) == [48 + n]
    ensures n >= 10 ==> Decimal(n) == Decimal(n / 10) + [48 + n % 10]
    ensures n < 0 ==> Decimal(n) == [45] + Decimal(-n)
  {
  }

  /** Distinct integers print differently. */
  lemma {:induction false} DecimalInjective(m: int, n: int)
    requires Decimal(m) == Decimal(n)
    ensures m == n
  {
    if m >= 0 && n >= 0 {
      ValueOfDigits(m);
      ValueOfDigits(n);
    } else if m < 0 && n < 0 {
      assert Decimal(m)[1..] == Digits(-m) && Decimal(n)[1..] == Digits(-n);
      ValueOfDigits(-m);
      ValueOfDigits(-n);
    }
  }

  lemma {:induction false} ValueSnoc(s: seq<byte>, b: byte)
    requires AllDigits(s) && IsDigit(b)
    ensures AllDigits(s + [b]) && Value(s + [b]) == 10 * Value(s) + (b - ZERO)
  {
    assert (s + [b])[..|s|] == s;
  }

  lemma {:induction false} ValueStep(s: seq<byte>, k: nat)
    requires k < |s| && AllDigits(s[..k]) && IsDigit(s[k])
    ensures AllDigits(s[..k + 1]) && Value(s[..k + 1]) == 10 * Value(s[..k]) + (s[k] - ZERO)
    ensures k == 0 ==> Value(s[..k]) == 0
  {
    ValueSnoc(s[..k], s[k]);
    assert s[..k] + [s[k]] == s[..k + 1];
  }

  lemma {:induction false} ValueMonotone(s: seq<byte>, k: nat)
    requires AllDigits(s) && k <= |s|
    ensures Value(s[..k]) <= Value(s)
    decreases |s|
  {
    if k < |s| {
      var front := s[..|s| - 1];
      ValueMonotone(front, k);
      assert front[..k] == s[..k];
    } else {
      assert s[..k] == s;
    }
  }

  /** The digit loop: a 64-bit unsigned accumulator guarded before every multiply and add. */
  method Accumulate(s: seq<byte>) returns (v: Option<u64>, plen: nat)
    requires |s| > 0 && ZERO < s[0] <= ZERO + 9
    ensures v.None? ==> !AllDigits(s) || Value(s) > ULLONG_MAX
    ensures v.Some? ==> plen <= |s| && AllDigits(s[..plen]) && v.value == Value(s[..plen])
    ensures v.Some? && plen < |s| ==> !IsDigit(s[plen])
  {
    var acc: u64 := s[0] - ZERO;
    plen := 1;
    ValueStep(s, 0);
    while plen < |s| && IsDigit(s[plen])
      invariant 0 < plen <= |s| && AllDigits(s[..plen]) && acc == Value(s[..plen])
    {
      var d := s[plen] - ZERO;
      ValueStep(s, plen);
      if acc > ULLONG_MAX / 10 {
        assert Value(s[..plen + 1]) > ULLONG_MAX;
        Overflowed(s, plen + 1);
        return None, plen;
      }
      acc := acc * 10;
      if acc > ULLONG_MAX - d {
        assert Value(s[..plen + 1]) > ULLONG_MAX;
        Overflowed(s, plen + 1);
        return None, plen;
      }
      acc := acc + d;
      plen := plen + 1;
    }
    v := Some(acc);
  }

  /** string2ll: sign, no leading zero, all bytes used, and the range check on the accumulated magnitude. */
  method String2ll(s: seq<byte>) returns (r: Option<int>)
    ensures r == ParseLL(s)
  {
    if |s| == 0 { return None; }
    if |s| == 1 && s[0] == ZERO { return Some(0); }
    var negative := s[0] == MINUS;
    var digits := if negative then s[1..] else s;
    if |digits| == 0 { return None; }
    if !(ZERO + 1 <= digits[0] <= ZERO + 9) { return None; }
    var v, plen := Accumulate(digits);
    if v == None { return None; }
    if plen < |digits| { return None; }
    assert digits[..plen] == digits;
    if negative {
      if v.value > TWO63 { return None; }
      var n: int := -(v.value as int);
      return Some(n);
    } else {
      if v.value > LLONG_MAX { return None; }
      return Some(v.value);
    }
  }

  /** Once the accumulator guard trips, no completion of the digits can be in range. */
  lemma {:induction false} Overflowed(digits: seq<byte>, k: nat)
    requires k <= |digits| && AllDigits(digits[..k]) && Value(digits[..k]) > ULLONG_MAX
    ensures AllDigits(digits) ==> Value(digits) > ULLONG_MAX
  {
    if AllDigits(digits) {
      ValueMonotone(digits, k);
    }
  }

  function Reversed(s: seq<byte>): (r: seq<byte>)
    ensures |r| == |s|
    ensures forall i :: 0 <= i < |s| ==> r[i] == s[|s| - 1 - i]
  {
    if s == [] then [] else Reversed(s[1..]) + [s[0]]
  }

  /** The digit loop of sdsll2str: least significant first. */
  method PutDigitsBackwards(buf: array<byte>, m: u64) returns (p: nat)
    requires buf.Length >= LLSTR_SIZE
    modifies buf
    ensures p == |Digits(m)| && p <= 20 && buf[..p] == Reversed(Digits(m))
    ensures forall k :: p <= k < buf.Length ==> buf[k] == old(buf[k])
  {
    U64Fits(m);
    ghost var text := Digits(m);
    var v := m;
    p := 0;
    ghost var left := text;
    while true
      invariant 0 <= p < |text|
      invariant left == Digits(v) && |left| == |text| - p && text[..|left|] == left
      invariant forall k :: 0 <= k < p ==> buf[k] == text[|text| - 1 - k]
      invariant forall k :: p <= k < buf.Length ==> buf[k] == old(buf[k])
      decreases v
    {
      assert left[|left| - 1] == ZERO + v % 10;
      assert text[|left| - 1] == text[..|left|][|left| - 1];
      buf[p] := ZERO + v % 10;
      p := p + 1;
      if v / 10 == 0 { break; }
      assert Digits(v) == Digits(v / 10) + [ZERO + v % 10];
      left := left[..|left| - 1];
      v := v / 10;
      assert text[..|left|] == text[..|left| + 1][..|left|];
    }
    assert p == |text|;
  }

  /** The in-place reversal of sdsll2str. */
  method ReversePrefix(buf: array<byte>, l: nat)
    requires 0 < l <= buf.Length
    modifies buf
    ensures buf[..l] == Reversed(old(buf[..l]))
    ensures forall k :: l <= k < buf.Length ==> buf[k] == old(buf[k])
  {
    ghost var raw := buf[..];
    var i, j := 0, l - 1;
    while i < j
      invariant 0 <= i && i + j == l - 1 && i <= j + 1
      invariant forall k :: 0 <= k < i ==> buf[k] == raw[l - 1 - k] && buf[l - 1 - k] == raw[k]
      invariant forall k :: i <= k <= j ==> buf[k] == raw[k]
      invariant forall k :: l <= k < buf.Length ==> buf[k] == raw[k]
    {
      buf[i], buf[j] := buf[j], buf[i];
      i, j := i + 1, j - 1;
    }
    assert buf[..l] == Reversed(raw[..l]);
  }

  lemma ReversedTwice(s: seq<byte>)
    ensures Reversed(Reversed(s)) == s
  {
  }

  /** sdsll2str: generate the digits backwards, add the sign and the NUL, reverse in place. */
  method SdsLl2str(buf: array<byte>, value: i64) returns (l: nat)
    requires buf.Length >= LLSTR_SIZE
    modifies buf
    ensures l < buf.Length && buf[..l] == Decimal(value) && buf[l] == 0
    ensures forall k :: l < k < buf.Length ==> buf[k] == old(buf[k])
  {
    var mag: int := value;
    var v: u64 := if mag < 0 then -mag else mag;
    U64Fits(v);
    l := PutDigitsBackwards(buf, v);
    if value < 0 {
      buf[l] := MINUS;
      l := l + 1;
      assert buf[..l] == Reversed(Digits(v)) + [MINUS];
      ReversedOfCons(MINUS, Digits(v));
    }
    buf[l] := 0;
    assert buf[..l] == Reversed(Decimal(value));
    ReversePrefix(buf, l);
    ReversedTwice(Decimal(value));
  }

  lemma ReversedOfCons(b: byte, s: seq<byte>)
    ensures Reversed([b] + s) == Reversed(s) + [b]
  {
  }
}

/** Number handling shared by the script engine: machine widths of the C types,
    decimal printing (es_newStrFromNumber) and decimal parsing (str2num). */
module Numbers {

  const TWO_31: int := 0x8000_0000
  const TWO_32: int := 0x1_0000_0000
  const TWO_63: int := 0x8000_0000_0000_0000
  const TWO_64: int := 0x1_0000_0000_0000_0000

  /** Conversion of a value to a 32 bit C int. */
  function Trunc32(n: int): (r: int)
    ensures -TWO_31 <= r < TWO_31
  {
    (n + TWO_31) % TWO_32 - TWO_31
  }

  /** Result of 64 bit arithmetic. */
  function Wrap64(n: int): (r: int)
    ensures -TWO_63 <= r < TWO_63
  {
    (n + TWO_63) % TWO_64 - TWO_63
  }

  /** Conversion of a value to sbool, which is a signed char. */
  function Trunc8(n: int): (r: int)
    ensures -128 <= r < 128
  {
    (n + 128) % 256 - 128
  }

  predicate IsInt64(n: int) { -TWO_63 <= n < TWO_63 }

  /** C division: the quotient is truncated toward zero. */
  function TruncDiv(a: int, b: int): (q: int)
    requires b != 0
  {
    if a < 0 then -(-a / b) else a / b
  }

  /** C remainder: it has the sign of the dividend. */
  function TruncMod(a: int, b: int): (r: int)
    requires b != 0
  {
    if a < 0 then -(-a % b) else a % b
  }

  predicate IsDigit(c: char) { '0' <= c <= '9' }

  function DigitChar(d: int): (c: char)
    requires 0 <= d < 10
    ensures IsDigit(c) && DigitValue(c) == d
  {
    '0' + d as char
  }

  function DigitValue(c: char): (d: int)
    requires IsDigit(c)
    ensures 0 <= d < 10
  {
    (c - '0') as int
  }

  function Digits(n: nat): (s: string)
    ensures |s| > 0
    ensures forall i :: 0 <= i < |s| ==> IsDigit(s[i])
  {
    if n < 10 then [DigitChar(n)] else Digits(n / 10) + [DigitChar(n % 10)]
  }

  /** The text es_newStrFromNumber builds. */
  function Decimal(n: int): (s: string)
    ensures |s| > 0
  {
    if n < 0 then "-" + Digits(-n) else Digits(n)
  }

  /** Number of leading digits of a text. */
  function DigitRun(s: string): (k: nat)
    ensures k <= |s|
    ensures forall i :: 0 <= i < k ==> IsDigit(s[i])
    ensures k < |s| ==> !IsDigit(s[k])
  {
    if s == [] || !IsDigit(s[0]) then 0 else 1 + DigitRun(s[1..])
  }

  /** Value of the first digits of a text, the last of them being the least significant. */
  function Value(s: string, k: nat): (n: int)
    requires k <= |s| && forall i :: 0 <= i < k ==> IsDigit(s[i])
    ensures n >= 0
  {
    if k == 0 then 0 else 10 * Value(s, k - 1) + DigitValue(s[k - 1])
  }

  datatype Conversion = Conversion(num: int, ok: bool)

  /** What str2num yields: the number and whether the whole text was used. */
  function Str2Num(s: string): (r: Conversion)
  {
    if s == [] then Conversion(0, true)
    else
      var neg := s[0] == '-';
      var body := if neg then s[1..] else s;
      var k := DigitRun(body);
      Conversion(Wrap64(if neg then -Value(body, k) else Value(body, k)), k == |body|)
  }

  /** str2num as the loop it is. */
  method ConvertText(c: string) returns (num: int, bSuccess: bool)
    ensures Conversion(num, bSuccess) == Str2Num(c)
  {
    num := 0;
    if |c| == 0 { return 0, true; }
    var neg, i := 1, 0;
    if c[0] == '-' { neg, i := -1, 1; }
    ghost var start := i;
    ghost var body := c[start..];
    ghost var k := DigitRun(body);
    while i < |c| && IsDigit(c[i])
      invariant start <= i <= start + k
      invariant num == Wrap64(Value(body, i - start))
    {
      assert body[i - start] == c[i];
      WrapStep(Value(body, i - start), DigitValue(c[i]));
      num := Wrap64(num * 10 + DigitValue(c[i]));
      i := i + 1;
    }
    WrapNeg(Value(body, k));
    num := Wrap64(num * neg);
    bSuccess := i == |c|;
    assert c[0] != '-' ==> body == c;
  }

  lemma WrapStep(v: int, d: int)
    ensures Wrap64(Wrap64(v) * 10 + d) == Wrap64(v * 10 + d)
  {
    WrapMod(v);
    var q :| v == Wrap64(v) + q * TWO_64;
    WrapShift(Wrap64(v) * 10 + d, q * 10);
  }

  lemma WrapNeg(v: int)
    ensures Wrap64(Wrap64(v) * -1) == Wrap64(-v)
    ensures Wrap64(Wrap64(v) * 1) == Wrap64(v)
  {
    WrapMod(v);
    var q :| v == Wrap64(v) + q * TWO_64;
    WrapShift(-Wrap64(v), -q);
  }

  lemma WrapMod(v: int)
    ensures exists q :: v == Wrap64(v) + q * TWO_64
  {
    assert v == Wrap64(v) + ((v + TWO_63) / TWO_64) * TWO_64;
  }

  lemma WrapShift(v: int, q: int)
    ensures Wrap64(v + q * TWO_64) == Wrap64(v)
  {
    assert (v + q * TWO_64 + TWO_63) % TWO_64 == (v + TWO_63) % TWO_64;
  }

  lemma WrapOfInt64(n: int)
    requires IsInt64(n)
    ensures Wrap64(n) == n
  {
  }

  lemma {:induction false} ValueOfPrefix(s: string, t: string, k: nat)
    requires k <= |s| && forall i :: 0 <= i < k ==> IsDigit(s[i])
    ensures Value(s + t, k) == Value(s, k)
  {
    if k > 0 { ValueOfPrefix(s, t, k - 1); }
  }

  lemma {:induction false} ValueOfDigits(n: nat)
    ensures Value(Digits(n), |Digits(n)|) == n
  {
    if n >= 10 {
      ValueOfDigits(n / 10);
      ValueOfPrefix(Digits(n / 10), [DigitChar(n % 10)], |Digits(n / 10)|);
    }
  }

  lemma {:induction false} DigitRunOfDigits(s: string)
    requires forall i :: 0 <= i < |s| ==> IsDigit(s[i])
    ensures DigitRun(s) == |s|
  {
    if s != [] { DigitRunOfDigits(s[1..]); }
  }

  /** Reading a printed number back gives the number, for every 64 bit value. */
  lemma DecimalRoundTrip(n: int)
    requires IsInt64(n)
    ensures Str2Num(Decimal(n)) == Conversion(n, true)
  {
    var body := Digits(if n < 0 then -n else n);
    ValueOfDigits(if n < 0 then -n else n);
    DigitRunOfDigits(body);
    WrapOfInt64(n);
    if n < 0 {
      assert Decimal(n)[1..] == body;
    } else {
      assert body[0] != '-';
    }
  }
}

/** Reading and printing the fixed layouts inside timestamps: decimal fields with a range,
    separated by marks. Positions are indices into the text; `end` is where the length the
    caller gave ends. */
module TimeScan {
  import opened Numbers
  import opened Texts

  /** The guard of srSLMGParseInt32: INT_MAX / 10 - 1. */
  const GUARD: int := 214748363

  datatype Number = Number(value: int, pos: nat)

  /** The number at a position, continuing from the digits read so far, and where it ends. */
  function Scan(text: string, pos: nat, end: int, sofar: int): (r: Number)
    ensures pos <= r.pos && (r.pos <= end || r.pos == pos)
    decreases end - pos
  {
    if pos < end && IsDigit(At(text, pos)) && sofar < GUARD
    then Scan(text, pos + 1, end, sofar * 10 + DigitValue(At(text, pos)))
    else Number(sofar, pos)
  }

  lemma {:induction false} ScanStops(text: string, pos: nat, end: int, sofar: int, stop: nat)
    requires pos <= stop && !IsDigit(At(text, stop))
    ensures Scan(text, pos, end, sofar).pos <= stop
    decreases stop - pos
  {
    if pos < end && IsDigit(At(text, pos)) && sofar < GUARD {
      ScanStops(text, pos + 1, end, sofar * 10 + DigitValue(At(text, pos)), stop);
    }
  }

  /** srSLMGParseInt32, with its pointer and its length. */
  method ParseInt32(text: string, start: nat, length: int) returns (i: int, pos: nat, lenStr: int)
    ensures Number(i, pos) == Scan(text, start, start + length, 0)
    ensures pos + lenStr == start + length
    ensures i >= 0
  {
    i, pos, lenStr := 0, start, length;
    while lenStr > 0 && IsDigit(At(text, pos)) && i < GUARD
      invariant pos + lenStr == start + length && i >= 0
      invariant Scan(text, start, start + length, 0) == Scan(text, pos, start + length, i)
      decreases lenStr
    {
      i := i * 10 + DigitValue(At(text, pos));
      pos := pos + 1;
      lenStr := lenStr - 1;
    }
  }

  function Pow10(n: nat): (p: int)
    ensures p > 0
  {
    if n == 0 then 1 else 10 * Pow10(n - 1)
  }

  /** A number printed with leading zeros, cut to a number of digits. */
  function Padded(v: int, width: nat): (s: string)
    requires v >= 0
    ensures |s| == width
    ensures forall i :: 0 <= i < |s| ==> IsDigit(s[i])
  {
    if width == 0 then [] else Padded(v / 10, width - 1) + [DigitChar(v % 10)]
  }

  predicate NoDigitAt(text: string, pos: nat, end: int) { pos >= end || !IsDigit(At(text, pos)) }

  lemma {:induction false} Pow10Grows(a: nat, b: nat)
    requires a <= b
    ensures Pow10(a) <= Pow10(b)
    ensures Pow10(8) == 1_0000_0000
  {
    if a < b { Pow10Grows(a, b - 1); }
    assert Pow10(2) == 100;
    assert Pow10(4) == 10000;
    assert Pow10(6) == 100_0000;
  }

  lemma Pow10Step(n: nat)
    ensures Pow10(n) == if n == 0 then 1 else 10 * Pow10(n - 1)
  {
  }

  lemma PaddedStep(v: int, width: nat)
    requires v >= 0
    ensures Padded(v, width + 1) == Padded(v / 10, width) + [DigitChar(v % 10)]
  {
  }

  lemma PaddedNone(v: int)
    requires v >= 0
    ensures Padded(v, 0) == []
  {
  }

  lemma ScanDigit(text: string, pos: nat, end: int, v: int)
    requires v >= 0 && pos < end && At(text, pos) == DigitChar(v % 10) && v / 10 < GUARD
    ensures Scan(text, pos, end, v / 10) == Scan(text, pos + 1, end, v)
  {
  }

  /** A number has no more digits than were read for it. */
  lemma {:induction false} ScanBound(text: string, pos: nat, end: int, sofar: int, n: nat)
    requires 0 <= sofar < Pow10(n)
    ensures var r := Scan(text, pos, end, sofar); 0 <= r.value < Pow10(n + (r.pos - pos))
    decreases end - pos
  {
    if pos < end && IsDigit(At(text, pos)) && sofar < GUARD {
      ScanBound(text, pos + 1, end, sofar * 10 + DigitValue(At(text, pos)), n + 1);
    }
  }

  /** Reading a padded number goes on behind it with its value. */
  lemma {:induction false} ScanThrough(text: string, pos: nat, end: int, v: int, width: nat)
    requires 0 <= v < Pow10(width) && width <= 9
    requires Holds(text, pos, Padded(v, width)) && pos + width <= end
    ensures Scan(text, pos, end, 0) == Scan(text, pos + width, end, v)
  {
    hide Pow10, Padded, Holds, DigitChar;
    Pow10Step(width);
    if width == 0 {
      PaddedNone(v);
    } else {
      var d := DigitChar(v % 10);
      PaddedStep(v, width - 1);
      HoldsParts(text, pos, Padded(v / 10, width - 1), [d]);
      ScanThrough(text, pos, end, v / 10, width - 1);
      Pow10Grows(width - 1, 8);
      HoldsFirst(text, pos + (width - 1), d);
      ScanDigit(text, pos + (width - 1), end, v);
    }
  }

  lemma ScanPadded(text: string, pos: nat, end: int, v: int, width: nat)
    requires 0 <= v < Pow10(width) && width <= 9
    requires Holds(text, pos, Padded(v, width)) && pos + width <= end && NoDigitAt(text, pos + width, end)
    ensures Scan(text, pos, end, 0) == Number(v, pos + width)
  {
    ScanThrough(text, pos, end, v, width);
  }

  lemma PaddedOne(d: int, rest: int)
    requires 0 <= d < 10 && rest == 0
    ensures Padded(d * 1 + rest, 1) == [DigitChar(d)] + Padded(rest, 0)
  {
    PaddedStep(d, 0);
  }

  lemma TenTimes(d: int, p: int)
    ensures d * (10 * p) == 10 * (d * p)
  {
  }

  lemma TensOff(x: int, rest: int)
    requires x >= 0 && rest >= 0
    ensures (10 * x + rest) / 10 == x + rest / 10 && (10 * x + rest) % 10 == rest % 10
  {
  }

  /** The first digit of a padded number. */
  lemma {:induction false} PaddedFirst(d: int, rest: int, width: nat)
    requires 0 <= d < 10 && 0 <= rest < Pow10(width)
    ensures Padded(d * Pow10(width) + rest, width + 1) == [DigitChar(d)] + Padded(rest, width)
  {
    hide Pow10, DigitChar, Padded;
    Pow10Step(width);
    if width == 0 {
      PaddedOne(d, rest);
    } else {
      var p := Pow10(width - 1);
      TenTimes(d, p);
      TensOff(d * p, rest);
      PaddedFirst(d, rest / 10, width - 1);
      PaddedStep(d * Pow10(width) + rest, width);
      PaddedStep(rest, width - 1);
    }
  }

  // ----- layouts -----

  /** Decimal fields with their range and printed width, and the marks between them. */
  datatype Layout = End | Field(lo: int, hi: int, width: nat, next: Layout) | Mark(c: char, next: Layout)

  datatype Parsed = Bad | Good(values: seq<int>, pos: nat)

  function Read(f: Layout, text: string, pos: nat, end: int, values: seq<int>): (r: Parsed)
    ensures r.Good? ==> pos <= r.pos && (r.pos <= end || r.pos == pos)
    ensures r.Good? ==> |r.values| == |values| + Fields(f)
    decreases f
  {
    match f
    case End => Good(values, pos)
    case Field(lo, hi, _, next) =>
      var n := Scan(text, pos, end, 0);
      if lo <= n.value <= hi then Read(next, text, n.pos, end, values + [n.value]) else Bad
    case Mark(c, next) =>
      if pos < end && At(text, pos) == c then Read(next, text, pos + 1, end, values) else Bad
  }

  function Fields(f: Layout): nat {
    match f
    case End => 0
    case Field(_, _, _, next) => 1 + Fields(next)
    case Mark(_, next) => Fields(next)
  }

  /** There is a value, not negative, for every field. */
  predicate Shows(f: Layout, values: seq<int>) {
    match f
    case End => values == []
    case Field(_, _, _, next) => values != [] && values[0] >= 0 && Shows(next, values[1..])
    case Mark(_, next) => Shows(next, values)
  }

  /** The values are in range and fit their printed width. */
  predicate Fit(f: Layout, values: seq<int>): (fits: bool)
    ensures fits ==> Shows(f, values)
  {
    match f
    case End => values == []
    case Field(lo, hi, width, next) =>
      && values != [] && 0 <= lo <= values[0] <= hi && values[0] < Pow10(width) && width <= 9
      && Fit(next, values[1..])
    case Mark(_, next) => Fit(next, values)
  }

  /** Every field is printed with its width, cut to its last digits if it has more. */
  function Print(f: Layout, values: seq<int>): string
    requires Shows(f, values)
  {
    match f
    case End => []
    case Field(_, _, width, next) => Padded(values[0], width) + Print(next, values[1..])
    case Mark(c, next) => [c] + Print(next, values)
  }

  /** Every field is followed by a mark that is no digit, or by the end. */
  predicate Separated(f: Layout) {
    match f
    case End => true
    case Field(_, _, _, next) => !next.Field? && Separated(next)
    case Mark(c, next) => !IsDigit(c) && Separated(next)
  }

  /** What a layout prints, it reads back. */
  lemma {:induction false} ReadPrinted(f: Layout, text: string, pos: nat, end: int, values: seq<int>, acc: seq<int>)
    requires Fit(f, values) && Separated(f)
    requires Holds(text, pos, Print(f, values)) && pos + |Print(f, values)| <= end
    requires NoDigitAt(text, pos + |Print(f, values)|, end)
    ensures Read(f, text, pos, end, acc) == Good(acc + values, pos + |Print(f, values)|)
    decreases f
  {
    hide Scan, Padded, Pow10, NoDigitAt, Holds;
    match f
    case End =>
      assert acc + values == acc;
    case Field(_, _, width, next) =>
      HoldsParts(text, pos, Padded(values[0], width), Print(next, values[1..]));
      ReadPrinted(next, text, pos + width, end, values[1..], acc + [values[0]]);
      BehindField(next, text, pos + width, end, values[1..]);
      ScanPadded(text, pos, end, values[0], width);
      assert acc + [values[0]] + values[1..] == acc + values;
    case Mark(c, next) =>
      HoldsParts(text, pos, [c], Print(next, values));
      HoldsFirst(text, pos, c);
      ReadPrinted(next, text, pos + 1, end, values, acc);
  }

  lemma BehindField(next: Layout, text: string, pos: nat, end: int, values: seq<int>)
    requires Fit(next, values) && !next.Field? && Separated(next)
    requires Holds(text, pos, Print(next, values)) && NoDigitAt(text, pos + |Print(next, values)|, end)
    ensures NoDigitAt(text, pos, end)
  {
    if next.Mark? {
      HoldsParts(text, pos, [next.c], Print(next.next, values));
      assert text[pos] == next.c;
    }
  }

  /** Whether values are in the ranges of a layout. */
  predicate InRanges(f: Layout, values: seq<int>) {
    match f
    case End => values == []
    case Field(lo, hi, _, next) => values != [] && lo <= values[0] <= hi && InRanges(next, values[1..])
    case Mark(_, next) => InRanges(next, values)
  }

  /** What a layout reads is in its ranges. */
  lemma {:induction false} ReadInRanges(f: Layout, text: string, pos: nat, end: int, acc: seq<int>)
    requires Read(f, text, pos, end, acc).Good?
    ensures var v := Read(f, text, pos, end, acc).values; acc <= v && InRanges(f, v[|acc|..])
    decreases f
  {
    match f
    case End =>
    case Field(lo, hi, _, next) =>
      var n := Scan(text, pos, end, 0);
      ReadInRanges(next, text, n.pos, end, acc + [n.value]);
      var v := Read(f, text, pos, end, acc).values;
      assert v[|acc|] == n.value && v[|acc|..][1..] == v[|acc| + 1..];
    case Mark(_, next) => ReadInRanges(next, text, pos + 1, end, acc);
  }

  /** The printed width shows all values in range. */
  predicate Sized(f: Layout) {
    match f
    case End => true
    case Field(lo, hi, width, next) => 0 <= lo && hi < Pow10(width) && width <= 9 && Sized(next)
    case Mark(_, next) => Sized(next)
  }

  lemma {:induction false} RangesFit(f: Layout, values: seq<int>)
    requires Sized(f) && InRanges(f, values)
    ensures Fit(f, values)
    decreases f
  {
    match f
    case End =>
    case Field(_, _, _, next) => RangesFit(next, values[1..]);
    case Mark(_, next) => RangesFit(next, values);
  }

  // ----- writing into a buffer -----

  method Put(pBuf: array<char>, iBuf: nat, c: char) returns (next: nat)
    requires iBuf < pBuf.Length
    modifies pBuf
    ensures next == iBuf + 1 && pBuf[..next] == old(pBuf[..iBuf]) + [c]
  {
    pBuf[iBuf] := c;
    next := iBuf + 1;
  }

  /** Two digits. */
  method PutTwo(pBuf: array<char>, iBuf: nat, v: int) returns (next: nat)
    requires iBuf + 2 <= pBuf.Length && v >= 0
    modifies pBuf
    ensures next == iBuf + 2 && pBuf[..next] == old(pBuf[..iBuf]) + Padded(v, 2)
  {
    assert Padded(v, 2) == Padded(v / 10, 1) + [DigitChar(v % 10)];
    assert Padded(v / 10, 1) == [] + [DigitChar(v / 10 % 10)];
    pBuf[iBuf] := DigitChar(v / 10 % 10);
    pBuf[iBuf + 1] := DigitChar(v % 10);
    next := iBuf + 2;
  }

  lemma PaddedFour(v: int)
    requires v >= 0
    ensures Padded(v, 4)
      == [DigitChar(v / 1000 % 10), DigitChar(v / 100 % 10), DigitChar(v / 10 % 10), DigitChar(v % 10)]
  {
    hide Padded, DigitChar;
    var c, k := v / 100, v / 1000;
    assert v / 10 / 10 == c && c / 10 == k;
    PaddedStep(v, 3);
    PaddedStep(v / 10, 2);
    PaddedStep(c, 1);
    PaddedStep(k, 0);
    PaddedNone(k / 10);
  }

  /** Four digits. */
  method PutFour(pBuf: array<char>, iBuf: nat, v: int) returns (next: nat)
    requires iBuf + 4 <= pBuf.Length && v >= 0
    modifies pBuf
    ensures next == iBuf + 4 && pBuf[..next] == old(pBuf[..iBuf]) + Padded(v, 4)
  {
    PaddedFour(v);
    pBuf[iBuf] := DigitChar(v / 1000 % 10);
    pBuf[iBuf + 1] := DigitChar(v / 100 % 10);
    pBuf[iBuf + 2] := DigitChar(v / 10 % 10);
    pBuf[iBuf + 3] := DigitChar(v % 10);
    next := iBuf + 4;
  }

  lemma Product(q: int, p: int)
    requires p > 0
    ensures q >= 10 ==> q * p >= 10 * p
    ensures q < 0 ==> q * p < 0
  {
  }

  lemma FirstDigit(v: int, p: int)
    requires p > 0 && 0 <= v < 10 * p
    ensures 0 <= v / p < 10 && 0 <= v - v / p * p < p
  {
    assert v == v / p * p + v % p;
    Product(v / p, p);
  }

  /** One field and the mark behind it, of a layout that prints `whole`. */
  method PutPart(ghost f: Layout, ghost values: seq<int>, ghost whole: string, pBuf: array<char>, start: nat, v: int, c: char)
    returns (iBuf: nat)
    requires start + 3 <= pBuf.Length
    requires f.Field? && f.width == 2 && f.next.Mark? && f.next.c == c && Shows(f, values) && values[0] == v
    requires pBuf[..start] + Print(f, values) == whole
    modifies pBuf
    ensures iBuf == start + 3 && Shows(f.next.next, values[1..]) && pBuf[..iBuf] + Print(f.next.next, values[1..]) == whole
  {
    ghost var done := pBuf[..start];
    iBuf := PutTwo(pBuf, start, v);
    iBuf := Put(pBuf, iBuf, c);
    PartPrinted(f, values, done);
  }

  lemma PartPrinted(f: Layout, values: seq<int>, done: string)
    requires f.Field? && f.next.Mark? && Shows(f, values)
    ensures Shows(f.next, values[1..]) && Shows(f.next.next, values[1..])
    ensures done + Print(f, values) == done + Padded(values[0], f.width) + [f.next.c] + Print(f.next.next, values[1..])
  {
    var p, t := Padded(values[0], f.width), Print(f.next.next, values[1..]);
    assert Print(f, values) == p + ([f.next.c] + t);
  }

  /** The conversions of an int to a short and to a byte. */
  function ShortOf(n: int): int { (n + 0x8000) % 0x10000 - 0x8000 }
  function ByteOf(n: int): char { (n % 256) as char }

  /** What the loop over the powers of ten writes for a fraction, whether or not it fits. */
  function FractionChars(v: int, width: nat): (s: string)
    ensures |s| == width
    decreases width
  {
    if width == 0 then []
    else
      var power := Pow10(width - 1);
      var digit := ShortOf(TruncDiv(v, power));
      [ByteOf(digit + '0' as int)] + FractionChars(v - digit * power, width - 1)
  }

  lemma SmallDigit(v: int, p: int)
    requires p > 0 && v >= 0 && 0 <= v / p < 10
    ensures TruncDiv(v, p) == v / p && ShortOf(v / p) == v / p && ByteOf(v / p + '0' as int) == DigitChar(v / p)
  {
  }

  /** A fraction that fits is printed with its digits. */
  lemma {:induction false} FractionDigitsPrinted(v: int, width: nat)
    requires 0 <= v < Pow10(width)
    ensures FractionChars(v, width) == Padded(v, width)
    decreases width
  {
    hide Pow10, Padded, ShortOf, ByteOf, TruncDiv, DigitChar;
    Pow10Step(width);
    if width == 0 {
      PaddedNone(v);
    } else {
      var power := Pow10(width - 1);
      var digit := v / power;
      FirstDigit(v, power);
      SmallDigit(v, power);
      var rest := v - digit * power;
      PaddedFirst(digit, rest, width - 1);
      FractionDigitsPrinted(rest, width - 1);
    }
  }

  lemma NextFraction(v: int, width: nat)
    requires width > 0
    ensures var power := Pow10(width - 1); var digit := ShortOf(TruncDiv(v, power));
      FractionChars(v, width) == [ByteOf(digit + '0' as int)] + FractionChars(v - digit * power, width - 1)
  {
  }

  lemma NoFraction(v: int)
    ensures FractionChars(v, 0) == []
  {
  }

  lemma NextPower(width: nat)
    requires width > 0
    ensures Pow10(width - 1) / 10 == if width == 1 then 0 else Pow10(width - 2)
  {
  }

  /** The digits of a fraction, from a power of ten down. */
  method PutFraction(pBuf: array<char>, start: nat, value: int, width: nat) returns (iBuf: nat)
    requires width > 0 && start + width <= pBuf.Length
    modifies pBuf
    ensures iBuf == start + width && pBuf[..iBuf] == old(pBuf[..start]) + FractionChars(value, width)
  {
    hide ShortOf, TruncDiv, ByteOf, Pow10, FractionChars;
    var power, secfrac := Pow10(width - 1), value;
    ghost var left := width;
    ghost var whole := pBuf[..start] + FractionChars(value, width);
    iBuf := start;
    while power > 0
      invariant 0 <= left <= width && iBuf == start + width - left
      invariant power == if left == 0 then 0 else Pow10(left - 1)
      invariant pBuf[..iBuf] + FractionChars(secfrac, left) == whole
      decreases left
    {
      var digit := ShortOf(TruncDiv(secfrac, power));
      ghost var done := pBuf[..iBuf];
      NextFraction(secfrac, left);
      NextPower(left);
      secfrac := secfrac - digit * power;
      power := power / 10;
      iBuf := Put(pBuf, iBuf, ByteOf(digit + '0' as int));
      left := left - 1;
      assert done + ([ByteOf(digit + '0' as int)] + FractionChars(secfrac, left)) == pBuf[..iBuf] + FractionChars(secfrac, left);
    }
    NoFraction(secfrac);
  }
}

/** Timestamps in the format of section 5.6 of RFC 3339, as section 6.2.3 of RFC 5424 uses it. */
module Timestamp3339 {
  import opened Numbers
  import opened Calendar
  import opened Options
  import opened Texts
  import opened TimeScan

  /** A time read from a text and the position behind it. */
  datatype Stamp = Stamp(time: SyslogTime, pos: nat)

  // ----- the layout -----

  const SECOND: Layout := Field(0, 60, 2, End)
  const MINUTE: Layout := Field(0, 59, 2, Mark(':', SECOND))
  const HOUR: Layout := Field(0, 23, 2, Mark(':', MINUTE))
  const DAY: Layout := Field(1, 31, 2, Mark('T', HOUR))
  const MONTH: Layout := Field(1, 12, 2, Mark('-', DAY))
  const DATE_TIME: Layout := Field(0, 2099, 4, Mark('-', MONTH))
  const OFFSET_MINUTE: Layout := Field(0, 59, 2, End)
  const OFFSET: Layout := Field(0, 23, 2, Mark(':', OFFSET_MINUTE))

  lemma FieldCounts()
    ensures Fields(DATE_TIME) == 6 && Fields(OFFSET) == 2
  {
    assert Fields(MINUTE) == 2;
    assert Fields(DAY) == 4;
  }

  datatype Fraction = Fraction(value: int, precision: nat, pos: nat)

  function ReadFraction(text: string, pos: nat, end: int): (r: Fraction)
    ensures pos <= r.pos && (pos <= end ==> r.pos <= end)
  {
    if pos < end && At(text, pos) == '.' then
      var n := Scan(text, pos + 1, end, 0);
      Fraction(n.value, n.pos - (pos + 1), n.pos)
    else Fraction(0, 0, pos)
  }

  datatype Zone = Zone(mode: char, hour: int, minute: int, pos: nat)

  function ReadZone(text: string, pos: nat, end: int): (r: Option<Zone>)
    ensures r.Some? ==> pos <= r.value.pos <= end
  {
    if pos >= end then None
    else if At(text, pos) == 'Z' then Some(Zone('Z', 0, 0, pos + 1))
    else if At(text, pos) == '+' || At(text, pos) == '-' then
      match Read(OFFSET, text, pos + 1, end, []) {
        case Bad => None
        case Good(v, p) => Some(Zone(At(text, pos), v[0], v[1], p))
      }
    else None
  }

  function Assemble(v: seq<int>, fraction: Fraction, zone: Zone): SyslogTime
    requires |v| == 6
  {
    SyslogTime(2, v[0], v[1], v[2], v[3], v[4], v[5],
      fraction.value, fraction.precision, zone.mode, zone.hour, zone.minute)
  }

  /** The timestamp at a position, up to and including a space behind it. */
  function Meaning(text: string, pos: nat, end: int): (r: Option<Stamp>)
    ensures r.Some? ==> pos <= r.value.pos <= end
  {
    FieldCounts();
    match Read(DATE_TIME, text, pos, end, [])
    case Bad => None
    case Good(v, p) => MeaningBehind(v, text, p, end)
  }

  /** The rest of it, behind the date and time. */
  function MeaningBehind(v: seq<int>, text: string, pos: nat, end: int): (r: Option<Stamp>)
    requires |v| == 6
    ensures r.Some? ==> pos <= r.value.pos <= end
  {
    var fraction := ReadFraction(text, pos, end);
    match ReadZone(text, fraction.pos, end)
    case None => None
    case Some(zone) =>
      var time := Assemble(v, fraction, zone);
      if zone.pos >= end then Some(Stamp(time, zone.pos))
      else if At(text, zone.pos) == ' ' then Some(Stamp(time, zone.pos + 1))
      else None
  }

  // ----- the parser -----

  /** One field with the mark behind it. */
  method ReadPart(ghost f: Layout, text: string, start: nat, length: int, c: char, lo: int, hi: int, ghost acc: seq<int>)
    returns (ok: bool, n: int, pos: nat, lenStr: int)
    requires length >= 0 && f.Field? && f.lo == lo && f.hi == hi && f.next.Mark? && f.next.c == c
    ensures lenStr >= 0 && pos + lenStr == start + length
    ensures Read(f, text, start, start + length, acc)
      == if ok then Read(f.next.next, text, pos, start + length, acc + [n]) else Bad
  {
    n, pos, lenStr := ParseInt32(text, start, length);
    if n < lo || n > hi || lenStr == 0 || At(text, pos) != c { return false, n, pos, lenStr; }
    pos, lenStr, ok := pos + 1, lenStr - 1, true;
  }

  method ParseDate(text: string, start: nat, length: int) returns (ok: bool, v: seq<int>, pos: nat, lenStr: int)
    requires length >= 0
    ensures lenStr >= 0 && pos + lenStr == start + length
    ensures Read(DATE_TIME, text, start, start + length, [])
      == if ok then Read(HOUR, text, pos, start + length, v) else Bad
  {
    hide Read;
    var n;
    v := [];
    ok, n, pos, lenStr := ReadPart(DATE_TIME, text, start, length, '-', 0, 2099, v);
    if !ok { return; }
    v := v + [n];
    ok, n, pos, lenStr := ReadPart(MONTH, text, pos, lenStr, '-', 1, 12, v);
    if !ok { return; }
    v := v + [n];
    ok, n, pos, lenStr := ReadPart(DAY, text, pos, lenStr, 'T', 1, 31, v);
    if !ok { return; }
    v := v + [n];
  }

  method ParseTime(date: seq<int>, text: string, start: nat, length: int)
    returns (ok: bool, v: seq<int>, pos: nat, lenStr: int)
    requires length >= 0
    ensures lenStr >= 0 && pos + lenStr == start + length
    ensures Read(HOUR, text, start, start + length, date) == if ok then Good(v, pos) else Bad
  {
    var n;
    v := date;
    ok, n, pos, lenStr := ReadPart(HOUR, text, start, length, ':', 0, 23, v);
    if !ok { return; }
    v := v + [n];
    ok, n, pos, lenStr := ReadPart(MINUTE, text, pos, lenStr, ':', 0, 59, v);
    if !ok { return; }
    v := v + [n];
    n, pos, lenStr := ParseInt32(text, pos, lenStr);
    ok := 0 <= n <= 60;
    v := v + [n];
  }

  method ParseZone(text: string, start: nat, length: int)
    returns (ok: bool, mode: char, hour: int, minute: int, pos: nat, lenStr: int)
    requires length >= 0
    ensures lenStr >= 0 && pos + lenStr == start + length
    ensures ReadZone(text, start, start + length) == if ok then Some(Zone(mode, hour, minute, pos)) else None
  {
    hide Scan, Fields;
    FieldCounts();
    ok, mode, hour, minute, pos, lenStr := false, 'Z', 0, 0, start, length;
    if lenStr == 0 { return; }
    if At(text, pos) == 'Z' {
      ok, pos, lenStr := true, pos + 1, lenStr - 1;
    } else if At(text, pos) == '+' || At(text, pos) == '-' {
      mode := At(text, pos);
      ok, hour, pos, lenStr := ReadPart(OFFSET, text, pos + 1, lenStr - 1, ':', 0, 23, []);
      if !ok { return; }
      minute, pos, lenStr := ParseInt32(text, pos, lenStr);
      ok := 0 <= minute <= 59;
      assert [] + [hour] + [minute] == [hour, minute];
    }
  }

  method ParseBehind(v: seq<int>, text: string, start: nat, length: int)
    returns (ok: bool, time: SyslogTime, pos: nat, lenStr: int)
    requires |v| == 6 && length >= 0
    ensures lenStr >= 0 && pos + lenStr == start + length
    ensures MeaningBehind(v, text, start, start + length) == if ok then Some(Stamp(time, pos)) else None
  {
    hide Scan, Read, ReadZone;
    pos, lenStr := start, length;
    var secfrac, secfracPrecision := 0, 0;
    if lenStr > 0 && At(text, pos) == '.' {
      var pszStart := pos + 1;
      secfrac, pos, lenStr := ParseInt32(text, pos + 1, lenStr - 1);
      secfracPrecision := pos - pszStart;
    }
    var mode, hour, minute;
    ok, mode, hour, minute, pos, lenStr := ParseZone(text, pos, lenStr);
    time := SyslogTime(2, v[0], v[1], v[2], v[3], v[4], v[5], secfrac, secfracPrecision, mode, hour, minute);
    if ok && lenStr > 0 {
      if At(text, pos) != ' ' { ok := false; return; }
      pos, lenStr := pos + 1, lenStr - 1;
    }
  }

  /** ParseTIMESTAMP3339: the caller's position, length and time change only on success, and
      then the position advances by exactly what the length drops. */
  method ParseTimestamp(before: SyslogTime, text: string, start: nat, length: int)
    returns (ok: bool, time: SyslogTime, pos: nat, lenStr: int)
    requires length >= 0
    ensures lenStr >= 0 && pos + lenStr == start + length
    ensures !ok ==> time == before && pos == start
    ensures Meaning(text, start, start + length) == if ok then Some(Stamp(time, pos)) else None
  {
    hide Read, Fields, MeaningBehind;
    FieldCounts();
    var v, p, l;
    ok, v, p, l := ParseDate(text, start, length);
    if ok { ok, v, p, l := ParseTime(v, text, p, l); }
    if ok { ok, time, pos, lenStr := ParseBehind(v, text, p, l); }
    if !ok { time, pos, lenStr := before, start, length; }
  }

  // ----- the formatter -----

  function DateTime(ts: SyslogTime): seq<int> { [ts.year, ts.month, ts.day, ts.hour, ts.minute, ts.second] }

  /** Digits the fraction is printed with. */
  function FractionDigits(precision: int): nat
    requires precision > 0
  {
    (precision - 1) % 6 + 1
  }

  /** No field of date, time and offset is negative. */
  predicate Shown(ts: SyslogTime) {
    Shows(DATE_TIME, DateTime(ts)) && (ts.offsetMode != 'Z' ==> Shows(OFFSET, [ts.offsetHour, ts.offsetMinute]))
  }

  /** Date, time and offset are in the ranges of the format, with a year below 2100. */
  predicate InFormat(ts: SyslogTime) {
    Fit(DATE_TIME, DateTime(ts)) && (ts.offsetMode != 'Z' ==> Fit(OFFSET, [ts.offsetHour, ts.offsetMinute]))
  }

  function FractionText(ts: SyslogTime): string {
    if ts.secfracPrecision > 0 then "." + FractionChars(ts.secfrac, FractionDigits(ts.secfracPrecision)) else ""
  }

  function ZoneText(ts: SyslogTime): string
    requires Shown(ts)
  {
    if ts.offsetMode == 'Z' then "Z" else [ts.offsetMode] + Print(OFFSET, [ts.offsetHour, ts.offsetMinute])
  }

  /** The text of a timestamp. */
  function Text(ts: SyslogTime): string
    requires Shown(ts)
  {
    Print(DATE_TIME, DateTime(ts)) + FractionText(ts) + ZoneText(ts)
  }

  /** The fields other than the fraction are such as the parser yields. */
  predicate Regular(ts: SyslogTime) {
    && Shown(ts) && InFormat(ts) && ts.timeType == 2 && ts.secfracPrecision >= 0 && (ts.secfracPrecision == 0 ==> ts.secfrac == 0)
    && ts.offsetMode in "Z+-" && (ts.offsetMode == 'Z' ==> ts.offsetHour == 0 && ts.offsetMinute == 0)
  }

  /** The fraction has as many digits as its precision says, and the formatter prints them. */
  predicate FullFraction(ts: SyslogTime) {
    0 <= ts.secfracPrecision <= 6 && 0 <= ts.secfrac < Pow10(ts.secfracPrecision)
  }

  /** Times the parser can yield, with a fraction the formatter prints in full. */
  predicate Canonical(ts: SyslogTime) { Regular(ts) && FullFraction(ts) }

  lemma LayoutSeparated()
    ensures Separated(DATE_TIME) && Separated(OFFSET)
  {
    assert Separated(MINUTE);
    assert Separated(DAY);
  }

  lemma FractionTextIs(ts: SyslogTime)
    requires Canonical(ts)
    ensures FractionText(ts) == if ts.secfracPrecision > 0 then "." + Padded(ts.secfrac, ts.secfracPrecision) else ""
  {
    hide Padded, Pow10, FractionChars, Regular;
    if ts.secfracPrecision > 0 {
      FractionDigitsPrinted(ts.secfrac, ts.secfracPrecision);
    }
  }

  lemma FractionRead(ts: SyslogTime, text: string, pos: nat, end: int)
    requires Canonical(ts) && Holds(text, pos, FractionText(ts)) && pos + |FractionText(ts)| < end
    requires !IsDigit(At(text, pos + |FractionText(ts)|)) && At(text, pos + |FractionText(ts)|) != '.'
    ensures ReadFraction(text, pos, end) == Fraction(ts.secfrac, ts.secfracPrecision, pos + |FractionText(ts)|)
  {
    hide FractionText, Holds, Padded, Scan, Pow10, Shown;
    FractionTextIs(ts);
    if ts.secfracPrecision > 0 {
      HoldsParts(text, pos, ".", Padded(ts.secfrac, ts.secfracPrecision));
      HoldsFirst(text, pos, '.');
      ScanPadded(text, pos + 1, end, ts.secfrac, ts.secfracPrecision);
    }
  }

  lemma ZoneRead(ts: SyslogTime, text: string, pos: nat, end: int)
    requires Regular(ts) && Holds(text, pos, ZoneText(ts)) && pos + |ZoneText(ts)| <= end
    requires NoDigitAt(text, pos + |ZoneText(ts)|, end)
    ensures ReadZone(text, pos, end)
      == Some(Zone(ts.offsetMode, ts.offsetHour, ts.offsetMinute, pos + |ZoneText(ts)|))
    ensures pos < end && At(text, pos) == ts.offsetMode
  {
    hide Holds, Scan, NoDigitAt, Padded, Read, Print, Shows, Fit, Separated;
    if ts.offsetMode == 'Z' {
      HoldsFirst(text, pos, 'Z');
    } else {
      var v := [ts.offsetHour, ts.offsetMinute];
      HoldsParts(text, pos, [ts.offsetMode], Print(OFFSET, v));
      HoldsFirst(text, pos, ts.offsetMode);
      LayoutSeparated();
      FieldCounts();
      ReadPrinted(OFFSET, text, pos + 1, end, v, []);
      assert [] + v == v;
    }
  }

  lemma RestRead(ts: SyslogTime, text: string, pos: nat, end: int)
    requires Canonical(ts) && Holds(text, pos, FractionText(ts)) && Holds(text, pos + |FractionText(ts)|, ZoneText(ts))
    requires pos + |FractionText(ts)| + |ZoneText(ts)| <= end
    requires var behind := pos + |FractionText(ts)| + |ZoneText(ts)|; behind < end ==> At(text, behind) == ' '
    ensures NoDigitAt(text, pos, end)
    ensures var behind := pos + |FractionText(ts)| + |ZoneText(ts)|;
      MeaningBehind(DateTime(ts), text, pos, end) == Some(Stamp(ts, if behind < end then behind + 1 else behind))
  {
    hide ReadZone, ReadFraction, Holds, ZoneText, FractionText, Shown, FullFraction, Scan;
    ZoneRead(ts, text, pos + |FractionText(ts)|, end);
    FractionRead(ts, text, pos, end);
    BehindDate(ts, text, pos, end);
  }

  /** What is printed is read back, with all fields, and nothing else but one space behind it
      is consumed. */
  lemma RoundTrip(ts: SyslogTime, text: string, pos: nat, end: int)
    requires Canonical(ts) && Holds(text, pos, Text(ts)) && pos + |Text(ts)| <= end
    requires pos + |Text(ts)| < end ==> At(text, pos + |Text(ts)|) == ' '
    ensures var behind := pos + |Text(ts)|;
      Meaning(text, pos, end) == Some(Stamp(ts, if behind < end then behind + 1 else behind))
  {
    hide Read, Fields, Print, Holds, ZoneText, FractionText, Fit, MeaningBehind, Separated, Pow10, DateTime, NoDigitAt;
    var a, b, c := Print(DATE_TIME, DateTime(ts)), FractionText(ts), ZoneText(ts);
    HoldsParts(text, pos, a + b, c);
    HoldsParts(text, pos, a, b);
    RestRead(ts, text, pos + |a|, end);
    LayoutSeparated();
    ReadPrinted(DATE_TIME, text, pos, end, DateTime(ts), []);
    assert [] + DateTime(ts) == DateTime(ts);
    FieldCounts();
  }

  lemma BehindDate(ts: SyslogTime, text: string, pos: nat, end: int)
    requires Regular(ts) && Holds(text, pos, FractionText(ts))
    requires At(text, pos + |FractionText(ts)|) == ts.offsetMode
    ensures NoDigitAt(text, pos, end)
  {
    if ts.secfracPrecision > 0 {
      HoldsParts(text, pos, ".", FractionChars(ts.secfrac, FractionDigits(ts.secfracPrecision)));
      HoldsFirst(text, pos, '.');
    }
  }

  // ----- the formatter writes that text -----

  lemma LayoutSized()
    ensures Sized(DATE_TIME) && Sized(OFFSET)
  {
    assert Pow10(2) == 100;
    assert Pow10(4) == 10000;
    assert Sized(MINUTE);
    assert Sized(DAY);
  }

  method PutDateTime(ts: SyslogTime, pBuf: array<char>) returns (iBuf: nat)
    requires Shown(ts) && pBuf.Length >= 19
    modifies pBuf
    ensures iBuf == 19 && pBuf[..iBuf] == Print(DATE_TIME, DateTime(ts))
  {
    hide Padded, Pow10, FractionDigits;
    ghost var v := DateTime(ts);
    ghost var whole := Print(DATE_TIME, v);
    iBuf := PutFour(pBuf, 0, ts.year);
    iBuf := Put(pBuf, iBuf, '-');
    PartPrinted(DATE_TIME, v, []);
    assert pBuf[..iBuf] + Print(MONTH, v[1..]) == whole;
    iBuf := PutRest(v[1..], whole, ts, pBuf, iBuf);
  }

  method PutRest(ghost v: seq<int>, ghost whole: string, ts: SyslogTime, pBuf: array<char>, start: nat) returns (iBuf: nat)
    requires start + 14 <= pBuf.Length
    requires v == [ts.month, ts.day, ts.hour, ts.minute, ts.second] && Shows(MONTH, v)
    requires pBuf[..start] + Print(MONTH, v) == whole
    modifies pBuf
    ensures iBuf == start + 14 && pBuf[..iBuf] == whole
  {
    hide Padded, Pow10, Print, Shows;
    iBuf := PutPart(MONTH, v, whole, pBuf, start, ts.month, '-');
    iBuf := PutPart(DAY, v[1..], whole, pBuf, iBuf, ts.day, 'T');
    iBuf := PutPart(HOUR, v[1..][1..], whole, pBuf, iBuf, ts.hour, ':');
    iBuf := PutPart(MINUTE, v[1..][1..][1..], whole, pBuf, iBuf, ts.minute, ':');
    ghost var last := v[1..][1..][1..][1..];
    LastPrinted(SECOND, last);
    iBuf := PutTwo(pBuf, iBuf, ts.second);
  }

  lemma LastPrinted(f: Layout, values: seq<int>)
    requires f.Field? && f.next.End? && Shows(f, values)
    ensures values[0] >= 0 && Print(f, values) == Padded(values[0], f.width)
  {
    assert Print(f.next, values[1..]) == [];
  }

  method PutZone(ts: SyslogTime, pBuf: array<char>, start: nat) returns (iBuf: nat)
    requires Shown(ts) && start + 6 <= pBuf.Length
    modifies pBuf
    ensures start < iBuf <= start + 6 && pBuf[..iBuf] == old(pBuf[..start]) + ZoneText(ts)
  {
    hide Padded, Pow10, Print;
    if ts.offsetMode == 'Z' {
      iBuf := Put(pBuf, start, 'Z');
    } else {
      ghost var v := [ts.offsetHour, ts.offsetMinute];
      ghost var whole := pBuf[..start] + ZoneText(ts);
      iBuf := Put(pBuf, start, ts.offsetMode);
      assert pBuf[..iBuf] + Print(OFFSET, v) == whole;
      iBuf := PutPart(OFFSET, v, whole, pBuf, iBuf, ts.offsetHour, ':');
      LastPrinted(OFFSET_MINUTE, v[1..]);
      iBuf := PutTwo(pBuf, iBuf, ts.offsetMinute);
    }
  }

  /** formatTimestamp3339: the text of the timestamp and its terminator; at most 33 bytes,
      whatever the fraction is. */
  method FormatTimestamp(ts: SyslogTime, pBuf: array<char>) returns (iBuf: nat)
    requires Shown(ts) && pBuf.Length >= 33
    modifies pBuf
    ensures iBuf == |Text(ts)| < pBuf.Length && pBuf[..iBuf] == Text(ts) && pBuf[iBuf] == '\0'
  {
    hide Padded, Pow10, Print, Shows, ZoneText, FractionChars;
    iBuf := PutDateTime(ts, pBuf);
    if ts.secfracPrecision > 0 {
      ghost var done := pBuf[..iBuf];
      iBuf := Put(pBuf, iBuf, '.');
      iBuf := PutFraction(pBuf, iBuf, ts.secfrac, FractionDigits(ts.secfracPrecision));
      assert pBuf[..iBuf] == done + FractionText(ts);
    }
    iBuf := PutZone(ts, pBuf, iBuf);
    assert pBuf[..iBuf] == Text(ts);
    pBuf[iBuf] := '\0';
  }

  // ----- what is read can be printed -----

  lemma DateTimeRead(text: string, pos: nat, end: int)
    requires Read(DATE_TIME, text, pos, end, []).Good?
    ensures Fit(DATE_TIME, Read(DATE_TIME, text, pos, end, []).values)
  {
    hide Read, InRanges, Sized, Fit;
    var v := Read(DATE_TIME, text, pos, end, []).values;
    ReadInRanges(DATE_TIME, text, pos, end, []);
    assert v[0..] == v;
    LayoutSized();
    RangesFit(DATE_TIME, v);
  }

  lemma NoOffset()
    ensures InRanges(OFFSET, [0, 0])
  {
    assert [0, 0][1..] == [0] && [0][1..] == [];
    assert InRanges(OFFSET_MINUTE, [0]);
  }

  lemma ZoneFits(text: string, pos: nat, end: int)
    requires ReadZone(text, pos, end).Some?
    ensures var z := ReadZone(text, pos, end).value;
      z.mode in "Z+-" && Fit(OFFSET, [z.hour, z.minute]) && (z.mode == 'Z' ==> z.hour == 0 && z.minute == 0)
  {
    hide Read, InRanges, Sized, Fit, Fields;
    LayoutSized();
    var z := ReadZone(text, pos, end).value;
    if z.mode == 'Z' {
      NoOffset();
      RangesFit(OFFSET, [0, 0]);
    } else {
      FieldCounts();
      var v := Read(OFFSET, text, pos + 1, end, []).values;
      ReadInRanges(OFFSET, text, pos + 1, end, []);
      assert v[0..] == v == [v[0], v[1]];
      RangesFit(OFFSET, v);
    }
  }

  lemma FractionFits(text: string, pos: nat, end: int)
    ensures var r := ReadFraction(text, pos, end); 0 <= r.value < Pow10(r.precision) && (r.precision == 0 ==> r.value == 0)
  {
    if pos < end && At(text, pos) == '.' { ScanBound(text, pos + 1, end, 0, 0); }
  }

  lemma ReadIsRegular(text: string, pos: nat, end: int)
    requires Meaning(text, pos, end).Some?
    ensures var t := Meaning(text, pos, end).value.time; Regular(t) && 0 <= t.secfrac < Pow10(t.secfracPrecision)
  {
    hide Read, Fit, ReadZone, Scan, Fields, ReadFraction, Pow10;
    FieldCounts();
    DateTimeRead(text, pos, end);
    var v, p := Read(DATE_TIME, text, pos, end, []).values, Read(DATE_TIME, text, pos, end, []).pos;
    var fraction := ReadFraction(text, p, end);
    ZoneFits(text, fraction.pos, end);
    FractionFits(text, p, end);
    assert DateTime(Meaning(text, pos, end).value.time) == v;
  }

  /** Every time that is read with up to six digits of a fraction can be printed and read again. */
  lemma ReadIsCanonical(text: string, pos: nat, end: int)
    requires Meaning(text, pos, end).Some? && Meaning(text, pos, end).value.time.secfracPrecision <= 6
    ensures Canonical(Meaning(text, pos, end).value.time)
  {
    hide Meaning, Shown, InFormat, Pow10;
    ReadIsRegular(text, pos, end);
  }

  lemma NoDigitBehind(text: string, pos: nat, end: int)
    requires pos < end ==> At(text, pos) == ' '
    ensures NoDigitAt(text, pos, end)
  {
  }

  lemma PrecisionBehind(ts: SyslogTime, v: seq<int>, text: string, pos: nat, end: int)
    requires |v| == 6 && ts.secfracPrecision > 0 && Holds(text, pos, FractionText(ts))
    requires !IsDigit(At(text, pos + |FractionText(ts)|))
    ensures var r := MeaningBehind(v, text, pos, end); r.Some? ==> r.value.time.secfracPrecision <= 6
  {
    hide Holds, FractionChars, ReadZone, Scan, IsDigit;
    HoldsParts(text, pos, ".", FractionChars(ts.secfrac, FractionDigits(ts.secfracPrecision)));
    HoldsFirst(text, pos, '.');
    ScanStops(text, pos + 1, end, 0, pos + |FractionText(ts)|);
  }

  /** Behind the date no more digits of a fraction are read than were printed. */
  lemma ReadPrecision(ts: SyslogTime, text: string, pos: nat, end: int)
    requires Regular(ts) && Holds(text, pos, Text(ts)) && pos + |Text(ts)| <= end && ts.secfracPrecision > 0
    requires pos + |Text(ts)| < end ==> At(text, pos + |Text(ts)|) == ' '
    ensures Meaning(text, pos, end).Some? ==> Meaning(text, pos, end).value.time.secfracPrecision <= 6
  {
    hide Read, Fields, Print, Holds, ZoneText, FractionText, Fit, MeaningBehind, Separated, Pow10, DateTime, NoDigitAt;
    var a, b, c := Print(DATE_TIME, DateTime(ts)), FractionText(ts), ZoneText(ts);
    HoldsParts(text, pos, a + b, c);
    HoldsParts(text, pos, a, b);
    NoDigitBehind(text, pos + |Text(ts)|, end);
    ZoneRead(ts, text, pos + |a| + |b|, end);
    BehindDate(ts, text, pos + |a|, end);
    LayoutSeparated();
    ReadPrinted(DATE_TIME, text, pos, end, DateTime(ts), []);
    assert [] + DateTime(ts) == DateTime(ts);
    FieldCounts();
    PrecisionBehind(ts, DateTime(ts), text, pos + |a|, end);
  }

  /** A printed time is read back with all its fields exactly if these are in the ranges of the
      format and its fraction has no more than six digits, as many as its precision says. */
  lemma RoundTripExact(ts: SyslogTime, text: string, pos: nat, end: int)
    requires Shown(ts) && Holds(text, pos, Text(ts)) && pos + |Text(ts)| <= end
    requires pos + |Text(ts)| < end ==> At(text, pos + |Text(ts)|) == ' '
    ensures Meaning(text, pos, end).Some? && Meaning(text, pos, end).value.time == ts <==> Canonical(ts)
  {
    hide Meaning, Text, Holds, Shown, InFormat;
    if Canonical(ts) {
      RoundTrip(ts, text, pos, end);
    } else if Meaning(text, pos, end).Some? && Meaning(text, pos, end).value.time == ts {
      ReadIsRegular(text, pos, end);
      if ts.secfracPrecision > 0 { ReadPrecision(ts, text, pos, end); }
      ReadIsCanonical(text, pos, end);
    }
  }

  lemma InYear2024()
    ensures InRanges(DATE_TIME, [2024, 1, 1, 0, 0, 0])
  {
    var v := [2024, 1, 1, 0, 0, 0];
    assert v[1..] == [1, 1, 0, 0, 0] && v[1..][1..] == [1, 0, 0, 0] && v[1..][1..][1..] == [0, 0, 0];
    assert InRanges(MINUTE, [0, 0]) by { assert [0, 0][1..] == [0] && [0][1..] == []; }
    assert InRanges(HOUR, [0, 0, 0]) by { assert [0, 0, 0][1..] == [0, 0]; }
    assert InRanges(MONTH, [1, 1, 0, 0, 0]) by { assert InRanges(DAY, [1, 0, 0, 0]); }
  }

  lemma NineDigits(ts: SyslogTime)
    requires ts == SyslogTime(2, 2024, 1, 1, 0, 0, 0, 123456789, 9, 'Z', 0, 0)
    ensures Regular(ts) && !FullFraction(ts)
  {
    hide Fit, Pow10, InRanges, Sized;
    var v := DateTime(ts);
    LayoutSized();
    assert InRanges(DATE_TIME, v) by { InYear2024(); }
    RangesFit(DATE_TIME, v);
  }

  /** A fraction of nine digits is printed with three characters. */
  lemma FractionExample()
    ensures var ts := SyslogTime(2, 2024, 1, 1, 0, 0, 0, 123456789, 9, 'Z', 0, 0);
      && Regular(ts)
      && var text := Text(ts);
         |FractionText(ts)| == 4 && (Meaning(text, 0, |text|).None? || Meaning(text, 0, |text|).value.time != ts)
  {
    hide Meaning, Text, Shown, FullFraction, FractionChars;
    var ts := SyslogTime(2, 2024, 1, 1, 0, 0, 0, 123456789, 9, 'Z', 0, 0);
    NineDigits(ts);
    HoldsWhole(Text(ts));
    RoundTripExact(ts, Text(ts), 0, |Text(ts)|);
  }

  /** The year 2100, which the older format can name, is printed but not read. */
  lemma YearExample(ts: SyslogTime)
    requires Shown(ts) && ts.year == 2100
    ensures var r := Meaning(Text(ts), 0, |Text(ts)|); r.None? || r.value.time != ts
  {
    hide Meaning, Text, Shown;
    HoldsWhole(Text(ts));
    RoundTripExact(ts, Text(ts), 0, |Text(ts)|);
  }
}

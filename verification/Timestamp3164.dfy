/** Timestamps in the format of section 4.1.2 of RFC 3164, with the deviations that are
    accepted: a year in front or behind the day, one digit days, fractions, a time zone or a
    year behind the time, and a colon at the end. */
module Timestamp3164 {
  import opened Numbers
  import opened Calendar
  import opened Options
  import opened Texts
  import opened TimeScan
  import opened Timestamp3339
  import opened SyslogNames

  /** What a time zone name stands for; a configured table. */
  datatype ZoneOffset = ZoneOffset(mode: char, hour: int, minute: int)

  /** Which extensions are looked for. */
  datatype Extensions = Extensions(parseTZ: bool, zones: map<string, ZoneOffset>, detectYearAfterTime: bool)

  /** A time, the position behind it and the end of the text, as the code counts it. */
  datatype Taken = Taken(time: SyslogTime, pos: nat, end: int)

  // ----- months -----

  function MonthAbbreviation(m: int): (s: string)
    requires 1 <= m <= 12
    ensures |s| == 3
  {
    match m
    case 1 => "Jan" case 2 => "Feb" case 3 => "Mar" case 4 => "Apr"
    case 5 => "May" case 6 => "Jun" case 7 => "Jul" case 8 => "Aug"
    case 9 => "Sep" case 10 => "Oct" case 11 => "Nov" case _ => "Dec"
  }

  /** The month with this abbreviation in lower case; 0 stands for none. */
  function MonthOf(a: char, b: char, c: char): (m: int)
    ensures 0 <= m <= 12
  {
    if a == 'j' && b == 'a' && c == 'n' then 1 else if a == 'f' && b == 'e' && c == 'b' then 2
    else if a == 'm' && b == 'a' && c == 'r' then 3 else if a == 'a' && b == 'p' && c == 'r' then 4
    else if a == 'm' && b == 'a' && c == 'y' then 5 else if a == 'j' && b == 'u' && c == 'n' then 6
    else if a == 'j' && b == 'u' && c == 'l' then 7 else if a == 'a' && b == 'u' && c == 'g' then 8
    else if a == 's' && b == 'e' && c == 'p' then 9 else if a == 'o' && b == 'c' && c == 't' then 10
    else if a == 'n' && b == 'o' && c == 'v' then 11 else if a == 'd' && b == 'e' && c == 'c' then 12
    else 0
  }

  function MonthAt(text: string, pos: nat): (m: int)
    ensures 0 <= m <= 12
  {
    MonthOf(Lower(At(text, pos)), Lower(At(text, pos + 1)), Lower(At(text, pos + 2)))
  }

  lemma MonthOfAbbreviation(m: int)
    requires 1 <= m <= 12
    ensures var s := MonthAbbreviation(m); MonthOf(Lower(s[0]), Lower(s[1]), Lower(s[2])) == m
  {
  }

  /** A character in either case. */
  predicate Letter(c: char, lower: char)
    requires 'a' <= lower <= 'z'
    ensures Letter(c, lower) <==> Lower(c) == lower
  {
    c == lower || c == lower - 'a' + 'A'
  }

  /** The switch over the letters of the month finds the month that is spelled there. */
  method ParseMonth(text: string, pos: nat) returns (month: int)
    ensures month == MonthAt(text, pos)
  {
    hide Lower;
    var a, b, c := At(text, pos), At(text, pos + 1), At(text, pos + 2);
    month := 0;
    if Letter(a, 'j') {
      if Letter(b, 'a') { if Letter(c, 'n') { month := 1; } }
      else if Letter(b, 'u') { if Letter(c, 'n') { month := 6; } else if Letter(c, 'l') { month := 7; } }
    } else if Letter(a, 'f') {
      if Letter(b, 'e') && Letter(c, 'b') { month := 2; }
    } else if Letter(a, 'm') {
      if Letter(b, 'a') { if Letter(c, 'r') { month := 3; } else if Letter(c, 'y') { month := 5; } }
    } else if Letter(a, 'a') {
      if Letter(b, 'p') { if Letter(c, 'r') { month := 4; } }
      else if Letter(b, 'u') { if Letter(c, 'g') { month := 8; } }
    } else if Letter(a, 's') {
      if Letter(b, 'e') && Letter(c, 'p') { month := 9; }
    } else if Letter(a, 'o') {
      if Letter(b, 'c') && Letter(c, 't') { month := 10; }
    } else if Letter(a, 'n') {
      if Letter(b, 'o') && Letter(c, 'v') { month := 11; }
    } else if Letter(a, 'd') {
      if Letter(b, 'e') && Letter(c, 'c') { month := 12; }
    }
  }

  // ----- the meaning of a text -----

  datatype Front = Front(year: int, pos: nat, end: int)

  /** A year in front. The space behind it is not counted, which moves the end by one. */
  function ReadYear(text: string, pos: nat, end: int): Option<Front> {
    if !IsDigit(At(text, pos)) then Some(Front(0, pos, end))
    else
      var n := Scan(text, pos, end, 0);
      if n.value < 1970 || n.value > 2100 || At(text, n.pos) != ' ' then None
      else Some(Front(n.value, n.pos + 1, end + 1))
  }

  const DAY_PART: Layout := Field(1, 31, 2, Mark(' ', End))

  datatype Dated = Dated(month: int, day: int, pos: nat)

  function ReadDay(text: string, pos: nat, end: int): (r: Option<Dated>)
    ensures r.Some? ==> r.value.pos <= end
  {
    if MonthAt(text, pos) == 0 || pos + 3 >= end || At(text, pos + 3) != ' ' then None
    else
      var p := if At(text, pos + 4) == ' ' then pos + 5 else pos + 4;
      match Read(DAY_PART, text, p, end, []) {
        case Bad => None
        case Good(v, q) => Some(Dated(MonthAt(text, pos), v[0], q))
      }
  }

  datatype Clock = Clock(year: int, hour: int, minute: int, second: int, pos: nat)

  /** The time, where a year may stand in front of it if there was none before. */
  function ReadClock(text: string, pos: nat, end: int, year: int): (r: Option<Clock>)
    ensures r.Some? && pos <= end ==> r.value.pos <= end
  {
    var n := Scan(text, pos, end, 0);
    if year == 0 && 1970 < n.value < 2100 then
      if n.pos >= end || At(text, n.pos) != ' ' then None
      else ReadTime(text, n.pos + 1, end, n.value)
    else ReadTime(text, pos, end, year)
  }

  function ReadTime(text: string, pos: nat, end: int, year: int): (r: Option<Clock>)
    ensures r.Some? && pos <= end ==> r.value.pos <= end
  {
    match Read(HOUR, text, pos, end, [])
    case Bad => None
    case Good(v, p) => TimeFields(); Some(Clock(year, v[0], v[1], v[2], p))
  }

  lemma TimeFields()
    ensures Fields(HOUR) == 3
  {
    assert Fields(MINUTE) == 2;
  }

  /** Up to 15 characters before a colon or space. */
  function NameEnd(text: string, pos: nat, end: int, room: nat): (q: nat)
    ensures pos <= q && (pos <= end ==> q <= end)
    decreases room
  {
    if pos < end && room > 0 && At(text, pos) != ':' && At(text, pos) != ' '
    then NameEnd(text, pos + 1, end, room - 1) else pos
  }

  function Chars(text: string, pos: nat, end: nat): string
    requires pos <= end
    decreases end - pos
  {
    if pos == end then [] else Chars(text, pos, end - 1) + [At(text, end - 1)]
  }

  datatype Zoned = Zoned(zone: Option<ZoneOffset>, pos: nat)

  function ReadZoneName(text: string, pos: nat, end: int, o: Extensions): (r: Zoned)
    ensures pos <= end ==> r.pos <= end
  {
    if o.parseTZ && end - pos > 2 && At(text, pos) == ' ' then
      var q := NameEnd(text, pos + 1, end, 15);
      var name := Chars(text, pos + 1, q);
      Zoned(if q > pos + 1 && name in o.zones then Some(o.zones[name]) else None, q)
    else Zoned(None, pos)
  }

  /** The value of up to four digits. */
  function YearDigits(text: string, pos: nat, room: nat, sofar: int): int
    decreases room
  {
    if room > 0 && IsDigit(At(text, pos)) then YearDigits(text, pos + 1, room - 1, 10 * sofar + DigitValue(At(text, pos)))
    else sofar
  }

  datatype Dating = Dating(year: int, pos: nat)

  /** A year from 2000 on behind the time, if there was none before. */
  function ReadYearAfter(text: string, pos: nat, end: int, year: int, o: Extensions): (r: Dating)
    ensures pos <= end ==> r.pos <= end
  {
    var y := if end - pos > 6 && At(text, pos + 5) != ' ' then 0 else YearDigits(text, pos + 1, 4, 0);
    if o.detectYearAfterTime && year == 0 && end - pos > 5 && At(text, pos) == ' ' && 2000 <= y < 2100
    then Dating(y, pos + 5) else Dating(year, pos)
  }

  /** A colon and then a space or the end. */
  function ReadEnd(text: string, pos: nat, end: int): (r: Option<nat>)
    ensures r.Some? && pos <= end ==> r.value <= end
  {
    var p := if pos < end && At(text, pos) == ':' then pos + 1 else pos;
    if p >= end then Some(p) else if At(text, p) == ' ' then Some(p + 1) else None
  }

  function Updated(before: SyslogTime, d: Dated, c: Clock, f: Fraction, year: int, zone: Option<ZoneOffset>): SyslogTime {
    var t := SyslogTime(1, if year > 0 then year else before.year, d.month, d.day, c.hour, c.minute, c.second,
      f.value, f.precision, before.offsetMode, before.offsetHour, before.offsetMinute);
    if zone.Some? && zone.value.mode != '\0'
    then t.(offsetMode := zone.value.mode, offsetHour := zone.value.hour, offsetMinute := zone.value.minute) else t
  }

  /** The timestamp at a position: fields it does not name keep their value. */
  function Meaning(before: SyslogTime, text: string, pos: nat, end: int, o: Extensions): (r: Option<Taken>)
    ensures r.Some? ==> r.value.pos <= r.value.end && r.value.end == end + if IsDigit(At(text, pos)) then 1 else 0
  {
    if end - pos < 3 then None
    else match ReadYear(text, pos, end)
      case None => None
      case Some(front) =>
        match ReadDay(text, front.pos, front.end)
        case None => None
        case Some(dated) => MeaningBehind(before, text, front, dated, o)
  }

  function MeaningBehind(before: SyslogTime, text: string, front: Front, dated: Dated, o: Extensions): (r: Option<Taken>)
    requires dated.pos <= front.end
    ensures r.Some? ==> r.value.pos <= r.value.end == front.end
  {
    var end := front.end;
    match ReadClock(text, dated.pos, end, front.year)
    case None => None
    case Some(clock) =>
      var fraction := ReadFraction(text, clock.pos, end);
      var zoned := ReadZoneName(text, fraction.pos, end, o);
      var dating := ReadYearAfter(text, zoned.pos, end, clock.year, o);
      match ReadEnd(text, dating.pos, end)
      case None => None
      case Some(p) => Some(Taken(Updated(before, dated, clock, fraction, dating.year, zoned.zone), p, end))
  }

  // ----- the parser -----

  method ParseYear(text: string, start: nat, length: int) returns (ok: bool, year: int, pos: nat, lenStr: int)
    requires length >= 0
    ensures lenStr >= 0
    ensures ReadYear(text, start, start + length) == if ok then Some(Front(year, pos, pos + lenStr)) else None
  {
    ok, year, pos, lenStr := true, 0, start, length;
    if IsDigit(At(text, pos)) {
      year, pos, lenStr := ParseInt32(text, pos, lenStr);
      if year < 1970 || year > 2100 || At(text, pos) != ' ' { ok := false; return; }
      pos := pos + 1;
    }
  }

  method ParseDay(text: string, start: nat, length: int)
    returns (ok: bool, month: int, day: int, pos: nat, lenStr: int)
    requires length >= 0
    ensures pos + lenStr == start + length && (ok ==> lenStr >= 0)
    ensures ReadDay(text, start, start + length) == if ok then Some(Dated(month, day, pos)) else None
  {
    ok, day, pos, lenStr := false, 0, start, length;
    month := ParseMonth(text, pos);
    if month == 0 { return; }
    pos, lenStr := pos + 3, lenStr - 3;
    if lenStr == 0 || At(text, pos) != ' ' { return; }
    pos, lenStr := pos + 1, lenStr - 1;
    if At(text, pos) == ' ' { pos, lenStr := pos + 1, lenStr - 1; }
    day, pos, lenStr := ParseInt32(text, pos, lenStr);
    if day < 1 || day > 31 { return; }
    if lenStr == 0 || At(text, pos) != ' ' { return; }
    ok, pos, lenStr := true, pos + 1, lenStr - 1;
  }

  /** The time behind an hour that was read from position `from`. */
  method ParseTimeFrom(text: string, ghost from: nat, start: nat, length: int, hour: int)
    returns (ok: bool, minute: int, second: int, pos: nat, lenStr: int)
    requires length >= 0 && from <= start && Scan(text, from, start + length, 0) == Number(hour, start)
    ensures lenStr >= 0 && pos + lenStr == start + length
    ensures Read(HOUR, text, from, start + length, []) == if ok then Good([hour, minute, second], pos) else Bad
  {
    hide Scan, IsDigit;
    ok, minute, second, pos, lenStr := false, 0, 0, start, length;
    assert [] + [hour] == [hour];
    if hour < 0 || hour > 23 { return; }
    if lenStr == 0 || At(text, pos) != ':' { return; }
    assert Read(HOUR, text, from, start + length, []) == Read(MINUTE, text, start + 1, start + length, [hour]);
    hide Read;
    ok, minute, pos, lenStr := ReadPart(MINUTE, text, pos + 1, lenStr - 1, ':', 0, 59, [hour]);
    if !ok { return; }
    ok, second, pos, lenStr := ParseSecond(text, pos, lenStr, [hour] + [minute]);
    assert [hour] + [minute] + [second] == [hour, minute, second];
  }

  method ParseSecond(text: string, start: nat, length: int, ghost acc: seq<int>)
    returns (ok: bool, second: int, pos: nat, lenStr: int)
    requires length >= 0
    ensures lenStr >= 0 && pos + lenStr == start + length
    ensures Read(SECOND, text, start, start + length, acc) == if ok then Good(acc + [second], pos) else Bad
  {
    second, pos, lenStr := ParseInt32(text, start, length);
    ok := 0 <= second <= 60;
  }

  method ParseClock(text: string, start: nat, length: int, yearBefore: int)
    returns (ok: bool, year: int, hour: int, minute: int, second: int, pos: nat, lenStr: int)
    requires length >= 0
    ensures lenStr >= 0 && pos + lenStr == start + length
    ensures ReadClock(text, start, start + length, yearBefore)
      == if ok then Some(Clock(year, hour, minute, second, pos)) else None
  {
    hide Read, Fields, Scan;
    TimeFields();
    ok, year, minute, second := false, yearBefore, 0, 0;
    hour, pos, lenStr := ParseInt32(text, start, length);
    ghost var from := start;
    if year == 0 && hour > 1970 && hour < 2100 {
      year := hour;
      if lenStr == 0 || At(text, pos) != ' ' { return; }
      from := pos + 1;
      hour, pos, lenStr := ParseInt32(text, pos + 1, lenStr - 1);
    }
    ok, minute, second, pos, lenStr := ParseTimeFrom(text, from, pos, lenStr, hour);
  }

  method TakeName(text: string, start: nat, length: int) returns (name: string, pos: nat, lenStr: int)
    requires length >= 0
    ensures lenStr >= 0 && pos + lenStr == start + length && pos - start == |name|
    ensures pos == NameEnd(text, start, start + length, 15) && name == Chars(text, start, pos)
  {
    hide At;
    pos, lenStr, name := start, length, [];
    while lenStr > 0 && |name| < 15 && At(text, pos) != ':' && At(text, pos) != ' '
      invariant |name| <= 15 && pos == start + |name|
      invariant lenStr >= 0 && pos + lenStr == start + length
      invariant name == Chars(text, start, pos)
      invariant NameEnd(text, start, start + length, 15) == NameEnd(text, pos, start + length, 15 - |name|)
      decreases lenStr
    {
      name, pos, lenStr := name + [At(text, pos)], pos + 1, lenStr - 1;
    }
  }

  method ParseZoneName(text: string, start: nat, length: int, o: Extensions)
    returns (zone: Option<ZoneOffset>, pos: nat, lenStr: int)
    requires length >= 0
    ensures lenStr >= 0 && pos + lenStr == start + length
    ensures ReadZoneName(text, start, start + length, o) == Zoned(zone, pos)
  {
    hide NameEnd, Chars;
    zone, pos, lenStr := None, start, length;
    if o.parseTZ && lenStr > 2 && At(text, pos) == ' ' {
      var tzstring;
      tzstring, pos, lenStr := TakeName(text, pos + 1, lenStr - 1);
      if |tzstring| > 0 && tzstring in o.zones { zone := Some(o.zones[tzstring]); }
    }
  }

  method ParseYearAfter(text: string, start: nat, length: int, yearBefore: int, o: Extensions)
    returns (year: int, pos: nat, lenStr: int)
    requires length >= 0
    ensures lenStr >= 0 && pos + lenStr == start + length
    ensures ReadYearAfter(text, start, start + length, yearBefore, o) == Dating(year, pos)
  {
    year, pos, lenStr := yearBefore, start, length;
    if o.detectYearAfterTime && year == 0 && lenStr > 5 && At(text, pos) == ' ' {
      var y, j := 0, 1;
      while j < 5 && IsDigit(At(text, pos + j))
        invariant 1 <= j <= 5
        invariant YearDigits(text, pos + 1, 4, 0) == YearDigits(text, pos + j, 5 - j, y)
      {
        y := 10 * y + DigitValue(At(text, pos + j));
        j := j + 1;
      }
      if lenStr > 6 && At(text, pos + 5) != ' ' { y := 0; }
      if 2000 <= y < 2100 { year, pos, lenStr := y, pos + 5, lenStr - 5; }
    }
  }

  method ParseEnd(text: string, start: nat, length: int) returns (ok: bool, pos: nat, lenStr: int)
    requires length >= 0
    ensures lenStr >= 0 && pos + lenStr == start + length
    ensures ReadEnd(text, start, start + length) == if ok then Some(pos) else None
  {
    ok, pos, lenStr := true, start, length;
    if lenStr > 0 && At(text, pos) == ':' { pos, lenStr := pos + 1, lenStr - 1; }
    if lenStr > 0 {
      if At(text, pos) != ' ' { ok := false; return; }
      pos, lenStr := pos + 1, lenStr - 1;
    }
  }

  method ParseBehind(before: SyslogTime, text: string, start: nat, length: int, month: int, day: int, yearBefore: int,
                     ghost first: nat, o: Extensions)
    returns (ok: bool, time: SyslogTime, pos: nat, lenStr: int)
    requires length >= 0
    ensures lenStr >= 0 && pos + lenStr == start + length
    ensures MeaningBehind(before, text, Front(yearBefore, first, start + length), Dated(month, day, start), o)
      == if ok then Some(Taken(time, pos, start + length)) else None
  {
    hide ReadClock, ReadZoneName, ReadYearAfter, ReadEnd, Scan;
    var year, hour, minute, second, zone;
    time := before;
    ok, year, hour, minute, second, pos, lenStr := ParseClock(text, start, length, yearBefore);
    if !ok { return; }
    var secfrac, secfracPrecision := 0, 0;
    if lenStr > 0 && At(text, pos) == '.' {
      var pszStart := pos + 1;
      secfrac, pos, lenStr := ParseInt32(text, pos + 1, lenStr - 1);
      secfracPrecision := pos - pszStart;
    }
    zone, pos, lenStr := ParseZoneName(text, pos, lenStr, o);
    year, pos, lenStr := ParseYearAfter(text, pos, lenStr, year, o);
    ok, pos, lenStr := ParseEnd(text, pos, lenStr);
    if !ok { return; }
    time := before.(timeType := 1, month := month, day := day, hour := hour, minute := minute, second := second,
                    secfrac := secfrac, secfracPrecision := secfracPrecision);
    if year > 0 { time := time.(year := year); }
    if zone.Some? && zone.value.mode != '\0' {
      time := time.(offsetMode := zone.value.mode, offsetHour := zone.value.hour, offsetMinute := zone.value.minute);
    }
  }

  /** ParseTIMESTAMP3164: the caller's position, length and time change only on success. Then
      the position advances by what the length drops, and by one more exactly if a year
      stands in front. */
  method ParseTimestamp(before: SyslogTime, text: string, start: nat, length: int, o: Extensions)
    returns (ok: bool, time: SyslogTime, pos: nat, lenStr: int)
    requires length >= 0
    ensures !ok ==> time == before && pos == start && lenStr == length
    ensures ok ==> lenStr >= 0 && pos - start == length - lenStr + if IsDigit(At(text, start)) then 1 else 0
    ensures Meaning(before, text, start, start + length, o) == if ok then Some(Taken(time, pos, pos + lenStr)) else None
  {
    hide ReadDay, MeaningBehind, Scan;
    ok, time, pos, lenStr := false, before, start, length;
    if length < 3 { return; }
    var year, month, day, p, l;
    ok, year, p, l := ParseYear(text, start, length);
    if !ok { return; }
    ghost var first := p;
    ok, month, day, p, l := ParseDay(text, p, l);
    if !ok { return; }
    var t;
    ok, t, p, l := ParseBehind(before, text, p, l, month, day, year, first, o);
    if ok { time, pos, lenStr := t, p, l; }
  }

  // ----- the formatter -----

  predicate Printable(ts: SyslogTime) {
    1 <= ts.month <= 12 && 1 <= ts.day <= 31 && Fit(HOUR, [ts.hour, ts.minute, ts.second])
  }

  /** The day with a leading space, or in the deviating style a zero. */
  function DayText(day: int, buggyDay: bool): (s: string)
    requires 1 <= day <= 31
    ensures |s| == 2
  {
    if buggyDay || day >= 10 then Padded(day, 2) else " " + Padded(day, 1)
  }

  function Text(ts: SyslogTime, buggyDay: bool): string
    requires Printable(ts)
  {
    MonthAbbreviation(ts.month) + " " + DayText(ts.day, buggyDay) + " " + Print(HOUR, [ts.hour, ts.minute, ts.second])
  }

  /** formatTimestamp3164: 15 characters and the terminator. */
  method FormatTimestamp(ts: SyslogTime, pBuf: array<char>, bBuggyDay: bool) returns (size: int)
    requires Printable(ts) && pBuf.Length >= 16
    modifies pBuf
    ensures size == 16 && pBuf[..15] == Text(ts, bBuggyDay) && pBuf[15] == '\0'
  {
    hide Print, Fit, Shows, Padded, Pow10;
    var name := MonthAbbreviation(ts.month);
    pBuf[0], pBuf[1], pBuf[2] := name[0], name[1], name[2];
    pBuf[3] := ' ';
    assert pBuf[..4] == name + " ";
    var iBuf := PutDay(pBuf, 4, ts.day, bBuggyDay);
    iBuf := Put(pBuf, iBuf, ' ');
    ghost var v := [ts.hour, ts.minute, ts.second];
    ghost var whole := pBuf[..iBuf] + Print(HOUR, v);
    iBuf := PutPart(HOUR, v, whole, pBuf, iBuf, ts.hour, ':');
    iBuf := PutPart(MINUTE, v[1..], whole, pBuf, iBuf, ts.minute, ':');
    LastPrinted(SECOND, v[1..][1..]);
    iBuf := PutTwo(pBuf, iBuf, ts.second);
    pBuf[15] := '\0';
    size := 16;
  }

  method PutDay(pBuf: array<char>, iBuf: nat, day: int, bBuggyDay: bool) returns (next: nat)
    requires iBuf + 2 <= pBuf.Length && 1 <= day <= 31
    modifies pBuf
    ensures next == iBuf + 2 && pBuf[..next] == old(pBuf[..iBuf]) + DayText(day, bBuggyDay)
  {
    hide Padded, DigitChar;
    var iDay := day / 10 % 10;
    PaddedStep(day, 1);
    PaddedStep(day, 0);
    PaddedStep(day / 10, 0);
    PaddedNone(day / 10);
    PaddedNone(day / 10 / 10);
    pBuf[iBuf] := if bBuggyDay || iDay > 0 then DigitChar(iDay) else ' ';
    pBuf[iBuf + 1] := DigitChar(day % 10);
    next := iBuf + 2;
  }

  // ----- the round trip -----

  lemma MonthRead(text: string, pos: nat, m: int)
    requires 1 <= m <= 12 && Holds(text, pos, MonthAbbreviation(m))
    ensures MonthAt(text, pos) == m && !IsDigit(At(text, pos))
  {
    var name := MonthAbbreviation(m);
    assert !IsDigit(name[0]);
    hide MonthAbbreviation, MonthOf, Lower;
    assert At(text, pos) == text[pos..pos + 3][0];
    assert At(text, pos + 1) == text[pos..pos + 3][1];
    assert At(text, pos + 2) == text[pos..pos + 3][2];
    MonthOfAbbreviation(m);
  }

  lemma DayRead(text: string, pos: nat, end: int, day: int, buggyDay: bool)
    requires 1 <= day <= 31 && Holds(text, pos, DayText(day, buggyDay)) && At(text, pos + 2) == ' ' && pos + 2 < end
    ensures var p := if At(text, pos) == ' ' then pos + 1 else pos;
      Read(DAY_PART, text, p, end, []) == Good([day], pos + 3)
  {
    assert Pow10(1) == 10 && Pow10(2) == 100;
    if buggyDay || day >= 10 {
      assert IsDigit(text[pos..pos + 2][0]);
      ScanPadded(text, pos, end, day, 2);
    } else {
      HoldsParts(text, pos, " ", Padded(day, 1));
      HoldsFirst(text, pos, ' ');
      ScanPadded(text, pos + 1, end, day, 1);
    }
  }

  lemma ClockRead(ts: SyslogTime, text: string, pos: nat, end: int)
    requires Printable(ts)
    requires var s := Print(HOUR, [ts.hour, ts.minute, ts.second]); Holds(text, pos, s) && pos + |s| <= end
    requires NoDigitAt(text, pos + |Print(HOUR, [ts.hour, ts.minute, ts.second])|, end)
    ensures var behind := pos + |Print(HOUR, [ts.hour, ts.minute, ts.second])|;
      ReadClock(text, pos, end, 0) == Some(Clock(0, ts.hour, ts.minute, ts.second, behind))
  {
    hide Scan, Holds, Padded, Pow10, NoDigitAt;
    var v := [ts.hour, ts.minute, ts.second];
    assert Separated(MINUTE);
    ReadPrinted(HOUR, text, pos, end, v, []);
    assert [] + v == v;
    TimeFields();
    HourInRange(text, pos, end);
  }

  lemma HourInRange(text: string, pos: nat, end: int)
    requires Read(HOUR, text, pos, end, []).Good?
    ensures Scan(text, pos, end, 0).value <= 23
  {
  }

  lemma Behind(text: string, pos: nat, end: int)
    requires pos < end ==> !IsDigit(At(text, pos)) && At(text, pos) != '.'
    ensures NoDigitAt(text, pos, end) && ReadFraction(text, pos, end) == Fraction(0, 0, pos)
  {
  }

  /** The time that was printed, with a year and a zone that may stand behind it. */
  function ReadTimeOf(before: SyslogTime, ts: SyslogTime, year: int, zone: Option<ZoneOffset>): SyslogTime {
    var t := before.(timeType := 1, year := if year > 0 then year else before.year, month := ts.month, day := ts.day,
                     hour := ts.hour, minute := ts.minute, second := ts.second, secfrac := 0, secfracPrecision := 0);
    if zone.Some? && zone.value.mode != '\0'
    then t.(offsetMode := zone.value.mode, offsetHour := zone.value.hour, offsetMinute := zone.value.minute) else t
  }

  /** A printed time is read back up to its end, and what stands behind it is looked through
      for the extensions that are switched on. */
  lemma ReadBack(before: SyslogTime, ts: SyslogTime, buggyDay: bool, text: string, pos: nat, end: int, o: Extensions)
    requires Printable(ts) && Holds(text, pos, Text(ts, buggyDay)) && pos + |Text(ts, buggyDay)| <= end
    requires var behind := pos + |Text(ts, buggyDay)|;
      behind < end ==> !IsDigit(At(text, behind)) && At(text, behind) != '.'
    ensures var zoned := ReadZoneName(text, pos + |Text(ts, buggyDay)|, end, o);
      var dating := ReadYearAfter(text, zoned.pos, end, 0, o);
      var last := ReadEnd(text, dating.pos, end);
      Meaning(before, text, pos, end, o)
      == if last.None? then None else Some(Taken(ReadTimeOf(before, ts, dating.year, zoned.zone), last.value, end))
  {
    hide Read, Scan, Holds, Print, ReadClock, MonthAt, Fit, Fields, DayText, MonthAbbreviation, NoDigitAt,
      ReadZoneName, ReadYearAfter, ReadEnd, ReadFraction, IsDigit;
    var a, b, c := MonthAbbreviation(ts.month), DayText(ts.day, buggyDay), Print(HOUR, [ts.hour, ts.minute, ts.second]);
    HoldsParts(text, pos, a + " " + b + " ", c);
    HoldsParts(text, pos, a + " " + b, " ");
    HoldsParts(text, pos, a + " ", b);
    HoldsParts(text, pos, a, " ");
    HoldsFirst(text, pos + 3, ' ');
    HoldsFirst(text, pos + 6, ' ');
    MonthRead(text, pos, ts.month);
    DayRead(text, pos + 4, end, ts.day, buggyDay);
    Behind(text, pos + 7 + |c|, end);
    ClockRead(ts, text, pos + 7, end);
  }

  /** What is printed, in either style, is read back; other fields keep their value. Behind a
      space any text may follow, unless an extension is switched on that looks at it. */
  lemma RoundTrip(before: SyslogTime, ts: SyslogTime, buggyDay: bool, text: string, pos: nat, end: int, o: Extensions)
    requires Printable(ts) && Holds(text, pos, Text(ts, buggyDay)) && pos + |Text(ts, buggyDay)| <= end
    requires pos + |Text(ts, buggyDay)| < end ==>
      At(text, pos + |Text(ts, buggyDay)|) == ' ' && !o.parseTZ && !o.detectYearAfterTime
    ensures var behind := pos + |Text(ts, buggyDay)|;
      Meaning(before, text, pos, end, o)
      == Some(Taken(ReadTimeOf(before, ts, 0, None), if behind < end then behind + 1 else behind, end))
  {
    hide Meaning, Text, Holds;
    ReadBack(before, ts, buggyDay, text, pos, end, o);
  }

  lemma {:induction false} NameEndIs(text: string, pos: nat, end: int, word: string, room: nat)
    requires Holds(text, pos, word) && Free(word, ": ") && |word| <= room && pos + |word| <= end
    requires pos + |word| == end || At(text, pos + |word|) == ' '
    ensures NameEnd(text, pos, end, room) == pos + |word|
    decreases |word|
  {
    if word != [] {
      HoldsChar(text, pos, word, 0);
      assert [word[0]] + word[1..] == word;
      HoldsParts(text, pos, [word[0]], word[1..]);
      NameEndIs(text, pos + 1, end, word[1..], room - 1);
    }
  }

  lemma {:induction false} CharsAre(text: string, pos: nat, word: string)
    requires Holds(text, pos, word)
    ensures Chars(text, pos, pos + |word|) == word
    decreases |word|
  {
    if word != [] {
      var n := |word| - 1;
      HoldsChar(text, pos, word, n);
      assert word[..n] + [word[n]] == word;
      HoldsParts(text, pos, word[..n], [word[n]]);
      CharsAre(text, pos, word[..n]);
    }
  }

  /** With zone names switched on the word behind the time is taken for one: it is passed over
      in any case, and changes the offset exactly if the table knows it. */
  lemma WordBehind(before: SyslogTime, ts: SyslogTime, buggyDay: bool, word: string, text: string, pos: nat, end: int, o: Extensions)
    requires Printable(ts) && Holds(text, pos, Text(ts, buggyDay) + (" " + word))
    requires 0 < |word| <= 15 && Free(word, ": ") && o.parseTZ && !o.detectYearAfterTime
    requires var last := pos + |Text(ts, buggyDay)| + 1 + |word|;
      (last == end && |word| > 1) || (last < end && At(text, last) == ' ')
    ensures var last := pos + |Text(ts, buggyDay)| + 1 + |word|;
      Meaning(before, text, pos, end, o)
      == Some(Taken(ReadTimeOf(before, ts, 0, if word in o.zones then Some(o.zones[word]) else None),
                    if last < end then last + 1 else last, end))
  {
    hide Meaning, Text, Holds, Chars, NameEnd;
    var behind := pos + |Text(ts, buggyDay)|;
    HoldsParts(text, pos, Text(ts, buggyDay), " " + word);
    HoldsParts(text, behind, " ", word);
    HoldsFirst(text, behind, ' ');
    NameEndIs(text, behind + 1, end, word, 15);
    CharsAre(text, behind + 1, word);
    ReadBack(before, ts, buggyDay, text, pos, end, o);
  }

  lemma OneDigit(text: string, pos: nat, room: nat, sofar: int, d: int)
    requires 0 <= d < 10 && room > 0 && At(text, pos) == DigitChar(d)
    ensures YearDigits(text, pos, room, sofar) == YearDigits(text, pos + 1, room - 1, 10 * sofar + d)
  {
  }

  lemma NoRoom(text: string, pos: nat, sofar: int)
    ensures YearDigits(text, pos, 0, sofar) == sofar
  {
  }

  lemma FourDigits(text: string, pos: nat, year: int)
    requires 0 <= year < 10000 && Holds(text, pos, Padded(year, 4))
    ensures YearDigits(text, pos, 4, 0) == year
  {
    hide Holds, Padded, YearDigits, DigitChar;
    var s := Padded(year, 4);
    PaddedFour(year);
    HoldsChar(text, pos, s, 0);
    HoldsChar(text, pos, s, 1);
    HoldsChar(text, pos, s, 2);
    HoldsChar(text, pos, s, 3);
    OneDigit(text, pos, 4, 0, year / 1000);
    OneDigit(text, pos + 1, 3, year / 1000, year / 100 % 10);
    OneDigit(text, pos + 2, 2, year / 100, year / 10 % 10);
    OneDigit(text, pos + 3, 1, year / 10, year % 10);
    NoRoom(text, pos + 4, year);
  }

  /** With years switched on a year from 2000 to 2099 behind the time is read with it. */
  lemma YearBehind(before: SyslogTime, ts: SyslogTime, buggyDay: bool, year: int, text: string, pos: nat, end: int, o: Extensions)
    requires Printable(ts) && 2000 <= year < 2100 && Holds(text, pos, Text(ts, buggyDay) + (" " + Padded(year, 4)))
    requires o.detectYearAfterTime && !o.parseTZ
    requires var last := pos + |Text(ts, buggyDay)| + 5; last < end && At(text, last) == ' '
    ensures var last := pos + |Text(ts, buggyDay)| + 5;
      Meaning(before, text, pos, end, o) == Some(Taken(ReadTimeOf(before, ts, year, None), last + 1, end))
  {
    hide Meaning, Text, Holds, YearDigits, Padded;
    var behind := pos + |Text(ts, buggyDay)|;
    HoldsParts(text, pos, Text(ts, buggyDay), " " + Padded(year, 4));
    HoldsParts(text, behind, " ", Padded(year, 4));
    HoldsFirst(text, behind, ' ');
    FourDigits(text, behind + 1, year);
    ReadBack(before, ts, buggyDay, text, pos, end, o);
  }
}

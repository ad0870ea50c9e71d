/** Calendar calculations on syslog timestamps: the table driven conversion to seconds since
    the epoch, the weekday, the day of the year, against the Gregorian calendar. */
module Calendar {
  import opened Numbers

  // ----- the Gregorian calendar -----

  predicate IsLeap(y: int) { y % 4 == 0 && (y % 100 != 0 || y % 400 == 0) }

  function DaysInYear(y: int): int { if IsLeap(y) then 366 else 365 }

  function DaysInMonth(y: int, m: int): int {
    if m == 2 then (if IsLeap(y) then 29 else 28)
    else if m == 4 || m == 6 || m == 9 || m == 11 then 30
    else 31
  }

  /** Days from 1 January 1970 to 1 January of a later year. */
  function DaysToYear(y: int): (n: int)
    requires y >= 1970
    ensures n >= 0
  {
    if y == 1970 then 0 else DaysToYear(y - 1) + DaysInYear(y - 1)
  }

  /** Days from 1 January to the first of a month. */
  function DaysToMonth(y: int, m: int): (n: int)
    requires 1 <= m <= 13
    ensures n >= 0
  {
    if m == 1 then 0 else DaysToMonth(y, m - 1) + DaysInMonth(y, m - 1)
  }

  predicate ValidDate(y: int, m: int, d: int) { 1 <= m <= 12 && 1 <= d <= DaysInMonth(y, m) }

  /** Days from 1 January of the year. */
  function DayOfYear(y: int, m: int, d: int): int
    requires 1 <= m <= 12
  {
    DaysToMonth(y, m) + d - 1
  }

  /** Days from 1 January 1970. */
  function DayNumber(y: int, m: int, d: int): int
    requires y >= 1970 && 1 <= m <= 12
  {
    DaysToYear(y) + DayOfYear(y, m, d)
  }

  // ----- the code -----

  datatype SyslogTime = SyslogTime(
    timeType: int, year: int, month: int, day: int, hour: int, minute: int, second: int,
    secfrac: int, secfracPrecision: int, offsetMode: char, offsetHour: int, offsetMinute: int)

  const START_YEAR: int := 1967

  /** The table yearInSecs: seconds at the end of each year from 1967 to 2099, in four parts. */
  function YearInSecs(index: int): int {
    if index < 34 then EndsTo2000(index)
    else if index < 67 then EndsTo2033(index)
    else if index < 100 then EndsTo2066(index)
    else EndsTo2099(index)
  }

  function EndsTo2000(index: int): int {
    match index
    case 0 => -63158401
    case 1 => -31536001
    case 2 => -1
    case 3 => 31535999
    case 4 => 63071999
    case 5 => 94694399
    case 6 => 126230399
    case 7 => 157766399
    case 8 => 189302399
    case 9 => 220924799
    case 10 => 252460799
    case 11 => 283996799
    case 12 => 315532799
    case 13 => 347155199
    case 14 => 378691199
    case 15 => 410227199
    case 16 => 441763199
    case 17 => 473385599
    case 18 => 504921599
    case 19 => 536457599
    case 20 => 567993599
    case 21 => 599615999
    case 22 => 631151999
    case 23 => 662687999
    case 24 => 694223999
    case 25 => 725846399
    case 26 => 757382399
    case 27 => 788918399
    case 28 => 820454399
    case 29 => 852076799
    case 30 => 883612799
    case 31 => 915148799
    case 32 => 946684799
    case 33 => 978307199
    case _ => 0
  }

  function EndsTo2033(index: int): int {
    match index
    case 34 => 1009843199
    case 35 => 1041379199
    case 36 => 1072915199
    case 37 => 1104537599
    case 38 => 1136073599
    case 39 => 1167609599
    case 40 => 1199145599
    case 41 => 1230767999
    case 42 => 1262303999
    case 43 => 1293839999
    case 44 => 1325375999
    case 45 => 1356998399
    case 46 => 1388534399
    case 47 => 1420070399
    case 48 => 1451606399
    case 49 => 1483228799
    case 50 => 1514764799
    case 51 => 1546300799
    case 52 => 1577836799
    case 53 => 1609459199
    case 54 => 1640995199
    case 55 => 1672531199
    case 56 => 1704067199
    case 57 => 1735689599
    case 58 => 1767225599
    case 59 => 1798761599
    case 60 => 1830297599
    case 61 => 1861919999
    case 62 => 1893455999
    case 63 => 1924991999
    case 64 => 1956527999
    case 65 => 1988150399
    case 66 => 2019686399
    case _ => 0
  }

  function EndsTo2066(index: int): int {
    match index
    case 67 => 2051222399
    case 68 => 2082758399
    case 69 => 2114380799
    case 70 => 2145916799
    case 71 => 2177452799
    case 72 => 2208988799
    case 73 => 2240611199
    case 74 => 2272147199
    case 75 => 2303683199
    case 76 => 2335219199
    case 77 => 2366841599
    case 78 => 2398377599
    case 79 => 2429913599
    case 80 => 2461449599
    case 81 => 2493071999
    case 82 => 2524607999
    case 83 => 2556143999
    case 84 => 2587679999
    case 85 => 2619302399
    case 86 => 2650838399
    case 87 => 2682374399
    case 88 => 2713910399
    case 89 => 2745532799
    case 90 => 2777068799
    case 91 => 2808604799
    case 92 => 2840140799
    case 93 => 2871763199
    case 94 => 2903299199
    case 95 => 2934835199
    case 96 => 2966371199
    case 97 => 2997993599
    case 98 => 3029529599
    case 99 => 3061065599
    case _ => 0
  }

  function EndsTo2099(index: int): int {
    match index
    case 100 => 3092601599
    case 101 => 3124223999
    case 102 => 3155759999
    case 103 => 3187295999
    case 104 => 3218831999
    case 105 => 3250454399
    case 106 => 3281990399
    case 107 => 3313526399
    case 108 => 3345062399
    case 109 => 3376684799
    case 110 => 3408220799
    case 111 => 3439756799
    case 112 => 3471292799
    case 113 => 3502915199
    case 114 => 3534451199
    case 115 => 3565987199
    case 116 => 3597523199
    case 117 => 3629145599
    case 118 => 3660681599
    case 119 => 3692217599
    case 120 => 3723753599
    case 121 => 3755375999
    case 122 => 3786911999
    case 123 => 3818447999
    case 124 => 3849983999
    case 125 => 3881606399
    case 126 => 3913142399
    case 127 => 3944678399
    case 128 => 3976214399
    case 129 => 4007836799
    case 130 => 4039372799
    case 131 => 4070908799
    case 132 => 4102444799
    case _ => 0
  }

  function MonthInDays(month: int): int {
    match month
    case 1 => 0
    case 2 => 31
    case 3 => 59
    case 4 => 90
    case 5 => 120
    case 6 => 151
    case 7 => 181
    case 8 => 212
    case 9 => 243
    case 10 => 273
    case 11 => 304
    case 12 => 334
    case _ => 0
  }

  predicate YearInRange(y: int) { 1970 <= y <= 2100 }

  /** syslogTime2time_t. */
  function ToUnix(ts: SyslogTime): int {
    if !YearInRange(ts.year) then 0
    else
      SecondsFrom(YearInSecs(ts.year - START_YEAR - 1) + 1, ts)
  }

  /** The rest of that conversion, given the seconds at the start of the year. */
  function SecondsFrom(yearStart: int, ts: SyslogTime): int {
    var leap := (ts.year % 100 != 0 && ts.year % 4 == 0) || ts.year == 2000;
    var monthInDays := MonthInDays(ts.month) + if leap && ts.month > 2 then 1 else 0;
    var utcOffset := ts.offsetHour * 3600 + ts.offsetMinute * 60;
    yearStart + (monthInDays + ts.day - 1) * 86400
    + ts.hour * 60 * 60 + ts.minute * 60 + ts.second + if ts.offsetMode == '+' then -utcOffset else utcOffset
  }

  /** getWeekdayNbr: 0 is Sunday. The C division truncates; all operands are positive here. */
  function Weekday(ts: SyslogTime): int {
    var g := if ts.month < 3 then ts.year - 1 else ts.year;
    var f := if ts.month < 3 then ts.month + 13 else ts.month + 1;
    TruncMod(TruncDiv(36525 * g, 100) + TruncDiv(306 * f, 10) + ts.day - 621049, 7)
  }

  /** getOrdinal. */
  function Ordinal(ts: SyslogTime): int {
    if !YearInRange(ts.year) then 0
    else
      var utcOffset := ts.offsetHour * 3600 + ts.offsetMinute * 60;
      var previousYears := YearInSecs(ts.year - START_YEAR - 1) + if ts.offsetMode == '+' then utcOffset - 1 else utcOffset;
      TruncDiv(ToUnix(ts) - previousYears, 86400)
  }

  // ----- the tables -----

  /** Closed form of the day count. */
  function YearStart(y: int): int { 365 * (y - 1970) + (y - 1) / 4 - (y - 1) / 100 + (y - 1) / 400 - 477 }

  lemma {:induction false} YearStartIsCount(y: int)
    requires y >= 1970
    ensures DaysToYear(y) == YearStart(y)
  {
    if y > 1970 { YearStartIsCount(y - 1); LeapStep(y - 1); }
  }

  lemma DivStep(y: int, n: int)
    requires y >= 1 && (n == 4 || n == 100 || n == 400)
    ensures y / n == (y - 1) / n + if y % n == 0 then 1 else 0
  {
  }

  lemma Centuries(q: int)
    ensures 100 * q % 4 == 0 && 400 * q % 100 == 0
  {
    assert 100 * q == 4 * (25 * q) && 400 * q == 100 * (4 * q);
  }

  lemma LeapDay(y: int)
    ensures DaysInYear(y) == 365 + (if y % 4 == 0 then 1 else 0) - (if y % 100 == 0 then 1 else 0) + (if y % 400 == 0 then 1 else 0)
  {
    Centuries(y / 100);
    Centuries(y / 400);
  }

  lemma LeapStep(y: int)
    requires y >= 1970
    ensures YearStart(y + 1) == YearStart(y) + DaysInYear(y)
  {
    DivStep(y, 4);
    DivStep(y, 100);
    DivStep(y, 400);
    LeapDay(y);
  }

  /** Seconds before year b of the leap year cycle a: cycles have 1461 days. */
  function CycleEnd(i: int): int {
    var a, b := (i - 1) / 4, (i - 1) % 4;
    86400 * (1461 * a + 365 * b - 365) - 1
  }

  lemma EndsTo2000Entry(i: int)
    requires 2 <= i < 34
    ensures EndsTo2000(i) == CycleEnd(i)
  {
  }

  lemma EndsTo2033Entry(i: int)
    requires 34 <= i < 67
    ensures EndsTo2033(i) == CycleEnd(i)
  {
  }

  lemma EndsTo2066Entry(i: int)
    requires 67 <= i < 100
    ensures EndsTo2066(i) == CycleEnd(i)
  {
  }

  lemma EndsTo2099Entry(i: int)
    requires 100 <= i < 133
    ensures EndsTo2099(i) == CycleEnd(i)
  {
  }

  /** Each entry of the table is one second before a year starts. */
  lemma YearTableEntry(i: nat)
    requires 2 <= i <= 132
    ensures YearInSecs(i) + 1 == 86400 * YearStart(1968 + i)
  {
    assert YearInSecs(i) == CycleEnd(i) by {
      hide EndsTo2000, EndsTo2033, EndsTo2066, EndsTo2099, CycleEnd;
      if i < 34 { EndsTo2000Entry(i); }
      else if i < 67 { EndsTo2033Entry(i); }
      else if i < 100 { EndsTo2066Entry(i); }
      else { EndsTo2099Entry(i); }
    }
    hide YearInSecs;
    assert (i + 1967) / 4 == (i - 1) / 4 + 492;
    assert (i + 1967) / 100 - (i + 1967) / 400 == 15;
  }

  lemma MonthTable(y: int, m: int)
    requires 1 <= m <= 12 && YearInRange(y)
    ensures DaysToMonth(y, m) == MonthInDays(m) + if ((y % 100 != 0 && y % 4 == 0) || y == 2000) && m > 2 then 1 else 0
  {
    assert IsLeap(y) <==> (y % 100 != 0 && y % 4 == 0) || y == 2000;
    assert DaysToMonth(y, 2) == 31;
    assert m > 2 ==> DaysToMonth(y, 3) == 31 + DaysInMonth(y, 2);
    assert m > 3 ==> DaysToMonth(y, 4) == DaysToMonth(y, 3) + 31;
    assert m > 4 ==> DaysToMonth(y, 5) == DaysToMonth(y, 4) + 30;
    assert m > 5 ==> DaysToMonth(y, 6) == DaysToMonth(y, 5) + 31;
    assert m > 6 ==> DaysToMonth(y, 7) == DaysToMonth(y, 6) + 30;
    assert m > 7 ==> DaysToMonth(y, 8) == DaysToMonth(y, 7) + 31;
    assert m > 8 ==> DaysToMonth(y, 9) == DaysToMonth(y, 8) + 31;
    assert m > 9 ==> DaysToMonth(y, 10) == DaysToMonth(y, 9) + 30;
    assert m > 10 ==> DaysToMonth(y, 11) == DaysToMonth(y, 10) + 31;
    assert m > 11 ==> DaysToMonth(y, 12) == DaysToMonth(y, 11) + 30;
  }

  // ----- seconds since the epoch -----

  predicate ValidTime(ts: SyslogTime) {
    && ValidDate(ts.year, ts.month, ts.day)
    && 0 <= ts.hour <= 23 && 0 <= ts.minute <= 59 && 0 <= ts.second <= 59
  }

  function TimeOfDay(ts: SyslogTime): int { ts.hour * 3600 + ts.minute * 60 + ts.second }

  function Offset(ts: SyslogTime): int { ts.offsetHour * 3600 + ts.offsetMinute * 60 }

  /** The table driven conversion is the Gregorian day count times 86400, plus the time of
      day, minus an offset ahead of UTC or plus one behind it, for all years it accepts. */
  lemma ToUnixIsGregorian(ts: SyslogTime)
    requires YearInRange(ts.year) && 1 <= ts.month <= 12
    ensures ToUnix(ts) == DayNumber(ts.year, ts.month, ts.day) * 86400 + TimeOfDay(ts)
      + if ts.offsetMode == '+' then -Offset(ts) else Offset(ts)
  {
    hide YearInSecs, SecondsFrom, YearStart, DaysToYear, DayNumber;
    YearTableEntry(ts.year - 1968);
    SecondsFromYear(ts);
  }

  lemma SecondsFromYear(ts: SyslogTime)
    requires YearInRange(ts.year) && 1 <= ts.month <= 12
    ensures SecondsFrom(86400 * YearStart(ts.year), ts) == DayNumber(ts.year, ts.month, ts.day) * 86400 + TimeOfDay(ts)
      + if ts.offsetMode == '+' then -Offset(ts) else Offset(ts)
  {
    YearStartIsCount(ts.year);
    MonthTable(ts.year, ts.month);
  }

  predicate DateBefore(a: SyslogTime, b: SyslogTime) {
    a.year < b.year || (a.year == b.year && (a.month < b.month || (a.month == b.month && a.day < b.day)))
  }

  predicate Before(a: SyslogTime, b: SyslogTime) {
    DateBefore(a, b) || (a.year == b.year && a.month == b.month && a.day == b.day && TimeOfDay(a) < TimeOfDay(b))
  }

  lemma {:induction false} MonthsGrow(y: int, m: int, n: int)
    requires 1 <= m < n <= 13
    ensures DaysToMonth(y, m) + DaysInMonth(y, m) <= DaysToMonth(y, n)
    decreases n - m
  {
    if m + 1 < n { MonthsGrow(y, m, n - 1); }
  }

  lemma YearLength(y: int)
    ensures DaysToMonth(y, 13) == DaysInYear(y)
  {
    assert DaysToMonth(y, 2) == 31;
    assert DaysToMonth(y, 3) == 31 + DaysInMonth(y, 2);
    assert DaysToMonth(y, 5) == DaysToMonth(y, 3) + 61;
    assert DaysToMonth(y, 7) == DaysToMonth(y, 5) + 61;
    assert DaysToMonth(y, 9) == DaysToMonth(y, 7) + 62;
    assert DaysToMonth(y, 11) == DaysToMonth(y, 9) + 61;
    assert DaysToMonth(y, 13) == DaysToMonth(y, 11) + 61;
  }

  lemma {:induction false} YearsGrow(y: int, z: int)
    requires 1970 <= y < z
    ensures DaysToYear(y) + DaysInYear(y) <= DaysToYear(z)
    decreases z - y
  {
    if y + 1 < z { YearsGrow(y, z - 1); }
  }

  lemma WithinYear(y: int, m: int, d: int)
    requires ValidDate(y, m, d)
    ensures 0 <= DayOfYear(y, m, d) < DaysInYear(y)
  {
    YearLength(y);
    MonthsGrow(y, m, 13);
  }

  lemma DaysGrow(a: SyslogTime, b: SyslogTime)
    requires a.year >= 1970 && b.year >= 1970 && ValidTime(a) && ValidTime(b) && DateBefore(a, b)
    ensures DayNumber(a.year, a.month, a.day) < DayNumber(b.year, b.month, b.day)
  {
    WithinYear(a.year, a.month, a.day);
    WithinYear(b.year, b.month, b.day);
    if a.year < b.year {
      YearsGrow(a.year, b.year);
    } else if a.month < b.month {
      MonthsGrow(a.year, a.month, b.month);
    }
  }

  /** With the same offset, a later civil time has more seconds. */
  lemma ToUnixGrows(a: SyslogTime, b: SyslogTime)
    requires YearInRange(a.year) && YearInRange(b.year) && ValidTime(a) && ValidTime(b) && Before(a, b)
    requires a.offsetMode == b.offsetMode && Offset(a) == Offset(b)
    ensures ToUnix(a) < ToUnix(b)
  {
    hide ToUnix;
    ToUnixIsGregorian(a);
    ToUnixIsGregorian(b);
    if DateBefore(a, b) { DaysGrow(a, b); }
  }

  // ----- weekday -----

  lemma MonthFormula(m: int)
    requires 1 <= m <= 12
    ensures m < 3 ==> TruncDiv(306 * (m + 13), 10) == MonthInDays(m) + 428
    ensures m >= 3 ==> TruncDiv(306 * (m + 1), 10) == MonthInDays(m) + 63
  {
  }

  lemma YearFormula(y: int)
    requires YearInRange(y)
    ensures TruncDiv(36525 * (y - 1), 100) == YearStart(y) + 719177
    ensures TruncDiv(36525 * y, 100) == YearStart(y) + 719177 + if y % 4 == 0 then 366 else 365
  {
    DivStep(y, 4);
    assert 36525 * y / 100 == 365 * y + y / 4;
    assert 36525 * (y - 1) / 100 == 365 * (y - 1) + (y - 1) / 4;
    assert (y - 1) / 100 - (y - 1) / 400 == 15;
  }

  lemma WeekdayCount(y: int, m: int, d: int)
    requires YearInRange(y) && 1 <= m <= 12
    ensures var g := if m < 3 then y - 1 else y; var f := if m < 3 then m + 13 else m + 1;
      TruncDiv(36525 * g, 100) + TruncDiv(306 * f, 10) + d - 621049
      == DayNumber(y, m, d) + 4 + 98553 + if y == 2100 && m >= 3 then 1 else 0
  {
    YearStartIsCount(y);
    MonthTable(y, m);
    MonthFormula(m);
    YearFormula(y);
  }

  /** The weekday formula is right for every date of the years it is used for, except from
      March 2100 on. */
  lemma WeekdayExact(ts: SyslogTime)
    requires YearInRange(ts.year) && 1 <= ts.month <= 12 && ts.day >= 1
    ensures Weekday(ts) == (DayNumber(ts.year, ts.month, ts.day) + 4) % 7 <==> !(ts.year == 2100 && ts.month >= 3)
  {
    WeekdayCount(ts.year, ts.month, ts.day);
    var n := DayNumber(ts.year, ts.month, ts.day) + 4;
    assert n >= 0 && 98553 == 7 * 14079;
    assert (n + 98553) % 7 == n % 7;
    assert (n + 98553 + 1) % 7 != n % 7;
  }

  // ----- day of the year -----

  /** The seconds getOrdinal divides, beyond the whole days of the date. */
  function OrdinalRest(ts: SyslogTime): int {
    if ts.offsetMode == '+' then TimeOfDay(ts) + 2 - 2 * Offset(ts) else TimeOfDay(ts) + 1
  }

  lemma QuotientExact(q: int, x: int)
    requires q >= 0
    ensures TruncDiv(q * 86400 + x, 86400) == q <==> 0 <= x < 86400 || (q == 0 && -86400 < x < 0)
  {
  }

  /** The day of the year is right exactly when the rest stays within a day: always before
      the last second unless the timestamp has a '+' offset. */
  lemma OrdinalExact(ts: SyslogTime)
    requires YearInRange(ts.year) && ValidTime(ts)
    ensures var x := OrdinalRest(ts); var doy := DayOfYear(ts.year, ts.month, ts.day);
      Ordinal(ts) == doy <==> 0 <= x < 86400 || (doy == 0 && -86400 < x < 0)
    ensures Ordinal(ts) == TruncDiv(DayOfYear(ts.year, ts.month, ts.day) * 86400 + OrdinalRest(ts), 86400)
  {
    hide YearInSecs, ToUnix, YearStart, DaysToYear, DayOfYear, TruncDiv;
    ToUnixIsGregorian(ts);
    YearTableEntry(ts.year - 1968);
    YearStartIsCount(ts.year);
    WithinYear(ts.year, ts.month, ts.day);
    QuotientExact(DayOfYear(ts.year, ts.month, ts.day), OrdinalRest(ts));
  }

  /** 1 March 2100 is a Monday; the formula says Tuesday. */
  lemma WeekdayExample(ts: SyslogTime)
    requires ts.year == 2100 && ts.month == 3 && ts.day == 1
    ensures Weekday(ts) == 2 && (DayNumber(2100, 3, 1) + 4) % 7 == 1
  {
    hide DaysToYear;
    YearStartIsCount(2100);
    assert DaysToMonth(2100, 2) == 31 && DaysToMonth(2100, 3) == 59;
  }

  /** One o'clock on 2 January, two hours ahead of UTC, counts as the first day of the year. */
  lemma OrdinalExample()
    ensures Ordinal(SyslogTime(2, 2024, 1, 2, 1, 0, 0, 0, 0, '+', 2, 0)) == 0 && DayOfYear(2024, 1, 2) == 1
  {
    hide Ordinal, ToUnix, YearInSecs;
    var ts := SyslogTime(2, 2024, 1, 2, 1, 0, 0, 0, 0, '+', 2, 0);
    OrdinalExact(ts);
    assert OrdinalRest(ts) == 3602 - 14400;
  }
}

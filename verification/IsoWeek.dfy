/** ISO 8601 week numbers, against the definition in section 3.2.2 of ISO 8601:2004: a week
    runs from Monday to Sunday and belongs to the year that holds its Thursday. */
module IsoWeek {
  import opened Numbers
  import opened Calendar

  // ----- the code -----

  /** The table weeksInYear, for the years 1969 to 2100: 53 at these indices, 52 at the rest. */
  function WeeksInYear(index: int): int {
    if index in {1, 7, 12, 18, 23, 29, 35, 40, 46, 51, 57, 63,
        68, 74, 79, 85, 91, 96, 102, 107, 113, 119, 124, 130} then 53
    else 52
  }

  datatype Week = Week(number: int, year: int)

  /** getISOWeek. */
  function GetIsoWeek(ts: SyslogTime): Week { WeekFrom(Ordinal(ts), Weekday(ts), ts.year) }

  /** The calculation from the day of the year, the weekday and the year. */
  function WeekFrom(ordinal: int, weekday: int, year: int): Week {
    var curDow := if weekday == 0 then 7 else weekday;
    Adjust(TruncDiv(10 + ordinal + 1 - curDow, 7), year, WeeksInYear(year - 1 - 1969), WeeksInYear(year - 1969))
  }

  function Adjust(weekNum: int, year: int, weeksBefore: int, weeks: int): Week {
    if weekNum == 0 then Week(weeksBefore, year - 1)
    else if weekNum > weeks then Week(1, year + 1)
    else Week(weekNum, year)
  }

  // ----- the standard -----

  /** The Thursday of the Monday to Sunday week of a day; day 0, 1 January 1970, is one. */
  function Thursday(day: int): int { day + 3 - (day + 3) % 7 }

  /** Thursdays before a day of a year that starts on day `start`, plus one. */
  ghost predicate IsIsoWeek(day: int, w: Week) {
    && w.year >= 1970
    && DaysToYear(w.year) <= Thursday(day) < DaysToYear(w.year + 1)
    && w.number == (Thursday(day) - DaysToYear(w.year)) / 7 + 1
  }

  /** Thursdays in a year. */
  function Thursdays(y: int): int
    requires y >= 1970
  {
    if DaysToYear(y) % 7 == 0 || (IsLeap(y) && DaysToYear(y) % 7 == 6) then 53 else 52
  }

  // ----- proofs -----

  /** Weekday of 1 January, counted from Thursday. */
  function FirstDay(y: int): int { (y + (y - 1) / 4 + 2) % 7 }

  lemma FirstDayIs(y: int)
    requires YearInRange(y)
    ensures YearStart(y) % 7 == FirstDay(y)
    ensures IsLeap(y) <==> y % 4 == 0 && y != 2100
  {
    assert (y - 1) / 100 - (y - 1) / 400 == 15;
    var n := y + (y - 1) / 4 + 2;
    assert YearStart(y) == n + 7 * (52 * y - 102792);
    SameRest(n, 52 * y - 102792);
  }

  lemma SameRest(n: int, k: int)
    ensures (n + 7 * k) % 7 == n % 7
  {
  }

  /** The weekdays of 1 January repeat after 28 years. */
  lemma Cycle(a: int, b: int, p: int)
    requires 0 <= b < 7 && 0 <= p < 4
    ensures FirstDay(28 * a + 4 * b + p + 1) == (5 * b + p + 3) % 7
  {
    var y := 28 * a + 4 * b + p + 1;
    assert (y - 1) / 4 == 7 * a + b;
    SameRest(5 * b + p + 3, 5 * a);
  }

  lemma CycleEntries(a: int, b: int, p: int)
    requires 70 <= a <= 74 && 0 <= b < 7 && 0 <= p < 4
    requires YearInRange(28 * a + 4 * b + p + 1)
    ensures var y := 28 * a + 4 * b + p + 1; var first := (5 * b + p + 3) % 7;
      WeeksInYear(y - 1969) == if first == 0 || (p == 3 && y != 2100 && first == 6) then 53 else 52
  {
  }

  lemma TableEntries(y: int)
    requires YearInRange(y)
    ensures WeeksInYear(y - 1969) == if FirstDay(y) == 0 || (y % 4 == 0 && y != 2100 && FirstDay(y) == 6) then 53 else 52
  {
    var q, p := (y - 1) / 4, (y - 1) % 4;
    var a, b := q / 7, q % 7;
    assert y == 28 * a + 4 * b + p + 1;
    assert y % 4 == 0 <==> p == 3;
    Cycle(a, b, p);
    CycleEntries(a, b, p);
  }

  /** The table counts the Thursdays of each year. */
  lemma WeekTable(y: int)
    requires YearInRange(y)
    ensures WeeksInYear(y - 1969) == Thursdays(y)
  {
    YearStartIsCount(y);
    FirstDayIs(y);
    TableEntries(y);
  }

  /** Each day has one week. */
  lemma WeekIsUnique(day: int, v: Week, w: Week)
    requires IsIsoWeek(day, v) && IsIsoWeek(day, w)
    ensures v == w
  {
    if v.year < w.year && v.year + 1 < w.year { YearsGrow(v.year + 1, w.year); }
    if w.year < v.year && w.year + 1 < v.year { YearsGrow(w.year + 1, v.year); }
  }

  lemma ThursdayIsMultiple(day: int)
    ensures Thursday(day) % 7 == 0 && day - 3 <= Thursday(day) <= day + 3
  {
  }

  /** The last multiple of 7 in an interval of 365 or 366 has number 52 or 53. */
  lemma LastMultiple(start: int, length: int, t: int)
    requires length == 365 || length == 366
    requires t % 7 == 0 && start <= t < start + length <= t + 7
    ensures (t - start) / 7 + 1 == if start % 7 == 0 || (length == 366 && start % 7 == 6) then 53 else 52
  {
    var r := start % 7;
    var first := if r == 0 then start else start + 7 - r;
    assert first % 7 == 0;
    var k := (t - first) / 7;
    assert t == first + 7 * k;
    assert (t - start) / 7 == k;
  }

  /** The last Thursday of a year has the number of its Thursdays. */
  lemma LastThursday(y: int, t: int)
    requires y >= 1970 && t % 7 == 0
    requires DaysToYear(y) <= t < DaysToYear(y + 1) <= t + 7
    ensures (t - DaysToYear(y)) / 7 + 1 == Thursdays(y)
  {
    LastMultiple(DaysToYear(y), DaysInYear(y), t);
  }

  /** A Thursday of the year has a number up to that of the last. */
  lemma ThursdaysLeft(y: int, t: int)
    requires y >= 1970 && t % 7 == 0 && DaysToYear(y) <= t < DaysToYear(y + 1)
    ensures (t - DaysToYear(y)) / 7 + 1 <= Thursdays(y)
    decreases DaysToYear(y + 1) - t
  {
    if DaysToYear(y + 1) <= t + 7 { LastThursday(y, t); } else { ThursdaysLeft(y, t + 7); }
  }

  /** The week number that counts in the year of day `o` of the year `y`. */
  function Count(y: int, o: int): int
    requires y >= 1970
  {
    (Thursday(DaysToYear(y) + o) - DaysToYear(y) + 7) / 7
  }

  lemma WeekBefore(y: int, o: int)
    requires y > 1970 && 0 <= o && Thursday(DaysToYear(y) + o) < DaysToYear(y)
    ensures Count(y, o) == 0 && IsIsoWeek(DaysToYear(y) + o, Week(Thursdays(y - 1), y - 1))
  {
    hide Thursdays, IsLeap;
    ThursdayIsMultiple(DaysToYear(y) + o);
    LastThursday(y - 1, Thursday(DaysToYear(y) + o));
  }

  lemma WeekAfter(y: int, o: int)
    requires y >= 1970 && 0 <= o < DaysInYear(y) && Thursday(DaysToYear(y) + o) >= DaysToYear(y + 1)
    ensures Count(y, o) > Thursdays(y) && IsIsoWeek(DaysToYear(y) + o, Week(1, y + 1))
  {
    ThursdayIsMultiple(DaysToYear(y) + o);
    LastThursday(y, Thursday(DaysToYear(y) + o) - 7);
    assert DaysToYear(y + 2) >= DaysToYear(y + 1) + 365;
  }

  lemma WeekWithin(y: int, o: int)
    requires y >= 1970 && DaysToYear(y) <= Thursday(DaysToYear(y) + o) < DaysToYear(y + 1)
    ensures 0 < Count(y, o) <= Thursdays(y) && IsIsoWeek(DaysToYear(y) + o, Week(Count(y, o), y))
  {
    ThursdayIsMultiple(DaysToYear(y) + o);
    ThursdaysLeft(y, Thursday(DaysToYear(y) + o));
  }

  /** The adjusted count is the ISO week. */
  lemma WeekOfDay(y: int, o: int)
    requires y >= 1970 && 0 <= o < DaysInYear(y)
    ensures IsIsoWeek(DaysToYear(y) + o,
      Adjust(Count(y, o), y, if y > 1970 then Thursdays(y - 1) else 52, Thursdays(y)))
  {
    var t := Thursday(DaysToYear(y) + o);
    if t < DaysToYear(y) {
      WeekBefore(y, o);
    } else if t >= DaysToYear(y + 1) {
      WeekAfter(y, o);
    } else {
      WeekWithin(y, o);
    }
  }

  predicate InRange(ts: SyslogTime) {
    YearInRange(ts.year) && (ts.year < 2100 || ts.month < 3) && ValidTime(ts)
  }

  /** What the code computes for day `o` of a year, given the right weekday. */
  lemma CodeCounts(y: int, o: int, ordinal: int, weekday: int)
    requires YearInRange(y) && 0 <= o < DaysInYear(y) && o <= ordinal
    requires weekday == (DaysToYear(y) + o + 4) % 7
    ensures WeekFrom(ordinal, weekday, y) == Adjust(
        (Thursday(DaysToYear(y) + o) - DaysToYear(y) + 7 + ordinal - o) / 7, y,
        if y > 1970 then Thursdays(y - 1) else 52, Thursdays(y))
  {
    var curDow := if weekday == 0 then 7 else weekday;
    DowToThursday(DaysToYear(y) + o);
    WeekTable(y);
    if y > 1970 { WeekTable(y - 1); }
  }

  lemma DowToThursday(day: int)
    ensures var weekday := (day + 4) % 7; Thursday(day) == day + 4 - if weekday == 0 then 7 else weekday
  {
    assert (day + 4) % 7 == ((day + 3) % 7 + 1) % 7;
  }

  /** The right day of the year gives the right week. */
  lemma RightDay(y: int, o: int, weekday: int)
    requires YearInRange(y) && 0 <= o < DaysInYear(y)
    requires weekday == (DaysToYear(y) + o + 4) % 7
    ensures IsIsoWeek(DaysToYear(y) + o, WeekFrom(o, weekday, y))
  {
    hide WeekFrom, Thursdays, Thursday, Adjust, DaysToYear;
    CodeCounts(y, o, o, weekday);
    WeekOfDay(y, o);
  }

  /** Wherever the day of the year is right, so is the ISO week and its year. */
  lemma IsoWeekIsRight(ts: SyslogTime)
    requires InRange(ts) && Ordinal(ts) == DayOfYear(ts.year, ts.month, ts.day)
    ensures IsIsoWeek(DayNumber(ts.year, ts.month, ts.day), GetIsoWeek(ts))
  {
    hide Ordinal, Weekday, WeekFrom, IsIsoWeek;
    WithinYear(ts.year, ts.month, ts.day);
    WeekdayExact(ts);
    RightDay(ts.year, DayOfYear(ts.year, ts.month, ts.day), Weekday(ts));
  }

  lemma SharedWeek(m: int, n: int, v: Week, w: Week)
    requires IsIsoWeek(m, v) && IsIsoWeek(n, w)
    ensures v == w <==> (m + 3) / 7 == (n + 3) / 7
  {
    ThursdayIsMultiple(m);
    ThursdayIsMultiple(n);
    if (m + 3) / 7 == (n + 3) / 7 {
      assert Thursday(m) == Thursday(n);
      WeekIsUnique(m, v, w);
    } else {
      NumbersDiffer(Thursday(m), Thursday(n), DaysToYear(v.year));
    }
  }

  lemma NumbersDiffer(t: int, u: int, start: int)
    requires t % 7 == 0 && u % 7 == 0 && t != u
    ensures (t - start) / 7 != (u - start) / 7
  {
  }

  /** Two timestamps get the same week and year exactly when they share a Monday to Sunday week. */
  lemma WeekIsShared(a: SyslogTime, b: SyslogTime)
    requires InRange(a) && Ordinal(a) == DayOfYear(a.year, a.month, a.day)
    requires InRange(b) && Ordinal(b) == DayOfYear(b.year, b.month, b.day)
    ensures GetIsoWeek(a) == GetIsoWeek(b)
      <==> (DayNumber(a.year, a.month, a.day) + 3) / 7 == (DayNumber(b.year, b.month, b.day) + 3) / 7
  {
    hide Ordinal, GetIsoWeek;
    IsoWeekIsRight(a);
    IsoWeekIsRight(b);
    SharedWeek(DayNumber(a.year, a.month, a.day), DayNumber(b.year, b.month, b.day), GetIsoWeek(a), GetIsoWeek(b));
  }

  /** One day too many does no harm in a year that does not start on a Friday. */
  lemma HarmlessDay(y: int, o: int, weekday: int)
    requires YearInRange(y) && 0 <= o < DaysInYear(y)
    requires weekday == (DaysToYear(y) + o + 4) % 7 && DaysToYear(y) % 7 != 1
    ensures IsIsoWeek(DaysToYear(y) + o, WeekFrom(o + 1, weekday, y))
  {
    hide WeekFrom, Thursdays, IsIsoWeek, Adjust, DaysToYear, Thursday;
    CodeCounts(y, o, o + 1, weekday);
    ThursdayIsMultiple(DaysToYear(y) + o);
    WeekOfDay(y, o);
    NoCarry(Thursday(DaysToYear(y) + o), DaysToYear(y));
  }

  /** In a year that starts on a Friday it gives another week. */
  lemma HarmfulDay(y: int, o: int, weekday: int)
    requires YearInRange(y) && 0 <= o < DaysInYear(y)
    requires weekday == (DaysToYear(y) + o + 4) % 7 && DaysToYear(y) % 7 == 1
    ensures WeekFrom(o + 1, weekday, y) != WeekFrom(o, weekday, y)
  {
    hide WeekFrom, Thursdays, DaysToYear, Thursday;
    CodeCounts(y, o, o, weekday);
    CodeCounts(y, o, o + 1, weekday);
    ThursdayIsMultiple(DaysToYear(y) + o);
    Carry(Thursday(DaysToYear(y) + o), DaysToYear(y));
    FridayYear(y, o);
  }

  lemma DayTooMany(y: int, o: int, weekday: int)
    requires YearInRange(y) && 0 <= o < DaysInYear(y)
    requires weekday == (DaysToYear(y) + o + 4) % 7
    ensures IsIsoWeek(DaysToYear(y) + o, WeekFrom(o + 1, weekday, y)) <==> DaysToYear(y) % 7 != 1
  {
    hide WeekFrom, IsIsoWeek, DaysToYear, IsLeap, Thursdays;
    if DaysToYear(y) % 7 != 1 {
      HarmlessDay(y, o, weekday);
    } else {
      HarmfulDay(y, o, weekday);
      RightDay(y, o, weekday);
      if IsIsoWeek(DaysToYear(y) + o, WeekFrom(o + 1, weekday, y)) {
        WeekIsUnique(DaysToYear(y) + o, WeekFrom(o + 1, weekday, y), WeekFrom(o, weekday, y));
      }
    }
  }

  lemma NoCarry(t: int, start: int)
    requires t % 7 == 0 && start % 7 != 1
    ensures (t - start + 8) / 7 == (t - start + 7) / 7
  {
  }

  lemma Carry(t: int, start: int)
    requires t % 7 == 0 && start % 7 == 1
    ensures (t - start + 8) / 7 == (t - start + 7) / 7 + 1
  {
  }

  /** A year that starts on a Friday ends on a Friday or Saturday, within its last week. */
  lemma FridayEnd(y: int, o: int)
    requires y >= 1970 && 0 <= o < DaysInYear(y) && DaysToYear(y) % 7 == 1
    ensures Thursday(DaysToYear(y) + o) < DaysToYear(y + 1)
  {
    ThursdayIsMultiple(DaysToYear(y) + o);
  }

  lemma WeekBeforeCount(y: int, o: int)
    requires y >= 1970 && 0 <= o && Thursday(DaysToYear(y) + o) < DaysToYear(y)
    ensures Count(y, o) <= 0 && Thursdays(y) >= 52
  {
    hide DaysToYear;
    ThursdayIsMultiple(DaysToYear(y) + o);
  }

  lemma FridayYear(y: int, o: int)
    requires y >= 1970 && 0 <= o < DaysInYear(y) && DaysToYear(y) % 7 == 1
    ensures Count(y, o) <= Thursdays(y)
  {
    hide DaysToYear, Thursdays, Thursday;
    FridayEnd(y, o);
    if Thursday(DaysToYear(y) + o) >= DaysToYear(y) { WeekWithin(y, o); } else { WeekBeforeCount(y, o); }
  }

  /** Without a '+' offset the week is right except in the last second of the days of years
      that start on a Friday. */
  lemma IsoWeekExact(ts: SyslogTime)
    requires InRange(ts) && ts.offsetMode != '+'
    ensures IsIsoWeek(DayNumber(ts.year, ts.month, ts.day), GetIsoWeek(ts))
      <==> !(TimeOfDay(ts) == 86399 && DaysToYear(ts.year) % 7 == 1)
  {
    hide Ordinal, Weekday, WeekFrom, IsIsoWeek;
    OrdinalExact(ts);
    WithinYear(ts.year, ts.month, ts.day);
    if TimeOfDay(ts) < 86399 {
      IsoWeekIsRight(ts);
    } else {
      WeekdayExact(ts);
      DayTooMany(ts.year, DayOfYear(ts.year, ts.month, ts.day), Weekday(ts));
    }
  }

  lemma YearsOfExample()
    ensures DaysToYear(2020) == 18262 && DaysToYear(2021) == 18628
  {
    hide DaysToYear;
    YearStartIsCount(2020);
    YearStartIsCount(2021);
  }

  lemma DayOfExample()
    ensures DayOfYear(2021, 1, 3) == 2 && DayNumber(2021, 1, 3) == 18630
  {
    hide DaysToYear;
    YearsOfExample();
  }

  lemma CountsOfExample(ts: SyslogTime)
    requires ts == SyslogTime(2, 2021, 1, 3, 23, 59, 59, 0, 0, 'Z', 0, 0)
    ensures Ordinal(ts) == 3 && Weekday(ts) == 0
  {
    hide Ordinal, Weekday, DaysToYear, DayOfYear, DayNumber;
    DayOfExample();
    OrdinalExact(ts);
    WeekdayExact(ts);
    assert OrdinalRest(ts) == 86400;
  }

  /** The last second of Sunday, 3 January 2021, is in week 53 of 2020; the code says week 1
      of 2021. */
  lemma IsoWeekExample()
    ensures var ts := SyslogTime(2, 2021, 1, 3, 23, 59, 59, 0, 0, 'Z', 0, 0);
      GetIsoWeek(ts) == Week(1, 2021) && IsIsoWeek(DayNumber(2021, 1, 3), Week(53, 2020))
  {
    hide Ordinal, Weekday, DaysToYear, DayNumber;
    CountsOfExample(SyslogTime(2, 2021, 1, 3, 23, 59, 59, 0, 0, 'Z', 0, 0));
    YearsOfExample();
    DayOfExample();
    assert Thursday(18630) == 18627;
  }
}

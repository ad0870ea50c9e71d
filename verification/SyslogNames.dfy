/** Symbolic names of facilities and severities: the tables decodeSyslogName searches
    and the texts a message reports for its own codes. */
module SyslogNames {
  import opened Numbers

  datatype Entry = Entry(name: string, code: nat)

  const INTERNAL_NOPRI: nat := 0x10
  const TABLE_ALLPRI: nat := 0xff
  const FAC_MARK: nat := 25
  const FAC_INVLD: nat := 24

  const PRI_NAMES: seq<Entry> := [
    Entry("alert", 1), Entry("crit", 2), Entry("debug", 7), Entry("emerg", 0), Entry("err", 3),
    Entry("error", 3), Entry("info", 6), Entry("none", INTERNAL_NOPRI), Entry("notice", 5),
    Entry("panic", 0), Entry("warn", 4), Entry("warning", 4), Entry("*", TABLE_ALLPRI)]

  const FAC_NAMES: seq<Entry> := [
    Entry("auth", 4 * 8), Entry("authpriv", 10 * 8), Entry("cron", 9 * 8), Entry("daemon", 3 * 8),
    Entry("kern", 0), Entry("lpr", 6 * 8), Entry("mail", 2 * 8), Entry("mark", FAC_MARK * 8),
    Entry("news", 7 * 8), Entry("ntp", 12 * 8), Entry("security", 4 * 8), Entry("bsd_security", 13 * 8),
    Entry("syslog", 5 * 8), Entry("user", 1 * 8), Entry("uucp", 8 * 8), Entry("ftp", 11 * 8),
    Entry("console", 14 * 8), Entry("local0", 16 * 8), Entry("local1", 17 * 8), Entry("local2", 18 * 8),
    Entry("local3", 19 * 8), Entry("local4", 20 * 8), Entry("local5", 21 * 8), Entry("local6", 22 * 8),
    Entry("local7", 23 * 8), Entry("invld", FAC_INVLD * 8)]

  function Lower(c: char): char {
    if 'A' <= c <= 'Z' then c - 'A' + 'a' else c
  }

  function LowerText(s: string): (r: string)
    ensures |r| == |s|
    ensures forall i :: 0 <= i < |s| ==> r[i] == Lower(s[i])
  {
    seq(|s|, i requires 0 <= i < |s| => Lower(s[i]))
  }

  /** Code of the first table entry with that name, or -1. */
  function Lookup(table: seq<Entry>, name: string): (code: int)
    ensures code == -1 || exists i :: 0 <= i < |table| && table[i].name == name && table[i].code == code
    ensures code == -1 ==> forall i :: 0 <= i < |table| ==> table[i].name != name
  {
    if table == [] then -1
    else if table[0].name == name then table[0].code
    else Lookup(table[1..], name)
  }

  lemma {:induction false} LookupAt(table: seq<Entry>, name: string, i: nat)
    requires i < |table| && table[i].name == name && forall j :: 0 <= j < i ==> table[j].name != name
    ensures Lookup(table, name) == table[i].code
  {
    if i > 0 { LookupAt(table[1..], name, i - 1); }
  }

  /** decodeSyslogName: a leading digit means a number, else the first 79 characters are
      looked up without regard to case. */
  function Decode(name: string, table: seq<Entry>): (code: int)
    ensures code >= -1
  {
    if name != [] && IsDigit(name[0]) then Value(name, DigitRun(name))
    else Lookup(table, LowerText(if |name| > 79 then name[..79] else name))
  }

  /** The text of a severity or facility in a message. */
  function SeverityText(s: nat): string {
    match s
    case 0 => "emerg" case 1 => "alert" case 2 => "crit" case 3 => "err"
    case 4 => "warning" case 5 => "notice" case 6 => "info" case 7 => "debug"
    case _ => "invld"
  }

  function FacilityText(f: nat): string {
    match f
    case 0 => "kern" case 1 => "user" case 2 => "mail" case 3 => "daemon" case 4 => "auth"
    case 5 => "syslog" case 6 => "lpr" case 7 => "news" case 8 => "uucp" case 9 => "cron"
    case 10 => "authpriv" case 11 => "ftp" case 12 => "ntp" case 13 => "audit" case 14 => "alert"
    case 15 => "clock" case 16 => "local0" case 17 => "local1" case 18 => "local2" case 19 => "local3"
    case 20 => "local4" case 21 => "local5" case 22 => "local6" case 23 => "local7"
    case _ => "invld"
  }

  /** The numeric text of a severity or facility: the invalid facility has none. */
  function SeverityNumber(s: nat): string {
    if s > 7 then "invld" else Decimal(s)
  }

  function FacilityNumber(f: nat): string {
    if f > 23 then "invld" else Decimal(f)
  }

  /** Different facilities of a message have different texts. */
  lemma FacilityTextInjective(f: nat, g: nat)
    requires f <= 24 && g <= 24 && FacilityText(f) == FacilityText(g)
    ensures f == g
  {
    var a, b := FacilityText(f), FacilityText(g);
    assert |a| == |b|;
    assert a[0] == b[0];
    assert |a| > 1 ==> a[1] == b[1];
    assert a[|a| - 1] == b[|b| - 1];
  }

  lemma SeverityTextInjective(s: nat, t: nat)
    requires s <= 7 && t <= 7 && SeverityText(s) == SeverityText(t)
    ensures s == t
  {
    var a, b := SeverityText(s), SeverityText(t);
    assert |a| == |b| && a[0] == b[0];
  }

  /** "mark" is the only facility name with a code no message has. */
  lemma MarkName(i: nat)
    requires i < |FAC_NAMES| && FAC_NAMES[i].code / 8 == FAC_MARK
    ensures FAC_NAMES[i].name == "mark"
  {
  }

  lemma NoSeverityName(i: nat)
    requires i < |PRI_NAMES| && PRI_NAMES[i].code >= 8
    ensures PRI_NAMES[i].name == "none" || PRI_NAMES[i].name == "*"
  {
  }

  lemma TextsAreNames(f: nat)
    ensures var t := FacilityText(f);
      2 < |t| < 79 && !IsDigit(t[0]) && LowerText(t) != "mark"
    ensures var t := SeverityText(f);
      2 < |t| < 79 && !IsDigit(t[0]) && LowerText(t) != "none" && LowerText(t) != "*"
  {
    var t, u := FacilityText(f), SeverityText(f);
    assert LowerText(t)[0] == Lower(t[0]) && LowerText(t)[|t| - 1] == Lower(t[|t| - 1]);
    assert LowerText(u)[0] == Lower(u[0]) && LowerText(u)[|u| - 1] == Lower(u[|u| - 1]);
  }

  /** No message reports the text of the mark facility. */
  lemma MarkIsNoFacility(name: string, f: nat)
    requires Decode(name, FAC_NAMES) >= 0 && Decode(name, FAC_NAMES) / 8 == FAC_MARK
    ensures FacilityText(f) != name
  {
    TextsAreNames(f);
    if FacilityText(f) == name {
      var low := LowerText(name);
      var i :| 0 <= i < |FAC_NAMES| && FAC_NAMES[i].name == low && FAC_NAMES[i].code == Decode(name, FAC_NAMES);
      MarkName(i);
    }
  }

  /** No message reports the text of a priority that is not a severity. */
  lemma NoSuchSeverity(name: string, s: nat)
    requires Decode(name, PRI_NAMES) >= 8
    ensures SeverityText(s) != name
  {
    TextsAreNames(s);
    if SeverityText(s) == name {
      var low := LowerText(name);
      var i :| 0 <= i < |PRI_NAMES| && PRI_NAMES[i].name == low && PRI_NAMES[i].code == Decode(name, PRI_NAMES);
      NoSeverityName(i);
    }
  }
}

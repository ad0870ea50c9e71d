/** What printed selector lists mean: the left to right fold of updates of a set of
    (facility, severity) pairs. */
module SelectorLists {
  import opened PriMask
  import opened SyslogNames
  import opened Texts
  import opened PriSelector
  import E = Expr
  import O = ExprOptimizer
  import Numbers

  datatype Selector = Selector(facilities: seq<string>, negate: bool, single: bool, priority: string)

  predicate FacilityName(n: string) {
    && 0 < |n| <= ROOM && Free(n, "\t ,;.")
    && (n[0] == '*' || 0 <= Decode(n, FAC_NAMES) < 8 * ENTRIES)
  }

  predicate AllNames(names: seq<string>) {
    names == [] || (FacilityName(names[0]) && AllNames(names[1..]))
  }

  function LevelIn(s: Selector): Level { Level(Decode(s.priority, PRI_NAMES), s.single, s.negate) }

  predicate WellFormed(s: Selector) {
    && s.facilities != [] && AllNames(s.facilities)
    && 0 < |s.priority| <= ROOM - 2 && Free(s.priority, "\t ,;") && s.priority[0] !in "!="
    && Defined(LevelIn(s))
  }

  predicate AllWellFormed(l: seq<Selector>) { l == [] || (WellFormed(l[0]) && AllWellFormed(l[1..])) }

  // ----- printing -----

  function Joined(names: seq<string>): string
    requires names != []
  {
    if |names| == 1 then names[0] else names[0] + "," + Joined(names[1..])
  }

  function LevelText(s: Selector): string {
    (if s.negate then "!" else "") + (if s.single then "=" else "") + s.priority
  }

  function SelectorText(s: Selector): string
    requires s.facilities != []
  {
    Joined(s.facilities) + "." + LevelText(s)
  }

  function ListText(l: seq<Selector>): string
    requires l != [] && AllWellFormed(l)
  {
    if |l| == 1 then SelectorText(l[0]) else SelectorText(l[0]) + ";" + ListText(l[1..])
  }

  // ----- the fold -----

  predicate Names(n: string, f: nat) { n != [] && (n[0] == '*' || Decode(n, FAC_NAMES) / 8 == f) }

  predicate Targets(names: seq<string>, f: nat) {
    names != [] && (Names(names[0], f) || Targets(names[1..], f))
  }

  /** Whether the pair (f, s) is in the set after a list of selectors. */
  predicate After(l: seq<Selector>, f: nat, s: nat, before: bool)
    requires AllWellFormed(l)
  {
    if l == [] then before
    else After(l[1..], f, s, if Targets(l[0].facilities, f) then Update(LevelIn(l[0]), s, before) else before)
  }

  function ApplyName(m: Mask, n: string, l: Level): Mask
    requires l.pri >= 0 && FacilityName(n)
  {
    if n[0] == '*' then ApplyAll(m, l) else ApplyOne(m, Decode(n, FAC_NAMES) / 8, l)
  }

  function ApplyNames(m: Mask, names: seq<string>, l: Level): Mask
    requires l.pri >= 0 && AllNames(names)
    decreases |names|
  {
    if names == [] then m else ApplyNames(ApplyName(m, names[0], l), names[1..], l)
  }

  lemma NameUpdates(m: Mask, n: string, l: Level, f: nat, s: nat)
    requires Defined(l) && FacilityName(n) && f < ENTRIES && s < 8
    ensures HasBit(ApplyName(m, n, l)[f], s) == if Names(n, f) then Update(l, s, HasBit(m[f], s)) else HasBit(m[f], s)
  {
    hide HasBit, ApplyByte, Decode;
    ApplyByteUpdates(m[f], l, s);
  }

  lemma {:induction false} NamesUpdate(m: Mask, names: seq<string>, l: Level, f: nat, s: nat)
    requires Defined(l) && f < ENTRIES && s < 8 && AllNames(names)
    ensures HasBit(ApplyNames(m, names, l)[f], s)
      == if Targets(names, f) then Update(l, s, HasBit(m[f], s)) else HasBit(m[f], s)
    decreases |names|
  {
    hide HasBit, ApplyName, FacilityName, Names;
    if names != [] {
      var m' := ApplyName(m, names[0], l);
      NameUpdates(m, names[0], l, f, s);
      NamesUpdate(m', names[1..], l, f, s);
    }
  }

  // ----- scanning printed text -----

  lemma {:induction false} NameEndIs(text: string, q: nat, s: string, stops: string, room: nat)
    requires Holds(text, q, s) && Free(s, stops) && |s| <= room
    requires q + |s| == |text| || text[q + |s|] in stops
    ensures NameEnd(text, q, stops, room) == q + |s|
    decreases |s|
  {
    if s != [] {
      HoldsChar(text, q, s, 0);
      assert [s[0]] + s[1..] == s;
      HoldsParts(text, q, [s[0]], s[1..]);
      NameEndIs(text, q + 1, s[1..], stops, room - 1);
    }
  }

  lemma {:induction false} ListEndIs(text: string, q: nat, s: string)
    requires Holds(text, q, s + ".") && Free(s, "\t.")
    ensures ListEnd(text, q) == q + |s| + 1
    decreases |s|
  {
    HoldsChar(text, q, s + ".", 0);
    if s != [] {
      assert [s[0]] + (s[1..] + ".") == s + ".";
      HoldsParts(text, q, [s[0]], s[1..] + ".");
      ListEndIs(text, q + 1, s[1..]);
    }
  }

  lemma LevelRead(s: Selector)
    requires WellFormed(s)
    ensures LevelOf(LevelText(s)) == LevelIn(s)
  {
    hide Decode;
    var t := LevelText(s);
    var single := if s.single then "=" else "";
    if s.negate {
      assert t == "!" + (single + s.priority);
      assert t[1..] == single + s.priority;
    } else {
      assert t == single + s.priority;
    }
    if s.single {
      assert (single + s.priority)[1..] == s.priority;
    } else {
      assert single + s.priority == s.priority;
    }
  }

  lemma LevelFree(s: Selector)
    requires WellFormed(s)
    ensures Free(LevelText(s), "\t ,;") && |LevelText(s)| <= ROOM
  {
    hide FacilityName, Decode;
  }

  lemma OneFacility(text: string, p: nat, n: string, l: Level, m: Mask)
    requires FacilityName(n) && l.pri >= 0 && Holds(text, p, n) && p + |n| < |text| && text[p + |n|] in ",."
    ensures Facilities(text, p, l, m) == Facilities(text, Skip(text, p + |n|, ", "), l, ApplyName(m, n, l))
  {
    hide Decode, ApplyAll, ApplyOne, Skip;
    HoldsChar(text, p, n, 0);
    NameEndIs(text, p, n, "\t ,;.", ROOM);
  }

  lemma FirstOfJoined(text: string, p: nat, names: seq<string>, behind: string)
    requires names != [] && FacilityName(names[0]) && Holds(text, p, Joined(names) + behind)
    ensures p < |text| && text[p] !in "\t ,;."
  {
    assert Joined(names)[0] == names[0][0];
    HoldsChar(text, p, Joined(names) + behind, 0);
  }

  lemma SkipBefore(text: string, p: nat)
    requires p < |text|
    ensures text[p] !in ", " ==> Skip(text, p, ", ") == p
    ensures text[p] in ", " && p + 1 < |text| && text[p + 1] !in ", " ==> Skip(text, p, ", ") == p + 1
  {
  }

  lemma FacilitiesEnd(text: string, p: nat, l: Level, m: Mask)
    requires p < |text| && text[p] == '.' && l.pri >= 0
    ensures Facilities(text, p, l, m) == Result(Ok, m)
  {
  }

  lemma JoinedStep(names: seq<string>)
    requires names != []
    ensures Joined(names) == if |names| == 1 then names[0] else names[0] + "," + Joined(names[1..])
  {
  }

  lemma Regrouped(a: string, b: string)
    ensures a + "," + b + "." == a + ("," + (b + "."))
  {
  }

  lemma JoinedSplit(names: seq<string>)
    requires names != []
    ensures Joined(names) + "." == names[0] + if |names| == 1 then "." else "," + (Joined(names[1..]) + ".")
  {
    hide Joined;
    JoinedStep(names);
    if |names| > 1 { Regrouped(names[0], Joined(names[1..])); }
  }

  lemma {:induction false} FacilitiesRead(text: string, p: nat, names: seq<string>, l: Level, m: Mask)
    requires names != [] && AllNames(names) && l.pri >= 0
    requires Holds(text, p, Joined(names) + ".")
    ensures Facilities(text, p, l, m) == Result(Ok, ApplyNames(m, names, l))
    decreases |names|
  {
    hide FacilityName, Holds, Facilities, ApplyName, Skip, Joined;
    var n := names[0];
    var behind := if |names| == 1 then "." else "," + (Joined(names[1..]) + ".");
    JoinedSplit(names);
    HoldsParts(text, p, n, behind);
    OneFacility(text, p, n, l, m);
    var e := p + |n|;
    HoldsChar(text, e, behind, 0);
    if |names| == 1 {
      assert names[1..] == [];
      SkipBefore(text, e);
      FacilitiesEnd(text, e, l, ApplyName(m, n, l));
    } else {
      HoldsParts(text, e, ",", Joined(names[1..]) + ".");
      FirstOfJoined(text, e + 1, names[1..], ".");
      SkipBefore(text, e);
      FacilitiesRead(text, e + 1, names[1..], l, ApplyName(m, n, l));
    }
  }

  lemma {:induction false} JoinedFree(names: seq<string>)
    requires names != [] && AllNames(names)
    ensures Free(Joined(names), "\t.")
    decreases |names|
  {
    if |names| > 1 { JoinedFree(names[1..]); }
  }

  function ApplySelector(m: Mask, s: Selector): Mask
    requires WellFormed(s)
  {
    ApplyNames(m, s.facilities, LevelIn(s))
  }

  function ApplyList(m: Mask, l: seq<Selector>): Mask
    requires AllWellFormed(l)
    decreases |l|
  {
    if l == [] then m else ApplyList(ApplySelector(m, l[0]), l[1..])
  }

  /** One selector, with the end of the line or a semicolon and another one behind it. */
  lemma SelectorRead(text: string, p: nat, s: Selector, m: Mask)
    requires WellFormed(s) && Holds(text, p, SelectorText(s))
    requires var end := p + |SelectorText(s)|;
      end == |text| || (end + 1 < |text| && text[end] == ';' && text[end + 1] !in ",;")
    ensures p < |text| && text[p] !in "\t "
    ensures var end := p + |SelectorText(s)|;
      Selectors(text, p, m) == Selectors(text, if end == |text| then end else end + 1, ApplySelector(m, s))
  {
    hide Decode, Facilities, ApplyNames, FacilityName, LevelOf, Holds, Joined, ListEnd, NameEnd, Free;
    LevelFree(s);
    var names, level := Joined(s.facilities), LevelText(s);
    var start, end := p + |names| + 1, p + |SelectorText(s)|;
    assert SelectorText(s) == names + ("." + level);
    FirstOfJoined(text, p, s.facilities, "." + level);
    HoldsParts(text, p, names + ".", level);
    JoinedFree(s.facilities);
    ListEndIs(text, p, names);
    NameEndIs(text, start, level, "\t ,;", ROOM);
    HoldsSlice(text, start, level);
    LevelRead(s);
    FacilitiesRead(text, p, s.facilities, LevelIn(s), m);
    if end < |text| { assert Skip(text, end + 1, ",;") == end + 1; }
  }

  lemma NoMore(text: string, m: Mask)
    ensures Selectors(text, |text|, m) == Result(Ok, m)
  {
  }

  lemma FirstWellFormed(l: seq<Selector>)
    requires l != [] && AllWellFormed(l)
    ensures l[0].facilities != [] && FacilityName(l[0].facilities[0]) && (|l| > 1 ==> AllWellFormed(l[1..]))
  {
    hide FacilityName, Free, LevelIn, Defined;
  }

  lemma ListStep(l: seq<Selector>)
    requires l != [] && AllWellFormed(l) && l[0].facilities != [] && (|l| > 1 ==> AllWellFormed(l[1..]))
    ensures ListText(l) == if |l| == 1 then SelectorText(l[0]) else SelectorText(l[0]) + ";" + ListText(l[1..])
  {
    hide SelectorText, AllWellFormed;
  }

  lemma Grouped(a: string, b: string, c: string)
    ensures a + b + c == a + (b + c)
  {
  }

  lemma FirstOfList(text: string, p: nat, l: seq<Selector>)
    requires l != [] && AllWellFormed(l) && Holds(text, p, ListText(l))
    ensures p < |text| && text[p] !in "\t ,;."
  {
    hide Holds, FacilityName, LevelText, Joined, ListText, AllWellFormed;
    FirstWellFormed(l);
    ListStep(l);
    var names := Joined(l[0].facilities);
    var level := "." + LevelText(l[0]);
    Grouped(names, ".", LevelText(l[0]));
    if |l| == 1 {
      FirstOfJoined(text, p, l[0].facilities, level);
    } else {
      var rest := ListText(l[1..]);
      Grouped(names + level, ";", rest);
      Grouped(names, level, ";" + rest);
      FirstOfJoined(text, p, l[0].facilities, level + (";" + rest));
    }
  }

  lemma {:induction false} ListRead(text: string, p: nat, l: seq<Selector>, m: Mask)
    requires l != [] && AllWellFormed(l) && Holds(text, p, ListText(l)) && p + |ListText(l)| == |text|
    ensures Selectors(text, p, m) == Result(Ok, ApplyList(m, l))
    decreases |l|
  {
    hide Holds, SelectorText, ApplySelector, Selectors, FacilityName, LevelIn, Defined, Free;
    if |l| == 1 {
      SelectorRead(text, p, l[0], m);
      assert l[1..] == [];
      NoMore(text, ApplySelector(m, l[0]));
    } else {
      var t, rest := SelectorText(l[0]), ListText(l[1..]);
      assert ListText(l) == t + (";" + rest);
      HoldsParts(text, p, t, ";" + rest);
      HoldsParts(text, p + |t|, ";", rest);
      HoldsChar(text, p + |t|, ";", 0);
      FirstOfList(text, p + |t| + 1, l[1..]);
      SelectorRead(text, p, l[0], m);
      ListRead(text, p + |t| + 1, l[1..], ApplySelector(m, l[0]));
    }
  }

  lemma {:induction false} ListUpdates(m: Mask, l: seq<Selector>, f: nat, s: nat)
    requires AllWellFormed(l) && f < ENTRIES && s < 8
    ensures HasBit(ApplyList(m, l)[f], s) == After(l, f, s, HasBit(m[f], s))
    decreases |l|
  {
    hide HasBit, ApplyNames, Targets, Update, FacilityName, Decode;
    if l != [] {
      NamesUpdate(m, l[0].facilities, LevelIn(l[0]), f, s);
      ListUpdates(ApplySelector(m, l[0]), l[1..], f, s);
    }
  }

  /** A printed list of selectors decodes to the left to right fold of its updates. */
  lemma ListMeaning(l: seq<Selector>, f: nat, s: nat)
    requires l != [] && AllWellFormed(l) && f < ENTRIES && s < 8
    ensures var r := Meaning(ListText(l));
      r.outcome == Ok && Matches(r.mask, f, s) == After(l, f, s, false)
  {
    hide Selectors, ListText, HasBit, Matches, After, AllWellFormed, ApplyList;
    var text := ListText(l);
    assert text[0..0 + |text|] == text;
    ListRead(text, 0, l, Nothing());
    ListUpdates(Nothing(), l, f, s);
    FullBytes(s);
    MatchesIsBit(Meaning(text).mask, f, s);
  }

  predicate Separators(seps: string) { seps != [] && forall i :: 0 <= i < |seps| ==> seps[i] in ",;" }

  lemma {:induction false} SkipsAll(text: string, q: nat, seps: string)
    requires Holds(text, q, seps) && q + |seps| == |text| && forall i :: 0 <= i < |seps| ==> seps[i] in ",;"
    ensures Skip(text, q, ",;") == |text|
    decreases |seps|
  {
    if seps != [] {
      HoldsChar(text, q, seps, 0);
      assert [seps[0]] + seps[1..] == seps;
      HoldsParts(text, q, [seps[0]], seps[1..]);
      SkipsAll(text, q + 1, seps[1..]);
    }
  }

  /** Where the scans stop in a selector with separators behind it. */
  lemma TrailingScans(text: string, p: nat, s: Selector, seps: string)
    requires WellFormed(s) && Separators(seps) && Holds(text, p, SelectorText(s) + seps)
    requires p + |SelectorText(s)| + |seps| == |text|
    ensures var end := p + |SelectorText(s)|;
      && p < |text| && text[p] !in "\t " && end < |text|
      && NameEnd(text, ListEnd(text, p), "\t ,;", ROOM) == end && Skip(text, end, ",;") == |text|
  {
    hide Decode, FacilityName, LevelIn, Defined, Holds, Joined, ListEnd, NameEnd, Skip, Free, LevelText;
    var names, level := Joined(s.facilities), LevelText(s);
    var start, end := p + |names| + 1, p + |SelectorText(s)|;
    HoldsParts(text, p, SelectorText(s), seps);
    HoldsParts(text, p, names + ".", level);
    FirstOfJoined(text, p, s.facilities, ".");
    HoldsChar(text, end, seps, 0);
    JoinedFree(s.facilities);
    ListEndIs(text, p, names);
    LevelFree(s);
    NameEndIs(text, start, level, "\t ,;", ROOM);
    SkipsAll(text, end, seps);
  }

  lemma LastTrailing(text: string, p: nat, s: Selector, seps: string, m: Mask)
    requires WellFormed(s) && Separators(seps) && Holds(text, p, SelectorText(s) + seps)
    requires p + |SelectorText(s)| + |seps| == |text|
    ensures Selectors(text, p, m).outcome == Undefined
  {
    hide Facilities, LevelOf, Holds, SelectorText, ListEnd, NameEnd, Skip, WellFormed, Defined;
    TrailingScans(text, p, s, seps);
  }

  lemma {:induction false} ListTrailing(text: string, p: nat, l: seq<Selector>, seps: string, m: Mask)
    requires l != [] && AllWellFormed(l) && Separators(seps) && Holds(text, p, ListText(l) + seps)
    requires p + |ListText(l)| + |seps| == |text|
    ensures Selectors(text, p, m).outcome == Undefined
    decreases |l|
  {
    hide Holds, SelectorText, ApplySelector, Selectors, FacilityName, LevelIn, Defined, Free, Separators;
    if |l| == 1 {
      LastTrailing(text, p, l[0], seps, m);
    } else {
      var t, rest := SelectorText(l[0]), ListText(l[1..]);
      assert ListText(l) + seps == t + (";" + (rest + seps));
      HoldsParts(text, p, t, ";" + (rest + seps));
      HoldsParts(text, p + |t|, ";", rest + seps);
      HoldsChar(text, p + |t|, ";", 0);
      HoldsParts(text, p + |t| + 1, rest, seps);
      FirstOfList(text, p + |t| + 1, l[1..]);
      SelectorRead(text, p, l[0], m);
      ListTrailing(text, p + |t| + 1, l[1..], seps, ApplySelector(m, l[0]));
    }
  }

  /** Separators behind the last selector, any number of them, make the decoder run behind the
      end of the line. */
  lemma TrailingSeparator(l: seq<Selector>, seps: string)
    requires l != [] && AllWellFormed(l) && Separators(seps)
    ensures Meaning(ListText(l) + seps).outcome == Undefined
  {
    hide Selectors, ListText, AllWellFormed;
    HoldsWhole(ListText(l) + seps);
    ListTrailing(ListText(l) + seps, 0, l, seps, Nothing());
  }

  // ----- the common forms -----

  predicate OneSeverity(fac: string, pri: string) {
    FacilityName(fac) && fac[0] != '*' && WellFormed(Selector([fac], false, false, pri)) && Decode(pri, PRI_NAMES) <= 7
  }

  /** A facility is c and the severity compares with p. */
  function PriTest(c: nat, p: nat, mode: CmpOp): E.Expr {
    E.And(E.Cmp(EQ, E.Var(E.Facility), E.Number(c)), E.Cmp(mode, E.Var(E.Severity), E.Number(p)))
  }

  function FilterMask(c: nat, p: nat, mode: CmpOp): Mask {
    Combined(FacilityMask(c, EQ), SeverityMask(p, mode), true)
  }

  lemma FilterMaskMatches(c: nat, p: nat, mode: CmpOp, f: nat, s: nat)
    requires c < ENTRIES && p <= 7 && f < ENTRIES && s < 8
    ensures Matches(FilterMask(c, p, mode), f, s) <==> f == c && Compare(mode, s, p)
  {
    hide Matches, FacilityMask, SeverityMask, Combined;
    FacilityMaskCompares(c, EQ, f, s);
    SeverityMaskCompares(p, mode, f, s);
    CombinedMatches(FacilityMask(c, EQ), SeverityMask(p, mode), true, f, s);
  }

  /** A comparison with a small number literal is optimized to a mask. */
  lemma CodeIsOptimized(v: E.Variable, n: nat, mode: CmpOp, lib: E.Library)
    requires (v == E.Facility && n <= 24) || (v == E.Severity && n <= 7)
    ensures O.Optimize(E.Cmp(mode, E.Var(v), E.Number(n)), lib)
      == E.Prifilt(if v == E.Facility then FacilityMask(n, mode) else SeverityMask(n, mode))
  {
    hide FacilityMask, SeverityMask, O.FoldEquality, O.FoldVar, Numbers.Trunc32;
    O.EqualityShapes(mode, E.Var(v), E.Number(n), lib);
    O.VarShapes(mode, E.Var(v), E.Number(n));
    O.TruncSmall(n);
  }

  /** The optimizer turns the test into one filter. */
  lemma TestIsOptimized(c: nat, p: nat, mode: CmpOp, lib: E.Library)
    requires c <= 24 && p <= 7
    ensures O.Optimize(PriTest(c, p, mode), lib) == E.Prifilt(FilterMask(c, p, mode))
  {
    hide FacilityMask, SeverityMask, Combined, O.FoldEquality, O.FoldCode;
    CodeIsOptimized(E.Facility, c, EQ, lib);
    CodeIsOptimized(E.Severity, p, mode, lib);
  }

  /** A selector line is decoded to the very mask that the optimizer makes of the script test
      for its facility and priority. "mark", which no message has, is no facility of a test. */
  ghost predicate SameAsTest(line: string, fac: string, pri: string, mode: CmpOp)
    requires OneSeverity(fac, pri)
  {
    var r, c, p := Meaning(line), Decode(fac, FAC_NAMES) / 8, Decode(pri, PRI_NAMES);
    && r.outcome == Ok
    && (forall f: nat, s: nat :: f < ENTRIES && s < 8 ==> (Matches(r.mask, f, s) <==> f == c && Compare(mode, s, p)))
    && (c <= 24 ==> forall lib :: O.Optimize(PriTest(c, p, mode), lib) == E.Prifilt(r.mask))
  }

  lemma SameMask(line: string, fac: string, pri: string, mode: CmpOp)
    requires OneSeverity(fac, pri)
    requires Meaning(line) == Result(Ok, FilterMask(Decode(fac, FAC_NAMES) / 8, Decode(pri, PRI_NAMES), mode))
    ensures SameAsTest(line, fac, pri, mode)
  {
    CodesFit(fac, pri);
    hide Matches, FilterMask, Decode, FacilityName, Meaning, O.Optimize;
    var c, p := Decode(fac, FAC_NAMES) / 8, Decode(pri, PRI_NAMES);
    forall f: nat, s: nat | f < ENTRIES && s < 8
      ensures Matches(FilterMask(c, p, mode), f, s) <==> f == c && Compare(mode, s, p)
    {
      FilterMaskMatches(c, p, mode, f, s);
    }
    if c <= 24 {
      forall lib ensures O.Optimize(PriTest(c, p, mode), lib) == E.Prifilt(FilterMask(c, p, mode)) {
        TestIsOptimized(c, p, mode, lib);
      }
    }
  }

  lemma CodesFit(fac: string, pri: string)
    requires OneSeverity(fac, pri)
    ensures 0 <= Decode(fac, FAC_NAMES) && Decode(fac, FAC_NAMES) / 8 < ENTRIES && 0 <= Decode(pri, PRI_NAMES) <= 7
  {
    hide Decode;
  }

  lemma OneName(n: string, f: nat)
    requires FacilityName(n)
    ensures Targets([n], f) <==> Names(n, f)
    ensures AllNames([n]) && Joined([n]) == n
  {
    assert [n][1..] == [];
  }

  lemma OneAfter(x: Selector, f: nat, s: nat, before: bool)
    requires WellFormed(x)
    ensures AllWellFormed([x]) && After([x], f, s, before)
      == if Targets(x.facilities, f) then Update(LevelIn(x), s, before) else before
  {
    assert [x][1..] == [];
  }

  /** A mask is what a list means if it matches what the fold holds. */
  lemma MeaningIs(l: seq<Selector>, m: Mask)
    requires l != [] && AllWellFormed(l)
    requires forall f: nat, s: nat :: f < ENTRIES && s < 8 ==> Matches(m, f, s) == After(l, f, s, false)
    ensures Meaning(ListText(l)) == Result(Ok, m)
  {
    hide Matches, After, AllWellFormed, Meaning;
    var r := Meaning(ListText(l));
    ListMeaning(l, 0, 0);
    forall f: nat, s: nat | f < ENTRIES && s < 8 ensures Matches(r.mask, f, s) == Matches(m, f, s) {
      ListMeaning(l, f, s);
    }
    MasksEqual(r.mask, m);
  }

  /** The updates of "f.p", "f.=p" and "f.*;f.!p". */
  lemma FormUpdates(fac: string, pri: string, f: nat, s: nat)
    requires OneSeverity(fac, pri) && f < ENTRIES && s < 8
    ensures WellFormed(Selector([fac], false, true, pri)) && WellFormed(Selector([fac], true, false, pri))
    ensures var c, p := Decode(fac, FAC_NAMES) / 8, Decode(pri, PRI_NAMES);
      && After([Selector([fac], false, false, pri)], f, s, false) == (f == c && s <= p)
      && After([Selector([fac], false, true, pri)], f, s, false) == (f == c && s == p)
  {
    assert fac != [];
    hide Decode, FacilityName;
    OneName(fac, f);
    OneAfter(Selector([fac], false, false, pri), f, s, false);
    OneAfter(Selector([fac], false, true, pri), f, s, false);
  }

  lemma StarCode()
    ensures Decode("*", PRI_NAMES) == TABLE_ALLPRI
  {
    assert LowerText("*") == "*";
    hide Lookup, LowerText;
    assert forall j :: 0 <= j < 12 ==> |PRI_NAMES[j].name| > 1;
    LookupAt(PRI_NAMES, "*", 12);
  }

  lemma AllLevel(fac: string)
    requires FacilityName(fac)
    ensures WellFormed(Selector([fac], false, false, "*"))
  {
    hide FacilityName, Decode;
    StarCode();
    OneName(fac, 0);
  }

  lemma RestUpdates(fac: string, pri: string, f: nat, s: nat)
    requires OneSeverity(fac, pri) && f < ENTRIES && s < 8
    ensures var all, rest := Selector([fac], false, false, "*"), Selector([fac], true, false, pri);
      AllWellFormed([all, rest]) && After([all, rest], f, s, false)
      == (f == Decode(fac, FAC_NAMES) / 8 && s > Decode(pri, PRI_NAMES))
  {
    assert fac != [];
    AllLevel(fac);
    StarCode();
    hide Decode, FacilityName, Targets;
    var all, rest := Selector([fac], false, false, "*"), Selector([fac], true, false, pri);
    assert [all, rest][1..] == [rest];
    OneName(fac, f);
    OneAfter(rest, f, s, if Names(fac, f) then true else false);
  }

  function Form(fac: string, mark: string, pri: string): string { fac + "." + mark + pri }

  lemma TwoText(fac: string, pri: string)
    requires OneSeverity(fac, pri)
    ensures var l := [Selector([fac], false, false, "*"), Selector([fac], true, false, pri)];
      AllWellFormed(l) && ListText(l) == Form(fac, "", "*") + ";" + Form(fac, "!", pri)
  {
    hide Decode, FacilityName, Free, Defined, After;
    var all, rest := Selector([fac], false, false, "*"), Selector([fac], true, false, pri);
    RestUpdates(fac, pri, 0, 0);
    FormUpdates(fac, pri, 0, 0);
    AllLevel(fac);
    OneName(fac, 0);
    assert [all, rest][1..] == [rest];
    assert SelectorText(all) == Form(fac, "", "*");
    assert SelectorText(rest) == Form(fac, "!", pri);
  }

  /** "f.p" is the script test for facility f and a severity of at most p. */
  lemma PlainForm(fac: string, pri: string)
    requires OneSeverity(fac, pri)
    ensures SameAsTest(Form(fac, "", pri), fac, pri, LE)
  {
    CodesFit(fac, pri);
    hide Meaning, Matches, FilterMask, Decode, FacilityName, After, SameAsTest;
    var x := Selector([fac], false, false, pri);
    var mask := FilterMask(Decode(fac, FAC_NAMES) / 8, Decode(pri, PRI_NAMES), LE);
    OneName(fac, 0);
    OneAfter(x, 0, 0, false);
    assert ListText([x]) == Form(fac, "", pri);
    forall f: nat, s: nat | f < ENTRIES && s < 8 ensures Matches(mask, f, s) == After([x], f, s, false) {
      FormUpdates(fac, pri, f, s);
      FilterMaskMatches(Decode(fac, FAC_NAMES) / 8, Decode(pri, PRI_NAMES), LE, f, s);
    }
    MeaningIs([x], mask);
    SameMask(Form(fac, "", pri), fac, pri, LE);
  }

  /** "f.=p" is the test for facility f and severity p. */
  lemma SingleForm(fac: string, pri: string)
    requires OneSeverity(fac, pri)
    ensures SameAsTest(Form(fac, "=", pri), fac, pri, EQ)
  {
    CodesFit(fac, pri);
    hide Meaning, Matches, FilterMask, Decode, FacilityName, After, SameAsTest;
    var x := Selector([fac], false, true, pri);
    var mask := FilterMask(Decode(fac, FAC_NAMES) / 8, Decode(pri, PRI_NAMES), EQ);
    OneName(fac, 0);
    FormUpdates(fac, pri, 0, 0);
    OneAfter(x, 0, 0, false);
    assert ListText([x]) == Form(fac, "=", pri);
    forall f: nat, s: nat | f < ENTRIES && s < 8 ensures Matches(mask, f, s) == After([x], f, s, false) {
      FormUpdates(fac, pri, f, s);
      FilterMaskMatches(Decode(fac, FAC_NAMES) / 8, Decode(pri, PRI_NAMES), EQ, f, s);
    }
    MeaningIs([x], mask);
    SameMask(Form(fac, "=", pri), fac, pri, EQ);
  }

  /** "f.*;f.!p" is the test for facility f and a severity of more than p. */
  lemma RestForm(fac: string, pri: string)
    requires OneSeverity(fac, pri)
    ensures SameAsTest(Form(fac, "", "*") + ";" + Form(fac, "!", pri), fac, pri, GT)
  {
    CodesFit(fac, pri);
    hide Meaning, Matches, FilterMask, Decode, FacilityName, After, AllWellFormed, SameAsTest, ListText, Form, Compare;
    var all, rest := Selector([fac], false, false, "*"), Selector([fac], true, false, pri);
    var mask := FilterMask(Decode(fac, FAC_NAMES) / 8, Decode(pri, PRI_NAMES), GT);
    RestUpdates(fac, pri, 0, 0);
    FormUpdates(fac, pri, 0, 0);
    TwoText(fac, pri);
    forall f: nat, s: nat | f < ENTRIES && s < 8 ensures Matches(mask, f, s) == After([all, rest], f, s, false) {
      RestUpdates(fac, pri, f, s);
      FilterMaskMatches(Decode(fac, FAC_NAMES) / 8, Decode(pri, PRI_NAMES), GT, f, s);
    }
    MeaningIs([all, rest], mask);
    SameMask(Form(fac, "", "*") + ";" + Form(fac, "!", pri), fac, pri, GT);
  }
}

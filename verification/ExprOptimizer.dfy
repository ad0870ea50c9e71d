/** The expression optimizer (cnfexprOptimize) and the proof that it keeps the value
    of expressions. The code rewrites nodes in place; here a tree goes to a tree. */
module ExprOptimizer {
  import opened Numbers
  import opened PriMask
  import opened StringArrays
  import opened Expr
  import SyslogNames

  predicate IsConst(e: Expr) { e.Number? || e.Text? }

  function ConstNumber(e: Expr, lib: Library): int
    requires IsConst(e)
  {
    if e.Number? then e.val else lib.strToNum(e.str)
  }

  function ConstText(e: Expr): string
    requires IsConst(e)
  {
    if e.Number? then Decimal(e.val) else e.str
  }

  /** getConstNumber and the arithmetic cases. */
  function FoldArith(op: ArithOp, l: Expr, r: Expr, lib: Library): Expr {
    if IsConst(l) && IsConst(r) then Number(Compute(op, ConstNumber(l, lib), ConstNumber(r, lib)))
    else Arith(op, l, r)
  }

  /** constFoldConcat. */
  function FoldConcat(l: Expr, r: Expr): Expr {
    if IsConst(l) && IsConst(r) then Text(ConstText(l) + ConstText(r)) else Concat(l, r)
  }

  /** cnfexprOptimize_CMP_severity_facility: the literal is cut to an int first. */
  function FoldCode(op: CmpOp, l: Expr, r: Expr): Expr {
    if l == Var(Severity) && r.Number? && 0 <= Trunc32(r.val) <= 7 then Prifilt(SeverityMask(Trunc32(r.val), op))
    else if l == Var(Facility) && r.Number? && 0 <= Trunc32(r.val) <= 24 then Prifilt(FacilityMask(Trunc32(r.val), op))
    else Cmp(op, l, r)
  }

  /** cnfexprOptimize_CMP_var: names are decoded, with the facility given times eight. */
  function FoldVar(op: CmpOp, l: Expr, r: Expr): Expr {
    if l == Var(FacilityText) then
      if r.Text? && FacilityCode(r.str) >= 0 && FacilityCode(r.str) / 8 < ENTRIES
      then Prifilt(FacilityMask(FacilityCode(r.str) / 8, op)) else Cmp(op, l, r)
    else if l == Var(SeverityText) then
      if r.Text? && SeverityCode(r.str) >= 0 then Prifilt(SeverityMask(SeverityCode(r.str), op)) else Cmp(op, l, r)
    else FoldCode(op, l, r)
  }

  function FacilityCode(name: string): int { SyslogNames.Decode(name, SyslogNames.FAC_NAMES) }
  function SeverityCode(name: string): int { SyslogNames.Decode(name, SyslogNames.PRI_NAMES) }

  /** The == and <> cases: an array goes to the right and is sorted. */
  function FoldEquality(op: CmpOp, l: Expr, r: Expr, lib: Library): Expr {
    var swap := l.TextArray? && !r.TextArray?;
    var l2 := if swap then r else l;
    var r2 := if swap then l else r;
    var r3 := if r2.TextArray? then TextArray(Sorted(lib.strcmp, r2.items)) else r2;
    if l2.Var? then FoldVar(op, l2, r3) else Cmp(op, l2, r3)
  }

  function FoldLogic(l: Expr, r: Expr, isAnd: bool): Expr {
    if l.Prifilt? && r.Prifilt? then Prifilt(Combined(l.mask, r.mask, isAnd))
    else if isAnd then And(l, r) else Or(l, r)
  }

  function Optimize(e: Expr, lib: Library): Expr {
    match e
    case Concat(l, r) => FoldConcat(Optimize(l, lib), Optimize(r, lib))
    case Arith(op, l, r) => FoldArith(op, Optimize(l, lib), Optimize(r, lib), lib)
    case Cmp(op, l, r) =>
      if op == EQ || op == NE then FoldEquality(op, Optimize(l, lib), Optimize(r, lib), lib)
      else FoldCode(op, Optimize(l, lib), Optimize(r, lib))
    case TextTest(op, l, r) => TextTest(op, Optimize(l, lib), Optimize(r, lib))
    case And(l, r) => FoldLogic(Optimize(l, lib), Optimize(r, lib), true)
    case Or(l, r) => FoldLogic(Optimize(l, lib), Optimize(r, lib), false)
    case Not(r) =>
      var r' := Optimize(r, lib);
      if r'.Prifilt? then Prifilt(Inverted(r'.mask)) else Not(r')
    case _ => e
  }

  // ----- where the optimizer keeps the value -----

  /** The optimized expression is a new node. Arithmetic and concatenation drop the result
      of optimizing their operands, so there the operand must have been changed in place. */
  predicate Replaced(e: Expr, lib: Library) { !e.Prifilt? && Optimize(e, lib).Prifilt? }

  /** The library's number conversion agrees with the evaluator's on a folded literal. */
  predicate SameNumber(e: Expr, lib: Library) { e.Text? ==> lib.strToNum(e.str) == Str2Num(e.str).num }

  /** A literal outside int range must not come to lie on a code when it is cut. */
  predicate LiteralInRange(v: int, max: int) { 0 <= Trunc32(v) <= max ==> Trunc32(v) == v }

  /** A name stands for the code whose own text it is, or for no code of a message. */
  predicate CanonicalFacility(name: string) {
    var c := FacilityCode(name);
    c >= 0 ==> c / 8 < ENTRIES && (c / 8 == SyslogNames.FAC_MARK || SyslogNames.FacilityText(c / 8) == name)
  }

  predicate CanonicalSeverity(name: string) {
    var c := SeverityCode(name);
    c >= 0 ==> c >= 8 || SyslogNames.SeverityText(c) == name
  }

  predicate IsNameTest(l: Expr, r: Expr) {
    r.Text? && ((l == Var(FacilityText) && FacilityCode(r.str) >= 0) || (l == Var(SeverityText) && SeverityCode(r.str) >= 0))
  }

  predicate CanonicalName(l: Expr, r: Expr) {
    IsNameTest(l, r) ==> if l == Var(FacilityText) then CanonicalFacility(r.str) else CanonicalSeverity(r.str)
  }

  /** An array is searched only for texts; for other values its first element counts. */
  ghost predicate ArrayTestSafe(op: CmpOp, l: Expr, items: seq<string>, lib: Library) {
    || First(Sorted(lib.strcmp, items)) == First(items)
    || forall m {:trigger Eval(l, m, lib, ByMembership)} :: ValidMessage(m) ==>
         var v := Eval(l, m, lib, ByMembership); v.Str? || (op == EQ && v.Json?)
  }

  /** The operand of a unary minus is not optimized, so its arrays stay as they were written; the
      search finds what is in them if they are in order. */
  ghost predicate ArraysOrdered(e: Expr, lib: Library) {
    match e
    case Cmp(op, l, r) =>
      && (r.TextArray? && (op == EQ || op == NE) ==> Ordered(lib.strcmp, r.items))
      && ArraysOrdered(l, lib) && ArraysOrdered(r, lib)
    case Concat(l, r) => ArraysOrdered(l, lib) && ArraysOrdered(r, lib)
    case Arith(_, l, r) => ArraysOrdered(l, lib) && ArraysOrdered(r, lib)
    case TextTest(_, l, r) => ArraysOrdered(l, lib) && ArraysOrdered(r, lib)
    case And(l, r) => ArraysOrdered(l, lib) && ArraysOrdered(r, lib)
    case Or(l, r) => ArraysOrdered(l, lib) && ArraysOrdered(r, lib)
    case Not(r) => ArraysOrdered(r, lib)
    case Negate(r) => ArraysOrdered(r, lib)
    case _ => true
  }

  predicate IsFacilityTest(l: Expr, r: Expr) { l == Var(Facility) && r.Number? }

  /** Comparing the facility of a message that has none, "invld", with a literal that becomes
      a mask. An equality test goes by whether the literal names the invalid facility; an order
      test goes by the texts where it is evaluated and by the codes where it is optimized. */
  predicate InvalidKept(op: CmpOp, v: int, lib: Library) {
    0 <= Trunc32(v) <= 24 ==>
      if op == EQ || op == NE then Trunc32(v) != 24
      else if lib.strcmp("invld", Decimal(v)) > 0 then op == LT || op == GE || Trunc32(v) != 24
      else (op == LE || op == GT) && Trunc32(v) == 24
  }

  /** A test of which only the truth is kept: <> yields the comparison result itself where it
      compares texts. */
  predicate TruthOnly(l: Expr, r: Expr, invld: bool) {
    IsNameTest(l, r) || (invld && IsFacilityTest(l, r) && 0 <= Trunc32(r.val) <= 24)
  }

  /** `invld`: messages of the invalid facility are considered as well. */
  ghost predicate EqualitySafe(op: CmpOp, l: Expr, r: Expr, lib: Library, invld: bool) {
    && !(l.TextArray? && !r.TextArray?)
    && (r.TextArray? ==> ArrayTestSafe(op, l, r.items, lib))
    && (l == Var(Severity) && r.Number? ==> LiteralInRange(r.val, 7))
    && (IsFacilityTest(l, r) ==> LiteralInRange(r.val, 23) && (invld ==> InvalidKept(op, r.val, lib)))
    && CanonicalName(l, r)
  }

  ghost predicate SafeValue(e: Expr, lib: Library, invld: bool)
    decreases e, 0
  {
    match e
    case Concat(l, r) =>
      && SafeValue(l, lib, invld) && SafeValue(r, lib, invld) && !Replaced(l, lib) && !Replaced(r, lib)
    case Arith(_, l, r) =>
      && SafeValue(l, lib, invld) && SafeValue(r, lib, invld) && !Replaced(l, lib) && !Replaced(r, lib)
      && SameNumber(Optimize(l, lib), lib) && SameNumber(Optimize(r, lib), lib)
    case Cmp(op, l, r) =>
      && SafeValue(l, lib, invld) && SafeValue(r, lib, invld)
      && if op == EQ || op == NE
         then EqualitySafe(op, Optimize(l, lib), Optimize(r, lib), lib, invld)
              && (op == NE ==> !TruthOnly(Optimize(l, lib), Optimize(r, lib), invld))
         else invld && IsFacilityTest(Optimize(l, lib), Optimize(r, lib)) ==> InvalidKept(op, Optimize(r, lib).val, lib)
    case TextTest(_, l, r) => SafeValue(l, lib, invld) && SafeValue(r, lib, invld)
    case And(l, r) => SafeTruth(l, lib, invld) && SafeTruth(r, lib, invld)
    case Or(l, r) => SafeTruth(l, lib, invld) && SafeTruth(r, lib, invld)
    case Not(r) => SafeTruth(r, lib, invld)
    case Negate(r) => ArraysOrdered(r, lib)
    case _ => true
  }

  /** Where only the truth of an expression counts, <> may compare texts too. */
  ghost predicate SafeTruth(e: Expr, lib: Library, invld: bool)
    decreases e, 1
  {
    || SafeValue(e, lib, invld)
    || (&& e.Cmp? && e.cop == NE
        && SafeValue(e.cl, lib, invld) && SafeValue(e.cr, lib, invld)
        && TruthOnly(Optimize(e.cl, lib), Optimize(e.cr, lib), invld)
        && EqualitySafe(NE, Optimize(e.cl, lib), Optimize(e.cr, lib), lib, invld))
  }

  predicate Considered(m: Message, invld: bool) { ValidMessage(m) && (m.facility == 24 ==> invld) }

  // ----- single comparisons -----

  lemma TruncDifference(s: int, v: int)
    requires 0 <= s <= 24 && 0 <= Trunc32(v) <= 24
    ensures Trunc32(s - v) == s - Trunc32(v)
  {
    var q := (v + TWO_31) / TWO_32;
    assert v == Trunc32(v) + q * TWO_32;
    assert (s - v + TWO_31) % TWO_32 == (s - Trunc32(v) + TWO_31 + (-q) * TWO_32) % TWO_32;
    assert (s - Trunc32(v) + TWO_31 + (-q) * TWO_32) % TWO_32 == (s - Trunc32(v) + TWO_31) % TWO_32;
  }

  lemma TruncSmall(v: int)
    ensures 0 <= v <= 24 ==> Trunc32(v) == v
  {
  }

  /** A code that prints as a number compares like the code. */
  lemma CodeComparison(op: CmpOp, c: nat, v: int, lib: Library)
    requires c <= 24
    ensures op == EQ || op == NE ==> CompareValues(op, Str(Decimal(c)), Number(v), Num(v), lib, ByMembership) == Bool(Compare(op, c, v))
    ensures op != EQ && op != NE ==>
      CompareValues(op, Str(Decimal(c)), Number(v), Num(v), lib, ByMembership) == Bool(Compare(op, Trunc32(c - v), 0))
  {
    DecimalRoundTrip(c);
  }

  lemma InvalidText(v: int, lib: Library)
    requires TotalOrder(lib.strcmp)
    ensures !Str2Num("invld").ok && lib.strcmp("invld", Decimal(v)) != 0
  {
    var s := "invld";
    assert s[0] == 'i';
    assert DigitRun(s) == 0;
    assert Decimal(v)[0] == '-' || IsDigit(Decimal(v)[0]);
    assert s != Decimal(v);
  }

  /** The facility of a message that has none, compared with a number. */
  lemma InvalidComparison(op: CmpOp, v: int, m: Message, lib: Library)
    requires TotalOrder(lib.strcmp) && ValidMessage(m) && m.facility == 24
    ensures Eval(Cmp(op, Var(Facility), Number(v)), m, lib, ByMembership) ==
      (var c := lib.strcmp("invld", Decimal(v));
       if op == EQ then Bool(false) else if op == NE then Num(c) else Bool(Compare(op, c, 0)))
  {
    hide Decimal, Str2Num;
    InvalidText(v, lib);
  }

  /** A number test of the invalid facility is kept, as far as its truth goes, exactly if
      `InvalidKept` says so. */
  lemma InvalidTest(op: CmpOp, v: int, m: Message, lib: Library, how: Lookup)
    requires TotalOrder(lib.strcmp) && ValidMessage(m) && m.facility == 24
    ensures var l, r := Var(Facility), Number(v);
      var a, b := Eval(FoldCode(op, l, r), m, lib, how), Eval(Cmp(op, l, r), m, lib, ByMembership);
      && (NonZero(a) == NonZero(b) <==> InvalidKept(op, v, lib))
      && (op != NE && InvalidKept(op, v, lib) ==> a == b)
      && (op == NE && 0 <= Trunc32(v) <= 24 ==> a == Bool(Trunc32(v) != 24) && b == Num(lib.strcmp("invld", Decimal(v))))
  {
    hide Matches, FacilityMask, Trunc32, CompareValues, Decimal;
    var l, r := Var(Facility), Number(v);
    InvalidComparison(op, v, m, lib);
    InvalidText(v, lib);
    if FoldCode(op, l, r).Prifilt? {
      FacilityMaskCompares(Trunc32(v), op, 24, m.severity);
    } else {
      SameComparison(op, l, r, m, lib, how);
    }
  }

  lemma FoldCodeKeepsValue(op: CmpOp, l: Expr, r: Expr, m: Message, lib: Library, how: Lookup, invld: bool)
    requires Considered(m, invld) && TotalOrder(lib.strcmp) && (l == Var(Severity) || l == Var(Facility)) && r.Number?
    requires op == EQ || op == NE ==> EqualitySafe(op, l, r, lib, invld) && !(op == NE && TruthOnly(l, r, invld))
    requires op != EQ && op != NE && invld && l == Var(Facility) ==> InvalidKept(op, r.val, lib)
    ensures Eval(FoldCode(op, l, r), m, lib, how) == Eval(Cmp(op, l, r), m, lib, ByMembership)
  {
    hide Matches, SeverityMask, FacilityMask, Trunc32, CompareValues, Decimal;
    var v := r.val;
    if !FoldCode(op, l, r).Prifilt? {
      SameComparison(op, l, r, m, lib, how);
    } else if l == Var(Severity) {
      SeverityMaskCompares(Trunc32(v), op, m.facility, m.severity);
      CodeComparison(op, m.severity, v, lib);
      TruncDifference(m.severity, v);
    } else if m.facility == 24 {
      InvalidTest(op, v, m, lib, how);
    } else {
      FacilityMaskCompares(Trunc32(v), op, m.facility, m.severity);
      CodeComparison(op, m.facility, v, lib);
      TruncDifference(m.facility, v);
      TruncSmall(v);
    }
  }

  /** A <> test of a facility with a number keeps its truth. */
  lemma FacilityTestKeepsTruth(r: Expr, m: Message, lib: Library, how: Lookup)
    requires ValidMessage(m) && TotalOrder(lib.strcmp) && r.Number? && 0 <= Trunc32(r.val) <= 24
    requires EqualitySafe(NE, Var(Facility), r, lib, true)
    ensures var l := Var(Facility);
      var a, b := Eval(FoldCode(NE, l, r), m, lib, how), Eval(Cmp(NE, l, r), m, lib, ByMembership);
      a == Bool(NonZero(b)) && b.Num? && (b.n == 0 || b.n == 1 || b.n == lib.strcmp("invld", Decimal(r.val)))
  {
    hide Matches, FacilityMask, Trunc32, CompareValues, Decimal;
    var l := Var(Facility);
    if m.facility == 24 {
      InvalidTest(NE, r.val, m, lib, how);
    } else {
      FacilityMaskCompares(Trunc32(r.val), NE, m.facility, m.severity);
      CodeComparison(NE, m.facility, r.val, lib);
      TruncSmall(r.val);
    }
  }

  lemma NameTest(op: CmpOp, l: Expr, r: Expr, m: Message, lib: Library)
    requires ValidMessage(m) && (op == EQ || op == NE) && IsNameTest(l, r) && CanonicalName(l, r)
    ensures FoldVar(op, l, r).Prifilt?
    ensures Matches(FoldVar(op, l, r).mask, m.facility, m.severity) == ((EvalVar(l.v, m).s == r.str) == (op == EQ))
  {
    hide Matches, SeverityMask, FacilityMask, SyslogNames.Decode, SyslogNames.FacilityText, SyslogNames.SeverityText;
    if l == Var(FacilityText) {
      FacilityTest(op, r.str, m);
    } else {
      SeverityTest(op, r.str, m);
    }
  }

  lemma FacilityTest(op: CmpOp, name: string, m: Message)
    requires ValidMessage(m) && (op == EQ || op == NE) && FacilityCode(name) >= 0 && CanonicalFacility(name)
    ensures Matches(FacilityMask(FacilityCode(name) / 8, op), m.facility, m.severity)
      == ((SyslogNames.FacilityText(m.facility) == name) == (op == EQ))
  {
    hide Matches, FacilityMask, SyslogNames.Decode, SyslogNames.FacilityText;
    var c := FacilityCode(name) / 8;
    FacilityMaskCompares(c, op, m.facility, m.severity);
    if c == SyslogNames.FAC_MARK {
      SyslogNames.MarkIsNoFacility(name, m.facility);
    } else if SyslogNames.FacilityText(m.facility) == name {
      SyslogNames.FacilityTextInjective(m.facility, c);
    }
  }

  lemma SeverityTest(op: CmpOp, name: string, m: Message)
    requires ValidMessage(m) && (op == EQ || op == NE) && SeverityCode(name) >= 0 && CanonicalSeverity(name)
    ensures Matches(SeverityMask(SeverityCode(name), op), m.facility, m.severity)
      == ((SyslogNames.SeverityText(m.severity) == name) == (op == EQ))
  {
    hide Matches, SeverityMask, SyslogNames.Decode, SyslogNames.SeverityText;
    var c := SeverityCode(name);
    if c >= 8 {
      NoSeverity(c, op, m);
      SyslogNames.NoSuchSeverity(name, m.severity);
    } else {
      SeverityMaskCompares(c, op, m.facility, m.severity);
      if SyslogNames.SeverityText(m.severity) == name { SyslogNames.SeverityTextInjective(m.severity, c); }
    }
  }

  /** A priority beyond the severities sets no bit, or all of them where it is excluded. */
  lemma NoSeverity(c: nat, op: CmpOp, m: Message)
    requires ValidMessage(m) && c >= 8 && (op == EQ || op == NE)
    ensures Matches(SeverityMask(c, op), m.facility, m.severity) == (op == NE)
  {
    assert Bit(c) == 0;
    hide Matches, HasBit, Bit, NotBits;
    MatchesIsBit(SeverityMask(c, op), m.facility, m.severity);
    FullBytes(m.severity);
    ByteOps(0, 0, m.severity);
  }

  /** Sorting the array of a safe test does not change its outcome. */
  lemma ArrayTestKeepsValue(op: CmpOp, v: Value, items: seq<string>, lib: Library, how: Lookup)
    requires TotalOrder(lib.strcmp) && (op == EQ || op == NE)
    requires First(Sorted(lib.strcmp, items)) == First(items) || v.Str? || (op == EQ && v.Json?)
    ensures var sorted := Sorted(lib.strcmp, items);
      CompareValues(op, v, TextArray(sorted), Str(First(sorted)), lib, how)
      == CompareValues(op, v, TextArray(items), Str(First(items)), lib, ByMembership)
  {
    SearchAfterSort(lib.strcmp, ToText(v), items);
    SortedHasSameMembers(lib.strcmp, items, ToText(v));
  }

  /** What becomes of an equality test of optimized operands. */
  lemma EqualityShapes(op: CmpOp, l: Expr, r: Expr, lib: Library)
    requires !(l.TextArray? && !r.TextArray?)
    ensures r.TextArray? ==> FoldEquality(op, l, r, lib) == Cmp(op, l, TextArray(Sorted(lib.strcmp, r.items)))
    ensures !r.TextArray? && l.Var? ==> FoldEquality(op, l, r, lib) == FoldVar(op, l, r)
    ensures !r.TextArray? && !l.Var? ==> FoldEquality(op, l, r, lib) == Cmp(op, l, r)
  {
  }

  lemma VarShapes(op: CmpOp, l: Expr, r: Expr)
    ensures l != Var(FacilityText) && l != Var(SeverityText) ==> FoldVar(op, l, r) == FoldCode(op, l, r)
    ensures (l == Var(FacilityText) || l == Var(SeverityText)) && !IsNameTest(l, r) ==> FoldVar(op, l, r) == Cmp(op, l, r)
  {
  }

  lemma SameComparison(op: CmpOp, l: Expr, r: Expr, m: Message, lib: Library, how: Lookup)
    requires ValidMessage(m) && !(r.TextArray? && (op == EQ || op == NE))
    requires Eval(l, m, lib, how) == Eval(l, m, lib, ByMembership)
    requires Eval(r, m, lib, how) == Eval(r, m, lib, ByMembership)
    ensures Eval(Cmp(op, l, r), m, lib, how) == Eval(Cmp(op, l, r), m, lib, ByMembership)
  {
  }

  lemma VarTextComparison(l: Expr, r: Expr, m: Message, lib: Library)
    requires ValidMessage(m) && (l == Var(FacilityText) || l == Var(SeverityText)) && r.Text?
    ensures EvalVar(l.v, m).Str?
    ensures Eval(Cmp(EQ, l, r), m, lib, ByMembership) == Bool(lib.strcmp(EvalVar(l.v, m).s, r.str) == 0)
    ensures Eval(Cmp(NE, l, r), m, lib, ByMembership) == Num(lib.strcmp(EvalVar(l.v, m).s, r.str))
  {
  }

  lemma PrifiltValue(e: Expr, m: Message, lib: Library, how: Lookup)
    requires ValidMessage(m) && e.Prifilt?
    ensures Eval(e, m, lib, how) == Bool(Matches(e.mask, m.facility, m.severity))
  {
  }

  lemma NameTestKeepsValue(l: Expr, r: Expr, m: Message, lib: Library, how: Lookup)
    requires ValidMessage(m) && TotalOrder(lib.strcmp) && IsNameTest(l, r) && CanonicalName(l, r)
    ensures Eval(FoldVar(EQ, l, r), m, lib, how) == Eval(Cmp(EQ, l, r), m, lib, ByMembership)
    ensures Eval(FoldVar(NE, l, r), m, lib, how) == Bool(NonZero(Eval(Cmp(NE, l, r), m, lib, ByMembership)))
  {
    NameTest(EQ, l, r, m, lib);
    NameTest(NE, l, r, m, lib);
    VarTextComparison(l, r, m, lib);
    PrifiltValue(FoldVar(EQ, l, r), m, lib, how);
    PrifiltValue(FoldVar(NE, l, r), m, lib, how);
    var t := EvalVar(l.v, m).s;
    assert lib.strcmp(t, r.str) == 0 <==> t == r.str;
  }

  lemma VarTestKeepsValue(op: CmpOp, l: Expr, r: Expr, m: Message, lib: Library, how: Lookup, invld: bool)
    requires Considered(m, invld) && (op == EQ || op == NE) && TotalOrder(lib.strcmp) && l.Var? && !r.TextArray?
    requires EqualitySafe(op, l, r, lib, invld) && !(op == NE && TruthOnly(l, r, invld))
    requires Eval(r, m, lib, how) == Eval(r, m, lib, ByMembership)
    ensures Eval(FoldVar(op, l, r), m, lib, how) == Eval(Cmp(op, l, r), m, lib, ByMembership)
  {
    VarShapes(op, l, r);
    SameComparison(op, l, r, m, lib, how);
    if IsNameTest(l, r) {
      NameTestKeepsValue(l, r, m, lib, how);
    } else if (l == Var(Severity) || l == Var(Facility)) && r.Number? {
      FoldCodeKeepsValue(op, l, r, m, lib, how, invld);
    }
  }

  /** The == and <> rewriting of optimized operands keeps the value of the comparison. */
  lemma EqualityKeepsValue(op: CmpOp, l: Expr, r: Expr, m: Message, lib: Library, how: Lookup, invld: bool)
    requires Considered(m, invld) && (op == EQ || op == NE) && TotalOrder(lib.strcmp)
    requires EqualitySafe(op, l, r, lib, invld) && !(op == NE && TruthOnly(l, r, invld))
    requires Eval(l, m, lib, how) == Eval(l, m, lib, ByMembership)
    requires Eval(r, m, lib, how) == Eval(r, m, lib, ByMembership)
    ensures Eval(FoldEquality(op, l, r, lib), m, lib, how) == Eval(Cmp(op, l, r), m, lib, ByMembership)
  {
    hide FoldVar, FoldEquality, CompareValues, Sorted, EvalVar, CanonicalName, TruthOnly, LiteralInRange, InvalidKept, Matches;
    EqualityShapes(op, l, r, lib);
    if r.TextArray? {
      ArrayTestKeepsValue(op, Eval(l, m, lib, ByMembership), r.items, lib, how);
    } else if l.Var? {
      VarTestKeepsValue(op, l, r, m, lib, how, invld);
    } else {
      SameComparison(op, l, r, m, lib, how);
    }
  }

  // ----- whole expressions -----

  lemma FoldsAreTests(op: CmpOp, l: Expr, r: Expr, lib: Library)
    ensures FoldEquality(op, l, r, lib).Prifilt? || FoldEquality(op, l, r, lib).Cmp?
    ensures FoldCode(op, l, r).Prifilt? || FoldCode(op, l, r).Cmp?
  {
    hide Sorted, FacilityMask, SeverityMask, Trunc32, SyslogNames.Decode;
  }

  lemma {:induction false} ShapesKept(e: Expr, lib: Library)
    ensures Optimize(e, lib).TextArray? == e.TextArray?
    ensures e.TextArray? || e.Text? || e.Number? || e.Var? ==> Optimize(e, lib) == e
  {
    hide FoldEquality, FoldCode, Compute, Combined, Inverted;
    if e.Cmp? { FoldsAreTests(e.cop, Optimize(e.cl, lib), Optimize(e.cr, lib), lib); }
  }

  lemma OrderKept(op: CmpOp, l: Expr, r: Expr, m: Message, lib: Library, how: Lookup, invld: bool)
    requires Considered(m, invld) && TotalOrder(lib.strcmp) && op != EQ && op != NE
    requires invld && IsFacilityTest(l, r) ==> InvalidKept(op, r.val, lib)
    requires Eval(l, m, lib, how) == Eval(l, m, lib, ByMembership)
    requires Eval(r, m, lib, how) == Eval(r, m, lib, ByMembership)
    ensures Eval(FoldCode(op, l, r), m, lib, how) == Eval(Cmp(op, l, r), m, lib, ByMembership)
  {
    hide CompareValues, Matches, EvalVar, Trunc32, SeverityMask, FacilityMask, InvalidKept;
    if (l == Var(Severity) || l == Var(Facility)) && r.Number? {
      FoldCodeKeepsValue(op, l, r, m, lib, how, invld);
    } else {
      SameComparison(op, l, r, m, lib, how);
    }
  }

  lemma LogicKept(l: Expr, r: Expr, isAnd: bool, m: Message, lib: Library, how: Lookup)
    requires ValidMessage(m)
    ensures Eval(FoldLogic(l, r, isAnd), m, lib, how) == Eval(if isAnd then And(l, r) else Or(l, r), m, lib, how)
  {
    if l.Prifilt? && r.Prifilt? { CombinedMatches(l.mask, r.mask, isAnd, m.facility, m.severity); }
  }

  lemma ConcatKept(l: Expr, r: Expr, l': Expr, r': Expr, m: Message, lib: Library, how: Lookup)
    requires ValidMessage(m)
    requires Eval(l', m, lib, how) == Eval(l, m, lib, ByMembership)
    requires Eval(r', m, lib, how) == Eval(r, m, lib, ByMembership)
    ensures Eval(FoldConcat(l', r'), m, lib, how) == Eval(Concat(l, r), m, lib, ByMembership)
  {
    hide ToText, ConstText, CompareValues, EvalVar, Matches;
    if IsConst(l') && IsConst(r') {
      ConstTextValue(l', m, lib, how);
      ConstTextValue(r', m, lib, how);
    }
  }

  lemma ConstTextValue(e: Expr, m: Message, lib: Library, how: Lookup)
    requires ValidMessage(m) && IsConst(e)
    ensures ToText(Eval(e, m, lib, how)) == ConstText(e)
  {
    hide Decimal;
  }

  lemma ArithKept(op: ArithOp, l: Expr, r: Expr, l': Expr, r': Expr, m: Message, lib: Library, how: Lookup)
    requires ValidMessage(m) && SameNumber(l', lib) && SameNumber(r', lib)
    requires Eval(l', m, lib, how) == Eval(l, m, lib, ByMembership)
    requires Eval(r', m, lib, how) == Eval(r, m, lib, ByMembership)
    ensures Eval(FoldArith(op, l', r', lib), m, lib, how) == Eval(Arith(op, l, r), m, lib, ByMembership)
  {
    hide Compute, Str2Num, CompareValues, EvalVar, Matches;
    if IsConst(l') && IsConst(r') {
      assert ConstNumber(l', lib) == ToNumber(Eval(l', m, lib, how)).num;
      assert ConstNumber(r', lib) == ToNumber(Eval(r', m, lib, how)).num;
    }
  }

  lemma CmpKept(op: CmpOp, l: Expr, r: Expr, l': Expr, r': Expr, m: Message, lib: Library)
    requires ValidMessage(m) && (r.TextArray? || r'.TextArray? ==> r' == r)
    requires Eval(l', m, lib, ByMembership) == Eval(l, m, lib, ByMembership)
    requires Eval(r', m, lib, ByMembership) == Eval(r, m, lib, ByMembership)
    ensures Eval(Cmp(op, l', r'), m, lib, ByMembership) == Eval(Cmp(op, l, r), m, lib, ByMembership)
  {
  }

  lemma NotKept(r: Expr, r': Expr, m: Message, lib: Library, how: Lookup)
    requires ValidMessage(m) && NonZero(Eval(r', m, lib, how)) == NonZero(Eval(r, m, lib, ByMembership))
    ensures Eval(if r'.Prifilt? then Prifilt(Inverted(r'.mask)) else Not(r'), m, lib, how) == Eval(Not(r), m, lib, ByMembership)
  {
    hide Matches, Inverted, EvalVar, CompareValues;
    if r'.Prifilt? { InvertedMatches(r'.mask, m.facility, m.severity); }
  }

  /** The optimizer keeps the value of every safe expression, for every message, when the
      optimized code searches arrays by bisection and the original means membership. */
  lemma {:induction false} OptimizeKeepsValue(e: Expr, m: Message, lib: Library, how: Lookup, invld: bool)
    requires Considered(m, invld) && TotalOrder(lib.strcmp) && SafeValue(e, lib, invld)
    ensures Eval(Optimize(e, lib), m, lib, how) == Eval(e, m, lib, ByMembership)
    decreases e, 0
  {
    hide FoldEquality, FoldCode, FoldLogic, FoldConcat, FoldArith, EqualitySafe, TruthOnly, InvalidKept, CompareValues, Compute,
      EvalVar, ArraysOrdered, Replaced, SameNumber, Matches, ToText, ToNumber;
    match e
    case Concat(l, r) =>
      OptimizeKeepsValue(l, m, lib, how, invld);
      OptimizeKeepsValue(r, m, lib, how, invld);
      ConcatKept(l, r, Optimize(l, lib), Optimize(r, lib), m, lib, how);
    case Arith(op, l, r) =>
      OptimizeKeepsValue(l, m, lib, how, invld);
      OptimizeKeepsValue(r, m, lib, how, invld);
      ArithKept(op, l, r, Optimize(l, lib), Optimize(r, lib), m, lib, how);
    case Cmp(op, l, r) =>
      var l', r' := Optimize(l, lib), Optimize(r, lib);
      OptimizeKeepsValue(l, m, lib, how, invld);
      OptimizeKeepsValue(r, m, lib, how, invld);
      OptimizeKeepsValue(l, m, lib, ByMembership, invld);
      OptimizeKeepsValue(r, m, lib, ByMembership, invld);
      ShapesKept(r, lib);
      CmpKept(op, l, r, l', r', m, lib);
      if op == EQ || op == NE {
        EqualityKeepsValue(op, l', r', m, lib, how, invld);
      } else {
        OrderKept(op, l', r', m, lib, how, invld);
      }
    case TextTest(op, l, r) =>
      OptimizeKeepsValue(l, m, lib, how, invld);
      OptimizeKeepsValue(r, m, lib, how, invld);
      ShapesKept(r, lib);
    case And(l, r) =>
      OptimizeKeepsTruth(l, m, lib, how, invld);
      OptimizeKeepsTruth(r, m, lib, how, invld);
      LogicKept(Optimize(l, lib), Optimize(r, lib), true, m, lib, how);
    case Or(l, r) =>
      OptimizeKeepsTruth(l, m, lib, how, invld);
      OptimizeKeepsTruth(r, m, lib, how, invld);
      LogicKept(Optimize(l, lib), Optimize(r, lib), false, m, lib, how);
    case Not(r) =>
      OptimizeKeepsTruth(r, m, lib, how, invld);
      NotKept(r, Optimize(r, lib), m, lib, how);
    case Negate(r) =>
      OrderedArraysFound(r, m, lib, how);
    case _ =>
  }

  lemma TruthTestOperands(l: Expr, r: Expr, l': Expr, r': Expr, m: Message, lib: Library)
    requires ValidMessage(m) && !r.TextArray? && !r'.TextArray?
    requires Eval(l', m, lib, ByMembership) == Eval(l, m, lib, ByMembership)
    requires Eval(r', m, lib, ByMembership) == Eval(r, m, lib, ByMembership)
    ensures Eval(Cmp(NE, l, r), m, lib, ByMembership) == Eval(Cmp(NE, l', r'), m, lib, ByMembership)
  {
    hide CompareNe, EvalVar, FacilityCode, SeverityCode, CompareEq, CompareLike, Matches;
  }

  /** A value that is 0, 1 or the result of a text comparison. */
  ghost predicate SmallResult(v: Value, lib: Library) {
    v.Num? && (v.n == 0 || v.n == 1 || exists a, b :: v.n == lib.strcmp(a, b))
  }

  lemma TruthTestKept(l: Expr, r: Expr, m: Message, lib: Library, how: Lookup, invld: bool)
    requires Considered(m, invld) && TotalOrder(lib.strcmp) && TruthOnly(l, r, invld) && EqualitySafe(NE, l, r, lib, invld)
    ensures var a, b := Eval(FoldEquality(NE, l, r, lib), m, lib, how), Eval(Cmp(NE, l, r), m, lib, ByMembership);
      a == Bool(NonZero(b)) && SmallResult(b, lib)
  {
    hide FoldVar, FoldCode, CompareValues, Sorted, Matches, CanonicalName, LiteralInRange, InvalidKept, EvalVar;
    EqualityShapes(NE, l, r, lib);
    VarShapes(NE, l, r);
    if IsNameTest(l, r) {
      NameTestKeepsValue(l, r, m, lib, how);
      VarTextComparison(l, r, m, lib);
    } else {
      FacilityTestKeepsTruth(r, m, lib, how);
    }
  }

  lemma TruthShape(l: Expr, r: Expr, invld: bool)
    requires TruthOnly(l, r, invld)
    ensures !r.TextArray?
  {
  }

  /** In conditions the truth is kept, also where <> compares texts. */
  lemma {:induction false} OptimizeKeepsTruth(e: Expr, m: Message, lib: Library, how: Lookup, invld: bool)
    requires Considered(m, invld) && TotalOrder(lib.strcmp) && SafeTruth(e, lib, invld)
    ensures NonZero(Eval(Optimize(e, lib), m, lib, how)) == NonZero(Eval(e, m, lib, ByMembership))
    ensures !SafeValue(e, lib, invld) ==>
      Eval(Optimize(e, lib), m, lib, how) == Bool(NonZero(Eval(e, m, lib, ByMembership)))
    ensures !SafeValue(e, lib, invld) ==> SmallResult(Eval(e, m, lib, ByMembership), lib)
    decreases e, 1
  {
    if SafeValue(e, lib, invld) {
      OptimizeKeepsValue(e, m, lib, how, invld);
    } else {
      hide TruthOnly, EqualitySafe, FoldEquality, CompareValues, EvalVar, Matches, SmallResult, FoldCode;
      var l, r := Optimize(e.cl, lib), Optimize(e.cr, lib);
      OptimizeKeepsValue(e.cl, m, lib, ByMembership, invld);
      OptimizeKeepsValue(e.cr, m, lib, ByMembership, invld);
      ShapesKept(e.cr, lib);
      TruthShape(l, r, invld);
      TruthTestOperands(e.cl, e.cr, l, r, m, lib);
      TruthTestKept(l, r, m, lib, how, invld);
    }
  }

  lemma OrderedTest(op: CmpOp, v: Value, items: seq<string>, rv: Value, lib: Library, how: Lookup)
    requires TotalOrder(lib.strcmp) && Ordered(lib.strcmp, items) && (op == EQ || op == NE)
    ensures CompareValues(op, v, TextArray(items), rv, lib, how) == CompareValues(op, v, TextArray(items), rv, lib, ByMembership)
  {
    SearchFinds(lib.strcmp, ToText(v), items, 0, |items|);
    assert items[0..|items|] == items;
  }

  lemma OrderedComparison(op: CmpOp, l: Expr, r: Expr, m: Message, lib: Library, how: Lookup)
    requires ValidMessage(m) && TotalOrder(lib.strcmp)
    requires r.TextArray? && (op == EQ || op == NE) ==> Ordered(lib.strcmp, r.items)
    requires Eval(l, m, lib, how) == Eval(l, m, lib, ByMembership)
    requires Eval(r, m, lib, how) == Eval(r, m, lib, ByMembership)
    ensures Eval(Cmp(op, l, r), m, lib, how) == Eval(Cmp(op, l, r), m, lib, ByMembership)
  {
    hide CompareValues, EvalVar, Matches, Ordered;
    if r.TextArray? && (op == EQ || op == NE) {
      OrderedTest(op, Eval(l, m, lib, ByMembership), r.items, Eval(r, m, lib, ByMembership), lib, how);
    } else {
      SameComparison(op, l, r, m, lib, how);
    }
  }

  /** An expression whose arrays are in order has the same value however they are searched. */
  lemma {:induction false} OrderedArraysFound(e: Expr, m: Message, lib: Library, how: Lookup)
    requires ValidMessage(m) && TotalOrder(lib.strcmp) && ArraysOrdered(e, lib)
    ensures Eval(e, m, lib, how) == Eval(e, m, lib, ByMembership)
  {
    hide CompareValues, EvalVar, Matches, Ordered, Compute, ToText, ToNumber;
    match e
    case Cmp(op, l, r) =>
      OrderedArraysFound(l, m, lib, how);
      OrderedArraysFound(r, m, lib, how);
      OrderedComparison(op, l, r, m, lib, how);
    case Concat(l, r) => OrderedArraysFound(l, m, lib, how); OrderedArraysFound(r, m, lib, how);
    case Arith(op, l, r) => OrderedArraysFound(l, m, lib, how); OrderedArraysFound(r, m, lib, how);
    case TextTest(op, l, r) => OrderedArraysFound(l, m, lib, how); OrderedArraysFound(r, m, lib, how);
    case And(l, r) => OrderedArraysFound(l, m, lib, how); OrderedArraysFound(r, m, lib, how);
    case Or(l, r) => OrderedArraysFound(l, m, lib, how); OrderedArraysFound(r, m, lib, how);
    case Not(r) => OrderedArraysFound(r, m, lib, how);
    case Negate(r) => OrderedArraysFound(r, m, lib, how);
    case _ =>
  }

  // ----- optimizing twice -----

  lemma ArrayFold(op: CmpOp, l: Expr, items: seq<string>)
    ensures l.Var? ==> FoldVar(op, l, TextArray(items)) == Cmp(op, l, TextArray(items))
  {
    VarShapes(op, l, TextArray(items));
  }

  lemma EqualityOutcome(op: CmpOp, l: Expr, r: Expr, lib: Library)
    requires TotalOrder(lib.strcmp)
    ensures var f := FoldEquality(op, l, r, lib);
      || f.Prifilt?
      || (f == Cmp(op, l, r) && !(l.TextArray? && !r.TextArray?))
      || (f.Cmp? && f.cop == op && f.cr.TextArray? && FoldEquality(op, f.cl, f.cr, lib) == f
          && f.cl == (if l.TextArray? && !r.TextArray? then r else l))
  {
    var swap := l.TextArray? && !r.TextArray?;
    var l2, r2 := if swap then r else l, if swap then l else r;
    if r2.TextArray? {
      var sorted := Sorted(lib.strcmp, r2.items);
      SortingSorted(lib.strcmp, r2.items);
      ArrayFold(op, l2, sorted);
    } else {
      EqualityShapes(op, l, r, lib);
    }
  }

  lemma EqualityTwice(op: CmpOp, l: Expr, r: Expr, lib: Library)
    requires TotalOrder(lib.strcmp) && (op == EQ || op == NE) && Optimize(l, lib) == l && Optimize(r, lib) == r
    ensures Optimize(FoldEquality(op, l, r, lib), lib) == FoldEquality(op, l, r, lib)
  {
    EqualityOutcome(op, l, r, lib);
  }

  /** Optimizing an optimized expression changes nothing: the statement optimizer visits
      some statements twice. */
  lemma {:induction false} OptimizeTwice(e: Expr, lib: Library)
    requires TotalOrder(lib.strcmp)
    ensures Optimize(Optimize(e, lib), lib) == Optimize(e, lib)
  {
    hide FoldEquality, Compute, Combined, Inverted, Sorted, FacilityMask, SeverityMask, Trunc32;
    match e
    case Concat(l, r) => OptimizeTwice(l, lib); OptimizeTwice(r, lib);
    case Arith(op, l, r) => OptimizeTwice(l, lib); OptimizeTwice(r, lib);
    case Cmp(op, l, r) =>
      OptimizeTwice(l, lib);
      OptimizeTwice(r, lib);
      if op == EQ || op == NE { EqualityTwice(op, Optimize(l, lib), Optimize(r, lib), lib); }
    case TextTest(op, l, r) => OptimizeTwice(l, lib); OptimizeTwice(r, lib);
    case And(l, r) => OptimizeTwice(l, lib); OptimizeTwice(r, lib);
    case Or(l, r) => OptimizeTwice(l, lib); OptimizeTwice(r, lib);
    case Not(r) => OptimizeTwice(r, lib);
    case _ =>
  }

  lemma SwapSafe(op: CmpOp, l: Expr, r: Expr, lib: Library, invld: bool)
    requires EqualitySafe(op, l, r, lib, invld)
    ensures !(l.TextArray? && !r.TextArray?)
  {
  }

  lemma VarFolds(op: CmpOp, l: Expr, r: Expr)
    ensures FoldVar(op, l, r).Prifilt? || FoldVar(op, l, r) == Cmp(op, l, r)
  {
  }

  lemma SafeArrayTest(op: CmpOp, l: Expr, r: Expr, lib: Library, invld: bool)
    requires TotalOrder(lib.strcmp) && r.TextArray? && EqualitySafe(op, l, r, lib, invld)
    ensures EqualitySafe(op, l, TextArray(Sorted(lib.strcmp, r.items)), lib, invld)
    ensures !TruthOnly(l, TextArray(Sorted(lib.strcmp, r.items)), invld)
  {
    hide Sorted, Eval, InvalidKept, LiteralInRange;
    SortingSorted(lib.strcmp, r.items);
  }

  lemma SafeEquality(op: CmpOp, l: Expr, r: Expr, lib: Library, invld: bool)
    requires TotalOrder(lib.strcmp) && (op == EQ || op == NE)
    requires Optimize(l, lib) == l && Optimize(r, lib) == r && SafeValue(l, lib, invld) && SafeValue(r, lib, invld)
    requires EqualitySafe(op, l, r, lib, invld) && !(op == NE && TruthOnly(l, r, invld))
    ensures SafeValue(FoldEquality(op, l, r, lib), lib, invld)
  {
    hide FoldEquality, FoldCode, FoldVar, EqualitySafe, TruthOnly, Sorted, InvalidKept;
    SwapSafe(op, l, r, lib, invld);
    EqualityShapes(op, l, r, lib);
    if r.TextArray? {
      SafeArrayTest(op, l, r, lib, invld);
    } else if l.Var? {
      VarFolds(op, l, r);
    }
  }

  lemma SafeFolded(l: Expr, r: Expr, op: ArithOp, lib: Library, invld: bool)
    requires Optimize(l, lib) == l && Optimize(r, lib) == r && SafeValue(l, lib, invld) && SafeValue(r, lib, invld)
    ensures SafeValue(FoldConcat(l, r), lib, invld)
    ensures SameNumber(l, lib) && SameNumber(r, lib) ==> SafeValue(FoldArith(op, l, r, lib), lib, invld)
  {
    hide SameNumber, Compute, ConstNumber, ConstText;
  }

  lemma SafeOrder(op: CmpOp, l: Expr, r: Expr, lib: Library, invld: bool)
    requires op != EQ && op != NE && (invld && IsFacilityTest(l, r) ==> InvalidKept(op, r.val, lib))
    requires Optimize(l, lib) == l && Optimize(r, lib) == r && SafeValue(l, lib, invld) && SafeValue(r, lib, invld)
    ensures SafeValue(FoldCode(op, l, r), lib, invld)
  {
    hide EqualitySafe, Trunc32, InvalidKept;
  }

  lemma SafeLogic(l: Expr, r: Expr, isAnd: bool, lib: Library, invld: bool)
    requires SafeTruth(l, lib, invld) && SafeTruth(r, lib, invld)
    ensures SafeValue(FoldLogic(l, r, isAnd), lib, invld)
  {
    hide SafeTruth;
  }

  /** An optimized expression is again one the optimizer is safe on. */
  lemma {:induction false} SafeStaysSafe(e: Expr, lib: Library, invld: bool)
    requires TotalOrder(lib.strcmp) && SafeTruth(e, lib, invld)
    ensures SafeTruth(Optimize(e, lib), lib, invld)
    ensures SafeValue(e, lib, invld) ==> SafeValue(Optimize(e, lib), lib, invld)
    decreases e, 0
  {
    hide EqualitySafe, TruthOnly, InvalidKept, FoldEquality, FoldVar, FoldCode, FoldConcat, FoldArith, FoldLogic, ArraysOrdered, SameNumber;
    if SafeValue(e, lib, invld) {
      match e
      case Concat(l, r) => SafeOperand(l, lib, invld); SafeOperand(r, lib, invld); SafeFolded(Optimize(l, lib), Optimize(r, lib), Add, lib, invld);
      case Arith(op, l, r) => SafeOperand(l, lib, invld); SafeOperand(r, lib, invld); SafeFolded(Optimize(l, lib), Optimize(r, lib), op, lib, invld);
      case Cmp(op, l, r) =>
        SafeOperand(l, lib, invld); SafeOperand(r, lib, invld);
        if op == EQ || op == NE {
          SafeEquality(op, Optimize(l, lib), Optimize(r, lib), lib, invld);
        } else {
          SafeOrder(op, Optimize(l, lib), Optimize(r, lib), lib, invld);
        }
      case TextTest(op, l, r) => SafeOperand(l, lib, invld); SafeOperand(r, lib, invld);
      case And(l, r) =>
        SafeStaysSafe(l, lib, invld);
        SafeStaysSafe(r, lib, invld);
        SafeLogic(Optimize(l, lib), Optimize(r, lib), true, lib, invld);
      case Or(l, r) =>
        SafeStaysSafe(l, lib, invld);
        SafeStaysSafe(r, lib, invld);
        SafeLogic(Optimize(l, lib), Optimize(r, lib), false, lib, invld);
      case Not(r) => SafeStaysSafe(r, lib, invld);
      case _ =>
    } else {
      TruthTestFolds(Optimize(e.cl, lib), Optimize(e.cr, lib), lib, invld);
    }
  }

  lemma SafeOperand(e: Expr, lib: Library, invld: bool)
    requires TotalOrder(lib.strcmp) && SafeValue(e, lib, invld)
    ensures Optimize(Optimize(e, lib), lib) == Optimize(e, lib) && SafeValue(Optimize(e, lib), lib, invld)
    decreases e, 1
  {
    OptimizeTwice(e, lib);
    SafeStaysSafe(e, lib, invld);
  }

  lemma TruthTestFolds(l: Expr, r: Expr, lib: Library, invld: bool)
    requires TruthOnly(l, r, invld) && EqualitySafe(NE, l, r, lib, invld)
    ensures FoldEquality(NE, l, r, lib).Prifilt?
  {
    EqualityShapes(NE, l, r, lib);
  }

  // ----- what the masks mean, and where the optimizer changes the meaning -----

  /** Each bit of a generated mask is set exactly when the replaced expression holds. */
  lemma MaskMeaning(e: Expr, m: Message, lib: Library, invld: bool)
    requires Considered(m, invld) && TotalOrder(lib.strcmp) && SafeTruth(e, lib, invld)
    requires Optimize(e, lib).Prifilt?
    ensures Matches(Optimize(e, lib).mask, m.facility, m.severity) == NonZero(Eval(e, m, lib, ByMembership))
  {
    OptimizeKeepsTruth(e, m, lib, ByBinarySearch, invld);
  }

  /** A severity comparison with a literal is kept for all messages exactly when an
      equality test does not cut the literal onto a severity. Order tests always are:
      the evaluator cuts the difference in the same way. */
  lemma SeverityLiteral(op: CmpOp, v: int, lib: Library)
    requires TotalOrder(lib.strcmp)
    ensures var e := Cmp(op, Var(Severity), Number(v));
      (forall m | ValidMessage(m) :: Eval(Optimize(e, lib), m, lib, ByBinarySearch) == Eval(e, m, lib, ByMembership))
      <==> (op == EQ || op == NE ==> LiteralInRange(v, 7))
  {
    var e := Cmp(op, Var(Severity), Number(v));
    if op == EQ || op == NE ==> LiteralInRange(v, 7) {
      forall m | ValidMessage(m) ensures Eval(Optimize(e, lib), m, lib, ByBinarySearch) == Eval(e, m, lib, ByMembership) {
        OptimizeKeepsValue(e, m, lib, ByBinarySearch, true);
      }
    } else {
      var m := Message(0, Trunc32(v), map[]);
      assert ValidMessage(m);
      CodeComparison(op, m.severity, v, lib);
    }
  }

  /** The literal 2^32 + 3 is cut to 3: the test is false of every message, optimized it is
      true of those of severity 3. */
  lemma SeverityLiteralExample(lib: Library)
    requires TotalOrder(lib.strcmp)
    ensures var e := Cmp(EQ, Var(Severity), Number(4294967299)); var m := Message(0, 3, map[]);
      Eval(Optimize(e, lib), m, lib, ByBinarySearch) == Bool(true) && Eval(e, m, lib, ByMembership) == Bool(false)
  {
    hide CompareValues, Matches, SeverityMask, Decimal;
    assert Trunc32(4294967299) == 3;
    SeverityMaskCompares(3, EQ, 0, 3);
    CodeComparison(EQ, 3, 4294967299, lib);
  }

  /** The same for facilities, over the messages that have one. */
  lemma FacilityLiteral(op: CmpOp, v: int, lib: Library)
    requires TotalOrder(lib.strcmp)
    ensures var e := Cmp(op, Var(Facility), Number(v));
      (forall m | Considered(m, false) :: Eval(Optimize(e, lib), m, lib, ByBinarySearch) == Eval(e, m, lib, ByMembership))
      <==> (op == EQ || op == NE ==> LiteralInRange(v, 23))
  {
    var e := Cmp(op, Var(Facility), Number(v));
    if op == EQ || op == NE ==> LiteralInRange(v, 23) {
      forall m | Considered(m, false) ensures Eval(Optimize(e, lib), m, lib, ByBinarySearch) == Eval(e, m, lib, ByMembership) {
        OptimizeKeepsValue(e, m, lib, ByBinarySearch, false);
      }
    } else {
      var m := Message(Trunc32(v), 0, map[]);
      assert Considered(m, false);
      FacilityMaskCompares(m.facility, op, m.facility, 0);
      CodeComparison(op, m.facility, v, lib);
    }
  }

  /** A message of the invalid facility has no facility number. A test of its facility with a
      number keeps its truth exactly as `InvalidKept` says, for all six operators, and its
      value too except with <>. With a literal from 0 to 24, which texts compare below
      "invld", it is kept exactly if the literal is not 24 or the operator is < or >=. */
  lemma InvalidFacilityLiteral(op: CmpOp, v: int, m: Message, lib: Library)
    requires TotalOrder(lib.strcmp) && ValidMessage(m) && m.facility == 24
    ensures var e := Cmp(op, Var(Facility), Number(v));
      var a, b := Eval(Optimize(e, lib), m, lib, ByBinarySearch), Eval(e, m, lib, ByMembership);
      && (NonZero(a) == NonZero(b) <==> InvalidKept(op, v, lib))
      && (op != NE ==> (a == b <==> InvalidKept(op, v, lib)))
      && (op == NE && 0 <= Trunc32(v) <= 24 ==> (a == b <==> Trunc32(v) != 24 && lib.strcmp("invld", Decimal(v)) == 1))
      && (0 <= v <= 24 && lib.strcmp("invld", Decimal(v)) > 0 ==>
            (NonZero(a) == NonZero(b) <==> v != 24 || op == LT || op == GE))
  {
    hide Matches, FacilityMask, CompareValues, Decimal, NonZero, FoldCode;
    InvalidTest(op, v, m, lib, ByBinarySearch);
    InvalidText(v, lib);
    VarShapes(op, Var(Facility), Number(v));
    TruncSmall(v);
  }

  /** A name test is kept for all messages, its value with == and its truth with <>. */
  ghost predicate NameKept(l: Expr, name: string, lib: Library) {
    forall m | ValidMessage(m) ::
      && Eval(Optimize(Cmp(EQ, l, Text(name)), lib), m, lib, ByBinarySearch) == Eval(Cmp(EQ, l, Text(name)), m, lib, ByMembership)
      && NonZero(Eval(Optimize(Cmp(NE, l, Text(name)), lib), m, lib, ByBinarySearch))
         == NonZero(Eval(Cmp(NE, l, Text(name)), m, lib, ByMembership))
  }

  /** One operator of the two failing is as good as both. */
  lemma NameFails(op: CmpOp, l: Expr, name: string, m: Message, lib: Library)
    requires TotalOrder(lib.strcmp) && ValidMessage(m) && (op == EQ || op == NE)
    requires l == Var(FacilityText) || l == Var(SeverityText)
    requires var f := FoldVar(op, l, Text(name)); f.Prifilt? && Matches(f.mask, m.facility, m.severity) == (op == EQ)
    requires EvalVar(l.v, m) != Str(name)
    ensures NonZero(Eval(Optimize(Cmp(op, l, Text(name)), lib), m, lib, ByBinarySearch))
      != NonZero(Eval(Cmp(op, l, Text(name)), m, lib, ByMembership))
  {
    hide Matches, FoldVar, EvalVar, Sorted, CompareValues;
    VarTextComparison(l, Text(name), m, lib);
    PrifiltValue(FoldVar(op, l, Text(name)), m, lib, ByBinarySearch);
    EqualityShapes(op, l, Text(name), lib);
    var t := EvalVar(l.v, m).s;
    assert lib.strcmp(t, name) == 0 <==> t == name;
  }

  lemma CanonicalIsKept(l: Expr, name: string, lib: Library)
    requires TotalOrder(lib.strcmp) && IsNameTest(l, Text(name)) && CanonicalName(l, Text(name))
    ensures NameKept(l, name, lib)
  {
    hide FoldVar, CompareValues, Matches, Sorted, CanonicalName;
    var r := Text(name);
    forall m | ValidMessage(m)
      ensures Eval(Optimize(Cmp(EQ, l, r), lib), m, lib, ByBinarySearch) == Eval(Cmp(EQ, l, r), m, lib, ByMembership)
      ensures NonZero(Eval(Optimize(Cmp(NE, l, r), lib), m, lib, ByBinarySearch)) == NonZero(Eval(Cmp(NE, l, r), m, lib, ByMembership))
    {
      NameTestKeepsValue(l, r, m, lib, ByBinarySearch);
      EqualityShapes(EQ, l, r, lib);
      EqualityShapes(NE, l, r, lib);
    }
  }

  /** A facility name test is kept for all messages exactly when the name is the text of
      the code it decodes to, or of no message. */
  lemma FacilityName(name: string, lib: Library)
    requires TotalOrder(lib.strcmp) && FacilityCode(name) >= 0 && FacilityCode(name) / 8 < ENTRIES
    ensures NameKept(Var(FacilityText), name, lib) <==> CanonicalFacility(name)
  {
    hide FacilityMask, Matches, FacilityCode, SyslogNames.FacilityText, CompareValues, Optimize;
    var l := Var(FacilityText);
    if CanonicalFacility(name) {
      CanonicalIsKept(l, name, lib);
    } else {
      var m := Message(FacilityCode(name) / 8, 0, map[]);
      assert ValidMessage(m);
      FacilityMaskCompares(m.facility, EQ, m.facility, 0);
      NameFails(EQ, l, name, m, lib);
    }
  }

  /** A severity name test likewise: "warn", "error" and "panic" are no texts of messages. */
  lemma SeverityName(name: string, lib: Library)
    requires TotalOrder(lib.strcmp) && SeverityCode(name) >= 0
    ensures NameKept(Var(SeverityText), name, lib) <==> CanonicalSeverity(name)
  {
    hide SeverityMask, Matches, SeverityCode, SyslogNames.SeverityText, CompareValues, Optimize;
    var l := Var(SeverityText);
    if CanonicalSeverity(name) {
      CanonicalIsKept(l, name, lib);
    } else {
      var m := Message(0, SeverityCode(name), map[]);
      assert ValidMessage(m);
      SeverityMaskCompares(m.severity, EQ, 0, m.severity);
      NameFails(EQ, l, name, m, lib);
    }
  }

  lemma EarlierSeverity(j: nat)
    requires j < 10
    ensures var n := SyslogNames.PRI_NAMES[j].name; n != [] && n[0] != 'w'
  {
  }

  lemma WarnCode()
    ensures SeverityCode("warn") == 4
  {
    var name := "warn";
    hide SyslogNames.Lookup;
    assert SyslogNames.LowerText(name) == name;
    forall j | 0 <= j < 10 ensures SyslogNames.PRI_NAMES[j].name != name { EarlierSeverity(j); }
    SyslogNames.LookupAt(SyslogNames.PRI_NAMES, name, 10);
  }

  /** "warn" is a name of severity 4, whose text is "warning". */
  lemma SeverityNameExample(lib: Library)
    requires TotalOrder(lib.strcmp)
    ensures var e := Cmp(EQ, Var(SeverityText), Text("warn")); var m := Message(0, 4, map[]);
      Eval(Optimize(e, lib), m, lib, ByBinarySearch) == Bool(true) && Eval(e, m, lib, ByMembership) == Bool(false)
  {
    hide Matches, SeverityMask, SyslogNames.Decode, CompareValues;
    var l, r, m := Var(SeverityText), Text("warn"), Message(0, 4, map[]);
    WarnCode();
    SeverityMaskCompares(4, EQ, 0, 4);
    VarTextComparison(l, r, m, lib);
    assert lib.strcmp("warning", "warn") != 0 by { assert |"warning"| != |"warn"|; }
  }

  lemma EarlierFacility(j: nat)
    requires j < 10
    ensures var n := SyslogNames.FAC_NAMES[j].name; n != [] && n[0] != 's'
  {
  }

  lemma SecurityCode()
    ensures FacilityCode("security") == 32
  {
    var name := "security";
    hide SyslogNames.Lookup;
    assert SyslogNames.LowerText(name) == name;
    forall j | 0 <= j < 10 ensures SyslogNames.FAC_NAMES[j].name != name { EarlierFacility(j); }
    SyslogNames.LookupAt(SyslogNames.FAC_NAMES, name, 10);
  }

  /** "security" is a name of facility 4, whose text is "auth". */
  lemma FacilityNameExample(lib: Library)
    requires TotalOrder(lib.strcmp)
    ensures var e := Cmp(EQ, Var(FacilityText), Text("security")); var m := Message(4, 0, map[]);
      Eval(Optimize(e, lib), m, lib, ByBinarySearch) == Bool(true) && Eval(e, m, lib, ByMembership) == Bool(false)
  {
    hide Matches, FacilityMask, SyslogNames.Decode, CompareValues;
    var l, r, m := Var(FacilityText), Text("security"), Message(4, 0, map[]);
    SecurityCode();
    FacilityMaskCompares(4, EQ, 4, 0);
    VarTextComparison(l, r, m, lib);
    assert lib.strcmp("auth", "security") != 0 by { assert "auth"[0] != "security"[0]; }
  }

  lemma FirstCompared(items: seq<string>, v: Value, lib: Library)
    requires TotalOrder(lib.strcmp) && v.Str?
    ensures CompareEq(Str(First(items)), v, lib) == Bool(v.s == First(items))
    ensures NonZero(CompareNe(Str(First(items)), v, lib)) <==> v.s != First(items)
  {
    assert lib.strcmp(First(items), v.s) == 0 <==> First(items) == v.s;
  }

  /** An array on the left is moved to the right: the test becomes membership, where plain
      evaluation would compare the first element. So it is kept, its value with == and its truth
      with <>, exactly if the two agree on the text. */
  lemma ArrayOnLeft(items: seq<string>, r: Expr, m: Message, lib: Library)
    requires ValidMessage(m) && TotalOrder(lib.strcmp)
    requires !r.TextArray? && !r.Number? && Optimize(r, lib) == r && Eval(r, m, lib, ByBinarySearch).Str?
    requires Eval(r, m, lib, ByBinarySearch) == Eval(r, m, lib, ByMembership)
    ensures var t := Eval(r, m, lib, ByMembership).s; var l := TextArray(items);
      var eq, ne := Cmp(EQ, l, r), Cmp(NE, l, r);
      && Eval(Optimize(eq, lib), m, lib, ByBinarySearch) == Bool(t in items)
      && Eval(eq, m, lib, ByMembership) == Bool(t == First(items))
      && Eval(Optimize(ne, lib), m, lib, ByBinarySearch) == Bool(t !in items)
      && (NonZero(Eval(ne, m, lib, ByMembership)) <==> t != First(items))
      && (Eval(Optimize(eq, lib), m, lib, ByBinarySearch) == Eval(eq, m, lib, ByMembership)
          <==> (t in items <==> t == First(items)))
      && (NonZero(Eval(Optimize(ne, lib), m, lib, ByBinarySearch)) == NonZero(Eval(ne, m, lib, ByMembership))
          <==> (t in items <==> t == First(items)))
  {
    hide Sorted, FoldVar, FoldCode, EvalVar, Matches, CompareLike, BinarySearch;
    var t := Eval(r, m, lib, ByMembership).s;
    SearchAfterSort(lib.strcmp, t, items);
    var sorted := Sorted(lib.strcmp, items);
    ArrayFold(EQ, r, sorted);
    ArrayFold(NE, r, sorted);
    assert Optimize(Cmp(EQ, TextArray(items), r), lib) == Cmp(EQ, r, TextArray(sorted));
    assert Optimize(Cmp(NE, TextArray(items), r), lib) == Cmp(NE, r, TextArray(sorted));
    FirstCompared(items, Eval(r, m, lib, ByMembership), lib);
  }

  lemma MembershipTest(s: string, items: seq<string>, m: Message, lib: Library, how: Lookup)
    requires ValidMessage(m)
    ensures Eval(Cmp(EQ, Text(s), TextArray(items)), m, lib, how) == Bool(InArray(how, lib, s, items))
  {
  }

  lemma NegatedBits(e: Expr, m: Message, lib: Library)
    requires ValidMessage(m)
    ensures Eval(e, m, lib, ByBinarySearch) == Num(0) ==> Eval(Negate(e), m, lib, ByBinarySearch) == Num(0)
    ensures Eval(e, m, lib, ByMembership) == Num(1) ==> Eval(Negate(e), m, lib, ByMembership) == Num(-1)
  {
    hide CompareValues, EvalVar, Matches, Compute;
  }

  /** An array below a unary minus that is out of order: its first text is not found. */
  lemma UnorderedExample(x: string, y: string, m: Message, lib: Library)
    requires ValidMessage(m) && TotalOrder(lib.strcmp) && lib.strcmp(x, y) < 0
    ensures var e := Negate(Cmp(EQ, Text(y), TextArray([y, x])));
      Eval(Optimize(e, lib), m, lib, ByBinarySearch) == Num(0) && Eval(e, m, lib, ByMembership) == Num(-1)
  {
    var a := [y, x];
    assert lib.strcmp(y, x) > 0;
    assert Search(lib.strcmp, y, a, 0, 2) == Search(lib.strcmp, y, a, 2, 2);
    assert !BinarySearch(lib.strcmp, y, a);
    assert a[0] == y && y in a;
    var t := Cmp(EQ, Text(y), TextArray(a));
    MembershipTest(y, a, m, lib, ByBinarySearch);
    MembershipTest(y, a, m, lib, ByMembership);
    assert Optimize(Negate(t), lib) == Negate(t);
    NegatedBits(t, m, lib);
  }
}

/** Expressions of the script language and their evaluation (cnfexprEval). */
module Expr {
  import opened Numbers
  import opened PriMask
  import opened StringArrays
  import SyslogNames

  datatype Variable = Severity | Facility | SeverityText | FacilityText | Property(name: string)

  datatype TextOp = Contains | ContainsI | StartsWith | StartsWithI

  datatype ArithOp = Add | Sub | Mul | Div | Mod

  datatype Expr =
    | Number(val: int)
    | Text(str: string)
    | TextArray(items: seq<string>)
    | Var(v: Variable)
    | Prifilt(mask: Mask)
    | Call(name: string)
    | Cmp(cop: CmpOp, cl: Expr, cr: Expr)
    | TextTest(top: TextOp, tl: Expr, tr: Expr)
    | And(al: Expr, ar: Expr)
    | Or(ol: Expr, orr: Expr)
    | Not(nr: Expr)
    | Arith(aop: ArithOp, l: Expr, r: Expr)
    | Concat(sl: Expr, sr: Expr)
    | Negate(mr: Expr)

  /** A script value. A JSON value has a number and a text reading; `bits` is what the
      code reads when it takes the union member of a number from it. */
  datatype Value = Num(n: int) | Str(s: string) | Json(num: int, text: string, bits: int)

  datatype Message = Message(facility: nat, severity: nat, props: map<string, Value>)

  /** Facility 24 is the one given to messages with an invalid PRI. */
  predicate ValidMessage(m: Message) { m.facility <= 24 && m.severity <= 7 }

  /** Functions from outside: string comparison, the library's number conversion, the
      text tests and the script functions, which have no effects here. */
  datatype Library = Library(
    strcmp: Cmp,
    strToNum: string -> int,
    textTest: (TextOp, string, string) -> bool,
    call: (string, Message) -> Value)

  /** How == and <> look a text up in an array: what is meant, and what the code does. */
  datatype Lookup = ByMembership | ByBinarySearch

  predicate InArray(how: Lookup, lib: Library, s: string, items: seq<string>) {
    match how
    case ByMembership => s in items
    case ByBinarySearch => BinarySearch(lib.strcmp, s, items)
  }

  function Bool(b: bool): Value { Num(if b then 1 else 0) }

  function First(items: seq<string>): string { if items == [] then "" else items[0] }

  /** var2Number with its success flag. */
  function ToNumber(v: Value): Conversion {
    match v
    case Num(n) => Conversion(n, true)
    case Str(s) => Str2Num(s)
    case Json(num, _, _) => Conversion(num, true)
  }

  /** var2String. */
  function ToText(v: Value): string {
    match v
    case Num(n) => Decimal(n)
    case Str(s) => s
    case Json(_, text, _) => text
  }

  function RawNumber(v: Value): int
    requires !v.Str?
  {
    if v.Num? then v.n else v.bits
  }

  predicate NonZero(v: Value) { ToNumber(v).num != 0 }

  /** cnfexprEvalBool as its caller stores it: a 32 bit value cut to a signed char. */
  predicate Truth(v: Value) { Trunc8(Trunc32(ToNumber(v).num)) != 0 }

  function EvalVar(v: Variable, m: Message): Value {
    match v
    case Severity => Str(SyslogNames.SeverityNumber(m.severity))
    case Facility => Str(SyslogNames.FacilityNumber(m.facility))
    case SeverityText => Str(SyslogNames.SeverityText(m.severity))
    case FacilityText => Str(SyslogNames.FacilityText(m.facility))
    case Property(name) => if name in m.props then m.props[name] else Str("")
  }

  function CompareEq(lv: Value, rv: Value, lib: Library): Value {
    match lv
    case Str(s) =>
      if rv.Str? then Bool(lib.strcmp(s, rv.s) == 0)
      else if Str2Num(s).ok then Bool(Str2Num(s).num == RawNumber(rv))
      else Bool(lib.strcmp(s, ToText(rv)) == 0)
    case Json(num, text, _) =>
      if rv.Str? then Bool(lib.strcmp(text, rv.s) == 0) else Bool(num == RawNumber(rv))
    case Num(n) =>
      if rv.Str? then
        if Str2Num(rv.s).ok then Bool(n == Str2Num(rv.s).num) else Bool(lib.strcmp(rv.s, Decimal(n)) == 0)
      else Bool(n == RawNumber(rv))
  }

  /** The <> operator yields the comparison result itself where texts are compared. */
  function CompareNe(lv: Value, rv: Value, lib: Library): Value {
    match lv
    case Str(s) =>
      if rv.Str? then Num(lib.strcmp(s, rv.s))
      else if Str2Num(s).ok then Bool(Str2Num(s).num != RawNumber(rv))
      else Num(lib.strcmp(s, ToText(rv)))
    case Json(num, text, _) =>
      if rv.Str? then Num(lib.strcmp(text, rv.s)) else Bool(num != RawNumber(rv))
    case Num(n) =>
      if rv.Str? then
        if Str2Num(rv.s).ok then Bool(n != Str2Num(rv.s).num) else Num(lib.strcmp(rv.s, Decimal(n)))
      else Bool(n != RawNumber(rv))
  }

  /** eval_strcmp_like: a number difference cut to 32 bits, or a text comparison. */
  function CompareLike(lv: Value, rv: Value, lib: Library): int {
    if ToNumber(lv).ok && ToNumber(rv).ok
    then Trunc32(ToNumber(lv).num - ToNumber(rv).num)
    else lib.strcmp(ToText(lv), ToText(rv))
  }

  function Compute(op: ArithOp, a: int, b: int): int {
    match op
    case Add => Wrap64(a + b)
    case Sub => Wrap64(a - b)
    case Mul => Wrap64(a * b)
    case Div => if b == 0 then 0 else Wrap64(TruncDiv(a, b))
    case Mod => if b == 0 then 0 else Wrap64(TruncMod(a, b))
  }

  /** A comparison, given the operand values; an array on the right is searched. */
  function CompareValues(op: CmpOp, lv: Value, r: Expr, rv: Value, lib: Library, how: Lookup): Value {
    match op
    case EQ =>
      if r.TextArray? && !lv.Num? then Bool(InArray(how, lib, ToText(lv), r.items)) else CompareEq(lv, rv, lib)
    case NE =>
      if r.TextArray? && lv.Str? then Bool(!InArray(how, lib, lv.s, r.items)) else CompareNe(lv, rv, lib)
    case _ => Bool(Compare(op, CompareLike(lv, rv, lib), 0))
  }

  function Eval(e: Expr, m: Message, lib: Library, how: Lookup): Value
    requires ValidMessage(m)
  {
    match e
    case Number(v) => Num(v)
    case Text(s) => Str(s)
    case TextArray(items) => Str(First(items))
    case Var(v) => EvalVar(v, m)
    case Prifilt(mask) => Bool(Matches(mask, m.facility, m.severity))
    case Call(f) => lib.call(f, m)
    case Cmp(op, l, r) => CompareValues(op, Eval(l, m, lib, how), r, Eval(r, m, lib, how), lib, how)
    case TextTest(op, l, r) =>
      var text := ToText(Eval(l, m, lib, how));
      if r.TextArray? then Bool(exists i :: 0 <= i < |r.items| && lib.textTest(op, text, r.items[i]))
      else Bool(lib.textTest(op, text, ToText(Eval(r, m, lib, how))))
    case And(l, r) => Bool(NonZero(Eval(l, m, lib, how)) && NonZero(Eval(r, m, lib, how)))
    case Or(l, r) => Bool(NonZero(Eval(l, m, lib, how)) || NonZero(Eval(r, m, lib, how)))
    case Not(r) => Bool(!NonZero(Eval(r, m, lib, how)))
    case Arith(op, l, r) => Num(Compute(op, ToNumber(Eval(l, m, lib, how)).num, ToNumber(Eval(r, m, lib, how)).num))
    case Concat(l, r) => Str(ToText(Eval(l, m, lib, how)) + ToText(Eval(r, m, lib, how)))
    case Negate(r) => Num(Wrap64(-ToNumber(Eval(r, m, lib, how)).num))
  }
}

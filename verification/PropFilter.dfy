/** The string parser object and the decoder of property based filters such as
    :msg, !contains, "text". */
module PropFilter {
  import opened Options
  import opened SyslogNames
  import opened Template
  import opened Texts

  datatype Ret = OK | NotFound | FoundAtStringEnd | MissingTrailQuote

  predicate IsSpace(c: char) { c == ' ' || '\t' <= c <= '\r' }

  // ----- meaning of the parser methods -----

  function SpaceEnd(s: string, p: nat): (q: nat)
    requires p <= |s|
    ensures p <= q <= |s|
    decreases |s| - p
  {
    if p < |s| && IsSpace(s[p]) then SpaceEnd(s, p + 1) else p
  }

  /** The position of a character, or the end. */
  function Find(s: string, p: nat, c: char): (q: nat)
    requires p <= |s|
    ensures p <= q <= |s| && (q < |s| ==> s[q] == c)
    decreases |s| - p
  {
    if p < |s| && s[p] != c then Find(s, p + 1, c) else p
  }

  function Trimmed(s: string): (r: string)
    ensures |r| <= |s|
  {
    if s != [] && IsSpace(s[|s| - 1]) then Trimmed(s[..|s| - 1]) else s
  }

  datatype Quoted = Quoted(value: string, pos: nat)

  /** The text up to a quote that is not escaped, and where reading stops. */
  function QuotedText(s: string, p: nat, value: string): (r: Quoted)
    ensures p <= r.pos && r.pos <= (if p > |s| then p else |s| + 1)
    ensures r.pos < |s| ==> s[r.pos] == '"'
    decreases |s| + 2 - p
  {
    if p >= |s| || s[p] == '"' then Quoted(value, p)
    else if s[p] == '\\' then
      if p + 1 < |s| then QuotedText(s, p + 2, value + [s[p + 1]]) else Quoted(value, p + 2)
    else QuotedText(s, p + 1, value + [s[p]])
  }

  datatype Taken = Taken(ret: Ret, value: string, pos: nat)

  /** A quoted value behind a position: the character behind the end of the text decides where
      it ends without a quote. */
  function QuotedAt(s: string, p: nat, behind: nat -> char): Taken
    requires p <= |s|
  {
    var q := Find(s, p, '"');
    if q + 1 >= |s| then
      var c := if q < |s| then s[q] else behind(0);
      Taken(if c == '"' then FoundAtStringEnd else NotFound, [], q)
    else
      var t := QuotedText(s, q + 1, []);
      var c := if t.pos < |s| then s[t.pos] else behind(t.pos - |s|);
      if c == '"' then Taken(OK, t.value, t.pos + 1) else Taken(MissingTrailQuote, [], t.pos)
  }

  /** rsParsObj: a text and a position. The buffer ends with a byte that is never set, so
      what stands behind the text is not known. */
  class Parser {
    const text: string
    const behind: nat -> char
    var iCurrPos: nat

    constructor (text: string, behind: nat -> char)
      ensures this.text == text && this.behind == behind && iCurrPos == 0
    {
      this.text, this.behind, iCurrPos := text, behind, 0;
    }

    function CharAt(pos: nat): char { if pos < |text| then text[pos] else behind(pos - |text|) }

    method SkipAfterChar(c: char) returns (r: Ret)
      requires iCurrPos <= |text|
      modifies this`iCurrPos
      ensures iCurrPos <= |text|
      ensures var q := Find(text, old(iCurrPos), c);
        if q + 1 < |text| then r == OK && iCurrPos == q + 1
        else iCurrPos == q && r == if CharAt(q) == c then FoundAtStringEnd else NotFound
    {
      ghost var start := iCurrPos;
      while iCurrPos < |text|
        invariant iCurrPos <= |text| && Find(text, start, c) == Find(text, iCurrPos, c)
      {
        if text[iCurrPos] == c { break; }
        iCurrPos := iCurrPos + 1;
      }
      if CharAt(iCurrPos) == c {
        if iCurrPos + 1 < |text| {
          r := OK;
          iCurrPos := iCurrPos + 1;
        } else {
          r := FoundAtStringEnd;
        }
      } else {
        r := NotFound;
      }
    }

    method SkipWhitespace()
      requires iCurrPos <= |text|
      modifies this`iCurrPos
      ensures iCurrPos == SpaceEnd(text, old(iCurrPos))
    {
      ghost var start := iCurrPos;
      while iCurrPos < |text| && IsSpace(text[iCurrPos])
        invariant iCurrPos <= |text| && SpaceEnd(text, start) == SpaceEnd(text, iCurrPos)
      {
        iCurrPos := iCurrPos + 1;
      }
    }

    /** The text up to a delimiter, in lower case. */
    method TakeLower(cDelim: char) returns (s: string)
      requires iCurrPos <= |text|
      modifies this`iCurrPos
      ensures iCurrPos == Find(text, old(iCurrPos), cDelim) && s == LowerText(text[old(iCurrPos)..iCurrPos])
    {
      hide LowerText, Lower;
      ghost var p := iCurrPos;
      LowerNothing();
      assert text[p..p] == [];
      s := [];
      while iCurrPos < |text| && text[iCurrPos] != cDelim
        invariant p <= iCurrPos <= |text| && Find(text, p, cDelim) == Find(text, iCurrPos, cDelim)
        invariant s == LowerText(text[p..iCurrPos])
      {
        assert text[p..iCurrPos + 1] == text[p..iCurrPos] + [text[iCurrPos]];
        LowerStep(text[p..iCurrPos], text[iCurrPos]);
        s := s + [Lower(text[iCurrPos])];
        iCurrPos := iCurrPos + 1;
      }
    }

    /** parsDelimCStr with the trimming and the lower case that the filter decoder asks for. */
    method DelimCStr(cDelim: char) returns (r: string)
      requires iCurrPos <= |text|
      modifies this`iCurrPos
      ensures var p := SpaceEnd(text, old(iCurrPos)); var q := Find(text, p, cDelim);
        && r == Trimmed(LowerText(text[p..q]))
        && iCurrPos == (if q < |text| then q + 1 else q) <= |text|
    {
      hide LowerText, Find, SpaceEnd, Trimmed;
      SkipWhitespace();
      var s := TakeLower(cDelim);
      if iCurrPos < |text| { iCurrPos := iCurrPos + 1; }
      r := TrimTrailing(s);
    }

    /** parsQuotedCStr. The position stays within the text unless the text ends without the
        closing quote: behind a backslash at its end, or if what is behind it looks like a quote. */
    method QuotedCStr() returns (r: Ret, value: string)
      requires iCurrPos <= |text|
      modifies this`iCurrPos
      ensures QuotedAt(text, old(iCurrPos), behind) == Taken(r, value, iCurrPos)
    {
      value := [];
      r := SkipAfterChar('"');
      if r != OK { return; }
      ghost var start := iCurrPos;
      while iCurrPos < |text| && text[iCurrPos] != '"'
        invariant start <= iCurrPos <= |text| + 1
        invariant QuotedText(text, start, []) == QuotedText(text, iCurrPos, value)
        decreases |text| + 1 - iCurrPos
      {
        if text[iCurrPos] == '\\' {
          iCurrPos := iCurrPos + 1;
          if iCurrPos < |text| { value := value + [text[iCurrPos]]; }
        } else {
          value := value + [text[iCurrPos]];
        }
        iCurrPos := iCurrPos + 1;
      }
      if CharAt(iCurrPos) == '"' {
        iCurrPos := iCurrPos + 1;
      } else {
        r, value := MissingTrailQuote, [];
      }
    }
  }

  lemma LowerNothing()
    ensures LowerText([]) == []
  {
  }

  lemma LowerStep(s: string, c: char)
    ensures LowerText(s + [c]) == LowerText(s) + [Lower(c)]
  {
  }

  method TrimTrailing(s: string) returns (r: string)
    ensures r == Trimmed(s)
  {
    r := s;
    while |r| > 0 && IsSpace(r[|r| - 1])
      invariant Trimmed(s) == Trimmed(r)
    {
      r := r[..|r| - 1];
    }
  }

  // ----- the decoder -----

  datatype Operation = Contains | IsEqual | IsEmpty | StartsWith | Regex | EreRegex

  function OperationName(op: Operation): string {
    match op
    case Contains => "contains" case IsEqual => "isequal" case IsEmpty => "isempty"
    case StartsWith => "startswith" case Regex => "regex" case EreRegex => "ereregex"
  }

  function OperationOf(name: string): Option<Operation> {
    if name == "contains" then Some(Contains) else if name == "isequal" then Some(IsEqual)
    else if name == "isempty" then Some(IsEmpty) else if name == "startswith" then Some(StartsWith)
    else if name == "regex" then Some(Regex) else if name == "ereregex" then Some(EreRegex)
    else None
  }

  datatype Filter = Filter(prop: string, negated: bool, op: Operation, value: Option<string>)

  datatype Decoded = Good(filter: Filter) | InvalidProperty | InvalidOperation | BadValue(ret: Ret)

  /** What is decoded and where the parser stops. */
  datatype Outcome = Outcome(decoded: Decoded, pos: nat)

  datatype Token = Token(text: string, next: nat)

  function TokenAt(s: string, p: nat): (t: Token)
    requires p <= |s|
    ensures p <= t.next <= |s|
  {
    var start := SpaceEnd(s, p);
    var q := Find(s, start, ',');
    Token(Trimmed(LowerText(s[start..q])), if q < |s| then q + 1 else q)
  }

  function ValueAt(s: string, p: nat, behind: nat -> char, f: Filter): Outcome
    requires p <= |s|
  {
    var t := QuotedAt(s, p, behind);
    Outcome(if t.ret == OK then Good(f.(value := Some(t.value))) else BadValue(t.ret), t.pos)
  }

  function Meaning(s: string, behind: nat -> char, known: set<string>): Outcome {
    var prop := TokenAt(s, 0);
    if prop.text !in known then Outcome(InvalidProperty, prop.next)
    else
      var comp := TokenAt(s, prop.next);
      var negated := comp.text != [] && comp.text[0] == '!';
      match OperationOf(if negated then comp.text[1..] else comp.text)
      case None => Outcome(InvalidOperation, comp.next)
      case Some(op) =>
        var f := Filter(prop.text, negated, op, None);
        if op == IsEmpty then Outcome(Good(f), comp.next) else ValueAt(s, comp.next, behind, f)
  }

  /** DecodePropFilter, on the line without its leading colon. */
  method DecodePropFilter(line: string, behind: nat -> char, known: set<string>) returns (r: Decoded, pos: nat)
    requires line != []
    ensures Outcome(r, pos) == Meaning(line[1..], behind, known)
  {
    hide SpaceEnd, Find, Trimmed, LowerText, QuotedAt, OperationOf;
    var pars := new Parser(line[1..], behind);
    var prop := pars.DelimCStr(',');
    assert Token(prop, pars.iCurrPos) == TokenAt(line[1..], 0);
    if prop !in known { return InvalidProperty, pars.iCurrPos; }
    ghost var next := pars.iCurrPos;
    var comp := pars.DelimCStr(',');
    assert Token(comp, pars.iCurrPos) == TokenAt(line[1..], next);
    var isNegated, iOffset := false, 0;
    if |comp| > 0 && comp[0] == '!' { isNegated, iOffset := true, 1; }
    assert !isNegated ==> comp[iOffset..] == comp;
    var op := OperationOf(comp[iOffset..]);
    if op.None? { return InvalidOperation, pars.iCurrPos; }
    var f := Filter(prop, isNegated, op.value, None);
    if op.value != IsEmpty {
      var ret, value := pars.QuotedCStr();
      if ret != OK { return BadValue(ret), pars.iCurrPos; }
      f := f.(value := Some(value));
    }
    r, pos := Good(f), pars.iCurrPos;
  }

  // ----- the round trip -----

  predicate Spaces(w: string) { forall i :: 0 <= i < |w| ==> IsSpace(w[i]) }

  /** A trimmed lower case word without the delimiter. */
  predicate Word(s: string) {
    s != [] && !IsSpace(s[0]) && !IsSpace(s[|s| - 1]) && Free(s, ",") && LowerText(s) == s
  }

  lemma {:induction false} SpaceEndIs(text: string, p: nat, w: string)
    requires Holds(text, p, w) && Spaces(w) && p + |w| < |text| && !IsSpace(text[p + |w|])
    ensures SpaceEnd(text, p) == p + |w|
    decreases |w|
  {
    if w != [] {
      HoldsChar(text, p, w, 0);
      assert [w[0]] + w[1..] == w;
      HoldsParts(text, p, [w[0]], w[1..]);
      SpaceEndIs(text, p + 1, w[1..]);
    }
  }

  lemma {:induction false} FindIs(text: string, p: nat, s: string, c: char)
    requires Holds(text, p, s) && Free(s, [c]) && p + |s| < |text| && text[p + |s|] == c
    ensures Find(text, p, c) == p + |s|
    decreases |s|
  {
    if s != [] {
      HoldsChar(text, p, s, 0);
      assert [s[0]] + s[1..] == s;
      HoldsParts(text, p, [s[0]], s[1..]);
      FindIs(text, p + 1, s[1..], c);
    }
  }

  lemma {:induction false} TrimmedIs(s: string, w: string)
    requires s != [] && !IsSpace(s[|s| - 1]) && Spaces(w)
    ensures Trimmed(s + w) == s
    decreases |w|
  {
    if w == [] {
      assert s + w == s;
    } else {
      assert (s + w)[..|s + w| - 1] == s + w[..|w| - 1];
      TrimmedIs(s, w[..|w| - 1]);
    }
  }

  lemma LowerPadded(s: string, w: string)
    requires LowerText(s) == s && Spaces(w)
    ensures LowerText(s + w) == s + w
  {
    forall i | 0 <= i < |s + w| ensures LowerText(s + w)[i] == (s + w)[i] {
      if i < |s| { assert LowerText(s)[i] == s[i]; }
    }
  }

  lemma TokenRead(text: string, p: nat, w: string, s: string, w': string)
    requires Spaces(w) && Word(s) && Spaces(w') && Holds(text, p, w + s + w' + ",")
    ensures TokenAt(text, p) == Token(s, p + |w| + |s| + |w'| + 1)
  {
    hide Holds, SpaceEnd, Find, Trimmed, LowerText;
    HoldsParts(text, p, w + s + w', ",");
    HoldsFirst(text, p + |w + s + w'|, ',');
    assert w + s + w' == w + (s + w');
    HoldsParts(text, p, w, s + w');
    HoldsChar(text, p + |w|, s + w', 0);
    SpaceEndIs(text, p, w);
    FindIs(text, p + |w|, s + w', ',');
    HoldsSlice(text, p + |w|, s + w');
    LowerPadded(s, w');
    TrimmedIs(s, w');
  }

  lemma {:induction false} QuotedRead(text: string, p: nat, v: string, acc: string)
    requires Holds(text, p, Escape(JsonEscape, v) + "\"")
    ensures QuotedText(text, p, acc) == Quoted(acc + v, p + |Escape(JsonEscape, v)|)
    decreases |v|
  {
    var e := Escape(JsonEscape, v);
    HoldsChar(text, p, e + "\"", 0);
    if v == [] {
      assert acc + v == acc;
    } else {
      var first := if Special(JsonEscape, v[0]) then ['\\', v[0]] else [v[0]];
      var rest := Escape(JsonEscape, v[1..]);
      assert e + "\"" == first + (rest + "\"");
      HoldsParts(text, p, first, rest + "\"");
      HoldsChar(text, p, first, |first| - 1);
      QuotedRead(text, p + |first|, v[1..], acc + [v[0]]);
      assert acc + [v[0]] + v[1..] == acc + v;
    }
  }

  /** The blanks around the parts of a filter. */
  datatype Layout = Layout(beforeProp: string, behindProp: string, beforeOp: string, behindOp: string, beforeValue: string)

  predicate Blank(l: Layout) {
    && Spaces(l.beforeProp) && Spaces(l.behindProp) && Spaces(l.beforeOp) && Spaces(l.behindOp)
    && Free(l.beforeValue, "\"")
  }

  predicate Printable(f: Filter) { Word(f.prop) && f.op != IsEmpty && f.value.Some? }

  function OpText(f: Filter): string { (if f.negated then "!" else "") + OperationName(f.op) }

  function PropPart(f: Filter, l: Layout): string { l.beforeProp + f.prop + l.behindProp + "," }

  function OpPart(f: Filter, l: Layout): string { l.beforeOp + OpText(f) + l.behindOp + "," }

  function ValuePart(f: Filter, l: Layout): string
    requires f.value.Some?
  {
    l.beforeValue + "\"" + (Escape(JsonEscape, f.value.value) + "\"")
  }

  function Text(f: Filter, l: Layout): string
    requires f.value.Some?
  {
    PropPart(f, l) + OpPart(f, l) + ValuePart(f, l)
  }

  lemma OperationRead(f: Filter)
    ensures OperationOf(OperationName(f.op)) == Some(f.op)
    ensures var t := OpText(f); Word(t) && (t[0] == '!' <==> f.negated)
    ensures (if f.negated then OpText(f)[1..] else OpText(f)) == OperationName(f.op)
  {
    hide LowerText;
    var n, t := OperationName(f.op), OpText(f);
    assert f.negated ==> t[1..] == n;
    assert !f.negated ==> t == n;
    PlainName(f.op);
    PlainWord(t);
  }

  lemma PlainName(op: Operation)
    ensures var n := OperationName(op); n != [] && forall i :: 0 <= i < |n| ==> 'a' <= n[i] <= 'z'
  {
  }

  lemma PlainWord(s: string)
    requires s != [] && forall i :: 0 <= i < |s| ==> 'a' <= s[i] <= 'z' || s[i] == '!'
    ensures Word(s)
  {
    assert LowerText(s) == s;
  }

  lemma ValueRead(text: string, p: nat, behind: nat -> char, f: Filter, v: string, before: string)
    requires p <= |text| && Free(before, "\"")
    requires Holds(text, p, before + "\"" + (Escape(JsonEscape, v) + "\""))
    ensures var end := p + |before| + |Escape(JsonEscape, v)| + 2;
      end <= |text| && ValueAt(text, p, behind, f) == Outcome(Good(f.(value := Some(v))), end)
  {
    hide Holds, Find, QuotedText, Escape;
    var e := Escape(JsonEscape, v);
    HoldsParts(text, p, before + "\"", e + "\"");
    HoldsParts(text, p, before, "\"");
    HoldsFirst(text, p + |before|, '"');
    FindIs(text, p, before, '"');
    var start := p + |before| + 1;
    QuotedRead(text, start, v, []);
    assert [] + v == v;
    HoldsParts(text, start, e, "\"");
    HoldsFirst(text, start + |e|, '"');
  }

  /** Decoding a printed filter, whatever stands behind it, gives back all its parts, and the
      parser stops directly behind its closing quote. */
  lemma RoundTrip(f: Filter, l: Layout, tail: string, behind: nat -> char, known: set<string>)
    requires Printable(f) && Blank(l) && f.prop in known
    ensures Meaning(Text(f, l) + tail, behind, known) == Outcome(Good(f), |Text(f, l)|)
  {
    hide Holds, TokenAt, Escape, OperationOf, ValueAt, Word;
    var a, b, c := PropPart(f, l), OpPart(f, l), ValuePart(f, l);
    var text := a + b + c + tail;
    HoldsWhole(text);
    HoldsParts(text, 0, a + b + c, tail);
    HoldsParts(text, 0, a + b, c);
    HoldsParts(text, 0, a, b);
    TokenRead(text, 0, l.beforeProp, f.prop, l.behindProp);
    OperationRead(f);
    TokenRead(text, |a|, l.beforeOp, OpText(f), l.behindOp);
    ValueRead(text, |a| + |b|, behind, Filter(f.prop, f.negated, f.op, None), f.value.value, l.beforeValue);
  }

  // ----- where a value ends -----

  /** How many backslashes stand directly before a position, from a start on. */
  function Backslashes(s: string, from: nat, i: nat): (n: nat)
    requires from <= i <= |s|
  {
    if i > from && s[i - 1] == '\\' then 1 + Backslashes(s, from, i - 1) else 0
  }

  /** A quote with an even number of backslashes before it. */
  predicate FreeQuote(s: string, from: nat, i: nat)
    requires from <= i < |s|
  {
    s[i] == '"' && Backslashes(s, from, i) % 2 == 0
  }

  /** The first quote from a start on that is not escaped, if there is one. */
  ghost predicate ClosesAt(s: string, from: nat, i: nat) {
    from <= i < |s| && FreeQuote(s, from, i) && forall j :: from <= j < i ==> !FreeQuote(s, from, j)
  }

  ghost predicate Unclosed(s: string, from: nat) {
    forall j :: from <= j < |s| ==> !FreeQuote(s, from, j)
  }

  lemma {:induction false} ScanEnds(s: string, from: nat, p: nat, value: string)
    requires from <= p <= |s| && Backslashes(s, from, p) % 2 == 0
    requires forall j :: from <= j < p ==> !FreeQuote(s, from, j)
    ensures var t := QuotedText(s, p, value).pos;
      || ClosesAt(s, from, t)
      || (Unclosed(s, from) && t == |s| + Backslashes(s, from, |s|) % 2)
    decreases |s| - p
  {
    if p < |s| && s[p] != '"' {
      if s[p] != '\\' {
        ScanEnds(s, from, p + 1, value + [s[p]]);
      } else {
        assert Backslashes(s, from, p + 1) == Backslashes(s, from, p) + 1;
        if p + 1 < |s| { ScanEnds(s, from, p + 2, value + [s[p + 1]]); }
      }
    }
  }

  /** A value whose quotes are closed is read, whatever stands behind the text, and the parser
      stops directly behind the first quote that is not escaped. Otherwise the position leaves
      the text exactly if an odd number of backslashes ends it or the byte behind it happens to
      be a quote. */
  lemma PositionExact(s: string, p: nat, behind: nat -> char)
    requires p <= |s|
    ensures var start, r := Find(s, p, '"') + 1, QuotedAt(s, p, behind);
      && (forall i: nat :: ClosesAt(s, start, i) ==> r.ret == OK && r.pos == i + 1)
      && (r.pos > |s| <==>
            start < |s| && Unclosed(s, start) && (Backslashes(s, start, |s|) % 2 == 1 || behind(0) == '"'))
  {
    var start := Find(s, p, '"') + 1;
    if start < |s| { ScanEnds(s, start, start, []); }
  }

  lemma HeadRead(v: string, behind: nat -> char)
    ensures var s := "msg,contains," + v;
      Meaning(s, behind, {"msg"}) == ValueAt(s, 13, behind, Filter("msg", false, Contains, None))
  {
    hide Holds, TokenAt, ValueAt, Word;
    var s := "msg," + "contains," + v;
    assert s == "msg,contains," + v;
    HoldsWhole(s);
    HoldsParts(s, 0, "msg," + "contains,", v);
    HoldsParts(s, 0, "msg,", "contains,");
    PlainWord("msg");
    PlainWord("contains");
    assert "msg," == [] + "msg" + [] + "," && "contains," == [] + "contains" + [] + ",";
    TokenRead(s, 0, [], "msg", []);
    TokenRead(s, 4, [], "contains", []);
  }

  /** Both ways to leave the text: a filter line that ends with a backslash, and one without a
      closing quote if the byte behind it is a quote. */
  lemma PositionExample(behind: nat -> char)
    ensures var s := "msg,contains," + "\"a\\"; Meaning(s, behind, {"msg"}).pos > |s|
    ensures var s := "msg,contains," + "\"a"; Meaning(s, behind, {"msg"}).pos > |s| <==> behind(0) == '"'
  {
    hide Meaning;
    var a, b := "msg,contains," + "\"a\\", "msg,contains," + "\"a";
    HeadRead("\"a\\", behind);
    HeadRead("\"a", behind);
    PositionExact(a, 13, behind);
    PositionExact(b, 13, behind);
    assert a[13] == '"' && a[14] == 'a' && a[15] == '\\' && |a| == 16;
    assert Backslashes(a, 14, 15) == 0 && Backslashes(a, 14, 16) == 1;
    assert b[13] == '"' && b[14] == 'a' && |b| == 15;
    assert Backslashes(b, 14, 15) == 0;
  }
}

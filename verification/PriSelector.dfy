/** The decoder of traditional selector lists such as "mail,news.info;kern.!=debug". */
module PriSelector {
  import opened Numbers
  import opened PriMask
  import opened SyslogNames

  /** Room in the name buffer, besides its terminator. */
  const ROOM: nat := 2047

  /** Undefined stands for runs that C leaves undefined: reading behind the terminator of the
      line after trailing separators, a facility number behind the mask, a shift by more than
      an int has bits. */
  datatype Outcome = Ok | UnknownPriority | UnknownFacility | Undefined

  datatype Result = Result(outcome: Outcome, mask: Mask)

  datatype Level = Level(pri: int, single: bool, negate: bool)

  // ----- one update -----

  predicate Defined(l: Level) {
    l.pri == INTERNAL_NOPRI || 0 <= l.pri <= 30 || (l.pri == TABLE_ALLPRI && !l.single)
  }

  /** What a level does to the byte of a facility. */
  function ApplyByte(b: bv8, l: Level): bv8
    requires l.pri >= 0
  {
    if l.pri == INTERNAL_NOPRI then (if l.negate then ALLPRI else NOPRI)
    else if l.single then Change(b, Bit(l.pri), l.negate)
    else if l.pri == TABLE_ALLPRI then (if l.negate then NOPRI else ALLPRI)
    else Change(b, LessThanMask(l.pri + 1), l.negate)
  }

  function Change(b: bv8, bits: bv8, clear: bool): bv8 { if clear then AndBits(b, NotBits(bits)) else OrBits(b, bits) }

  function ApplyAll(m: Mask, l: Level): Mask
    requires l.pri >= 0
  {
    seq(ENTRIES, i requires 0 <= i < ENTRIES => ApplyByte(m[i], l))
  }

  function ApplyOne(m: Mask, f: nat, l: Level): Mask
    requires l.pri >= 0 && f < ENTRIES
  {
    m[f := ApplyByte(m[f], l)]
  }

  /** The same on the set of pairs: whether a pair with severity s is in after the update. */
  predicate Update(l: Level, s: nat, before: bool) {
    if l.pri == INTERNAL_NOPRI then l.negate
    else if l.single then (if s == l.pri then !l.negate else before)
    else if l.pri == TABLE_ALLPRI then !l.negate
    else if s <= l.pri then !l.negate
    else before
  }

  lemma ApplyByteUpdates(b: bv8, l: Level, s: nat)
    requires Defined(l) && s < 8
    ensures HasBit(ApplyByte(b, l), s) == Update(l, s, HasBit(b, s))
  {
    hide HasBit, Bit, LessThanMask, Change;
    if l.pri == INTERNAL_NOPRI || (!l.single && l.pri == TABLE_ALLPRI) {
      FullBytes(s);
    } else if l.single {
      BitOfBit(l.pri, s);
      ChangeBit(b, Bit(l.pri), l.negate, s);
    } else {
      UpToBit(l.pri, s);
      ChangeBit(b, LessThanMask(l.pri + 1), l.negate, s);
    }
  }

  lemma UpToBit(pri: nat, s: nat)
    requires s < 8
    ensures HasBit(LessThanMask(pri + 1), s) == (s <= pri)
  {
    hide HasBit;
    var k := if pri + 1 > 8 then 8 else pri + 1;
    assert LessThanMask(pri + 1) == LessThanMask(k);
    LessThanBit(k, s);
  }

  lemma ChangeBit(b: bv8, x: bv8, clear: bool, s: nat)
    requires s < 8
    ensures HasBit(Change(b, x, clear), s) == if HasBit(x, s) then !clear else HasBit(b, s)
  {
    hide HasBit, AndBits, OrBits, NotBits;
    ByteOps(x, x, s);
    ByteOps(b, x, s);
    ByteOps(b, NotBits(x), s);
  }

  method SetByte(b: bv8, l: Level) returns (r: bv8)
    requires Defined(l)
    ensures r == ApplyByte(b, l)
  {
    hide Bit, LessThanMask, AndBits, OrBits, NotBits;
    r := b;
    if l.pri == INTERNAL_NOPRI {
      if l.negate { r := ALLPRI; } else { r := NOPRI; }
    } else if l.single {
      if l.negate { r := AndBits(r, NotBits(Bit(l.pri))); } else { r := OrBits(r, Bit(l.pri)); }
    } else if l.pri == TABLE_ALLPRI {
      if l.negate { r := NOPRI; } else { r := ALLPRI; }
    } else {
      ChangeNothing(b, l.negate);
      for i2 := 0 to l.pri + 1
        invariant r == Change(b, LessThanMask(i2), l.negate)
      {
        ChangeStep(b, i2, l.negate);
        if l.negate { r := AndBits(r, NotBits(Bit(i2))); } else { r := OrBits(r, Bit(i2)); }
      }
    }
  }

  lemma ChangeNothing(b: bv8, clear: bool)
    ensures Change(b, LessThanMask(0), clear) == b
  {
  }

  lemma ChangeStep(b: bv8, k: nat, clear: bool)
    ensures Change(Change(b, LessThanMask(k), clear), Bit(k), clear) == Change(b, LessThanMask(k + 1), clear)
  {
    hide Bit, LessThanMask, Change, OrBits;
    NextMask(k);
    ChangeTwice(b, LessThanMask(k), Bit(k), clear);
  }

  lemma NextMask(k: nat)
    ensures OrBits(LessThanMask(k), Bit(k)) == LessThanMask(k + 1)
  {
  }

  lemma ChangeTwice(b: bv8, x: bv8, y: bv8, clear: bool)
    ensures Change(Change(b, x, clear), y, clear) == Change(b, OrBits(x, y), clear)
  {
  }

  // ----- the meaning of a line -----

  /** Behind the first dot, or where a tab or the end stops the search. */
  function ListEnd(text: string, q: nat): (r: nat)
    requires q <= |text|
    ensures q <= r <= |text|
    ensures q < |text| && text[q] != '\t' ==> q < r
    decreases |text| - q
  {
    if q == |text| || text[q] == '\t' then q else if text[q] == '.' then q + 1 else ListEnd(text, q + 1)
  }

  function NameEnd(text: string, q: nat, stops: string, room: nat): (r: nat)
    requires q <= |text|
    ensures q <= r <= |text|
    ensures q < |text| && text[q] !in stops && room > 0 ==> q < r
    decreases room
  {
    if q < |text| && text[q] !in stops && room > 0 then NameEnd(text, q + 1, stops, room - 1) else q
  }

  function Skip(text: string, q: nat, skipped: string): (r: nat)
    requires q <= |text|
    ensures q <= r <= |text|
    decreases |text| - q
  {
    if q < |text| && text[q] in skipped then Skip(text, q + 1, skipped) else q
  }

  /** '!' and '=' in front of a priority name. */
  function LevelOf(name: string): Level {
    var negate := name != [] && name[0] == '!';
    var n := if negate then name[1..] else name;
    var single := n != [] && n[0] == '=';
    Level(Decode(if single then n[1..] else n, PRI_NAMES), single, negate)
  }

  /** The names up to the dot, separated by commas and spaces. */
  function Facilities(text: string, p: nat, l: Level, m: Mask): Result
    requires p <= |text| && l.pri >= 0
    decreases |text| - p
  {
    if p == |text| || text[p] in "\t .;" then Result(Ok, m)
    else
      var e := NameEnd(text, p, "\t ,;.", ROOM);
      var name := text[p..e];
      if e == p then Result(UnknownFacility, m)
      else if name[0] == '*' then Facilities(text, Skip(text, e, ", "), l, ApplyAll(m, l))
      else
        var code := Decode(name, FAC_NAMES);
        if code < 0 then Result(UnknownFacility, m)
        else if code / 8 >= ENTRIES then Result(Undefined, m)
        else Facilities(text, Skip(text, e, ", "), l, ApplyOne(m, code / 8, l))
  }

  /** The selectors from a position on. */
  function Selectors(text: string, p: nat, m: Mask): Result
    requires p <= |text|
    decreases |text| - p
  {
    if p == |text| || text[p] in "\t " then Result(Ok, m)
    else
      var start := ListEnd(text, p);
      var end := NameEnd(text, start, "\t ,;", ROOM);
      var next := Skip(text, end, ",;");
      var l := LevelOf(text[start..end]);
      if end < |text| == next then Result(Undefined, m)
      else if l.pri < 0 then Result(UnknownPriority, m)
      else if !Defined(l) then Result(Undefined, m)
      else
        var r := Facilities(text, p, l, m);
        if r.outcome != Ok then r else Selectors(text, next, r.mask)
  }

  function Nothing(): Mask { seq(ENTRIES, i => NOPRI) }

  function Meaning(line: string): Result { Selectors(line, 0, Nothing()) }

  lemma NoSuchName(table: seq<Entry>, name: string)
    requires forall i :: 0 <= i < |table| ==> table[i].name != name
    ensures Lookup(table, name) == -1
  {
  }

  lemma NoEmptyNames()
    ensures Decode([], FAC_NAMES) == -1 && Decode([], PRI_NAMES) == -1
  {
    assert LowerText([]) == [];
    hide Lookup, LowerText;
    NoSuchName(FAC_NAMES, []);
    NoSuchName(PRI_NAMES, []);
  }

  // ----- the decoder -----

  method FindList(text: string, p: nat) returns (q: nat)
    requires p <= |text|
    ensures q == ListEnd(text, p)
  {
    q := p;
    while q < |text| && text[q] != '\t'
      invariant p <= q <= |text| && ListEnd(text, p) == ListEnd(text, q)
    {
      q := q + 1;
      if text[q - 1] == '.' { break; }
    }
  }

  lemma NameEndStep(text: string, q: nat, stops: string, room: nat)
    requires q <= |text|
    ensures NameEnd(text, q, stops, room)
      == if q < |text| && text[q] !in stops && room > 0 then NameEnd(text, q + 1, stops, room - 1) else q
  {
  }

  method Collect(text: string, p: nat, stops: string) returns (buf: string, q: nat)
    requires p <= |text|
    ensures q == NameEnd(text, p, stops, ROOM) && buf == text[p..q]
  {
    hide NameEnd;
    q, buf := p, [];
    while q < |text| && text[q] !in stops && |buf| < ROOM
      invariant p <= q <= |text| && buf == text[p..q] && |buf| <= ROOM
      invariant NameEnd(text, p, stops, ROOM) == NameEnd(text, q, stops, ROOM - |buf|)
    {
      assert text[p..q + 1] == text[p..q] + [text[q]];
      NameEndStep(text, q, stops, ROOM - |buf|);
      buf, q := buf + [text[q]], q + 1;
    }
    NameEndStep(text, q, stops, ROOM - |buf|);
  }

  method SkipOver(text: string, p: nat, skipped: string) returns (q: nat)
    requires p <= |text|
    ensures q == Skip(text, p, skipped)
  {
    q := p;
    while q < |text| && text[q] in skipped
      invariant p <= q <= |text| && Skip(text, p, skipped) == Skip(text, q, skipped)
    {
      q := q + 1;
    }
  }

  method DecodeLevel(name: string) returns (l: Level)
    ensures l == LevelOf(name)
  {
    var buf := name;
    var ignorepri, singlpri := false, false;
    if |buf| > 0 && buf[0] == '!' {
      ignorepri := true;
      buf := buf[1..];
    }
    if |buf| > 0 && buf[0] == '=' {
      singlpri := true;
      buf := buf[1..];
    }
    l := Level(Decode(buf, PRI_NAMES), singlpri, ignorepri);
  }

  method SetAll(pmask: array<bv8>, l: Level)
    requires pmask.Length == ENTRIES && Defined(l)
    modifies pmask
    ensures pmask[..] == ApplyAll(old(pmask[..]), l)
  {
    hide ApplyByte;
    for i := 0 to ENTRIES
      invariant forall k :: 0 <= k < i ==> pmask[k] == ApplyByte(old(pmask[k]), l)
      invariant forall k :: i <= k < ENTRIES ==> pmask[k] == old(pmask[k])
    {
      var b := SetByte(pmask[i], l);
      pmask[i] := b;
    }
  }

  method ScanFacilities(text: string, start: nat, l: Level, pmask: array<bv8>) returns (outcome: Outcome)
    requires start <= |text| && pmask.Length == ENTRIES && Defined(l)
    modifies pmask
    ensures Result(outcome, pmask[..]) == Facilities(text, start, l, old(pmask[..]))
  {
    hide NameEnd, Skip, ApplyAll, ApplyByte, Decode;
    ghost var goal := Facilities(text, start, l, pmask[..]);
    var p := start;
    while p < |text| && text[p] !in "\t .;"
      invariant p <= |text| && Facilities(text, p, l, pmask[..]) == goal
      decreases |text| - p
    {
      var from := p;
      var buf;
      buf, p := Collect(text, p, "\t ,;.");
      if |buf| > 0 && buf[0] == '*' {
        SetAll(pmask, l);
      } else {
        NoEmptyNames();
        var i := Decode(buf, FAC_NAMES);
        if i < 0 { return UnknownFacility; }
        if i / 8 >= ENTRIES { return Undefined; }
        var b := SetByte(pmask[i / 8], l);
        ghost var m: Mask := pmask[..];
        pmask[i / 8] := b;
        assert pmask[..] == ApplyOne(m, i / 8, l);
      }
      p := SkipOver(text, p, ", ");
    }
    outcome := Ok;
  }

  /** DecodePRIFilter. */
  method DecodePriFilter(pline: string, pmask: array<bv8>) returns (outcome: Outcome)
    requires pmask.Length == ENTRIES
    modifies pmask
    ensures Result(outcome, pmask[..]) == Meaning(pline)
  {
    hide ListEnd, NameEnd, Skip, Facilities, LevelOf;
    for i := 0 to ENTRIES
      invariant forall k :: 0 <= k < i ==> pmask[k] == NOPRI
    {
      pmask[i] := NOPRI;
    }
    assert pmask[..] == Nothing();
    var p := 0;
    while p < |pline| && pline[p] !in "\t "
      invariant p <= |pline| && Selectors(pline, p, pmask[..]) == Meaning(pline)
      decreases |pline| - p
    {
      var q := FindList(pline, p);
      var buf;
      ghost var start := q;
      buf, q := Collect(pline, q, "\t ,;");
      if q < |pline| {
        q := SkipOver(pline, q, ",;");
        if q == |pline| { return Undefined; }
      }
      var l := DecodeLevel(buf);
      if l.pri < 0 { return UnknownPriority; }
      if !Defined(l) { return Undefined; }
      outcome := ScanFacilities(pline, p, l, pmask);
      if outcome != Ok { return; }
      p := q;
    }
    outcome := Ok;
  }
}

/** PRI masks: one byte per facility, one bit per severity. The prifilt functions of
    the script engine, on mask values and as the array loops that compute them. */
module PriMask {

  /** LOG_NFACILITIES + 1: the 24 facilities of RFC 5424, "invld" and "mark". */
  const ENTRIES: nat := 26
  const ALLPRI: bv8 := 0xff
  const NOPRI: bv8 := 0

  type Mask = m: seq<bv8> | |m| == ENTRIES witness seq(ENTRIES, i => 0)

  datatype CmpOp = EQ | NE | LT | LE | GT | GE

  predicate Compare(op: CmpOp, a: int, b: int) {
    match op
    case EQ => a == b
    case NE => a != b
    case LT => a < b
    case LE => a <= b
    case GT => a > b
    case GE => a >= b
  }

  /** 1 << s in a byte. */
  function Bit(s: nat): (b: bv8)
  {
    match s
    case 0 => 0x01
    case 1 => 0x02
    case 2 => 0x04
    case 3 => 0x08
    case 4 => 0x10
    case 5 => 0x20
    case 6 => 0x40
    case 7 => 0x80
    case _ => 0
  }

  /** The table lessthanmasks. */
  function LessThanMask(k: nat): (b: bv8)
  {
    match k
    case 0 => 0x00
    case 1 => 0x01
    case 2 => 0x03
    case 3 => 0x07
    case 4 => 0x0f
    case 5 => 0x1f
    case 6 => 0x3f
    case 7 => 0x7f
    case _ => 0xff
  }

  predicate HasBit(b: bv8, s: nat) { b & Bit(s) != 0 }

  // The byte operations, named so that proofs above them need not look at bits.

  function NotBits(a: bv8): bv8 { !a }

  function AndBits(a: bv8, b: bv8): bv8 { a & b }

  function OrBits(a: bv8, b: bv8): bv8 { a | b }

  /** The test doFunct_Prifilt and execPRIFILT make for a message (f, s). */
  predicate Matches(m: Mask, f: nat, s: nat)
    requires f < ENTRIES
  {
    !(m[f] == NOPRI || m[f] & Bit(s) == 0)
  }

  predicate OneHot(w: bv8) {
    w == 0x01 || w == 0x02 || w == 0x04 || w == 0x08 || w == 0x10 || w == 0x20 || w == 0x40 || w == 0x80
  }

  lemma NotBit(a: bv8, w: bv8)
    requires OneHot(w)
    ensures (!a & w != 0) == (a & w == 0)
  {
  }

  lemma AndBit(a: bv8, b: bv8, w: bv8)
    requires OneHot(w)
    ensures ((a & b) & w != 0) == (a & w != 0 && b & w != 0)
  {
  }

  lemma OrBit(a: bv8, b: bv8, w: bv8)
    ensures ((a | b) & w != 0) == (a & w != 0 || b & w != 0)
  {
  }

  lemma BitIsOneHot(s: nat)
    requires s < 8
    ensures OneHot(Bit(s))
  {
  }

  lemma ByteNot(a: bv8, s: nat)
    requires s < 8
    ensures HasBit(NotBits(a), s) == !HasBit(a, s)
  {
    BitIsOneHot(s);
    hide Bit, OneHot;
    NotBit(a, Bit(s));
  }

  lemma ByteAnd(a: bv8, b: bv8, s: nat)
    requires s < 8
    ensures HasBit(AndBits(a, b), s) == (HasBit(a, s) && HasBit(b, s))
  {
    BitIsOneHot(s);
    hide Bit, OneHot;
    AndBit(a, b, Bit(s));
  }

  lemma ByteOr(a: bv8, b: bv8, s: nat)
    requires s < 8
    ensures HasBit(OrBits(a, b), s) == (HasBit(a, s) || HasBit(b, s))
  {
    var w := Bit(s);
    assert (a & w != 0) == HasBit(a, s) && (b & w != 0) == HasBit(b, s);
    hide Bit;
    OrBit(a, b, w);
  }

  lemma ByteOps(a: bv8, b: bv8, s: nat)
    requires s < 8
    ensures HasBit(NotBits(a), s) == !HasBit(a, s)
    ensures HasBit(AndBits(a, b), s) == (HasBit(a, s) && HasBit(b, s))
    ensures HasBit(OrBits(a, b), s) == (HasBit(a, s) || HasBit(b, s))
  {
    hide HasBit, NotBits, AndBits, OrBits;
    ByteNot(a, s);
    ByteAnd(a, b, s);
    ByteOr(a, b, s);
  }

  lemma FullBytes(s: nat)
    requires s < 8
    ensures HasBit(ALLPRI, s) && !HasBit(NOPRI, s)
  {
  }

  lemma MatchesIsBit(m: Mask, f: nat, s: nat)
    requires f < ENTRIES
    ensures Matches(m, f, s) == HasBit(m[f], s)
  {
  }

  lemma BitOfBit(a: nat, s: nat)
    requires s < 8
    ensures HasBit(Bit(a), s) == (a == s)
  {
  }

  lemma LessThanBit(k: nat, s: nat)
    requires s < 8 && k <= 8
    ensures HasBit(LessThanMask(k), s) == (s < k)
  {
  }

  lemma BytesEqual(a: bv8, b: bv8)
    requires forall s: nat :: s < 8 ==> HasBit(a, s) == HasBit(b, s)
    ensures a == b
  {
    assert forall s: nat :: s < 8 ==> HasBit(a, s) == HasBit(b, s);
    assert HasBit(a, 0) == HasBit(b, 0) && HasBit(a, 1) == HasBit(b, 1)
        && HasBit(a, 2) == HasBit(b, 2) && HasBit(a, 3) == HasBit(b, 3)
        && HasBit(a, 4) == HasBit(b, 4) && HasBit(a, 5) == HasBit(b, 5)
        && HasBit(a, 6) == HasBit(b, 6) && HasBit(a, 7) == HasBit(b, 7);
  }

  /** A mask is determined by the messages it matches. */
  lemma MasksEqual(a: Mask, b: Mask)
    requires forall f: nat, s: nat :: f < ENTRIES && s < 8 ==> Matches(a, f, s) == Matches(b, f, s)
    ensures a == b
  {
    forall f: nat | f < ENTRIES ensures a[f] == b[f] {
      forall s: nat | s < 8 ensures HasBit(a[f], s) == HasBit(b[f], s) {
        assert Matches(a, f, s) == Matches(b, f, s);
      }
      BytesEqual(a[f], b[f]);
    }
  }

  function Inverted(m: Mask): (r: Mask)
  {
    seq(ENTRIES, i requires 0 <= i < ENTRIES => NotBits(m[i]))
  }

  lemma InvertedMatches(m: Mask, f: nat, s: nat)
    requires f < ENTRIES && s < 8
    ensures Matches(Inverted(m), f, s) == !Matches(m, f, s)
  {
    hide HasBit, Matches, NotBits;
    MatchesIsBit(m, f, s);
    MatchesIsBit(Inverted(m), f, s);
    ByteOps(m[f], m[f], s);
  }

  function SeverityByte(sev: nat, mode: CmpOp): bv8 {
    match mode
    case EQ => Bit(sev)
    case NE => NotBits(Bit(sev))
    case LT => LessThanMask(sev)
    case LE => LessThanMask(sev + 1)
    case GT => NotBits(LessThanMask(sev + 1))
    case GE => NotBits(LessThanMask(sev))
  }

  lemma SeverityByteCompares(sev: nat, mode: CmpOp, s: nat)
    requires sev <= 7 && s < 8
    ensures HasBit(SeverityByte(sev, mode), s) == Compare(mode, s, sev)
  {
    hide HasBit, Bit, LessThanMask, NotBits;
    BitOfBit(sev, s);
    LessThanBit(sev, s);
    LessThanBit(sev + 1, s);
    ByteOps(Bit(sev), 0, s);
    ByteOps(LessThanMask(sev), 0, s);
    ByteOps(LessThanMask(sev + 1), 0, s);
  }

  /** The mask prifiltSetSeverity leaves. */
  function SeverityMask(sev: nat, mode: CmpOp): Mask { seq(ENTRIES, i => SeverityByte(sev, mode)) }

  lemma SeverityMaskCompares(sev: nat, mode: CmpOp, f: nat, s: nat)
    requires sev <= 7 && f < ENTRIES && s < 8
    ensures Matches(SeverityMask(sev, mode), f, s) == Compare(mode, s, sev)
  {
    hide HasBit, Matches, SeverityByte;
    SeverityByteCompares(sev, mode, s);
    MatchesIsBit(SeverityMask(sev, mode), f, s);
  }

  /** The mask prifiltSetFacility leaves: all severities of the facilities that compare. */
  function FacilityMask(fac: nat, mode: CmpOp): Mask {
    seq(ENTRIES, i => if Compare(mode, i, fac) then ALLPRI else NOPRI)
  }

  lemma FacilityMaskCompares(fac: nat, mode: CmpOp, f: nat, s: nat)
    requires f < ENTRIES && s < 8
    ensures Matches(FacilityMask(fac, mode), f, s) == Compare(mode, f, fac)
  {
    hide HasBit, Matches, Compare;
    FullBytes(s);
    MatchesIsBit(FacilityMask(fac, mode), f, s);
  }

  function CombinedByte(x: bv8, y: bv8, isAnd: bool): bv8 { if isAnd then AndBits(x, y) else OrBits(x, y) }

  function Combined(a: Mask, b: Mask, isAnd: bool): (r: Mask)
  {
    seq(ENTRIES, i requires 0 <= i < ENTRIES => CombinedByte(a[i], b[i], isAnd))
  }

  /** Combining two masks is the boolean combination of their tests. */
  lemma CombinedMatches(a: Mask, b: Mask, isAnd: bool, f: nat, s: nat)
    requires f < ENTRIES && s < 8
    ensures Matches(Combined(a, b, isAnd), f, s)
      == if isAnd then Matches(a, f, s) && Matches(b, f, s) else Matches(a, f, s) || Matches(b, f, s)
  {
    hide HasBit, Matches, AndBits, OrBits;
    MatchesIsBit(a, f, s);
    MatchesIsBit(b, f, s);
    MatchesIsBit(Combined(a, b, isAnd), f, s);
    ByteOps(a[f], b[f], s);
    assert Combined(a, b, isAnd)[f] == CombinedByte(a[f], b[f], isAnd);
  }

  predicate IsAlways(m: Mask) { forall i :: 0 <= i < ENTRIES ==> m[i] == ALLPRI }

  /** A mask passes every message exactly when all of its bytes are 0xff. */
  lemma AlwaysMatches(m: Mask)
    ensures IsAlways(m) <==> forall f: nat, s: nat :: f < ENTRIES && s < 8 ==> Matches(m, f, s)
  {
    if IsAlways(m) {
      forall f: nat, s: nat | f < ENTRIES && s < 8 ensures Matches(m, f, s) {
        FullBytes(s);
      }
    }
    if forall f: nat, s: nat :: f < ENTRIES && s < 8 ==> Matches(m, f, s) {
      var all: Mask := seq(ENTRIES, i => ALLPRI);
      forall f: nat, s: nat | f < ENTRIES && s < 8 ensures Matches(all, f, s) {
        FullBytes(s);
      }
      MasksEqual(m, all);
    }
  }

  // ----- the loops over pmask -----

  method PrifiltInvert(pmask: array<bv8>)
    requires pmask.Length == ENTRIES
    modifies pmask
    ensures pmask[..] == Inverted(old(pmask[..]))
  {
    for i := 0 to ENTRIES
      invariant forall k :: 0 <= k < i ==> pmask[k] == !old(pmask[k])
      invariant forall k :: i <= k < ENTRIES ==> pmask[k] == old(pmask[k])
    {
      pmask[i] := !pmask[i];
    }
  }

  method PrifiltSetSeverity(pmask: array<bv8>, sev: nat, mode: CmpOp)
    requires pmask.Length == ENTRIES && (sev <= 7 || mode == EQ || mode == NE)
    modifies pmask
    ensures pmask[..] == SeverityMask(sev, mode)
  {
    for i := 0 to ENTRIES
      invariant forall k :: 0 <= k < i ==> pmask[k] == SeverityByte(sev, if mode == NE then EQ else mode)
    {
      if mode == EQ || mode == NE {
        pmask[i] := Bit(sev);
      } else if mode == LT {
        pmask[i] := LessThanMask(sev);
      } else if mode == LE {
        pmask[i] := LessThanMask(sev + 1);
      } else if mode == GT {
        pmask[i] := !LessThanMask(sev + 1);
      } else {
        pmask[i] := !LessThanMask(sev);
      }
    }
    if mode == NE {
      PrifiltInvert(pmask);
    }
  }

  method PrifiltSetFacility(pmask: array<bv8>, fac: nat, mode: CmpOp)
    requires pmask.Length == ENTRIES && fac <= 24
    modifies pmask
    ensures pmask[..] == FacilityMask(fac, mode)
  {
    for i := 0 to ENTRIES
      invariant forall k :: 0 <= k < i ==> pmask[k] == NOPRI
    {
      pmask[i] := NOPRI;
    }
    match mode {
      case EQ =>
        pmask[fac] := ALLPRI;
      case NE =>
        pmask[fac] := ALLPRI;
        PrifiltInvert(pmask);
      case LT =>
        FillRange(pmask, 0, fac);
      case LE =>
        FillRange(pmask, 0, fac + 1);
      case GE =>
        FillRange(pmask, fac, ENTRIES);
      case GT =>
        FillRange(pmask, fac + 1, ENTRIES);
    }
  }

  method FillRange(pmask: array<bv8>, lo: nat, hi: nat)
    requires pmask.Length == ENTRIES && lo <= hi <= ENTRIES
    modifies pmask
    ensures forall k :: 0 <= k < ENTRIES ==> pmask[k] == if lo <= k < hi then ALLPRI else old(pmask[k])
  {
    for i := lo to hi
      invariant forall k :: 0 <= k < ENTRIES ==> pmask[k] == if lo <= k < i then ALLPRI else old(pmask[k])
    {
      pmask[i] := ALLPRI;
    }
  }

  method PrifiltCombine(pmask: array<bv8>, pmask2: array<bv8>, isAnd: bool)
    requires pmask.Length == ENTRIES && pmask2.Length == ENTRIES && pmask != pmask2
    modifies pmask
    ensures pmask[..] == Combined(old(pmask[..]), pmask2[..], isAnd)
  {
    hide AndBits, OrBits;
    for i := 0 to ENTRIES
      invariant forall k :: 0 <= k < i ==>
        pmask[k] == CombinedByte(old(pmask[k]), pmask2[k], isAnd)
      invariant forall k :: i <= k < ENTRIES ==> pmask[k] == old(pmask[k])
    {
      pmask[i] := if isAnd then AndBits(pmask[i], pmask2[i]) else OrBits(pmask[i], pmask2[i]);
    }
  }

  /** The test loop of cnfstmtOptimizePRIFilt. */
  method CheckAlways(pmask: array<bv8>) returns (isAlways: bool)
    requires pmask.Length == ENTRIES
    ensures isAlways <==> IsAlways(pmask[..])
  {
    isAlways := true;
    var i := 0;
    while i < ENTRIES
      invariant 0 <= i <= ENTRIES
      invariant isAlways <==> forall k :: 0 <= k < i ==> pmask[k] == ALLPRI
      decreases ENTRIES - i
    {
      if pmask[i] != ALLPRI {
        isAlways := false;
        break;
      }
      i := i + 1;
    }
  }
}

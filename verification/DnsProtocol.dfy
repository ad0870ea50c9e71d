/** All interleavings of lookups in the DNS cache: findEntry, addEntry and dnscacheLookup as
    a state machine whose steps are the accesses to the lock, the table and the counts. */
module DnsProtocol {
  import opened DnsCache

  datatype Lock = Rd | Wr

  /** Where a lookup is. `todo` are the properties still to be handed out. */
  datatype Pc =
    | Idle
    | RdWait(key: Key, todo: seq<Field>)
    | RdHeld(key: Key, todo: seq<Field>)
    | WrWait(key: Key, todo: seq<Field>)
    | WrHeld(key: Key, todo: seq<Field>)
    | WrMissing(key: Key, todo: seq<Field>)
    | Handing(key: Key, todo: seq<Field>, etry: nat, lock: Lock)
    | FailHanding(todo: seq<Field>)

  /** A slot of the hash table: the key it was inserted with and the entry it points to. */
  datatype Slot = Slot(key: Key, etry: nat)

  /** The entry a lookup decided on, and the clock's reading if it was found by a check. */
  datatype Answer = Answer(key: Key, e: Entry, checked: bool, now: int)

  datatype System = System(
    ttl: bool, ttlDefault: int,
    table: seq<Slot>, entries: seq<Cell>,
    refs: multiset<PropId>, handles: multiset<PropId>, next: PropId,
    readers: set<nat>, writer: int,
    threads: seq<Pc>, answers: seq<Answer>)

  /** What drives a step: a new request, the clock, the outcome of adding an entry, or a client
      that gives a property back. */
  datatype Input =
    | Start(key: Key, fields: seq<Field>)
    | Go(now: int)
    | Add(at: int, res: Resolution, outOfMemory: bool, insertFails: bool)
    | GiveBack(p: PropId)

  /** hashtable_search: the first slot with the same hash and an equal key, or -1. */
  function Find(table: seq<Slot>, key: Key): (i: int)
    ensures -1 <= i < |table|
    ensures i >= 0 ==> KeyEquals(key, table[i].key)
    ensures i == -1 ==> forall j :: 0 <= j < |table| ==> !KeyEquals(key, table[j].key)
  {
    if table == [] then -1
    else if Hash(key) == Hash(table[0].key) && KeyEquals(key, table[0].key) then 0
    else
      KeyEqualsMeans(key, table[0].key);
      var i := Find(table[1..], key);
      if i == -1 then -1 else i + 1
  }

  predicate Expired(s: System, e: Entry, now: int) { s.ttl && e.validUntil <= now }

  function WithPc(s: System, t: nat, pc: Pc): System
    requires t < |s.threads|
  {
    s.(threads := s.threads[t := pc])
  }

  /** The entry of a slot, if it is still in memory. */
  predicate InMemory(s: System, etry: nat) { etry < |s.entries| && s.entries[etry].Live? }

  function StepRdHeld(s: System, t: nat, key: Key, todo: seq<Field>, now: int): (s': System)
    requires t < |s.threads|
    ensures |s'.threads| == |s.threads|
  {
    var i := Find(s.table, key);
    if i >= 0 && InMemory(s, s.table[i].etry) && !Expired(s, s.entries[s.table[i].etry].e, now) then
      var etry := s.table[i].etry;
      WithPc(s, t, Handing(key, todo, etry, Rd)).(answers := s.answers + [Answer(key, s.entries[etry].e, true, now)])
    else WithPc(s, t, WrWait(key, todo)).(readers := s.readers - {t})
  }

  /** hashtable_remove and entryDestruct of the entry in slot i. */
  function Destroyed(s: System, i: nat): System
    requires i < |s.table| && InMemory(s, s.table[i].etry)
  {
    var etry := s.table[i].etry;
    s.(table := s.table[..i] + s.table[i + 1..], entries := s.entries[etry := Freed], refs := s.refs - Refs(s.entries[etry].e))
  }

  function StepWrHeld(s: System, t: nat, key: Key, todo: seq<Field>, now: int): (s': System)
    requires t < |s.threads|
    ensures |s'.threads| == |s.threads|
  {
    var i := Find(s.table, key);
    if i < 0 || !InMemory(s, s.table[i].etry) then WithPc(s, t, WrMissing(key, todo))
    else
      var etry := s.table[i].etry;
      var e := s.entries[etry].e;
      if Expired(s, e, now) then
        WithPc(Destroyed(s, i), t, WrMissing(key, todo))
      else
        WithPc(s, t, Handing(key, todo, etry, Wr)).(answers := s.answers + [Answer(key, e, true, now)])
  }

  function StepAdd(s: System, t: nat, key: Key, todo: seq<Field>, inp: Input): (s': System)
    requires t < |s.threads| && inp.Add?
    ensures |s'.threads| == |s.threads|
  {
    if inp.outOfMemory then WithPc(s, t, FailHanding(todo)).(writer := -1)
    else
      var r := ResolveAddr(key, inp.res, s.refs, s.next, inp.at + s.ttlDefault);
      var etry := |s.entries|;
      WithPc(s, t, Handing(key, todo, etry, Wr)).(
        refs := r.refs, next := r.next, entries := s.entries + [Live(r.entry)],
        table := if inp.insertFails then s.table else [Slot(key, etry)] + s.table,
        answers := s.answers + [Answer(key, r.entry, false, inp.at)])
  }

  function StepHanding(s: System, t: nat, pc: Pc): (s': System)
    requires t < |s.threads| && pc.Handing?
    ensures |s'.threads| == |s.threads|
  {
    if pc.todo == [] then
      if pc.lock == Rd then WithPc(s, t, Idle).(readers := s.readers - {t}) else WithPc(s, t, Idle).(writer := -1)
    else if !InMemory(s, pc.etry) then s
    else
      var p := Get(s.entries[pc.etry].e, pc.todo[0]);
      WithPc(s, t, Handing(pc.key, pc.todo[1..], pc.etry, pc.lock)).(refs := s.refs + multiset{p}, handles := s.handles + multiset{p})
  }

  function StepFailHanding(s: System, t: nat, todo: seq<Field>): (s': System)
    requires t < |s.threads|
    ensures |s'.threads| == |s.threads|
  {
    if todo == [] then WithPc(s, t, Idle)
    else WithPc(s, t, FailHanding(todo[1..])).(refs := s.refs + multiset{ERROR_PROP}, handles := s.handles + multiset{ERROR_PROP})
  }

  /** A step of thread t; where the lock or the input does not allow one nothing happens. */
  function Step(s: System, t: nat, inp: Input): (s': System)
    requires t < |s.threads|
    ensures |s'.threads| == |s.threads|
  {
    if inp.GiveBack? then
      if inp.p in s.handles then s.(refs := s.refs - multiset{inp.p}, handles := s.handles - multiset{inp.p}) else s
    else
      match s.threads[t]
      case Idle => if inp.Start? then WithPc(s, t, RdWait(inp.key, inp.fields)) else s
      case RdWait(key, todo) =>
        if s.writer == -1 then WithPc(s, t, RdHeld(key, todo)).(readers := s.readers + {t}) else s
      case RdHeld(key, todo) => if inp.Go? then StepRdHeld(s, t, key, todo, inp.now) else s
      case WrWait(key, todo) =>
        if s.writer == -1 && s.readers == {} then WithPc(s, t, WrHeld(key, todo)).(writer := t) else s
      case WrHeld(key, todo) => if inp.Go? then StepWrHeld(s, t, key, todo, inp.now) else s
      case WrMissing(key, todo) => if inp.Add? then StepAdd(s, t, key, todo, inp) else s
      case Handing(_, _, _, _) => StepHanding(s, t, s.threads[t])
      case FailHanding(todo) => StepFailHanding(s, t, todo)
  }

  // ----- the invariant -----

  predicate HasRead(pc: Pc) { pc.RdHeld? || (pc.Handing? && pc.lock == Rd) }
  predicate HasWrite(pc: Pc) { pc.WrHeld? || pc.WrMissing? || (pc.Handing? && pc.lock == Wr) }

  ghost predicate LockInv(s: System) {
    && (forall t: nat :: t < |s.threads| ==> (HasRead(s.threads[t]) <==> t in s.readers))
    && (forall t: nat :: t < |s.threads| ==> (HasWrite(s.threads[t]) <==> s.writer == t))
    && (s.writer != -1 ==> s.readers == {}) && -1 <= s.writer < |s.threads|
  }

  ghost predicate SlotOk(s: System, i: nat)
    requires i < |s.table|
  {
    InMemory(s, s.table[i].etry) && s.entries[s.table[i].etry].e.key == s.table[i].key
  }

  /** Slots point to entries in memory, each to its own, and no two keys are equal. */
  ghost predicate TableInv(s: System) {
    && (forall i: nat :: i < |s.table| ==> SlotOk(s, i))
    && (forall i, j :: 0 <= i < j < |s.table| ==> s.table[i].etry != s.table[j].etry)
    && (forall i, j :: 0 <= i < j < |s.table| ==> !KeyEquals(s.table[i].key, s.table[j].key))
  }

  /** Every count is what the entries in memory, the clients and the module itself hold. */
  ghost predicate RefInv(s: System) {
    s.refs == Owned(s.entries) + s.handles + multiset{ERROR_PROP}
  }

  ghost predicate ThreadInv(s: System, t: nat)
    requires t < |s.threads|
  {
    match s.threads[t]
    case Handing(key, _, etry, _) => InMemory(s, etry) && SameAddress(s.entries[etry].e.key, key)
    case WrMissing(key, _) => Find(s.table, key) == -1
    case _ => true
  }

  /** Answers are entries for the address asked for, unexpired if they came from a check. */
  ghost predicate AnswerOk(s: System, a: Answer) {
    SameAddress(a.e.key, a.key) && (a.checked ==> !Expired(s, a.e, a.now))
  }

  ghost predicate Inv(s: System) {
    && LockInv(s) && TableInv(s) && RefInv(s)
    && (forall t: nat :: t < |s.threads| ==> ThreadInv(s, t))
    && (forall i :: 0 <= i < |s.answers| ==> AnswerOk(s, s.answers[i]))
  }

  predicate Initial(s: System) {
    && s.table == [] && s.entries == [] && s.refs == multiset{ERROR_PROP} && s.handles == multiset{} && s.next == ERROR_PROP + 1
    && s.readers == {} && s.writer == -1 && s.answers == []
    && forall t :: 0 <= t < |s.threads| ==> s.threads[t] == Idle
  }

  lemma InitialInv(s: System)
    requires Initial(s)
    ensures Inv(s)
  {
    assert Owned([]) == multiset{};
  }

  // ----- every step keeps the invariant -----

  /** The same memory, table and history: only a thread moved and the lock changed. */
  lemma MovedThread(s: System, s': System, t: nat)
    requires t < |s.threads| == |s'.threads| && Inv(s) && LockInv(s') && ThreadInv(s', t)
    requires s'.table == s.table && s'.entries == s.entries && s'.refs == s.refs && s'.handles == s.handles
    requires s'.answers == s.answers && s'.ttl == s.ttl && s'.threads == s.threads[t := s'.threads[t]]
    ensures Inv(s')
  {
    forall i: nat | i < |s'.table| ensures SlotOk(s', i) { assert SlotOk(s, i); }
    forall u: nat | u < |s'.threads| ensures ThreadInv(s', u) { if u != t { assert ThreadInv(s, u); } }
    forall i | 0 <= i < |s'.answers| ensures AnswerOk(s', s'.answers[i]) { assert AnswerOk(s, s.answers[i]); }
  }

  lemma WaitSteps(s: System, t: nat, inp: Input)
    requires t < |s.threads| && Inv(s) && !inp.GiveBack?
    requires s.threads[t].Idle? || s.threads[t].RdWait? || s.threads[t].WrWait?
    ensures Inv(Step(s, t, inp))
  {
    var s' := Step(s, t, inp);
    if s' != s { MovedThread(s, s', t); }
  }

  lemma AnswerAdded(s: System, s': System, a: Answer)
    requires forall i :: 0 <= i < |s.answers| ==> AnswerOk(s, s.answers[i])
    requires s'.answers == s.answers + [a] && s'.ttl == s.ttl && AnswerOk(s', a)
    ensures forall i :: 0 <= i < |s'.answers| ==> AnswerOk(s', s'.answers[i])
  {
    forall i | 0 <= i < |s'.answers| ensures AnswerOk(s', s'.answers[i]) {
      if i < |s.answers| { assert AnswerOk(s, s.answers[i]); }
    }
  }

  /** A hit: the thread goes on with the entry found in the table. */
  lemma HitStep(s: System, t: nat, key: Key, todo: seq<Field>, i: nat, now: int, lock: Lock)
    requires t < |s.threads| && Inv(s) && i < |s.table| && KeyEquals(key, s.table[i].key)
    requires if lock == Rd then HasRead(s.threads[t]) else HasWrite(s.threads[t])
    requires InMemory(s, s.table[i].etry) && !Expired(s, s.entries[s.table[i].etry].e, now)
    ensures var etry := s.table[i].etry;
      Inv(WithPc(s, t, Handing(key, todo, etry, lock)).(answers := s.answers + [Answer(key, s.entries[etry].e, true, now)]))
  {
    hide KeyEquals, Find;
    var etry := s.table[i].etry;
    var e := s.entries[etry].e;
    var s1 := WithPc(s, t, Handing(key, todo, etry, lock));
    assert SlotOk(s, i);
    KeyEqualsMeans(key, s.table[i].key);
    MovedThread(s, s1, t);
    var s' := s1.(answers := s.answers + [Answer(key, e, true, now)]);
    AnswerAdded(s1, s', Answer(key, e, true, now));
    forall u: nat | u < |s'.threads| ensures ThreadInv(s', u) { assert ThreadInv(s1, u); }
    forall j: nat | j < |s'.table| ensures SlotOk(s', j) { assert SlotOk(s1, j); }
  }

  lemma RdHeldStep(s: System, t: nat, key: Key, todo: seq<Field>, now: int)
    requires t < |s.threads| && Inv(s) && s.threads[t] == RdHeld(key, todo)
    ensures Inv(StepRdHeld(s, t, key, todo, now))
  {
    hide TableInv, RefInv, KeyEquals, Find, AnswerOk;
    var i := Find(s.table, key);
    if i >= 0 && InMemory(s, s.table[i].etry) && !Expired(s, s.entries[s.table[i].etry].e, now) {
      HitStep(s, t, key, todo, i, now, Rd);
    } else {
      MovedThread(s, StepRdHeld(s, t, key, todo, now), t);
    }
  }

  /** With the write lock held no other thread is handing out an entry. */
  lemma WriterIsAlone(s: System, t: nat, u: nat)
    requires LockInv(s) && t < |s.threads| && u < |s.threads| && u != t && HasWrite(s.threads[t])
    ensures !s.threads[u].Handing? && !s.threads[u].WrMissing?
  {
    assert s.writer == t && t !in s.readers && u !in s.readers;
  }

  /** Dropping the slot and the entry of an expired key. */
  lemma RemoveKeepsTable(s: System, s': System, i: nat)
    requires TableInv(s) && i < |s.table| && s.table[i].etry < |s.entries|
    requires s'.table == s.table[..i] + s.table[i + 1..] && s'.entries == s.entries[s.table[i].etry := Freed]
    ensures TableInv(s')
  {
    forall j: nat | j < |s'.table| ensures SlotOk(s', j) {
      var j0 := if j < i then j else j + 1;
      assert s'.table[j] == s.table[j0] && SlotOk(s, j0);
      assert s.table[j0].etry != s.table[i].etry;
    }
    forall j, k | 0 <= j < k < |s'.table|
      ensures s'.table[j].etry != s'.table[k].etry && !KeyEquals(s'.table[j].key, s'.table[k].key)
    {
      var j0, k0 := if j < i then j else j + 1, if k < i then k else k + 1;
      assert s'.table[j] == s.table[j0] && s'.table[k] == s.table[k0];
    }
  }

  /** After the only equal key is removed a search finds none. */
  lemma RemovedIsGone(s: System, i: nat, key: Key)
    requires TableInv(s) && i < |s.table| && KeyEquals(key, s.table[i].key)
    ensures Find(s.table[..i] + s.table[i + 1..], key) == -1
  {
    hide KeyEquals, SlotOk;
    var rest := s.table[..i] + s.table[i + 1..];
    forall j | 0 <= j < |rest| ensures !KeyEquals(key, rest[j].key) {
      var j0 := if j < i then j else j + 1;
      assert rest[j] == s.table[j0];
      NotBoth(key, s.table[i].key, s.table[j0].key);
    }
  }

  /** A key is not equal to two different ones. */
  lemma NotBoth(key: Key, a: Key, b: Key)
    requires !KeyEquals(a, b) || !KeyEquals(b, a)
    ensures !(KeyEquals(key, a) && KeyEquals(key, b))
  {
    hide KeyEquals;
    KeyEqualsMeans(key, a);
    KeyEqualsMeans(key, b);
    KeyEqualsMeans(a, b);
    KeyEqualsMeans(b, a);
  }

  lemma ReleasedRefs(s: System, s': System, etry: nat)
    requires RefInv(s) && InMemory(s, etry)
    requires s'.entries == s.entries[etry := Freed] && s'.refs == s.refs - Refs(s.entries[etry].e) && s'.handles == s.handles
    ensures RefInv(s')
  {
    OwnedFree(s.entries, etry);
    var own, r := Owned(s'.entries), Refs(s.entries[etry].e);
    assert s.refs == (own + s.handles + multiset{ERROR_PROP}) + r;
  }

  lemma AddedRefs(s: System, s': System, e: Entry)
    requires RefInv(s) && s'.entries == s.entries + [Live(e)] && s'.refs == s.refs + Refs(e) && s'.handles == s.handles
    ensures RefInv(s')
  {
    OwnedAppend(s.entries, e);
  }

  lemma ExpireStep(s: System, t: nat, key: Key, todo: seq<Field>, i: nat)
    requires t < |s.threads| && Inv(s) && s.threads[t] == WrHeld(key, todo)
    requires i < |s.table| && KeyEquals(key, s.table[i].key) && InMemory(s, s.table[i].etry)
    ensures Inv(WithPc(Destroyed(s, i), t, WrMissing(key, todo)))
  {
    hide TableInv, RefInv, KeyEquals, Find, Refs;
    var s1 := Destroyed(s, i);
    var s' := WithPc(s1, t, WrMissing(key, todo));
    RemoveKeepsTable(s, s', i);
    RemovedIsGone(s, i, key);
    ReleasedRefs(s, s', s.table[i].etry);
    assert LockInv(s');
    forall u: nat | u < |s'.threads| ensures ThreadInv(s', u) {
      if u != t {
        WriterIsAlone(s, t, u);
        assert s'.threads[u] == s.threads[u];
      }
    }
    forall j | 0 <= j < |s'.answers| ensures AnswerOk(s', s'.answers[j]) { assert AnswerOk(s, s.answers[j]); }
  }

  lemma WrHeldStep(s: System, t: nat, key: Key, todo: seq<Field>, now: int)
    requires t < |s.threads| && Inv(s) && s.threads[t] == WrHeld(key, todo)
    ensures Inv(StepWrHeld(s, t, key, todo, now))
  {
    var i := Find(s.table, key);
    if i < 0 {
      MovedThread(s, StepWrHeld(s, t, key, todo, now), t);
    } else {
      assert SlotOk(s, i);
      if Expired(s, s.entries[s.table[i].etry].e, now) {
        ExpireStep(s, t, key, todo, i);
      } else {
        HitStep(s, t, key, todo, i, now, Wr);
      }
    }
  }

  lemma InsertKeepsTable(s: System, s': System, key: Key, e: Entry)
    requires TableInv(s) && Find(s.table, key) == -1 && e.key == key
    requires s'.entries == s.entries + [Live(e)]
    requires s'.table == [Slot(key, |s.entries|)] + s.table || s'.table == s.table
    ensures TableInv(s')
  {
    forall i: nat | i < |s'.table| ensures SlotOk(s', i) {
      var i0 := if s'.table == s.table then i else i - 1;
      if i0 >= 0 { assert s'.table[i] == s.table[i0] && SlotOk(s, i0); }
    }
    if s'.table != s.table {
      forall i, j | 0 <= i < j < |s'.table|
        ensures s'.table[i].etry != s'.table[j].etry && !KeyEquals(s'.table[i].key, s'.table[j].key)
      {
        assert s'.table[j] == s.table[j - 1] && SlotOk(s, j - 1);
        if i > 0 { assert s'.table[i] == s.table[i - 1]; }
      }
    }
  }

  lemma AddStep(s: System, t: nat, key: Key, todo: seq<Field>, inp: Input)
    requires t < |s.threads| && Inv(s) && s.threads[t] == WrMissing(key, todo) && inp.Add?
    ensures Inv(StepAdd(s, t, key, todo, inp))
  {
    hide TableInv, RefInv, KeyEquals, Find, Refs, ResolveAddr;
    var s' := StepAdd(s, t, key, todo, inp);
    if inp.outOfMemory {
      MovedThread(s, s', t);
    } else {
      var r := ResolveAddr(key, inp.res, s.refs, s.next, inp.at + s.ttlDefault);
      ResolveOwnership(key, inp.res, s.refs, s.next, inp.at + s.ttlDefault);
      assert ThreadInv(s, t);
      InsertKeepsTable(s, s', key, r.entry);
      AddedRefs(s, s', r.entry);
      AnswerAdded(s, s', Answer(key, r.entry, false, inp.at));
      forall u: nat | u < |s'.threads| ensures ThreadInv(s', u) {
        if u != t { WriterIsAlone(s, t, u); }
      }
    }
  }

  /** A change of the counts alone. */
  lemma CountsChanged(s: System, s': System)
    requires Inv(s) && RefInv(s') && s' == s.(refs := s'.refs, handles := s'.handles)
    ensures Inv(s')
  {
    forall i: nat | i < |s'.table| ensures SlotOk(s', i) { assert SlotOk(s, i); }
    forall u: nat | u < |s'.threads| ensures ThreadInv(s', u) { assert ThreadInv(s, u); }
    forall i | 0 <= i < |s'.answers| ensures AnswerOk(s', s'.answers[i]) { assert AnswerOk(s, s.answers[i]); }
  }

  lemma CountUp(s: System, p: PropId)
    requires Inv(s)
    ensures Inv(s.(refs := s.refs + multiset{p}, handles := s.handles + multiset{p}))
  {
    CountsChanged(s, s.(refs := s.refs + multiset{p}, handles := s.handles + multiset{p}));
  }

  lemma UnlockStep(s: System, t: nat)
    requires t < |s.threads| && Inv(s) && s.threads[t].Handing? && s.threads[t].todo == []
    ensures Inv(StepHanding(s, t, s.threads[t]))
  {
    MovedThread(s, StepHanding(s, t, s.threads[t]), t);
  }

  lemma HandOutStep(s: System, t: nat)
    requires t < |s.threads| && Inv(s) && s.threads[t].Handing? && s.threads[t].todo != []
    ensures Inv(StepHanding(s, t, s.threads[t]))
  {
    var pc := s.threads[t];
    assert ThreadInv(s, t);
    var s1 := WithPc(s, t, Handing(pc.key, pc.todo[1..], pc.etry, pc.lock));
    MovedThread(s, s1, t);
    CountUp(s1, Get(s.entries[pc.etry].e, pc.todo[0]));
  }

  lemma FailHandingStep(s: System, t: nat, todo: seq<Field>)
    requires t < |s.threads| && Inv(s) && s.threads[t] == FailHanding(todo)
    ensures Inv(StepFailHanding(s, t, todo))
  {
    if todo == [] {
      MovedThread(s, StepFailHanding(s, t, todo), t);
    } else {
      var s1 := WithPc(s, t, FailHanding(todo[1..]));
      MovedThread(s, s1, t);
      CountUp(s1, ERROR_PROP);
    }
  }

  lemma GiveBackStep(s: System, p: PropId)
    requires Inv(s) && p in s.handles
    ensures Inv(s.(refs := s.refs - multiset{p}, handles := s.handles - multiset{p}))
  {
    CountsChanged(s, s.(refs := s.refs - multiset{p}, handles := s.handles - multiset{p}));
  }

  /** Every step of every thread keeps the invariant. */
  lemma StepKeepsInv(s: System, t: nat, inp: Input)
    requires t < |s.threads| && Inv(s)
    ensures Inv(Step(s, t, inp))
  {
    if inp.GiveBack? {
      if inp.p in s.handles { GiveBackStep(s, inp.p); }
    } else {
      match s.threads[t]
      case RdHeld(key, todo) => if inp.Go? { RdHeldStep(s, t, key, todo, inp.now); }
      case WrHeld(key, todo) => if inp.Go? { WrHeldStep(s, t, key, todo, inp.now); }
      case WrMissing(key, todo) => if inp.Add? { AddStep(s, t, key, todo, inp); }
      case Handing(_, todo, _, _) => if todo == [] { UnlockStep(s, t); } else { HandOutStep(s, t); }
      case FailHanding(todo) => FailHandingStep(s, t, todo);
      case _ => WaitSteps(s, t, inp);
    }
  }

  // ----- whole runs -----

  datatype Move = Move(t: nat, inp: Input)

  function Run(s: System, moves: seq<Move>): (s': System)
    requires forall k :: 0 <= k < |moves| ==> moves[k].t < |s.threads|
    ensures |s'.threads| == |s.threads|
  {
    if moves == [] then s
    else Step(Run(s, moves[..|moves| - 1]), moves[|moves| - 1].t, moves[|moves| - 1].inp)
  }

  lemma {:induction false} RunKeepsInv(s: System, moves: seq<Move>)
    requires Initial(s) && forall k :: 0 <= k < |moves| ==> moves[k].t < |s.threads|
    ensures Inv(Run(s, moves))
  {
    if moves == [] {
      InitialInv(s);
    } else {
      RunKeepsInv(s, moves[..|moves| - 1]);
      StepKeepsInv(Run(s, moves[..|moves| - 1]), moves[|moves| - 1].t, moves[|moves| - 1].inp);
    }
  }

  /** Under every interleaving the table has at most one entry for an internet address. */
  lemma OneEntryPerAddress(s: System, moves: seq<Move>)
    requires Initial(s) && forall k :: 0 <= k < |moves| ==> moves[k].t < |s.threads|
    ensures var table := Run(s, moves).table;
      forall i, j :: 0 <= i < j < |table| && IsInet(table[i].key) ==> !SameAddress(table[i].key, table[j].key)
  {
    RunKeepsInv(s, moves);
    var table := Run(s, moves).table;
    forall i, j | 0 <= i < j < |table| && IsInet(table[i].key) ensures !SameAddress(table[i].key, table[j].key) {
      KeyEqualsMeans(table[i].key, table[j].key);
    }
  }

  /** For another family a search never succeeds. */
  lemma OtherFamilyMisses(s: System, t: nat, key: Key, todo: seq<Field>, now: int)
    requires t < |s.threads| && !IsInet(key)
    ensures StepRdHeld(s, t, key, todo, now) == WithPc(s, t, WrWait(key, todo)).(readers := s.readers - {t})
    ensures StepWrHeld(s, t, key, todo, now) == WithPc(s, t, WrMissing(key, todo))
  {
    KeyEqualsMeans(key, key);
    var i := Find(s.table, key);
    if i >= 0 { KeyEqualsMeans(key, s.table[i].key); }
  }

  lemma RunNext(s: System, moves: seq<Move>, m: Move)
    requires m.t < |s.threads| && forall k :: 0 <= k < |moves| ==> moves[k].t < |s.threads|
    ensures Run(s, moves + [m]) == Step(Run(s, moves), m.t, m.inp)
  {
    assert (moves + [m])[..|moves|] == moves;
  }

  lemma {:induction false} RunConcat(s: System, a: seq<Move>, b: seq<Move>)
    requires forall k :: 0 <= k < |a + b| ==> (a + b)[k].t < |s.threads|
    requires forall k :: 0 <= k < |a| ==> a[k].t < |s.threads|
    requires forall k :: 0 <= k < |b| ==> b[k].t < |s.threads|
    ensures Run(s, a + b) == Run(Run(s, a), b)
    decreases |b|
  {
    if b == [] {
      assert a + b == a;
    } else {
      var b', m := b[..|b| - 1], b[|b| - 1];
      assert a + b == (a + b') + [m] && b == b' + [m];
      RunConcat(s, a, b');
      RunNext(s, a + b', m);
      RunNext(Run(s, a), b', m);
    }
  }

  /** A lookup by thread 0, which no other thread disturbs: what drives its steps. */
  function LookupInput(key: Key, res: Resolution, k: nat): Input {
    if k == 0 then Start(key, []) else if k == 5 then Add(0, res, false, false) else Go(0)
  }

  function LookupMoves(key: Key, res: Resolution, k: nat): (moves: seq<Move>)
    ensures forall i :: 0 <= i < |moves| ==> moves[i].t == 0
  {
    if k == 0 then [] else LookupMoves(key, res, k - 1) + [Move(0, LookupInput(key, res, k - 1))]
  }

  lemma LookupNext(s: System, key: Key, res: Resolution, k: nat)
    requires |s.threads| > 0
    ensures Run(s, LookupMoves(key, res, k + 1)) == Step(Run(s, LookupMoves(key, res, k)), 0, LookupInput(key, res, k))
  {
    RunNext(s, LookupMoves(key, res, k), Move(0, LookupInput(key, res, k)));
  }

  predicate AtRest(s: System) { |s.threads| > 0 && s.threads[0] == Idle && s.writer == -1 && s.readers == {} }

  lemma LookupMisses(s: System, key: Key, res: Resolution)
    requires AtRest(s) && !IsInet(key)
    ensures Run(s, LookupMoves(key, res, 3)) == WithPc(s, 0, WrWait(key, []))
  {
    hide Run, LookupMoves, StepRdHeld, Find;
    NoMoves(s, key, res);
    LookupNext(s, key, res, 0);
    LookupNext(s, key, res, 1);
    LookupNext(s, key, res, 2);
    var held := WithPc(s, 0, RdHeld(key, [])).(readers := {0});
    assert Run(s, LookupMoves(key, res, 1)) == WithPc(s, 0, RdWait(key, []));
    assert Run(s, LookupMoves(key, res, 2)) == held;
    OtherFamilyMisses(held, 0, key, [], 0);
  }

  lemma NoMoves(s: System, key: Key, res: Resolution)
    ensures Run(s, LookupMoves(key, res, 0)) == s
  {
  }

  lemma LookupMissesAgain(s: System, key: Key, res: Resolution)
    requires AtRest(s) && !IsInet(key)
    ensures Run(s, LookupMoves(key, res, 5)) == WithPc(s, 0, WrMissing(key, [])).(writer := 0)
  {
    hide Run, LookupMoves, StepWrHeld, Find;
    LookupMisses(s, key, res);
    LookupNext(s, key, res, 3);
    LookupNext(s, key, res, 4);
    var held := WithPc(s, 0, WrHeld(key, [])).(writer := 0);
    assert Run(s, LookupMoves(key, res, 4)) == held;
    OtherFamilyMisses(held, 0, key, [], 0);
  }

  lemma LookupAdds(s: System, key: Key, res: Resolution)
    requires AtRest(s) && !IsInet(key)
    ensures var s' := Run(s, LookupMoves(key, res, 7));
      AtRest(s') && s'.table == [Slot(key, |s.entries|)] + s.table
  {
    hide Run, LookupMoves, ResolveAddr;
    LookupMissesAgain(s, key, res);
    LookupNext(s, key, res, 5);
    LookupNext(s, key, res, 6);
    var s5 := WithPc(s, 0, WrMissing(key, [])).(writer := 0);
    var s6 := StepAdd(s5, 0, key, [], LookupInput(key, res, 5));
    assert s6.threads[0] == Handing(key, [], |s.entries|, Wr) && s6.writer == 0 && s6.readers == {};
    assert Run(s, LookupMoves(key, res, 6)) == s6;
  }

  lemma RestsAtFirst(s: System)
    requires Initial(s) && |s.threads| > 0
    ensures Run(s, []) == s && AtRest(s) && s.table == []
  {
  }

  function Lookups(key: Key, res: Resolution, n: nat): (moves: seq<Move>)
    ensures forall k :: 0 <= k < |moves| ==> moves[k].t == 0
  {
    if n == 0 then [] else Lookups(key, res, n - 1) + LookupMoves(key, res, 7)
  }

  /** For an address of another family every lookup adds an entry: after n lookups in a row the
      table has n entries for it. */
  lemma {:induction false} OtherFamiliesPileUp(s: System, key: Key, res: Resolution, n: nat)
    requires Initial(s) && |s.threads| > 0 && !IsInet(key)
    ensures var s' := Run(s, Lookups(key, res, n));
      AtRest(s') && |s'.table| == n && forall i :: 0 <= i < n ==> s'.table[i].key == key
  {
    hide Run, LookupMoves, Initial;
    if n == 0 {
      RestsAtFirst(s);
    } else {
      OtherFamiliesPileUp(s, key, res, n - 1);
      RunConcat(s, Lookups(key, res, n - 1), LookupMoves(key, res, 7));
      LookupAdds(Run(s, Lookups(key, res, n - 1)), key, res);
    }
  }

  // ----- entries that are in memory for ever -----

  ghost predicate InTable(s: System, etry: nat) { exists i :: 0 <= i < |s.table| && s.table[i].etry == etry }

  /** The entry of a step whose insert into the table fails. */
  function FailedInsert(s: System, t: nat, inp: Input): set<nat>
    requires t < |s.threads|
  {
    if s.threads[t].WrMissing? && inp.Add? && !inp.outOfMemory && inp.insertFails then {|s.entries|} else {}
  }

  function FailedInserts(s: System, moves: seq<Move>): set<nat>
    requires forall k :: 0 <= k < |moves| ==> moves[k].t < |s.threads|
  {
    if moves == [] then {}
    else
      var before := moves[..|moves| - 1];
      FailedInserts(s, before) + FailedInsert(Run(s, before), moves[|moves| - 1].t, moves[|moves| - 1].inp)
  }

  /** What is in memory is in the table, or its insert failed, and then it is not. */
  ghost predicate Accounted(s: System, lost: set<nat>) {
    && (forall e: nat :: InMemory(s, e) <==> InTable(s, e) || e in lost)
    && (forall e: nat :: e in lost ==> !InTable(s, e))
  }

  lemma SameAccount(s: System, s': System, lost: set<nat>)
    requires Accounted(s, lost) && s'.table == s.table && s'.entries == s.entries
    ensures Accounted(s', lost)
  {
    assert forall e: nat :: InTable(s', e) == InTable(s, e) && InMemory(s', e) == InMemory(s, e);
  }

  lemma DestroyedAccount(s: System, s': System, i: nat, lost: set<nat>)
    requires TableInv(s) && Accounted(s, lost) && i < |s.table| && InMemory(s, s.table[i].etry)
    requires s'.table == s.table[..i] + s.table[i + 1..] && s'.entries == s.entries[s.table[i].etry := Freed]
    ensures Accounted(s', lost)
  {
    var gone := s.table[i].etry;
    assert InTable(s, gone);
    forall e: nat ensures InTable(s', e) <==> InTable(s, e) && e != gone {
      if InTable(s, e) && e != gone {
        var j :| 0 <= j < |s.table| && s.table[j].etry == e;
        assert s'.table[if j < i then j else j - 1].etry == e;
      }
      if InTable(s', e) {
        var j :| 0 <= j < |s'.table| && s'.table[j].etry == e;
        var j0 := if j < i then j else j + 1;
        assert s.table[j0].etry == e && j0 != i;
      }
    }
  }

  lemma AddedAccount(s: System, s': System, slot: Slot, e: Entry, fails: bool, lost: set<nat>)
    requires Accounted(s, lost) && slot.etry == |s.entries| && s'.entries == s.entries + [Live(e)]
    requires s'.table == if fails then s.table else [slot] + s.table
    ensures Accounted(s', if fails then lost + {slot.etry} else lost)
  {
    assert !InMemory(s, slot.etry);
    forall x: nat ensures InTable(s', x) <==> InTable(s, x) || (!fails && x == slot.etry) {
      if !fails && InTable(s, x) {
        var j :| 0 <= j < |s.table| && s.table[j].etry == x;
        assert s'.table[j + 1].etry == x;
      }
      if !fails { assert s'.table[0] == slot; }
    }
    forall x: nat ensures InMemory(s', x) <==> InMemory(s, x) || x == slot.etry { }
  }

  lemma StepAccount(s: System, t: nat, inp: Input, lost: set<nat>)
    requires t < |s.threads| && Inv(s) && Accounted(s, lost)
    ensures Accounted(Step(s, t, inp), lost + FailedInsert(s, t, inp))
  {
    hide Accounted, TableInv, RefInv, LockInv, ThreadInv, Find, ResolveAddr;
    var s' := Step(s, t, inp);
    var pc := s.threads[t];
    if pc.WrHeld? && inp.Go? && s'.table != s.table {
      var i := Find(s.table, pc.key);
      assert lost + {} == lost;
      DestroyedAccount(s, s', i, lost);
    } else if pc.WrMissing? && inp.Add? && !inp.outOfMemory {
      var r := ResolveAddr(pc.key, inp.res, s.refs, s.next, inp.at + s.ttlDefault);
      assert lost + {} == lost;
      AddedAccount(s, s', Slot(pc.key, |s.entries|), r.entry, inp.insertFails, lost);
    } else {
      assert lost + {} == lost;
      SameAccount(s, s', lost);
    }
  }

  lemma {:induction false} RunAccount(s: System, moves: seq<Move>)
    requires Initial(s) && forall k :: 0 <= k < |moves| ==> moves[k].t < |s.threads|
    ensures Accounted(Run(s, moves), FailedInserts(s, moves))
  {
    if moves != [] {
      var before, m := moves[..|moves| - 1], moves[|moves| - 1];
      RunAccount(s, before);
      RunKeepsInv(s, before);
      StepAccount(Run(s, before), m.t, m.inp, FailedInserts(s, before));
    }
  }

  ghost predicate AllInTable(s: System) { forall e: nat :: InMemory(s, e) ==> InTable(s, e) }

  /** These are exactly the entries that are in memory and out of reach. */
  ghost predicate AreLost(s: System, lost: set<nat>) {
    forall e: nat :: e in lost <==> InMemory(s, e) && !InTable(s, e)
  }

  lemma AccountMeans(s: System, lost: set<nat>)
    requires Accounted(s, lost)
    ensures (AllInTable(s) <==> lost == {}) && AreLost(s, lost)
  {
    hide InTable, InMemory;
    if lost != {} {
      var e :| e in lost;
      assert InMemory(s, e) && !InTable(s, e);
    }
  }

  /** Under every interleaving all entries in memory are in the table, from where they expire,
      exactly if no insert failed; one whose insert failed stays in memory for ever. */
  lemma LeaksAreFailedInserts(s: System, moves: seq<Move>)
    requires Initial(s) && forall k :: 0 <= k < |moves| ==> moves[k].t < |s.threads|
    ensures var s' := Run(s, moves);
      && (AllInTable(s') <==> FailedInserts(s, moves) == {})
      && AreLost(s', FailedInserts(s, moves))
  {
    hide Run, FailedInserts, Accounted, AllInTable, AreLost, Initial;
    RunAccount(s, moves);
    AccountMeans(Run(s, moves), FailedInserts(s, moves));
  }

  /** Under every interleaving a lookup settles on an entry for the address asked for, which
      had not expired when it was checked. */
  lemma AnswersAreRight(s: System, moves: seq<Move>)
    requires Initial(s) && forall k :: 0 <= k < |moves| ==> moves[k].t < |s.threads|
    ensures var s' := Run(s, moves); forall i :: 0 <= i < |s'.answers| ==>
      var a := s'.answers[i]; SameAddress(a.e.key, a.key) && (a.checked && s'.ttl ==> a.now < a.e.validUntil)
  {
    var s' := Run(s, moves);
    RunKeepsInv(s, moves);
    assert forall i :: 0 <= i < |s'.answers| ==> AnswerOk(s', s'.answers[i]);
  }

  /** Under every interleaving a property in a client's hands is alive, however its entry
      fared: its count is at least the number of times clients hold it. */
  lemma HandlesStayAlive(s: System, moves: seq<Move>, p: PropId)
    requires Initial(s) && forall k :: 0 <= k < |moves| ==> moves[k].t < |s.threads|
    ensures Run(s, moves).refs[p] >= Run(s, moves).handles[p]
    ensures p in Run(s, moves).handles ==> p in Run(s, moves).refs
  {
    RunKeepsInv(s, moves);
  }

  /** Once no entry in memory has it, a property lives exactly as long as clients hold it. */
  lemma FreedWithLastHandle(s: System, moves: seq<Move>, p: PropId)
    requires Initial(s) && forall k :: 0 <= k < |moves| ==> moves[k].t < |s.threads|
    requires p != ERROR_PROP && p !in Owned(Run(s, moves).entries)
    ensures Run(s, moves).refs[p] == Run(s, moves).handles[p]
  {
    RunKeepsInv(s, moves);
  }

  /** Whether a thread is about to hand a property out. */
  predicate HandsOut(s: System, t: nat) { t < |s.threads| && s.threads[t].Handing? && s.threads[t].todo != [] }

  /** Under every interleaving the property a lookup hands out next is a field of an entry for the
      address it was asked for. */
  lemma HandsOutRight(s: System, moves: seq<Move>)
    requires Initial(s) && forall k :: 0 <= k < |moves| ==> moves[k].t < |s.threads|
    ensures var s' := Run(s, moves); forall t: nat, inp: Input :: HandsOut(s', t) && !inp.GiveBack? ==>
      var pc := s'.threads[t];
      && InMemory(s', pc.etry) && SameAddress(s'.entries[pc.etry].e.key, pc.key)
      && Step(s', t, inp).handles == s'.handles + multiset{Get(s'.entries[pc.etry].e, pc.todo[0])}
  {
    hide Run;
    var s' := Run(s, moves);
    RunKeepsInv(s, moves);
    forall t: nat | HandsOut(s', t)
      ensures InMemory(s', s'.threads[t].etry) && SameAddress(s'.entries[s'.threads[t].etry].e.key, s'.threads[t].key)
    {
      assert ThreadInv(s', t);
    }
  }

  /** The property a lookup is about to add a reference to is alive at that moment. */
  lemma AddRefOnLiveProperty(s: System, moves: seq<Move>)
    requires Initial(s) && forall k :: 0 <= k < |moves| ==> moves[k].t < |s.threads|
    ensures var s' := Run(s, moves); forall t: nat :: HandsOut(s', t) ==>
      var pc := s'.threads[t]; InMemory(s', pc.etry) && Get(s'.entries[pc.etry].e, pc.todo[0]) in s'.refs
  {
    var s' := Run(s, moves);
    RunKeepsInv(s, moves);
    forall t: nat | HandsOut(s', t)
      ensures InMemory(s', s'.threads[t].etry) && Get(s'.entries[s'.threads[t].etry].e, s'.threads[t].todo[0]) in s'.refs
    {
      assert ThreadInv(s', t);
      OwnedHas(s'.entries, s'.threads[t].etry, s'.threads[t].todo[0]);
    }
  }
}

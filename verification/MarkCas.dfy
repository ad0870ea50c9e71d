/** Submitting to an action that does not write all mark messages: a compare-and-swap loop
    on the time of the last write (doSubmitToActionQNotAllMark), run by any number of
    threads in any interleaving. */
module MarkCas {

  datatype Pc = Reading | Checking | Swapping | Submitted | Dropped

  /** A submitter: its message, and where it is in the loop. `readAt` counts the writes made
      before it last read the time. */
  datatype Thread = Thread(mark: bool, gen: int, pc: Pc, lastAct: int, readAt: nat)

  datatype Write = Write(who: nat, old_: int, new_: int)

  datatype System = System(start: int, fTime: int, half: int, threads: seq<Thread>, writes: seq<Write>)

  function Step(s: System, i: nat): (s': System)
    requires i < |s.threads|
  {
    var t := s.threads[i];
    match t.pc
    case Reading => s.(threads := s.threads[i := t.(pc := Checking, lastAct := s.fTime, readAt := |s.writes|)])
    case Checking =>
      s.(threads := s.threads[i := t.(pc := if t.mark && t.gen - t.lastAct < s.half then Dropped else Swapping)])
    case Swapping =>
      if s.fTime == t.lastAct then
        s.(fTime := t.gen, threads := s.threads[i := t.(pc := Submitted)], writes := s.writes + [Write(i, t.lastAct, t.gen)])
      else s.(threads := s.threads[i := t.(pc := Reading)])
    case _ => s
  }

  /** A schedule names the thread that makes each step. */
  function Run(s: System, schedule: seq<nat>): (s': System)
    requires forall k :: 0 <= k < |schedule| ==> schedule[k] < |s.threads|
    ensures |s'.threads| == |s.threads|
  {
    if schedule == [] then s
    else Step(Run(s, schedule[..|schedule| - 1]), schedule[|schedule| - 1])
  }

  predicate Initial(s: System) {
    && s.fTime == s.start && s.writes == []
    && forall i :: 0 <= i < |s.threads| ==> s.threads[i].pc == Reading
  }

  /** Value of the time after the first k writes. */
  function After(s: System, k: nat): int
    requires k <= |s.writes|
  {
    if k == 0 then s.start else s.writes[k - 1].new_
  }

  ghost predicate OnlyWrite(s: System, i: nat, w: Write, k: nat) {
    && k < |s.writes| && s.writes[k] == w
    && forall j :: 0 <= j < |s.writes| && j != k ==> s.writes[j].who != i
  }

  /** A thread inside the loop has not written; a submitted one has written its time once; a
      dropped one never, and it is a mark too close to a time that was there. */
  ghost predicate ThreadOk(s: System, i: nat)
    requires i < |s.threads|
  {
    var t := s.threads[i];
    && (t.pc == Submitted ==> exists k: nat :: OnlyWrite(s, i, Write(i, t.lastAct, t.gen), k))
    && (t.pc != Submitted ==> forall k :: 0 <= k < |s.writes| ==> s.writes[k].who != i)
    && (t.pc != Reading && t.pc != Submitted ==> t.readAt <= |s.writes| && t.lastAct == After(s, t.readAt))
    && (t.pc == Swapping && t.mark ==> t.gen - t.lastAct >= s.half)
    && (t.pc == Dropped ==> t.mark && t.gen - t.lastAct < s.half)
  }

  /** The writes form one chain, and a mark only replaces a time at least `half` older. */
  ghost predicate WriteOk(s: System, k: nat)
    requires k < |s.writes|
  {
    var w := s.writes[k];
    && w.who < |s.threads| && w.old_ == After(s, k) && w.new_ == s.threads[w.who].gen
    && (s.threads[w.who].mark ==> w.new_ - w.old_ >= s.half)
  }

  ghost predicate Inv(s: System) {
    && s.fTime == After(s, |s.writes|)
    && (forall i: nat :: i < |s.threads| ==> ThreadOk(s, i))
    && (forall k: nat :: k < |s.writes| ==> WriteOk(s, k))
  }

  lemma StepKeepsWrites(s: System, i: nat)
    requires i < |s.threads| && Inv(s)
    ensures var s' := Step(s, i);
      s'.fTime == After(s', |s'.writes|) && forall k: nat :: k < |s'.writes| ==> WriteOk(s', k)
  {
    var s' := Step(s, i);
    assert ThreadOk(s, i);
    forall k: nat | k < |s'.writes| ensures WriteOk(s', k) {
      if k < |s.writes| {
        assert WriteOk(s, k);
        assert After(s', k) == After(s, k);
      } else {
        assert s'.writes[k] == Write(i, s.fTime, s.threads[i].gen);
        assert After(s', k) == After(s, k) == s.fTime;
      }
    }
  }

  lemma StepKeepsThread(s: System, i: nat, j: nat)
    requires i < |s.threads| && j < |s.threads| && Inv(s)
    ensures ThreadOk(Step(s, i), j)
  {
    var s' := Step(s, i);
    assert ThreadOk(s, i) && ThreadOk(s, j);
    var t, t' := s.threads[j], s'.threads[j];
    if t.pc == Submitted {
      var k: nat :| OnlyWrite(s, j, Write(j, t.lastAct, t.gen), k);
      assert OnlyWrite(s', j, Write(j, t.lastAct, t.gen), k);
    } else if t'.pc == Submitted {
      var n := |s.writes|;
      assert i == j && OnlyWrite(s', j, Write(j, t'.lastAct, t'.gen), n);
    }
    if t'.pc != Reading && t'.pc != Submitted && t.pc != Reading {
      assert After(s', t.readAt) == After(s, t.readAt);
    }
  }

  /** Every step of every thread keeps the invariant. */
  lemma StepKeepsInv(s: System, i: nat)
    requires i < |s.threads| && Inv(s)
    ensures Inv(Step(s, i))
  {
    StepKeepsWrites(s, i);
    forall j: nat | j < |s.threads| ensures ThreadOk(Step(s, i), j) {
      StepKeepsThread(s, i, j);
    }
  }

  lemma {:induction false} RunKeepsInv(s: System, schedule: seq<nat>)
    requires Initial(s) && forall k :: 0 <= k < |schedule| ==> schedule[k] < |s.threads|
    ensures Inv(Run(s, schedule))
  {
    if schedule == [] {
      assert forall i: nat :: i < |s.threads| ==> ThreadOk(s, i);
    } else {
      RunKeepsInv(s, schedule[..|schedule| - 1]);
      StepKeepsInv(Run(s, schedule[..|schedule| - 1]), schedule[|schedule| - 1]);
    }
  }

  lemma {:induction false} RunKeepsMessages(s: System, schedule: seq<nat>, i: nat)
    requires i < |s.threads| && forall k :: 0 <= k < |schedule| ==> schedule[k] < |s.threads|
    ensures var t := Run(s, schedule).threads[i]; t.mark == s.threads[i].mark && t.gen == s.threads[i].gen
    ensures Run(s, schedule).half == s.half && Run(s, schedule).start == s.start
  {
    if schedule != [] { RunKeepsMessages(s, schedule[..|schedule| - 1], i); }
  }

  /** Under every interleaving: a mark that replaced the time came at least half an interval
      after the value it replaced, whatever happened to the value since the mark read it, and
      a dropped mark never changed the time. */
  lemma MarksAreSpaced(s: System, schedule: seq<nat>, k: nat)
    requires Initial(s) && forall n :: 0 <= n < |schedule| ==> schedule[n] < |s.threads|
    requires k < |Run(s, schedule).writes|
    ensures var s' := Run(s, schedule); var w := s'.writes[k];
      && w.who < |s.threads| && w.new_ == s.threads[w.who].gen
      && w.old_ == (if k == 0 then s.start else s'.writes[k - 1].new_)
      && s'.threads[w.who].pc != Dropped
      && (s.threads[w.who].mark ==> w.new_ - w.old_ >= s.half)
  {
    var s' := Run(s, schedule);
    RunKeepsInv(s, schedule);
    assert WriteOk(s', k);
    var who := s'.writes[k].who;
    RunKeepsMessages(s, schedule, who);
    assert ThreadOk(s', who);
  }

  /** The loop is lock-free: a swap fails only if some thread has written since the read. */
  lemma FailedSwapMeansProgress(s: System, i: nat)
    requires Inv(s) && i < |s.threads| && s.threads[i].pc == Swapping && Step(s, i).threads[i].pc == Reading
    ensures s.threads[i].readAt < |s.writes|
  {
    assert ThreadOk(s, i);
  }

  // ----- the loop of one submitter -----

  /** The loop as written, against an environment that may set the time between any two of its
      steps: `seen` are the values at its reads, `atSwap` those at its swaps. */
  method Submit(mark: bool, gen: int, half: int, seen: seq<int>, atSwap: seq<int>)
    returns (finished: bool, doProcess: bool, replaced: int, rounds: nat)
    requires |seen| == |atSwap|
    ensures finished && doProcess ==> rounds < |seen| && replaced == seen[rounds] == atSwap[rounds] && (mark ==> gen - replaced >= half)
    ensures finished && !doProcess ==> rounds < |seen| && mark && gen - seen[rounds] < half
    ensures rounds <= |seen| && forall k :: 0 <= k < rounds ==> seen[k] != atSwap[k]
    ensures !finished ==> rounds == |seen|
  {
    doProcess, rounds, replaced := true, 0, 0;
    while rounds < |seen|
      invariant 0 <= rounds <= |seen| && doProcess
      invariant forall k :: 0 <= k < rounds ==> seen[k] != atSwap[k]
    {
      var lastAct := seen[rounds];
      if mark {
        if gen - lastAct < half {
          return true, false, 0, rounds;
        }
      }
      if atSwap[rounds] == lastAct {
        return true, true, lastAct, rounds;
      }
      rounds := rounds + 1;
    }
    finished := false;
  }
}

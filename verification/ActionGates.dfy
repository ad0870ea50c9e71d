/** The gates in front of an action: execution only every n-th time or once per interval
    (actionWriteToAction), mark suppression, and failover chains (doSubmitToActionQ). */
module ActionGates {
  import ActionStates

  type Ret = ActionStates.Ret

  /** Settings: n-th occurrence, its timeout, the once-only interval, mark handling. */
  datatype Config = Config(nth: int, nthTimeout: int, once: int, writeAllMarks: bool, markHalf: int)

  datatype Gate = Gate(noExec: int, lastOccur: int, lastExec: int, fTime: int)

  /** A call: the clock's reading, and the message's generation time and kind. */
  datatype Submission = Submission(now: int, gen: int, mark: bool)

  datatype Verdict = Verdict(gate: Gate, passed: bool, executed: bool)

  /** getActNow when the time of the call is asked for first. */
  function Arrive(g: Gate, now: int): Gate {
    if g.lastExec > now then g.(lastExec := 0) else g
  }

  /** The every-Nth gate. */
  function Nth(c: Config, g: Gate, now: int): (r: Verdict) {
    var g1 := if c.nthTimeout > 0 && now - g.lastOccur > c.nthTimeout then g.(noExec := 0, lastOccur := now) else g;
    if g1.noExec < c.nth - 1 then Verdict(g1.(noExec := g1.noExec + 1), false, false)
    else Verdict(g1.(noExec := 0), true, false)
  }

  /** One call of actionWriteToAction. */
  function Write(c: Config, g: Gate, s: Submission): (r: Verdict) {
    var g0 := if c.nth > 1 && c.nthTimeout > 0 then Arrive(g, s.now) else g;
    var v := if c.nth > 1 then Nth(c, g0, s.now) else Verdict(g0, true, false);
    if !v.passed then v
    else
      var g2 := Arrive(v.gate, s.now);
      if c.once > 0 && c.once + g2.lastExec > s.now then Verdict(g2, true, false)
      else Verdict(g2.(lastExec := s.now, fTime := s.gen), true, true)
  }

  /** One call of doSubmitToActionQComplex. */
  function Complex(c: Config, g: Gate, s: Submission): (r: Verdict) {
    if !c.writeAllMarks && s.mark then
      var g0 := Arrive(g, s.now);
      if s.now - g0.fTime < c.markHalf then Verdict(g0, false, false) else Write(c, g0, s)
    else Write(c, g, s)
  }

  class ActionGate {
    const c: Config
    var noExec: int
    var lastOccur: int
    var lastExec: int
    var fTime: int
    var actNow: int

    constructor (c: Config)
      ensures this.c == c && State() == Gate(0, 0, 0, 0)
    {
      this.c := c;
      noExec, lastOccur, lastExec, fTime, actNow := 0, 0, 0, 0, -1;
    }

    function State(): Gate
      reads this
    {
      Gate(noExec, lastOccur, lastExec, fTime)
    }

    /** getActNow: the clock is read once per call and cached. */
    method GetActNow(clock: int) returns (now: int)
      requires clock >= 0 && (actNow == -1 || actNow == clock)
      modifies this`actNow, this`lastExec
      ensures now == actNow == clock
      ensures State() == if old(actNow) == -1 then Arrive(old(State()), clock) else old(State())
    {
      if actNow == -1 {
        actNow := clock;
        if lastExec > actNow {
          lastExec := 0;
        }
      }
      now := actNow;
    }

    method WriteToAction(s: Submission) returns (passed: bool, executed: bool)
      requires s.now >= 0 && (actNow == -1 || (actNow == s.now && lastExec <= s.now))
      modifies this
      ensures Verdict(State(), passed, executed) == Write(c, old(State()), s)
    {
      passed, executed := true, false;
      if c.nth > 1 {
        if c.nthTimeout > 0 {
          var now := GetActNow(s.now);
          if now - lastOccur > c.nthTimeout {
            noExec := 0;
            lastOccur := now;
          }
        }
        if noExec < c.nth - 1 {
          noExec := noExec + 1;
          return false, false;
        } else {
          noExec := 0;
        }
      }
      if c.once > 0 {
        var now := GetActNow(s.now);
        if c.once + lastExec > now {
          return;
        }
      }
      lastExec := GetActNow(s.now);
      fTime := s.gen;
      executed := true;
    }

    method SubmitComplex(s: Submission) returns (passed: bool, executed: bool)
      requires s.now >= 0
      modifies this
      ensures Verdict(State(), passed, executed) == Complex(c, old(State()), s)
    {
      actNow := -1;
      if !c.writeAllMarks && s.mark {
        var now := GetActNow(s.now);
        if now - fTime < c.markHalf {
          return false, false;
        }
      }
      passed, executed := WriteToAction(s);
    }
  }

  // ----- runs of submissions -----

  /** The gate after the first k calls. */
  function At(c: Config, g: Gate, calls: seq<Submission>, k: nat): Gate
    requires k <= |calls|
  {
    if k == 0 then g else Complex(c, At(c, g, calls, k - 1), calls[k - 1]).gate
  }

  predicate Passes(c: Config, g: Gate, calls: seq<Submission>, k: nat)
    requires k < |calls|
  {
    Complex(c, At(c, g, calls, k), calls[k]).passed
  }

  predicate Executes(c: Config, g: Gate, calls: seq<Submission>, k: nat)
    requires k < |calls|
  {
    Complex(c, At(c, g, calls, k), calls[k]).executed
  }

  /** The call is not a mark message shortly after a message that was written. */
  predicate Reaches(c: Config, g: Gate, calls: seq<Submission>, k: nat)
    requires k < |calls|
  {
    c.writeAllMarks || !calls[k].mark || calls[k].now - At(c, g, calls, k).fTime >= c.markHalf
  }

  function CountPasses(c: Config, g: Gate, calls: seq<Submission>, k: nat): nat
    requires k <= |calls|
  {
    if k == 0 then 0 else CountPasses(c, g, calls, k - 1) + if Passes(c, g, calls, k - 1) then 1 else 0
  }

  function CountReached(c: Config, g: Gate, calls: seq<Submission>, k: nat): nat
    requires k <= |calls|
  {
    if k == 0 then 0 else CountReached(c, g, calls, k - 1) + if Reaches(c, g, calls, k - 1) then 1 else 0
  }

  lemma NextQuotient(k: nat, n: int)
    requires n > 1
    ensures k % n == n - 1 ==> (k + 1) % n == 0 && (k + 1) / n == k / n + 1
    ensures k % n < n - 1 ==> (k + 1) % n == k % n + 1 && (k + 1) / n == k / n
  {
    var q, r := k / n, k % n;
    assert k == q * n + r;
    if r == n - 1 {
      assert k + 1 == (q + 1) * n;
      DivUnique(k + 1, n, q + 1, 0);
    } else {
      DivUnique(k + 1, n, q, r + 1);
    }
  }

  lemma SmallMultiple(x: int, n: int)
    requires n > 0 && -n < x * n < n
    ensures x == 0
  {
    assert x >= 1 ==> (x - 1) * n >= 0;
    assert x <= -1 ==> (-1 - x) * n >= 0;
  }

  lemma DivUnique(a: int, n: int, q: int, r: int)
    requires n > 0 && a == q * n + r && 0 <= r < n
    ensures a / n == q && a % n == r
  {
    var q', r' := a / n, a % n;
    assert (q' - q) * n == q' * n - q * n == r - r';
    SmallMultiple(q' - q, n);
  }

  /** Without a timeout exactly every n-th call that is no dropped mark passes. */
  lemma {:induction false} EveryNthPasses(c: Config, g: Gate, calls: seq<Submission>, k: nat)
    requires c.nth > 1 && c.nthTimeout <= 0 && g.noExec == 0 && k <= |calls|
    ensures var n := CountReached(c, g, calls, k);
      CountPasses(c, g, calls, k) == n / c.nth && At(c, g, calls, k).noExec == n % c.nth
  {
    if k > 0 {
      EveryNthPasses(c, g, calls, k - 1);
      NextQuotient(CountReached(c, g, calls, k - 1), c.nth);
    }
  }

  /** One call's effect on the counter and on the time of the last message written. */
  lemma CallEffect(c: Config, g: Gate, calls: seq<Submission>, k: nat)
    requires k < |calls|
    ensures var a, b := At(c, g, calls, k), At(c, g, calls, k + 1);
      && b.fTime == (if Executes(c, g, calls, k) then calls[k].gen else a.fTime)
      && (Executes(c, g, calls, k) ==> Passes(c, g, calls, k))
      && (Passes(c, g, calls, k) ==> Reaches(c, g, calls, k))
      && (c.nth > 1 && Passes(c, g, calls, k) ==> b.noExec == 0 && a.noExec >= c.nth - 1)
      && (c.nth > 1 && !Passes(c, g, calls, k) && Reaches(c, g, calls, k) ==> b.noExec in {1, a.noExec + 1})
      && (!Reaches(c, g, calls, k) ==> b.noExec == a.noExec)
  {
  }

  lemma {:induction false} CounterBound(c: Config, g: Gate, calls: seq<Submission>, k: nat)
    requires c.nth > 1 && g.noExec <= 0 && k <= |calls|
    ensures At(c, g, calls, k).noExec <= CountReached(c, g, calls, k)
  {
    hide Complex, Reaches;
    if k > 0 {
      CounterBound(c, g, calls, k - 1);
      CallEffect(c, g, calls, k - 1);
    }
  }

  lemma {:induction false} CounterSince(c: Config, g: Gate, calls: seq<Submission>, j: nat, k: nat)
    requires c.nth > 1 && j < k <= |calls| && Passes(c, g, calls, j)
    ensures 0 <= At(c, g, calls, k).noExec <= CountReached(c, g, calls, k) - CountReached(c, g, calls, j + 1)
  {
    hide Complex, Passes, Reaches;
    CallEffect(c, g, calls, k - 1);
    if k > j + 1 {
      CounterSince(c, g, calls, j, k - 1);
    }
  }

  /** With or without a timeout, a call passes only after n - 1 calls that reached the gate and
      were dropped there. */
  lemma DropsBeforePass(c: Config, g: Gate, calls: seq<Submission>, k: nat)
    requires c.nth > 1 && g.noExec <= 0 && k < |calls| && Passes(c, g, calls, k)
    ensures CountReached(c, g, calls, k) >= c.nth - 1
    ensures forall j: nat :: j < k && CountReached(c, g, calls, k) - CountReached(c, g, calls, j + 1) < c.nth - 1 ==>
      !Passes(c, g, calls, j)
  {
    hide Complex, Passes, Reaches;
    CounterBound(c, g, calls, k);
    CallEffect(c, g, calls, k);
    forall j: nat | j < k && Passes(c, g, calls, j)
      ensures CountReached(c, g, calls, k) - CountReached(c, g, calls, j + 1) >= c.nth - 1
    {
      CounterSince(c, g, calls, j, k);
    }
  }

  lemma {:induction false} WrittenSince(c: Config, g: Gate, calls: seq<Submission>, i: nat, k: nat)
    requires i < k <= |calls| && Executes(c, g, calls, i)
    requires forall j :: i < j < k ==> !Executes(c, g, calls, j)
    ensures At(c, g, calls, k).fTime == calls[i].gen
  {
    hide Complex, Executes, Reaches;
    CallEffect(c, g, calls, k - 1);
    if k > i + 1 {
      WrittenSince(c, g, calls, i, k - 1);
    }
  }

  /** Unless all marks are written, a mark message gets as far as the gate exactly if the last
      message written before it is at least half the mark interval old. */
  lemma MarkAfterQuiet(c: Config, g: Gate, calls: seq<Submission>, i: nat, k: nat)
    requires !c.writeAllMarks && i < k < |calls| && calls[k].mark && Executes(c, g, calls, i)
    requires forall j :: i < j < k ==> !Executes(c, g, calls, j)
    ensures Reaches(c, g, calls, k) <==> calls[k].now - calls[i].gen >= c.markHalf
    ensures Executes(c, g, calls, k) ==> Reaches(c, g, calls, k)
  {
    hide Complex, Executes;
    WrittenSince(c, g, calls, i, k);
    CallEffect(c, g, calls, k);
  }

  ghost predicate ClockNeverBack(calls: seq<Submission>) {
    forall i, j :: 0 <= i < j < |calls| ==> calls[i].now <= calls[j].now
  }

  /** One call's effect on the time of the last execution. */
  lemma ExecEffect(c: Config, g: Gate, calls: seq<Submission>, k: nat)
    requires k < |calls|
    ensures var a, b := At(c, g, calls, k), At(c, g, calls, k + 1);
      && (Executes(c, g, calls, k) ==> b.lastExec == calls[k].now)
      && (!Executes(c, g, calls, k) ==> b.lastExec == a.lastExec || (a.lastExec > calls[k].now && b.lastExec == 0))
      && (Executes(c, g, calls, k) && c.once > 0 && a.lastExec <= calls[k].now ==> a.lastExec + c.once <= calls[k].now)
  {
  }

  lemma {:induction false} LastExecFollows(c: Config, g: Gate, calls: seq<Submission>, i: nat, k: nat)
    requires ClockNeverBack(calls) && i < k <= |calls| && Executes(c, g, calls, i)
    ensures calls[i].now <= At(c, g, calls, k).lastExec <= calls[k - 1].now
    decreases k
  {
    hide Complex, Executes;
    ExecEffect(c, g, calls, k - 1);
    if k > i + 1 {
      LastExecFollows(c, g, calls, i, k - 1);
      assert calls[k - 2].now <= calls[k - 1].now && calls[i].now <= calls[k - 1].now;
    }
  }

  /** If the clock never goes back, two executions are at least the interval apart. */
  lemma ExecutionsApart(c: Config, g: Gate, calls: seq<Submission>, i: nat, j: nat)
    requires ClockNeverBack(calls) && i < j < |calls| && Executes(c, g, calls, i) && Executes(c, g, calls, j)
    ensures calls[j].now - calls[i].now >= c.once
  {
    hide Complex, Executes;
    LastExecFollows(c, g, calls, i, j);
    ExecEffect(c, g, calls, j);
    assert calls[j - 1].now <= calls[j].now && calls[i].now <= calls[j].now;
  }

  /** If it does go back, they need not be. */
  lemma ClockBackExample()
    ensures var c := Config(0, 0, 60, true, 0); var g := Gate(0, 0, 0, 0);
      var calls := [Submission(100, 0, false), Submission(70, 0, false)];
      Executes(c, g, calls, 0) && Executes(c, g, calls, 1) && calls[1].now - calls[0].now < c.once
  {
    var c, g := Config(0, 0, 60, true, 0), Gate(0, 0, 0, 0);
    var calls := [Submission(100, 0, false), Submission(70, 0, false)];
    assert At(c, g, calls, 1) == Complex(c, At(c, g, calls, 0), calls[0]).gate == Gate(0, 0, 100, 0);
  }

  // ----- failover -----

  predicate Failing(r: Ret) { r.Suspended? || r.ActionFailed? }

  class ExecState {
    var prevWasSuspended: bool

    constructor ()
      ensures !prevWasSuspended
    {
      prevWasSuspended := false;
    }

    /** doSubmitToActionQ; `ret` is what processing the message yields if it comes to that. */
    method Submit(execWhenPrevSusp: bool, ret: Ret) returns (ran: bool)
      modifies this
      ensures ran == (!execWhenPrevSusp || old(prevWasSuspended))
      ensures prevWasSuspended == if ran then Failing(ret) else old(prevWasSuspended)
    {
      if execWhenPrevSusp && !prevWasSuspended {
        return false;
      }
      prevWasSuspended := Failing(ret);
      ran := true;
    }

    /** A failover chain after an unconditional action: exactly the actions up to and including
        the first that is neither suspended nor failed are executed. */
    method FailoverChain(rets: seq<Ret>) returns (ran: seq<bool>)
      requires |rets| > 0
      modifies this
      ensures |ran| == |rets|
      ensures forall i :: 0 <= i < |rets| ==> (ran[i] <==> forall j :: 0 <= j < i ==> Failing(rets[j]))
      ensures prevWasSuspended <==> forall j :: 0 <= j < |rets| ==> Failing(rets[j])
    {
      var first := Submit(false, rets[0]);
      ran := [first];
      var i := 1;
      while i < |rets|
        invariant 1 <= i <= |rets| && |ran| == i
        invariant forall k :: 0 <= k < i ==> (ran[k] <==> forall j :: 0 <= j < k ==> Failing(rets[j]))
        invariant prevWasSuspended <==> forall j :: 0 <= j < i ==> Failing(rets[j])
      {
        var r := Submit(true, rets[i]);
        ran := ran + [r];
        i := i + 1;
      }
    }
  }
}

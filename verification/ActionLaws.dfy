/** What holds of the action state machine over whole calls and runs: bounds and history that
    every call keeps, when retries end, how long suspensions last, and what the plugin took. */
module ActionLaws {
  import opened ActionStates

  // ----- messages that are settled -----

  ghost predicate Holds(msgs: seq<Msg>, id: nat) { exists i :: 0 <= i < |msgs| && msgs[i].id == id }

  /** The event settles the message: the engine takes it for committed, or hands it to the error
      file. */
  ghost predicate Settles(e: Event, id: nat) {
    match e
    case Attempt(msgs, ret) => ret == Ok && Holds(msgs, id)
    case ErrorFile(lost) => Holds(lost, id)
    case Asked(_, _) => false
  }

  ghost function Settlements(log: seq<Event>, id: nat): nat {
    if log == [] then 0
    else Settlements(log[..|log| - 1], id) + if Settles(log[|log| - 1], id) then 1 else 0
  }

  lemma Appended(log: seq<Event>, e: Event, id: nat)
    ensures Settlements(log + [e], id) == Settlements(log, id) + if Settles(e, id) then 1 else 0
  {
    assert (log + [e])[..|log|] == log;
  }

  /** The log went on without settling a message. */
  ghost predicate Unsettled(before: seq<Event>, after: seq<Event>) {
    before <= after && forall id :: Settlements(after, id) == Settlements(before, id)
  }

  lemma AskedUnsettled(log: seq<Event>, call: Call, code: Ret)
    ensures Unsettled(log, log + [Asked(call, code)])
  {
    forall id ensures Settlements(log + [Asked(call, code)], id) == Settlements(log, id) {
      Appended(log, Asked(call, code), id);
    }
  }

  // ----- suspension times -----

  /** The interval times 1, 2 or 3, up to the maximum. */
  predicate Proper(d: int, c: Config) {
    d in {Capped(c.interval, c.intervalMax), Capped(2 * c.interval, c.intervalMax), Capped(3 * c.interval, c.intervalMax)}
  }

  lemma DurationFactor(c: Config, nbr: nat)
    requires nbr <= 20
    ensures Proper(Duration(c.interval, c.intervalMax, nbr), c)
  {
    var k := nbr / 10 + 1;
    assert k == 1 || k == 2 || k == 3;
  }

  /** Suspensions get longer with the retry number exactly when the interval is not negative. */
  lemma DurationMonotone(interval: int, max: int)
    ensures (forall a: nat, b: nat :: a <= b <= 20 ==> Duration(interval, max, a) <= Duration(interval, max, b))
      <==> interval >= 0
  {
    if interval >= 0 {
      forall a: nat, b: nat | a <= b <= 20 ensures Duration(interval, max, a) <= Duration(interval, max, b) {
        var ka, kb := a / 10 + 1, b / 10 + 1;
        assert ka <= kb && interval * ka <= interval * kb;
      }
    } else {
      assert Duration(interval, max, 0) == interval;
      assert Duration(interval, max, 10) == interval * 2;
    }
  }

  /** The retry number after k suspensions in a row. */
  function RetryNumber(k: nat): nat { if k < 20 then k else 20 }

  /** The times of suspensions in a row since the retry number was last reset. */
  ghost predicate IsBackoff(times: seq<int>, c: Config) {
    forall i: nat :: i < |times| ==> times[i] == Duration(c.interval, c.intervalMax, RetryNumber(i))
  }

  ghost predicate NeverShrinks(times: seq<int>) {
    forall i, j :: 0 <= i < j < |times| ==> times[i] <= times[j]
  }

  // ----- what every call keeps -----

  /** The counters are bounded, every suspension lasted one of the three times, and the retry
      number counts the suspensions since it was last reset, each of which lasted as long as
      the number then said. */
  ghost predicate Inv(c: Config, w: World) {
    && w.resumeInRow <= 10 && (w.resumeInRow == 10 ==> w.state == Rtry)
    && w.nbrResRtry == RetryNumber(|w.backoff|)
    && (forall i :: 0 <= i < |w.suspensions| ==> Proper(w.suspensions[i], c))
    && |w.backoff| <= |w.suspensions| && w.suspensions[|w.suspensions| - |w.backoff|..] == w.backoff
    && IsBackoff(w.backoff, c)
  }

  function Fresh(replies: seq<Ret>): World {
    World(0, false, Rdy, 0, 0, false, replies, 0, [], [], [])
  }

  /** Until the retry number is reset suspensions do not get shorter. */
  lemma BackoffNeverShrinks(c: Config, w: World)
    requires Inv(c, w) && c.interval >= 0
    ensures NeverShrinks(w.suspensions[|w.suspensions| - |w.backoff|..])
  {
    DurationMonotone(c.interval, c.intervalMax);
  }

  /** The plugin said that the action can be resumed. */
  ghost predicate Resumed(a: World, b: World) {
    exists k :: |a.log| <= k < |b.log| && b.log[k] == Asked(TryResume, Ok)
  }

  /** The plugin's answers, in the order of its calls. */
  ghost function Answers(log: seq<Event>): seq<Ret> {
    if log == [] then []
    else Answers(log[..|log| - 1]) + if log[|log| - 1].Asked? then [log[|log| - 1].code] else []
  }

  lemma AnswersNext(log: seq<Event>, e: Event)
    ensures Answers(log + [e]) == Answers(log) + if e.Asked? then [e.code] else []
  {
    assert (log + [e])[..|log|] == log;
  }

  /** Nothing that happened is forgotten; every answer of the plugin was used for one call, in
      order; suspensions in a row go on being counted unless the plugin resumed in between;
      the time to resume moves only with a suspension; and the action is disabled only, and
      always, because the plugin said so. */
  ghost predicate Continues(a: World, b: World) {
    && a.log <= b.log && a.suspensions <= b.suspensions && (a.backoff <= b.backoff || Resumed(a, b))
    && Answers(b.log) + b.replies == Answers(a.log) + a.replies
    && (b.suspensions == a.suspensions ==> b.resumeAt == a.resumeAt)
    && (b.disabled ==> a.disabled || Disabling(a, b))
    && (a.disabled || StrictlyDisabling(a, b) ==> b.disabled)
  }

  ghost predicate Disabling(a: World, b: World) {
    exists k :: |a.log| <= k < |b.log| && b.log[k].Asked? && b.log[k].code == DisableAction
  }

  /** The answer to a call other than a resumption, where every tenth answer is overruled. */
  ghost predicate StrictlyDisabling(a: World, b: World) {
    exists k :: |a.log| <= k < |b.log| && b.log[k].Asked? && b.log[k].code == DisableAction && b.log[k].call != TryResume
  }

  ghost predicate Kept(c: Config, a: World, b: World) {
    (Inv(c, a) ==> Inv(c, b)) && Continues(a, b) && Unsettled(a.log, b.log)
  }

  lemma ContinuesTrans(a: World, b: World, d: World)
    requires Continues(a, b) && Continues(b, d)
    ensures Continues(a, d)
  {
    if Resumed(a, b) {
      var k :| |a.log| <= k < |b.log| && b.log[k] == Asked(TryResume, Ok);
      assert d.log[k] == Asked(TryResume, Ok);
    }
    if Resumed(b, d) {
      var k :| |b.log| <= k < |d.log| && d.log[k] == Asked(TryResume, Ok);
      assert |a.log| <= k;
    }
    DisablingTrans(a, b, d);
  }

  lemma DisablingTrans(a: World, b: World, d: World)
    requires a.log <= b.log <= d.log
    ensures Disabling(a, b) || Disabling(b, d) ==> Disabling(a, d)
    ensures StrictlyDisabling(a, d) ==> StrictlyDisabling(a, b) || StrictlyDisabling(b, d)
  {
    if Disabling(a, b) {
      var k :| |a.log| <= k < |b.log| && b.log[k].Asked? && b.log[k].code == DisableAction;
      assert d.log[k] == b.log[k];
    } else if Disabling(b, d) {
      var k :| |b.log| <= k < |d.log| && d.log[k].Asked? && d.log[k].code == DisableAction;
      assert |a.log| <= k;
    }
    if StrictlyDisabling(a, d) {
      var k :| |a.log| <= k < |d.log| && d.log[k].Asked? && d.log[k].code == DisableAction && d.log[k].call != TryResume;
      if k < |b.log| { assert b.log[k] == d.log[k]; }
    }
  }

  lemma KeptTrans(c: Config, a: World, b: World, d: World)
    requires Kept(c, a, b) && Kept(c, b, d)
    ensures Kept(c, a, d)
  {
    hide Inv;
    ContinuesTrans(a, b, d);
  }

  ghost predicate SamePast(a: World, b: World) {
    && b.suspensions == a.suspensions && b.backoff == a.backoff && b.nbrResRtry == a.nbrResRtry
    && b.resumeAt == a.resumeAt
  }

  ghost predicate StillBounded(c: Config, a: World, b: World) {
    Inv(c, a) ==> b.resumeInRow <= 10 && (b.resumeInRow == 10 ==> b.state == Rtry)
  }

  /** One call of the plugin, and what is made of its answer. */
  lemma AskedKept(c: Config, a: World, b: World, call: Call, code: Ret)
    requires a.replies != [] && code == a.replies[0] && b.replies == a.replies[1..]
    requires b.log == a.log + [Asked(call, code)] && SamePast(a, b) && StillBounded(c, a, b)
    requires b.disabled == (a.disabled || code == DisableAction) || (call == TryResume && b.disabled == a.disabled)
    ensures Kept(c, a, b)
  {
    AskedUnsettled(a.log, call, code);
    AnswersNext(a.log, Asked(call, code));
    assert a.replies == [code] + b.replies;
    assert b.log[|a.log|] == Asked(call, code);
  }

  /** Changes without a call. */
  lemma StateKept(c: Config, a: World, b: World)
    requires b.log == a.log && b.replies == a.replies && SamePast(a, b) && StillBounded(c, a, b) && b.disabled == a.disabled
    ensures Kept(c, a, b)
  {
  }

  lemma SuspendedKept(c: Config, w: World)
    requires Inv(c, w) ==> w.resumeInRow < 10
    ensures Kept(c, w, ToSuspended(c, w))
  {
    if Inv(c, w) { DurationFactor(c, w.nbrResRtry); }
  }

  lemma RoundKept(c: Config, w: World, iRetries: nat)
    requires w.replies != [] && w.state == Rtry
    ensures var r := RetryRound(c, w, iRetries);
      && Kept(c, w, r.w) && r.w.state in {Rtry, Rdy, Susp}
      && (r.w.state == Rdy ==> Resumed(w, r.w))
  {
    hide Unsettled, Continues, IsBackoff, Proper;
    var r := RetryRound(c, w, iRetries);
    if r.w.state == Susp {
      var asked := After(w, TryResume);
      var w1 := if w.resumeInRow > 9 && w.resumeInRow % 10 == 0 then asked.(resumeInRow := 0) else asked;
      AskedKept(c, w, w1, TryResume, w.replies[0]);
      SuspendedKept(c, w1);
      KeptTrans(c, w, w1, r.w);
    } else {
      AskedKept(c, w, r.w, TryResume, w.replies[0]);
    }
    assert r.w.log[|w.log|] == Asked(TryResume, w.replies[0]);
  }

  lemma {:induction false} RetryKept(c: Config, a: World, w: World, iRetries: nat, ret: Ret)
    requires Kept(c, a, w) && w.state in {Rtry, Rdy, Susp} && (w.state == Rdy ==> Resumed(a, w))
    ensures Kept(c, a, RetryFrom(c, w, iRetries, ret).w)
    decreases |w.replies|, if w.state == Rtry then 1 else 0
  {
    if w.state == Rtry {
      if w.replies != [] {
        hide Inv, Unsettled, RetryRound;
        var r := RetryRound(c, w, iRetries);
        RoundKept(c, w, iRetries);
        KeptTrans(c, a, w, r.w);
        if r.w.state == Rdy { StillResumed(a, w, r.w); }
        RetryKept(c, a, r.w, r.retries, r.ret);
      }
    }
  }

  lemma StillResumed(a: World, b: World, d: World)
    requires Continues(a, b) && Resumed(b, d)
    ensures Resumed(a, d)
  {
    var k :| |b.log| <= k < |d.log| && d.log[k] == Asked(TryResume, Ok);
    assert |a.log| <= k;
  }

  lemma KeptSame(c: Config, w: World)
    ensures Kept(c, w, w)
  {
    StateKept(c, w, w);
  }

  lemma DoRetryKept(c: Config, w: World)
    requires w.state in {Rtry, Susp}
    ensures Kept(c, w, DoRetry(c, w).w)
  {
    KeptSame(c, w);
    RetryKept(c, w, w, 0, Ok);
  }

  lemma ResumeKept(c: Config, w: World)
    ensures Kept(c, w, ActionTryResume(c, w).w)
  {
    hide Inv, Unsettled, Continues, RetryFrom;
    var w1 := Recheck(c, w);
    RecheckKept(c, w);
    if w1.state == Rtry {
      DoRetryKept(c, w1);
      KeptTrans(c, w, w1, DoRetry(c, w1).w);
    }
  }

  lemma RecheckKept(c: Config, w: World)
    ensures Kept(c, w, Recheck(c, w))
  {
    StateKept(c, w, Recheck(c, w));
  }

  lemma BeginKept(c: Config, w: World)
    requires w.state == Rdy
    ensures Kept(c, w, BeginTransaction(w).w)
  {
    hide Unsettled, Continues, IsBackoff, Proper;
    if w.replies != [] {
      AskedKept(c, w, BeginTransaction(w).w, Begin, w.replies[0]);
    } else {
      KeptSame(c, w);
    }
  }

  lemma PrepareKept(c: Config, w: World)
    ensures Kept(c, w, Prepare(c, w).w)
  {
    hide Inv, Unsettled, Continues, ActionTryResume, BeginTransaction;
    var r := ActionTryResume(c, w);
    ResumeKept(c, w);
    if r.Done? && r.ret == Ok && r.w.state == Rdy {
      BeginKept(c, r.w);
      KeptTrans(c, w, r.w, BeginTransaction(r.w).w);
    }
  }

  lemma SubmittedKept(c: Config, w: World, call: Call)
    requires w.state != Rtry && call != TryResume
    ensures Kept(c, w, Submitted(w, call).w)
  {
    hide Unsettled, Continues, IsBackoff, Proper;
    if w.replies != [] {
      AskedKept(c, w, Submitted(w, call).w, call, w.replies[0]);
    } else {
      KeptSame(c, w);
    }
  }

  lemma CodedKept(c: Config, w: World)
    ensures Kept(c, w, Coded(w).w)
  {
    StateKept(c, w, Coded(w).w);
  }

  lemma MessageKept(c: Config, w: World, msg: Msg)
    ensures Kept(c, w, ProcessMessage(c, w, msg).w)
  {
    hide Inv, Unsettled, Continues, Prepare, Submitted, Coded;
    PrepareKept(c, w);
    PreparedState(c, w);
    var p := Prepare(c, w);
    if p.Done? && p.ret == Ok {
      if p.w.state == Itx {
        var q := p.w.(hadAutoCommit := false);
        FlagKept(c, p.w);
        KeptTrans(c, w, p.w, q);
        SubmittedKept(c, q, DoAction(msg));
        var r := Submitted(q, DoAction(msg));
        KeptTrans(c, w, q, r.w);
        CodedKept(c, r.w);
        KeptTrans(c, w, r.w, Coded(r.w).w);
      } else {
        CodedKept(c, p.w);
        KeptTrans(c, w, p.w, Coded(p.w).w);
      }
    }
  }

  lemma FlagKept(c: Config, w: World)
    ensures Kept(c, w, w.(hadAutoCommit := false))
  {
    StateKept(c, w, w.(hadAutoCommit := false));
  }

  lemma {:induction false} MessagesKept(c: Config, w: World, msgs: seq<Msg>, i: nat, ret: Ret)
    ensures Kept(c, w, OneAfterOther(c, w, msgs, i, ret).w)
    decreases |w.replies|, |msgs| - i
  {
    hide Inv, Unsettled, Continues, ProcessMessage;
    if i < |msgs| {
      SuspendedAsked(c, w, msgs[i]);
      MessageKept(c, w, msgs[i]);
      var r := ProcessMessage(c, w, msgs[i]);
      if r.Done? && (r.ret == Suspended || Going(r.ret)) {
        var j := if r.ret == Suspended then i else i + 1;
        MessagesKept(c, r.w, msgs, j, r.ret);
        KeptTrans(c, w, r.w, OneAfterOther(c, r.w, msgs, j, r.ret).w);
      }
    } else {
      KeptSame(c, w);
    }
  }

  lemma TransactionKept(c: Config, w: World, msgs: seq<Msg>)
    requires w.state != Rtry
    ensures Kept(c, w, Transaction(c, w, msgs).w)
  {
    hide Inv, Unsettled, Continues, Submitted, OneAfterOther;
    if c.hasCommit { SubmittedKept(c, w, Commit(msgs)); } else { MessagesKept(c, w, msgs, 0, Ok); }
  }

  lemma EndKept(c: Config, w: World)
    ensures Kept(c, w, EndTransaction(w).w)
  {
    hide Unsettled, Continues, IsBackoff, Proper;
    if w.state == Itx && w.replies != [] {
      AskedKept(c, w, EndTransaction(w).w, End, w.replies[0]);
    } else {
      CodedKept(c, w);
      KeptSame(c, w);
    }
  }

  lemma AttemptKept(c: Config, w: World, msgs: seq<Msg>)
    ensures Kept(c, w, RunAttempt(c, w, msgs).w)
  {
    hide Inv, Unsettled, Continues, Prepare, Transaction, EndTransaction;
    PrepareKept(c, w);
    PreparedState(c, w);
    var p := Prepare(c, w);
    if p.Done? && p.ret == Ok {
      TransactionKept(c, p.w, msgs);
      var t := Transaction(c, p.w, msgs);
      KeptTrans(c, w, p.w, t.w);
      EndKept(c, t.w);
      KeptTrans(c, w, t.w, EndTransaction(t.w).w);
    }
  }

  // ----- when retries end -----

  /** The codes actionDoRetry goes by: the tenth resumption in a row counts as failed. */
  function Heard(w: World): seq<Ret> {
    if w.replies != [] && w.resumeInRow > 9 && w.resumeInRow % 10 == 0 then w.replies[0 := Suspended] else w.replies
  }

  /** The retries end with code k: it is OK, or a suspension for which no retry is left. */
  ghost predicate EndsAt(c: Config, codes: seq<Ret>, used: nat, k: nat)
    requires k < |codes|
  {
    codes[k] == Ok || (codes[k] == Suspended && c.retryCount != -1 && used + multiset(codes[..k])[Suspended] >= c.retryCount)
  }

  lemma EndsLater(c: Config, codes: seq<Ret>, used: nat, k: nat)
    requires 0 < k < |codes|
    ensures EndsAt(c, codes, used, k) <==> EndsAt(c, codes[1..], used + (if codes[0] == Suspended then 1 else 0), k - 1)
  {
    assert codes[..k] == [codes[0]] + codes[1..][..k - 1];
  }

  lemma HeardLength(w: World)
    ensures |Heard(w)| == |w.replies|
  {
  }

  /** The calls made are exactly those up to the first code that ends the retries. */
  ghost predicate EndedRight(c: Config, w: World, used: nat, r: Outcome)
    requires |r.w.replies| <= |w.replies| && !r.Endless?
  {
    var codes, calls := Heard(w), |w.replies| - |r.w.replies|;
    && r.w.replies == w.replies[calls..]
    && (forall k: nat :: k < calls && (r.Done? ==> k < calls - 1) ==> !EndsAt(c, codes, used, k))
    && (r.Waiting? ==> calls == |codes|)
    && (r.Done? ==> calls > 0 && EndsAt(c, codes, used, calls - 1) && r.w.state == if codes[calls - 1] == Ok then Rdy else Susp)
  }

  lemma HeardNext(c: Config, w: World, iRetries: nat)
    requires w.state == Rtry && w.replies != []
    ensures var round, codes := RetryRound(c, w, iRetries), Heard(w);
      && round.w.replies == w.replies[1..]
      && round.w.state == (if !EndsAt(c, codes, iRetries, 0) then Rtry else if codes[0] == Ok then Rdy else Susp)
      && (round.w.state == Rtry ==> Heard(round.w) == codes[1..] && round.retries == iRetries + if codes[0] == Suspended then 1 else 0)
  {
    assert Heard(w)[..0] == [];
  }

  lemma {:induction false} RetryEnds(c: Config, w: World, iRetries: nat, ret: Ret)
    requires w.state == Rtry
    ensures EndedRight(c, w, iRetries, RetryFrom(c, w, iRetries, ret))
    decreases |w.replies|
  {
    hide RetryRound, EndsAt, Heard;
    HeardLength(w);
    if w.replies != [] {
      var round := RetryRound(c, w, iRetries);
      HeardNext(c, w, iRetries);
      if round.w.state == Rtry {
        RetryEnds(c, round.w, round.retries, round.ret);
        EndsOneLater(c, w, iRetries, round, RetryFrom(c, w, iRetries, ret));
      }
    }
  }

  lemma EndsOneLater(c: Config, w: World, used: nat, round: Round, r: Outcome)
    requires w.replies != [] && round.w.replies == w.replies[1..] && Heard(round.w) == Heard(w)[1..]
    requires round.retries == used + if Heard(w)[0] == Suspended then 1 else 0
    requires !EndsAt(c, Heard(w), used, 0)
    requires |r.w.replies| <= |round.w.replies| && !r.Endless? && EndedRight(c, round.w, round.retries, r)
    ensures EndedRight(c, w, used, r)
  {
    hide EndsAt, Heard;
    var codes := Heard(w);
    HeardLength(w);
    var calls := |w.replies| - |r.w.replies|;
    forall k: nat | 0 < k < |codes|
      ensures EndsAt(c, codes, used, k) <==> EndsAt(c, codes[1..], round.retries, k - 1)
    {
      EndsLater(c, codes, used, k);
    }
    forall k: nat | k < calls && (r.Done? ==> k < calls - 1) ensures !EndsAt(c, codes, used, k) {
      if k > 0 { assert !EndsAt(c, codes[1..], round.retries, k - 1); }
    }
  }

  /** actionDoRetry makes exactly the calls up to the first code that ends the retries. */
  lemma DoRetryExact(c: Config, w: World)
    requires w.state == Rtry
    ensures EndedRight(c, w, 0, DoRetry(c, w))
  {
    RetryEnds(c, w, 0, Ok);
  }

  ghost predicate OnlyResumes(codes: seq<Ret>) {
    forall i :: 0 <= i < |codes| ==> codes[i] == Ok || codes[i] == Suspended
  }

  lemma {:induction false} AllSuspended(codes: seq<Ret>)
    requires OnlyResumes(codes) && Ok !in codes
    ensures multiset(codes)[Suspended] == |codes|
  {
    if codes != [] {
      AllSuspended(codes[1..]);
      assert codes == [codes[0]] + codes[1..];
    }
  }

  /** With a retry limit n a plugin that says OK or suspended is asked at most n + 1 times. */
  lemma DoRetryBound(c: Config, w: World)
    requires w.state == Rtry && c.retryCount >= 0 && OnlyResumes(w.replies)
    ensures var r := DoRetry(c, w);
      && |w.replies| - |r.w.replies| <= c.retryCount + 1
      && (|w.replies| > c.retryCount ==> r.Done?)
  {
    DoRetryExact(c, w);
    var r, codes, n := DoRetry(c, w), Heard(w), c.retryCount;
    if |w.replies| > n {
      if forall k: nat :: k < n ==> !EndsAt(c, codes, 0, k) {
        forall k | 0 <= k < n ensures codes[k] != Ok { assert !EndsAt(c, codes, 0, k); }
        AllSuspended(codes[..n]);
        assert EndsAt(c, codes, 0, n);
      }
    }
  }

  // ----- how long a suspension lasts -----

  lemma {:induction false} RetryTimes(c: Config, w: World, iRetries: nat, ret: Ret)
    requires w.state == Rtry
    ensures var r := RetryFrom(c, w, iRetries, ret);
      && r.w.suspensions == w.suspensions + (if r.w.state == Susp then [NextDuration(c, w)] else [])
      && r.w.clockReads == w.clockReads + (if r.w.state == Susp then 1 else 0)
      && (r.w.state == Susp ==> r.w.resumeAt == c.clock(w.clockReads) + NextDuration(c, w))
      && (r.w.state == Rdy ==> r.w.nbrResRtry == 0)
    decreases |w.replies|
  {
    hide Duration;
    if w.replies != [] {
      var round := RetryRound(c, w, iRetries);
      if round.w.state == Rtry { RetryTimes(c, round.w, round.retries, round.ret); }
    }
  }

  /** n calls of actionPrepare one after the other. */
  function Prepares(c: Config, w: World, n: nat): World
    decreases n
  {
    if n == 0 then w else Prepares(c, Prepare(c, w).w, n - 1)
  }

  /** All readings of the clock in a range are earlier. */
  ghost predicate Earlier(c: Config, from: nat, to: nat, until: int) {
    forall t: nat :: from <= t < to ==> c.clock(t) < until
  }

  lemma NotYet(c: Config, w: World)
    requires w.state == Susp && c.clock(w.clockReads) < w.resumeAt
    ensures Prepare(c, w) == Done(w.(clockReads := w.clockReads + 1), Ok)
  {
  }

  lemma {:induction false} LeftAlone(c: Config, w: World, n: nat, m: nat)
    requires w.state == Susp && Earlier(c, w.clockReads, w.clockReads + n, w.resumeAt)
    ensures Prepares(c, w, n + m) == Prepares(c, w.(clockReads := w.clockReads + n), m)
    decreases n
  {
    hide Prepare;
    if n > 0 {
      NotYet(c, w);
      LeftAlone(c, w.(clockReads := w.clockReads + 1), n - 1, m);
    }
  }

  lemma {:induction false} RetryAsks(c: Config, w: World, iRetries: nat, ret: Ret)
    ensures var r := RetryFrom(c, w, iRetries, ret);
      && w.log <= r.w.log
      && (w.state == Rtry && w.replies != [] ==> w.log + [Asked(TryResume, w.replies[0])] <= r.w.log)
    decreases |w.replies|, if w.state == Rtry then 1 else 0
  {
    if w.state == Rtry && w.replies != [] {
      var round := RetryRound(c, w, iRetries);
      RetryAsks(c, round.w, round.retries, round.ret);
    }
  }

  /** An action that actionDoRetry suspends is left alone for as long as the retry number says,
      from the clock's reading at that time on: however often it is prepared before, the plugin
      is not called, and when the time has come it is asked to resume. */
  lemma SuspensionLasts(c: Config, w: World, n: nat)
    requires w.state == Rtry && DoRetry(c, w).Done? && DoRetry(c, w).w.state == Susp
    ensures var s, until := DoRetry(c, w).w, c.clock(w.clockReads) + NextDuration(c, w);
      Earlier(c, w.clockReads + 1, w.clockReads + 1 + n, until) ==>
        && Prepares(c, s, n).log == s.log && Prepares(c, s, n).state == Susp
        && (c.clock(w.clockReads + 1 + n) >= until && s.replies != [] ==>
              s.log + [Asked(TryResume, s.replies[0])] <= Prepares(c, s, n + 1).log)
  {
    hide RetryFrom, Prepare, Earlier;
    RetryTimes(c, w, 0, Ok);
    var s, until := DoRetry(c, w).w, c.clock(w.clockReads) + NextDuration(c, w);
    if Earlier(c, w.clockReads + 1, w.clockReads + 1 + n, until) {
      LeftAlone(c, s, n, 0);
      LeftAlone(c, s, n, 1);
      var t := s.(clockReads := s.clockReads + n);
      assert Prepares(c, t, 1) == Prepares(c, Prepare(c, t).w, 0);
      if c.clock(w.clockReads + 1 + n) >= until && s.replies != [] {
        AskedAgain(c, t);
      }
    }
  }

  lemma AskedAgain(c: Config, w: World)
    requires w.state == Susp && c.clock(w.clockReads) >= w.resumeAt && w.replies != []
    ensures w.log + [Asked(TryResume, w.replies[0])] <= Prepare(c, w).w.log
  {
    hide RetryFrom;
    RetryAsks(c, Recheck(c, w), 0, Ok);
  }

  // ----- the guard against a plugin that always resumes -----

  /** Resumptions with success, each followed by a failed begin. */
  function Cycles(n: nat): seq<Ret> { if n == 0 then [] else [Ok, Suspended] + Cycles(n - 1) }

  lemma CycleOnce(c: Config, w: World)
    requires w.state == Rtry && w.resumeInRow <= 9 && |w.replies| >= 2 && w.replies[0] == Ok && w.replies[1] == Suspended
    ensures var r := Prepare(c, w);
      r.Done? && r.ret == Suspended && r.w.state == Rtry && r.w.resumeInRow == w.resumeInRow + 1 && r.w.replies == w.replies[2..]
  {
    var round := RetryRound(c, w, 0);
    assert DoRetry(c, w) == RetryFrom(c, round.w, 0, Ok);
  }

  lemma NextOkFails(c: Config, w: World, rest: seq<Ret>)
    requires w.state == Rtry && w.resumeInRow == 10 && w.replies == [Ok] + rest
    ensures Heard(w) == [Suspended] + rest
    ensures c.retryCount == 0 ==> Prepares(c, w, 1).state == Susp && Prepares(c, w, 1).replies == rest
  {
    var round := RetryRound(c, w, 0);
    if c.retryCount == 0 {
      assert round.w.state == Susp;
      assert DoRetry(c, w) == RetryFrom(c, round.w, 0, Suspended);
      assert Prepares(c, w, 1) == Prepares(c, Prepare(c, w).w, 0);
    }
  }

  /** From the first failure on at most ten resumptions in a row are believed: the plugin's next
      OK is taken for a failure and, without retries, suspends the action. */
  lemma {:induction false} TenResumes(c: Config, w: World, n: nat, rest: seq<Ret>)
    requires w.state == Rtry && w.resumeInRow + n == 10 && w.replies == Cycles(n) + [Ok] + rest
    ensures var w' := Prepares(c, w, n); w'.state == Rtry && w'.replies == [Ok] + rest && Heard(w') == [Suspended] + rest
    ensures c.retryCount == 0 ==> Prepares(c, w, n + 1).state == Susp && Prepares(c, w, n + 1).replies == rest
    decreases n
  {
    hide Prepare, Heard;
    if n > 0 {
      assert w.replies == [Ok, Suspended] + (Cycles(n - 1) + [Ok] + rest);
      CycleOnce(c, w);
      TenResumes(c, Prepare(c, w).w, n - 1, rest);
    } else {
      assert w.replies == [Ok] + rest;
      NextOkFails(c, w, rest);
    }
  }

  // ----- return codes -----

  /** The return code of a call of the plugin names the state the action is in. */
  lemma HandledNamesState(w: World, code: Ret)
    ensures var s := Handled(w, code);
      && (s.ret == Ok <==> s.w.state == Rdy)
      && (s.ret == Suspended <==> s.w.state == Rtry)
      && (s.ret == ActionFailed <==> s.w.state == Susp)
      && (s.ret == DataFail <==> s.w.state == Failed)
      && (s.ret in {DeferCommit, PreviousCommitted} <==> s.w.state == Itx)
      && (code == Ok ==> s.w.state == Rdy)
      && (code == Suspended ==> s.w.state == Rtry && s.w.resumeInRow == w.resumeInRow + 1)
      && (code in {DeferCommit, PreviousCommitted, DisableAction} ==> s.w.state == w.state)
      && (code in {Ok, DeferCommit, PreviousCommitted} ==> s.w.resumeInRow == 0)
      && (code in {DataFail, ActionFailed, ForceTerm} || code.OtherError? ==> s.w.state == Failed)
  {
  }

  /** In a transaction an early commit is reported once: the code after it defers again. */
  lemma EarlyCommitOnce(w: World)
    requires w.state == Itx
    ensures var s := Handled(w, PreviousCommitted);
      s.ret == PreviousCommitted && ReturnCode(s.w) == Step(s.w, DeferCommit)
  {
  }

  // ----- what the plugin took -----

  /** Codes of a commit or message call that say the plugin took what it was given. */
  predicate Accepting(code: Ret) { code in {Ok, DeferCommit, PreviousCommitted} }

  /** The plugin took the message, on its own or in a commit call. */
  predicate Takes(e: Event, m: Msg) {
    e.Asked? && Accepting(e.code) && (e.call == DoAction(m) || (e.call.Commit? && m in e.call.msgs))
  }

  ghost predicate TakenIn(before: seq<Event>, after: seq<Event>, m: Msg) {
    exists k :: |before| <= k < |after| && Takes(after[k], m)
  }

  /** The plugin took all of the messages between two points of the log. */
  ghost predicate Taken(before: seq<Event>, after: seq<Event>, msgs: seq<Msg>) {
    forall i :: 0 <= i < |msgs| ==> TakenIn(before, after, msgs[i])
  }

  /** The engine goes on after the call although the plugin took nothing: it asked to be disabled,
      or a begin came back with a code meant for messages. */
  predicate PassesOver(e: Event) {
    && e.Asked?
    && if e.call.Begin? then e.code in {DeferCommit, PreviousCommitted}
       else (e.call.DoAction? || e.call.Commit?) && e.code == DisableAction
  }

  ghost predicate NonePassed(before: seq<Event>, after: seq<Event>) {
    forall k :: |before| <= k < |after| ==> !PassesOver(after[k])
  }

  ghost predicate Distinct(msgs: seq<Msg>) { forall i, j :: 0 <= i < j < |msgs| ==> msgs[i] != msgs[j] }

  lemma TakenSplit(a: seq<Event>, b: seq<Event>, d: seq<Event>, m: Msg)
    requires a <= b <= d
    ensures TakenIn(a, d, m) <==> TakenIn(a, b, m) || TakenIn(b, d, m)
  {
    if TakenIn(a, b, m) {
      var k :| |a| <= k < |b| && Takes(b[k], m);
      assert Takes(d[k], m);
    }
    if TakenIn(b, d, m) {
      var k :| |b| <= k < |d| && Takes(d[k], m);
      assert |a| <= k;
    }
    if TakenIn(a, d, m) {
      var k :| |a| <= k < |d| && Takes(d[k], m);
      if k < |b| { assert Takes(b[k], m); }
    }
  }

  lemma PassedSplit(a: seq<Event>, b: seq<Event>, d: seq<Event>)
    requires a <= b <= d
    ensures NonePassed(a, d) <==> NonePassed(a, b) && NonePassed(b, d)
  {
    if NonePassed(a, d) {
      forall k | |a| <= k < |b| ensures !PassesOver(b[k]) { assert b[k] == d[k]; }
    }
    if NonePassed(a, b) && NonePassed(b, d) {
      forall k | |a| <= k < |d| ensures !PassesOver(d[k]) { if k < |b| { assert b[k] == d[k]; } }
    }
  }

  /** One more event. */
  lemma TakenOne(log: seq<Event>, e: Event, m: Msg)
    ensures TakenIn(log, log + [e], m) <==> Takes(e, m)
    ensures NonePassed(log, log + [e]) <==> !PassesOver(e)
  {
    assert (log + [e])[|log|] == e;
  }

  // ----- what happens before a message is given to the plugin -----

  /** Only resumptions. */
  ghost predicate Resumptions(before: seq<Event>, after: seq<Event>) {
    before <= after && forall k :: |before| <= k < |after| ==> after[k].Asked? && after[k].call == TryResume
  }

  lemma {:induction false} RetryCalls(c: Config, a: seq<Event>, w: World, iRetries: nat, ret: Ret)
    requires Resumptions(a, w.log)
    ensures Resumptions(a, RetryFrom(c, w, iRetries, ret).w.log)
    decreases |w.replies|, if w.state == Rtry then 1 else 0
  {
    if w.state == Rtry && w.replies != [] {
      var round := RetryRound(c, w, iRetries);
      assert round.w.log == w.log + [Asked(TryResume, w.replies[0])];
      RetryCalls(c, a, round.w, round.retries, round.ret);
    }
  }

  lemma ResumptionsTakeNothing(a: seq<Event>, b: seq<Event>)
    requires Resumptions(a, b)
    ensures NonePassed(a, b) && forall m :: !TakenIn(a, b, m)
  {
  }

  /** Before the plugin is given anything it takes nothing, and passes over a message only with
      the answer to the begin, which is then the return code. */
  lemma PrepareTakesNothing(c: Config, w: World)
    ensures var r := Prepare(c, w);
      && w.log <= r.w.log
      && (forall m :: !TakenIn(w.log, r.w.log, m))
      && (r.Done? ==> (NonePassed(w.log, r.w.log) <==> r.ret !in {DeferCommit, PreviousCommitted}))
      && (r.Done? && r.ret !in {Ok, Suspended} ==> |w.log| < |r.w.log|)
  {
    hide TakenIn, NonePassed;
    var r := ActionTryResume(c, w);
    RetryCalls(c, w.log, Recheck(c, w), 0, Ok);
    ResumptionsTakeNothing(w.log, r.w.log);
    ResumedState(c, w);
    if r.Done? && r.ret == Ok && r.w.state == Rdy && r.w.replies != [] {
      var e := Asked(Begin, r.w.replies[0]);
      var log := Prepare(c, w).w.log;
      assert log == r.w.log + [e];
      PassedSplit(w.log, r.w.log, log);
      forall m ensures !TakenIn(w.log, log, m) {
        TakenSplit(w.log, r.w.log, log, m);
        TakenOne(r.w.log, e, m);
      }
      TakenOne(r.w.log, e, Msg(0, []));
    }
  }

  lemma SubmittedState(w: World, call: Call)
    ensures var r := Submitted(w, call);
      && (r.Waiting? ==> r.w.replies == [])
      && (r.Done? ==> r.w.log == w.log + [Asked(call, w.replies[0])])
      && (r.Done? && Going(r.ret) ==> r.w.state in {Rdy, Itx})
      && (r.Done? && Going(r.ret) && w.state == Itx ==> Accepting(w.replies[0]) || w.replies[0] == DisableAction)
      && (r.Done? && r.ret == Suspended ==> r.w.state == Rtry)
      && (r.Done? && r.ret == Suspended && w.state != Rtry ==> w.replies[0] == Suspended)
      && (r.Done? && Going(r.ret) && w.state in {Susp, Failed} ==> w.replies[0] == Ok)
  {
  }

  // ----- one message -----

  /** The last call was one for the message and was not answered with "disable me". */
  predicate EndedByMessage(log: seq<Event>, msg: Msg) {
    log != [] && var e := log[|log| - 1]; e.Asked? && e.call == DoAction(msg) && e.code != DisableAction
  }

  /** A message is over, or has to be submitted again: what that says about it. */
  ghost predicate Processed(before: seq<Event>, after: seq<Event>, msg: Msg, going: bool) {
    && before <= after
    && (forall m :: TakenIn(before, after, m) ==> m == msg)
    && (going ==> (TakenIn(before, after, msg) <==> NonePassed(before, after)))
    && (!going ==> NonePassed(before, after) && !TakenIn(before, after, msg))
  }

  lemma MessageProcessed(c: Config, w: World, msg: Msg)
    ensures var r := ProcessMessage(c, w, msg);
      r.Done? && (Going(r.ret) || r.ret == Suspended) ==>
        && Processed(w.log, r.w.log, msg, Going(r.ret))
        && (Going(r.ret) ==> (TakenIn(w.log, r.w.log, msg) <==> EndedByMessage(r.w.log, msg)))
  {
    hide Prepare, Submitted, TakenIn, NonePassed;
    PreparedState(c, w);
    PrepareTakesNothing(c, w);
    var p, r := Prepare(c, w), ProcessMessage(c, w, msg);
    if r.Done? && (Going(r.ret) || r.ret == Suspended) && p.ret == Ok {
      var q := p.w.(hadAutoCommit := false);
      SubmittedState(q, DoAction(msg));
      var e := Asked(DoAction(msg), q.replies[0]);
      assert r.w.log == p.w.log + [e];
      PassedSplit(w.log, p.w.log, r.w.log);
      forall m ensures TakenIn(w.log, r.w.log, m) <==> Takes(e, m) {
        TakenSplit(w.log, p.w.log, r.w.log, m);
        TakenOne(p.w.log, e, m);
      }
      TakenOne(p.w.log, e, msg);
    }
  }

  /** Where the engine goes on behind a message the plugin took it exactly if the call that ended
      it was one for the message and not answered with "disable me". */
  lemma MessageTaken(c: Config, w: World, msg: Msg)
    ensures var r := ProcessMessage(c, w, msg);
      && (r.Waiting? ==> r.w.replies == [])
      && (r.Done? && Going(r.ret) ==>
            && |r.w.replies| < |w.replies| && r.w.state in {Rdy, Itx}
            && (TakenIn(w.log, r.w.log, msg) <==> EndedByMessage(r.w.log, msg)))
      && (r.Done? && |r.w.replies| == |w.replies| ==> r.w.state in {Susp, Failed})
      && (w.state == Failed ==> r == Done(w, DataFail))
      && w.log <= r.w.log
  {
    hide Prepare, Submitted, TakenIn;
    MessageKept(c, w, msg);
    PreparedState(c, w);
    PrepareKept(c, w);
    var p := Prepare(c, w);
    if p.Done? && p.ret == Ok && p.w.state == Itx {
      SubmittedState(p.w.(hadAutoCommit := false), DoAction(msg));
    }
    MessageProcessed(c, w, msg);
  }

  // ----- a batch -----

  ghost predicate TakenFirst(before: seq<Event>, after: seq<Event>, msgs: seq<Msg>, n: nat)
    requires n <= |msgs|
  {
    forall j :: 0 <= j < n ==> TakenIn(before, after, msgs[j])
  }

  /** What is known when the first n messages are behind. */
  ghost predicate Progress(before: seq<Event>, after: seq<Event>, msgs: seq<Msg>, n: nat)
    requires n <= |msgs|
  {
    && (NonePassed(before, after) ==> TakenFirst(before, after, msgs, n))
    && (Distinct(msgs) ==>
          && (TakenFirst(before, after, msgs, n) ==> NonePassed(before, after))
          && forall j :: n <= j < |msgs| ==> !TakenIn(before, after, msgs[j]))
  }

  lemma ProgressStart(log: seq<Event>, msgs: seq<Msg>)
    ensures Progress(log, log, msgs, 0)
  {
  }

  lemma ProgressStep(a: seq<Event>, b: seq<Event>, d: seq<Event>, msgs: seq<Msg>, i: nat, going: bool)
    requires i < |msgs| && a <= b && Progress(a, b, msgs, i) && Processed(b, d, msgs[i], going)
    ensures Progress(a, d, msgs, if going then i + 1 else i)
  {
    hide TakenIn, NonePassed;
    var n := if going then i + 1 else i;
    PassedSplit(a, b, d);
    forall j | 0 <= j < |msgs|
      ensures TakenIn(a, d, msgs[j]) <==> TakenIn(a, b, msgs[j]) || TakenIn(b, d, msgs[j])
    {
      TakenSplit(a, b, d, msgs[j]);
    }
    if NonePassed(a, d) {
      forall j | 0 <= j < n ensures TakenIn(a, d, msgs[j]) { assert j < i ==> TakenIn(a, b, msgs[j]); }
    }
    if Distinct(msgs) {
      if TakenFirst(a, d, msgs, n) {
        forall j | 0 <= j < i ensures TakenIn(a, b, msgs[j]) { assert TakenIn(a, d, msgs[j]) && msgs[j] != msgs[i]; }
        assert going ==> TakenIn(a, d, msgs[i]);
      }
      forall j | n <= j < |msgs| ensures !TakenIn(a, d, msgs[j]) { assert !TakenIn(a, b, msgs[j]); }
    }
  }

  lemma {:induction false} MessagesTaken(c: Config, a: World, w: World, msgs: seq<Msg>, i: nat, ret: Ret)
    requires i <= |msgs| && msgs != [] && a.log <= w.log && |w.replies| <= |a.replies|
    requires Progress(a.log, w.log, msgs, i)
    requires i > 0 ==> |w.replies| < |a.replies|
    requires i == |msgs| ==> Going(ret) && w.state in {Rdy, Itx}
    ensures var r := OneAfterOther(c, w, msgs, i, ret);
      && (r.Waiting? ==> r.w.replies == [])
      && (r.Done? ==> r.ret != Suspended)
      && a.log <= r.w.log
      && (r.Done? && Going(r.ret) ==> r.w.state in {Rdy, Itx} && Progress(a.log, r.w.log, msgs, |msgs|))
      && (r.Done? && |r.w.replies| == |a.replies| ==> !Going(r.ret) && r.w.state in {Susp, Failed})
    decreases |w.replies|, |msgs| - i
  {
    hide ProcessMessage, Progress, Processed;
    if i < |msgs| {
      var r := ProcessMessage(c, w, msgs[i]);
      SuspendedAsked(c, w, msgs[i]);
      MessageTaken(c, w, msgs[i]);
      if r.Done? && (r.ret == Suspended || Going(r.ret)) {
        MessageProcessed(c, w, msgs[i]);
        ProgressStep(a.log, w.log, r.w.log, msgs, i, Going(r.ret));
        MessagesTaken(c, a, r.w, msgs, if Going(r.ret) then i + 1 else i, r.ret);
      }
    }
  }

  /** The plugin took the whole batch exactly if it passed over nothing. */
  ghost predicate TakenExactly(c: Config, before: seq<Event>, after: seq<Event>, msgs: seq<Msg>) {
    && (NonePassed(before, after) ==> Taken(before, after, msgs))
    && (c.hasCommit || Distinct(msgs) ==> (Taken(before, after, msgs) <==> NonePassed(before, after)))
  }

  lemma CommitCallTaken(c: Config, log: seq<Event>, msgs: seq<Msg>, code: Ret)
    requires msgs != [] && (Accepting(code) || code == DisableAction)
    ensures TakenExactly(c, log, log + [Asked(Commit(msgs), code)], msgs)
  {
    hide TakenIn, NonePassed;
    var e := Asked(Commit(msgs), code);
    forall i | 0 <= i < |msgs| ensures TakenIn(log, log + [e], msgs[i]) <==> Accepting(code) { TakenOne(log, e, msgs[i]); }
    TakenOne(log, e, msgs[0]);
    assert !Accepting(code) ==> !TakenIn(log, log + [e], msgs[0]);
  }

  /** Where doTransaction is OK the plugin took the whole batch exactly if it passed over no
      message. */
  lemma TransactionTaken(c: Config, w: World, msgs: seq<Msg>)
    requires msgs != [] && w.state in {Itx, Susp, Failed}
    ensures var r := Transaction(c, w, msgs);
      && (r.Waiting? ==> r.w.replies == [])
      && w.log <= r.w.log
      && (r.Done? && r.ret == Ok ==> r.w.state in {Rdy, Itx} && TakenExactly(c, w.log, r.w.log, msgs))
      && (r.Done? && r.ret == Suspended ==> r.w.state == Rtry)
      && (r.Done? && |r.w.replies| == |w.replies| ==> !c.hasCommit && r.ret != Ok && r.w.state in {Susp, Failed})
  {
    hide Submitted, OneAfterOther, TakenIn, NonePassed;
    if c.hasCommit {
      SubmittedState(w, Commit(msgs));
      var r := Submitted(w, Commit(msgs));
      if r.Done? && Going(r.ret) { CommitCallTaken(c, w.log, msgs, w.replies[0]); }
      SubmittedKept(c, w, Commit(msgs));
    } else {
      ProgressStart(w.log, msgs);
      MessagesTaken(c, w, w, msgs, 0, Ok);
    }
  }

  lemma EndState(w: World)
    requires w.state in {Rdy, Itx}
    ensures var r := EndTransaction(w);
      && (r.Waiting? ==> r.w.replies == [])
      && (r.Done? && r.ret == Ok ==> r.w.state == Rdy)
      && (r.Done? && r.ret == Suspended ==> r.w.state == Rtry)
      && (w.state == Itx && r.Done? ==>
            && (r.ret == Ok <==> w.replies[0] in {Ok, DeferCommit, PreviousCommitted})
            && (r.ret == Suspended <==> w.replies[0] == Suspended))
      && w.log <= r.w.log && (r.w.log == w.log || r.w.log == w.log + [Asked(End, w.replies[0])])
  {
  }

  /** Events around the transaction that take nothing and pass over nothing. */
  lemma TakenExactlyWider(c: Config, a: seq<Event>, b: seq<Event>, d: seq<Event>, e: seq<Event>, msgs: seq<Msg>)
    requires a <= b <= d <= e && TakenExactly(c, b, d, msgs)
    requires NonePassed(a, b) && NonePassed(d, e) && forall m :: !TakenIn(a, b, m) && !TakenIn(d, e, m)
    ensures TakenExactly(c, a, e, msgs)
  {
    hide TakenIn, NonePassed;
    PassedSplit(a, b, e);
    PassedSplit(b, d, e);
    forall i | 0 <= i < |msgs| ensures TakenIn(a, e, msgs[i]) <==> TakenIn(b, d, msgs[i]) {
      TakenSplit(a, b, e, msgs[i]);
      TakenSplit(b, d, e, msgs[i]);
    }
  }

  lemma EndTakesNothing(w: World, msgs: seq<Msg>)
    requires w.state in {Rdy, Itx} && EndTransaction(w).Done?
    ensures var r := EndTransaction(w); var log := r.w.log + [Attempt(msgs, r.ret)];
      w.log <= log && NonePassed(w.log, log) && forall m :: !TakenIn(w.log, log, m)
  {
    EndState(w);
  }

  /** Where actionTryCommit is OK the action is ready, and the plugin took every message exactly if
      it passed over none. An attempt that calls the plugin not even once finds an action without a
      commit call suspended or failed. */
  lemma TryCommitTaken(c: Config, w: World, msgs: seq<Msg>)
    requires msgs != []
    ensures var r := TryCommit(c, w, msgs);
      && (r.Waiting? ==> r.w.replies == [])
      && (r.Done? ==> r.w.log != [] && r.w.log[|r.w.log| - 1] == Attempt(msgs, r.ret))
      && (r.Done? && r.ret == Ok ==> r.w.state == Rdy && TakenExactly(c, w.log, r.w.log, msgs))
      && (r.Done? && r.ret == Suspended ==> r.w.state in {Rtry, Susp} && |r.w.replies| < |w.replies|)
      && (r.Done? && |r.w.replies| == |w.replies| ==> !c.hasCommit && r.ret != Ok && r.w.state in {Susp, Failed})
  {
    hide Prepare, Transaction, EndTransaction, TakenExactly, TakenIn, NonePassed;
    PreparedState(c, w);
    var p := Prepare(c, w);
    PrepareTakesNothing(c, w);
    if p.Done? && p.ret == Ok {
      TransactionTaken(c, p.w, msgs);
      var t := Transaction(c, p.w, msgs);
      if t.Done? && t.ret == Ok {
        EndState(t.w);
        var r := EndTransaction(t.w);
        if r.Done? {
          EndTakesNothing(t.w, msgs);
          TakenExactlyWider(c, w.log, p.w.log, t.w.log, r.w.log + [Attempt(msgs, r.ret)], msgs);
        }
      }
    }
  }

  lemma GoodBegin(c: Config, w: World)
    requires w.state == Rdy && w.replies != [] && w.replies[0] == Ok
    ensures Prepare(c, w) == Done(After(w, Begin).(state := Itx), Ok)
  {
  }

  // ----- attempts that are OK although the plugin took nothing -----

  /** A commit call answered with "disable me": the attempt is OK and its message counts as
      committed. */
  lemma DisabledExample(c: Config, m: Msg)
    requires c.hasCommit
    ensures var r := TryCommit(c, Fresh([Ok, DisableAction, Ok]), [m]);
      && r.Done? && r.ret == Ok && r.w.disabled && !TakenIn([], r.w.log, m)
      && r.w.log == [Asked(Begin, Ok), Asked(Commit([m]), DisableAction), Asked(End, Ok), Attempt([m], Ok)]
  {
    hide Prepare;
    GoodBegin(c, Fresh([Ok, DisableAction, Ok]));
  }

  lemma FirstTaken(c: Config, w: World, m: Msg)
    requires w.state == Itx && w.replies != [] && w.replies[0] == Ok
    ensures var r := ProcessMessage(c, w, m);
      r.Done? && r.ret == Ok && r.w.state == Rdy && r.w.replies == w.replies[1..] && r.w.log == w.log + [Asked(DoAction(m), Ok)]
  {
    hide Prepare;
    PreparedState(c, w);
  }

  lemma SecondSkipped(c: Config, w: World, m: Msg)
    requires w.state == Rdy && w.replies != [] && w.replies[0] == DeferCommit
    ensures var r := ProcessMessage(c, w, m);
      r.Done? && r.ret == DeferCommit && r.w.state == Rdy && r.w.replies == w.replies[1..] && r.w.log == w.log + [Asked(Begin, DeferCommit)]
  {
  }

  lemma TwoMessages(c: Config, w: World, w1: World, w2: World, m0: Msg, m1: Msg)
    requires ProcessMessage(c, w, m0) == Done(w1, Ok) && ProcessMessage(c, w1, m1) == Done(w2, DeferCommit)
    ensures OneAfterOther(c, w, [m0, m1], 0, Ok) == Done(w2, DeferCommit)
  {
    hide ProcessMessage;
    var msgs := [m0, m1];
    assert OneAfterOther(c, w2, msgs, 2, DeferCommit) == Done(w2, DeferCommit);
    assert OneAfterOther(c, w1, msgs, 1, Ok) == OneAfterOther(c, w2, msgs, 2, DeferCommit);
  }

  /** A begin answered with "deferred": the engine goes on behind a message that was given to the
      plugin at no time. */
  lemma SkippedExample(c: Config, m0: Msg, m1: Msg)
    requires !c.hasCommit && m0 != m1
    ensures var r := TryCommit(c, Fresh([Ok, Ok, DeferCommit]), [m0, m1]);
      && r.Done? && r.ret == Ok && TakenIn([], r.w.log, m0) && !TakenIn([], r.w.log, m1)
      && r.w.log == [Asked(Begin, Ok), Asked(DoAction(m0), Ok), Asked(Begin, DeferCommit), Attempt([m0, m1], Ok)]
  {
    hide Prepare, OneAfterOther, ProcessMessage;
    var w := Fresh([Ok, Ok, DeferCommit]);
    GoodBegin(c, w);
    var w1 := Prepare(c, w).w;
    FirstTaken(c, w1, m0);
    var w2 := ProcessMessage(c, w1, m0).w;
    SecondSkipped(c, w2, m1);
    var w3 := ProcessMessage(c, w2, m1).w;
    TwoMessages(c, w1, w2, w3, m0, m1);
    assert Takes(TryCommit(c, w, [m0, m1]).w.log[1], m0);
  }

  /** An event that is not a call of the plugin. */
  lemma Recorded(c: Config, w: World, e: Event)
    requires !e.Asked?
    ensures var r := w.(log := w.log + [e]);
      && (Inv(c, w) ==> Inv(c, r)) && Continues(w, r)
      && forall id :: Settlements(r.log, id) == Settlements(w.log, id) + if Settles(e, id) then 1 else 0
  {
    AnswersNext(w.log, e);
    forall id ensures Settlements(w.log + [e], id) == Settlements(w.log, id) + if Settles(e, id) then 1 else 0 {
      Appended(w.log, e, id);
    }
  }

  /** Either all of the messages were settled once or none, and no others. */
  ghost predicate Settled(a: World, b: World, msgs: seq<Msg>, all: bool) {
    forall id: nat :: Settlements(b.log, id) == Settlements(a.log, id) + (if all && Holds(msgs, id) then 1 else 0)
  }

  /** What every call keeps also holds over an attempt, and it settles the messages of its
      batch, once, exactly if it is OK. */
  lemma TryCommitSettles(c: Config, w: World, msgs: seq<Msg>)
    ensures var r := TryCommit(c, w, msgs);
      && (Inv(c, w) ==> Inv(c, r.w)) && Continues(w, r.w)
      && Settled(w, r.w, msgs, r.Done? && r.ret == Ok)
  {
    hide Inv, RunAttempt;
    AttemptKept(c, w, msgs);
    var r := RunAttempt(c, w, msgs);
    if r.Done? {
      Recorded(c, r.w, Attempt(msgs, r.ret));
      ContinuesTrans(w, r.w, TryCommit(c, w, msgs).w);
    }
  }

  // ----- a plugin that takes everything -----

  ghost predicate AllTake(codes: seq<Ret>) { forall i :: 0 <= i < |codes| ==> codes[i] in {DeferCommit, PreviousCommitted} }

  lemma {:induction false} MessagesGood(c: Config, w: World, msgs: seq<Msg>, i: nat, ret: Ret, codes: seq<Ret>, rest: seq<Ret>)
    requires w.state == Itx && i <= |msgs| && |codes| == |msgs| - i && AllTake(codes) && w.replies == codes + rest
    requires i == |msgs| ==> Going(ret)
    ensures var r := OneAfterOther(c, w, msgs, i, ret);
      r.Done? && Going(r.ret) && r.w.state == Itx && r.w.replies == rest
    decreases |codes|
  {
    hide ProcessMessage;
    if i < |msgs| {
      assert w.replies == [codes[0]] + (codes[1..] + rest);
      MessageGood(c, w, msgs[i]);
      var r := ProcessMessage(c, w, msgs[i]);
      MessagesGood(c, r.w, msgs, i + 1, r.ret, codes[1..], rest);
    }
  }

  lemma MessageGood(c: Config, w: World, msg: Msg)
    requires w.state == Itx && w.replies != [] && w.replies[0] in {DeferCommit, PreviousCommitted}
    ensures var r := ProcessMessage(c, w, msg); r.Done? && r.ret == w.replies[0] && r.w.state == Itx && r.w.replies == w.replies[1..]
  {
    hide Prepare;
    PreparedState(c, w);
  }

  /** A plugin that begins, takes the batch and ends the transaction gets it committed: with
      one commit call, or with one call for each message. */
  lemma GoodAttempt(c: Config, w: World, msgs: seq<Msg>, codes: seq<Ret>, rest: seq<Ret>)
    requires w.state == Rdy && AllTake(codes) && |codes| == (if c.hasCommit then 1 else |msgs|)
    requires w.replies == [Ok] + codes + [Ok] + rest
    ensures var r := TryCommit(c, w, msgs); r.Done? && r.ret == Ok && r.w.state == Rdy && r.w.replies == rest
  {
    hide Prepare, OneAfterOther;
    assert w.replies[1..] == codes + ([Ok] + rest);
    GoodBegin(c, w);
    var p := Prepare(c, w).w;
    if c.hasCommit {
      assert p.replies == [codes[0]] + ([Ok] + rest);
    } else {
      MessagesGood(c, p, msgs, 0, Ok, codes, [Ok] + rest);
    }
  }
}

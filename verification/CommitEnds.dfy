/** When a commit comes to an end, and when it goes on. */
module CommitEnds {
  import opened ActionStates
  import opened ActionLaws
  import opened CommitRuns
  import opened CommitLaws
  import opened ReplyLaws

  // ----- rounds that ask the plugin nothing -----

  /** n rounds of the retry loop. */
  function Rounds(c: Config, w: World, open: seq<Msg>, n: nat): (r: Next)
    decreases n
  {
    if n == 0 then Again(w)
    else match LoopRound(c, w, open)
      case Over(o) => Over(o)
      case Again(w1) => Rounds(c, w1, open, n - 1)
  }

  /** An action without a commit call that is in the failed state: nothing happens any more. */
  lemma FailedAttempt(c: Config, w: World, msgs: seq<Msg>)
    requires !c.hasCommit && w.state == Failed && msgs != []
    ensures TryCommit(c, w, msgs) == Done(w.(log := w.log + [Attempt(msgs, DataFail)]), DataFail)
  {
    hide Prepare, ProcessMessage;
    PreparedState(c, w);
    MessageTaken(c, w, msgs[0]);
  }

  lemma {:induction false} SpinsOn(c: Config, w: World, open: seq<Msg>, n: nat)
    requires !c.hasCommit && w.state == Failed && open != []
    ensures var r := Rounds(c, w, open, n); r.Again? && r.w.state == Failed && r.w.replies == w.replies
    decreases n
  {
    hide TryCommit;
    if n > 0 {
      FailedAttempt(c, w, open);
      SpinsOn(c, TryCommit(c, w, open).w, open, n - 1);
    }
  }

  lemma RoundProgress(c: Config, w: World, open: seq<Msg>)
    requires open != []
    ensures var r := LoopRound(c, w, open);
      && (r.Over? ==> !r.o.Endless?)
      && (r.Again? ==> |r.w.replies| < |w.replies| || (!c.hasCommit && r.w.state == Failed))
  {
    hide TryCommit, RetryFrom;
    TryCommitTaken(c, w, open);
  }

  /** The loop goes round for ever although there are only finitely many replies: from some round
      on it asks the plugin nothing more. */
  ghost predicate GoesOnForEver(c: Config, w: World, open: seq<Msg>) {
    forall n: nat :: Rounds(c, w, open, n).Again?
  }

  /** After some rounds the action has failed, and has no commit call. */
  ghost predicate FailsAtLast(c: Config, w: World, open: seq<Msg>) {
    !c.hasCommit && exists n: nat :: FailsAfter(c, w, open, n)
  }

  ghost predicate FailsAfter(c: Config, w: World, open: seq<Msg>, n: nat) {
    Rounds(c, w, open, n).Again? && Rounds(c, w, open, n).w.state == Failed
  }

  lemma RoundOver(c: Config, w: World, open: seq<Msg>)
    requires LoopRound(c, w, open).Over? && open != []
    ensures !GoesOnForEver(c, w, open) && !FailsAtLast(c, w, open)
  {
    hide LoopRound;
    assert !Rounds(c, w, open, 1).Again?;
    if !c.hasCommit && w.state == Failed { SpinsOn(c, w, open, 1); }
  }

  lemma OneRoundOn(c: Config, w: World, w1: World, open: seq<Msg>)
    requires LoopRound(c, w, open) == Again(w1) && open != []
    ensures GoesOnForEver(c, w, open) <==> GoesOnForEver(c, w1, open)
    ensures FailsAtLast(c, w, open) <==> FailsAtLast(c, w1, open)
  {
    hide LoopRound;
    forall n: nat ensures Rounds(c, w, open, n + 1) == Rounds(c, w1, open, n) { }
    if GoesOnForEver(c, w, open) {
      forall n: nat ensures Rounds(c, w1, open, n).Again? { assert Rounds(c, w, open, n + 1).Again?; }
    }
    if GoesOnForEver(c, w1, open) {
      forall n: nat ensures Rounds(c, w, open, n).Again? { if n > 0 { assert Rounds(c, w1, open, n - 1).Again?; } }
    }
    if FailsAtLast(c, w, open) {
      var n: nat :| FailsAfter(c, w, open, n);
      if n == 0 { SpinsOn(c, w, open, 1); }
      assert FailsAfter(c, w1, open, if n == 0 then 0 else n - 1);
    }
    if FailsAtLast(c, w1, open) {
      var n: nat :| FailsAfter(c, w1, open, n);
      assert FailsAfter(c, w, open, n + 1);
    }
  }

  lemma SpinsFrom(c: Config, w: World, open: seq<Msg>)
    requires open != [] && !c.hasCommit && w.state == Failed
    ensures GoesOnForEver(c, w, open) && FailsAtLast(c, w, open)
  {
    forall n: nat ensures Rounds(c, w, open, n).Again? { SpinsOn(c, w, open, n); }
    assert FailsAfter(c, w, open, 0);
  }

  lemma RoundWaits(c: Config, w: World, open: seq<Msg>)
    requires open != []
    ensures var r := LoopRound(c, w, open); r.Over? && r.o.Waiting? ==> r.o.w.replies == []
  {
    hide TryCommit;
    TryCommitTaken(c, w, open);
    var t := TryCommit(c, w, open);
    if t.Done? && t.w.state == Rtry { RetriedState(c, t.w, 0, Ok); }
  }

  lemma {:induction false} LoopUnfinished(c: Config, w: World, open: seq<Msg>)
    requires open != []
    ensures var r := RetryLoop(c, w, open);
      (r.Waiting? ==> r.w.replies == []) && (r.Endless? ==> !c.hasCommit && r.w.state == Failed)
    decreases |w.replies|
  {
    hide LoopRound;
    RoundProgress(c, w, open);
    RoundWaits(c, w, open);
    var r := LoopRound(c, w, open);
    if r.Again? && |r.w.replies| < |w.replies| { LoopUnfinished(c, r.w, open); }
  }

  lemma {:induction false} PassWaits(c: Config, w: World, msgs: seq<Msg>, n: nat)
    requires n <= |msgs|
    ensures var p := OneByOne(c, w, msgs, n); !p.over ==> p.w.replies == []
  {
    hide TryCommit;
    if n > 0 {
      PassWaits(c, w, msgs, n - 1);
      var p := OneByOne(c, w, msgs, n - 1);
      TryCommitTaken(c, p.w.(resumeInRow := 0), [msgs[n - 1]]);
    }
  }

  /** A commit that is not done waits for the plugin, or goes round for ever without asking it, with
      an action that has failed and has no commit call. */
  lemma CommitUnfinished(c: Config, w: World, msgs: seq<Msg>)
    ensures var r := CommitRun(c, w, msgs);
      (r.Waiting? ==> r.w.replies == []) && (r.Endless? ==> !c.hasCommit && r.w.state == Failed)
  {
    hide TryCommit, RetryLoop, OneByOne;
    if msgs != [] {
      TryCommitTaken(c, w, msgs);
      var t := TryCommit(c, w, msgs);
      LoopUnfinished(c, t.w, msgs);
      PassWaits(c, t.w, msgs, |msgs|);
      var p := OneByOne(c, t.w, msgs, |msgs|);
      if p.over && With(msgs, p.rets, Suspended) != [] { LoopUnfinished(c, p.w, With(msgs, p.rets, Suspended)); }
    }
  }

  /** The retry loop goes round for ever without asking the plugin exactly where the model calls it
      endless, and that is where an action without a commit call comes to the failed state: no
      reply can end it. */
  lemma {:induction false} EndlessExactly(c: Config, w: World, open: seq<Msg>)
    requires open != []
    ensures RetryLoop(c, w, open).Endless? <==> GoesOnForEver(c, w, open)
    ensures RetryLoop(c, w, open).Endless? <==> FailsAtLast(c, w, open)
    decreases |w.replies|
  {
    hide LoopRound, GoesOnForEver, FailsAtLast;
    RoundProgress(c, w, open);
    var r := LoopRound(c, w, open);
    if r.Over? {
      RoundOver(c, w, open);
    } else {
      OneRoundOn(c, w, r.w, open);
      if |r.w.replies| < |w.replies| {
        EndlessExactly(c, r.w, open);
      } else {
        SpinsFrom(c, r.w, open);
      }
    }
  }

  // ----- rounds that ask the plugin again and again -----

  /** An answer to a commit call that leaves a failed action failed. */
  predicate Rejects(code: Ret) { code != Ok && code != Suspended }

  /** The first n replies reject. */
  ghost predicate Rejections(replies: seq<Ret>, n: nat) {
    n <= |replies| && forall i :: 0 <= i < n ==> Rejects(replies[i])
  }

  /** A round with an action that has failed and has a commit call. */
  lemma FailedRound(c: Config, w: World, open: seq<Msg>)
    requires c.hasCommit && w.state == Failed && open != []
    ensures var r := LoopRound(c, w, open);
      if w.replies == [] then r.Over? && r.o == Waiting(w)
      else if Rejects(w.replies[0]) then r.Again? && r.w.state == Failed && r.w.replies == w.replies[1..]
      else if w.replies[0] == Ok then r.Over? && r.o.Done? && r.o.ret == Ok && r.o.w.replies == w.replies[1..]
      else r.Over? || (r.w.state == Rdy && |r.w.replies| < |w.replies| - 1)
  {
    hide Prepare, RetryFrom;
    PreparedState(c, w);
    var t := TryCommit(c, w, open);
    if t.Done? && t.w.state == Rtry { RetriedState(c, t.w, 0, Ok); }
  }

  /** With a commit call every round that is to be repeated has used a reply. */
  lemma {:induction false} RoundsUse(c: Config, w: World, open: seq<Msg>, n: nat)
    requires c.hasCommit && open != []
    ensures var r := Rounds(c, w, open, n); r.Again? ==> |r.w.replies| + n <= |w.replies|
    decreases n
  {
    hide LoopRound;
    if n > 0 {
      RoundProgress(c, w, open);
      var r := LoopRound(c, w, open);
      if r.Again? { RoundsUse(c, r.w, open, n - 1); }
    }
  }

  lemma {:induction false} RoundsSettleNothing(c: Config, w: World, open: seq<Msg>, n: nat)
    requires open != []
    ensures var r := Rounds(c, w, open, n); r.Again? ==> Settled(w, r.w, open, false)
    decreases n
  {
    hide LoopRound, Settlements;
    if n > 0 {
      RoundSettles(c, w, open);
      var r := LoopRound(c, w, open);
      if r.Again? { RoundsSettleNothing(c, r.w, open, n - 1); }
    }
  }

  /** n rounds were made and are to be repeated, each with one call of the plugin, with nothing
      settled and the action still failed. */
  ghost predicate StillFailed(c: Config, w: World, open: seq<Msg>, n: nat) {
    var r := Rounds(c, w, open, n);
    r.Again? && r.w.state == Failed && n <= |w.replies| && r.w.replies == w.replies[n..] && Settled(w, r.w, open, false)
  }

  lemma RejectionsStep(replies: seq<Ret>, n: nat)
    requires n > 0 && replies != [] && Rejects(replies[0])
    ensures Rejections(replies, n) <==> Rejections(replies[1..], n - 1)
  {
    if Rejections(replies[1..], n - 1) {
      forall i | 0 <= i < n ensures Rejects(replies[i]) { if i > 0 { assert replies[i] == replies[1..][i - 1]; } }
    }
  }

  /** An action that has failed and has a commit call is tried again for exactly as long as the
      plugin answers neither OK nor suspended, under every retry limit. */
  lemma {:induction false} RejectedExactly(c: Config, w: World, open: seq<Msg>, n: nat)
    requires c.hasCommit && w.state == Failed && open != []
    ensures StillFailed(c, w, open, n) <==> Rejections(w.replies, n)
    decreases n
  {
    hide LoopRound, Settled;
    RoundsSettleNothing(c, w, open, n);
    if n > 0 {
      FailedRound(c, w, open);
      var r := LoopRound(c, w, open);
      if w.replies != [] && Rejects(w.replies[0]) {
        RejectedExactly(c, r.w, open, n - 1);
        RoundsSettleNothing(c, r.w, open, n - 1);
        assert Rejections(w.replies, n) <==> Rejections(r.w.replies, n - 1) by { RejectionsStep(w.replies, n); }
        assert n <= |w.replies| ==> r.w.replies[n - 1..] == w.replies[n..];
      } else if r.Again? {
        RoundsUse(c, r.w, open, n - 1);
      }
    }
  }

  /** So the loop waits for more while all replies reject; the first OK ends it. */
  lemma {:induction false} RejectedLoop(c: Config, w: World, open: seq<Msg>)
    requires c.hasCommit && w.state == Failed && open != []
    ensures Rejections(w.replies, |w.replies|) ==> RetryLoop(c, w, open).Waiting?
    ensures forall k: nat :: k < |w.replies| && Rejections(w.replies, k) && w.replies[k] == Ok ==>
      var r := RetryLoop(c, w, open); r.Done? && r.ret == Ok && r.w.replies == w.replies[k + 1..]
    decreases |w.replies|
  {
    hide LoopRound;
    FailedRound(c, w, open);
    var r := LoopRound(c, w, open);
    if w.replies != [] && Rejects(w.replies[0]) {
      RejectedLoop(c, r.w, open);
      RejectionsStep(w.replies, |w.replies|);
      forall k: nat | k < |w.replies| && Rejections(w.replies, k) && w.replies[k] == Ok
        ensures var o := RetryLoop(c, w, open); o.Done? && o.ret == Ok && o.w.replies == w.replies[k + 1..]
      {
        RejectionsStep(w.replies, k);
        assert r.w.replies[k - 1] == Ok && r.w.replies[k..] == w.replies[k + 1..];
      }
    }
  }

  lemma EndedAttempt(c: Config, w: World, open: seq<Msg>, take: Ret, code: Ret, rest: seq<Ret>)
    requires c.hasCommit && w.state == Itx && w.replies == [take, code] + rest && take in {DeferCommit, PreviousCommitted}
    ensures var t := TryCommit(c, w, open);
      && t.Done? && t.w.replies == rest
      && t.w.state == (if code in {Ok, DeferCommit, PreviousCommitted} then Rdy else if code == Suspended then Rtry else Itx)
      && t.ret == (if t.w.state == Rdy then Ok else if code == DisableAction then DeferCommit else code)
  {
    hide Prepare;
    PreparedState(c, w);
    assert w.replies[1..] == [code] + rest && w.replies[1..][1..] == rest;
  }

  /** The answer to the end of a transaction: with a commit call a batch that was taken is given
      to the plugin again exactly if the end is refused, unless with "action failed" or a forced
      end, which give the batch up. */
  lemma EndAnswer(c: Config, w: World, open: seq<Msg>, take: Ret, code: Ret, rest: seq<Ret>)
    requires c.hasCommit && w.state == Itx && open != []
    requires w.replies == [take, code] + rest && take in {DeferCommit, PreviousCommitted}
    ensures var r := LoopRound(c, w, open);
      && (r.Again? && r.w.state == Itx && r.w.replies == rest <==> code in {DisableAction, DataFail} || code.OtherError?)
      && (code in {Ok, DeferCommit, PreviousCommitted} ==> r.Over? && r.o.Done? && r.o.ret == Ok)
      && (code in {ActionFailed, ForceTerm} ==> r.Over? && r.o.Done? && r.o.ret == code)
  {
    hide TryCommit, RetryFrom;
    EndedAttempt(c, w, open, take, code, rest);
    var t := TryCommit(c, w, open);
    if t.w.state == Rtry { RetriedState(c, t.w, 0, Ok); }
  }

  // ----- a run that does not end -----

  /** The begin fails, each message alone is resumed and fails to begin, and the last attempt
      gets as far as the first message, which the plugin rejects. */
  function FailingReplies(n: nat): seq<Ret> {
    [Suspended] + (if n == 1 then [] else Cycles(n)) + [Ok, Ok, DataFail]
  }

  lemma {:induction false} CyclesEnd(n: nat)
    ensures Cycles(n + 1) == Cycles(n) + [Ok, Suspended]
  {
    if n > 0 {
      CyclesEnd(n - 1);
      assert [Ok, Suspended] + (Cycles(n - 1) + [Ok, Suspended]) == ([Ok, Suspended] + Cycles(n - 1)) + [Ok, Suspended];
    }
  }

  lemma FirstFails(c: Config, w: World, msgs: seq<Msg>)
    requires w.state == Rdy && w.replies != [] && w.replies[0] == Suspended
    ensures var r := TryCommit(c, w, msgs);
      r.Done? && r.ret == Suspended && r.w.state == Rtry && r.w.resumeInRow == w.resumeInRow + 1 && r.w.replies == w.replies[1..]
  {
  }

  lemma CycleFails(c: Config, w: World, m: Msg, rest: seq<Ret>)
    requires w.state == Rtry && w.replies == [Ok, Suspended] + rest
    ensures var r := TryOne(c, w, m);
      r.Done? && r.ret == Suspended && r.w.state == Rtry && r.w.resumeInRow == 1 && r.w.replies == rest
  {
    hide Prepare;
    CycleOnce(c, w.(resumeInRow := 0));
  }

  lemma WithNone(kind: Ret)
    ensures With([], [], kind) == []
  {
  }

  lemma {:induction false} AllFail(c: Config, w: World, msgs: seq<Msg>, n: nat, rest: seq<Ret>)
    requires w.state == Rtry && w.replies == Cycles(n) + rest && n <= |msgs|
    ensures var p := OneByOne(c, w, msgs, n);
      && p.over && p.w.state == Rtry && p.w.replies == rest && (n > 0 ==> p.w.resumeInRow == 1)
      && With(msgs[..n], p.rets, Suspended) == msgs[..n]
      && (n == 1 ==> p.rets == [Suspended])
  {
    hide TryOne, With;
    if n == 0 {
      WithNone(Suspended);
    } else {
      CyclesEnd(n - 1);
      assert w.replies == Cycles(n - 1) + ([Ok, Suspended] + rest);
      AllFail(c, w, msgs, n - 1, [Ok, Suspended] + rest);
      var p := OneByOne(c, w, msgs, n - 1);
      CycleFails(c, p.w, msgs[n - 1], rest);
      WithStep(msgs[..n - 1], p.rets, msgs[n - 1], Suspended, Suspended);
      assert msgs[..n] == msgs[..n - 1] + [msgs[n - 1]];
    }
  }

  lemma FailedLoop(c: Config, w: World, open: seq<Msg>)
    requires !c.hasCommit && w.state == Failed && open != []
    ensures RetryLoop(c, w, open).Endless?
  {
    hide TryCommit;
    FailedAttempt(c, w, open);
  }

  lemma UnfoldLoop(c: Config, w: World, open: seq<Msg>)
    ensures var r := LoopRound(c, w, open);
      RetryLoop(c, w, open) ==
      (if r.Over? then r.o else if |r.w.replies| < |w.replies| then RetryLoop(c, r.w, open) else Endless(r.w))
  {
  }

  lemma BeginsAgain(c: Config, w: World)
    requires w.state == Rtry && w.resumeInRow <= 9 && |w.replies| >= 2 && w.replies[0] == Ok && w.replies[1] == Ok
    ensures var r := Prepare(c, w); r.Done? && r.ret == Ok && r.w.state == Itx && r.w.replies == w.replies[2..]
  {
    var round := RetryRound(c, w, 0);
    assert DoRetry(c, w) == RetryFrom(c, round.w, 0, Ok);
  }

  lemma RejectedAttempt(c: Config, w: World, open: seq<Msg>, more: seq<Ret>)
    requires w.state == Rtry && w.resumeInRow <= 1 && w.replies == [Ok, Ok, DataFail] + more && open != []
    ensures var r := TryCommit(c, w, open); r.Done? && r.ret == DataFail && r.w.state == Failed && r.w.replies == more
  {
    hide Prepare;
    BeginsAgain(c, w);
    var p := Prepare(c, w).w;
    PreparedState(c, p);
    assert p.replies == [DataFail] + more;
  }

  /** What the retry loop does with an action that has failed and with replies that all reject. */
  ghost predicate Unended(c: Config, o: Outcome) { if c.hasCommit then o.Waiting? else o.Endless? }

  lemma LastRejects(c: Config, w: World, open: seq<Msg>, more: seq<Ret>)
    requires w.state == Rtry && w.resumeInRow <= 1 && w.replies == [Ok, Ok, DataFail] + more && open != [] && Rejections(more, |more|)
    ensures Unended(c, RetryLoop(c, w, open))
  {
    hide TryCommit, RetryLoop, Rejections;
    RejectedAttempt(c, w, open, more);
    var w1 := TryCommit(c, w, open).w;
    if c.hasCommit { RejectedLoop(c, w1, open); } else { FailedLoop(c, w1, open); }
    UnfoldLoop(c, w, open);
  }

  /** The plugin resumes and begins, but rejects what it is given, and goes on rejecting: without a
      commit call the commit goes round without asking, with one it asks again and again. */
  lemma RejectedRun(c: Config, msgs: seq<Msg>, more: seq<Ret>)
    requires msgs != [] && Rejections(more, |more|)
    ensures Unended(c, CommitRun(c, Fresh(FailingReplies(|msgs|) + more), msgs))
  {
    hide TryCommit, RetryLoop, OneByOne, Rejections, Unended;
    var n := |msgs|;
    var last := [Ok, Ok, DataFail] + more;
    var w := Fresh(FailingReplies(n) + more);
    FirstFails(c, w, msgs);
    var t := TryCommit(c, w, msgs).w;
    if n == 1 {
      assert t.replies == last;
      LastRejects(c, t, msgs, more);
    } else {
      assert t.replies == Cycles(n) + last;
      AllFail(c, t, msgs, n, last);
      assert msgs[..n] == msgs;
      LastRejects(c, OneByOne(c, t, msgs, n).w, msgs, more);
    }
  }

  /** One message and a commit call: after the first rejection the message is tried again, with
      whatever the plugin answers next. */
  lemma RejectedExample(c: Config, m: Msg, more: seq<Ret>)
    requires c.hasCommit
    ensures var t := TryCommit(c, Fresh([Suspended, Ok, Ok, DataFail] + more), [m]);
      && t.Done? && t.ret == Suspended
      && var r := LoopRound(c, t.w, [m]); r.Again? && r.w.state == Failed && r.w.replies == more
  {
    hide TryCommit;
    var w := Fresh([Suspended, Ok, Ok, DataFail] + more);
    FirstFails(c, w, [m]);
    assert w.replies[1..] == [Ok, Ok, DataFail] + more;
    RejectedAttempt(c, TryCommit(c, w, [m]).w, [m], more);
  }

  lemma RunsForEver(c: Config, msgs: seq<Msg>)
    requires !c.hasCommit && msgs != []
    ensures CommitRun(c, Fresh(FailingReplies(|msgs|)), msgs).Endless?
  {
    hide CommitRun;
    assert FailingReplies(|msgs|) + [] == FailingReplies(|msgs|);
    RejectedRun(c, msgs, []);
  }

  lemma RejectedAlone(c: Config, w: World, m: Msg)
    requires !c.hasCommit && w.state == Rtry && w.replies == [Ok, Ok, DataFail]
    ensures var r := TryOne(c, w, m); r.Done? && r.ret == DataFail && r.w.state == Failed
  {
    hide TryCommit;
    assert w.replies == [Ok, Ok, DataFail] + [];
    RejectedAttempt(c, w.(resumeInRow := 0), [m], []);
  }

  lemma FirstKept(msgs: seq<Msg>)
    requires |msgs| == 2
    ensures With(msgs, [Suspended, DataFail], Suspended) == [msgs[0]]
  {
    hide With;
    var none: seq<Msg>, nothing: seq<Ret> := [], [];
    WithNone(Suspended);
    assert msgs == [msgs[0]] + [msgs[1]] && [Suspended, DataFail] == [Suspended] + [DataFail];
    WithStep([msgs[0]], [Suspended], msgs[1], DataFail, Suspended);
    assert none + [msgs[0]] == [msgs[0]] && nothing + [Suspended] == [Suspended];
    WithStep(none, nothing, msgs[0], Suspended, Suspended);
  }

  lemma SecondRejected(c: Config, p: Pass, t: World, msgs: seq<Msg>)
    requires !c.hasCommit && |msgs| == 2 && p == OneByOne(c, t, msgs, 1)
    requires p.over && p.rets == [Suspended] && p.w.state == Rtry && p.w.replies == [Ok, Ok, DataFail]
    ensures var q := OneByOne(c, t, msgs, 2);
      q.over && With(msgs, q.rets, Suspended) == [msgs[0]] && RetryLoop(c, q.w, [msgs[0]]).Endless?
  {
    hide TryOne, RetryLoop;
    RejectedAlone(c, p.w, msgs[1]);
    var q := OneByOne(c, t, msgs, 2);
    assert q.rets == [Suspended, DataFail];
    FirstKept(msgs);
    FailedLoop(c, q.w, [msgs[0]]);
  }

  /** Also when another message of the batch is the one rejected: the message that stayed
      suspended is then tried for ever, without a call of the plugin. */
  lemma EndlessExample(c: Config, m0: Msg, m1: Msg)
    requires !c.hasCommit
    ensures CommitRun(c, Fresh([Suspended, Ok, Suspended, Ok, Ok, DataFail]), [m0, m1]).Endless?
  {
    hide TryCommit, RetryLoop, OneByOne, TryOne;
    var msgs, w := [m0, m1], Fresh([Suspended, Ok, Suspended, Ok, Ok, DataFail]);
    FirstFails(c, w, msgs);
    var t := TryCommit(c, w, msgs).w;
    assert t.replies == Cycles(1) + [Ok, Ok, DataFail];
    AllFail(c, t, msgs, 1, [Ok, Ok, DataFail]);
    var p := OneByOne(c, t, msgs, 1);
    SecondRejected(c, p, t, msgs);
  }

  lemma CommitNotEndless(c: Config, w: World, msgs: seq<Msg>)
    requires c.hasCommit
    ensures !CommitRun(c, w, msgs).Endless?
  {
    hide TryCommit, RetryLoop, OneByOne;
    if msgs != [] {
      var t := TryCommit(c, w, msgs);
      EndlessExactly(c, t.w, msgs);
      var p := OneByOne(c, t.w, msgs, |msgs|);
      if p.over && With(msgs, p.rets, Suspended) != [] {
        EndlessExactly(c, p.w, With(msgs, p.rets, Suspended));
      }
    }
  }

  /** Whatever the plugin says a commit is over or goes on asking it, exactly if the plugin has a
      commit call or there is nothing to commit. */
  lemma CommitKeepsAsking(c: Config, msgs: seq<Msg>)
    ensures (forall replies :: !CommitRun(c, Fresh(replies), msgs).Endless?) <==> c.hasCommit || msgs == []
    ensures c.hasCommit ==> forall w :: !CommitRun(c, w, msgs).Endless?
  {
    if c.hasCommit {
      forall w ensures !CommitRun(c, w, msgs).Endless? { CommitNotEndless(c, w, msgs); }
    } else if msgs != [] {
      RunsForEver(c, msgs);
    }
  }

  // ----- plugins that answer for ever -----

  function Prefix(plugin: nat -> Ret, n: nat): (r: seq<Ret>)
    ensures |r| == n
  {
    seq(n, i requires 0 <= i < n => plugin(i))
  }

  /** A commit ends with a plugin: it does so after finitely many of its answers. */
  ghost predicate Ends(c: Config, plugin: nat -> Ret, msgs: seq<Msg>) {
    exists n: nat :: CommitRun(c, Fresh(Prefix(plugin, n)), msgs).Done?
  }

  /** A plugin that rejects a batch of n messages for ever. */
  function Rejecting(n: nat): nat -> Ret {
    var first := FailingReplies(n);
    (i: nat) => if i < |first| then first[i] else DataFail
  }

  lemma RejectingNever(c: Config, msgs: seq<Msg>, n: nat)
    requires msgs != []
    ensures !CommitRun(c, Fresh(Prefix(Rejecting(|msgs|), n)), msgs).Done?
  {
    hide CommitRun, FailingReplies;
    var plugin, first := Rejecting(|msgs|), FailingReplies(|msgs|);
    var now := Prefix(plugin, n);
    var m := if n < |first| then |first| else n;
    var more := seq(m - |first|, i => DataFail);
    assert Prefix(plugin, m) == first + more;
    RejectedRun(c, msgs, more);
    var later := Prefix(plugin, m)[n..];
    assert Prefix(plugin, m) == now + later;
    CommitLater(c, Fresh(now), msgs, later);
  }

  /** A commit ends with every plugin exactly if there is nothing to commit. */
  lemma CommitAlwaysEnds(c: Config, msgs: seq<Msg>)
    ensures (forall plugin :: Ends(c, plugin, msgs)) <==> msgs == []
  {
    if msgs == [] {
      forall plugin ensures Ends(c, plugin, msgs) { assert CommitRun(c, Fresh(Prefix(plugin, 0)), msgs).Done?; }
    } else {
      var plugin := Rejecting(|msgs|);
      forall n: nat ensures !CommitRun(c, Fresh(Prefix(plugin, n)), msgs).Done? { RejectingNever(c, msgs, n); }
      assert !Ends(c, plugin, msgs);
    }
  }
}

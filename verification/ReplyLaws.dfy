/** What a call does depends on the replies it uses only: with more replies behind them it does the
    same, and leaves those untouched. So a finite sequence of replies stands for every plugin
    that begins with them. */
module ReplyLaws {
  import opened ActionStates
  import opened CommitRuns

  function More(w: World, more: seq<Ret>): World { w.(replies := w.replies + more) }

  /** The same outcome with more replies left. */
  function Later(o: Outcome, more: seq<Ret>): Outcome {
    match o
    case Done(w, ret) => Done(More(w, more), ret)
    case Waiting(w) => Waiting(More(w, more))
    case Endless(w) => Endless(More(w, more))
  }

  lemma AfterLater(w: World, call: Call, more: seq<Ret>)
    requires w.replies != []
    ensures More(w, more).replies[0] == w.replies[0] && After(More(w, more), call) == More(After(w, call), more)
  {
  }

  lemma RoundLater(c: Config, w: World, iRetries: nat, more: seq<Ret>)
    requires w.replies != []
    ensures var r := RetryRound(c, w, iRetries); RetryRound(c, More(w, more), iRetries) == r.(w := More(r.w, more))
  {
    hide Duration;
    AfterLater(w, TryResume, more);
  }

  lemma {:induction false} RetryLater(c: Config, w: World, iRetries: nat, ret: Ret, more: seq<Ret>)
    ensures var r := RetryFrom(c, w, iRetries, ret); r.Done? ==> RetryFrom(c, More(w, more), iRetries, ret) == Later(r, more)
    decreases |w.replies|, if w.state == Rtry then 1 else 0
  {
    hide RetryRound;
    if w.state == Rtry && w.replies != [] {
      RoundLater(c, w, iRetries, more);
      var r := RetryRound(c, w, iRetries);
      RoundShorter(c, w, iRetries);
      RetryLater(c, r.w, r.retries, r.ret, more);
    }
  }

  lemma RoundShorter(c: Config, w: World, iRetries: nat)
    requires w.replies != []
    ensures |RetryRound(c, w, iRetries).w.replies| < |w.replies|
  {
  }

  lemma ResumeLater(c: Config, w: World, more: seq<Ret>)
    ensures var r := ActionTryResume(c, w); r.Done? ==> ActionTryResume(c, More(w, more)) == Later(r, more)
  {
    hide RetryFrom;
    RetryLater(c, Recheck(c, w), 0, Ok, more);
    assert Recheck(c, More(w, more)) == More(Recheck(c, w), more);
  }

  lemma BeginLater(w: World, more: seq<Ret>)
    ensures var r := BeginTransaction(w); r.Done? ==> BeginTransaction(More(w, more)) == Later(r, more)
  {
    if w.replies != [] { AfterLater(w, Begin, more); }
  }

  lemma PrepareLater(c: Config, w: World, more: seq<Ret>)
    ensures var r := Prepare(c, w); r.Done? ==> Prepare(c, More(w, more)) == Later(r, more)
  {
    hide ActionTryResume, BeginTransaction;
    ResumeLater(c, w, more);
    BeginLater(ActionTryResume(c, w).w, more);
  }

  lemma HandledLater(w: World, code: Ret, more: seq<Ret>)
    ensures var s := Handled(w, code); Handled(More(w, more), code) == s.(w := More(s.w, more))
    ensures Coded(More(w, more)) == Later(Coded(w), more)
  {
  }

  lemma SubmittedLater(w: World, call: Call, more: seq<Ret>)
    ensures var r := Submitted(w, call); r.Done? ==> Submitted(More(w, more), call) == Later(r, more)
  {
    hide Handled;
    if w.replies != [] {
      AfterLater(w, call, more);
      HandledLater(After(w, call), w.replies[0], more);
    }
  }

  lemma MessageLater(c: Config, w: World, msg: Msg, more: seq<Ret>)
    ensures var r := ProcessMessage(c, w, msg); r.Done? ==> ProcessMessage(c, More(w, more), msg) == Later(r, more)
  {
    hide Prepare, Submitted, Coded;
    PrepareLater(c, w, more);
    var p := Prepare(c, w);
    HandledLater(p.w, Ok, more);
    var q := p.w.(hadAutoCommit := false);
    SubmittedLater(q, DoAction(msg), more);
    assert More(p.w, more).(hadAutoCommit := false) == More(q, more);
    HandledLater(Submitted(q, DoAction(msg)).w, Ok, more);
  }

  lemma {:induction false} MessagesLater(c: Config, w: World, msgs: seq<Msg>, i: nat, ret: Ret, more: seq<Ret>)
    ensures var r := OneAfterOther(c, w, msgs, i, ret); r.Done? ==> OneAfterOther(c, More(w, more), msgs, i, ret) == Later(r, more)
    decreases |w.replies|, |msgs| - i
  {
    hide ProcessMessage;
    if i < |msgs| {
      SuspendedAsked(c, w, msgs[i]);
      MessageLater(c, w, msgs[i], more);
      var r := ProcessMessage(c, w, msgs[i]);
      if r.Done? && (r.ret == Suspended || Going(r.ret)) {
        MessagesLater(c, r.w, msgs, if r.ret == Suspended then i else i + 1, r.ret, more);
      }
    }
  }

  lemma TransactionLater(c: Config, w: World, msgs: seq<Msg>, more: seq<Ret>)
    ensures var r := Transaction(c, w, msgs); r.Done? ==> Transaction(c, More(w, more), msgs) == Later(r, more)
  {
    hide Submitted, OneAfterOther;
    SubmittedLater(w, Commit(msgs), more);
    MessagesLater(c, w, msgs, 0, Ok, more);
  }

  lemma EndLater(w: World, more: seq<Ret>)
    ensures var r := EndTransaction(w); r.Done? ==> EndTransaction(More(w, more)) == Later(r, more)
  {
    if w.replies != [] { AfterLater(w, End, more); }
  }

  lemma AttemptLater(c: Config, w: World, msgs: seq<Msg>, more: seq<Ret>)
    ensures var r := TryCommit(c, w, msgs); r.Done? ==> TryCommit(c, More(w, more), msgs) == Later(r, more)
  {
    hide Prepare, Transaction, EndTransaction;
    PrepareLater(c, w, more);
    var p := Prepare(c, w).w;
    TransactionLater(c, p, msgs, more);
    EndLater(Transaction(c, p, msgs).w, more);
  }

  lemma OneLater(c: Config, w: World, m: Msg, more: seq<Ret>)
    ensures var r := TryOne(c, w, m); r.Done? ==> TryOne(c, More(w, more), m) == Later(r, more)
  {
    hide TryCommit;
    var w0 := w.(resumeInRow := 0);
    AttemptLater(c, w0, [m], more);
    assert More(w, more).(resumeInRow := 0) == More(w0, more);
  }

  lemma {:induction false} PassLater(c: Config, w: World, msgs: seq<Msg>, n: nat, more: seq<Ret>)
    requires n <= |msgs|
    ensures var p := OneByOne(c, w, msgs, n); p.over ==> OneByOne(c, More(w, more), msgs, n) == p.(w := More(p.w, more))
  {
    hide TryOne;
    if n > 0 {
      PassLater(c, w, msgs, n - 1, more);
      OneLater(c, OneByOne(c, w, msgs, n - 1).w, msgs[n - 1], more);
    }
  }

  lemma LoopRoundLater(c: Config, w: World, open: seq<Msg>, more: seq<Ret>)
    ensures var r := LoopRound(c, w, open);
      && (r.Over? && !r.o.Waiting? ==> LoopRound(c, More(w, more), open) == Over(Later(r.o, more)))
      && (r.Again? ==> LoopRound(c, More(w, more), open) == Again(More(r.w, more)))
  {
    hide TryCommit, RetryFrom;
    AttemptLater(c, w, open, more);
    RetryLater(c, TryCommit(c, w, open).w, 0, Ok, more);
  }

  lemma {:induction false} LoopLater(c: Config, w: World, open: seq<Msg>, more: seq<Ret>)
    ensures var r := RetryLoop(c, w, open); !r.Waiting? ==> RetryLoop(c, More(w, more), open) == Later(r, more)
    decreases |w.replies|
  {
    hide LoopRound;
    LoopRoundLater(c, w, open, more);
    var r := LoopRound(c, w, open);
    if r.Again? && |r.w.replies| < |w.replies| { LoopLater(c, r.w, open, more); }
  }

  /** A commit that is over, or goes round for ever without asking, does the same with every
      plugin that answers as far as it asked. */
  lemma CommitLater(c: Config, w: World, msgs: seq<Msg>, more: seq<Ret>)
    ensures var r := CommitRun(c, w, msgs); !r.Waiting? ==> CommitRun(c, More(w, more), msgs) == Later(r, more)
  {
    hide TryCommit, RetryLoop, OneByOne, With;
    if msgs != [] && w.state != Susp {
      AttemptLater(c, w, msgs, more);
      var t := TryCommit(c, w, msgs).w;
      LoopLater(c, t, msgs, more);
      PassLater(c, t, msgs, |msgs|, more);
      var p := OneByOne(c, t, msgs, |msgs|);
      if p.over { LoopLater(c, p.w, With(msgs, p.rets, Suspended), more); }
    }
  }
}

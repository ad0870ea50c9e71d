/** The action engine: one action and the worker's information about it, changed in place by
    the functions of action.c. Each method is the step that the state machine prescribes. */
module ActionEngine {
  import opened ActionStates
  import opened ActionLaws

  lemma RoundUses(c: Config, w: World, iRetries: nat)
    ensures w.replies != [] ==> RetryRound(c, w, iRetries).w.replies == w.replies[1..]
  {
  }

  lemma NothingToAsk(c: Config, w: World)
    requires w.state == Rtry && w.replies == []
    ensures DoRetry(c, w) == Waiting(w)
  {
  }

  class Engine {
    // configuration of the action
    const retryCount: int
    const interval: int
    const intervalMax: int
    const hasCommit: bool
    // the action
    var resumeAt: int
    var disabled: bool
    // the worker's information about the action
    var state: State
    var resumeInRow: nat
    var nbrResRtry: nat
    var hadAutoCommit: bool
    // the environment: replies still to come, the clock
    var replies: seq<Ret>
    const clock: nat -> int
    var clockReads: nat
    // what happened
    ghost var log: seq<Event>
    ghost var suspensions: seq<int>
    ghost var backoff: seq<int>

    constructor (retryCount: int, interval: int, intervalMax: int, hasCommit: bool, replies: seq<Ret>, clock: nat -> int)
      ensures Setup() == Config(retryCount, interval, intervalMax, hasCommit, clock)
      ensures Snapshot() == Fresh(replies) && Valid()
    {
      this.retryCount, this.interval, this.intervalMax, this.hasCommit := retryCount, interval, intervalMax, hasCommit;
      this.replies, this.clock, clockReads := replies, clock, 0;
      state, resumeInRow, nbrResRtry, hadAutoCommit, resumeAt, disabled := Rdy, 0, 0, false, 0, false;
      log, suspensions, backoff := [], [], [];
    }

    ghost function Setup(): Config { Config(retryCount, interval, intervalMax, hasCommit, clock) }

    ghost function Snapshot(): World
      reads this
    {
      World(resumeAt, disabled, state, resumeInRow, nbrResRtry, hadAutoCommit, replies, clockReads, log, suspensions, backoff)
    }

    ghost predicate Valid()
      reads this
    {
      Inv(Setup(), Snapshot())
    }

    /** The method did what the state machine prescribes, or is still waiting for a reply. */
    ghost predicate Did(o: Outcome, finished: bool, iRet: Ret)
      reads this
    {
      Snapshot() == o.w && finished == o.Done? && (finished ==> iRet == o.ret)
    }

    method GetTime() returns (now: int)
      modifies this`clockReads
      ensures now == clock(old(clockReads)) && clockReads == old(clockReads) + 1
    {
      now := clock(clockReads);
      clockReads := clockReads + 1;
    }

    /** A call into the plugin. */
    method Ask(ghost call: Call) returns (got: bool, code: Ret)
      modifies this`replies, this`log
      ensures got == (old(replies) != [])
      ensures got ==> code == old(replies)[0] && Snapshot() == After(old(Snapshot()), call)
      ensures !got ==> Snapshot() == old(Snapshot())
    {
      got, code := replies != [], Ok;
      if got {
        code, replies := replies[0], replies[1..];
        log := log + [Asked(call, code)];
      }
    }

    method ActionRetry()
      modifies this`state, this`resumeInRow
      ensures Snapshot() == ToRetry(old(Snapshot()))
    {
      state := Rtry;
      resumeInRow := resumeInRow + 1;
    }

    /** actionSuspend, and the step of the retry number that goes with it. */
    method ActionSuspend()
      modifies this`state, this`resumeAt, this`clockReads, this`nbrResRtry, this`suspensions, this`backoff
      ensures Snapshot() == ToSuspended(Setup(), old(Snapshot()))
      ensures resumeAt == clock(old(clockReads)) + Duration(interval, intervalMax, old(nbrResRtry)) && state == Susp
    {
      var ttNow := GetTime();
      var suspendDuration := interval * (nbrResRtry / 10 + 1);
      if intervalMax > 0 && suspendDuration > intervalMax {
        suspendDuration := intervalMax;
      }
      resumeAt := ttNow + suspendDuration;
      state := Susp;
      suspensions := suspensions + [suspendDuration];
      backoff := backoff + [suspendDuration];
      if nbrResRtry < 20 {
        nbrResRtry := nbrResRtry + 1;
      }
    }

    /** One round of the loop of actionDoRetry. */
    method Retry(iRetries: nat) returns (got: bool, iRet: Ret, retries: nat)
      modifies this
      ensures got == (old(replies) != [])
      ensures got ==> Round(Snapshot(), iRet, retries) == RetryRound(Setup(), old(Snapshot()), iRetries)
      ensures !got ==> Snapshot() == old(Snapshot()) && retries == iRetries
    {
      hide Duration;
      retries, iRet := iRetries, Ok;
      var code;
      got, code := Ask(TryResume);
      if !got { return; }
      iRet := code;
      var treatOkAsSusp := resumeInRow > 9 && resumeInRow % 10 == 0;
      if treatOkAsSusp {
        resumeInRow := 0;
        iRet := Suspended;
      }
      if iRet == Ok && !treatOkAsSusp {
        state := Rdy;
      } else if iRet == Suspended || treatOkAsSusp {
        if retryCount != -1 && iRetries >= retryCount {
          ActionSuspend();
        } else {
          retries := iRetries + 1;
        }
      } else if iRet == DisableAction {
        disabled := true;
      }
    }

    /** actionDoRetry without shutdown. */
    method ActionDoRetry() returns (finished: bool, iRet: Ret)
      modifies this
      ensures Did(DoRetry(Setup(), old(Snapshot())), finished, iRet)
      ensures old(state) in {Rtry, Susp} ==> Kept(Setup(), old(Snapshot()), Snapshot())
      ensures old(state) == Rtry && finished ==> EndsWell(Snapshot(), iRet)
    {
      hide RetryRound, Kept;
      if state in {Rtry, Susp} { DoRetryKept(Setup(), Snapshot()); }
      if state == Rtry { RetriedState(Setup(), Snapshot(), 0, Ok); }
      iRet := Ok;
      var iRetries: nat := 0;
      while state == Rtry
        invariant RetryFrom(Setup(), Snapshot(), iRetries, iRet) == DoRetry(Setup(), old(Snapshot()))
        decreases |replies|, if state == Rtry then 1 else 0
      {
        RoundUses(Setup(), Snapshot(), iRetries);
        var got;
        got, iRet, iRetries := Retry(iRetries);
        if !got { return false, iRet; }
      }
      if state == Rdy {
        nbrResRtry := 0;
        backoff := [];
      }
      finished := true;
    }

    /** actionTryResume. */
    method ActionTryResume() returns (finished: bool, iRet: Ret)
      modifies this
      ensures Did(ActionStates.ActionTryResume(Setup(), old(Snapshot())), finished, iRet)
      ensures Kept(Setup(), old(Snapshot()), Snapshot())
      ensures old(state) == Susp && clock(old(clockReads)) < old(resumeAt) ==>
        finished && iRet == Ok && Snapshot() == old(Snapshot()).(clockReads := old(clockReads) + 1)
      ensures old(state) == Susp && clock(old(clockReads)) >= old(resumeAt) ==>
        if old(replies) == [] then !finished else old(log) + [Asked(TryResume, old(replies)[0])] <= log
    {
      hide RetryFrom, Kept;
      ResumeKept(Setup(), Snapshot());
      RetryAsks(Setup(), Recheck(Setup(), Snapshot()), 0, Ok);
      if Recheck(Setup(), Snapshot()).state == Rtry && replies == [] { NothingToAsk(Setup(), Recheck(Setup(), Snapshot())); }
      finished, iRet := true, Ok;
      if state == Susp {
        var ttNow := GetTime();
        if ttNow >= resumeAt {
          state := Rtry;
        }
      }
      if state == Rtry {
        finished, iRet := ActionDoRetry();
      }
    }

    /** actionPrepare, for an action without an external state file. */
    method ActionPrepare() returns (finished: bool, iRet: Ret)
      modifies this
      ensures Did(Prepare(Setup(), old(Snapshot())), finished, iRet)
      ensures Kept(Setup(), old(Snapshot()), Snapshot())
    {
      hide ActionStates.ActionTryResume, Kept;
      PrepareKept(Setup(), Snapshot());
      finished, iRet := ActionTryResume();
      if !finished || iRet != Ok { return; }
      if state == Rdy {
        var got;
        got, iRet := Ask(Begin);
        if !got { return false, iRet; }
        match iRet {
          case Ok => state := Itx;
          case Suspended => ActionRetry();
          case DisableAction => disabled := true;
          case _ =>
        }
      }
    }

    /** getReturnCode. */
    method GetReturnCode() returns (iRet: Ret)
      modifies this`hadAutoCommit
      ensures Step(Snapshot(), iRet) == ReturnCode(old(Snapshot()))
    {
      match state {
        case Rdy => iRet := Ok;
        case Itx =>
          if hadAutoCommit {
            hadAutoCommit := false;
            iRet := PreviousCommitted;
          } else {
            iRet := DeferCommit;
          }
        case Rtry => iRet := Suspended;
        case Susp => iRet := ActionFailed;
        case Failed => iRet := DataFail;
      }
    }

    /** handleActionExecResult: the plugin's code moves the state, and the state gives the
        return code. A code that disables the action leaves the state as it is. */
    method HandleActionExecResult(ret: Ret) returns (iRet: Ret)
      modifies this`state, this`resumeInRow, this`disabled, this`hadAutoCommit
      ensures Step(Snapshot(), iRet) == Handled(old(Snapshot()), ret)
    {
      match ret {
        case Ok =>
          state := Rdy;
          resumeInRow := 0;
        case DeferCommit =>
          resumeInRow := 0;
        case PreviousCommitted =>
          hadAutoCommit := true;
          resumeInRow := 0;
        case DisableAction =>
          disabled := true;
        case Suspended =>
          ActionRetry();
        case _ =>
          state := Failed;
      }
      iRet := GetReturnCode();
    }

    /** actionCallCommitTransaction, and the same part of actionCallDoAction. */
    method Submit(ghost call: Call) returns (finished: bool, iRet: Ret)
      modifies this
      ensures Did(Submitted(old(Snapshot()), call), finished, iRet)
    {
      hide Handled;
      var code;
      finished, code := Ask(call);
      if !finished { return false, code; }
      iRet := HandleActionExecResult(code);
    }

    /** actionProcessMessage: one message through the old interface. */
    method ActionProcessMessage(ghost msg: Msg) returns (finished: bool, iRet: Ret)
      modifies this
      ensures Did(ProcessMessage(Setup(), old(Snapshot()), msg), finished, iRet)
      ensures Kept(Setup(), old(Snapshot()), Snapshot())
      ensures finished && Going(iRet) ==> (TakenIn(old(log), log, msg) <==> EndedByMessage(log, msg))
    {
      hide Prepare, Kept, Submitted, ReturnCode, TakenIn;
      MessageKept(Setup(), Snapshot(), msg);
      MessageTaken(Setup(), Snapshot(), msg);
      finished, iRet := ActionPrepare();
      if !finished || iRet != Ok { return; }
      if state == Itx {
        hadAutoCommit := false;
        finished, iRet := Submit(DoAction(msg));
        if !finished || iRet != Ok { return; }
      }
      iRet := GetReturnCode();
    }

    /** doTransaction: the batch in one commit call, or message by message through the old
        interface, where a suspended message is submitted again. */
    method DoTransaction(ghost msgs: seq<Msg>, nparams: nat) returns (finished: bool, iRet: Ret)
      requires |msgs| == nparams
      modifies this
      ensures Did(Transaction(Setup(), old(Snapshot()), msgs), finished, iRet)
      ensures old(state) != Rtry ==> Kept(Setup(), old(Snapshot()), Snapshot())
      ensures nparams > 0 && old(state) in {Itx, Susp, Failed} && finished && iRet == Ok ==> TakenExactly(Setup(), old(log), log, msgs)
    {
      hide Submitted, ProcessMessage, Kept, TakenExactly;
      if state != Rtry { TransactionKept(Setup(), Snapshot(), msgs); }
      if nparams > 0 && state in {Itx, Susp, Failed} { TransactionTaken(Setup(), Snapshot(), msgs); }
      finished, iRet := true, Ok;
      if hasCommit {
        finished, iRet := Submit(Commit(msgs));
        if !finished { return; }
      } else {
        var i: nat := 0;
        while i < nparams
          invariant i <= nparams
          invariant OneAfterOther(Setup(), Snapshot(), msgs, i, iRet) == OneAfterOther(Setup(), old(Snapshot()), msgs, 0, Ok)
          decreases |replies|, nparams - i
        {
          SuspendedAsked(Setup(), Snapshot(), msgs[i]);
          finished, iRet := ActionProcessMessage(msgs[i]);
          if !finished { return; }
          if iRet == Suspended {
            // submitted again
          } else if iRet != DeferCommit && iRet != PreviousCommitted && iRet != Ok {
            return;
          } else {
            i := i + 1;
          }
        }
      }
      if iRet == DeferCommit || iRet == PreviousCommitted {
        iRet := Ok;
      }
    }

    /** The end of a transaction in actionTryCommit. */
    method EndTheTransaction() returns (finished: bool, iRet: Ret)
      modifies this
      ensures Did(EndTransaction(old(Snapshot())), finished, iRet)
    {
      finished, iRet := true, Ok;
      if state == Itx {
        finished, iRet := Ask(End);
        if !finished { return; }
        match iRet {
          case Ok => state := Rdy;
          case Suspended => ActionRetry();
          case DisableAction => disabled := true;
          case DeferCommit => state := Rdy;
          case PreviousCommitted => state := Rdy;
          case _ => return;
        }
      }
      iRet := GetReturnCode();
    }

    method MakeAttempt(ghost msgs: seq<Msg>, nparams: nat) returns (finished: bool, iRet: Ret)
      requires |msgs| == nparams
      modifies this
      ensures Did(RunAttempt(Setup(), old(Snapshot()), msgs), finished, iRet)
    {
      hide Prepare, Transaction, EndTransaction, Kept, TakenExactly;
      finished, iRet := ActionPrepare();
      if finished && iRet == Ok {
        finished, iRet := DoTransaction(msgs, nparams);
        if finished && iRet == Ok {
          finished, iRet := EndTheTransaction();
        }
      }
    }

    /** actionTryCommit: one attempt at a batch. */
    method ActionTryCommit(ghost msgs: seq<Msg>, nparams: nat) returns (finished: bool, iRet: Ret)
      requires |msgs| == nparams
      modifies this
      ensures Did(TryCommit(Setup(), old(Snapshot()), msgs), finished, iRet)
      ensures (old(Valid()) ==> Valid()) && Continues(old(Snapshot()), Snapshot())
      ensures Settled(old(Snapshot()), Snapshot(), msgs, finished && iRet == Ok)
      ensures nparams > 0 && finished && iRet == Ok ==> state == Rdy && TakenExactly(Setup(), old(log), log, msgs)
    {
      hide RunAttempt, Inv, Continues, TakenExactly, Settled;
      TryCommitSettles(Setup(), Snapshot(), msgs);
      if nparams > 0 { TryCommitTaken(Setup(), Snapshot(), msgs); }
      finished, iRet := MakeAttempt(msgs, nparams);
      if finished {
        log := log + [Attempt(msgs, iRet)];
      }
    }

    /** actionWriteErrorFile, as the engine sees it. */
    ghost method WriteErrorFile(msgs: seq<Msg>)
      modifies this`log
      ensures Snapshot() == WithErrorFile(old(Snapshot()), msgs)
      ensures old(Valid()) ==> Valid()
    {
      Recorded(Setup(), Snapshot(), ErrorFile(msgs));
      log := log + [ErrorFile(msgs)];
    }
  }
}

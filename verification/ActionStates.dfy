/** The state machine of one action in one worker, with retry, suspension and transactions
    (action.c), as functions of a state that holds the action, the worker's information about
    it, the plugin's replies still to come and a record of what happened. The plugin is any
    finite sequence of return codes; a run that has used them all up is waiting for more. */
module ActionStates {

  datatype Ret =
    | Ok | Suspended | DisableAction | DeferCommit | PreviousCommitted
    | DataFail | ActionFailed | ForceTerm | OtherError(code: int)

  datatype State = Rdy | Itx | Rtry | Susp | Failed

  /** One message of a batch, by its place in it, with its parameter block. */
  datatype Msg = Msg(id: nat, block: seq<string>)

  datatype Call = TryResume | Begin | Commit(msgs: seq<Msg>) | DoAction(msg: Msg) | End

  datatype Event =
    | Asked(call: Call, code: Ret)
    | Attempt(msgs: seq<Msg>, ret: Ret)
    | ErrorFile(lost: seq<Msg>)

  /** The settings of an action and the clock. */
  datatype Config = Config(retryCount: int, interval: int, intervalMax: int, hasCommit: bool, clock: nat -> int)

  datatype World = World(
    resumeAt: int, disabled: bool,
    state: State, resumeInRow: nat, nbrResRtry: nat, hadAutoCommit: bool,
    replies: seq<Ret>, clockReads: nat,
    log: seq<Event>, suspensions: seq<int>, backoff: seq<int>)

  /** How a call ends: with a return code, still waiting for a reply, or never, since it goes
      round without asking the plugin. */
  datatype Outcome = Done(w: World, ret: Ret) | Waiting(w: World) | Endless(w: World)

  datatype Step = Step(w: World, ret: Ret)

  // ----- suspension times -----

  function Capped(d: int, max: int): int { if max > 0 && d > max then max else d }

  /** The time actionSuspend lets pass. */
  function Duration(interval: int, max: int, nbr: nat): int { Capped(interval * (nbr / 10 + 1), max) }

  function NextDuration(c: Config, w: World): int { Duration(c.interval, c.intervalMax, w.nbrResRtry) }

  // ----- the steps -----

  /** The plugin is asked and answers with the next reply. */
  function After(w: World, call: Call): World
    requires w.replies != []
  {
    w.(replies := w.replies[1..], log := w.log + [Asked(call, w.replies[0])])
  }

  /** actionRetry. */
  function ToRetry(w: World): World { w.(state := Rtry, resumeInRow := w.resumeInRow + 1) }

  /** actionSuspend, and the step of the retry number that goes with it. */
  function ToSuspended(c: Config, w: World): World {
    var d := NextDuration(c, w);
    w.(state := Susp, resumeAt := c.clock(w.clockReads) + d, clockReads := w.clockReads + 1,
       nbrResRtry := if w.nbrResRtry < 20 then w.nbrResRtry + 1 else w.nbrResRtry,
       suspensions := w.suspensions + [d], backoff := w.backoff + [d])
  }

  datatype Round = Round(w: World, ret: Ret, retries: nat)

  /** One round of the loop of actionDoRetry. Every tenth resumption in a row counts as failed. */
  function RetryRound(c: Config, w: World, iRetries: nat): Round
    requires w.replies != []
  {
    var code := w.replies[0];
    var asked := After(w, TryResume);
    var treatOkAsSusp := w.resumeInRow > 9 && w.resumeInRow % 10 == 0;
    var w1 := if treatOkAsSusp then asked.(resumeInRow := 0) else asked;
    if code == Ok && !treatOkAsSusp then Round(w1.(state := Rdy), Ok, iRetries)
    else if code == Suspended || treatOkAsSusp then
      if c.retryCount != -1 && iRetries >= c.retryCount then Round(ToSuspended(c, w1), Suspended, iRetries)
      else Round(w1, Suspended, iRetries + 1)
    else if code == DisableAction then Round(w1.(disabled := true), code, iRetries)
    else Round(w1, code, iRetries)
  }

  /** actionDoRetry without shutdown, from a round on. */
  function RetryFrom(c: Config, w: World, iRetries: nat, ret: Ret): (r: Outcome)
    ensures !r.Endless? && |r.w.replies| <= |w.replies|
    decreases |w.replies|, if w.state == Rtry then 1 else 0
  {
    if w.state == Rtry then
      if w.replies == [] then Waiting(w)
      else var round := RetryRound(c, w, iRetries); RetryFrom(c, round.w, round.retries, round.ret)
    else Done(if w.state == Rdy then w.(nbrResRtry := 0, backoff := []) else w, ret)
  }

  function DoRetry(c: Config, w: World): (r: Outcome) { RetryFrom(c, w, 0, Ok) }

  /** The check of the clock in actionTryResume. */
  function Recheck(c: Config, w: World): World {
    if w.state == Susp then
      w.(clockReads := w.clockReads + 1, state := if c.clock(w.clockReads) >= w.resumeAt then Rtry else Susp)
    else w
  }

  function ActionTryResume(c: Config, w: World): (r: Outcome)
    ensures !r.Endless? && |r.w.replies| <= |w.replies|
  {
    var w1 := Recheck(c, w);
    if w1.state == Rtry then DoRetry(c, w1) else Done(w1, Ok)
  }

  /** The begin of a transaction. */
  function BeginTransaction(w: World): (r: Outcome) {
    if w.replies == [] then Waiting(w)
    else
      var code := w.replies[0];
      var w1 := After(w, Begin);
      Done(match code
           case Ok => w1.(state := Itx)
           case Suspended => ToRetry(w1)
           case DisableAction => w1.(disabled := true)
           case _ => w1, code)
  }

  /** actionPrepare, for an action without an external state file. */
  function Prepare(c: Config, w: World): (r: Outcome)
    ensures !r.Endless? && |r.w.replies| <= |w.replies|
  {
    var r := ActionTryResume(c, w);
    if r.Done? && r.ret == Ok && r.w.state == Rdy then BeginTransaction(r.w) else r
  }

  /** getReturnCode. */
  function ReturnCode(w: World): Step {
    match w.state
    case Rdy => Step(w, Ok)
    case Itx => if w.hadAutoCommit then Step(w.(hadAutoCommit := false), PreviousCommitted) else Step(w, DeferCommit)
    case Rtry => Step(w, Suspended)
    case Susp => Step(w, ActionFailed)
    case Failed => Step(w, DataFail)
  }

  /** handleActionExecResult. */
  function Handled(w: World, code: Ret): Step {
    ReturnCode(match code
      case Ok => w.(state := Rdy, resumeInRow := 0)
      case DeferCommit => w.(resumeInRow := 0)
      case PreviousCommitted => w.(hadAutoCommit := true, resumeInRow := 0)
      case DisableAction => w.(disabled := true)
      case Suspended => ToRetry(w)
      case _ => w.(state := Failed))
  }

  /** A call of the plugin that processes messages, and what is made of its answer. */
  function Submitted(w: World, call: Call): (r: Outcome)
    ensures !r.Endless? && |r.w.replies| <= |w.replies| && (r.Done? ==> |r.w.replies| < |w.replies|)
  {
    if w.replies == [] then Waiting(w)
    else
      var s := Handled(After(w, call), w.replies[0]);
      Done(s.w, s.ret)
  }

  function Coded(w: World): Outcome { var s := ReturnCode(w); Done(s.w, s.ret) }

  /** actionProcessMessage: one message through the old interface. */
  function ProcessMessage(c: Config, w: World, msg: Msg): (r: Outcome)
    ensures !r.Endless? && |r.w.replies| <= |w.replies|
  {
    var p := Prepare(c, w);
    if !p.Done? || p.ret != Ok then p
    else if p.w.state == Itx then
      var r := Submitted(p.w.(hadAutoCommit := false), DoAction(msg));
      if r.Done? && r.ret == Ok then Coded(r.w) else r
    else Coded(p.w)
  }

  predicate Going(ret: Ret) { ret == Ok || ret == DeferCommit || ret == PreviousCommitted }

  // ----- where the steps end -----

  predicate EndsWell(w: World, ret: Ret) {
    (w.state == Rdy && ret == Ok) || (w.state == Susp && ret == Suspended)
  }

  lemma {:induction false} RetriedState(c: Config, w: World, iRetries: nat, ret: Ret)
    requires w.state == Rtry || EndsWell(w, ret)
    ensures var r := RetryFrom(c, w, iRetries, ret);
      && (r.Waiting? ==> r.w.replies == [])
      && (r.Done? ==> EndsWell(r.w, r.ret))
      && (r.Done? && w.state == Rtry ==> |r.w.replies| < |w.replies|)
    decreases |w.replies|, if w.state == Rtry then 1 else 0
  {
    if w.state == Rtry && w.replies != [] {
      var round := RetryRound(c, w, iRetries);
      RetriedState(c, round.w, round.retries, round.ret);
    }
  }

  /** States and codes after actionTryResume. */
  lemma ResumedState(c: Config, w: World)
    ensures var r := ActionTryResume(c, w);
      && (r.Waiting? ==> r.w.replies == [])
      && (r.Done? ==> r.w.state != Rtry && (r.ret == Ok || (r.ret == Suspended && r.w.state == Susp)))
      && (r.Done? && r.ret != Ok ==> |r.w.replies| < |w.replies|)
      && (r.Done? && w.state in {Rtry, Susp} ==> r.w.state in {Rdy, Susp})
      && (r.Done? && r.ret == Ok && r.w.state == Susp ==> w.state == Susp && r.w.replies == w.replies)
      && (w.state in {Rdy, Itx, Failed} ==> r == Done(w, Ok))
  {
    var w1 := Recheck(c, w);
    if w1.state == Rtry { RetriedState(c, w1, 0, Ok); }
  }

  /** States and codes after actionPrepare. */
  lemma PreparedState(c: Config, w: World)
    ensures var r := Prepare(c, w);
      && (r.Waiting? ==> r.w.replies == [])
      && (r.Done? && r.ret == Ok ==> r.w.state in {Itx, Susp, Failed})
      && (r.Done? && r.ret == Ok && r.w.state == Failed ==> w.state == Failed)
      && (r.Done? && r.ret != Ok ==> |r.w.replies| < |w.replies|)
      && (r.Done? && r.ret == Suspended ==> r.w.state in {Rtry, Susp})
      && (r.Done? && r.ret !in {Ok, Suspended} ==> r.w.state == Rdy && r.w.log != [] && r.w.log[|r.w.log| - 1] == Asked(Begin, r.ret))
      && (w.state in {Itx, Failed} ==> r == Done(w, Ok))
  {
    hide ActionTryResume;
    ResumedState(c, w);
  }

  /** A message that is suspended has used up a reply: it is submitted again. */
  lemma SuspendedAsked(c: Config, w: World, msg: Msg)
    ensures var r := ProcessMessage(c, w, msg); r.Done? && r.ret == Suspended ==> |r.w.replies| < |w.replies|
  {
    hide Prepare;
    PreparedState(c, w);
  }

  /** The messages one after the other, from the i-th on. */
  function OneAfterOther(c: Config, w: World, msgs: seq<Msg>, i: nat, ret: Ret): (r: Outcome)
    ensures !r.Endless? && |r.w.replies| <= |w.replies|
    decreases |w.replies|, |msgs| - i
  {
    if i >= |msgs| then Done(w, ret)
    else
      SuspendedAsked(c, w, msgs[i]);
      var r := ProcessMessage(c, w, msgs[i]);
      if !r.Done? then r
      else if r.ret == Suspended then OneAfterOther(c, r.w, msgs, i, r.ret)
      else if !Going(r.ret) then r
      else OneAfterOther(c, r.w, msgs, i + 1, r.ret)
  }

  /** doTransaction: the batch in one commit call, or message by message through the old
      interface, where a suspended message is submitted again. */
  function Transaction(c: Config, w: World, msgs: seq<Msg>): (r: Outcome)
    ensures !r.Endless? && |r.w.replies| <= |w.replies|
  {
    var r := if c.hasCommit then Submitted(w, Commit(msgs)) else OneAfterOther(c, w, msgs, 0, Ok);
    if r.Done? && Going(r.ret) then Done(r.w, Ok) else r
  }

  /** The end of a transaction. */
  function EndTransaction(w: World): (r: Outcome)
    ensures !r.Endless? && |r.w.replies| <= |w.replies|
  {
    if w.state != Itx then Coded(w)
    else if w.replies == [] then Waiting(w)
    else
      var w1 := After(w, End);
      match w.replies[0]
      case Ok => Coded(w1.(state := Rdy))
      case Suspended => Coded(ToRetry(w1))
      case DisableAction => Coded(w1.(disabled := true))
      case DeferCommit => Coded(w1.(state := Rdy))
      case PreviousCommitted => Coded(w1.(state := Rdy))
      case _ => Done(w1, w.replies[0])
  }

  function RunAttempt(c: Config, w: World, msgs: seq<Msg>): (r: Outcome)
    ensures !r.Endless? && |r.w.replies| <= |w.replies|
  {
    var p := Prepare(c, w);
    if !p.Done? || p.ret != Ok then p
    else
      var t := Transaction(c, p.w, msgs);
      if !t.Done? || t.ret != Ok then t else EndTransaction(t.w)
  }

  /** actionTryCommit, with a record of the attempt. */
  function TryCommit(c: Config, w: World, msgs: seq<Msg>): (r: Outcome)
    ensures !r.Endless? && |r.w.replies| <= |w.replies|
  {
    var r := RunAttempt(c, w, msgs);
    if r.Done? then Done(r.w.(log := r.w.log + [Attempt(msgs, r.ret)]), r.ret) else r
  }

  function WithErrorFile(w: World, msgs: seq<Msg>): World { w.(log := w.log + [ErrorFile(msgs)]) }
}

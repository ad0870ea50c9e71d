/** Committing a batch as the state machine does it: one attempt at the whole batch, then
    message by message, then retries of what is left (actionCommit). */
module CommitRuns {
  import opened ActionStates
  import opened ActionLaws

  // ----- the one-by-one pass -----

  /** The messages that got code `r`, in order. */
  function With(msgs: seq<Msg>, rets: seq<Ret>, r: Ret): seq<Msg>
    requires |msgs| == |rets|
  {
    if msgs == [] then []
    else With(msgs[..|msgs| - 1], rets[..|msgs| - 1], r) + if rets[|msgs| - 1] == r then [msgs[|msgs| - 1]] else []
  }

  lemma WithStep(msgs: seq<Msg>, rets: seq<Ret>, m: Msg, r: Ret, kind: Ret)
    requires |msgs| == |rets|
    ensures With(msgs + [m], rets + [r], kind) == With(msgs, rets, kind) + if r == kind then [m] else []
  {
    assert (msgs + [m])[..|msgs|] == msgs && (rets + [r])[..|msgs|] == rets;
  }

  lemma {:induction false} WithHolds(msgs: seq<Msg>, rets: seq<Ret>, kind: Ret)
    requires |msgs| == |rets| && Numbered(msgs)
    ensures forall id: nat :: Holds(With(msgs, rets, kind), id) <==> id < |msgs| && rets[id] == kind
    ensures |With(msgs, rets, kind)| <= |msgs|
  {
    if msgs != [] {
      var n := |msgs| - 1;
      WithHolds(msgs[..n], rets[..n], kind);
      var w, w' := With(msgs, rets, kind), With(msgs[..n], rets[..n], kind);
      forall id: nat ensures Holds(w, id) <==> id < |msgs| && rets[id] == kind {
        if Holds(w', id) { var i :| 0 <= i < |w'| && w'[i].id == id; assert w[i].id == id; }
        if rets[n] == kind { assert w[|w| - 1] == msgs[n]; }
        if Holds(w, id) && !Holds(w', id) { var i :| 0 <= i < |w| && w[i].id == id; assert i >= |w'|; }
      }
    }
  }

  ghost predicate Numbered(msgs: seq<Msg>) { forall i :: 0 <= i < |msgs| ==> msgs[i].id == i }

  lemma NumberedHolds(msgs: seq<Msg>)
    requires Numbered(msgs)
    ensures forall id: nat :: Holds(msgs, id) <==> id < |msgs|
  {
    forall id: nat ensures Holds(msgs, id) <==> id < |msgs| {
      if id < |msgs| { assert msgs[id].id == id; }
    }
  }

  // ----- the run -----

  /** One message on its own. */
  function TryOne(c: Config, w: World, m: Msg): (r: Outcome)
    ensures !r.Endless? && |r.w.replies| <= |w.replies|
  {
    var r := TryCommit(c, w.(resumeInRow := 0), [m]);
    if r.Done? && r.ret != Suspended && r.ret != Ok then Done(WithErrorFile(r.w, [m]), r.ret) else r
  }

  datatype Pass = Pass(w: World, rets: seq<Ret>, over: bool)

  /** The first n messages one by one. */
  function OneByOne(c: Config, w: World, msgs: seq<Msg>, n: nat): (p: Pass)
    requires n <= |msgs|
    ensures |p.w.replies| <= |w.replies| && |p.rets| <= n && (p.over ==> |p.rets| == n)
  {
    if n == 0 then Pass(w, [], true)
    else
      var p := OneByOne(c, w, msgs, n - 1);
      if !p.over then p
      else
        var r := TryOne(c, p.w, msgs[n - 1]);
        if r.Done? then Pass(r.w, p.rets + [r.ret], true) else Pass(r.w, p.rets, false)
  }

  datatype Next = Over(o: Outcome) | Again(w: World)

  /** One round of the retry loop. */
  function LoopRound(c: Config, w: World, open: seq<Msg>): (r: Next) {
    var t := TryCommit(c, w, open);
    if !t.Done? || t.ret == ForceTerm then Over(t)
    else if t.ret == Suspended then
      var d := DoRetry(c, t.w);
      if !d.Done? then Over(d)
      else if d.ret != Ok then Over(Done(WithErrorFile(d.w, open), d.ret))
      else Again(d.w)
    else if t.ret == Ok || t.ret == ActionFailed || t.w.state == Rdy || t.w.state == Susp then Over(t)
    else Again(t.w)
  }

  /** The retry loop. A round that calls the plugin not even once repeats itself for ever. */
  function RetryLoop(c: Config, w: World, open: seq<Msg>): (r: Outcome)
    decreases |w.replies|
  {
    match LoopRound(c, w, open)
    case Over(o) => o
    case Again(w1) => if |w1.replies| < |w.replies| then RetryLoop(c, w1, open) else Endless(w1)
  }

  /** actionCommit of a transactional action. */
  function CommitRun(c: Config, w: World, msgs: seq<Msg>): (r: Outcome) {
    if msgs == [] then Done(w, Ok)
    else if w.state == Susp then Done(WithErrorFile(w, msgs), Ok)
    else
      var t := TryCommit(c, w, msgs);
      if !t.Done? || t.ret == Ok then t
      else if |msgs| == 1 then
        if t.ret == DataFail then t else RetryLoop(c, t.w, msgs)
      else
        var p := OneByOne(c, t.w, msgs, |msgs|);
        if !p.over then Waiting(p.w)
        else if With(msgs, p.rets, Suspended) == [] then Done(p.w, Ok)
        else RetryLoop(c, p.w, With(msgs, p.rets, Suspended))
  }

  /** The messages that a commit gives up without a trace. */
  function Dropped(c: Config, w: World, msgs: seq<Msg>): (left: seq<Msg>) {
    var r := CommitRun(c, w, msgs);
    if r.Done? && (r.ret == Ok || r.ret == Suspended) then []
    else if |msgs| <= 1 then msgs
    else
      var p := OneByOne(c, TryCommit(c, w, msgs).w, msgs, |msgs|);
      if p.over then With(msgs, p.rets, Suspended) else []
  }

  lemma {:induction false} StaysStopped(c: Config, w: World, msgs: seq<Msg>, i: nat, n: nat)
    requires i <= n <= |msgs| && !OneByOne(c, w, msgs, i).over
    ensures OneByOne(c, w, msgs, n) == OneByOne(c, w, msgs, i)
  {
    if i < n { StaysStopped(c, w, msgs, i, n - 1); }
  }
}

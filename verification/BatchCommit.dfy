/** Committing the batch of a transactional action in place (actionCommit). Parameters are
    stored flat, iNumTpls of them for each message. */
module BatchCommit {
  import opened ActionStates
  import opened ActionLaws
  import opened ActionEngine
  import opened CommitRuns
  import opened CommitEnds
  import opened CommitLaws

  // ----- parameter blocks in a flat array -----

  lemma BlockBounds(i: nat, n: nat, k: nat)
    requires i < n
    ensures 0 <= i * k <= (i + 1) * k <= n * k
    ensures (i + 1) * k == i * k + k
  {
    assert (i + 1) * k <= n * k;
  }

  /** The block of message i. */
  function Block(s: seq<string>, k: nat, i: nat): (b: seq<string>)
    requires (i + 1) * k <= |s|
  {
    BlockBounds(i, i + 1, k);
    s[i * k..(i + 1) * k]
  }

  /** Copying a parameter block. */
  method CopyBlock(src: array<string>, from: nat, dst: array<string>, to: nat, k: nat)
    requires from + k <= src.Length && to + k <= dst.Length && src != dst
    modifies dst
    ensures dst[to..to + k] == src[from..from + k]
    ensures forall i :: 0 <= i < dst.Length && !(to <= i < to + k) ==> dst[i] == old(dst[i])
  {
    for j := 0 to k
      invariant dst[to..to + j] == src[from..from + j]
      invariant forall i :: 0 <= i < dst.Length && !(to <= i < to + k) ==> dst[i] == old(dst[i])
    {
      dst[to + j] := src[from + j];
    }
  }

  // ----- the one-by-one pass -----

  ghost predicate Stored(a: seq<string>, k: nat, msgs: seq<Msg>) {
    && |msgs| * k <= |a|
    && forall i: nat :: i < |msgs| ==> IsBlock(a, k, i, msgs[i])
  }

  ghost predicate IsBlock(a: seq<string>, k: nat, i: nat, m: Msg) {
    (i + 1) * k <= |a| && Block(a, k, i) == m.block
  }

  lemma StoredNext(a: seq<string>, b: seq<string>, k: nat, msgs: seq<Msg>, m: Msg)
    requires Stored(a, k, msgs) && |a| == |b| && (|msgs| + 1) * k <= |b|
    requires a[..|msgs| * k] == b[..|msgs| * k] && Block(b, k, |msgs|) == m.block
    ensures Stored(b, k, msgs + [m])
  {
    forall i: nat | i < |msgs| + 1 ensures IsBlock(b, k, i, (msgs + [m])[i]) {
      BlockBounds(i, |msgs| + 1, k);
      if i < |msgs| {
        assert IsBlock(a, k, i, msgs[i]);
        BlockBounds(i, |msgs|, k);
        var cut := |msgs| * k;
        assert Block(b, k, i) == b[..cut][i * k..(i + 1) * k] == a[..cut][i * k..(i + 1) * k] == Block(a, k, i);
      }
    }
  }

  /** Appending a block behind the kept ones. */
  method Keep(iparams: array<string>, k: nat, i: nat, newIparams: array<string>, newN: nat, ghost kept: seq<Msg>, ghost m: Msg)
    requires iparams != newIparams && newN == |kept| && Stored(newIparams[..], k, kept)
    requires (i + 1) * k <= iparams.Length && (newN + 1) * k <= newIparams.Length && Block(iparams[..], k, i) == m.block
    modifies newIparams
    ensures Stored(newIparams[..], k, kept + [m])
  {
    ghost var was := newIparams[..];
    BlockBounds(i, i + 1, k);
    BlockBounds(newN, newN + 1, k);
    CopyBlock(iparams, i * k, newIparams, newN * k, k);
    assert newIparams[..][..newN * k] == was[..newN * k];
    assert Block(newIparams[..], k, newN) == newIparams[newN * k..newN * k + k] == iparams[i * k..i * k + k] == m.block;
    StoredNext(was, newIparams[..], k, kept, m);
  }

  lemma StoredNone(a: seq<string>, k: nat)
    ensures With([], [], Suspended) == [] && Stored(a, k, [])
  {
  }

  lemma StoredAt(a: seq<string>, k: nat, msgs: seq<Msg>, i: nat)
    requires Stored(a, k, msgs) && i < |msgs|
    ensures (i + 1) * k <= |a| && Block(a, k, i) == msgs[i].block
  {
    assert IsBlock(a, k, i, msgs[i]);
  }

  /** A single message in the pass, on the engine. */
  method CommitOne(e: Engine, ghost m: Msg) returns (finished: bool, ret: Ret)
    modifies e
    ensures e.Did(TryOne(e.Setup(), old(e.Snapshot()), m), finished, ret)
  {
    hide TryCommit;
    e.resumeInRow := 0;
    finished, ret := e.ActionTryCommit([m], 1);
    if finished && ret != Suspended && ret != Ok {
      e.WriteErrorFile([m]);
    }
  }

  /** actionTryRemoveHardErrorsFromBatch: each message is tried once; the parameter blocks of
      those that stay suspended are kept, unchanged and in order. */
  method TryRemoveHardErrors(e: Engine, iparams: array<string>, k: nat, nMsgs: nat, newIparams: array<string>, ghost msgs: seq<Msg>)
    returns (finished: bool, newN: nat)
    requires iparams != newIparams && |msgs| == nMsgs
    requires Stored(iparams[..], k, msgs) && nMsgs * k <= newIparams.Length
    modifies e, newIparams
    ensures var p := OneByOne(e.Setup(), old(e.Snapshot()), msgs, nMsgs);
      && e.Snapshot() == p.w && finished == p.over
      && (finished ==> newN == |With(msgs, p.rets, Suspended)| && Stored(newIparams[..], k, With(msgs, p.rets, Suspended)))
  {
    hide Stored, With, Block, TryOne;
    StoredNone(newIparams[..], k);
    assert msgs[..0] == [];
    ghost var c, w := e.Setup(), e.Snapshot();
    ghost var rets: seq<Ret> := [];
    newN := 0;
    var i := 0;
    while i < nMsgs
      invariant 0 <= i <= nMsgs && |rets| == i && newN <= i
      invariant OneByOne(c, w, msgs, i) == Pass(e.Snapshot(), rets, true)
      invariant newN == |With(msgs[..i], rets, Suspended)| && Stored(newIparams[..], k, With(msgs[..i], rets, Suspended))
    {
      ghost var kept := With(msgs[..i], rets, Suspended);
      var ret;
      finished, ret := CommitOne(e, msgs[i]);
      if !finished {
        StaysStopped(c, w, msgs, i + 1, nMsgs);
        return;
      }
      assert msgs[..i + 1] == msgs[..i] + [msgs[i]];
      WithStep(msgs[..i], rets, msgs[i], ret, Suspended);
      if ret == Suspended {
        BlockBounds(i, nMsgs, k);
        BlockBounds(newN, nMsgs, k);
        StoredAt(iparams[..], k, msgs, i);
        Keep(iparams, k, i, newIparams, newN, kept, msgs[i]);
        newN := newN + 1;
      } else {
        assert kept + [] == kept;
      }
      rets := rets + [ret];
      i := i + 1;
    }
    assert msgs[..i] == msgs;
    finished := true;
  }

  // ----- the error file -----

  /** What actionWriteErrorFile records for message i: it steps through the parameters as if
      every message had one only. */
  function ErrorRecord(params: seq<string>, k: nat, i: nat): (r: seq<string>)
    requires i + k <= |params| + 1
  {
    seq(k, j requires 0 <= j < k => if i + j < |params| then params[i + j] else "")
  }

  lemma RecordIsBlock(params: seq<string>, k: nat, i: nat)
    requires i + k <= |params| + 1 && (i + 1) * k <= |params| && (i == 0 || k <= 1)
    ensures ErrorRecord(params, k, i) == Block(params, k, i)
  {
    BlockBounds(i, i + 1, k);
    assert i * k == if k == 0 then 0 else i;
  }

  /** The error file shows every message with its own parameters, whatever these are, exactly
      when there is one message or one template. */
  lemma ErrorFileRecords(n: nat, k: nat)
    ensures (forall params: seq<string>, i: nat {:trigger ErrorRecord(params, k, i)} ::
        |params| == n * k && i < n && i + k <= |params| + 1 && (i + 1) * k <= |params| ==> ErrorRecord(params, k, i) == Block(params, k, i))
      <==> n <= 1 || k <= 1
  {
    if n <= 1 || k <= 1 {
      forall params: seq<string>, i: nat | |params| == n * k && i < n && i + k <= |params| + 1 && (i + 1) * k <= |params|
        ensures ErrorRecord(params, k, i) == Block(params, k, i)
      {
        RecordIsBlock(params, k, i);
      }
    } else {
      var params := seq(n * k, x => if x == 1 then "b" else "a");
      assert 2 * k <= n * k;
      assert ErrorRecord(params, k, 1)[0] == "b" && Block(params, k, 1)[0] == "a";
    }
  }

  // ----- actionCommit -----

  ghost function Batch(a: seq<string>, k: nat, n: nat): (msgs: seq<Msg>)
    requires n * k <= |a|
    ensures |msgs| == n && Numbered(msgs) && Stored(a, k, msgs)
  {
    if n == 0 then []
    else
      BlockBounds(n - 1, n, k);
      StoredNext(a, a, k, Batch(a, k, n - 1), Msg(n - 1, Block(a, k, n - 1)));
      Batch(a, k, n - 1) + [Msg(n - 1, Block(a, k, n - 1))]
  }

  /** The retry loop of actionCommit for the messages that are still suspended. Where a round
      calls the plugin not even once the code goes round for ever; the method then stops. */
  method CommitRetries(e: Engine, ghost open: seq<Msg>, nMsgs: nat) returns (finished: bool, iRet: Ret)
    requires |open| == nMsgs > 0
    modifies e
    ensures e.Did(RetryLoop(e.Setup(), old(e.Snapshot()), open), finished, iRet)
    ensures !finished ==> e.replies == [] || (!e.hasCommit && e.state == Failed)
    ensures Settled(old(e.Snapshot()), e.Snapshot(), open, finished && (iRet == Ok || iRet == Suspended))
    ensures Goes(e.Setup(), old(e.Snapshot()), e.Snapshot())
  {
    hide TryCommit, RetryFrom, Settled, Goes;
    LoopSettles(e.Setup(), e.Snapshot(), open);
    LoopUnfinished(e.Setup(), e.Snapshot(), open);
    var bDone := false;
    iRet := Ok;
    while !bDone
      invariant !bDone ==> RetryLoop(e.Setup(), e.Snapshot(), open) == RetryLoop(e.Setup(), old(e.Snapshot()), open)
      invariant bDone ==> RetryLoop(e.Setup(), old(e.Snapshot()), open) == Done(e.Snapshot(), iRet)
      decreases !bDone, |e.replies|
    {
      var was := |e.replies|;
      TryCommitTaken(e.Setup(), e.Snapshot(), open);
      finished, iRet := e.ActionTryCommit(open, nMsgs);
      if !finished || iRet == ForceTerm {
        return;
      } else if iRet == Suspended {
        finished, iRet := e.ActionDoRetry();
        if !finished { return; }
        if iRet != Ok {
          e.WriteErrorFile(open);
          bDone := true;
        }
      } else {
        if iRet == Ok || iRet == ActionFailed {
          bDone := true;
        }
        if e.state == Rdy || e.state == Susp {
          bDone := true;
        }
        if !bDone && |e.replies| == was {
          return false, iRet;
        }
      }
    }
    finished := true;
  }

  class TxWorker {
    const engine: Engine
    const numTpls: nat
    var iparams: array<string>
    var currIParam: nat

    constructor (engine: Engine, numTpls: nat)
      ensures this.engine == engine && this.numTpls == numTpls && currIParam == 0 && fresh(iparams) && iparams.Length == 0
    {
      this.engine, this.numTpls, currIParam := engine, numTpls, 0;
      iparams := new string[0];
    }

    /** actionCommit of a transactional action. When it is done every message of the batch was
        committed or is in the error file, once, except those dropped; it is not done only while
        it waits for the plugin, or where an action without a commit call has failed. */
    method Commit() returns (finished: bool, iRet: Ret)
      requires currIParam * numTpls <= iparams.Length
      modifies this`currIParam, engine
      ensures engine.Did(CommitRun(engine.Setup(), old(engine.Snapshot()), old(Batch(iparams[..], numTpls, currIParam))), finished, iRet)
      ensures currIParam == if finished then 0 else old(currIParam)
      ensures finished ==> SettledExcept(old(engine.Snapshot()), engine.Snapshot(), old(currIParam),
          Dropped(engine.Setup(), old(engine.Snapshot()), old(Batch(iparams[..], numTpls, currIParam))), iRet)
      ensures !finished ==> engine.replies == [] || (!engine.hasCommit && engine.state == Failed)
      ensures Goes(engine.Setup(), old(engine.Snapshot()), engine.Snapshot())
      ensures AtMostOnce(old(engine.Snapshot()), engine.Snapshot())
    {
      hide TryCommit, RetryLoop, OneByOne, SettledExcept, Goes, AtMostOnce, Dropped, Settled;
      ghost var c, w, batch := engine.Setup(), engine.Snapshot(), Batch(iparams[..], numTpls, currIParam);
      CommitSettles(c, w, batch);
      CommitUnfinished(c, w, batch);
      finished, iRet := true, Ok;
      ghost var msgs := Batch(iparams[..], numTpls, currIParam);
      if currIParam == 0 {
        return;
      }
      if engine.state == Susp {
        engine.WriteErrorFile(msgs);
        currIParam := 0;
        return;
      }
      finished, iRet := engine.ActionTryCommit(msgs, currIParam);
      if !finished { return; }
      if iRet != Ok {
        if currIParam == 1 {
          if iRet != DataFail {
            finished, iRet := CommitRetries(engine, msgs, 1);
          }
        } else {
          var newIparams := new string[numTpls * currIParam];
          ghost var p := OneByOne(engine.Setup(), engine.Snapshot(), msgs, currIParam);
          var nMsgs;
          finished, nMsgs := TryRemoveHardErrors(engine, iparams, numTpls, currIParam, newIparams, msgs);
          if !finished { return; }
          if nMsgs == 0 {
            iRet := Ok;
          } else {
            finished, iRet := CommitRetries(engine, With(msgs, p.rets, Suspended), nMsgs);
          }
        }
      }
      if finished {
        currIParam := 0;
      }
    }
  }
}

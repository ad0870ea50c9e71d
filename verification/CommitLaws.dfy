/** What committing a batch does to its messages, and when it ends. */
module CommitLaws {
  import opened ActionStates
  import opened ActionLaws
  import opened CommitRuns

  // ----- every message is settled once, or dropped -----

  /** Every message with a code other than "suspended" was settled once, no other. */
  ghost predicate SettledBut(before: seq<Event>, after: seq<Event>, rets: seq<Ret>) {
    forall id: nat :: Settlements(after, id) == Settlements(before, id) + (if id < |rets| && rets[id] != Suspended then 1 else 0)
  }

  lemma OneHolds(m: Msg)
    ensures forall id :: Holds([m], id) <==> id == m.id
  {
    assert [m][0] == m;
  }

  /** What a run kept: the bounds and the history, as every single call does. */
  ghost predicate Goes(c: Config, a: World, b: World) { (Inv(c, a) ==> Inv(c, b)) && Continues(a, b) }

  lemma GoesTrans(c: Config, a: World, b: World, d: World)
    requires Goes(c, a, b) && Goes(c, b, d)
    ensures Goes(c, a, d)
  {
    hide Inv;
    ContinuesTrans(a, b, d);
  }

  lemma OneSettles(c: Config, w: World, m: Msg)
    ensures var r := TryOne(c, w, m);
      && Goes(c, w, r.w)
      && forall id: nat :: Settlements(r.w.log, id) == Settlements(w.log, id) + (if r.Done? && id == m.id && r.ret != Suspended then 1 else 0)
  {
    hide TryCommit, Continues, IsBackoff, Proper;
    var w0 := w.(resumeInRow := 0);
    StateKept(c, w, w0);
    TryCommitSettles(c, w0, [m]);
    var t := TryCommit(c, w0, [m]);
    GoesTrans(c, w, w0, t.w);
    OneHolds(m);
    if t.Done? && t.ret != Suspended && t.ret != Ok {
      Recorded(c, t.w, ErrorFile([m]));
      GoesTrans(c, w, t.w, WithErrorFile(t.w, [m]));
    }
  }

  /** In the pass every message with a code other than "suspended" is settled, once: it was
      committed or is in the error file. */
  lemma {:induction false} OneByOneSettles(c: Config, w: World, msgs: seq<Msg>, n: nat)
    requires n <= |msgs| && Numbered(msgs)
    ensures var p := OneByOne(c, w, msgs, n);
      Goes(c, w, p.w) && SettledBut(w.log, p.w.log, p.rets)
  {
    hide TryOne, Inv, Continues;
    if n == 0 {
      KeptSame(c, w);
    } else {
      OneByOneSettles(c, w, msgs, n - 1);
      var p := OneByOne(c, w, msgs, n - 1);
      if p.over {
        OneSettles(c, p.w, msgs[n - 1]);
        GoesTrans(c, w, p.w, TryOne(c, p.w, msgs[n - 1]).w);
      }
    }
  }

  lemma SettledThen(a: World, b: World, d: World, msgs: seq<Msg>, all: bool)
    requires Settled(a, b, msgs, false) && Settled(b, d, msgs, all)
    ensures Settled(a, d, msgs, all)
  {
  }

  lemma GoesRecorded(c: Config, w: World, msgs: seq<Msg>)
    ensures Goes(c, w, WithErrorFile(w, msgs)) && Settled(w, WithErrorFile(w, msgs), msgs, true)
  {
    Recorded(c, w, ErrorFile(msgs));
  }

  lemma AttemptGoes(c: Config, w: World, msgs: seq<Msg>)
    ensures var t := TryCommit(c, w, msgs); Goes(c, w, t.w) && Settled(w, t.w, msgs, t.Done? && t.ret == Ok)
  {
    TryCommitSettles(c, w, msgs);
  }

  lemma RetryGoes(c: Config, w: World, msgs: seq<Msg>)
    requires w.state in {Rtry, Susp}
    ensures var d := DoRetry(c, w); Goes(c, w, d.w) && Settled(w, d.w, msgs, false) && (d.Done? ==> d.ret in {Ok, Suspended})
  {
    hide RetryFrom, Inv, Continues;
    DoRetryKept(c, w);
    RetriedFrom(c, w);
  }

  lemma RetriedFrom(c: Config, w: World)
    requires w.state in {Rtry, Susp}
    ensures DoRetry(c, w).Done? ==> DoRetry(c, w).ret in {Ok, Suspended}
  {
    if w.state == Rtry { RetriedState(c, w, 0, Ok); }
  }

  /** A round of the retry loop that is over settled its messages, once, exactly if its code is
      OK or suspended; one that is to be repeated settled none. */
  lemma RoundSettles(c: Config, w: World, open: seq<Msg>)
    requires open != []
    ensures var r := LoopRound(c, w, open);
      && (r.Over? ==> Goes(c, w, r.o.w) && Settled(w, r.o.w, open, r.o.Done? && (r.o.ret == Ok || r.o.ret == Suspended)))
      && (r.Again? ==> Goes(c, w, r.w) && Settled(w, r.w, open, false))
  {
    hide TryCommit, RetryFrom, Goes, Settled;
    AttemptGoes(c, w, open);
    TryCommitTaken(c, w, open);
    var t := TryCommit(c, w, open);
    if t.Done? && t.ret == Suspended {
      RetryGoes(c, t.w, open);
      var d := DoRetry(c, t.w);
      GoesTrans(c, w, t.w, d.w);
      SettledThen(w, t.w, d.w, open, false);
      if d.Done? && d.ret != Ok {
        GoesRecorded(c, d.w, open);
        GoesTrans(c, w, d.w, WithErrorFile(d.w, open));
        SettledThen(w, d.w, WithErrorFile(d.w, open), open, true);
      }
    }
  }

  lemma {:induction false} LoopSettles(c: Config, w: World, open: seq<Msg>)
    requires open != []
    ensures var r := RetryLoop(c, w, open);
      Goes(c, w, r.w) && Settled(w, r.w, open, r.Done? && (r.ret == Ok || r.ret == Suspended))
    decreases |w.replies|
  {
    hide LoopRound, Goes;
    RoundSettles(c, w, open);
    match LoopRound(c, w, open)
    case Over(_) =>
    case Again(w1) =>
      if |w1.replies| < |w.replies| {
        LoopSettles(c, w1, open);
        GoesTrans(c, w, w1, RetryLoop(c, w1, open).w);
      }
  }

  ghost predicate AtMostOnce(a: World, b: World) {
    forall id: nat :: Settlements(a.log, id) <= Settlements(b.log, id) <= Settlements(a.log, id) + 1
  }

  lemma GoesSame(c: Config, w: World)
    ensures Goes(c, w, w)
  {
    KeptSame(c, w);
  }

  /** The pass and the retries after a failed attempt at several messages. */
  lemma SortedSettles(c: Config, a: World, w: World, msgs: seq<Msg>)
    requires Numbered(msgs) && Goes(c, a, w) && Settled(a, w, msgs, false)
    ensures var p := OneByOne(c, w, msgs, |msgs|);
      && Goes(c, a, p.w) && AtMostOnce(a, p.w)
      && (p.over ==>
            var kept := With(msgs, p.rets, Suspended);
            && (forall id: nat :: Holds(kept, id) ==> id < |msgs|)
            && (forall id: nat :: Settlements(p.w.log, id) == Settlements(a.log, id) + (if id < |msgs| && !Holds(kept, id) then 1 else 0))
            && (kept != [] ==>
                  var r := RetryLoop(c, p.w, kept);
                  Goes(c, a, r.w) && Settled(p.w, r.w, kept, r.Done? && (r.ret == Ok || r.ret == Suspended))))
  {
    hide RetryLoop, OneByOne, Goes, Settlements;
    OneByOneSettles(c, w, msgs, |msgs|);
    var p := OneByOne(c, w, msgs, |msgs|);
    GoesTrans(c, a, w, p.w);
    if p.over {
      WithHolds(msgs, p.rets, Suspended);
      var kept := With(msgs, p.rets, Suspended);
      if kept != [] {
        LoopSettles(c, p.w, kept);
        GoesTrans(c, a, p.w, RetryLoop(c, p.w, kept).w);
      }
    }
  }

  /** Of n messages every one was settled exactly once except those left over; and none is left
      over exactly if the code is OK or suspended. */
  ghost predicate SettledExcept(a: World, b: World, n: nat, left: seq<Msg>, ret: Ret) {
    && (left == [] <==> ret == Ok || ret == Suspended)
    && (forall id: nat :: Holds(left, id) ==> id < n)
    && forall id: nat :: Settlements(b.log, id) == Settlements(a.log, id) + (if id < n && !Holds(left, id) then 1 else 0)
  }

  /** Over a commit, however it ends, no message is settled twice. When it is done every message
      of the batch was settled exactly once except those dropped; and none is dropped exactly
      if the result is OK or suspended. */
  lemma CommitSettles(c: Config, w: World, msgs: seq<Msg>)
    requires Numbered(msgs)
    ensures var r := CommitRun(c, w, msgs);
      && Goes(c, w, r.w) && AtMostOnce(w, r.w)
      && (r.Done? ==> SettledExcept(w, r.w, |msgs|, Dropped(c, w, msgs), r.ret))
  {
    hide TryCommit, RetryLoop, OneByOne, Goes, Settlements;
    NumberedHolds(msgs);
    var t := TryCommit(c, w, msgs);
    if msgs == [] {
      GoesSame(c, w);
    } else if w.state == Susp {
      GoesRecorded(c, w, msgs);
    } else {
      AttemptGoes(c, w, msgs);
      if t.Done? && t.ret != Ok {
        if |msgs| == 1 {
          if t.ret != DataFail {
            LoopSettles(c, t.w, msgs);
            GoesTrans(c, w, t.w, RetryLoop(c, t.w, msgs).w);
          }
        } else {
          SortedSettles(c, w, t.w, msgs);
        }
      }
    }
  }

  // ----- what became of the messages -----

  /** The plugin took the message, or it is in the error file. */
  predicate Delivers(e: Event, m: Msg) { Takes(e, m) || (e.ErrorFile? && m in e.lost) }

  ghost predicate Delivered(before: seq<Event>, after: seq<Event>, m: Msg) {
    exists k :: |before| <= k < |after| && Delivers(after[k], m)
  }

  ghost predicate AllDelivered(before: seq<Event>, after: seq<Event>, msgs: seq<Msg>) {
    forall i :: 0 <= i < |msgs| ==> Delivered(before, after, msgs[i])
  }

  lemma DeliveredWider(a: seq<Event>, b: seq<Event>, d: seq<Event>, e: seq<Event>, m: Msg)
    requires a <= b <= d <= e && Delivered(b, d, m)
    ensures Delivered(a, e, m)
  {
    var k :| |b| <= k < |d| && Delivers(d[k], m);
    assert Delivers(e[k], m);
  }

  lemma TakenIsDelivered(before: seq<Event>, after: seq<Event>, msgs: seq<Msg>)
    requires Taken(before, after, msgs)
    ensures AllDelivered(before, after, msgs)
  {
    forall i | 0 <= i < |msgs| ensures Delivered(before, after, msgs[i]) {
      assert TakenIn(before, after, msgs[i]);
      var k :| |before| <= k < |after| && Takes(after[k], msgs[i]);
      assert Delivers(after[k], msgs[i]);
    }
  }

  lemma ErrorFileDelivers(before: seq<Event>, w: World, msgs: seq<Msg>)
    requires before <= w.log
    ensures AllDelivered(before, WithErrorFile(w, msgs).log, msgs)
  {
    var log := WithErrorFile(w, msgs).log;
    forall i | 0 <= i < |msgs| ensures Delivered(before, log, msgs[i]) { assert Delivers(log[|w.log|], msgs[i]); }
  }

  lemma AttemptDelivers(c: Config, w: World, msgs: seq<Msg>)
    requires msgs != []
    ensures var r := TryCommit(c, w, msgs);
      w.log <= r.w.log && (r.Done? && r.ret == Ok && NonePassed(w.log, r.w.log) ==> AllDelivered(w.log, r.w.log, msgs))
  {
    hide TryCommit, Inv;
    TryCommitTaken(c, w, msgs);
    TryCommitSettles(c, w, msgs);
    var r := TryCommit(c, w, msgs);
    if r.Done? && r.ret == Ok && NonePassed(w.log, r.w.log) { TakenIsDelivered(w.log, r.w.log, msgs); }
  }

  lemma OneDelivers(c: Config, w: World, m: Msg)
    ensures var r := TryOne(c, w, m);
      && w.log <= r.w.log
      && (r.Done? && r.ret != Suspended && NonePassed(w.log, r.w.log) ==> Delivered(w.log, r.w.log, m))
  {
    hide TryCommit, NonePassed, Delivered;
    AttemptDelivers(c, w.(resumeInRow := 0), [m]);
    var t := TryCommit(c, w.(resumeInRow := 0), [m]);
    ErrorFileDelivers(w.log, t.w, [m]);
    assert [m][0] == m;
  }

  lemma {:induction false} PassDelivers(c: Config, w: World, msgs: seq<Msg>, n: nat)
    requires n <= |msgs|
    ensures var p := OneByOne(c, w, msgs, n);
      && w.log <= p.w.log
      && (p.over && NonePassed(w.log, p.w.log) ==>
            forall i :: 0 <= i < n && p.rets[i] != Suspended ==> Delivered(w.log, p.w.log, msgs[i]))
  {
    hide TryOne, NonePassed, Delivered;
    if n > 0 {
      PassDelivers(c, w, msgs, n - 1);
      var p, q := OneByOne(c, w, msgs, n - 1), OneByOne(c, w, msgs, n);
      if p.over {
        OneDelivers(c, p.w, msgs[n - 1]);
        PassedSplit(w.log, p.w.log, q.w.log);
        if q.over && NonePassed(w.log, q.w.log) {
          forall i | 0 <= i < n && q.rets[i] != Suspended ensures Delivered(w.log, q.w.log, msgs[i]) {
            if i < n - 1 {
              assert q.rets[i] == p.rets[i];
              DeliveredWider(w.log, w.log, p.w.log, q.w.log, msgs[i]);
            } else {
              DeliveredWider(w.log, p.w.log, q.w.log, q.w.log, msgs[i]);
            }
          }
        }
      }
    }
  }

  lemma RoundDelivers(c: Config, w: World, open: seq<Msg>)
    requires open != []
    ensures var r := LoopRound(c, w, open);
      && (r.Again? ==> w.log <= r.w.log)
      && (r.Over? ==> w.log <= r.o.w.log)
      && (r.Over? && r.o.Done? && r.o.ret in {Ok, Suspended} && NonePassed(w.log, r.o.w.log) ==> AllDelivered(w.log, r.o.w.log, open))
  {
    hide TryCommit, RetryFrom, NonePassed, AllDelivered, Inv;
    AttemptDelivers(c, w, open);
    TryCommitTaken(c, w, open);
    var t := TryCommit(c, w, open);
    if t.Done? && t.ret == Suspended {
      DoRetryKept(c, t.w);
      ErrorFileDelivers(w.log, DoRetry(c, t.w).w, open);
    }
  }

  lemma {:induction false} LoopDelivers(c: Config, w: World, open: seq<Msg>)
    requires open != []
    ensures var r := RetryLoop(c, w, open);
      && w.log <= r.w.log
      && (r.Done? && r.ret in {Ok, Suspended} && NonePassed(w.log, r.w.log) ==> AllDelivered(w.log, r.w.log, open))
    decreases |w.replies|
  {
    hide LoopRound, NonePassed, Delivered;
    RoundDelivers(c, w, open);
    var n := LoopRound(c, w, open);
    if n.Again? && |n.w.replies| < |w.replies| {
      LoopDelivers(c, n.w, open);
      var r := RetryLoop(c, n.w, open);
      PassedSplit(w.log, n.w.log, r.w.log);
      if r.Done? && r.ret in {Ok, Suspended} && NonePassed(w.log, r.w.log) {
        forall i | 0 <= i < |open| ensures Delivered(w.log, r.w.log, open[i]) {
          DeliveredWider(w.log, n.w.log, r.w.log, r.w.log, open[i]);
        }
      }
    }
  }

  lemma {:induction false} WithHas(msgs: seq<Msg>, rets: seq<Ret>, kind: Ret, i: nat)
    requires |msgs| == |rets| && i < |msgs| && rets[i] == kind
    ensures msgs[i] in With(msgs, rets, kind)
  {
    var n := |msgs| - 1;
    if i < n { WithHas(msgs[..n], rets[..n], kind, i); }
  }

  /** The messages tried one by one and then in the retry loop. */
  lemma SortedDelivers(c: Config, a: seq<Event>, w: World, msgs: seq<Msg>)
    requires a <= w.log
    ensures var p := OneByOne(c, w, msgs, |msgs|);
      p.over && NonePassed(w.log, p.w.log) ==>
        var kept := With(msgs, p.rets, Suspended);
        && (forall i :: 0 <= i < |msgs| && msgs[i] !in kept ==> Delivered(a, p.w.log, msgs[i]))
  {
    hide OneByOne, NonePassed, Delivered;
    PassDelivers(c, w, msgs, |msgs|);
    var p := OneByOne(c, w, msgs, |msgs|);
    if p.over && NonePassed(w.log, p.w.log) {
      forall i | 0 <= i < |msgs| && msgs[i] !in With(msgs, p.rets, Suspended) ensures Delivered(a, p.w.log, msgs[i]) {
        if p.rets[i] == Suspended { WithHas(msgs, p.rets, Suspended, i); }
        DeliveredWider(a, w.log, p.w.log, p.w.log, msgs[i]);
      }
    }
  }

  lemma SingleDelivers(c: Config, w: World, t: Outcome, msgs: seq<Msg>)
    requires |msgs| == 1 && w.state != Susp && t == TryCommit(c, w, msgs) && t.Done? && t.ret != Ok && w.log <= t.w.log
    requires var r := CommitRun(c, w, msgs); r.Done? && NonePassed(w.log, r.w.log)
    ensures forall i :: 0 <= i < 1 && msgs[i] !in Dropped(c, w, msgs) ==> Delivered(w.log, CommitRun(c, w, msgs).w.log, msgs[i])
  {
    hide TryCommit, RetryLoop, NonePassed, Delivered;
    if t.ret != DataFail {
      LoopDelivers(c, t.w, msgs);
      var r := RetryLoop(c, t.w, msgs);
      PassedSplit(w.log, t.w.log, r.w.log);
      if r.ret in {Ok, Suspended} { DeliveredWider(w.log, t.w.log, r.w.log, r.w.log, msgs[0]); }
    }
    assert msgs[0] in msgs;
  }

  lemma SeveralDeliver(c: Config, w: World, t: Outcome, msgs: seq<Msg>)
    requires |msgs| > 1 && w.state != Susp && t == TryCommit(c, w, msgs) && t.Done? && t.ret != Ok && w.log <= t.w.log
    requires var r := CommitRun(c, w, msgs); r.Done? && NonePassed(w.log, r.w.log)
    ensures forall i :: 0 <= i < |msgs| && msgs[i] !in Dropped(c, w, msgs) ==> Delivered(w.log, CommitRun(c, w, msgs).w.log, msgs[i])
  {
    hide TryCommit, RetryLoop, OneByOne, NonePassed, Delivered, With;
    var p := OneByOne(c, t.w, msgs, |msgs|);
    var kept, r := With(msgs, p.rets, Suspended), CommitRun(c, w, msgs);
    PassDelivers(c, t.w, msgs, |msgs|);
    SortedDelivers(c, w.log, t.w, msgs);
    if kept != [] { LoopDelivers(c, p.w, kept); }
    PassedSplit(w.log, t.w.log, r.w.log);
    PassedSplit(t.w.log, p.w.log, r.w.log);
    forall i | 0 <= i < |msgs| && msgs[i] !in Dropped(c, w, msgs) ensures Delivered(w.log, r.w.log, msgs[i]) {
      if msgs[i] !in kept {
        DeliveredWider(w.log, w.log, p.w.log, r.w.log, msgs[i]);
      } else {
        var k :| 0 <= k < |kept| && kept[k] == msgs[i];
        assert Delivered(p.w.log, r.w.log, kept[k]);
        DeliveredWider(w.log, p.w.log, r.w.log, r.w.log, msgs[i]);
      }
    }
  }

  /** Where the plugin passed over no message, a commit that is done lost none without a trace:
      every message that is not among those dropped was taken by the plugin or is in the error
      file. */
  lemma CommitDelivers(c: Config, w: World, msgs: seq<Msg>)
    ensures var r, left := CommitRun(c, w, msgs), Dropped(c, w, msgs);
      r.Done? && NonePassed(w.log, r.w.log) ==>
        forall i :: 0 <= i < |msgs| && msgs[i] !in left ==> Delivered(w.log, r.w.log, msgs[i])
  {
    hide TryCommit, RetryLoop, OneByOne, NonePassed, Delivered, With;
    var r := CommitRun(c, w, msgs);
    if msgs != [] && r.Done? && NonePassed(w.log, r.w.log) {
      if w.state == Susp {
        ErrorFileDelivers(w.log, w, msgs);
      } else {
        AttemptDelivers(c, w, msgs);
        var t := TryCommit(c, w, msgs);
        if t.ret != Ok {
          if |msgs| == 1 {
            SingleDelivers(c, w, t, msgs);
          } else {
            SeveralDeliver(c, w, t, msgs);
          }
        }
      }
    }
  }

  /** Without that a message can be lost without a trace: the commit is OK and drops nothing, but
      no call took the message and it is not in the error file. */
  lemma LostExample(c: Config, m0: Msg, m1: Msg)
    requires m0 != m1
    ensures c.hasCommit ==>
      var w := Fresh([Ok, DisableAction, Ok]); var r := CommitRun(c, w, [m1]);
      r.Done? && r.ret == Ok && Dropped(c, w, [m1]) == [] && !Delivered([], r.w.log, m1)
    ensures !c.hasCommit ==>
      var w := Fresh([Ok, Ok, DeferCommit]); var r := CommitRun(c, w, [m0, m1]);
      r.Done? && r.ret == Ok && Dropped(c, w, [m0, m1]) == [] && !Delivered([], r.w.log, m1)
  {
    hide TryCommit, TakenIn;
    if c.hasCommit { DisabledExample(c, m1); } else { SkippedExample(c, m0, m1); }
  }
}

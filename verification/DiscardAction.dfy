/** The discard action without the optimizer: the executor does not look at the return
    code of an action, so only the rewriting to STOP ends the script. */
module DiscardAction {
  import opened Expr
  import opened PriMask
  import opened Script

  predicate NoDiscard(trace: seq<Event>) {
    forall i :: 0 <= i < |trace| ==> !(trace[i].Ran? && trace[i].discard)
  }

  /** Called rulesets have been optimized, so no discard action runs in them. */
  ghost predicate QuietEnv(env: Env) {
    && ValidEnv(env)
    && (forall n, m {:trigger env.called(n, m)} :: NoDiscard(env.called(n, m).trace))
    && (forall n, m {:trigger env.indirect(n, m)} :: NoDiscard(env.indirect(n, m).trace))
    && (forall n, m {:trigger env.reload(n, m)} :: NoDiscard(env.reload(n, m).trace))
  }

  ghost predicate Exact(ignoring: Run, heeding: Run) {
    NoDiscard(heeding.trace) && (NoDiscard(ignoring.trace) <==> ignoring == heeding)
  }

  lemma ThenExact(a: Run, b: Run, a': Run, b': Run)
    requires Exact(a, a') && a.out.Ok? && a'.out.Ok? && (a == a' ==> Exact(b, b'))
    requires NoDiscard(b'.trace)
    requires a != a' ==> !NoDiscard(a.trace)
    ensures Exact(Then(a, b), Then(a', b'))
  {
    var t, t' := a.trace + b.trace, a'.trace + b'.trace;
    if !NoDiscard(a.trace) {
      var i :| 0 <= i < |a.trace| && a.trace[i].Ran? && a.trace[i].discard;
      assert t[i] == a.trace[i];
    } else {
      assert a == a';
      if !NoDiscard(b.trace) {
        var i :| 0 <= i < |b.trace| && b.trace[i].Ran? && b.trace[i].discard;
        assert t[|a.trace| + i] == b.trace[i];
      }
    }
  }

  lemma {:induction false} StmtExact(s: Stmt, m: Message, env: Env, how: Lookup)
    requires ValidMessage(m) && QuietEnv(env)
    ensures Exact(ExecStmt(s, m, env, Mode(how, false)), ExecStmt(s, m, env, Mode(how, true)))
    decreases s, 0
  {
    var off, on := Mode(how, false), Mode(how, true);
    match s
    case If(c, t, e) => DiscardIgnored(t, m, env, how); DiscardIgnored(e, m, env, how);
    case PriFilt(mask, t, e) => DiscardIgnored(t, m, env, how); DiscardIgnored(e, m, env, how);
    case PropFilt(test, t) => DiscardIgnored(t, m, env, how);
    case Foreach(iter, coll, body) => EachExact(body, iter, env.items(Eval(coll, m, env.lib, how)), m, env, how);
    case Act(id, discard) => assert discard ==> ExecStmt(s, m, env, off).trace[0].discard;
    case _ =>
  }

  /** Run as the executor is written, a script behaves as meant exactly when that run carries
      out no discard action. */
  lemma {:induction false} DiscardIgnored(stmts: seq<Stmt>, m: Message, env: Env, how: Lookup)
    requires ValidMessage(m) && QuietEnv(env)
    ensures NoDiscard(Exec(stmts, m, env, Mode(how, true)).trace)
    ensures NoDiscard(Exec(stmts, m, env, Mode(how, false)).trace)
      <==> Exec(stmts, m, env, Mode(how, false)) == Exec(stmts, m, env, Mode(how, true))
    decreases stmts, 0
  {
    var off, on := Mode(how, false), Mode(how, true);
    if stmts != [] {
      StmtExact(stmts[0], m, env, how);
      var r, r' := ExecStmt(stmts[0], m, env, off), ExecStmt(stmts[0], m, env, on);
      DiscardIgnored(stmts[1..], r'.m, env, how);
      if r.out.Ok? && r'.out.Ok? {
        ThenExact(r, Exec(stmts[1..], r.m, env, off), r', Exec(stmts[1..], r'.m, env, on));
      } else if r.out.Ok? {
        var i :| 0 <= i < |r.trace| && r.trace[i].Ran? && r.trace[i].discard;
        assert Exec(stmts, m, env, off).trace[i] == r.trace[i];
      }
    }
  }

  lemma {:induction false} EachExact(body: seq<Stmt>, iter: string, items: seq<Value>, m: Message, env: Env, how: Lookup)
    requires ValidMessage(m) && QuietEnv(env)
    ensures Exact(ExecEach(body, iter, items, m, env, Mode(how, false)), ExecEach(body, iter, items, m, env, Mode(how, true)))
    decreases body, 1, |items|
  {
    var off, on := Mode(how, false), Mode(how, true);
    if items != [] {
      var m1 := m.(props := m.props[iter := items[0]]);
      DiscardIgnored(body, m1, env, how);
      var r, r' := Exec(body, m1, env, off), Exec(body, m1, env, on);
      EachExact(body, iter, items[1..], r'.m, env, how);
      if r.out.Ok? && r'.out.Ok? {
        ThenExact(r, ExecEach(body, iter, items[1..], r.m, env, off), r', ExecEach(body, iter, items[1..], r'.m, env, on));
      } else if r.out.Ok? {
        var i :| 0 <= i < |r.trace| && r.trace[i].Ran? && r.trace[i].discard;
        assert ExecEach(body, iter, items, m, env, off).trace[i] == r.trace[i];
      }
    }
  }

  // ----- scripts whose discard actions are out of reach -----

  /** The meant run of a statement comes to a discard action. */
  predicate ReachesIn(s: Stmt, m: Message, env: Env, how: Lookup)
    requires ValidMessage(m) && ValidEnv(env)
    decreases s, 0
  {
    match s
    case Act(_, discard) => discard
    case If(c, t, e) => if Truth(Eval(c, m, env.lib, how)) then Reaches(t, m, env, how) else Reaches(e, m, env, how)
    case PriFilt(mask, t, e) =>
      if Matches(mask, m.facility, m.severity) then Reaches(t, m, env, how) else Reaches(e, m, env, how)
    case PropFilt(test, t) => env.propTest(test, m) && Reaches(t, m, env, how)
    case Foreach(iter, coll, body) => ReachesEach(body, iter, env.items(Eval(coll, m, env.lib, how)), m, env, how)
    case _ => false
  }

  predicate Reaches(stmts: seq<Stmt>, m: Message, env: Env, how: Lookup)
    requires ValidMessage(m) && ValidEnv(env)
    decreases stmts, 0
  {
    if stmts == [] then false
    else
      var r := ExecStmt(stmts[0], m, env, Mode(how, true));
      ReachesIn(stmts[0], m, env, how) || (r.out.Ok? && Reaches(stmts[1..], r.m, env, how))
  }

  predicate ReachesEach(body: seq<Stmt>, iter: string, items: seq<Value>, m: Message, env: Env, how: Lookup)
    requires ValidMessage(m) && ValidEnv(env)
    decreases body, 1, |items|
  {
    if items == [] then false
    else
      var m1 := m.(props := m.props[iter := items[0]]);
      var r := Exec(body, m1, env, Mode(how, true));
      Reaches(body, m1, env, how) || (r.out.Ok? && ReachesEach(body, iter, items[1..], r.m, env, how))
  }

  lemma NoDiscardThen(a: Run, b: Run)
    ensures NoDiscard(Then(a, b).trace) <==> NoDiscard(a.trace) && NoDiscard(b.trace)
  {
    var t := a.trace + b.trace;
    assert forall i :: 0 <= i < |a.trace| ==> t[i] == a.trace[i];
    assert forall i :: 0 <= i < |b.trace| ==> t[|a.trace| + i] == b.trace[i];
  }

  lemma {:induction false} ReachedStmt(s: Stmt, m: Message, env: Env, how: Lookup)
    requires ValidMessage(m) && QuietEnv(env)
    ensures NoDiscard(ExecStmt(s, m, env, Mode(how, false)).trace) <==> !ReachesIn(s, m, env, how)
    decreases s, 0
  {
    hide NoDiscard;
    var off := Mode(how, false);
    match s
    case If(c, t, e) => Reached(t, m, env, how); Reached(e, m, env, how);
    case PriFilt(mask, t, e) => Reached(t, m, env, how); Reached(e, m, env, how);
    case PropFilt(test, t) => Reached(t, m, env, how); NothingDiscarded();
    case Foreach(iter, coll, body) =>
      ReachedEach(body, iter, env.items(Eval(coll, m, env.lib, how)), m, env, how);
      NothingDiscarded();
    case Act(id, discard) => OneEvent(id, discard, m);
    case _ => NothingDiscarded();
  }

  lemma NothingDiscarded()
    ensures NoDiscard([])
  {
  }

  lemma OneEvent(id: nat, discard: bool, m: Message)
    ensures NoDiscard([Ran(id, discard, m)]) <==> !discard
  {
    assert [Ran(id, discard, m)][0] == Ran(id, discard, m);
  }

  lemma {:induction false} Reached(stmts: seq<Stmt>, m: Message, env: Env, how: Lookup)
    requires ValidMessage(m) && QuietEnv(env)
    ensures NoDiscard(Exec(stmts, m, env, Mode(how, false)).trace) <==> !Reaches(stmts, m, env, how)
    decreases stmts, 0
  {
    hide NoDiscard, ExecStmt, ReachesIn;
    var off, on := Mode(how, false), Mode(how, true);
    NothingDiscarded();
    if stmts != [] {
      ReachedStmt(stmts[0], m, env, how);
      StmtExact(stmts[0], m, env, how);
      var r, r' := ExecStmt(stmts[0], m, env, off), ExecStmt(stmts[0], m, env, on);
      if r.out.Ok? { NoDiscardThen(r, Exec(stmts[1..], r.m, env, off)); }
      if r == r' { Reached(stmts[1..], r.m, env, how); }
    }
  }

  lemma {:induction false} ReachedEach(body: seq<Stmt>, iter: string, items: seq<Value>, m: Message, env: Env, how: Lookup)
    requires ValidMessage(m) && QuietEnv(env)
    ensures NoDiscard(ExecEach(body, iter, items, m, env, Mode(how, false)).trace) <==> !ReachesEach(body, iter, items, m, env, how)
    decreases body, 1, |items|
  {
    hide NoDiscard;
    var off, on := Mode(how, false), Mode(how, true);
    NothingDiscarded();
    if items != [] {
      var m1 := m.(props := m.props[iter := items[0]]);
      Reached(body, m1, env, how);
      DiscardIgnored(body, m1, env, how);
      var r, r' := Exec(body, m1, env, off), Exec(body, m1, env, on);
      if r.out.Ok? { NoDiscardThen(r, ExecEach(body, iter, items[1..], r.m, env, off)); }
      if r == r' { ReachedEach(body, iter, items[1..], r.m, env, how); }
    }
  }

  lemma {:induction false} NoneReachedIn(s: Stmt, m: Message, env: Env, how: Lookup)
    requires ValidMessage(m) && ValidEnv(env) && DiscardFree(s)
    ensures !ReachesIn(s, m, env, how)
    decreases s, 0
  {
    match s
    case If(c, t, e) => NoneReached(t, m, env, how); NoneReached(e, m, env, how);
    case PriFilt(mask, t, e) => NoneReached(t, m, env, how); NoneReached(e, m, env, how);
    case PropFilt(test, t) => NoneReached(t, m, env, how);
    case Foreach(iter, coll, body) => NoneReachedEach(body, iter, env.items(Eval(coll, m, env.lib, how)), m, env, how);
    case _ =>
  }

  lemma {:induction false} NoneReached(stmts: seq<Stmt>, m: Message, env: Env, how: Lookup)
    requires ValidMessage(m) && ValidEnv(env) && AllDiscardFree(stmts)
    ensures !Reaches(stmts, m, env, how)
    decreases stmts, 0
  {
    hide ExecStmt, ReachesIn, DiscardFree;
    if stmts != [] {
      NoneReachedIn(stmts[0], m, env, how);
      NoneReached(stmts[1..], ExecStmt(stmts[0], m, env, Mode(how, true)).m, env, how);
    }
  }

  lemma {:induction false} NoneReachedEach(body: seq<Stmt>, iter: string, items: seq<Value>, m: Message, env: Env, how: Lookup)
    requires ValidMessage(m) && ValidEnv(env) && AllDiscardFree(body)
    ensures !ReachesEach(body, iter, items, m, env, how)
    decreases body, 1, |items|
  {
    hide Exec, Reaches, DiscardFree;
    if items != [] {
      var m1 := m.(props := m.props[iter := items[0]]);
      NoneReached(body, m1, env, how);
      NoneReachedEach(body, iter, items[1..], Exec(body, m1, env, Mode(how, true)).m, env, how);
    }
  }

  /** Run as the executor is written, a script that was not optimized behaves as meant for a
      message exactly if its meant run comes to no discard action. */
  lemma DiscardExact(stmts: seq<Stmt>, m: Message, env: Env, how: Lookup)
    requires ValidMessage(m) && QuietEnv(env)
    ensures Exec(stmts, m, env, Mode(how, false)) == Exec(stmts, m, env, Mode(how, true)) <==> !Reaches(stmts, m, env, how)
  {
    DiscardIgnored(stmts, m, env, how);
    Reached(stmts, m, env, how);
  }

  ghost predicate DiscardsUnreachable(stmts: seq<Stmt>, env: Env, how: Lookup)
    requires ValidEnv(env)
  {
    forall m | ValidMessage(m) :: !Reaches(stmts, m, env, how)
  }

  /** It does so for all messages exactly if its discard actions are out of reach, which they
      are for certain where there are none: as in every optimized script. */
  lemma DiscardAlways(stmts: seq<Stmt>, env: Env, how: Lookup)
    requires QuietEnv(env)
    ensures (forall m | ValidMessage(m) :: Exec(stmts, m, env, Mode(how, false)) == Exec(stmts, m, env, Mode(how, true)))
      <==> DiscardsUnreachable(stmts, env, how)
    ensures AllDiscardFree(stmts) ==> DiscardsUnreachable(stmts, env, how)
  {
    forall m | ValidMessage(m)
      ensures Exec(stmts, m, env, Mode(how, false)) == Exec(stmts, m, env, Mode(how, true)) <==> !Reaches(stmts, m, env, how)
    {
      DiscardExact(stmts, m, env, how);
    }
    if AllDiscardFree(stmts) {
      forall m | ValidMessage(m) ensures !Reaches(stmts, m, env, how) { NoneReached(stmts, m, env, how); }
    }
  }

  /** A discard action in front of another one: as meant, nothing runs; as executed, both do. */
  lemma DiscardExample(m: Message, env: Env, how: Lookup)
    requires ValidMessage(m) && QuietEnv(env)
    ensures var script := [Act(0, true), Act(1, false)];
      && Exec(script, m, env, Mode(how, true)) == Run(m, [], Halt(DISCARDMSG))
      && Exec(script, m, env, Mode(how, false)) == Run(m, [Ran(0, true, m), Ran(1, false, m)], Ok)
  {
    var first, second := Act(0, true), Act(1, false);
    assert [first, second][1..] == [second];
    ExecOne(second, m, env, Mode(how, false));
  }
}

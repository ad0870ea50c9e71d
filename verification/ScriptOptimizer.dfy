/** The statement optimizer (cnfstmtOptimize) and the proof that the optimized script
    runs the same actions on the same messages and ends the same way. */
module ScriptOptimizer {
  import opened PriMask
  import opened StringArrays
  import opened Expr
  import opened ExprOptimizer
  import opened Script
  import StmtChain

  function SizeOf(s: Stmt): (n: nat)
    ensures n > 0
    decreases s, 0
  {
    match s
    case If(_, t, e) => 1 + Size(t) + Size(e)
    case PriFilt(_, t, e) => 1 + Size(t) + Size(e)
    case PropFilt(_, t) => 1 + Size(t)
    case Foreach(_, _, body) => 1 + Size(body)
    case _ => 1
  }

  function Size(stmts: seq<Stmt>): (n: nat)
    ensures stmts != [] ==> n > 0
    decreases stmts, 0
  {
    if stmts == [] then 0 else SizeOf(stmts[0]) + Size(stmts[1..])
  }

  lemma {:induction false} SizeConcat(a: seq<Stmt>, b: seq<Stmt>)
    ensures Size(a + b) == Size(a) + Size(b)
  {
    if a == [] {
      assert a + b == b;
    } else {
      assert (a + b)[1..] == a[1..] + b;
      SizeConcat(a[1..], b);
    }
  }

  /** Comparison results fit a byte up to sign, so a condition keeps them apart from zero. */
  ghost predicate ValidLibrary(lib: Library) {
    TotalOrder(lib.strcmp) && forall a, b :: -256 < lib.strcmp(a, b) < 256
  }

  ghost predicate Setting(env: Env) { ValidEnv(env) && ValidLibrary(env.lib) }

  const MEANT: Mode := Mode(ByMembership, true)

  /** `b` runs like `a` is meant to, however it looks arrays up and whether or not the
      executor heeds the discard action. */
  ghost predicate Refines(a: seq<Stmt>, b: seq<Stmt>, env: Env, invld: bool)
    requires Setting(env)
  {
    forall m, mode {:trigger Exec(b, m, env, mode)} ::
      Considered(m, invld) ==> Exec(b, m, env, mode) == Exec(a, m, env, MEANT)
  }

  ghost predicate Ready(s: Stmt, env: Env, invld: bool)
    requires Setting(env)
  {
    Refines([s], [s], env, invld)
  }

  ghost predicate AllReady(stmts: seq<Stmt>, env: Env, invld: bool)
    requires Setting(env)
  {
    forall k :: 0 <= k < |stmts| ==> Ready(stmts[k], env, invld)
  }

  /** The expressions of a statement are safe to optimize. A PRI filter gets an else part
      only from the optimizer, which has then dealt with it already. */
  ghost predicate SafeStmt(s: Stmt, env: Env, invld: bool)
    requires Setting(env)
    decreases s, 0
  {
    match s
    case Set(_, e) => SafeValue(e, env.lib, invld)
    case If(c, t, e) => SafeTruth(c, env.lib, invld) && SafeScript(t, env, invld) && SafeScript(e, env, invld)
    case PriFilt(_, t, e) => SafeScript(t, env, invld) && AllReady(e, env, invld) && AllDiscardFree(e)
    case PropFilt(_, t) => SafeScript(t, env, invld)
    case Foreach(_, coll, body) => SafeValue(coll, env.lib, invld) && SafeScript(body, env, invld)
    case CallIndirect(e) => SafeValue(e, env.lib, invld)
    case _ => true
  }

  ghost predicate SafeScript(stmts: seq<Stmt>, env: Env, invld: bool)
    requires Setting(env)
    decreases stmts, 0
  {
    forall i :: 0 <= i < |stmts| ==> SafeStmt(stmts[i], env, invld)
  }

  predicate NopFree(stmts: seq<Stmt>) { forall i :: 0 <= i < |stmts| ==> !stmts[i].Nop? }

  // ----- lists -----

  lemma {:induction false} AllReadyRuns(stmts: seq<Stmt>, env: Env, invld: bool)
    requires Setting(env) && AllReady(stmts, env, invld)
    ensures Refines(stmts, stmts, env, invld)
  {
    forall m, mode | Considered(m, invld)
      ensures Exec(stmts, m, env, mode) == Exec(stmts, m, env, MEANT)
    {
      ReadyRun(stmts, m, mode, env, invld);
    }
  }

  lemma {:induction false} ReadyRun(stmts: seq<Stmt>, m: Message, mode: Mode, env: Env, invld: bool)
    requires Setting(env) && AllReady(stmts, env, invld) && Considered(m, invld)
    ensures Exec(stmts, m, env, mode) == Exec(stmts, m, env, MEANT)
    decreases |stmts|
  {
    if stmts != [] {
      assert Ready(stmts[0], env, invld);
      assert Exec([stmts[0]], m, env, mode) == Exec([stmts[0]], m, env, MEANT);
      ExecOne(stmts[0], m, env, mode);
      ExecOne(stmts[0], m, env, MEANT);
      ReadyRun(stmts[1..], ExecStmt(stmts[0], m, env, MEANT).m, mode, env, invld);
    }
  }

  /** Two lists are meant the same. */
  ghost predicate SameMeaning(a: seq<Stmt>, b: seq<Stmt>, env: Env, invld: bool)
    requires Setting(env)
  {
    forall m {:trigger Exec(b, m, env, MEANT)} :: Considered(m, invld) ==> Exec(b, m, env, MEANT) == Exec(a, m, env, MEANT)
  }

  lemma SameMeaningTrans(a: seq<Stmt>, b: seq<Stmt>, c: seq<Stmt>, env: Env, invld: bool)
    requires Setting(env) && SameMeaning(a, b, env, invld)
    ensures SameMeaning(b, c, env, invld) ==> SameMeaning(a, c, env, invld)
    ensures Refines(b, c, env, invld) ==> Refines(a, c, env, invld)
  {
    hide Exec;
    if Refines(b, c, env, invld) {
      forall m, mode | Considered(m, invld) ensures Exec(c, m, env, mode) == Exec(a, m, env, MEANT) {
        assert Exec(c, m, env, mode) == Exec(b, m, env, MEANT);
      }
    }
    if SameMeaning(b, c, env, invld) {
      forall m | Considered(m, invld) ensures Exec(c, m, env, MEANT) == Exec(a, m, env, MEANT) {
        assert Exec(c, m, env, MEANT) == Exec(b, m, env, MEANT);
      }
    }
  }

  /** Replacing a statement inside a list by one that is meant the same. */
  lemma Replace(a: seq<Stmt>, s: Stmt, repl: seq<Stmt>, b: seq<Stmt>, env: Env, invld: bool)
    requires Setting(env) && Refines([s], repl, env, invld)
    ensures SameMeaning(a + [s] + b, a + repl + b, env, invld)
  {
    hide Exec;
    forall m | Considered(m, invld) ensures Exec(a + repl + b, m, env, MEANT) == Exec(a + [s] + b, m, env, MEANT) {
      ExecConcat(a + repl, b, m, env, MEANT);
      ExecConcat(a + [s], b, m, env, MEANT);
      ExecConcat(a, repl, m, env, MEANT);
      ExecConcat(a, [s], m, env, MEANT);
      var m' := Exec(a, m, env, MEANT).m;
      assert Exec(repl, m', env, MEANT) == Exec([s], m', env, MEANT);
    }
  }

  lemma RefinesTrans(a: seq<Stmt>, b: seq<Stmt>, c: seq<Stmt>, env: Env, invld: bool)
    requires Setting(env) && Refines(a, b, env, invld) && Refines(b, c, env, invld)
    ensures Refines(a, c, env, invld)
  {
    forall m, mode | Considered(m, invld) ensures Exec(c, m, env, mode) == Exec(a, m, env, MEANT) {
      assert Exec(c, m, env, mode) == Exec(b, m, env, MEANT);
      assert Exec(b, m, env, MEANT) == Exec(a, m, env, MEANT);
    }
  }

  function WithoutNops(stmts: seq<Stmt>): (r: seq<Stmt>)
    ensures NopFree(r) && Size(r) <= Size(stmts)
    ensures forall i :: 0 <= i < |r| ==> r[i] in stmts
  {
    if stmts == [] then []
    else if stmts[0].Nop? then WithoutNops(stmts[1..])
    else
      var rest := WithoutNops(stmts[1..]);
      assert ([stmts[0]] + rest)[1..] == rest;
      [stmts[0]] + rest
  }

  lemma {:induction false} NopsDoNothing(stmts: seq<Stmt>, m: Message, env: Env, mode: Mode)
    requires ValidMessage(m) && ValidEnv(env)
    ensures Exec(WithoutNops(stmts), m, env, mode) == Exec(stmts, m, env, mode)
    decreases |stmts|
  {
    hide Eval, Matches, ExecEach;
    if stmts != [] {
      var r := ExecStmt(stmts[0], m, env, mode);
      NopsDoNothing(stmts[1..], r.m, env, mode);
      if stmts[0].Nop? {
        var rest := Exec(stmts[1..], m, env, mode);
        assert [] + rest.trace == rest.trace;
      } else {
        assert ([stmts[0]] + WithoutNops(stmts[1..]))[1..] == WithoutNops(stmts[1..]);
      }
    }
  }

  lemma SafeWithoutNops(stmts: seq<Stmt>, env: Env, invld: bool)
    requires Setting(env) && SafeScript(stmts, env, invld) && AllReady(stmts, env, invld)
    ensures SafeScript(WithoutNops(stmts), env, invld) && AllReady(WithoutNops(stmts), env, invld)
    ensures Refines(stmts, WithoutNops(stmts), env, invld)
  {
    var r := WithoutNops(stmts);
    forall i | 0 <= i < |r| ensures SafeStmt(r[i], env, invld) && Ready(r[i], env, invld) {
      var k :| 0 <= k < |stmts| && stmts[k] == r[i];
    }
    AllReadyRuns(stmts, env, invld);
    forall m, mode | Considered(m, invld) ensures Exec(r, m, env, mode) == Exec(stmts, m, env, MEANT) {
      NopsDoNothing(stmts, m, env, mode);
      assert Exec(stmts, m, env, mode) == Exec(stmts, m, env, MEANT);
    }
  }

  lemma FreeWithoutNops(stmts: seq<Stmt>)
    requires AllDiscardFree(stmts)
    ensures AllDiscardFree(WithoutNops(stmts))
  {
    hide DiscardFree;
    var r := WithoutNops(stmts);
    forall i | 0 <= i < |r| ensures DiscardFree(r[i]) {
      var k :| 0 <= k < |stmts| && stmts[k] == r[i];
    }
  }

  function Data(cells: seq<StmtChain.Cell<Stmt>>): (r: seq<Stmt>)
    ensures |r| == |cells|
  {
    seq(|cells|, i requires 0 <= i < |cells| => cells[i].data)
  }

  lemma DataCons(c: StmtChain.Cell<Stmt>, cells: seq<StmtChain.Cell<Stmt>>)
    ensures Data([c] + cells) == [c.data] + Data(cells)
  {
  }

  /** Taking the NOPs out of a chain of nodes takes them out of the list it holds. */
  lemma {:induction false} ChainNops(cells: seq<StmtChain.Cell<Stmt>>)
    requires forall i :: 0 <= i < |cells| ==> (cells[i].nop <==> cells[i].data.Nop?)
    ensures Data(StmtChain.NonNops(cells)) == WithoutNops(Data(cells))
  {
    hide Size, NopFree;
    if cells != [] {
      ChainNops(cells[1..]);
      assert Data(cells)[1..] == Data(cells[1..]);
      DataCons(cells[0], StmtChain.NonNops(cells[1..]));
    }
  }

  // ----- single statements -----

  /** A statement pair runs alike; stated for all messages and ways of running the second. */
  ghost predicate Alike(s: Stmt, s': Stmt, env: Env, invld: bool)
    requires Setting(env)
  {
    forall m, mode {:trigger ExecStmt(s', m, env, mode)} ::
      Considered(m, invld) ==> ExecStmt(s', m, env, mode) == ExecStmt(s, m, env, MEANT)
  }

  lemma AlikeRefines(s: Stmt, s': Stmt, env: Env, invld: bool)
    requires Setting(env) && Alike(s, s', env, invld)
    ensures Refines([s], [s'], env, invld) && Ready(s', env, invld)
  {
    forall m, mode | Considered(m, invld)
      ensures Exec([s'], m, env, mode) == Exec([s], m, env, MEANT)
      ensures Exec([s'], m, env, mode) == Exec([s'], m, env, MEANT)
    {
      ExecOne(s', m, env, mode);
      ExecOne(s', m, env, MEANT);
      ExecOne(s, m, env, MEANT);
      assert ExecStmt(s', m, env, mode) == ExecStmt(s, m, env, MEANT);
      assert ExecStmt(s', m, env, MEANT) == ExecStmt(s, m, env, MEANT);
    }
  }

  lemma SmallTruth(c: int)
    requires -256 < c < 256
    ensures Truth(Num(c)) == (c != 0)
  {
  }

  lemma ConditionKept(c: Expr, m: Message, lib: Library, how: Lookup, invld: bool)
    requires ValidLibrary(lib) && SafeTruth(c, lib, invld) && Considered(m, invld)
    ensures Truth(Eval(Optimize(c, lib), m, lib, how)) == Truth(Eval(c, m, lib, ByMembership))
  {
    if SafeValue(c, lib, invld) {
      OptimizeKeepsValue(c, m, lib, how, invld);
    } else {
      OptimizeKeepsTruth(c, m, lib, how, invld);
      var v := Eval(c, m, lib, ByMembership);
      assert -256 < v.n < 256;
      SmallTruth(v.n);
      SmallTruth(if NonZero(v) then 1 else 0);
    }
  }

  lemma IfAlike(c: Expr, t: seq<Stmt>, e: seq<Stmt>, t': seq<Stmt>, e': seq<Stmt>, env: Env, invld: bool)
    requires Setting(env) && SafeTruth(c, env.lib, invld)
    requires Refines(t, t', env, invld) && Refines(e, e', env, invld)
    ensures Alike(If(c, t, e), If(Optimize(c, env.lib), t', e'), env, invld)
  {
    hide Eval, Optimize, SafeTruth, Truth, Exec;
    var s, s' := If(c, t, e), If(Optimize(c, env.lib), t', e');
    forall m, mode | Considered(m, invld)
      ensures ExecStmt(s', m, env, mode) == ExecStmt(s, m, env, MEANT)
    {
      ConditionKept(c, m, env.lib, mode.how, invld);
      assert Exec(t', m, env, mode) == Exec(t, m, env, MEANT);
      assert Exec(e', m, env, mode) == Exec(e, m, env, MEANT);
    }
  }

  lemma FilterAlike(mask: Mask, t: seq<Stmt>, e: seq<Stmt>, t': seq<Stmt>, env: Env, invld: bool)
    requires Setting(env) && Refines(t, t', env, invld) && Refines(e, e, env, invld)
    ensures Alike(PriFilt(mask, t, e), PriFilt(mask, t', e), env, invld)
  {
    hide Exec, Matches;
    var s, s' := PriFilt(mask, t, e), PriFilt(mask, t', e);
    forall m, mode | Considered(m, invld)
      ensures ExecStmt(s', m, env, mode) == ExecStmt(s, m, env, MEANT)
    {
      assert Exec(t', m, env, mode) == Exec(t, m, env, MEANT);
      assert Exec(e, m, env, mode) == Exec(e, m, env, MEANT);
    }
  }

  /** An IF whose condition is a PRI test runs like the PRI filter. */
  lemma IfIsFilter(mask: Mask, t: seq<Stmt>, e: seq<Stmt>, env: Env, invld: bool)
    requires Setting(env) && Refines(t, t, env, invld) && Refines(e, e, env, invld)
    ensures Alike(If(Prifilt(mask), t, e), PriFilt(mask, t, e), env, invld)
  {
    hide Exec, Matches;
    var s, s' := If(Prifilt(mask), t, e), PriFilt(mask, t, e);
    forall m, mode | Considered(m, invld)
      ensures ExecStmt(s', m, env, mode) == ExecStmt(s, m, env, MEANT)
    {
      assert Exec(t, m, env, mode) == Exec(t, m, env, MEANT);
      assert Exec(e, m, env, mode) == Exec(e, m, env, MEANT);
    }
  }

  /** An always-true filter runs like its then part put in its place. */
  lemma AlwaysIsThen(mask: Mask, t: seq<Stmt>, e: seq<Stmt>, t': seq<Stmt>, env: Env, invld: bool)
    requires Setting(env) && IsAlways(mask) && Refines(t, t', env, invld)
    ensures Refines([PriFilt(mask, t, e)], t', env, invld)
  {
    AlwaysMatches(mask);
    var s := PriFilt(mask, t, e);
    forall m, mode | Considered(m, invld) ensures Exec(t', m, env, mode) == Exec([s], m, env, MEANT) {
      ExecOne(s, m, env, MEANT);
      assert Matches(mask, m.facility, m.severity);
    }
  }

  lemma PropFilterAlike(test: nat, t: seq<Stmt>, t': seq<Stmt>, env: Env, invld: bool)
    requires Setting(env) && Refines(t, t', env, invld)
    ensures Alike(PropFilt(test, t), PropFilt(test, t'), env, invld)
  {
    hide Exec;
    var s, s' := PropFilt(test, t), PropFilt(test, t');
    forall m, mode | Considered(m, invld)
      ensures ExecStmt(s', m, env, mode) == ExecStmt(s, m, env, MEANT)
    {
      assert Exec(t', m, env, mode) == Exec(t, m, env, MEANT);
    }
  }

  lemma {:induction false} EachAlike(body: seq<Stmt>, body': seq<Stmt>, iter: string, items: seq<Value>, m: Message, mode: Mode, env: Env, invld: bool)
    requires Setting(env) && Refines(body, body', env, invld) && Considered(m, invld)
    ensures ExecEach(body', iter, items, m, env, mode) == ExecEach(body, iter, items, m, env, MEANT)
    decreases |items|
  {
    if items != [] {
      var m1 := m.(props := m.props[iter := items[0]]);
      assert Exec(body', m1, env, mode) == Exec(body, m1, env, MEANT);
      EachAlike(body, body', iter, items[1..], Exec(body, m1, env, MEANT).m, mode, env, invld);
    }
  }

  lemma ForeachAlike(iter: string, coll: Expr, body: seq<Stmt>, body': seq<Stmt>, env: Env, invld: bool)
    requires Setting(env) && SafeValue(coll, env.lib, invld) && Refines(body, body', env, invld)
    ensures Alike(Foreach(iter, coll, body), Foreach(iter, Optimize(coll, env.lib), body'), env, invld)
  {
    hide Eval, Optimize, SafeValue, ExecEach;
    var s, s' := Foreach(iter, coll, body), Foreach(iter, Optimize(coll, env.lib), body');
    forall m, mode | Considered(m, invld)
      ensures ExecStmt(s', m, env, mode) == ExecStmt(s, m, env, MEANT)
    {
      OptimizeKeepsValue(coll, m, env.lib, mode.how, invld);
      EachAlike(body, body', iter, env.items(Eval(coll, m, env.lib, ByMembership)), m, mode, env, invld);
    }
  }

  lemma SetAlike(name: string, e: Expr, env: Env, invld: bool)
    requires Setting(env) && SafeValue(e, env.lib, invld)
    ensures Alike(Set(name, e), Set(name, Optimize(e, env.lib)), env, invld)
    ensures Alike(CallIndirect(e), CallIndirect(Optimize(e, env.lib)), env, invld)
  {
    hide Eval, Optimize, SafeValue;
    forall m, mode | Considered(m, invld)
      ensures ExecStmt(Set(name, Optimize(e, env.lib)), m, env, mode) == ExecStmt(Set(name, e), m, env, MEANT)
      ensures ExecStmt(CallIndirect(Optimize(e, env.lib)), m, env, mode) == ExecStmt(CallIndirect(e), m, env, MEANT)
    {
      OptimizeKeepsValue(e, m, env.lib, mode.how, invld);
    }
  }

  lemma NopIsEmpty(env: Env, invld: bool)
    requires Setting(env)
    ensures Refines([], [Nop], env, invld) && Ready(Nop, env, invld)
  {
    assert Alike(Nop, Nop, env, invld);
    AlikeRefines(Nop, Nop, env, invld);
    forall m, mode | Considered(m, invld) ensures Exec([Nop], m, env, mode) == Exec([], m, env, MEANT) {
      ExecOne(Nop, m, env, mode);
    }
  }

  lemma EmptyIf(c: Expr, env: Env, invld: bool)
    requires Setting(env)
    ensures Refines([If(c, [], [])], [Nop], env, invld) && Ready(Nop, env, invld)
  {
    assert Alike(If(c, [], []), Nop, env, invld);
    AlikeRefines(If(c, [], []), Nop, env, invld);
  }

  lemma SizeSplit(list: seq<Stmt>, i: nat)
    requires i < |list|
    ensures Size(list[i..]) == SizeOf(list[i]) + Size(list[i + 1..])
    ensures Size(list) == Size(list[..i]) + Size(list[i..])
  {
    assert list[i..][1..] == list[i + 1..];
    assert list == list[..i] + list[i..];
    SizeConcat(list[..i], list[i..]);
  }

  lemma SpliceFacts(list: seq<Stmt>, i: nat, repl: seq<Stmt>)
    requires i < |list| && repl != [] && Size(repl) <= SizeOf(list[i])
    ensures var l' := list[..i] + repl + list[i + 1..];
      && l'[..i + 1] == list[..i] + [repl[0]]
      && Size(l'[i + 1..]) < Size(list[i..]) && Size(l') <= Size(list)
  {
    var l' := list[..i] + repl + list[i + 1..];
    SizeSplit(list, i);
    assert l'[i + 1..] == repl[1..] + list[i + 1..];
    SizeConcat(repl[1..], list[i + 1..]);
    SizeConcat(list[..i] + repl, list[i + 1..]);
    SizeConcat(list[..i], repl);
  }

  lemma Start(root: seq<Stmt>, env: Env, invld: bool)
    requires Setting(env)
    ensures AllReady(root[..0], env, invld) && AllDiscardFree(root[..0])
    ensures SameMeaning(root, root, env, invld) && root[0..] == root
  {
  }

  lemma SafeAt(list: seq<Stmt>, i: nat, env: Env, invld: bool)
    requires Setting(env) && SafeScript(list, env, invld) && i < |list|
    ensures SafeStmt(list[i], env, invld)
  {
  }

  /** One step of the walk. */
  lemma Splice(root: seq<Stmt>, list: seq<Stmt>, i: nat, repl: seq<Stmt>, env: Env, invld: bool)
    requires Setting(env) && i < |list| && repl != [] && Size(repl) <= SizeOf(list[i])
    requires SafeScript(list, env, invld) && AllReady(list[..i], env, invld) && SameMeaning(root, list, env, invld)
    requires Refines([list[i]], repl, env, invld) && SafeScript(repl, env, invld) && AllReady(repl, env, invld)
    requires AllDiscardFree(list[..i]) && AllDiscardFree(repl)
    ensures var l' := list[..i] + repl + list[i + 1..];
      && SafeScript(l', env, invld) && AllReady(l'[..i + 1], env, invld) && SameMeaning(root, l', env, invld)
      && AllDiscardFree(l'[..i + 1])
      && Size(l'[i + 1..]) < Size(list[i..]) && Size(l') <= Size(list)
  {
    hide SameMeaning, Refines, Size, SizeOf, SafeStmt, Ready, Exec, DiscardFree;
    var l' := list[..i] + repl + list[i + 1..];
    assert list == list[..i] + [list[i]] + list[i + 1..];
    Replace(list[..i], list[i], repl, list[i + 1..], env, invld);
    SameMeaningTrans(root, list, l', env, invld);
    SpliceFacts(list, i, repl);
    assert forall k :: 0 <= k < i ==> l'[k] == list[k];
    assert forall k :: 0 <= k < i ==> l'[..i + 1][k] == list[..i][k];
    forall k | 0 <= k < |l'| ensures SafeStmt(l'[k], env, invld) {
      assert i <= k < i + |repl| ==> l'[k] == repl[k - i];
      assert i + |repl| <= k ==> l'[k] == list[k - |repl| + 1];
    }
  }

  lemma NopStep(root: seq<Stmt>, i: nat, r: seq<Stmt>)
    requires i < |root|
    ensures r + WithoutNops(root[i..]) == (if root[i].Nop? then r else r + [root[i]]) + WithoutNops(root[i + 1..])
  {
    hide Size, NopFree;
    assert root[i..][1..] == root[i + 1..];
    if !root[i].Nop? {
      assert r + ([root[i]] + WithoutNops(root[i + 1..])) == (r + [root[i]]) + WithoutNops(root[i + 1..]);
    }
  }

  /** A single statement that takes the place of another. */
  ghost predicate Replaces(s: Stmt, s': Stmt, env: Env, invld: bool)
    requires Setting(env)
  {
    Alike(s, s', env, invld) && SafeStmt(s', env, invld) && DiscardFree(s') && SizeOf(s') <= SizeOf(s)
  }

  lemma OneReplaced(s: Stmt, s': Stmt, env: Env, invld: bool)
    requires Setting(env) && Replaces(s, s', env, invld)
    ensures Refines([s], [s'], env, invld) && Size([s']) <= SizeOf(s)
    ensures SafeScript([s'], env, invld) && AllReady([s'], env, invld) && AllDiscardFree([s'])
  {
    hide Alike, Exec, Ready, Refines, Setting;
    AlikeRefines(s, s', env, invld);
    assert [s'][1..] == [];
  }

  lemma PropFilterReplaced(test: nat, t: seq<Stmt>, t': seq<Stmt>, env: Env, invld: bool)
    requires Setting(env) && Refines(t, t', env, invld) && SafeScript(t', env, invld) && AllDiscardFree(t') && Size(t') <= Size(t)
    ensures Replaces(PropFilt(test, t), PropFilt(test, t'), env, invld)
  {
    hide Alike, Exec, Refines, Setting, SafeScript;
    PropFilterAlike(test, t, t', env, invld);
  }

  lemma ForeachReplaced(iter: string, coll: Expr, body: seq<Stmt>, body': seq<Stmt>, env: Env, invld: bool)
    requires Setting(env) && SafeValue(coll, env.lib, invld) && Refines(body, body', env, invld)
    requires SafeScript(body', env, invld) && AllDiscardFree(body') && Size(body') <= Size(body)
    ensures Replaces(Foreach(iter, coll, body), Foreach(iter, Optimize(coll, env.lib), body'), env, invld)
  {
    hide Alike, Exec, Refines, SafeScript, SafeValue, SafeTruth, Optimize;
    ForeachAlike(iter, coll, body, body', env, invld);
    StaysSafe(coll, env, invld);
  }

  lemma StaysSafe(e: Expr, env: Env, invld: bool)
    requires Setting(env) && SafeValue(e, env.lib, invld)
    ensures SafeValue(Optimize(e, env.lib), env.lib, invld)
  {
    hide SafeValue, Optimize;
    SafeStaysSafe(e, env.lib, invld);
  }

  lemma SetReplaced(name: string, e: Expr, env: Env, invld: bool)
    requires Setting(env) && SafeValue(e, env.lib, invld)
    ensures Replaces(Set(name, e), Set(name, Optimize(e, env.lib)), env, invld)
    ensures Replaces(CallIndirect(e), CallIndirect(Optimize(e, env.lib)), env, invld)
  {
    hide Alike, SafeValue, SafeTruth, Optimize;
    SetAlike(name, e, env, invld);
    StaysSafe(e, env, invld);
  }

  /** What becomes of a statement without parts or expressions. */
  function Plain(s: Stmt, env: Env): Stmt {
    if s.Act? && s.discard then Stop else if s.CallRuleset? && s.ruleset !in env.rulesets then Nop else s
  }

  lemma PlainReplaced(s: Stmt, env: Env, invld: bool)
    requires Setting(env) && !s.If? && !s.PriFilt? && !s.PropFilt? && !s.Foreach? && !s.Set? && !s.CallIndirect?
    ensures Replaces(s, Plain(s, env), env, invld)
  {
  }

  // ----- the optimizer -----

  method RemoveNops(root: seq<Stmt>) returns (r: seq<Stmt>)
    ensures r == WithoutNops(root)
  {
    hide Size, NopFree;
    r := [];
    assert root[0..] == root;
    var i := 0;
    while i < |root|
      invariant 0 <= i <= |root|
      invariant r + WithoutNops(root[i..]) == WithoutNops(root)
    {
      NopStep(root, i, r);
      if !root[i].Nop? {
        r := r + [root[i]];
      }
      i := i + 1;
    }
  }

  /** cnfstmtOptimizePRIFilt: a filter that lets everything pass gives way to its then part. */
  method OptimizePRIFilt(mask: Mask, t: seq<Stmt>, e: seq<Stmt>, env: Env, ghost invld: bool) returns (repl: seq<Stmt>)
    requires Setting(env) && SafeScript(t, env, invld) && AllReady(e, env, invld) && AllDiscardFree(e)
    ensures repl != [] && Size(repl) <= SizeOf(PriFilt(mask, t, e))
    ensures Refines([PriFilt(mask, t, e)], repl, env, invld)
    ensures SafeScript(repl, env, invld) && AllReady(repl, env, invld) && AllDiscardFree(repl)
    decreases SizeOf(PriFilt(mask, t, e)), 0
  {
    hide Exec, Refines, Alike, SafeTruth, SafeValue, Setting, Ready;
    var t' := OptimizeList(t, env, invld);
    if !IsAlways(mask) {
      repl := [PriFilt(mask, t', e)];
      AllReadyRuns(e, env, invld);
      FilterAlike(mask, t, e, t', env, invld);
      AlikeRefines(PriFilt(mask, t, e), PriFilt(mask, t', e), env, invld);
      assert repl[1..] == [];
    } else if t' == [] {
      repl := [Nop];
      AlwaysIsThen(mask, t, e, t', env, invld);
      NopIsEmpty(env, invld);
      RefinesTrans([PriFilt(mask, t, e)], [], repl, env, invld);
    } else {
      repl := t';
      AlwaysIsThen(mask, t, e, t', env, invld);
    }
  }

  /** cnfstmtOptimizeIf: empty IFs vanish, PRI tests become PRI filters. */
  method OptimizeIf(c: Expr, t: seq<Stmt>, e: seq<Stmt>, env: Env, ghost invld: bool) returns (repl: seq<Stmt>)
    requires Setting(env) && SafeStmt(If(c, t, e), env, invld)
    ensures repl != [] && Size(repl) <= SizeOf(If(c, t, e))
    ensures Refines([If(c, t, e)], repl, env, invld)
    ensures SafeScript(repl, env, invld) && AllReady(repl, env, invld) && AllDiscardFree(repl)
    decreases SizeOf(If(c, t, e)), 1
  {
    hide Exec, Refines, Alike, SafeTruth, SafeValue, Optimize, Ready;
    var c' := Optimize(c, env.lib);
    var t' := OptimizeList(t, env, invld);
    var e' := OptimizeList(e, env, invld);
    IfAlike(c, t, e, t', e', env, invld);
    AlikeRefines(If(c, t, e), If(c', t', e'), env, invld);
    SafeStaysSafe(c, env.lib, invld);
    assert [If(c', t', e')][1..] == [];
    if t' == [] && e' == [] {
      repl := [Nop];
      EmptyIf(c', env, invld);
      RefinesTrans([If(c, t, e)], [If(c', [], [])], repl, env, invld);
    } else if c'.Prifilt? {
      AllReadyRuns(t', env, invld);
      AllReadyRuns(e', env, invld);
      IfIsFilter(c'.mask, t', e', env, invld);
      AlikeRefines(If(c', t', e'), PriFilt(c'.mask, t', e'), env, invld);
      repl := OptimizePRIFilt(c'.mask, t', e', env, invld);
      RefinesTrans([If(c', t', e')], [PriFilt(c'.mask, t', e')], repl, env, invld);
      RefinesTrans([If(c, t, e)], [If(c', t', e')], repl, env, invld);
    } else {
      repl := [If(c', t', e')];
    }
  }

  /** The cases of cnfstmtOptimize. */
  method OptimizeStmt(s: Stmt, env: Env, ghost invld: bool) returns (repl: seq<Stmt>)
    requires Setting(env) && SafeStmt(s, env, invld)
    ensures repl != [] && Size(repl) <= SizeOf(s)
    ensures Refines([s], repl, env, invld)
    ensures SafeScript(repl, env, invld) && AllReady(repl, env, invld) && AllDiscardFree(repl)
    decreases SizeOf(s), 2
  {
    hide Exec, Refines, SafeScript, SafeValue, AllReady, AllDiscardFree, Setting, Optimize, Replaces;
    match s {
      case If(c, t, e) =>
        repl := OptimizeIf(c, t, e, env, invld);
        return;
      case PriFilt(mask, t, e) =>
        repl := OptimizePRIFilt(mask, t, e, env, invld);
        return;
      case PropFilt(test, t) =>
        var t' := OptimizeList(t, env, invld);
        PropFilterReplaced(test, t, t', env, invld);
        repl := [PropFilt(test, t')];
      case Foreach(iter, coll, body) =>
        var body' := OptimizeList(body, env, invld);
        ForeachReplaced(iter, coll, body, body', env, invld);
        repl := [Foreach(iter, Optimize(coll, env.lib), body')];
      case Set(name, e) =>
        SetReplaced(name, e, env, invld);
        repl := [Set(name, Optimize(e, env.lib))];
      case CallIndirect(e) =>
        SetReplaced("", e, env, invld);
        repl := [CallIndirect(Optimize(e, env.lib))];
      case Act(id, discard) =>
        PlainReplaced(s, env, invld);
        repl := [if discard then Stop else s];
      case CallRuleset(name) =>
        PlainReplaced(s, env, invld);
        repl := [if name in env.rulesets then s else Nop];
      case _ =>
        PlainReplaced(s, env, invld);
        repl := [s];
    }
    OneReplaced(s, repl[0], env, invld);
  }

  /** cnfstmtOptimize: walk the list, putting replacements in place; what a replacement adds
      after its first statement is visited again. Then drop the NOPs. */
  method OptimizeList(root: seq<Stmt>, env: Env, ghost invld: bool) returns (r: seq<Stmt>)
    requires Setting(env) && SafeScript(root, env, invld)
    ensures Refines(root, r, env, invld)
    ensures NopFree(r) && Size(r) <= Size(root)
    ensures SafeScript(r, env, invld) && AllReady(r, env, invld) && AllDiscardFree(r)
    decreases Size(root), 3
  {
    hide SameMeaning, SafeScript, AllReady, Refines, Size, Exec, NopFree, Setting, AllDiscardFree;
    var list, i := root, 0;
    Start(root, env, invld);
    while i < |list|
      invariant 0 <= i <= |list|
      invariant SafeScript(list, env, invld) && AllReady(list[..i], env, invld) && AllDiscardFree(list[..i])
      invariant SameMeaning(root, list, env, invld)
      invariant Size(list) <= Size(root) && Size(list[i..]) <= Size(root)
      decreases Size(list[i..])
    {
      SizeSplit(list, i);
      SafeAt(list, i, env, invld);
      var repl := OptimizeStmt(list[i], env, invld);
      Splice(root, list, i, repl, env, invld);
      list, i := list[..i] + repl + list[i + 1..], i + 1;
    }
    assert list[..i] == list;
    r := RemoveNops(list);
    SafeWithoutNops(list, env, invld);
    FreeWithoutNops(list);
    SameMeaningTrans(root, list, r, env, invld);
  }
}

/** Scripts and their execution (scriptExec and the exec functions of ruleset.c). */
module Script {
  import opened PriMask
  import opened Expr

  datatype Stmt =
    | Nop
    | Stop
    | Act(id: nat, discard: bool)
    | Set(name: string, expr: Expr)
    | Unset(name: string)
    | If(cond: Expr, thn: seq<Stmt>, els: seq<Stmt>)
    | PriFilt(mask: Mask, pthn: seq<Stmt>, pels: seq<Stmt>)
    | PropFilt(test: nat, fthn: seq<Stmt>)
    | Foreach(iter: string, coll: Expr, body: seq<Stmt>)
    | CallRuleset(ruleset: string)
    | CallIndirect(target: Expr)
    | Reload(table: nat)

  /** No discard action, at any depth. */
  predicate DiscardFree(s: Stmt)
    decreases s, 0
  {
    match s
    case Act(_, discard) => !discard
    case If(_, t, e) => AllDiscardFree(t) && AllDiscardFree(e)
    case PriFilt(_, t, e) => AllDiscardFree(t) && AllDiscardFree(e)
    case PropFilt(_, t) => AllDiscardFree(t)
    case Foreach(_, _, body) => AllDiscardFree(body)
    case _ => true
  }

  predicate AllDiscardFree(stmts: seq<Stmt>)
    decreases stmts, 0
  {
    forall i :: 0 <= i < |stmts| ==> DiscardFree(stmts[i])
  }

  /** RS_RET_DISCARDMSG, the code that ends processing of a message. */
  const DISCARDMSG: int := -2002

  datatype Outcome = Ok | Halt(code: int)

  datatype Event = Ran(action: nat, discard: bool, msg: Message) | Did(what: string, msg: Message)

  datatype Run = Run(m: Message, trace: seq<Event>, out: Outcome)

  /** What a script calls on: property filter tests, the items of a collection value, the
      rulesets that exist, and the runs of called rulesets and table reloads. */
  datatype Env = Env(
    lib: Library,
    propTest: (nat, Message) -> bool,
    items: Value -> seq<Value>,
    rulesets: set<string>,
    called: (string, Message) -> Run,
    indirect: (string, Message) -> Run,
    reload: (nat, Message) -> Run)

  predicate SamePri(a: Message, b: Message) { a.facility == b.facility && a.severity == b.severity }

  ghost predicate ValidEnv(env: Env) {
    && (forall n, m {:trigger env.called(n, m)} :: SamePri(env.called(n, m).m, m))
    && (forall n, m {:trigger env.indirect(n, m)} :: SamePri(env.indirect(n, m).m, m))
    && (forall n, m {:trigger env.reload(n, m)} :: SamePri(env.reload(n, m).m, m))
  }

  /** How a script is run: the way arrays are searched, and whether the return code of the
      discard action ends the script. execAct does not look at that code. */
  datatype Mode = Mode(how: Lookup, discardStops: bool)

  function Then(a: Run, b: Run): Run { Run(b.m, a.trace + b.trace, b.out) }

  function Skip(m: Message): Run { Run(m, [], Ok) }

  function ExecStmt(s: Stmt, m: Message, env: Env, mode: Mode): (r: Run)
    requires ValidMessage(m) && ValidEnv(env)
    ensures SamePri(r.m, m)
    decreases s, 0
  {
    match s
    case Nop => Skip(m)
    case Stop => Run(m, [], Halt(DISCARDMSG))
    case Act(id, discard) =>
      if discard && mode.discardStops then Run(m, [], Halt(DISCARDMSG)) else Run(m, [Ran(id, discard, m)], Ok)
    case Set(name, e) => Skip(m.(props := m.props[name := Eval(e, m, env.lib, mode.how)]))
    case Unset(name) => Skip(m.(props := m.props - {name}))
    case If(c, t, e) =>
      if Truth(Eval(c, m, env.lib, mode.how)) then Exec(t, m, env, mode) else Exec(e, m, env, mode)
    case PriFilt(mask, t, e) =>
      if Matches(mask, m.facility, m.severity) then Exec(t, m, env, mode) else Exec(e, m, env, mode)
    case PropFilt(test, t) => if env.propTest(test, m) then Exec(t, m, env, mode) else Skip(m)
    case Foreach(iter, coll, body) =>
      var items := env.items(Eval(coll, m, env.lib, mode.how));
      if items == [] then Skip(m)
      else
        var r := ExecEach(body, iter, items, m, env, mode);
        if r.out.Halt? then r else r.(m := r.m.(props := r.m.props - {iter}))
    case CallRuleset(name) => if name in env.rulesets then env.called(name, m) else Skip(m)
    case CallIndirect(e) => env.indirect(ToText(Eval(e, m, env.lib, mode.how)), m)
    case Reload(table) => env.reload(table, m)
  }

  /** scriptExec: in order, until a statement does not return OK. */
  function Exec(stmts: seq<Stmt>, m: Message, env: Env, mode: Mode): (r: Run)
    requires ValidMessage(m) && ValidEnv(env)
    ensures SamePri(r.m, m)
    decreases stmts, 0
  {
    if stmts == [] then Skip(m)
    else
      var r := ExecStmt(stmts[0], m, env, mode);
      if r.out.Halt? then r else Then(r, Exec(stmts[1..], r.m, env, mode))
  }

  function ExecEach(body: seq<Stmt>, iter: string, items: seq<Value>, m: Message, env: Env, mode: Mode): (r: Run)
    requires ValidMessage(m) && ValidEnv(env)
    ensures SamePri(r.m, m)
    decreases body, 1, |items|
  {
    if items == [] then Skip(m)
    else
      var r := Exec(body, m.(props := m.props[iter := items[0]]), env, mode);
      if r.out.Halt? then r else Then(r, ExecEach(body, iter, items[1..], r.m, env, mode))
  }

  /** A run of two lists in a row. */
  function Continue(r: Run, stmts: seq<Stmt>, env: Env, mode: Mode): Run
    requires ValidMessage(r.m) && ValidEnv(env)
  {
    if r.out.Halt? then r else Then(r, Exec(stmts, r.m, env, mode))
  }

  lemma {:induction false} ExecConcat(a: seq<Stmt>, b: seq<Stmt>, m: Message, env: Env, mode: Mode)
    requires ValidMessage(m) && ValidEnv(env)
    ensures Exec(a + b, m, env, mode) == Continue(Exec(a, m, env, mode), b, env, mode)
  {
    if a == [] {
      assert a + b == b;
      assert [] + Exec(b, m, env, mode).trace == Exec(b, m, env, mode).trace;
    } else {
      var r := ExecStmt(a[0], m, env, mode);
      assert (a + b)[1..] == a[1..] + b;
      if r.out.Ok? {
        ExecConcat(a[1..], b, r.m, env, mode);
        var rest := Exec(a[1..], r.m, env, mode);
        if rest.out.Ok? {
          var last := Exec(b, rest.m, env, mode).trace;
          assert (r.trace + rest.trace) + last == r.trace + (rest.trace + last);
        }
      }
    }
  }

  lemma ExecOne(s: Stmt, m: Message, env: Env, mode: Mode)
    requires ValidMessage(m) && ValidEnv(env)
    ensures Exec([s], m, env, mode) == ExecStmt(s, m, env, mode)
  {
    var r := ExecStmt(s, m, env, mode);
    assert [s][1..] == [];
    assert r.trace + [] == r.trace;
  }
}

/** The two evaluators side by side. A tree of src/autowitgen/syntax.py is a
    tree of src/machine/machine.py without literals; a machine environment
    is a `Context` map whose every variable holds an element. On such
    inputs, whatever `SimpleAbstractMachine` evaluates without error, the
    `Context` evaluator evaluates to the same value and the same variables. */
module Agreement {

  import opened Wrappers
  import S = Syntax
  import M = MachineSyntax
  import Machine
  import Eval

  function EmbedOp(op: S.BinOperator): M.BinOperator {
    match op
    case Add => M.Add
    case Sub => M.Sub
    case Mul => M.Mul
  }

  /** The same tree, read as a machine expression. */
  function Embed(e: S.Expr): (r: M.Expr)
    ensures !M.HasNum(r) && M.FreeVars(r) == S.FreeVars(e)
  {
    match e
    case BinOp(op, l, r) => M.BinOp(EmbedOp(op), Embed(l), Embed(r))
    case UnOp(Neg, x) => M.UnOp(M.Neg, Embed(x))
    case Var(name) => M.Var(name)
  }

  function EmbedStmt(s: S.Stmt): M.Stmt
    decreases s
  {
    match s
    case ExprStmt(e) => M.ExprStmt(Embed(e))
    case Assignment(name, value) => M.Assignment(name, Embed(value))
    case Assertion(e) => M.Assertion(Embed(e))
    case IfElse(c, ifBody, elseBody) => M.IfElse(Embed(c), EmbedBlock(ifBody), EmbedBlock(elseBody))
  }

  function EmbedBlock(block: S.Block): (r: M.Block)
    ensures |r| == |block|
    decreases block
  {
    if block == [] then [] else [EmbedStmt(block[0])] + EmbedBlock(block[1..])
  }

  /** A machine environment as a `Context` map: every variable holds a value. */
  function Lift(env: Machine.Env): (vars: Eval.Vars)
    ensures vars.Keys == env.Keys
    ensures forall x :: x in env ==> Eval.Defined(vars, x) && vars[x] == Some(env[x])
  {
    map x | x in env :: Some(env[x])
  }

  lemma LiftUpdate(env: Machine.Env, name: string, v: int)
    ensures Lift(env[name := v]) == Lift(env)[name := Some(v)]
  {
    assert Lift(env[name := v]).Keys == Lift(env)[name := Some(v)].Keys;
  }

  /** The machine evaluates an expression exactly when the `Context`
      evaluator yields an element, and then both yield the same one. */
  lemma {:induction false} ExprAgreement(e: S.Expr, env: Machine.Env)
    ensures Machine.EvaluateExpression(Embed(e), env).Ok? <==>
      Eval.EvaluateExpr(e, Lift(env)).Ok? && Eval.EvaluateExpr(e, Lift(env)).value.Some?
    ensures Machine.EvaluateExpression(Embed(e), env).Ok? ==>
      Eval.EvaluateExpr(e, Lift(env)) == Ok(Some(Machine.EvaluateExpression(Embed(e), env).value))
  {
    match e
    case BinOp(op, l, r) =>
      ExprAgreement(l, env);
      ExprAgreement(r, env);
    case UnOp(Neg, x) =>
      ExprAgreement(x, env);
    case Var(name) =>
  }

  /** A statement the machine runs without error runs without error in a
      `Context` too, leaving the same variables. */
  lemma {:induction false} StmtAgreement(s: S.Stmt, env: Machine.Env)
    ensures Machine.Exec(EmbedStmt(s), env).error.None? ==>
      Eval.ExecStmt(s, Lift(env)) == Eval.Outcome(Lift(Machine.Exec(EmbedStmt(s), env).env), None)
    decreases s
  {
    match s
    case ExprStmt(e) => ExprAgreement(e, env);
    case Assertion(e) => ExprAgreement(e, env);
    case Assignment(name, value) =>
      ExprAgreement(value, env);
      var m := Machine.EvaluateExpression(Embed(value), env);
      if m.Ok? {
        LiftUpdate(env, name, m.value);
      }
    case IfElse(c, ifBody, elseBody) =>
      ExprAgreement(c, env);
      BlockAgreement(ifBody, env);
      BlockAgreement(elseBody, env);
  }

  lemma {:induction false} BlockAgreement(block: S.Block, env: Machine.Env)
    ensures Machine.ExecBlock(EmbedBlock(block), env).error.None? ==>
      Eval.ExecBlock(block, Lift(env)) == Eval.Outcome(Lift(Machine.ExecBlock(EmbedBlock(block), env).env), None)
    decreases block
  {
    if block != [] {
      var embedded := EmbedBlock(block);
      assert embedded[0] == EmbedStmt(block[0]) && embedded[1..] == EmbedBlock(block[1..]);
      StmtAgreement(block[0], env);
      var o := Machine.Exec(embedded[0], env);
      if o.error.None? {
        BlockAgreement(block[1..], o.env);
      }
    }
  }
}

/** The evaluator of src/autowitgen/eval.py: a `Context` holding a mutable
    variable map, a read-only expression evaluator, and statement and block
    evaluation that update the context. Unlike `SimpleAbstractMachine`, an
    unbound variable reads as Python's `None` instead of raising; arithmetic
    on `None` raises `TypeError` inside the field library. */
module Eval {

  import opened Wrappers
  import Field
  import opened Syntax

  /** A stored value: a field element, or `None`. */
  type Value = Option<int>

  type Vars = map<string, Value>

  /** A variable that holds a field element. */
  predicate Defined(vars: Vars, name: string) {
    name in vars && vars[name].Some?
  }

  predicate FieldVars(vars: Vars) {
    forall x :: x in vars && vars[x].Some? ==> Field.IsElement(vars[x].value)
  }

  /** The exceptions raised while evaluating. */
  datatype EvalError =
    | TypeError        // arithmetic on `None`
    | AttributeError   // `block.statements`: a `Block` has only `stmts`

  /** The variables after running a statement or block, and the exception
      that stopped it, if any. */
  datatype Outcome = Outcome(vars: Vars, error: Option<EvalError>)

  class Context {

    var variables: Vars

    constructor ()
      ensures variables == map[]
    {
      variables := map[];
    }

    /** `assign_variable`: bind the name, whatever was bound before. */
    method AssignVariable(name: string, value: Value)
      modifies this
      ensures variables == old(variables)[name := value]
      ensures GetVariable(name) == value
      ensures forall n :: n != name ==> GetVariable(n) == old(GetVariable(n))
    {
      variables := variables[name := value];
    }

    /** `get_variable`: the bound value, or `None` for an unbound name. */
    function GetVariable(name: string): (r: Value)
      reads this
      ensures name in variables ==> r == variables[name]
      ensures name !in variables ==> r.None?
    {
      if name in variables then variables[name] else None
    }
  }

  function Apply(op: BinOperator, a: int, b: int): (r: int)
    ensures Field.IsElement(r)
  {
    match op
    case Add => Field.Add(a, b)
    case Sub => Field.Sub(a, b)
    case Mul => Field.Mul(a, b)
  }

  /** `evaluate_expr`: it only reads the variables. The result is a field
      element exactly when every variable read holds one, `None` exactly for
      a variable that holds none, and a `TypeError` otherwise. */
  function EvaluateExpr(e: Expr, vars: Vars): (r: Result<Value, EvalError>)
    ensures r.Ok? && r.value.Some? <==> forall x :: x in FreeVars(e) ==> Defined(vars, x)
    ensures r == Ok(None) <==> e.Var? && !Defined(vars, e.name)
    ensures r.Err? ==> r.error == TypeError
    ensures r.Ok? && r.value.Some? && FieldVars(vars) ==> Field.IsElement(r.value.value)
  {
    match e
    case BinOp(op, l, r) =>
      var left :- EvaluateExpr(l, vars);
      var right :- EvaluateExpr(r, vars);
      if left.None? || right.None? then Err(TypeError)
      else Ok(Some(Apply(op, left.value, right.value)))
    case UnOp(Neg, x) =>
      var operand :- EvaluateExpr(x, vars);
      if operand.None? then Err(TypeError) else Ok(Some(Field.Neg(operand.value)))
    case Var(name) =>
      assert FreeVars(e) == {name};
      assert Defined(vars, name) <==> forall x :: x in FreeVars(e) ==> Defined(vars, x);
      Ok(if name in vars then vars[name] else None)
  }

  /** Python truthiness of a value: `None` and the zero element are false. */
  predicate Truthy(v: Value) {
    v.Some? && v.value != 0
  }

  /** `evaluate_statement`: it never removes a variable, and the only
      exception it raises is a `TypeError`. */
  function ExecStmt(s: Stmt, vars: Vars): (o: Outcome)
    ensures vars.Keys <= o.vars.Keys
    ensures o.error.Some? ==> o.error == Some(TypeError)
    decreases s
  {
    match s
    case Assignment(name, value) =>
      (match EvaluateExpr(value, vars)
       case Ok(v) => Outcome(vars[name := v], None)
       case Err(err) => Outcome(vars, Some(err)))
    case Assertion(expression) =>
      (match EvaluateExpr(expression, vars)
       case Ok(_) => Outcome(vars, None)
       case Err(err) => Outcome(vars, Some(err)))
    case IfElse(condition, ifBody, elseBody) =>
      (match EvaluateExpr(condition, vars)
       case Err(err) => Outcome(vars, Some(err))
       case Ok(c) => if Truthy(c) then ExecBlock(ifBody, vars) else ExecBlock(elseBody, vars))
    case ExprStmt(expr) =>
      (match EvaluateExpr(expr, vars)
       case Ok(_) => Outcome(vars, None)
       case Err(err) => Outcome(vars, Some(err)))
  }

  /** `evaluate_block` with the field read by its declared name, `stmts`:
      the statements in list order, stopping at the first exception. */
  function ExecBlock(block: Block, vars: Vars): (o: Outcome)
    ensures vars.Keys <= o.vars.Keys
    ensures o.error.Some? ==> o.error == Some(TypeError)
    decreases block
  {
    if block == [] then Outcome(vars, None)
    else
      var o := ExecStmt(block[0], vars);
      if o.error.Some? then o else ExecBlock(block[1..], o.vars)
  }

  /** `evaluate_block` as written: it reads `block.statements`, which a
      `Block` does not have, so it raises before running anything. */
  function ExecBlockAsWritten(block: Block, vars: Vars): Outcome {
    Outcome(vars, Some(AttributeError))
  }

  /** `evaluate_statement` as written: an assignment stores the value, an
      assertion and a bare expression only evaluate, and an `IfElse`
      evaluates its condition and then calls `evaluate_block` as written on
      the body it picks. An `AttributeError` can only come from an `IfElse`
      whose condition evaluated. */
  function ExecStmtAsWritten(s: Stmt, vars: Vars): (o: Outcome)
    ensures vars.Keys <= o.vars.Keys
    ensures o.error == Some(AttributeError) ==> s.IfElse? && EvaluateExpr(s.condition, vars).Ok?
  {
    match s
    case Assignment(name, value) =>
      (match EvaluateExpr(value, vars)
       case Ok(v) => Outcome(vars[name := v], None)
       case Err(err) => Outcome(vars, Some(err)))
    case Assertion(expression) =>
      (match EvaluateExpr(expression, vars)
       case Ok(_) => Outcome(vars, None)
       case Err(err) => Outcome(vars, Some(err)))
    case IfElse(condition, ifBody, elseBody) =>
      (match EvaluateExpr(condition, vars)
       case Err(err) => Outcome(vars, Some(err))
       case Ok(c) => if Truthy(c) then ExecBlockAsWritten(ifBody, vars) else ExecBlockAsWritten(elseBody, vars))
    case ExprStmt(expr) =>
      (match EvaluateExpr(expr, vars)
       case Ok(_) => Outcome(vars, None)
       case Err(err) => Outcome(vars, Some(err)))
  }

  /** `evaluate_statement`, updating the context in place. */
  method EvaluateStatement(s: Stmt, context: Context) returns (error: Option<EvalError>)
    modifies context
    ensures ExecStmt(s, old(context.variables)) == Outcome(context.variables, error)
    decreases s
  {
    match s {
      case Assignment(name, value) =>
        var v := EvaluateExpr(value, context.variables);
        if v.Err? {
          return Some(v.error);
        }
        context.AssignVariable(name, v.value);
        error := None;
      case Assertion(expression) =>
        var result := EvaluateExpr(expression, context.variables);
        error := if result.Err? then Some(result.error) else None;
      case IfElse(condition, ifBody, elseBody) =>
        var c := EvaluateExpr(condition, context.variables);
        if c.Err? {
          return Some(c.error);
        }
        if Truthy(c.value) {
          error := EvaluateBlock(ifBody, context);
        } else {
          error := EvaluateBlock(elseBody, context);
        }
      case ExprStmt(expr) =>
        var result := EvaluateExpr(expr, context.variables);
        error := if result.Err? then Some(result.error) else None;
    }
  }

  /** `evaluate_block`: a loop over `stmts`. */
  method EvaluateBlock(block: Block, context: Context) returns (error: Option<EvalError>)
    modifies context
    ensures ExecBlock(block, old(context.variables)) == Outcome(context.variables, error)
    decreases block
  {
    for i := 0 to |block|
      invariant ExecBlock(block, old(context.variables)) == ExecBlock(block[i..], context.variables)
    {
      assert block[i..][1..] == block[i + 1..];
      error := EvaluateStatement(block[i], context);
      if error.Some? {
        return;
      }
    }
    error := None;
  }

  /** Reading a variable through the evaluator is `get_variable`. */
  lemma EvaluateVarReadsContext(name: string, context: Context)
    ensures EvaluateExpr(Var(name), context.variables) == Ok(context.GetVariable(name))
    ensures name !in context.variables ==> EvaluateExpr(Var(name), context.variables) == Ok(None)
  {
  }

  /** A binary operation evaluates the left operand first, then the right;
      `None` on either side is a `TypeError`; otherwise the field operation. */
  lemma EvaluateBinOp(op: BinOperator, l: Expr, r: Expr, vars: Vars)
    ensures EvaluateExpr(l, vars).Err? ==> EvaluateExpr(BinOp(op, l, r), vars) == EvaluateExpr(l, vars)
    ensures EvaluateExpr(l, vars).Ok? && EvaluateExpr(r, vars).Err? ==>
      EvaluateExpr(BinOp(op, l, r), vars) == EvaluateExpr(r, vars)
    ensures EvaluateExpr(l, vars) == Ok(None) && EvaluateExpr(r, vars).Ok? ==>
      EvaluateExpr(BinOp(op, l, r), vars) == Err(TypeError)
    ensures EvaluateExpr(l, vars).Ok? && EvaluateExpr(r, vars) == Ok(None) ==>
      EvaluateExpr(BinOp(op, l, r), vars) == Err(TypeError)
    ensures EvaluateExpr(l, vars).Ok? && EvaluateExpr(l, vars).value.Some? &&
            EvaluateExpr(r, vars).Ok? && EvaluateExpr(r, vars).value.Some? ==>
      var a, b := EvaluateExpr(l, vars).value.value, EvaluateExpr(r, vars).value.value;
      EvaluateExpr(BinOp(op, l, r), vars) == Ok(Some(
        match op
        case Add => (a + b) % Field.P
        case Sub => (a - b) % Field.P
        case Mul => (a * b) % Field.P))
  {
    var left, right := EvaluateExpr(l, vars), EvaluateExpr(r, vars);
    if left.Ok? && right.Ok? {
      if left.value.Some? && right.value.Some? {
        assert EvaluateExpr(BinOp(op, l, r), vars) == Ok(Some(Apply(op, left.value.value, right.value.value)));
      }
    }
  }

  /** `Neg` is the field negation of an element: operand plus result is zero
      modulo `P`. An operand that reads as `None` makes it a `TypeError`, and
      an error in the operand is passed on. */
  lemma EvaluateNeg(x: Expr, vars: Vars)
    ensures EvaluateExpr(x, vars).Err? ==> EvaluateExpr(UnOp(Neg, x), vars) == EvaluateExpr(x, vars)
    ensures EvaluateExpr(x, vars) == Ok(None) ==> EvaluateExpr(UnOp(Neg, x), vars) == Err(TypeError)
    ensures EvaluateExpr(x, vars).Ok? && EvaluateExpr(x, vars).value.Some? ==>
      var r := EvaluateExpr(UnOp(Neg, x), vars);
      r.Ok? && r.value.Some? && (EvaluateExpr(x, vars).value.value + r.value.value) % Field.P == 0
  {
  }

  /** Negating twice gives back the operand, whenever the operand is a field
      element; an operand that reads as `None` makes it a `TypeError`. */
  lemma DoubleNegation(x: Expr, vars: Vars)
    requires FieldVars(vars)
    ensures EvaluateExpr(x, vars).Ok? && EvaluateExpr(x, vars).value.Some? ==>
      EvaluateExpr(UnOp(Neg, UnOp(Neg, x)), vars) == EvaluateExpr(x, vars)
    ensures EvaluateExpr(x, vars) == Ok(None) ==>
      EvaluateExpr(UnOp(Neg, UnOp(Neg, x)), vars) == Err(TypeError)
  {
    var v := EvaluateExpr(x, vars);
    if v.Ok? && v.value.Some? {
      Field.NegNeg(v.value.value);
    }
  }

  /** An assignment binds its target to the value, even when the value is
      `None` (copying an unbound variable); a failing value changes nothing. */
  lemma AssignmentStoresValue(name: string, value: Expr, vars: Vars)
    ensures EvaluateExpr(value, vars).Ok? ==>
      ExecStmt(Assignment(name, value), vars) == Outcome(vars[name := EvaluateExpr(value, vars).value], None)
    ensures EvaluateExpr(value, vars).Err? ==>
      ExecStmt(Assignment(name, value), vars) == Outcome(vars, Some(TypeError))
    ensures value.Var? && !Defined(vars, value.name) ==>
      ExecStmt(Assignment(name, value), vars) == Outcome(vars[name := None], None)
  {
  }

  /** Assertions and bare expressions only read: the variables are unchanged,
      and they fail only with a `TypeError`, not when the value is zero. */
  lemma EvaluatingStatementsKeepVars(e: Expr, vars: Vars)
    ensures ExecStmt(Assertion(e), vars).vars == vars && ExecStmt(ExprStmt(e), vars).vars == vars
    ensures ExecStmt(Assertion(e), vars).error.None? <==> EvaluateExpr(e, vars).Ok?
    ensures ExecStmt(ExprStmt(e), vars).error.None? <==> EvaluateExpr(e, vars).Ok?
    ensures ExecStmt(Assertion(e), vars).error.Some? ==> ExecStmt(Assertion(e), vars).error == Some(TypeError)
  {
  }

  /** An `IfElse` runs exactly one body: the first when the condition is a
      non-zero element, the second when it is zero or `None`. */
  lemma IfElseRunsOneBody(condition: Expr, ifBody: Block, elseBody: Block, vars: Vars)
    ensures EvaluateExpr(condition, vars).Err? ==>
      ExecStmt(IfElse(condition, ifBody, elseBody), vars) == Outcome(vars, Some(TypeError))
    ensures EvaluateExpr(condition, vars).Ok? && Truthy(EvaluateExpr(condition, vars).value) ==>
      ExecStmt(IfElse(condition, ifBody, elseBody), vars) == ExecBlock(ifBody, vars)
    ensures EvaluateExpr(condition, vars).Ok? && !Truthy(EvaluateExpr(condition, vars).value) ==>
      ExecStmt(IfElse(condition, ifBody, elseBody), vars) == ExecBlock(elseBody, vars)
    ensures EvaluateExpr(condition, vars) == Ok(None) ==>
      ExecStmt(IfElse(condition, ifBody, elseBody), vars) == ExecBlock(elseBody, vars)
  {
  }

  /** Running two blocks one after the other is running their concatenation. */
  lemma {:induction false} ExecBlockAppend(first: Block, second: Block, vars: Vars)
    ensures ExecBlock(first + second, vars) ==
      var o := ExecBlock(first, vars);
      if o.error.Some? then o else ExecBlock(second, o.vars)
    decreases first
  {
    if first == [] {
      assert first + second == second;
    } else {
      assert (first + second)[1..] == first[1..] + second;
      var o := ExecStmt(first[0], vars);
      if o.error.None? {
        ExecBlockAppend(first[1..], second, o.vars);
      }
    }
  }

  /** Statements store only field elements and `None`. */
  lemma {:induction false} ExecKeepsFieldVars(s: Stmt, vars: Vars)
    requires FieldVars(vars)
    ensures FieldVars(ExecStmt(s, vars).vars)
    decreases s
  {
    match s
    case IfElse(condition, ifBody, elseBody) =>
      ExecBlockKeepsFieldVars(ifBody, vars);
      ExecBlockKeepsFieldVars(elseBody, vars);
    case _ =>
  }

  lemma {:induction false} ExecBlockKeepsFieldVars(block: Block, vars: Vars)
    requires FieldVars(vars)
    ensures FieldVars(ExecBlock(block, vars).vars)
    decreases block
  {
    if block != [] {
      ExecKeepsFieldVars(block[0], vars);
      var o := ExecStmt(block[0], vars);
      if o.error.None? {
        ExecBlockKeepsFieldVars(block[1..], o.vars);
      }
    }
  }

  /** As written, every `IfElse` whose condition evaluates fails with an
      `AttributeError` and assigns nothing, while the corrected evaluator runs
      the chosen body; other statements are unaffected. */
  lemma IfElseFailsAsWritten(condition: Expr, ifBody: Block, elseBody: Block, vars: Vars)
    requires EvaluateExpr(condition, vars).Ok?
    ensures ExecStmtAsWritten(IfElse(condition, ifBody, elseBody), vars) == Outcome(vars, Some(AttributeError))
    ensures ExecStmt(IfElse(condition, [], []), vars) == Outcome(vars, None)
  {
  }

  /** The code as written and the corrected evaluator part exactly at an
      `IfElse` whose condition evaluates: there the code as written raises
      `AttributeError`, which the corrected evaluator never raises. */
  lemma AsWrittenDiffersOnlyAtIfElse(s: Stmt, vars: Vars)
    ensures ExecStmtAsWritten(s, vars) == ExecStmt(s, vars) <==>
      !(s.IfElse? && EvaluateExpr(s.condition, vars).Ok?)
  {
    if s.IfElse? && EvaluateExpr(s.condition, vars).Ok? {
      assert ExecStmtAsWritten(s, vars).error == Some(AttributeError);
      assert ExecStmt(s, vars).error != Some(AttributeError);
    }
  }

  /** As written, every block raises `AttributeError` and runs nothing, even
      the empty one; the corrected block never raises it, and the empty block
      does nothing and succeeds. */
  lemma BlockFailsAsWritten(block: Block, vars: Vars)
    ensures ExecBlockAsWritten(block, vars).vars == vars
    ensures ExecBlockAsWritten(block, vars).error != ExecBlock(block, vars).error
    ensures ExecBlock([], vars) == Outcome(vars, None)
  {
  }
}

/** `SimpleAbstractMachine` of src/machine/machine.py:67-163: a recursive
    expression evaluator over a mutable variable map, a statement and block
    executor that updates that map in place, and the `parse`/`execute`
    driver. A Python exception is an `Err` (for expressions) or an outcome
    carrying an error (for statements); the map then holds whatever the
    statements before the failing one wrote. */
module Machine {

  import opened Wrappers
  import opened Text
  import Field
  import opened MachineSyntax
  import opened Parser

  /** `self.variables`: variable name to field value. */
  type Env = map<string, int>

  predicate FieldEnv(env: Env) {
    forall x :: x in env ==> Field.IsElement(env[x])
  }

  /** The `ValueError`s the executor raises. */
  datatype ExecError =
    | UndefinedVariable(name: string)   // a `Var` with no binding
    | UnknownExpression                 // a node without an evaluation case
    | UnknownStatement                  // a statement without an execution case

  /** An error raised while running `execute`. */
  datatype MachineError = ParseFailed(parseError: ParseError) | ExecFailed(execError: ExecError)

  /** The state after running a statement or block, and the error that
      stopped it, if any. */
  datatype Outcome = Outcome(env: Env, error: Option<ExecError>)

  function ApplyBinOp(op: BinOperator, a: int, b: int): (r: int)
    ensures Field.IsElement(r)
  {
    match op
    case Add => Field.Add(a, b)
    case Sub => Field.Sub(a, b)
    case Mul => Field.Mul(a, b)
  }

  /** `evaluate_expression` as written: `BinOp` evaluates `lhs` then `rhs`,
      `UnOp` negates, `Var` looks the name up, and every other node, `Num`
      included, raises "Unknown expression type". */
  function EvaluateExpressionAsWritten(e: Expr, env: Env): (r: Result<int, ExecError>)
    ensures r.Ok? <==> !HasNum(e) && FreeVars(e) <= env.Keys
  {
    match e
    case BinOp(op, l, r) =>
      var lhs :- EvaluateExpressionAsWritten(l, env);
      var rhs :- EvaluateExpressionAsWritten(r, env);
      Ok(ApplyBinOp(op, lhs, rhs))
    case UnOp(Neg, x) =>
      var operand :- EvaluateExpressionAsWritten(x, env);
      Ok(Field.Neg(operand))
    case Var(name) =>
      if name in env then Ok(env[name]) else Err(UndefinedVariable(name))
    case Num(_) =>
      Err(UnknownExpression)
  }

  /** `evaluate_expression` with the missing `Num` case added: a literal
      evaluates to its value. Evaluation succeeds exactly when every variable
      it reads is bound, and only reads the map. */
  function EvaluateExpression(e: Expr, env: Env): (r: Result<int, ExecError>)
    ensures r.Ok? <==> FreeVars(e) <= env.Keys
    ensures r.Err? ==> r.error.UndefinedVariable? && r.error.name in FreeVars(e) && r.error.name !in env
    ensures r.Ok? && FieldEnv(env) ==> Field.IsElement(r.value)
  {
    match e
    case BinOp(op, l, r) =>
      var lhs :- EvaluateExpression(l, env);
      var rhs :- EvaluateExpression(r, env);
      Ok(ApplyBinOp(op, lhs, rhs))
    case UnOp(Neg, x) =>
      var operand :- EvaluateExpression(x, env);
      Ok(Field.Neg(operand))
    case Var(name) =>
      if name in env then Ok(env[name]) else Err(UndefinedVariable(name))
    case Num(value) =>
      Ok(value)
  }

  /** `execute_statement` as written: no case for a bare expression, so a
      `PRINT` statement raises "Unknown statement type"; expressions are
      evaluated as written. */
  function ExecAsWritten(s: Stmt, env: Env): (o: Outcome)
    ensures env.Keys <= o.env.Keys
    ensures o.error.None? ==> !s.ExprStmt?
    decreases s
  {
    match s
    case ExprStmt(_) => Outcome(env, Some(UnknownStatement))
    case Assignment(name, value) =>
      (match EvaluateExpressionAsWritten(value, env)
       case Ok(v) => Outcome(env[name := v], None)
       case Err(err) => Outcome(env, Some(err)))
    case Assertion(expression) =>
      (match EvaluateExpressionAsWritten(expression, env)
       case Ok(_) => Outcome(env, None)
       case Err(err) => Outcome(env, Some(err)))
    case IfElse(condition, ifBody, elseBody) =>
      match EvaluateExpressionAsWritten(condition, env)
      case Err(err) => Outcome(env, Some(err))
      case Ok(c) => if c != 0 then ExecBlockAsWritten(ifBody, env) else ExecBlockAsWritten(elseBody, env)
  }

  function ExecBlockAsWritten(block: Block, env: Env): (o: Outcome)
    ensures env.Keys <= o.env.Keys
    ensures o.error.None? ==> forall i :: 0 <= i < |block| ==> !block[i].ExprStmt?
    decreases block
  {
    if block == [] then Outcome(env, None)
    else
      var o := ExecAsWritten(block[0], env);
      if o.error.Some? then o else ExecBlockAsWritten(block[1..], o.env)
  }

  /** `execute_statement` with the missing bare-expression case added: it is
      evaluated and discarded, as an `Assertion` is. An `Assignment` binds
      the target, an `IfElse` runs one of its bodies. */
  function Exec(s: Stmt, env: Env): (o: Outcome)
    ensures env.Keys <= o.env.Keys
    ensures o.error.Some? ==> o.error.value.UndefinedVariable? && o.error.value.name !in o.env
    decreases s
  {
    match s
    case ExprStmt(expr) =>
      (match EvaluateExpression(expr, env)
       case Ok(_) => Outcome(env, None)
       case Err(err) => Outcome(env, Some(err)))
    case Assignment(name, value) =>
      (match EvaluateExpression(value, env)
       case Ok(v) => Outcome(env[name := v], None)
       case Err(err) => Outcome(env, Some(err)))
    case Assertion(expression) =>
      (match EvaluateExpression(expression, env)
       case Ok(_) => Outcome(env, None)
       case Err(err) => Outcome(env, Some(err)))
    case IfElse(condition, ifBody, elseBody) =>
      match EvaluateExpression(condition, env)
      case Err(err) => Outcome(env, Some(err))
      case Ok(c) => if c != 0 then ExecBlock(ifBody, env) else ExecBlock(elseBody, env)
  }

  /** `execute_block`: the statements left to right, stopping at the first
      one that raises. */
  function ExecBlock(block: Block, env: Env): (o: Outcome)
    ensures env.Keys <= o.env.Keys
    ensures o.error.Some? ==> o.error.value.UndefinedVariable? && o.error.value.name !in o.env
    decreases block
  {
    if block == [] then Outcome(env, None)
    else
      var o := Exec(block[0], env);
      if o.error.Some? then o else ExecBlock(block[1..], o.env)
  }

  /** `BinOp` evaluates `lhs` before `rhs`: an error in `lhs` wins, and when
      both succeed the result is the field sum, difference or product. */
  lemma EvaluateBinOp(op: BinOperator, l: Expr, r: Expr, env: Env)
    ensures EvaluateExpression(l, env).Err? ==>
      EvaluateExpression(BinOp(op, l, r), env) == EvaluateExpression(l, env)
    ensures EvaluateExpression(l, env).Ok? && EvaluateExpression(r, env).Err? ==>
      EvaluateExpression(BinOp(op, l, r), env) == EvaluateExpression(r, env)
    ensures EvaluateExpression(l, env).Ok? && EvaluateExpression(r, env).Ok? ==>
      var a, b := EvaluateExpression(l, env).value, EvaluateExpression(r, env).value;
      EvaluateExpression(BinOp(op, l, r), env) == Ok(match op
        case Add => (a + b) % Field.P
        case Sub => (a - b) % Field.P
        case Mul => (a * b) % Field.P)
  {
    var left, right := EvaluateExpression(l, env), EvaluateExpression(r, env);
    if left.Ok? && right.Ok? {
      assert EvaluateExpression(BinOp(op, l, r), env) == Ok(ApplyBinOp(op, left.value, right.value));
    }
  }

  /** A variable evaluates to its binding, and to "not defined" without one. */
  lemma EvaluateVar(name: string, env: Env)
    ensures name in env ==> EvaluateExpression(Var(name), env) == Ok(env[name])
    ensures name !in env ==> EvaluateExpression(Var(name), env) == Err(UndefinedVariable(name))
  {
  }

  /** `Neg` is the field negation: operand plus result is zero in the field. */
  lemma EvaluateNeg(x: Expr, env: Env)
    ensures EvaluateExpression(UnOp(Neg, x), env).Ok? <==> EvaluateExpression(x, env).Ok?
    ensures EvaluateExpression(x, env).Ok? ==>
      (EvaluateExpression(x, env).value + EvaluateExpression(UnOp(Neg, x), env).value) % Field.P == 0
  {
  }

  /** Negating twice gives the operand back. */
  lemma DoubleNegation(x: Expr, env: Env)
    requires FieldEnv(env)
    ensures EvaluateExpression(UnOp(Neg, UnOp(Neg, x)), env) == EvaluateExpression(x, env)
  {
    var v := EvaluateExpression(x, env);
    if v.Ok? {
      Field.NegNeg(v.value);
    }
  }

  /** Where an expression has no literal, the code as written and the
      corrected evaluator agree. */
  lemma {:induction false} AsWrittenAgreesWithoutNum(e: Expr, env: Env)
    requires !HasNum(e)
    ensures EvaluateExpressionAsWritten(e, env) == EvaluateExpression(e, env)
  {
    match e
    case BinOp(_, l, r) =>
      AsWrittenAgreesWithoutNum(l, env);
      AsWrittenAgreesWithoutNum(r, env);
    case UnOp(_, x) =>
      AsWrittenAgreesWithoutNum(x, env);
    case Var(_) =>
  }

  /** As written, a literal is an unknown expression; corrected, it is its value. */
  lemma NumNotEvaluatedAsWritten(v: Field.Element, env: Env)
    ensures EvaluateExpressionAsWritten(Num(v), env) == Err(UnknownExpression)
    ensures EvaluateExpression(Num(v), env) == Ok(v)
  {
  }

  /** Statements with no literal and no bare expression anywhere. */
  predicate PlainStmt(s: Stmt) {
    match s
    case ExprStmt(_) => false
    case Assignment(_, value) => !HasNum(value)
    case Assertion(expression) => !HasNum(expression)
    case IfElse(condition, ifBody, elseBody) =>
      !HasNum(condition) && PlainBlock(ifBody) && PlainBlock(elseBody)
  }

  predicate PlainBlock(block: Block) {
    forall s :: s in block ==> PlainStmt(s)
  }

  /** On such statements the executor as written and the corrected one agree. */
  lemma {:induction false} ExecAsWrittenAgrees(s: Stmt, env: Env)
    requires PlainStmt(s)
    ensures ExecAsWritten(s, env) == Exec(s, env)
    decreases s
  {
    match s
    case Assignment(_, value) => AsWrittenAgreesWithoutNum(value, env);
    case Assertion(expression) => AsWrittenAgreesWithoutNum(expression, env);
    case IfElse(condition, ifBody, elseBody) =>
      AsWrittenAgreesWithoutNum(condition, env);
      ExecBlockAsWrittenAgrees(ifBody, env);
      ExecBlockAsWrittenAgrees(elseBody, env);
  }

  lemma {:induction false} ExecBlockAsWrittenAgrees(block: Block, env: Env)
    requires PlainBlock(block)
    ensures ExecBlockAsWritten(block, env) == ExecBlock(block, env)
    decreases block
  {
    if block != [] {
      ExecAsWrittenAgrees(block[0], env);
      var o := Exec(block[0], env);
      if o.error.None? {
        assert forall s :: s in block[1..] ==> s in block;
        ExecBlockAsWrittenAgrees(block[1..], o.env);
      }
    }
  }

  /** As written, a bare expression (a `PRINT` line) raises "Unknown
      statement type"; corrected, it is evaluated and the variables kept. */
  lemma PrintRejectedAsWritten(e: Expr, env: Env)
    ensures ExecAsWritten(ExprStmt(e), env) == Outcome(env, Some(UnknownStatement))
    ensures FreeVars(e) <= env.Keys ==> Exec(ExprStmt(e), env) == Outcome(env, None)
  {
  }

  /** `Assignment` binds the target to the value, overwriting any earlier
      binding, and leaves every other name as it was; when the value cannot
      be evaluated, nothing changes. */
  lemma AssignmentBindsTarget(name: string, value: Expr, env: Env)
    ensures EvaluateExpression(value, env).Err? ==>
      Exec(Assignment(name, value), env) == Outcome(env, Some(EvaluateExpression(value, env).error))
    ensures EvaluateExpression(value, env).Ok? ==>
      var o := Exec(Assignment(name, value), env);
      && o.error.None?
      && name in o.env && o.env[name] == EvaluateExpression(value, env).value
      && (forall y :: y != name ==> (y in o.env <==> y in env))
      && (forall y :: y != name && y in env ==> o.env[y] == env[y])
  {
  }

  /** Assigning the same name twice leaves only the second value bound. */
  lemma AssignTwice(name: string, first: Expr, second: Expr, env: Env, v1: int, v2: int)
    requires EvaluateExpression(first, env) == Ok(v1)
    requires EvaluateExpression(second, env[name := v1]) == Ok(v2)
    ensures ExecBlock([Assignment(name, first), Assignment(name, second)], env) == Outcome(env[name := v2], None)
  {
    var b := [Assignment(name, first), Assignment(name, second)];
    assert Exec(b[0], env) == Outcome(env[name := v1], None);
    assert b[1..] == [Assignment(name, second)];
    assert [Assignment(name, second)][1..] == [];
    assert ExecBlock(b[1..], env[name := v1]) == Outcome(env[name := v1][name := v2], None);
    assert env[name := v1][name := v2] == env[name := v2];
  }

  /** `Assertion` and a bare expression evaluate and change nothing; they
      fail exactly when the evaluation does. */
  lemma EvaluatingStatementsKeepEnv(e: Expr, env: Env)
    ensures Exec(Assertion(e), env).env == env && Exec(ExprStmt(e), env).env == env
    ensures Exec(Assertion(e), env).error.None? <==> FreeVars(e) <= env.Keys
    ensures Exec(ExprStmt(e), env).error.None? <==> FreeVars(e) <= env.Keys
  {
  }

  /** `IfElse` runs exactly one body: the first when the condition is
      non-zero, the second when it is zero, and neither when the condition
      cannot be evaluated. The body not taken has no effect. */
  lemma IfElseRunsOneBody(condition: Expr, ifBody: Block, elseBody: Block, other: Block, env: Env)
    ensures EvaluateExpression(condition, env).Err? ==>
      Exec(IfElse(condition, ifBody, elseBody), env) == Outcome(env, Some(EvaluateExpression(condition, env).error))
    ensures EvaluateExpression(condition, env).Ok? && EvaluateExpression(condition, env).value != 0 ==>
      Exec(IfElse(condition, ifBody, elseBody), env) == ExecBlock(ifBody, env) == Exec(IfElse(condition, ifBody, other), env)
    ensures EvaluateExpression(condition, env).Ok? && EvaluateExpression(condition, env).value == 0 ==>
      Exec(IfElse(condition, ifBody, elseBody), env) == ExecBlock(elseBody, env) == Exec(IfElse(condition, other, elseBody), env)
  {
  }

  /** A block is the left-to-right sequence of its statements: running
      `first + second` runs `first`, and `second` only if `first` did not
      fail. The empty block changes nothing. */
  lemma {:induction false} ExecBlockAppend(first: Block, second: Block, env: Env)
    ensures ExecBlock([], env) == Outcome(env, None)
    ensures ExecBlock(first + second, env) ==
      var o := ExecBlock(first, env);
      if o.error.Some? then o else ExecBlock(second, o.env)
    decreases first
  {
    if first != [] {
      assert (first + second)[0] == first[0];
      assert (first + second)[1..] == first[1..] + second;
      var o := Exec(first[0], env);
      if o.error.None? {
        ExecBlockAppend(first[1..], second, o.env);
      }
    } else {
      assert first + second == second;
    }
  }

  /** Executing keeps every variable a field element. */
  lemma {:induction false} ExecKeepsFieldEnv(s: Stmt, env: Env)
    requires FieldEnv(env)
    ensures FieldEnv(Exec(s, env).env)
    decreases s
  {
    match s
    case IfElse(condition, ifBody, elseBody) =>
      ExecBlockKeepsFieldEnv(ifBody, env);
      ExecBlockKeepsFieldEnv(elseBody, env);
    case _ =>
  }

  lemma {:induction false} ExecBlockKeepsFieldEnv(block: Block, env: Env)
    requires FieldEnv(env)
    ensures FieldEnv(ExecBlock(block, env).env)
    decreases block
  {
    if block != [] {
      ExecKeepsFieldEnv(block[0], env);
      ExecBlockKeepsFieldEnv(block[1..], Exec(block[0], env).env);
    }
  }

  class SimpleAbstractMachine {

    var variables: Env

    constructor ()
      ensures variables == map[]
    {
      variables := map[];
    }

    /** `execute_statement`, updating `variables` in place. */
    method ExecuteStatement(s: Stmt) returns (error: Option<ExecError>)
      modifies this
      ensures Exec(s, old(variables)) == Outcome(variables, error)
      ensures FieldEnv(old(variables)) ==> FieldEnv(variables)
      decreases s
    {
      if FieldEnv(variables) {
        ExecKeepsFieldEnv(s, variables);
      }
      match s {
        case ExprStmt(expr) =>
          var value := EvaluateExpression(expr, variables);
          error := if value.Err? then Some(value.error) else None;
        case Assignment(name, value) =>
          var v := EvaluateExpression(value, variables);
          if v.Err? {
            return Some(v.error);
          }
          variables := variables[name := v.value];
          error := None;
        case Assertion(expression) =>
          var value := EvaluateExpression(expression, variables);
          error := if value.Err? then Some(value.error) else None;
        case IfElse(condition, ifBody, elseBody) =>
          var c := EvaluateExpression(condition, variables);
          if c.Err? {
            return Some(c.error);
          }
          if c.value != 0 {
            error := ExecuteBlock(ifBody);
          } else {
            error := ExecuteBlock(elseBody);
          }
      }
    }

    /** `execute_block`: a loop over the statements. */
    method ExecuteBlock(block: Block) returns (error: Option<ExecError>)
      modifies this
      ensures ExecBlock(block, old(variables)) == Outcome(variables, error)
      ensures FieldEnv(old(variables)) ==> FieldEnv(variables)
      decreases block
    {
      if FieldEnv(variables) {
        ExecBlockKeepsFieldEnv(block, variables);
      }
      for i := 0 to |block|
        invariant ExecBlock(block, old(variables)) == ExecBlock(block[i..], variables)
      {
        assert block[i..][1..] == block[i + 1..];
        error := ExecuteStatement(block[i]);
        if error.Some? {
          return;
        }
      }
      error := None;
    }

    /** `execute`: parse every command first, then run the statements in
        order. A parse error leaves the variables untouched. */
    method Execute(commands: seq<string>) returns (error: Option<MachineError>)
      modifies this
      ensures ParseLines(commands).Err? ==>
        error == Some(ParseFailed(ParseLines(commands).error)) && variables == old(variables)
      ensures ParseLines(commands).Ok? ==>
        var o := ExecBlock(ParseLines(commands).value, old(variables));
        variables == o.env && error == if o.error.Some? then Some(ExecFailed(o.error.value)) else None
      ensures FieldEnv(old(variables)) ==> FieldEnv(variables)
    {
      var parsed := Parse(commands);
      if parsed.Err? {
        return Some(ParseFailed(parsed.error));
      }
      var statements := parsed.value;
      if FieldEnv(variables) {
        ExecBlockKeepsFieldEnv(statements, variables);
      }
      for i := 0 to |statements|
        invariant ExecBlock(statements, old(variables)) == ExecBlock(statements[i..], variables)
      {
        assert statements[i..][1..] == statements[i + 1..];
        var e := ExecuteStatement(statements[i]);
        if e.Some? {
          return Some(ExecFailed(e.value));
        }
      }
      error := None;
    }

    /** `parse`: a loop that appends one statement per command. */
    method Parse(commands: seq<string>) returns (r: Result<seq<Stmt>, ParseError>)
      ensures r == ParseLines(commands)
      decreases TotalLength(commands), 1
    {
      var parsed: seq<Stmt> := [];
      assert commands[0..] == commands;
      PrependNothing(ParseLines(commands));
      for i := 0 to |commands|
        invariant ParseLines(commands) == Prepend(parsed, ParseLines(commands[i..]))
      {
        TotalLengthBound(commands, i);
        var statement := ParseCommand(commands[i]);
        ParseLinesStep(commands, i, parsed);
        if statement.Err? {
          return Err(statement.error);
        }
        parsed := parsed + [statement.value];
      }
      assert commands[|commands|..] == [];
      PrependNothing(Ok(parsed));
      r := Ok(parsed);
    }

    /** The body of the `parse` loop for one command; an `IF` command calls
        `Parse` on its two bodies. */
    method ParseCommand(command: string) returns (r: Result<Stmt, ParseError>)
      ensures r == ParseLine(command)
      decreases |command|, 0
    {
      var c := Strip(command);
      if StartsWith(c, "PRINT") {
        var expr := ParseExpression(Words(Strip(Drop(c, 6))));
        if expr.Err? {
          return Err(expr.error);
        }
        r := Ok(ExprStmt(expr.value));
      } else if '=' in c {
        var parts := Split(c, "=");
        if |parts| != 2 {
          return Err(UnpackMismatch(|parts|));
        }
        var expr := ParseExpression(Words(parts[1]));
        if expr.Err? {
          return Err(expr.error);
        }
        r := Ok(Assignment(Strip(parts[0]), expr.value));
      } else if StartsWith(c, "IF") {
        var ifParts := ParseIfCommand(c[2..]);
        if ifParts.Err? {
          return Err(ifParts.error);
        }
        var condition := ParseExpression(Words(ifParts.value.condition));
        if condition.Err? {
          return Err(condition.error);
        }
        var ifBody := Parse(ifParts.value.thenLines);
        if ifBody.Err? {
          return Err(ifBody.error);
        }
        var elseBody := Parse(ifParts.value.elseLines);
        if elseBody.Err? {
          return Err(elseBody.error);
        }
        r := Ok(IfElse(condition.value, ifBody.value, elseBody.value));
      } else {
        r := Err(UnknownCommand(c));
      }
    }
  }
}

/** The abstract syntax of src/autowitgen/syntax.py:8-56, used by the
    `Context` evaluator. It is the tree of src/machine/machine.py without the
    literal: an expression is a `BinOp`, a `UnOp` or a `Var`. The `Expr` and
    `Statement` wrapper classes are transparent here. Every value of these
    types is a finite tree, so evaluation by structural recursion terminates. */
module Syntax {

  datatype BinOperator = Add | Sub | Mul

  datatype UnOperator = Neg

  datatype Expr =
    | BinOp(op: BinOperator, lhs: Expr, rhs: Expr)
    | UnOp(operator: UnOperator, operand: Expr)
    | Var(name: string)

  /** A bare expression, an `Assignment` to a variable name, an `Assertion`
      or an `IfElse` with one condition and exactly two bodies. */
  datatype Stmt =
    | ExprStmt(expr: Expr)
    | Assignment(variable: string, value: Expr)
    | Assertion(expression: Expr)
    | IfElse(condition: Expr, ifBody: Block, elseBody: Block)

  /** `Block(stmts: list[Statement])`: the statements in order. */
  type Block = seq<Stmt>

  /** The variables an expression reads. */
  function FreeVars(e: Expr): set<string> {
    match e
    case BinOp(_, l, r) => FreeVars(l) + FreeVars(r)
    case UnOp(_, x) => FreeVars(x)
    case Var(n) => {n}
  }
}

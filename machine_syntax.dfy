/** The abstract syntax of src/machine/machine.py:9-61. The `Expr` and
    `Statement` wrapper classes are transparent here: an expression is one of
    its four payloads and a statement one of its four. A `Block` is the
    ordered list of its statements. */
module MachineSyntax {

  import Field

  datatype BinOperator = Add | Sub | Mul

  datatype UnOperator = Neg

  datatype Expr =
    | BinOp(op: BinOperator, lhs: Expr, rhs: Expr)
    | UnOp(operator: UnOperator, operand: Expr)
    | Var(name: string)
    | Num(value: Field.Element)

  /** `Statement(expr: Expr | Assignment | Assertion | IfElse)`; an assignment
      target is a variable name, never a general expression. */
  datatype Stmt =
    | ExprStmt(expr: Expr)
    | Assignment(variable: string, value: Expr)
    | Assertion(expression: Expr)
    | IfElse(condition: Expr, ifBody: Block, elseBody: Block)

  type Block = seq<Stmt>

  /** The variables an expression reads. */
  function FreeVars(e: Expr): set<string> {
    match e
    case BinOp(_, l, r) => FreeVars(l) + FreeVars(r)
    case UnOp(_, x) => FreeVars(x)
    case Var(n) => {n}
    case Num(_) => {}
  }

  predicate HasNum(e: Expr) {
    match e
    case BinOp(_, l, r) => HasNum(l) || HasNum(r)
    case UnOp(_, x) => HasNum(x)
    case Var(_) => false
    case Num(_) => true
  }
}

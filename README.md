# abstractmachine in Dafny

A model of the small interpreter in the `abstractmachine` repository. Its
programs compute over the prime field `F = fields.bn128_FQ`, the base field
of the BN254 (alt_bn128) curve. The model covers three parts.

- **Syntax.** There are two abstract syntax trees. `MachineSyntax` follows
  `src/machine/machine.py`, which has a literal `Num`. `Syntax` follows
  `src/autowitgen/syntax.py`, which does not.
  - Each is an inductive datatype.
  - A `Block` is a `seq<Stmt>`.
  - An `Assignment` target is a variable name.
  - `BinOperator` has exactly the variants `Add`, `Sub` and `Mul`, and
    `UnOperator` has only `Neg`.
  - An `IfElse` carries one condition and exactly two bodies.

  These facts are stated by the datatype declarations themselves. Every tree
  is finite, so every evaluator below is proved to terminate by structural
  recursion.
- **`SimpleAbstractMachine`** (`Machine`). This is the recursive expression
  evaluator of `machine.py`. An undefined variable is an error.
  - Statements run against a `variables` field, which the class methods
    update in place.
  - Each method is proved against a specification function (`Exec`,
    `ExecBlock`). These are `execute_statement` and `execute_block` with the
    two missing cases added (a literal and a bare expression, see
    "## Findings"), so the class runs the corrected executor. The code as
    written is `ExecAsWritten`/`ExecBlockAsWritten`, and lemmas relate
    the two.
  - The line parser is `Parser`. It is a family of functions that specify
    the imperative `Parse` method of the class.
- **`Context`** (`Eval`). This is the evaluator of
  `src/autowitgen/eval.py`. An unbound variable reads as `None`, and
  arithmetic on `None` is a `TypeError`.
  - `Agreement` relates the two evaluators. Whatever the machine evaluates
    without error, the `Context` evaluator evaluates to the same value and
    the same variables.

Supporting modules:

- `Field` holds the modulus `P`, the field operations and reduction.
- `Text` holds the Python string operations the parser uses:
  - `strip()`, with Python's `str.isspace` set
  - `startswith`
  - `split(sep)`
  - `split()` with no separator
  - recognising a decimal literal
- `Wrappers` holds `Option` and `Result`.

## Behaviour of the code worth knowing

- An `Assertion` only evaluates its expression. A zero value is not a
  failure.
- Operators are looked up by enum member name (`BinOperator[name]`), so the
  only operator tokens are `Add`, `Sub` and `Mul`. A line `z = x + y` fails
  with `UnknownOperator("+")`.
- Each list entry is parsed on its own. An `IF` and both of its bodies
  must fit in one entry, because the `THEN`/`ELSE` split only sees that
  entry's text. Whatever the entries after it hold, an `IF` entry without
  `THEN` fails with `MissingThen`. One with a `THEN` but no `ELSE` after it
  fails with `MissingElse`.
- The `=` test comes before the `IF` test. Any line that holds `=` and does
  not start with `PRINT` is an assignment, whatever its first word. So
  `IF x THEN y = 1` assigns to the variable `IF x THEN y`, and no `IF` entry
  can hold an assignment in its bodies.
- No line form produces an `Assertion`. A line without `=` that starts with
  any word other than `PRINT` or `IF`, `ASSERT` included, is an unknown
  command.
- A line that starts with `PRINT` is a print statement even when it holds
  an `=`.

## Model

| member | source | states |
|---|---|---|
| Field.Add | src/machine/machine.py:76-77 | the sum of two field values is an element congruent to `a + b` modulo `P` |
| Field.Sub | src/machine/machine.py:78-79 | the difference is an element congruent to `a - b` modulo `P` |
| Field.Mul | src/machine/machine.py:80-81 | the product is an element congruent to `a * b` modulo `P` |
| Field.Neg | src/machine/machine.py:86-87 | negation gives an element that adds to the operand to give zero modulo `P` |
| Field.Reduce | src/machine/machine.py:155 | `F(n)` is an element congruent to `n`, and leaves an element unchanged |
| Field.NegNeg | src/machine/machine.py:86-87 | negating an element twice gives it back |
| Field.AddNegIsZero | src/machine/machine.py:76-87 | a value plus its negation is the zero element |
| Field.SubIsAddNeg | src/machine/machine.py:76-87 | subtracting is adding the negation |
| Field.MulOne | src/machine/machine.py:80-81 | one is the identity of multiplication on elements |
| Text.TrimStart | src/machine/machine.py:131 | the result is a suffix of the input, every dropped character is whitespace, and it does not start with whitespace |
| Text.TrimEnd | src/machine/machine.py:131 | the result is a prefix of the input, every dropped character is whitespace, and it does not end with whitespace |
| Text.Strip | src/machine/machine.py:131 | `strip()` is no longer than its input and neither starts nor ends with whitespace |
| Text.StripUnchanged | src/machine/machine.py:131 | a string without leading or trailing whitespace is its own `strip()` |
| Text.StripTrailingSpace | src/machine/machine.py:137 | `strip()` drops the space between a name and the `=` sign |
| Text.Drop | src/machine/machine.py:133 | the slice `command[6:]` has the remaining length, or is empty past the end |
| Text.IndexOf | src/machine/machine.py:146 | the separator occurs at the index found and at no earlier index, and nowhere when none is found |
| Text.Split | src/machine/machine.py:146 | `split(sep)` always yields at least one piece |
| Text.SplitJoin | src/machine/machine.py:146 | joining the pieces of `split(sep)` with `sep` gives the string back, and no piece contains `sep` |
| Text.SplitLength | src/machine/machine.py:148-149 | the pieces together are no longer than the input, so the bodies of an `IF` are shorter than the line |
| Text.SplitSecond | src/machine/machine.py:148-149 | piece `[1]` exists exactly when the separator occurs, and is the text between its first and second occurrence |
| Text.Before | src/machine/machine.py:147 | piece `[0]` is the text before the first occurrence of the separator, or the whole string when there is none, and holds no separator |
| Text.After | src/machine/machine.py:148 | the text after the first separator exists exactly when it occurs, and the string is the text before, the separator and the text after |
| Text.ContainsChar | src/machine/machine.py:135 | `"=" in command` holds exactly when `=` occurs as a separator |
| Text.SplitOnce | src/machine/machine.py:136 | a string with one `=` splits into exactly the text on each side |
| Text.SplitAtLeastThree | src/machine/machine.py:136 | a string with two `=` splits into at least three pieces |
| Text.WordEnd | src/machine/machine.py:134 | the leading run of non-whitespace ends at whitespace or at the end |
| Text.Words | src/machine/machine.py:134 | every piece of `split()` is non-empty and holds no whitespace |
| Text.WordsEmpty | src/machine/machine.py:134 | `split()` gives no pieces exactly when the text is all whitespace |
| Text.WordsAppend | src/machine/machine.py:134 | a text ending in whitespace, followed by any text, splits into the pieces of the first part followed by those of the second |
| Text.Words3 | src/machine/machine.py:134 | a run without whitespace, bounded by whitespace or the ends of the text, is one piece, between the pieces of the text before it and those of the text after it: `split()` yields the maximal whitespace-free runs in order |
| Text.WordsUnwords | src/machine/machine.py:134 | `split()` of words joined by single spaces gives the words back |
| Text.KeywordLine | src/machine/machine.py:131-134 | a keyword, a space and words is already stripped, starts with the keyword, and the words come back from the text after the keyword and its space |
| Text.SeparatedLine | src/machine/machine.py:131-137 | a line `name = words` is already stripped, holds `=`, splits into the name side and the word side, and both read back |
| Text.DecimalString | src/machine/machine.py:155 | the decimal spelling of a number is a run of digits |
| Text.DecimalRoundTrip | src/machine/machine.py:155 | reading back the decimal spelling of a number gives the number |
| Parser.LookupOperator | src/machine/machine.py:161 | `BinOperator[name]` succeeds exactly for `Add`, `Sub` and `Mul`, and returns the member of that name |
| Parser.LookupOperatorName | src/machine/machine.py:161 | every operator is found by its own member name |
| Parser.ParseAtom | src/machine/machine.py:153-157 | a single token is a literal exactly when it is a run of decimal digits, with the value reduced into the field, and otherwise the variable of that name |
| Parser.ParseExpression | src/machine/machine.py:152-163 | succeeds exactly for 1 or 2 tokens, or 3 tokens with an operator name in the middle. 1 token gives the atom of that token. 2 give the negation of the second token's atom. 3 give a `BinOp` with the operator named by the middle token, the first token's atom on the left and the third's on the right. An unknown operator and any other count are the matching errors |
| Parser.NegationMarkerIgnored | src/machine/machine.py:158-159 | the first of two tokens is discarded, so any marker gives the same expression |
| Parser.Tokens | src/machine/machine.py:152-163 | writing an expression out gives non-empty tokens without whitespace |
| Parser.AtomRoundTrip | src/machine/machine.py:153-157 | an atom written as one token parses back to itself |
| Parser.ParseTokens | src/machine/machine.py:152-163 | every expression of the token grammar, written out as tokens, parses back to itself |
| Parser.ParseIfCommand | src/machine/machine.py:145-150 | both bodies of an `IF` are no longer than the command, which makes the recursion of `parse` terminate |
| Parser.ParseIfCommandSpans | src/machine/machine.py:145-150 | no `THEN` is `MissingThen`. Otherwise the segment runs from the first `THEN` to the second (or the end); no `ELSE` in it is `MissingElse`. The condition is the stripped text before the first `THEN`. The then-lines are the segment before its first `ELSE`, and the else-lines the segment from there to its next `ELSE`, each stripped and cut at newlines |
| Parser.ParseLine | src/machine/machine.py:131-142 | a parsed line is never an `Assertion`, and it is a bare expression exactly when the stripped line starts with `PRINT` |
| Parser.ParsePrint | src/machine/machine.py:132-134 | a successful `PRINT` line is a bare expression statement |
| Parser.ParseAssignment | src/machine/machine.py:135-137 | a successful line with `=` is an assignment |
| Parser.ParseIf | src/machine/machine.py:138-140 | a successful `IF` line is an `IfElse` |
| Parser.ParseLines | src/machine/machine.py:128-143 | a successful parse has one statement per line |
| Parser.ParseLinesFirst | src/machine/machine.py:130-142 | `parse` handles the first line, then the rest |
| Parser.ParseLinesStep | src/machine/machine.py:130-142 | one iteration of the loop: a failing line fails the whole parse, and otherwise its statement is appended |
| Parser.ParseLinesEach | src/machine/machine.py:128-143 | `parse` is the left-to-right loop over the lines, for the per-line parser |
| Parser.EachAllOk | src/machine/machine.py:130-142 | when every line parses, the loop yields the statements in line order |
| Parser.EachFirstError | src/machine/machine.py:130-142 | the loop fails with the error of the first failing line |
| Parser.ParseLinesAllOk | src/machine/machine.py:128-143 | when every line parses, the result holds one statement per line, in order |
| Parser.ParseLinesFirstError | src/machine/machine.py:128-143 | the first line that fails decides the error of the whole parse |
| Parser.ParseLinesOk | src/machine/machine.py:128-143 | a successful parse parsed every line, and statement `j` is what line `j` parses to |
| Parser.ParseLineKinds | src/machine/machine.py:131-142 | the statement kind follows the precedence `PRINT` prefix, then `=`, then `IF` prefix. A line matching none is an unknown command, and no line becomes an `Assertion` |
| Parser.TwoEqualsFail | src/machine/machine.py:135-136 | a non-`PRINT` line with two `=` fails to unpack, with at least three pieces |
| Parser.ParsedLineHasNoAssertion | src/machine/machine.py:128-143 | no parsed line holds an `Assertion` at any nesting depth |
| Parser.ParsedIfHasNoAssertion | src/machine/machine.py:138-140 | no parsed `IF` line holds an `Assertion` in either body |
| Parser.ParsedLinesHaveNoAssertion | src/machine/machine.py:128-143 | no parsed program holds an `Assertion` |
| Parser.ParseLinePrint | src/machine/machine.py:132-134 | a stripped line that starts with `PRINT` is parsed by the print branch |
| Parser.ParseLineAssignment | src/machine/machine.py:135-137 | a stripped non-`PRINT` line with `=` is parsed by the assignment branch |
| Parser.ParsePrintWords | src/machine/machine.py:133-134 | the print branch parses the words after the first six characters, and fails with their error |
| Parser.ParsePrintLine | src/machine/machine.py:132-134 | a stripped `PRINT` line parses to the bare statement of the expression its words parse to |
| Parser.PrintWords | src/machine/machine.py:132-134 | `PRINT` followed by words parses to the bare statement of the expression the words parse to |
| Parser.PrintLineRoundTrip | src/machine/machine.py:132-134 | a `PRINT` line written from an expression parses back to that statement |
| Parser.NotPrintPrefixed | src/machine/machine.py:132 | an assignment line whose name does not start with `PRINT` is not taken by the print branch |
| Parser.ParseAssignmentParts | src/machine/machine.py:136-137 | the stripped name side becomes the target and the words of the other side the value, with its error on failure |
| Parser.ParseAssignmentLine | src/machine/machine.py:135-137 | a stripped line that splits into a name side and a word side parses to that assignment |
| Parser.AssignWords | src/machine/machine.py:135-137 | `name = words` parses to the assignment of the expression the words parse to |
| Parser.AssignLineRoundTrip | src/machine/machine.py:135-137 | an assignment line written from a name and an expression parses back to that assignment |
| Machine.ApplyBinOp | src/machine/machine.py:76-81 | the operator's result is a field element |
| Machine.EvaluateExpressionAsWritten | src/machine/machine.py:72-97 | as written, evaluation succeeds exactly when the expression has no literal and every variable it reads is bound |
| Machine.EvaluateExpression | src/machine/machine.py:72-97 | evaluation succeeds exactly when every variable read is bound, fails only for an unbound variable the expression reads, and yields an element over field-valued variables |
| Machine.ExecAsWritten | src/machine/machine.py:103-118 | as written, a statement never removes a variable, and it succeeds only if it is not a bare expression |
| Machine.ExecBlockAsWritten | src/machine/machine.py:99-101 | as written, a block never removes a variable, and it succeeds only if none of its statements is a bare expression |
| Machine.Exec | src/machine/machine.py:103-118 | a statement never removes a variable, and its only error is an unbound variable, still unbound afterwards |
| Machine.ExecBlock | src/machine/machine.py:99-101 | the same holds for a block |
| Machine.EvaluateBinOp | src/machine/machine.py:73-81 | `lhs` is evaluated before `rhs`, so its error wins. When both succeed the result is their sum, difference or product modulo `P` |
| Machine.EvaluateVar | src/machine/machine.py:90-95 | a bound variable yields its value, and an unbound one the "not defined" error |
| Machine.EvaluateNeg | src/machine/machine.py:84-87 | negation succeeds exactly when its operand does, and operand plus result is zero modulo `P` |
| Machine.DoubleNegation | src/machine/machine.py:84-87 | negating twice gives the operand's evaluation back |
| Machine.AsWrittenAgreesWithoutNum | src/machine/machine.py:72-97 | without literals, the evaluator as written and the corrected one agree |
| Machine.NumNotEvaluatedAsWritten | src/machine/machine.py:96-97 | as written a literal raises "Unknown expression type", while corrected it is its value |
| Machine.ExecAsWrittenAgrees | src/machine/machine.py:103-118 | on statements without literals or bare expressions, the executor as written and the corrected one agree |
| Machine.ExecBlockAsWrittenAgrees | src/machine/machine.py:99-101 | the same holds for blocks |
| Machine.PrintRejectedAsWritten | src/machine/machine.py:117-118 | as written a bare expression statement raises "Unknown statement type", while corrected it evaluates and keeps the variables |
| Machine.AssignmentBindsTarget | src/machine/machine.py:104-107 | an assignment binds the target to the value and leaves every other binding alone. A failing value changes nothing and is the error |
| Machine.AssignTwice | src/machine/machine.py:104-107 | assigning a name twice leaves only the second value |
| Machine.EvaluatingStatementsKeepEnv | src/machine/machine.py:108-110 | an `Assertion` or bare expression leaves the variables unchanged, and fails exactly when a variable it reads is unbound |
| Machine.IfElseRunsOneBody | src/machine/machine.py:111-116 | exactly one body runs: the first on a non-zero condition, the second on zero, and neither when the condition fails. The body not taken has no effect |
| Machine.ExecBlockAppend | src/machine/machine.py:99-101 | a block runs its statements left to right, the first error stops the rest, and the empty block changes nothing |
| Machine.ExecKeepsFieldEnv | src/machine/machine.py:103-118 | executing a statement keeps every variable a field element |
| Machine.ExecBlockKeepsFieldEnv | src/machine/machine.py:99-101 | executing a block keeps every variable a field element |
| Machine.SimpleAbstractMachine.constructor | src/machine/machine.py:68-70 | a new machine has no variables |
| Machine.SimpleAbstractMachine.ExecuteStatement | src/machine/machine.py:103-118 | the in-place update of `variables` and the error are those of `Exec` on the old variables, and field-valued variables stay field-valued |
| Machine.SimpleAbstractMachine.ExecuteBlock | src/machine/machine.py:99-101 | the loop leaves the variables and the error of `ExecBlock` on the old variables, and field-valued variables stay field-valued |
| Machine.SimpleAbstractMachine.Execute | src/machine/machine.py:120-123 | a parse error leaves the variables untouched. Otherwise the parsed statements run in order, and the variables and error are those of running them. Field-valued variables stay field-valued |
| Machine.SimpleAbstractMachine.Parse | src/machine/machine.py:128-143 | the appending loop returns exactly what `ParseLines` specifies |
| Machine.SimpleAbstractMachine.ParseCommand | src/machine/machine.py:131-142 | one command's statement or error is exactly what `ParseLine` specifies |
| Eval.Context.constructor | src/autowitgen/eval.py:4-5 | a new context has no variables |
| Eval.Context.AssignVariable | src/autowitgen/eval.py:7-8 | after assigning, the name reads back as the value and every other name reads as before |
| Eval.Context.GetVariable | src/autowitgen/eval.py:10-11 | a bound name reads as its value, and an unbound one as `None` |
| Eval.Apply | src/autowitgen/eval.py:20-25 | the operator's result is a field element |
| Eval.EvaluateExpr | src/autowitgen/eval.py:14-37 | the result is an element exactly when every variable read holds one, `None` exactly for a variable holding none, and otherwise a `TypeError` |
| Eval.EvaluateNeg | src/autowitgen/eval.py:27-32 | an element operand gives an element that adds to it to give zero modulo `P`, `None` gives a `TypeError`, and an operand error is passed on |
| Eval.ExecStmt | src/autowitgen/eval.py:40-67 | a statement never removes a variable, and the only exception it raises is `TypeError` |
| Eval.ExecBlock | src/autowitgen/eval.py:70-72 | the same holds for a block, whose statements run in order |
| Eval.ExecStmtAsWritten | src/autowitgen/eval.py:40-67 | as written, a statement never removes a variable, and an `AttributeError` comes only from an `IfElse` whose condition evaluated |
| Eval.EvaluateVarReadsContext | src/autowitgen/eval.py:34-35 | a variable evaluates to `get_variable`, so an unbound one yields `None` |
| Eval.EvaluateBinOp | src/autowitgen/eval.py:15-25 | the left operand is evaluated first and the right second, `None` on either side is a `TypeError`, and otherwise the field sum, difference or product |
| Eval.DoubleNegation | src/autowitgen/eval.py:27-32 | negating an element twice gives it back, and negating `None` is a `TypeError` |
| Eval.AssignmentStoresValue | src/autowitgen/eval.py:41-44 | an assignment stores the evaluated value, `None` included, under the target. A failing value changes nothing |
| Eval.EvaluatingStatementsKeepVars | src/autowitgen/eval.py:46-48 | an `Assertion` or bare expression leaves the variables unchanged and fails only with a `TypeError`, never for a zero value |
| Eval.IfElseRunsOneBody | src/autowitgen/eval.py:51-60 | exactly one body runs: the first when the condition is a non-zero element, the second when it is zero or `None` |
| Eval.ExecBlockAppend | src/autowitgen/eval.py:70-72 | running two blocks one after the other is running their concatenation |
| Eval.ExecKeepsFieldVars | src/autowitgen/eval.py:40-67 | statements store only field elements or `None` |
| Eval.ExecBlockKeepsFieldVars | src/autowitgen/eval.py:70-72 | so do blocks |
| Eval.BlockFailsAsWritten | src/autowitgen/eval.py:70-72 | as written, every block, the empty one included, changes nothing and ends with an error the corrected block never has |
| Eval.IfElseFailsAsWritten | src/autowitgen/eval.py:71 | as written, an `IfElse` whose condition evaluates fails with `AttributeError`, while corrected an empty `IfElse` succeeds |
| Eval.AsWrittenDiffersOnlyAtIfElse | src/autowitgen/eval.py:40-67 | the code as written and the corrected evaluator give the same result exactly when the statement is not an `IfElse` whose condition evaluates |
| Eval.EvaluateStatement | src/autowitgen/eval.py:40-67 | the in-place update of the context and the error are those of `ExecStmt` on the old variables |
| Eval.EvaluateBlock | src/autowitgen/eval.py:70-72 | the loop over the statements leaves the variables and the error of `ExecBlock` on the old variables |
| Agreement.Embed | src/autowitgen/syntax.py:8-33 | a literal-free tree read as a machine tree has no literal and reads the same variables |
| Agreement.EmbedBlock | src/autowitgen/syntax.py:54-56 | a block keeps its length |
| Agreement.Lift | src/autowitgen/eval.py:3-11 | a machine environment read as a context binds the same names, each to `Some` of its value |
| Agreement.LiftUpdate | src/autowitgen/eval.py:7-8 | binding then lifting is lifting then binding |
| Agreement.ExprAgreement | src/autowitgen/eval.py:14-37 | the machine evaluates an expression exactly when the `Context` evaluator yields an element, and then both yield the same one |
| Agreement.StmtAgreement | src/autowitgen/eval.py:40-67 | a statement the machine runs without error runs without error in a `Context` too, leaving the same variables |
| Agreement.BlockAgreement | src/autowitgen/eval.py:70-72 | the same holds for blocks |

## Left out

- The `Expr(...)` and `Statement(...)` wrappers are transparent in the model, which uses the payload directly. Trees are modelled as if built without the wrappers, which Python does not enforce.
  - src/machine/machine.py:134-161: `parse` wraps every node. `execute_statement` and `evaluate_expression` test the payload classes with `isinstance`, so every wrapped node that `parse` builds would reach the "Unknown statement type" branch.
  - src/autowitgen/syntax.py:10-17,42-52 declare every operand, value, expression and condition as an `Expr` wrapper. `evaluate_expr` (src/autowitgen/eval.py:14-37) has no case for it, so a wrapped expression reaches `return None` at line 37 without evaluating anything. For example, a wrapped `Neg` of an unbound variable gives `None` in the source but a `TypeError` in the model.
- `evaluate_condition` (src/machine/machine.py:125-126) calls Python's `eval` on host-language text and is never called.
- The `__main__` driver (src/machine/machine.py:165-183) is sample input and output. Its `WHILE`, `END`, `>` and quoted-string commands are not forms `parse` accepts.
- The `print` of the `Assertion` branch (src/machine/machine.py:110) has no model: the branch evaluates and changes nothing.
- The unused `self.stack` (src/machine/machine.py:69) is not modelled.
- The field library is not part of this model.
  - `F` is an integer reduced modulo the BN254 base-field prime `P`.
  - `F(token)` accepts exactly a non-empty run of ASCII decimal digits; any other token becomes a variable.
  - Eval.Truthy: a condition is true when it is a non-zero element. The zero element and `None` are false.
  - These are assumptions about that library.
- Python exceptions are values, each identified by its kind. Exception messages and tracebacks are not modelled.
- The "unsupported statement" no-op (src/autowitgen/eval.py:65-67) and the `return None` for an unrecognised node (src/autowitgen/eval.py:37) are not modelled. The datatypes are closed, so no unwrapped tree reaches them. The wrapped trees that do reach line 37 are covered by the wrapper line above.
- Agreement.StmtAgreement: it goes in one direction only. The `Context` evaluator also succeeds where the machine fails, for example by storing `None` for an unbound variable.
- Parser.PrintLineRoundTrip: it covers lines in the canonical form the model writes, with single spaces. Parser.AssignLineRoundTrip covers the same form, for names and tokens without `=` and names that do not start with `PRINT`. No lemma writes an `IF` line back.

## Findings

| source | as written | input that shows it | evidently intended | confidence | as-written member | corrected member |
|---|---|---|---|---|---|---|
| src/machine/machine.py:96-97 | `evaluate_expression` has no case for `Num`, so a literal raises "Unknown expression type" | `evaluate_expression(Num(F(10)))`, the literal that `parse` builds for the line `x = 10` | a literal evaluates to its field value | not executed | Machine.NumNotEvaluatedAsWritten | Machine.EvaluateExpression |
| src/machine/machine.py:103-118 | `execute_statement` has no case for a bare expression, so every `PRINT` statement raises "Unknown statement type" | `PRINT x` with `x` bound | the expression is evaluated and the variables are kept | not executed | Machine.PrintRejectedAsWritten | Machine.EvaluatingStatementsKeepEnv |
| src/autowitgen/eval.py:71 | `evaluate_block` reads `block.statements`, but `Block` declares `stmts` (src/autowitgen/syntax.py:56), so every `IfElse` whose condition evaluates raises `AttributeError` | `IfElse(Var("x"), Block([]), Block([]))` with `x` bound | the block's statements run in order | not executed | Eval.IfElseFailsAsWritten | Eval.EvaluateBlock |

/** The line-oriented front end of src/machine/machine.py:128-163: each
    command line becomes one statement, classified by a `PRINT` prefix, an
    `=` sign or an `IF` prefix, and expressions are built from the number of
    whitespace-separated tokens alone. The imperative `parse` loop is
    `Machine.SimpleAbstractMachine.Parse`; the functions here are its
    specification and the pure helpers it calls. */
module Parser {

  import opened Wrappers
  import opened Text
  import Field
  import opened MachineSyntax

  /** The exceptions `parse` can raise. */
  datatype ParseError =
    | UnknownCommand(command: string)   // no statement form matches the line
    | UnpackMismatch(pieces: nat)       // `var_name, expr = command.split("=")` did not get two pieces
    | MissingThen                       // `parts[1]` of the `THEN` split does not exist
    | MissingElse                       // `[1]` of the `ELSE` split does not exist
    | InvalidExpression(tokens: nat)    // a token count other than 1, 2 or 3
    | UnknownOperator(name: string)     // `BinOperator[name]` has no such member

  /** The enum member name of an operator. */
  function OperatorName(op: BinOperator): string {
    match op
    case Add => "Add"
    case Sub => "Sub"
    case Mul => "Mul"
  }

  /** `BinOperator[name]`: lookup by member name, so `+` is not an operator. */
  function LookupOperator(name: string): (r: Option<BinOperator>)
    ensures r.Some? <==> name == "Add" || name == "Sub" || name == "Mul"
    ensures r.Some? ==> OperatorName(r.value) == name
  {
    if name == "Add" then Some(Add)
    else if name == "Sub" then Some(Sub)
    else if name == "Mul" then Some(Mul)
    else None
  }

  lemma LookupOperatorName(op: BinOperator)
    ensures LookupOperator(OperatorName(op)) == Some(op)
  {
  }

  /** A single token: a numeric literal when it is a run of decimal digits
      (reduced into the field, as `F(n)` does), else a variable reference. */
  function ParseAtom(token: string): (e: Expr)
    ensures e.Num? <==> IsDecimal(token)
    ensures e.Var? ==> e.name == token
    ensures e.Num? ==> Field.Congruent(e.value, DecimalValue(token))
  {
    if IsDecimal(token) then Num(Field.Reduce(DecimalValue(token))) else Var(token)
  }

  predicate Atomic(e: Expr) {
    e.Var? || e.Num?
  }

  /** The only shapes the token-count grammar can build: an atom, the
      negation of an atom, or an operator applied to two atoms. */
  predicate Shallow(e: Expr) {
    match e
    case BinOp(_, l, r) => Atomic(l) && Atomic(r)
    case UnOp(_, x) => Atomic(x)
    case _ => true
  }

  /** `parse_expression`: one token is an atom, two are the negation of the
      second (the first is discarded), three are `lhs OP rhs` with `OP` an
      operator name, and any other count is an error. */
  function ParseExpression(tokens: seq<string>): (r: Result<Expr, ParseError>)
    ensures r.Ok? <==> |tokens| == 1 || |tokens| == 2 || (|tokens| == 3 && LookupOperator(tokens[1]).Some?)
    ensures r.Ok? ==> Shallow(r.value)
    ensures r.Ok? && |tokens| == 1 ==> r.value == ParseAtom(tokens[0])
    ensures r.Ok? && |tokens| == 2 ==> r.value == UnOp(Neg, ParseAtom(tokens[1]))
    ensures r.Ok? && |tokens| == 3 ==>
      r.value == BinOp(LookupOperator(tokens[1]).value, ParseAtom(tokens[0]), ParseAtom(tokens[2]))
    ensures |tokens| == 3 && LookupOperator(tokens[1]).None? ==> r == Err(UnknownOperator(tokens[1]))
    ensures |tokens| == 0 || |tokens| > 3 ==> r == Err(InvalidExpression(|tokens|))
  {
    if |tokens| == 1 then
      Ok(ParseAtom(tokens[0]))
    else if |tokens| == 2 then
      match ParseExpression(tokens[1..])
      case Err(e) => Err(e)
      case Ok(operand) => Ok(UnOp(Neg, operand))
    else if |tokens| == 3 then
      match LookupOperator(tokens[1])
      case None => Err(UnknownOperator(tokens[1]))
      case Some(op) =>
        match (ParseExpression(tokens[..1]), ParseExpression(tokens[2..]))
        case (Ok(lhs), Ok(rhs)) => Ok(BinOp(op, lhs, rhs))
        case (Err(e), _) => Err(e)
        case (_, Err(e)) => Err(e)
    else
      Err(InvalidExpression(|tokens|))
  }

  /** The negation marker is ignored: any first token gives the same result. */
  lemma NegationMarkerIgnored(marker: string, other: string, operand: string)
    ensures ParseExpression([marker, operand]) == ParseExpression([other, operand])
  {
    assert [marker, operand][1..] == [operand] == [other, operand][1..];
  }

  /** A variable name that reads back as itself: one token, not a literal. */
  predicate ValidName(name: string) {
    name != [] && NoSpace(name) && !IsDecimal(name)
  }

  /** Expressions that `Tokens` can write out and `ParseExpression` read back. */
  predicate Printable(e: Expr) {
    Shallow(e) &&
    match e
    case BinOp(_, l, r) => Printable(l) && Printable(r)
    case UnOp(_, x) => Printable(x)
    case Var(n) => ValidName(n)
    case Num(_) => true
  }

  /** The token list of an expression, with `Neg` as the negation marker. */
  function Tokens(e: Expr): (ts: seq<string>)
    requires Printable(e)
    ensures forall i :: 0 <= i < |ts| ==> ts[i] != [] && NoSpace(ts[i])
  {
    match e
    case Var(n) => [n]
    case Num(v) => [DecimalString(v)]
    case UnOp(_, x) => ["Neg"] + Tokens(x)
    case BinOp(op, l, r) => Tokens(l) + [OperatorName(op)] + Tokens(r)
  }

  lemma AtomRoundTrip(e: Expr)
    requires Atomic(e) && Printable(e)
    ensures Tokens(e) == [Tokens(e)[0]] && ParseAtom(Tokens(e)[0]) == e
  {
    if e.Num? {
      DecimalRoundTrip(e.value);
    }
  }

  /** Writing an expression out as tokens and parsing them gives it back. */
  lemma {:induction false} ParseTokens(e: Expr)
    requires Printable(e)
    ensures ParseExpression(Tokens(e)) == Ok(e)
  {
    match e
    case Var(_) =>
    case Num(v) => AtomRoundTrip(e);
    case UnOp(Neg, x) =>
      AtomRoundTrip(x);
      assert Tokens(e)[1..] == Tokens(x);
    case BinOp(op, l, r) =>
      AtomRoundTrip(l);
      AtomRoundTrip(r);
      LookupOperatorName(op);
      var ts := Tokens(e);
      assert ts == [Tokens(l)[0], OperatorName(op), Tokens(r)[0]];
      assert ts[..1] == Tokens(l) && ts[2..] == Tokens(r);
  }

  /** The three textual spans of an `IF` command. */
  datatype IfParts = IfParts(condition: string, thenLines: seq<string>, elseLines: seq<string>)

  /** `parse_if_command`: split on `THEN`, then split the second piece on
      `ELSE`; each body is stripped and cut into lines. */
  function ParseIfCommand(command: string): (r: Result<IfParts, ParseError>)
    ensures r.Ok? ==> TotalLength(r.value.thenLines) <= |command|
    ensures r.Ok? ==> TotalLength(r.value.elseLines) <= |command|
  {
    var parts := Split(command, "THEN");
    if |parts| < 2 then Err(MissingThen)
    else
      var halves := Split(parts[1], "ELSE");
      if |halves| < 2 then Err(MissingElse)
      else
        var thenText, elseText := Strip(halves[0]), Strip(halves[1]);
        SplitLength(command, "THEN");
        TotalLengthBound(parts, 1);
        SplitLength(parts[1], "ELSE");
        TotalLengthBound(halves, 0);
        TotalLengthBound(halves, 1);
        SplitLength(thenText, "\n");
        SplitLength(elseText, "\n");
        Ok(IfParts(Strip(parts[0]), Split(thenText, "\n"), Split(elseText, "\n")))
  }

  /** The condition is the text before the first `THEN`; the then-lines are
      the text after it up to the first `ELSE`, and the else-lines the text
      after that `ELSE`, each span ending early at a further `THEN` or `ELSE`.
      A missing `THEN` or `ELSE` is an error. */
  lemma ParseIfCommandSpans(command: string)
    ensures !Contains(command, "THEN") ==> ParseIfCommand(command) == Err(MissingThen)
    ensures Contains(command, "THEN") ==>
      var segment := Before(After(command, "THEN").value, "THEN");
      if !Contains(segment, "ELSE") then ParseIfCommand(command) == Err(MissingElse)
      else ParseIfCommand(command) == Ok(IfParts(
        Strip(Before(command, "THEN")),
        Split(Strip(Before(segment, "ELSE")), "\n"),
        Split(Strip(Before(After(segment, "ELSE").value, "ELSE")), "\n")))
  {
    SplitSecond(command, "THEN");
    if Contains(command, "THEN") {
      SplitSecond(Split(command, "THEN")[1], "ELSE");
    }
  }

  /** One command line, classified in the order `PRINT` prefix, `=` anywhere,
      `IF` prefix; anything else is an unknown command. */
  function ParseLine(command: string): (r: Result<Stmt, ParseError>)
    ensures r.Ok? ==> !r.value.Assertion?
    ensures r.Ok? ==> (r.value.ExprStmt? <==> StartsWith(Strip(command), "PRINT"))
    decreases |command|, 1, 0
  {
    var c := Strip(command);
    if StartsWith(c, "PRINT") then ParsePrint(c)
    else if '=' in c then ParseAssignment(c)
    else if StartsWith(c, "IF") then ParseIf(c)
    else Err(UnknownCommand(c))
  }

  /** A `PRINT` line: the tokens after the first six characters. */
  function ParsePrint(c: string): (r: Result<Stmt, ParseError>)
    ensures r.Ok? ==> r.value.ExprStmt?
  {
    var e :- ParseExpression(Words(Strip(Drop(c, 6))));
    Ok(ExprStmt(e))
  }

  /** A line with `=`: exactly two pieces, the stripped name and the tokens
      of the expression. */
  function ParseAssignment(c: string): (r: Result<Stmt, ParseError>)
    ensures r.Ok? ==> r.value.Assignment?
  {
    var parts := Split(c, "=");
    if |parts| != 2 then Err(UnpackMismatch(|parts|))
    else
      var e :- ParseExpression(Words(parts[1]));
      Ok(Assignment(Strip(parts[0]), e))
  }

  /** An `IF` line: the condition's tokens, then both bodies parsed as lines. */
  function ParseIf(c: string): (r: Result<Stmt, ParseError>)
    requires StartsWith(c, "IF")
    ensures r.Ok? ==> r.value.IfElse?
    decreases |c|, 0, 0
  {
    var ifParts :- ParseIfCommand(c[2..]);
    var condition :- ParseExpression(Words(ifParts.condition));
    var ifBody :- ParseLines(ifParts.thenLines);
    var elseBody :- ParseLines(ifParts.elseLines);
    Ok(IfElse(condition, ifBody, elseBody))
  }

  /** `parse`: the lines in order, each to one statement; the first line that
      fails aborts the whole parse. */
  function ParseLines(commands: seq<string>): (r: Result<seq<Stmt>, ParseError>)
    ensures r.Ok? ==> |r.value| == |commands|
    decreases TotalLength(commands), 2, |commands|
  {
    if commands == [] then Ok([])
    else
      var first :- ParseLine(commands[0]);
      var rest :- ParseLines(commands[1..]);
      Ok([first] + rest)
  }

  /** `stmts` in front of the statements of a successful parse. */
  function Prepend(stmts: seq<Stmt>, r: Result<seq<Stmt>, ParseError>): Result<seq<Stmt>, ParseError> {
    match r
    case Ok(rest) => Ok(stmts + rest)
    case Err(e) => Err(e)
  }

  lemma PrependNothing(r: Result<seq<Stmt>, ParseError>)
    ensures Prepend([], r) == r
    ensures r.Ok? ==> Prepend(r.value, Ok([])) == r
  {
    if r.Ok? {
      assert [] + r.value == r.value + [] == r.value;
    }
  }

  lemma PrependPrepend(a: seq<Stmt>, b: seq<Stmt>, r: Result<seq<Stmt>, ParseError>)
    ensures Prepend(a, Prepend(b, r)) == Prepend(a + b, r)
  {
    if r.Ok? {
      assert a + (b + r.value) == (a + b) + r.value;
    }
  }

  /** `parse` takes the first line, then the rest. */
  lemma ParseLinesFirst(commands: seq<string>)
    requires commands != []
    ensures ParseLines(commands) == match ParseLine(commands[0])
      case Err(e) => Err(e)
      case Ok(first) => Prepend([first], ParseLines(commands[1..]))
  {
  }

  /** One iteration of the `parse` loop: with the statements of lines
      `0..i` parsed, line `i` either fails the whole parse or is appended. */
  lemma ParseLinesStep(commands: seq<string>, i: nat, parsed: seq<Stmt>)
    requires i < |commands|
    requires ParseLines(commands) == Prepend(parsed, ParseLines(commands[i..]))
    ensures ParseLine(commands[i]).Err? ==> ParseLines(commands) == Err(ParseLine(commands[i]).error)
    ensures ParseLine(commands[i]).Ok? ==>
      ParseLines(commands) == Prepend(parsed + [ParseLine(commands[i]).value], ParseLines(commands[i + 1..]))
  {
    var remaining := commands[i..];
    assert remaining[0] == commands[i] && remaining[1..] == commands[i + 1..];
    ParseLinesFirst(remaining);
    if ParseLine(commands[i]).Ok? {
      PrependPrepend(parsed, [ParseLine(commands[i]).value], ParseLines(commands[i + 1..]));
    }
  }

  /** The left-to-right loop of `parse` for an arbitrary per-line parser:
      the facts about the order of lines and the first error are facts about
      this loop, whatever a single line parses to. */
  function ParseEach(parseLine: string -> Result<Stmt, ParseError>, commands: seq<string>): Result<seq<Stmt>, ParseError>
  {
    if commands == [] then Ok([])
    else
      var first :- parseLine(commands[0]);
      var rest :- ParseEach(parseLine, commands[1..]);
      Ok([first] + rest)
  }

  lemma {:induction false} ParseLinesEach(commands: seq<string>)
    ensures ParseLines(commands) == ParseEach(ParseLine, commands)
    decreases |commands|
  {
    if commands != [] {
      ParseLinesFirst(commands);
      ParseLinesEach(commands[1..]);
    }
  }

  lemma {:induction false} EachAllOk(parseLine: string -> Result<Stmt, ParseError>, commands: seq<string>, stmts: seq<Stmt>)
    requires |stmts| == |commands|
    requires forall j :: 0 <= j < |commands| ==> parseLine(commands[j]) == Ok(stmts[j])
    ensures ParseEach(parseLine, commands) == Ok(stmts)
    decreases |commands|
  {
    if commands != [] {
      forall j | 0 <= j < |commands| - 1
        ensures parseLine(commands[1..][j]) == Ok(stmts[1..][j])
      {
        assert commands[1..][j] == commands[j + 1];
      }
      EachAllOk(parseLine, commands[1..], stmts[1..]);
      assert parseLine(commands[0]) == Ok(stmts[0]);
      assert stmts == [stmts[0]] + stmts[1..];
    }
  }

  lemma {:induction false} EachFirstError(parseLine: string -> Result<Stmt, ParseError>, commands: seq<string>, i: int)
    requires 0 <= i < |commands|
    requires forall j :: 0 <= j < i ==> parseLine(commands[j]).Ok?
    requires parseLine(commands[i]).Err?
    ensures ParseEach(parseLine, commands) == Err(parseLine(commands[i]).error)
    decreases i
  {
    if i > 0 {
      var rest := commands[1..];
      forall j | 0 <= j < i - 1
        ensures parseLine(rest[j]).Ok?
      {
        assert rest[j] == commands[j + 1];
      }
      assert rest[i - 1] == commands[i];
      EachFirstError(parseLine, rest, i - 1);
      assert parseLine(commands[0]).Ok?;
    }
  }

  /** When every line parses, the result holds one statement per line, in
      the order of the lines. */
  lemma ParseLinesAllOk(commands: seq<string>, stmts: seq<Stmt>)
    requires |stmts| == |commands|
    requires forall j :: 0 <= j < |commands| ==> ParseLine(commands[j]) == Ok(stmts[j])
    ensures ParseLines(commands) == Ok(stmts)
  {
    ParseLinesEach(commands);
    EachAllOk(ParseLine, commands, stmts);
  }

  /** The first line that fails decides the error of the whole parse. */
  lemma ParseLinesFirstError(commands: seq<string>, i: int)
    requires 0 <= i < |commands|
    requires forall j :: 0 <= j < i ==> ParseLine(commands[j]).Ok?
    requires ParseLine(commands[i]).Err?
    ensures ParseLines(commands) == Err(ParseLine(commands[i]).error)
  {
    ParseLinesEach(commands);
    EachFirstError(ParseLine, commands, i);
  }

  /** Conversely, a successful parse parsed every line, and statement `j` is
      what line `j` parses to. */
  lemma {:induction false} ParseLinesOk(commands: seq<string>)
    requires ParseLines(commands).Ok?
    ensures forall j :: 0 <= j < |commands| ==> ParseLine(commands[j]) == Ok(ParseLines(commands).value[j])
    decreases |commands|
  {
    if commands != [] {
      ParseLinesOk(commands[1..]);
    }
  }

  /** The statement kind follows the classification order: a `PRINT` prefix
      wins over an `=`, which wins over an `IF` prefix; a line matching none
      is an unknown command. No line ever becomes an `Assertion`. */
  lemma ParseLineKinds(command: string)
    ensures var c := Strip(command);
      !StartsWith(c, "PRINT") && '=' !in c && !StartsWith(c, "IF") ==>
        ParseLine(command) == Err(UnknownCommand(c))
    ensures var c := Strip(command);
      ParseLine(command).Ok? ==>
        var s := ParseLine(command).value;
        (s.ExprStmt? <==> StartsWith(c, "PRINT")) &&
        (s.Assignment? <==> !StartsWith(c, "PRINT") && '=' in c) &&
        (s.IfElse? <==> !StartsWith(c, "PRINT") && '=' !in c && StartsWith(c, "IF")) &&
        !s.Assertion?
  {
  }

  /** A non-`PRINT` line with two `=` signs fails to unpack into a name and
      an expression. */
  lemma TwoEqualsFail(command: string, i: int, j: int)
    requires !StartsWith(Strip(command), "PRINT")
    requires 0 <= i < j < |Strip(command)| && Strip(command)[i] == '=' && Strip(command)[j] == '='
    ensures ParseLine(command).Err? && ParseLine(command).error.UnpackMismatch?
    ensures ParseLine(command).error.pieces >= 3
  {
    SplitAtLeastThree(Strip(command), '=', i, j);
    assert ParseLine(command) == ParseAssignment(Strip(command));
  }

  predicate NoAssertion(s: Stmt)
    decreases s
  {
    match s
    case Assertion(_) => false
    case IfElse(_, ifBody, elseBody) => NoAssertionIn(ifBody) && NoAssertionIn(elseBody)
    case _ => true
  }

  predicate NoAssertionIn(block: Block)
    decreases block
  {
    forall i :: 0 <= i < |block| ==> NoAssertion(block[i])
  }

  lemma NoAssertionInCons(first: Stmt, rest: Block)
    requires NoAssertion(first) && NoAssertionIn(rest)
    ensures NoAssertionIn([first] + rest)
  {
    forall i | 0 <= i < |[first] + rest|
      ensures NoAssertion(([first] + rest)[i])
    {
      if i > 0 {
        assert ([first] + rest)[i] == rest[i - 1];
      }
    }
  }

  /** The parser has no `ASSERT` form: no parsed program, at any nesting
      depth, holds an `Assertion`. */
  lemma {:induction false} ParsedLineHasNoAssertion(command: string)
    ensures ParseLine(command).Ok? ==> NoAssertion(ParseLine(command).value)
    decreases |command|, 1, 0
  {
    var c := Strip(command);
    if StartsWith(c, "PRINT") {
      assert ParseLine(command) == ParsePrint(c);
    } else if '=' in c {
      assert ParseLine(command) == ParseAssignment(c);
    } else if StartsWith(c, "IF") {
      assert ParseLine(command) == ParseIf(c);
      ParsedIfHasNoAssertion(c);
    }
  }

  lemma {:induction false} ParsedIfHasNoAssertion(c: string)
    requires StartsWith(c, "IF")
    ensures ParseIf(c).Ok? ==> NoAssertion(ParseIf(c).value)
    decreases |c|, 0, 0
  {
    var ifParts := ParseIfCommand(c[2..]);
    if ifParts.Ok? {
      ParsedLinesHaveNoAssertion(ifParts.value.thenLines);
      ParsedLinesHaveNoAssertion(ifParts.value.elseLines);
    }
  }

  lemma {:induction false} ParsedLinesHaveNoAssertion(commands: seq<string>)
    ensures ParseLines(commands).Ok? ==> NoAssertionIn(ParseLines(commands).value)
    decreases TotalLength(commands), 2, |commands|
  {
    if commands != [] && ParseLines(commands).Ok? {
      ParseLinesFirst(commands);
      var first := ParseLine(commands[0]).value;
      var rest := ParseLines(commands[1..]).value;
      ParsedLineHasNoAssertion(commands[0]);
      ParsedLinesHaveNoAssertion(commands[1..]);
      NoAssertionInCons(first, rest);
    }
  }

  /** The line `PRINT <tokens of e>`. */
  function PrintLine(e: Expr): string
    requires Printable(e)
  {
    "PRINT" + " " + Unwords(Tokens(e))
  }

  /** The line `<name> = <tokens of e>`. */
  function AssignLine(name: string, e: Expr): string
    requires Printable(e)
  {
    name + " " + "=" + " " + Unwords(Tokens(e))
  }

  /** A stripped line is parsed by the branch its classification picks. */
  lemma ParseLinePrint(line: string)
    requires Strip(line) == line && StartsWith(line, "PRINT")
    ensures ParseLine(line) == ParsePrint(line)
  {
  }

  lemma ParseLineAssignment(line: string)
    requires Strip(line) == line && !StartsWith(line, "PRINT") && '=' in line
    ensures ParseLine(line) == ParseAssignment(line)
  {
  }

  /** The `PRINT` branch parses the words after the keyword and its space. */
  lemma ParsePrintWords(line: string, words: seq<string>)
    requires Words(Strip(Drop(line, 6))) == words
    ensures ParseExpression(words).Ok? ==> ParsePrint(line) == Ok(ExprStmt(ParseExpression(words).value))
    ensures ParseExpression(words).Err? ==> ParsePrint(line) == Err(ParseExpression(words).error)
  {
  }

  lemma ParsePrintLine(line: string, words: seq<string>, e: Expr)
    requires Strip(line) == line && StartsWith(line, "PRINT")
    requires Words(Strip(Drop(line, 6))) == words && ParseExpression(words) == Ok(e)
    ensures ParseLine(line) == Ok(ExprStmt(e))
  {
    ParseLinePrint(line);
    ParsePrintWords(line, words);
  }

  /** A `PRINT` line parses to the expression its words parse to. */
  lemma PrintWords(words: seq<string>, e: Expr)
    requires words != []
    requires forall i :: 0 <= i < |words| ==> words[i] != [] && NoSpace(words[i])
    requires ParseExpression(words) == Ok(e)
    ensures ParseLine("PRINT" + " " + Unwords(words)) == Ok(ExprStmt(e))
  {
    PrintKeyword();
    KeywordLine("PRINT", words);
    ParsePrintLine("PRINT" + " " + Unwords(words), words, e);
  }

  /** The facts about the keyword that `KeywordLine` needs, kept out of the
      proof of `PrintWords`. */
  lemma PrintKeyword()
    ensures "PRINT" != [] && NoSpace("PRINT") && |"PRINT"| + 1 == 6
  {
  }

  /** A `PRINT` line written from an expression parses back to it. */
  lemma PrintLineRoundTrip(e: Expr)
    requires Printable(e)
    ensures ParseLine(PrintLine(e)) == Ok(ExprStmt(e))
  {
    ParseTokens(e);
    PrintWords(Tokens(e), e);
  }

  /** A name that does not start with `PRINT`, followed by a space, does not
      start with `PRINT` either. */
  lemma NotPrintPrefixed(name: string, words: seq<string>)
    requires name != [] && !StartsWith(name, "PRINT")
    ensures !StartsWith(name + " " + "=" + " " + Unwords(words), "PRINT")
  {
    var line := name + " " + "=" + " " + Unwords(words);
    assert line[..|name|] == name && line[|name|] == ' ';
    if |name| >= 5 {
      assert line[..5] == name[..5];
    } else if |line| >= 5 {
      assert line[..5][|name|] == ' ';
    }
  }

  /** The assignment branch on a line that splits into a name part and an
      expression part. */
  lemma ParseAssignmentParts(line: string, name: string, rest: string)
    requires Split(line, "=") == [name + " ", rest] && Strip(name + " ") == name
    ensures ParseExpression(Words(rest)).Ok? ==>
      ParseAssignment(line) == Ok(Assignment(name, ParseExpression(Words(rest)).value))
    ensures ParseExpression(Words(rest)).Err? ==>
      ParseAssignment(line) == Err(ParseExpression(Words(rest)).error)
  {
  }

  lemma ParseAssignmentLine(line: string, name: string, words: seq<string>, e: Expr)
    requires Strip(line) == line && !StartsWith(line, "PRINT") && '=' in line
    requires Split(line, "=") == [name + " ", " " + Unwords(words)]
    requires Strip(name + " ") == name && Words(" " + Unwords(words)) == words
    requires ParseExpression(words) == Ok(e)
    ensures ParseLine(line) == Ok(Assignment(name, e))
  {
    ParseLineAssignment(line);
    ParseAssignmentParts(line, name, " " + Unwords(words));
  }

  /** An assignment line parses to the assignment of the expression its
      words parse to, when the name does not start with `PRINT` and neither
      the name nor the words hold an `=`. */
  lemma AssignWords(name: string, words: seq<string>, e: Expr)
    requires name != [] && NoSpace(name) && '=' !in name && !StartsWith(name, "PRINT")
    requires words != []
    requires forall i :: 0 <= i < |words| ==> words[i] != [] && NoSpace(words[i]) && '=' !in words[i]
    requires ParseExpression(words) == Ok(e)
    ensures ParseLine(name + " " + "=" + " " + Unwords(words)) == Ok(Assignment(name, e))
  {
    SeparatedLine(name, '=', words);
    NotPrintPrefixed(name, words);
    ParseAssignmentLine(name + " " + "=" + " " + Unwords(words), name, words, e);
  }

  /** An assignment line written from a name and an expression parses back
      to that assignment, when neither holds an `=` and the name does not
      itself start with `PRINT`. */
  lemma AssignLineRoundTrip(name: string, e: Expr)
    requires ValidName(name) && '=' !in name && !StartsWith(name, "PRINT")
    requires Printable(e) && forall i :: 0 <= i < |Tokens(e)| ==> '=' !in Tokens(e)[i]
    ensures ParseLine(AssignLine(name, e)) == Ok(Assignment(name, e))
  {
    ParseTokens(e);
    AssignWords(name, Tokens(e), e);
  }
}

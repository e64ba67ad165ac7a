/**
 * The formula parser and evaluator (`parseExpression`, `evaluateAst`).
 *
 * The parser is specified by the recursive functions below, which read the
 * text at an index and return the node together with the index reached;
 * the imperative methods at the end advance the index with the same loops
 * and are proved equal to them. The six binary precedence levels share one
 * loop shape and are given by a level number:
 *   0 `||`, 1 `&&`, 2 equality, 3 comparison, 4 additive, 5 multiplicative;
 * level 6 is unary and primary.
 */
module SafeExpression {
  import opened Wrappers
  import opened Text

  datatype Value = VString(str: string) | VNumber(num: real) | VBool(b: bool) | VNull | VUndefined

  /**
   * The `operator` strings of binary and logical nodes. `OtherOp` stands for
   * any other string: it never carries one of the fifteen known spellings
   * (`WellSpelled`), so each operator string has exactly one `Op`.
   */
  datatype Op =
    | Or | And
    | StrictEq | StrictNe | LooseEq | LooseNe
    | Ge | Le | Gt | Lt
    | Add | Sub
    | Mul | Div | Mod
    | OtherOp(spelling: string)

  /** The `operator` strings of unary nodes; `OtherUnary` stands for any string other than `!` and `-`. */
  datatype UnaryOp = Not | Negate | OtherUnary(spelling: string)

  function Spelling(op: Op): string {
    match op
    case Or => "||"
    case And => "&&"
    case StrictEq => "==="
    case StrictNe => "!=="
    case LooseEq => "=="
    case LooseNe => "!="
    case Ge => ">="
    case Le => "<="
    case Gt => ">"
    case Lt => "<"
    case Add => "+"
    case Sub => "-"
    case Mul => "*"
    case Div => "/"
    case Mod => "%"
    case OtherOp(t) => t
  }

  function UnarySpelling(op: UnaryOp): string {
    match op
    case Not => "!"
    case Negate => "-"
    case OtherUnary(t) => t
  }

  /** The operator strings `evaluateAst` handles by name. */
  predicate KnownSpelling(t: string) {
    t in {"||", "&&", "===", "!==", "==", "!=", ">=", "<=", ">", "<", "+", "-", "*", "/", "%"}
  }

  /** An `OtherOp` holds an unknown spelling; the named constructors stand for the known ones. */
  predicate WellSpelled(op: Op) {
    op.OtherOp? ==> !KnownSpelling(op.spelling)
  }

  /** An `OtherUnary` holds a spelling other than `!` and `-`. */
  predicate WellSpelledUnary(op: UnaryOp) {
    op.OtherUnary? ==> op.spelling != "!" && op.spelling != "-"
  }

  /** Among well-spelled operators, the spelling determines the operator. */
  lemma SpellingInjective(a: Op, b: Op)
    requires WellSpelled(a) && WellSpelled(b)
    ensures Spelling(a) == Spelling(b) <==> a == b
  {
  }

  /** The same for unary operators. */
  lemma UnarySpellingInjective(a: UnaryOp, b: UnaryOp)
    requires WellSpelledUnary(a) && WellSpelledUnary(b)
    ensures UnarySpelling(a) == UnarySpelling(b) <==> a == b
  {
  }

  /** The AST objects: `type` is the constructor, `OtherNode` is any other `type` string. */
  datatype Node =
    | Literal(value: Value)
    | Unary(unaryOperator: UnaryOp, argument: Node)
    | Binary(operator: Op, left: Node, right: Node)
    | Logical(operator: Op, left: Node, right: Node)
    | Conditional(test: Node, consequent: Node, alternate: Node)
    | OtherNode(typeName: string)

  /**
   * `UndefinedExpression` is the TypeError raised by the argument-less
   * `parseExpression()` calls for '(' and for the branches of '?': the inner
   * call reads `expr[index]` of an undefined `expr`.
   */
  datatype ParseError =
    | UndefinedExpression
    | UnclosedString
    | UnexpectedToken(at: nat)
    | UnexpectedInput(at: nat)

  type Parsed = Result<(Node, nat), ParseError>

  // ---------------------------------------------------------------- lexical

  /** The characters `skipSpaces` skips. */
  predicate IsSpace(c: char) {
    c == ' ' || c == '\t' || c == '\n'
  }

  function SkipSpaces(s: string, i: nat): (j: nat)
    requires i <= |s|
    ensures i <= j <= |s|
    ensures j == |s| || !IsSpace(s[j])
    decreases |s| - i
  {
    if i < |s| && IsSpace(s[i]) then SkipSpaces(s, i + 1) else i
  }

  /** The number of decimal digits starting at `j`. */
  function DigitRun(s: string, j: nat): (n: nat)
    requires j <= |s|
    ensures j + n <= |s|
    ensures j + n == |s| || !IsDigit(s[j + n])
    decreases |s| - j
  {
    if j < |s| && IsDigit(s[j]) then 1 + DigitRun(s, j + 1) else 0
  }

  /** The length of the match of `^(?:\d+\.\d+|\d+)` at `j`, 0 when there is none. */
  function NumberLength(s: string, j: nat): (n: nat)
    requires j <= |s|
    ensures j + n <= |s|
    ensures n == 0 <==> DigitRun(s, j) == 0
  {
    var d := DigitRun(s, j);
    if d > 0 && j + d < |s| && s[j + d] == '.' && DigitRun(s, j + d + 1) > 0
    then d + 1 + DigitRun(s, j + d + 1)
    else d
  }

  lemma {:induction false} DigitRunDigits(s: string, j: nat)
    requires j <= |s|
    ensures AllDigits(s[j..j + DigitRun(s, j)])
    decreases |s| - j
  {
    var n := DigitRun(s, j);
    if n > 0 {
      DigitRunDigits(s, j + 1);
      assert s[j..j + n] == [s[j]] + s[j + 1..j + n];
    }
  }

  /** `parseFloat` of the matched text, as an exact decimal. */
  function NumberValue(s: string, j: nat): real
    requires j <= |s|
  {
    DigitRunDigits(s, j);
    var d := DigitRun(s, j);
    if NumberLength(s, j) > d then
      var f := DigitRun(s, j + d + 1);
      DigitRunDigits(s, j + d + 1);
      DigitsValue(s[j..j + d]) as real + DigitsValue(s[j + d + 1..j + d + 1 + f]) as real / Pow10(f) as real
    else DigitsValue(s[j..j + d]) as real
  }

  /** The first index at or after `k` holding `q`, or `|s|`. */
  function FindQuote(s: string, k: nat, q: char): (e: nat)
    requires k <= |s|
    ensures k <= e <= |s|
    ensures e < |s| ==> s[e] == q
    ensures forall x :: k <= x < e ==> s[x] != q
    decreases |s| - k
  {
    if k == |s| then |s| else if s[k] == q then k else FindQuote(s, k + 1, q)
  }

  // --------------------------------------------------------------- operators

  /** The precedence level the parser gives an operator. */
  function OpLevel(op: Op): Option<nat> {
    match op
    case Or => Some(0)
    case And => Some(1)
    case StrictEq => Some(2)
    case StrictNe => Some(2)
    case LooseEq => Some(2)
    case LooseNe => Some(2)
    case Ge => Some(3)
    case Le => Some(3)
    case Gt => Some(3)
    case Lt => Some(3)
    case Add => Some(4)
    case Sub => Some(4)
    case Mul => Some(5)
    case Div => Some(5)
    case Mod => Some(5)
    case OtherOp(_) => None
  }

  /** The level of the operators that can start with `c`: each character starts only one level's. */
  function CharLevel(c: char): Option<nat> {
    if c == '|' then Some(0)
    else if c == '&' then Some(1)
    else if c == '=' || c == '!' then Some(2)
    else if c == '>' || c == '<' then Some(3)
    else if c == '+' || c == '-' then Some(4)
    else if c == '*' || c == '/' || c == '%' then Some(5)
    else None
  }

  /**
   * The operator a level's loop recognises at `k`, longer spellings first;
   * `expr.startsWith(w, k)` is written out character by character.
   */
  function MatchOp(level: nat, s: string, k: nat): (op: Option<Op>)
    ensures op.Some? ==> 1 <= |Spelling(op.value)| <= 3 && k + |Spelling(op.value)| <= |s|
    ensures op.Some? ==> OpLevel(op.value) == Some(level)
    ensures op.Some? ==> k < |s| && CharLevel(s[k]) == Some(level)
  {
    if level == 0 then
      if k + 1 < |s| && s[k] == '|' && s[k + 1] == '|' then Some(Or) else None
    else if level == 1 then
      if k + 1 < |s| && s[k] == '&' && s[k + 1] == '&' then Some(And) else None
    else if level == 2 then
      if k + 2 < |s| && s[k] == '=' && s[k + 1] == '=' && s[k + 2] == '=' then Some(StrictEq)
      else if k + 2 < |s| && s[k] == '!' && s[k + 1] == '=' && s[k + 2] == '=' then Some(StrictNe)
      else if k + 1 < |s| && s[k] == '=' && s[k + 1] == '=' then Some(LooseEq)
      else if k + 1 < |s| && s[k] == '!' && s[k + 1] == '=' then Some(LooseNe)
      else None
    else if level == 3 then
      if k + 1 < |s| && s[k] == '>' && s[k + 1] == '=' then Some(Ge)
      else if k + 1 < |s| && s[k] == '<' && s[k + 1] == '=' then Some(Le)
      else if k < |s| && s[k] == '>' then Some(Gt)
      else if k < |s| && s[k] == '<' then Some(Lt)
      else None
    else if level == 4 then
      if k < |s| && s[k] == '+' then Some(Add)
      else if k < |s| && s[k] == '-' then Some(Sub)
      else None
    else if level == 5 then
      if k < |s| && s[k] == '*' then Some(Mul)
      else if k < |s| && s[k] == '/' then Some(Div)
      else if k < |s| && s[k] == '%' then Some(Mod)
      else None
    else None
  }

  /** Levels 0 and 1 build `LogicalExpression`, the others `BinaryExpression`. */
  function MakeNode(level: nat, op: Op, left: Node, right: Node): Node {
    if level <= 1 then Logical(op, left, right) else Binary(op, left, right)
  }

  // ----------------------------------------------------------- parser shape

  /** The level at which a node binds: its operator's level, 6 for unary and literal. */
  function LevelOf(n: Node): int {
    match n
    case Literal(_) => 6
    case Unary(_, _) => 6
    case Binary(op, _, _) => if OpLevel(op).Some? then OpLevel(op).value else -1
    case Logical(op, _, _) => if OpLevel(op).Some? then OpLevel(op).value else -1
    case Conditional(_, _, _) => -1
    case OtherNode(_) => -1
  }

  /**
   * The shape of every tree the parser returns: operators it knows, left
   * operands that bind at least as tightly and right operands that bind more
   * tightly (left associativity, no parentheses), no conditional, and string
   * literals that avoid at least one quote character.
   */
  predicate Normal(n: Node) {
    match n
    case Literal(v) => !(v.VString? && '\'' in v.str && '"' in v.str)
    case Unary(op, a) => !op.OtherUnary? && LevelOf(a) == 6 && Normal(a)
    case Binary(op, l, r) =>
      OpLevel(op).Some? && OpLevel(op).value >= 2 && Normal(l) && Normal(r)
      && LevelOf(l) >= OpLevel(op).value && LevelOf(r) > OpLevel(op).value
    case Logical(op, l, r) =>
      OpLevel(op).Some? && OpLevel(op).value <= 1 && Normal(l) && Normal(r)
      && LevelOf(l) >= OpLevel(op).value && LevelOf(r) > OpLevel(op).value
    case Conditional(_, _, _) => false
    case OtherNode(_) => false
  }

  // ------------------------------------------------------ parser (reference)

  function ParsePrimary(s: string, i: nat): (r: Parsed)
    requires i <= |s|
    ensures r.Ok? ==> i < r.value.1 <= |s| && r.value.0.Literal?
  {
    var j := SkipSpaces(s, i);
    if j < |s| && s[j] == '(' then Err(UndefinedExpression)
    else if j < |s| && (s[j] == '"' || s[j] == '\'') then StringAt(s, j)
    else if NumberLength(s, j) > 0 then
      Ok((Literal(VNumber(NumberValue(s, j))), j + NumberLength(s, j)))
    else KeywordAt(s, j)
  }

  /** A string literal opened by the quote at `j`, up to the same quote. */
  function StringAt(s: string, j: nat): (r: Parsed)
    requires j < |s| && (s[j] == '"' || s[j] == '\'')
    ensures r.Ok? ==> j < r.value.1 <= |s| && r.value.0.Literal?
  {
    var close := FindQuote(s, j + 1, s[j]);
    if close == |s| then Err(UnclosedString)
    else Ok((Literal(VString(s[j + 1..close])), close + 1))
  }

  /** The four keyword literals, matched as prefixes in this order. */
  function KeywordAt(s: string, j: nat): (r: Parsed)
    requires j <= |s|
    ensures r.Ok? ==> j < r.value.1 <= |s| && r.value.0.Literal?
  {
    if j + 4 <= |s| && s[j] == 't' && s[j + 1] == 'r' && s[j + 2] == 'u' && s[j + 3] == 'e' then
      Ok((Literal(VBool(true)), j + 4))
    else if j + 5 <= |s| && s[j] == 'f' && s[j + 1] == 'a' && s[j + 2] == 'l' && s[j + 3] == 's' && s[j + 4] == 'e' then
      Ok((Literal(VBool(false)), j + 5))
    else if j + 4 <= |s| && s[j] == 'n' && s[j + 1] == 'u' && s[j + 2] == 'l' && s[j + 3] == 'l' then
      Ok((Literal(VNull), j + 4))
    else if j + 9 <= |s| && s[j] == 'u' && s[j + 1] == 'n' && s[j + 2] == 'd' && s[j + 3] == 'e' && s[j + 4] == 'f'
      && s[j + 5] == 'i' && s[j + 6] == 'n' && s[j + 7] == 'e' && s[j + 8] == 'd' then
      Ok((Literal(VUndefined), j + 9))
    else Err(UnexpectedToken(j))
  }

  function ParseUnary(s: string, i: nat): (r: Parsed)
    requires i <= |s|
    ensures r.Ok? ==> i < r.value.1 <= |s|
    decreases |s| - i, 0
  {
    var j := SkipSpaces(s, i);
    if j < |s| && (s[j] == '!' || s[j] == '-') then
      match ParseUnary(s, j + 1)
      case Err(e) => Err(e)
      case Ok((a, k)) => Ok((Unary(if s[j] == '!' then Not else Negate, a), k))
    else ParsePrimary(s, j)
  }

  /** The operands of a level: the next level, or unary below multiplication. */
  function Operand(level: nat, s: string, i: nat): (r: Parsed)
    requires level <= 5 && i <= |s|
    ensures r.Ok? ==> i < r.value.1 <= |s|
    decreases |s| - i, 2 * (7 - level) - 1
  {
    if level == 5 then ParseUnary(s, i) else ParseLevel(level + 1, s, i)
  }

  /** One of `parseLogicalOr` ... `parseMultiplicative`. */
  function ParseLevel(level: nat, s: string, i: nat): (r: Parsed)
    requires level <= 5 && i <= |s|
    ensures r.Ok? ==> i < r.value.1 <= |s|
    decreases |s| - i, 2 * (7 - level)
  {
    match Operand(level, s, i)
    case Err(e) => Err(e)
    case Ok((n, j)) => LevelLoop(level, s, j, n)
  }

  /** The `while (true)` of a level, entered with the node built so far. */
  function LevelLoop(level: nat, s: string, j: nat, acc: Node): (r: Parsed)
    requires level <= 5 && j <= |s|
    ensures r.Ok? ==> j <= r.value.1 <= |s|
    decreases |s| - j, 0
  {
    var k := SkipSpaces(s, j);
    match MatchOp(level, s, k)
    case None => Ok((acc, k))
    case Some(op) =>
      match Operand(level, s, k + |Spelling(op)|)
      case Err(e) => Err(e)
      case Ok((right, m)) => LevelLoop(level, s, m, MakeNode(level, op, acc, right))
  }

  /** `parseTernary`: a '?' after the `||` level ends in the argument-less call. */
  function ParseTernary(s: string, i: nat): (r: Parsed)
    requires i <= |s|
    ensures r.Ok? ==> i < r.value.1 <= |s|
  {
    match ParseLevel(0, s, i)
    case Err(e) => Err(e)
    case Ok((n, j)) =>
      var k := SkipSpaces(s, j);
      if k < |s| && s[k] == '?' then Err(UndefinedExpression) else Ok((n, k))
  }

  /** `parseExpression(expr)`. */
  function Parse(s: string): (r: Result<Node, ParseError>)
  {
    match ParseTernary(s, 0)
    case Err(e) => Err(e)
    case Ok((n, j)) =>
      var k := SkipSpaces(s, j);
      if k < |s| then Err(UnexpectedInput(k)) else Ok(n)
  }

  // ------------------------------------------------ shape of the parser's output

  lemma PrimaryNormal(s: string, i: nat)
    requires i <= |s|
    ensures ParsePrimary(s, i).Ok? ==> Normal(ParsePrimary(s, i).value.0)
  {
    var j := SkipSpaces(s, i);
    if j < |s| && (s[j] == '"' || s[j] == '\'') {
      var close := FindQuote(s, j + 1, s[j]);
      if close < |s| {
        assert s[j] !in s[j + 1..close];
      }
    }
  }

  lemma {:induction false} UnaryNormal(s: string, i: nat)
    requires i <= |s|
    ensures ParseUnary(s, i).Ok? ==> Normal(ParseUnary(s, i).value.0) && LevelOf(ParseUnary(s, i).value.0) == 6
    decreases |s| - i
  {
    var j := SkipSpaces(s, i);
    if j < |s| && (s[j] == '!' || s[j] == '-') {
      UnaryNormal(s, j + 1);
    } else {
      PrimaryNormal(s, j);
    }
  }

  lemma {:induction false} OperandNormal(level: nat, s: string, i: nat)
    requires level <= 5 && i <= |s|
    ensures Operand(level, s, i).Ok? ==> Normal(Operand(level, s, i).value.0) && LevelOf(Operand(level, s, i).value.0) > level
    decreases |s| - i, 2 * (7 - level) - 1
  {
    if level == 5 {
      UnaryNormal(s, i);
    } else {
      LevelNormal(level + 1, s, i);
    }
  }

  lemma {:induction false} LevelNormal(level: nat, s: string, i: nat)
    requires level <= 5 && i <= |s|
    ensures ParseLevel(level, s, i).Ok? ==> Normal(ParseLevel(level, s, i).value.0) && LevelOf(ParseLevel(level, s, i).value.0) >= level
    decreases |s| - i, 2 * (7 - level)
  {
    OperandNormal(level, s, i);
    var first := Operand(level, s, i);
    if first.Ok? {
      LoopNormal(level, s, first.value.1, first.value.0);
    }
  }

  lemma {:induction false} LoopNormal(level: nat, s: string, j: nat, acc: Node)
    requires level <= 5 && j <= |s| && Normal(acc) && LevelOf(acc) >= level
    ensures LevelLoop(level, s, j, acc).Ok? ==> Normal(LevelLoop(level, s, j, acc).value.0) && LevelOf(LevelLoop(level, s, j, acc).value.0) >= level
    decreases |s| - j, 0
  {
    var k := SkipSpaces(s, j);
    var op := MatchOp(level, s, k);
    if op.Some? {
      var right := Operand(level, s, k + |Spelling(op.value)|);
      OperandNormal(level, s, k + |Spelling(op.value)|);
      if right.Ok? {
        MakeNodeNormal(level, op.value, acc, right.value.0);
        LoopNormal(level, s, right.value.1, MakeNode(level, op.value, acc, right.value.0));
      }
    }
  }

  /** The loop's new node obeys the precedence ladder when its parts do. */
  lemma MakeNodeNormal(level: nat, op: Op, left: Node, right: Node)
    requires level <= 5 && OpLevel(op) == Some(level)
    requires Normal(left) && LevelOf(left) >= level && Normal(right) && LevelOf(right) > level
    ensures Normal(MakeNode(level, op, left, right)) && LevelOf(MakeNode(level, op, left, right)) == level
  {
  }

  /**
   * Everything the parser returns is a normal tree: known operators,
   * precedence and left associativity, no conditional.
   */
  lemma ParseNormal(s: string)
    ensures Parse(s).Ok? ==> Normal(Parse(s).value)
  {
    LevelNormal(0, s, 0);
  }

  // ---------------------------------------------------------------- printer

  function Quote(t: string): char {
    if '\'' in t then '"' else '\''
  }

  /** Whole non-negative numbers only, which the printer can spell. */
  predicate WholeLiterals(n: Node) {
    match n
    case Literal(v) => v.VNumber? ==> v.num >= 0.0 && v.num == v.num.Floor as real
    case Unary(_, a) => WholeLiterals(a)
    case Binary(_, l, r) => WholeLiterals(l) && WholeLiterals(r)
    case Logical(_, l, r) => WholeLiterals(l) && WholeLiterals(r)
    case Conditional(t, c, a) => WholeLiterals(t) && WholeLiterals(c) && WholeLiterals(a)
    case OtherNode(_) => true
  }

  function PrintValue(v: Value): string {
    match v
    case VString(t) => [Quote(t)] + t + [Quote(t)]
    case VNumber(x) => if x >= 0.0 then NatToString(x.Floor) else "0"
    case VBool(b) => if b then "true" else "false"
    case VNull => "null"
    case VUndefined => "undefined"
  }

  /** Source text for a tree, without spaces or parentheses. */
  function Print(n: Node): string {
    match n
    case Literal(v) => PrintValue(v)
    case Unary(op, a) => UnarySpelling(op) + Print(a)
    case Binary(op, l, r) => Print(l) + Spelling(op) + Print(r)
    case Logical(op, l, r) => Print(l) + Spelling(op) + Print(r)
    case Conditional(_, _, _) => ""
    case OtherNode(_) => ""
  }

  /** The characters a printed normal tree can start with. */
  predicate PrintStart(c: char) {
    IsDigit(c) || c == '\'' || c == '"' || c == 't' || c == 'f' || c == 'n' || c == 'u' || c == '!' || c == '-'
  }

  lemma {:induction false} PrintStartsWell(n: Node)
    requires Normal(n)
    ensures |Print(n)| >= 1 && PrintStart(Print(n)[0])
  {
    match n
    case Literal(v) =>
    case Unary(op, a) =>
    case Binary(op, l, r) =>
      PrintStartsWell(l);
      assert Print(n)[0] == Print(l)[0];
    case Logical(op, l, r) =>
      PrintStartsWell(l);
      assert Print(n)[0] == Print(l)[0];
  }

  /**
   * The text at `k` ends an expression of level `level` or tighter: the input
   * ends, or an operator of a looser level begins (and so none of a tighter one).
   */
  predicate StopsBefore(level: nat, s: string, k: nat) {
    k == |s|
    || (k < |s| && CharLevel(s[k]).Some? && CharLevel(s[k]).value < level
        && MatchOp(CharLevel(s[k]).value, s, k).Some?)
  }

  lemma StopsBeforeChar(level: nat, s: string, k: nat)
    requires StopsBefore(level, s, k)
    ensures EndsLiteral(s, k)
  {
    if k < |s| {
      assert CharLevel(s[k]).Some?;
    }
  }

  /** An operator printed before a right operand is recognised exactly. */
  lemma MatchOpExact(level: nat, s: string, k: nat, op: Op)
    requires OpLevel(op) == Some(level) && StartsAt(s, k, Spelling(op))
    requires k + |Spelling(op)| < |s| && s[k + |Spelling(op)|] != '='
    ensures MatchOp(level, s, k) == Some(op)
    ensures StopsBefore(level + 1, s, k)
    ensures SkipSpaces(s, k) == k
  {
    var w := Spelling(op);
    assert s[k..k + |w|] == w;
    assert s[k] == w[0];
    if |w| >= 2 {
      assert s[k + 1] == w[1];
    }
    if |w| >= 3 {
      assert s[k + 2] == w[2];
    }
  }

  lemma StartsAtConcat(s: string, i: nat, x: string, y: string)
    requires StartsAt(s, i, x + y)
    ensures StartsAt(s, i, x) && StartsAt(s, i + |x|, y)
  {
    assert s[i..i + |x|] == (x + y)[..|x|];
    assert s[i + |x|..i + |x| + |y|] == (x + y)[|x|..];
  }

  lemma {:induction false} DigitRunOf(s: string, j: nat, d: string)
    requires StartsAt(s, j, d) && AllDigits(d)
    requires j + |d| == |s| || !IsDigit(s[j + |d|])
    ensures DigitRun(s, j) == |d|
    decreases |d|
  {
    if d != [] {
      assert s[j] == d[0];
      StartsAtConcat(s, j, [d[0]], d[1..]);
      assert [d[0]] + d[1..] == d;
      DigitRunOf(s, j + 1, d[1..]);
    }
  }

  lemma {:induction false} FindQuoteOf(s: string, k: nat, t: string, q: char)
    requires StartsAt(s, k, t + [q]) && q !in t
    ensures FindQuote(s, k, q) == k + |t|
    decreases |t|
  {
    assert s[k..k + |t| + 1] == t + [q];
    if t == [] {
      assert s[k] == q;
    } else {
      assert s[k] == t[0];
      assert s[k + 1..k + 1 + |t[1..]| + 1] == t[1..] + [q];
      FindQuoteOf(s, k + 1, t[1..], q);
    }
  }

  /** The text at `e` cannot extend a number literal that ends there. */
  predicate EndsLiteral(s: string, e: nat) {
    e == |s| || (e < |s| && !IsDigit(s[e]) && s[e] != '.')
  }

  lemma StringRoundTrip(s: string, i: nat, a: Node)
    requires a.Literal? && a.value.VString? && Quote(a.value.str) !in a.value.str
    requires StartsAt(s, i, Print(a))
    ensures StringAt(s, i) == Ok((a, i + |Print(a)|))
  {
    var t := a.value.str;
    var q := Quote(t);
    assert Print(a) == [q] + (t + [q]);
    QuotedAt(s, i, t, q);
  }

  /** Quoted text with no quote inside is read back up to its closing quote. */
  lemma QuotedAt(s: string, i: nat, t: string, q: char)
    requires StartsAt(s, i, [q] + (t + [q])) && q !in t
    ensures s[i] == q && FindQuote(s, i + 1, q) == i + 1 + |t| < |s| && s[i + 1..i + 1 + |t|] == t
  {
    StartsAtConcat(s, i, [q], t + [q]);
    assert s[i] == q;
    FindQuoteOf(s, i + 1, t, q);
    assert s[i + 1..i + 1 + |t|] == t by {
      assert s[i + 1..i + 1 + |t| + 1] == t + [q];
      assert s[i + 1..i + 1 + |t|] == s[i + 1..i + 1 + |t| + 1][..|t|];
      assert (t + [q])[..|t|] == t;
    }
  }

  lemma NumberRoundTrip(s: string, i: nat, n: nat)
    requires StartsAt(s, i, NatToString(n)) && EndsLiteral(s, i + |NatToString(n)|)
    ensures NumberLength(s, i) == |NatToString(n)|
    ensures NumberValue(s, i) == n as real
  {
    var p := NatToString(n);
    DigitRunOf(s, i, p);
    NatToStringValue(n);
    assert s[i..i + |p|] == p;
  }

  lemma KeywordRoundTrip(s: string, i: nat, a: Node)
    requires a.Literal? && (a.value.VBool? || a.value.VNull? || a.value.VUndefined?)
    requires StartsAt(s, i, Print(a))
    ensures KeywordAt(s, i) == Ok((a, i + |Print(a)|))
  {
    var p := Print(a);
    var w := s[i..i + |p|];
    assert w == p;
    match a.value
    case VBool(b) =>
      if b {
        assert p == "true";
        assert s[i] == w[0] == 't' && s[i + 1] == w[1] == 'r' && s[i + 2] == w[2] == 'u' && s[i + 3] == w[3] == 'e';
      } else {
        assert p == "false";
        assert s[i] == w[0] == 'f' && s[i + 1] == w[1] == 'a' && s[i + 2] == w[2] == 'l' && s[i + 3] == w[3] == 's'
          && s[i + 4] == w[4] == 'e';
      }
    case VNull =>
      assert p == "null";
      assert s[i] == w[0] == 'n' && s[i + 1] == w[1] == 'u' && s[i + 2] == w[2] == 'l' && s[i + 3] == w[3] == 'l';
    case VUndefined =>
      assert p == "undefined";
      assert s[i] == w[0] == 'u' && s[i + 1] == w[1] == 'n' && s[i + 2] == w[2] == 'd' && s[i + 3] == w[3] == 'e'
        && s[i + 4] == w[4] == 'f' && s[i + 5] == w[5] == 'i' && s[i + 6] == w[6] == 'n' && s[i + 7] == w[7] == 'e'
        && s[i + 8] == w[8] == 'd';
  }

  lemma PrimaryRoundTrip(s: string, i: nat, a: Node)
    requires a.Literal? && Normal(a) && WholeLiterals(a)
    requires StartsAt(s, i, Print(a)) && EndsLiteral(s, i + |Print(a)|)
    ensures ParsePrimary(s, i) == Ok((a, i + |Print(a)|))
  {
    var p := Print(a);
    assert s[i..i + |p|] == p;
    assert s[i] == p[0];
    match a.value
    case VString(t) =>
      PrimaryString(s, i);
      StringRoundTrip(s, i, a);
    case VNumber(x) =>
      var n: nat := x.Floor;
      assert p == NatToString(n);
      NumberPrimary(s, i, n);
      assert x == n as real;
    case VBool(b) =>
      PrimaryKeyword(s, i);
      KeywordRoundTrip(s, i, a);
    case VNull =>
      PrimaryKeyword(s, i);
      KeywordRoundTrip(s, i, a);
    case VUndefined =>
      PrimaryKeyword(s, i);
      KeywordRoundTrip(s, i, a);
  }

  /** A whole number printed at `i` is read back as that number. */
  lemma NumberPrimary(s: string, i: nat, n: nat)
    requires StartsAt(s, i, NatToString(n)) && EndsLiteral(s, i + |NatToString(n)|)
    ensures ParsePrimary(s, i) == Ok((Literal(VNumber(n as real)), i + |NatToString(n)|))
  {
    var p := NatToString(n);
    NumberRoundTrip(s, i, n);
    assert s[i..i + |p|] == p;
    assert s[i] == p[0];
    assert IsDigit(s[i]) by {
      assert DigitRun(s, i) > 0;
    }
    PrimaryNumber(s, i);
  }

  /** The branches `parsePrimary` takes on a quote, a digit and any other character but a space or a parenthesis. */
  lemma PrimaryString(s: string, i: nat)
    requires i < |s| && (s[i] == '"' || s[i] == '\'')
    ensures ParsePrimary(s, i) == StringAt(s, i)
  {
    assert SkipSpaces(s, i) == i;
  }

  lemma PrimaryNumber(s: string, i: nat)
    requires i < |s| && IsDigit(s[i])
    ensures ParsePrimary(s, i) == Ok((Literal(VNumber(NumberValue(s, i))), i + NumberLength(s, i)))
  {
    assert SkipSpaces(s, i) == i;
  }

  lemma PrimaryKeyword(s: string, i: nat)
    requires i < |s| && !IsSpace(s[i]) && s[i] != '(' && s[i] != '"' && s[i] != '\'' && !IsDigit(s[i])
    ensures ParsePrimary(s, i) == KeywordAt(s, i)
  {
    assert SkipSpaces(s, i) == i;
  }

  lemma UnaryStepPrimary(s: string, i: nat)
    requires i < |s| && !IsSpace(s[i]) && s[i] != '!' && s[i] != '-'
    ensures ParseUnary(s, i) == ParsePrimary(s, i)
  {
  }

  lemma UnaryStepOperator(s: string, i: nat, a: Node, e: nat)
    requires a.Unary? && !a.unaryOperator.OtherUnary? && StartsAt(s, i, UnarySpelling(a.unaryOperator))
    ensures ParseUnary(s, i + 1) == Ok((a.argument, e)) ==> ParseUnary(s, i) == Ok((a, e))
  {
    assert s[i..i + 1] == UnarySpelling(a.unaryOperator);
    assert s[i] == UnarySpelling(a.unaryOperator)[0];
  }

  lemma UnaryLiteralRoundTrip(s: string, i: nat, e: nat, a: Node)
    requires a.Literal? && Normal(a) && WholeLiterals(a)
    requires StartsAt(s, i, Print(a)) && e == i + |Print(a)| && EndsLiteral(s, e)
    ensures ParseUnary(s, i) == Ok((a, e))
  {
    var p := Print(a);
    assert !IsSpace(s[i]) && s[i] != '!' && s[i] != '-' by {
      LiteralStart(a);
      assert s[i..i + |p|] == p;
      assert s[i] == p[0];
    }
    UnaryStepPrimary(s, i);
    PrimaryRoundTrip(s, i, a);
  }

  /** A printed literal starts with a quote, a digit or a keyword's first letter. */
  lemma LiteralStart(a: Node)
    requires a.Literal?
    ensures |Print(a)| >= 1 && !IsSpace(Print(a)[0]) && Print(a)[0] != '!' && Print(a)[0] != '-'
  {
    if a.value.VNumber? && a.value.num >= 0.0 {
      var d := NatToString(a.value.num.Floor);
      assert Print(a) == d;
      assert IsDigit(d[0]);
    }
  }

  lemma {:induction false} UnaryRoundTrip(s: string, i: nat, e: nat, a: Node)
    requires Normal(a) && WholeLiterals(a) && LevelOf(a) == 6
    requires StartsAt(s, i, Print(a)) && e == i + |Print(a)| && EndsLiteral(s, e)
    ensures ParseUnary(s, i) == Ok((a, e))
    decreases a
  {
    match a
    case Literal(v) =>
      UnaryLiteralRoundTrip(s, i, e, a);
    case Unary(op, x) =>
      StartsAtConcat(s, i, UnarySpelling(op), Print(x));
      assert |UnarySpelling(op)| == 1;
      UnaryRoundTrip(s, i + 1, e, x);
      UnaryStepOperator(s, i, a, e);
    case Binary(_, _, _) => assert false;
    case Logical(_, _, _) => assert false;
    case Conditional(_, _, _) => assert false;
    case OtherNode(_) => assert false;
  }

  lemma {:induction false} OperandRoundTrip(level: nat, s: string, i: nat, e: nat, a: Node)
    requires level <= 5 && Normal(a) && WholeLiterals(a) && LevelOf(a) > level
    requires StartsAt(s, i, Print(a)) && e == i + |Print(a)| && StopsBefore(level + 1, s, e)
    ensures Operand(level, s, i) == Ok((a, e))
    decreases a, 5 * (6 - level)
  {
    if level == 5 {
      StopsBeforeChar(6, s, e);
      UnaryRoundTrip(s, i, e, a);
    } else {
      LevelRoundTrip(level + 1, s, i, e, a);
    }
  }

  /** One turn of a level's loop: an operator and its right operand. */
  lemma LoopStep(level: nat, s: string, k: nat, acc: Node, op: Op, right: Node, m: nat)
    requires level <= 5 && k <= |s| && SkipSpaces(s, k) == k && MatchOp(level, s, k) == Some(op)
    requires Operand(level, s, k + |Spelling(op)|) == Ok((right, m))
    ensures LevelLoop(level, s, k, acc) == LevelLoop(level, s, m, MakeNode(level, op, acc, right))
  {
  }

  /** The loop ends where the text stops the level. */
  lemma LoopStop(level: nat, s: string, k: nat, acc: Node)
    requires level <= 5 && k <= |s|
    requires StopsBefore(level, s, k)
    ensures LevelLoop(level, s, k, acc) == Ok((acc, k))
  {
    StopsBeforeChar(level, s, k);
    assert SkipSpaces(s, k) == k;
    if k < |s| {
      assert CharLevel(s[k]).value < level;
    }
    assert MatchOp(level, s, k).None?;
  }

  /** The operator and right operand of a printed tree of a level's own operator. */
  lemma {:induction false} OperatorRoundTrip(level: nat, s: string, k: nat, e: nat, op: Op, l: Node, r: Node)
    requires level <= 5 && OpLevel(op) == Some(level)
    requires Normal(r) && WholeLiterals(r) && LevelOf(r) > level
    requires StartsAt(s, k, Spelling(op) + Print(r))
    requires e == k + |Spelling(op)| + |Print(r)| && StopsBefore(level + 1, s, e)
    ensures StopsBefore(level + 1, s, k)
    ensures LevelLoop(level, s, k, l) == LevelLoop(level, s, e, MakeNode(level, op, l, r))
    decreases r, 5 * (6 - level) + 1
  {
    OperatorAt(level, s, k, op, r);
    assert Operand(level, s, k + |Spelling(op)|) == Ok((r, e)) by {
      OperandRoundTrip(level, s, k + |Spelling(op)|, e, r);
    }
    LoopStep(level, s, k, l, op, r, e);
  }

  /** A printed operator followed by a printed operand is read as that operator. */
  lemma OperatorAt(level: nat, s: string, k: nat, op: Op, r: Node)
    requires OpLevel(op) == Some(level) && Normal(r)
    requires StartsAt(s, k, Spelling(op) + Print(r))
    ensures SkipSpaces(s, k) == k
    ensures MatchOp(level, s, k) == Some(op)
    ensures StopsBefore(level + 1, s, k)
    ensures StartsAt(s, k + |Spelling(op)|, Print(r))
  {
    PrintStartsWell(r);
    OperatorBefore(level, s, k, op, Print(r));
  }

  /** The same, for any operand text that does not start with `=`. */
  lemma OperatorBefore(level: nat, s: string, k: nat, op: Op, t: string)
    requires OpLevel(op) == Some(level) && |t| >= 1 && t[0] != '='
    requires StartsAt(s, k, Spelling(op) + t)
    ensures SkipSpaces(s, k) == k
    ensures MatchOp(level, s, k) == Some(op)
    ensures StopsBefore(level + 1, s, k)
    ensures StartsAt(s, k + |Spelling(op)|, t)
  {
    var w := Spelling(op);
    StartsAtConcat(s, k, w, t);
    assert s[k + |w|..k + |w| + |t|] == t;
    assert s[k + |w|] == t[0];
    MatchOpExact(level, s, k, op);
  }

  /** Parsing a printed tree at a level stops inside that level's loop with the tree built. */
  lemma {:induction false} LevelRoundTripOpen(level: nat, s: string, i: nat, e: nat, a: Node)
    requires level <= 5 && Normal(a) && WholeLiterals(a) && LevelOf(a) >= level
    requires StartsAt(s, i, Print(a)) && e == i + |Print(a)| && StopsBefore(level + 1, s, e)
    ensures ParseLevel(level, s, i) == LevelLoop(level, s, e, a)
    decreases a, 5 * (6 - level) + 3
  {
    if LevelOf(a) > level {
      assert Operand(level, s, i) == Ok((a, e)) by {
        OperandRoundTrip(level, s, i, e, a);
      }
      LevelFromOperand(level, s, i, e, a);
    } else {
      OperatorTree(level, a);
      assert StartsAt(s, i, Print(a.left)) && StartsAt(s, i + |Print(a.left)|, Spelling(a.operator) + Print(a.right)) by {
        StartsAtConcat(s, i, Print(a.left), Spelling(a.operator) + Print(a.right));
      }
      LevelRoundTripOperator(level, s, i, i + |Print(a.left)|, e, a.operator, a.left, a.right);
    }
  }

  /** A level starts with its first operand and continues with its loop. */
  lemma LevelFromOperand(level: nat, s: string, i: nat, e: nat, a: Node)
    requires level <= 5 && i <= |s| && Operand(level, s, i) == Ok((a, e))
    ensures ParseLevel(level, s, i) == LevelLoop(level, s, e, a)
  {
  }

  /** A normal tree below level 6 is an operator node of its own level, printed infix. */
  lemma OperatorTree(level: nat, a: Node)
    requires level <= 5 && Normal(a) && LevelOf(a) == level
    ensures (a.Binary? || a.Logical?) && a == MakeNode(level, a.operator, a.left, a.right)
    ensures OpLevel(a.operator) == Some(level) && Normal(a.left) && Normal(a.right)
    ensures LevelOf(a.left) >= level && LevelOf(a.right) > level
    ensures WholeLiterals(a) ==> WholeLiterals(a.left) && WholeLiterals(a.right)
    ensures Print(a) == Print(a.left) + (Spelling(a.operator) + Print(a.right))
  {
    match a
    case Binary(op, l, r) =>
    case Logical(op, l, r) =>
    case Literal(_) => assert false;
    case Unary(_, _) => assert false;
    case Conditional(_, _, _) => assert false;
    case OtherNode(_) => assert false;
  }

  lemma {:induction false} LevelRoundTripOperator(level: nat, s: string, i: nat, k: nat, e: nat, op: Op, l: Node, r: Node)
    requires level <= 5 && OpLevel(op) == Some(level)
    requires Normal(l) && WholeLiterals(l) && LevelOf(l) >= level
    requires Normal(r) && WholeLiterals(r) && LevelOf(r) > level
    requires StartsAt(s, i, Print(l)) && k == i + |Print(l)|
    requires StartsAt(s, k, Spelling(op) + Print(r))
    requires e == k + |Spelling(op)| + |Print(r)| && StopsBefore(level + 1, s, e)
    ensures ParseLevel(level, s, i) == LevelLoop(level, s, e, MakeNode(level, op, l, r))
    decreases MakeNode(level, op, l, r), 5 * (6 - level) + 2
  {
    OperatorRoundTrip(level, s, k, e, op, l, r);
    LevelRoundTripOpen(level, s, i, k, l);
  }

  lemma {:induction false} LevelRoundTrip(level: nat, s: string, i: nat, e: nat, a: Node)
    requires level <= 5 && Normal(a) && WholeLiterals(a) && LevelOf(a) >= level
    requires StartsAt(s, i, Print(a)) && e == i + |Print(a)| && StopsBefore(level, s, e)
    ensures ParseLevel(level, s, i) == Ok((a, e))
    decreases a, 5 * (6 - level) + 4
  {
    LevelRoundTripOpen(level, s, i, e, a);
    LoopStop(level, s, e, a);
  }

  /**
   * Every normal tree with whole-number literals is read back from its
   * printed text: together with `Parse` always returning a normal tree, this
   * states the precedence ladder and left associativity.
   */
  lemma RoundTrip(a: Node)
    requires Normal(a) && WholeLiterals(a)
    ensures Parse(Print(a)) == Ok(a)
  {
    var s := Print(a);
    assert StartsAt(s, 0, s);
    LevelRoundTrip(0, s, 0, |s|, a);
  }

  /** `1-2-3` groups to the left. */
  lemma LeftAssociative()
    ensures Parse("1-2-3") == Ok(Binary(Sub, Binary(Sub, Literal(VNumber(1.0)), Literal(VNumber(2.0))), Literal(VNumber(3.0))))
  {
    var a := Binary(Sub, Binary(Sub, Literal(VNumber(1.0)), Literal(VNumber(2.0))), Literal(VNumber(3.0)));
    RoundTrip(a);
    assert Print(a) == "1-2-3";
  }

  /** `1+2*3` binds `*` tighter than `+`. */
  lemma MultiplicationBindsTighter()
    ensures Parse("1+2*3") == Ok(Binary(Add, Literal(VNumber(1.0)), Binary(Mul, Literal(VNumber(2.0)), Literal(VNumber(3.0)))))
  {
    var b := Binary(Add, Literal(VNumber(1.0)), Binary(Mul, Literal(VNumber(2.0)), Literal(VNumber(3.0))));
    RoundTrip(b);
    assert Print(b) == "1+2*3";
  }

  /** An error of the first operand reaches the top of every level. */
  lemma {:induction false} LeadingErrorPropagates(level: nat, s: string, i: nat, e: ParseError)
    requires level <= 5 && i <= |s| && ParseUnary(s, i) == Err(e)
    ensures ParseLevel(level, s, i) == Err(e)
    decreases 5 - level
  {
    if level < 5 {
      LeadingErrorPropagates(level + 1, s, i, e);
    }
  }

  /** A parenthesis where an operand starts always fails: the inner call has no input. */
  lemma LeadingParenthesisFails(s: string)
    requires SkipSpaces(s, 0) < |s| && s[SkipSpaces(s, 0)] == '('
    ensures Parse(s) == Err(UndefinedExpression)
  {
    LeadingErrorPropagates(0, s, 0, UndefinedExpression);
  }

  /** A ternary always fails the same way, so `Parse` never returns a conditional. */
  lemma TernaryFails(s: string)
    requires ParseLevel(0, s, 0).Ok?
    requires var k := SkipSpaces(s, ParseLevel(0, s, 0).value.1); k < |s| && s[k] == '?'
    ensures Parse(s) == Err(UndefinedExpression)
  {
  }

  lemma UnclosedStringFails()
    ensures Parse("'abc") == Err(UnclosedString)
  {
    var s := "'abc";
    assert FindQuote(s, 1, '\'') == 4;
    LeadingErrorPropagates(0, s, 0, UnclosedString);
  }

  /** An operand followed by text that starts no operator is the whole expression of every level. */
  lemma {:induction false} SingleOperand(level: nat, s: string, i: nat, a: Node, j: nat)
    requires level <= 5 && i <= |s| && j <= |s| && ParseUnary(s, i) == Ok((a, j))
    requires SkipSpaces(s, j) == |s| || CharLevel(s[SkipSpaces(s, j)]).None?
    ensures ParseLevel(level, s, i) == Ok((a, SkipSpaces(s, j)))
    decreases 5 - level
  {
    var k := SkipSpaces(s, j);
    assert SkipSpaces(s, k) == k;
    assert MatchOp(level, s, k).None?;
    if level < 5 {
      SingleOperand(level + 1, s, i, a, j);
    }
  }

  /** `m n` (such as `1 2`): the parse stops after `m` and the rest is unexpected. */
  lemma TrailingInputFails(m: nat, n: nat)
    ensures Parse(NatToString(m) + " " + NatToString(n)) == Err(UnexpectedInput(|NatToString(m)| + 1))
  {
    var p, q := NatToString(m), NatToString(n);
    var s := p + " " + q;
    var a := Literal(VNumber(m as real));
    assert s[..|p|] == p && s[|p|] == ' ' && s[|p| + 1] == q[0];
    NumberOperand(s, m);
    SpaceThenDigit(s, |p|);
    UnexpectedAfterOperand(s, a, |p|);
  }

  /** A space and then a digit: the digit is where the next token starts, and it is no operator. */
  lemma SpaceThenDigit(s: string, k: nat)
    requires k + 1 < |s| && s[k] == ' ' && IsDigit(s[k + 1])
    ensures SkipSpaces(s, k) == k + 1 && CharLevel(s[k + 1]).None? && s[k + 1] != '?'
  {
    assert SkipSpaces(s, k + 1) == k + 1;
  }

  /** A whole number at the start of the text, not followed by a digit or a dot, is one operand. */
  lemma NumberOperand(s: string, m: nat)
    requires StartsAt(s, 0, NatToString(m)) && EndsLiteral(s, |NatToString(m)|)
    ensures ParseUnary(s, 0) == Ok((Literal(VNumber(m as real)), |NatToString(m)|))
  {
    var a := Literal(VNumber(m as real));
    assert Print(a) == NatToString(m);
    UnaryLiteralRoundTrip(s, 0, |NatToString(m)|, a);
  }

  /** An operand followed by text that is neither an operator nor `?` leaves that text unexpected. */
  lemma UnexpectedAfterOperand(s: string, a: Node, j: nat)
    requires j <= |s| && ParseUnary(s, 0) == Ok((a, j))
    requires SkipSpaces(s, j) < |s| && CharLevel(s[SkipSpaces(s, j)]).None? && s[SkipSpaces(s, j)] != '?'
    ensures Parse(s) == Err(UnexpectedInput(SkipSpaces(s, j)))
  {
    var k := SkipSpaces(s, j);
    SingleOperand(0, s, 0, a, j);
    assert SkipSpaces(s, k) == k;
    assert ParseTernary(s, 0) == Ok((a, k));
  }

  // -------------------------------------------------------------- evaluator

  datatype EvalError =
    | UnsupportedUnary(op: string)
    | UnsupportedOperator(op: string)
    | UnsupportedLogical(op: string)
    | UnknownNodeType(typeName: string)

  /**
   * JavaScript's `+ - * / % > < >= <= == !=` with their coercions, and unary
   * minus; the model takes them as given. Strict equality is exact on these
   * values, so it is written out.
   */
  datatype Primitives = Primitives(binary: (Op, Value, Value) -> Value, negate: Value -> Value)

  /** JavaScript truthiness. */
  predicate Truthy(v: Value) {
    match v
    case VString(t) => t != ""
    case VNumber(x) => x != 0.0
    case VBool(b) => b
    case VNull => false
    case VUndefined => false
  }

  /** The thirteen operators of the `BinaryExpression` switch. */
  predicate IsBinaryOperator(op: Op) {
    OpLevel(op).Some? && OpLevel(op).value >= 2
  }

  function Evaluate(n: Node, p: Primitives): (r: Result<Value, EvalError>)
    ensures n.Literal? ==> r == Ok(n.value)
    ensures n.OtherNode? ==> r == Err(UnknownNodeType(n.typeName))
  {
    match n
    case Literal(v) => Ok(v)
    case Unary(op, a) =>
      if op == Not then
        (match Evaluate(a, p)
         case Err(e) => Err(e)
         case Ok(v) => Ok(VBool(!Truthy(v))))
      else if op == Negate then
        (match Evaluate(a, p)
         case Err(e) => Err(e)
         case Ok(v) => Ok(p.negate(v)))
      else Err(UnsupportedUnary(UnarySpelling(op)))
    case Binary(op, l, r) =>
      (match Evaluate(l, p)
       case Err(e) => Err(e)
       case Ok(lv) =>
         (match Evaluate(r, p)
          case Err(e) => Err(e)
          case Ok(rv) =>
            if op == StrictEq then Ok(VBool(lv == rv))
            else if op == StrictNe then Ok(VBool(lv != rv))
            else if IsBinaryOperator(op) then Ok(p.binary(op, lv, rv))
            else Err(UnsupportedOperator(Spelling(op)))))
    case Logical(op, l, r) =>
      if op == And then
        (match Evaluate(l, p)
         case Err(e) => Err(e)
         case Ok(lv) => if Truthy(lv) then Evaluate(r, p) else Ok(lv))
      else if op == Or then
        (match Evaluate(l, p)
         case Err(e) => Err(e)
         case Ok(lv) => if Truthy(lv) then Ok(lv) else Evaluate(r, p))
      else Err(UnsupportedLogical(Spelling(op)))
    case Conditional(t, c, a) =>
      (match Evaluate(t, p)
       case Err(e) => Err(e)
       case Ok(tv) => if Truthy(tv) then Evaluate(c, p) else Evaluate(a, p))
    case OtherNode(name) => Err(UnknownNodeType(name))
  }

  /** `&&` returns a falsy left operand without looking at the right one. */
  lemma AndShortCircuits(l: Node, r1: Node, r2: Node, p: Primitives)
    requires Evaluate(l, p).Ok? && !Truthy(Evaluate(l, p).value)
    ensures Evaluate(Logical(And, l, r1), p) == Evaluate(Logical(And, l, r2), p) == Evaluate(l, p)
  {
  }

  /** `||` returns a truthy left operand without looking at the right one. */
  lemma OrShortCircuits(l: Node, r1: Node, r2: Node, p: Primitives)
    requires Evaluate(l, p).Ok? && Truthy(Evaluate(l, p).value)
    ensures Evaluate(Logical(Or, l, r1), p) == Evaluate(Logical(Or, l, r2), p) == Evaluate(l, p)
  {
  }

  /** Otherwise both return the right operand's outcome. */
  lemma LogicalTakesRight(l: Node, r: Node, p: Primitives)
    requires Evaluate(l, p).Ok?
    ensures Truthy(Evaluate(l, p).value) ==> Evaluate(Logical(And, l, r), p) == Evaluate(r, p)
    ensures !Truthy(Evaluate(l, p).value) ==> Evaluate(Logical(Or, l, r), p) == Evaluate(r, p)
  {
  }

  /** A conditional's value is the chosen branch's; the other branch may even fail. */
  lemma ConditionalChoosesOneBranch(t: Node, c: Node, a1: Node, a2: Node, p: Primitives)
    requires Evaluate(t, p).Ok? && Truthy(Evaluate(t, p).value)
    ensures Evaluate(Conditional(t, c, a1), p) == Evaluate(Conditional(t, c, a2), p) == Evaluate(c, p)
  {
  }

  /**
   * An unknown unary or logical operator fails before its operands are
   * evaluated; an unknown binary operator only after both operands succeed.
   */
  lemma UnknownOperatorsFail(op: Op, u: UnaryOp, a: Node, b: Node, p: Primitives)
    ensures u.OtherUnary? ==> Evaluate(Unary(u, a), p) == Err(UnsupportedUnary(u.spelling))
    ensures op != And && op != Or ==> Evaluate(Logical(op, a, b), p) == Err(UnsupportedLogical(Spelling(op)))
    ensures !IsBinaryOperator(op) && Evaluate(a, p).Ok? && Evaluate(b, p).Ok?
      ==> Evaluate(Binary(op, a, b), p) == Err(UnsupportedOperator(Spelling(op)))
    ensures Evaluate(a, p).Err? ==> Evaluate(Binary(op, a, b), p) == Evaluate(a, p)
  {
  }

  /** Normal trees never reach an evaluator error: `Parse` output always evaluates. */
  lemma {:induction false} NormalEvaluates(n: Node, p: Primitives)
    requires Normal(n)
    ensures Evaluate(n, p).Ok?
  {
    match n
    case Literal(_) =>
    case Unary(_, a) => NormalEvaluates(a, p);
    case Binary(_, l, r) => NormalEvaluates(l, p); NormalEvaluates(r, p);
    case Logical(_, l, r) => NormalEvaluates(l, p); NormalEvaluates(r, p);
  }

  lemma ParsedEvaluates(s: string, p: Primitives)
    requires Parse(s).Ok?
    ensures Evaluate(Parse(s).value, p).Ok?
  {
    ParseNormal(s);
    NormalEvaluates(Parse(s).value, p);
  }

  // ------------------------------------------------- parser (as the source runs it)

  method SkipSpacesAt(s: string, i: nat) returns (j: nat)
    requires i <= |s|
    ensures j == SkipSpaces(s, i)
  {
    j := i;
    while j < |s| && IsSpace(s[j])
      invariant i <= j <= |s|
      invariant SkipSpaces(s, j) == SkipSpaces(s, i)
      decreases |s| - j
    {
      j := j + 1;
    }
  }

  /** The loop of `parsePrimary` that collects a string literal's characters. */
  method ReadString(s: string, start: nat, quote: char) returns (str: string, index: nat)
    requires start <= |s|
    ensures index == FindQuote(s, start, quote) && str == s[start..index]
  {
    index := start;
    str := "";
    while index < |s| && s[index] != quote
      invariant start <= index <= |s|
      invariant str == s[start..index]
      invariant FindQuote(s, index, quote) == FindQuote(s, start, quote)
      decreases |s| - index
    {
      str := str + [s[index]];
      index := index + 1;
    }
  }

  method ParsePrimaryAt(s: string, i: nat) returns (r: Parsed)
    requires i <= |s|
    ensures r == ParsePrimary(s, i)
  {
    var index := SkipSpacesAt(s, i);
    if index < |s| && s[index] == '(' {
      return Err(UndefinedExpression);
    }
    if index < |s| && (s[index] == '"' || s[index] == '\'') {
      var str, close := ReadString(s, index + 1, s[index]);
      if close == |s| {
        return Err(UnclosedString);
      }
      return Ok((Literal(VString(str)), close + 1));
    }
    var n := NumberLength(s, index);
    if n > 0 {
      return Ok((Literal(VNumber(NumberValue(s, index))), index + n));
    }
    r := KeywordAt(s, index);
  }

  method ParseUnaryAt(s: string, i: nat) returns (r: Parsed)
    requires i <= |s|
    ensures r == ParseUnary(s, i)
    decreases |s| - i, 0
  {
    var index := SkipSpacesAt(s, i);
    if index < |s| && (s[index] == '!' || s[index] == '-') {
      var argument := ParseUnaryAt(s, index + 1);
      if argument.Err? {
        return Err(argument.error);
      }
      var op := if s[index] == '!' then Not else Negate;
      return Ok((Unary(op, argument.value.0), argument.value.1));
    }
    r := ParsePrimaryAt(s, index);
  }

  method OperandAt(level: nat, s: string, i: nat) returns (r: Parsed)
    requires level <= 5 && i <= |s|
    ensures r == Operand(level, s, i)
    decreases |s| - i, 2 * (7 - level) - 1
  {
    if level == 5 {
      r := ParseUnaryAt(s, i);
    } else {
      r := ParseLevelAt(level + 1, s, i);
    }
  }

  method ParseLevelAt(level: nat, s: string, i: nat) returns (r: Parsed)
    requires level <= 5 && i <= |s|
    ensures r == ParseLevel(level, s, i)
    decreases |s| - i, 2 * (7 - level)
  {
    var first := OperandAt(level, s, i);
    if first.Err? {
      return Err(first.error);
    }
    var node, index := first.value.0, first.value.1;
    while true
      invariant i < index <= |s|
      invariant LevelLoop(level, s, index, node) == ParseLevel(level, s, i)
      decreases |s| - index
    {
      index := SkipSpacesAt(s, index);
      var op := MatchOp(level, s, index);
      if op.None? {
        return Ok((node, index));
      }
      var right := OperandAt(level, s, index + |Spelling(op.value)|);
      if right.Err? {
        return Err(right.error);
      }
      node := MakeNode(level, op.value, node, right.value.0);
      index := right.value.1;
    }
  }

  method ParseExpression(s: string) returns (r: Result<Node, ParseError>)
    ensures r == Parse(s)
  {
    var result := ParseLevelAt(0, s, 0);
    if result.Err? {
      return Err(result.error);
    }
    var node := result.value.0;
    var index := SkipSpacesAt(s, result.value.1);
    if index < |s| && s[index] == '?' {
      return Err(UndefinedExpression);
    }
    index := SkipSpacesAt(s, index);
    if index < |s| {
      return Err(UnexpectedInput(index));
    }
    r := Ok(node);
  }
}

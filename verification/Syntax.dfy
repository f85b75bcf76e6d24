/** Tokens and expression trees of the operator language, and the printer that puts in only
    the parentheses that precedence and associativity call for. */
module Syntax {

  datatype BinOp =
    | PipePipe | AmpAmp | Pipe | Caret | Amp | EqualEqual | NotEqual
    | Less | LessEqual | Greater | GreaterEqual | QuestionQuestion
    | LessLess | GreaterGreater | Plus | Minus | Slash | Percent

  datatype AssignOp =
    | Equal | PlusEqual | MinusEqual | StarEqual | SlashEqual | PercentEqual
    | AmpEqual | PipeEqual | CaretEqual | LessLessEqual | GreaterGreaterEqual

  /** `Operator` covers the tokens that can be binary operators; minus and ampersand are also
      prefix operators. */
  datatype TokenKind =
    | Identifier | IntegerLiteral | LParen | RParen
    | Operator(op: BinOp) | Assignment(assign: AssignOp) | Bang | Tilde
    | Question | Colon | Comma | Semicolon | Eof

  datatype Token = Token(kind: TokenKind, spelling: string, newlineBefore: bool)

  datatype PrefixOp = Not | Negate | Complement | AddressOf

  datatype Expr =
    | Name(name: string)
    | Number(text: string)
    | Binary(left: Expr, op: BinOp, right: Expr)
    | Assign(target: Expr, assign: AssignOp, value: Expr)
    | Ternary(condition: Expr, whenTrue: Expr, whenFalse: Expr)
    | Unary(prefix: PrefixOp, operand: Expr)

  // ---------------------------------------------------------------- the ladder as numbers

  const ASSIGNMENT: nat := 0
  const TERNARY: nat := 1
  const LOGICAL_OR: nat := 2
  const LOGICAL_AND: nat := 3
  const BITWISE_OR: nat := 4
  const BITWISE_XOR: nat := 5
  const BITWISE_AND: nat := 6
  const EQUALITY: nat := 7
  const RELATIONAL: nat := 8
  const NULL_COALESCING: nat := 9
  const SHIFT: nat := 10
  const ADDITIVE: nat := 11
  const MULTIPLICATIVE: nat := 12
  const PREFIX: nat := 13
  const POSTFIX: nat := 14

  function OpLevel(op: BinOp): (level: nat)
    ensures LOGICAL_OR <= level <= MULTIPLICATIVE
  {
    match op
    case PipePipe => LOGICAL_OR
    case AmpAmp => LOGICAL_AND
    case Pipe => BITWISE_OR
    case Caret => BITWISE_XOR
    case Amp => BITWISE_AND
    case EqualEqual | NotEqual => EQUALITY
    case Less | LessEqual | Greater | GreaterEqual => RELATIONAL
    case QuestionQuestion => NULL_COALESCING
    case LessLess | GreaterGreater => SHIFT
    case Plus | Minus => ADDITIVE
    case Slash | Percent => MULTIPLICATIVE
  }

  function ExprLevel(e: Expr): (level: nat)
    ensures level <= POSTFIX
  {
    match e
    case Name(_) => POSTFIX
    case Number(_) => POSTFIX
    case Unary(_, _) => PREFIX
    case Binary(_, op, _) => OpLevel(op)
    case Ternary(_, _, _) => TERNARY
    case Assign(_, _, _) => ASSIGNMENT
  }

  // ---------------------------------------------------------------- printing

  function PrefixKind(op: PrefixOp): TokenKind {
    match op
    case Not => Bang
    case Negate => Operator(Minus)
    case Complement => Tilde
    case AddressOf => Operator(Amp)
  }

  /** A token on the current line. */
  function Tok(kind: TokenKind): Token {
    Token(kind, "", false)
  }

  /** The rendering of e where an expression of at least this level is expected. */
  function Print(e: Expr, level: nat): (tokens: seq<Token>)
    ensures |tokens| > 0
    decreases e, 1
  {
    if ExprLevel(e) < level then [Tok(LParen)] + PrintBare(e) + [Tok(RParen)] else PrintBare(e)
  }

  function PrintBare(e: Expr): (tokens: seq<Token>)
    ensures |tokens| > 0
    decreases e, 0
  {
    match e
    case Name(n) => [Token(Identifier, n, false)]
    case Number(t) => [Token(IntegerLiteral, t, false)]
    case Unary(op, x) => [Tok(PrefixKind(op))] + Print(x, PREFIX)
    case Binary(a, op, b) => Print(a, OpLevel(op)) + [Tok(Operator(op))] + Print(b, OpLevel(op) + 1)
    case Ternary(c, t, f) => Print(c, LOGICAL_OR) + [Tok(Question)] + Print(t, TERNARY) + [Tok(Colon)]
      + Print(f, TERNARY)
    case Assign(t, op, v) => Print(t, TERNARY) + [Tok(Assignment(op))] + Print(v, ASSIGNMENT)
  }

  // ---------------------------------------------------------------- yields

  /** A token without its layout. */
  datatype Symbol = Symbol(kind: TokenKind, spelling: string)

  predicate HasText(kind: TokenKind) {
    kind.Identifier? || kind.IntegerLiteral?
  }

  function SymbolOf(t: Token): Symbol {
    Symbol(t.kind, if HasText(t.kind) then t.spelling else "")
  }

  /** The leaves and operators of a tree from left to right. */
  function Yield(e: Expr): seq<Symbol> {
    match e
    case Name(n) => [Symbol(Identifier, n)]
    case Number(t) => [Symbol(IntegerLiteral, t)]
    case Unary(op, x) => [Symbol(PrefixKind(op), "")] + Yield(x)
    case Binary(a, op, b) => Yield(a) + [Symbol(Operator(op), "")] + Yield(b)
    case Ternary(c, t, f) => Yield(c) + [Symbol(Question, "")] + Yield(t) + [Symbol(Colon, "")] + Yield(f)
    case Assign(t, op, v) => Yield(t) + [Symbol(Assignment(op), "")] + Yield(v)
  }

  /** The symbols of a token list, parentheses left out. */
  function WithoutParens(tokens: seq<Token>): seq<Symbol> {
    if tokens == [] then []
    else if tokens[0].kind == LParen || tokens[0].kind == RParen then WithoutParens(tokens[1..])
    else [SymbolOf(tokens[0])] + WithoutParens(tokens[1..])
  }
}

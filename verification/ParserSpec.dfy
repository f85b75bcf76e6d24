/** What the expression parser computes, as a function of the token list and a position. */
module ParserSpec {
  import opened Syntax

  /** `NoExpr` is the null result of the parser, after an error has been reported. `Beyond`
      is reached where the parser goes on to a construct that is not modelled: a call. */
  datatype Outcome = Parsed(expr: Expr, next: nat) | NoExpr | Beyond

  const END := Token(Eof, "", false)

  function At(toks: seq<Token>, i: nat): Token {
    if i < |toks| then toks[i] else END
  }

  // ---------------------------------------------------------------- the typed-lambda probe

  function Opens(kind: TokenKind): nat {
    match kind
    case Operator(Less) => 1
    case Operator(LessEqual) => 1
    case Operator(LessLess) => 2
    case Assignment(LessLessEqual) => 2
    case _ => 0
  }

  function Closes(kind: TokenKind): nat {
    match kind
    case Operator(Greater) => 1
    case Operator(GreaterEqual) => 1
    case Operator(GreaterGreater) => 2
    case Assignment(GreaterGreaterEqual) => 2
    case _ => 0
  }

  /** The test that follows the scan; a name may also start with a character outside ASCII. */
  predicate StartsWithLetter(spelling: string) {
    spelling != "" && ('a' <= spelling[0] <= 'z' || 'A' <= spelling[0] <= 'Z' || spelling[0] == '_')
  }

  /** A name whose first character the probe takes for a letter. */
  predicate IsLetterName(t: Token) {
    t.kind == Identifier && StartsWithLetter(t.spelling)
  }

  /** The character scan that starts at a `<` after `( name` and counts angle brackets up to
      the matching `>`, on the same line and before any `)`. It succeeds when an ASCII letter or
      an underscore follows: the bracket is then the last character of its token, and the next
      token is a name that starts with it. */
  predicate ProbeFinds(toks: seq<Token>, i: nat, depth: int)
    decreases |toks| - i
  {
    if i >= |toks| || toks[i].kind == Eof || toks[i].kind == RParen || (depth > 0 && toks[i].newlineBefore) then false
    else
      var kind := toks[i].kind;
      if 1 <= depth <= Closes(kind) then
        depth == Closes(kind) && kind.Operator? && kind != Operator(GreaterEqual) && IsLetterName(At(toks, i + 1))
      else ProbeFinds(toks, i + 1, depth + Opens(kind) - Closes(kind))
  }

  /** After the parenthesis at position i the parser believes it sees lambda parameters. */
  predicate LooksLikeLambda(toks: seq<Token>, i: nat) {
    At(toks, i + 1).kind == Identifier &&
    match At(toks, i + 2).kind
    case Identifier => true
    case Question => true
    case Operator(Less) => ProbeFinds(toks, i + 2, 0)
    case _ => false
  }

  // ---------------------------------------------------------------- the ladder

  /** Whether a binary operator of this level continues an expression at token t. The
      operators that could start a new statement must be on the same line. */
  predicate Continues(t: Token, level: nat) {
    && t.kind.Operator? && OpLevel(t.kind.op) == level
    && !(t.newlineBefore && (level == BITWISE_AND || level == ADDITIVE))
  }

  function ParseAssignment(toks: seq<Token>, i: nat): (r: Outcome)
    ensures r.Parsed? ==> i < r.next <= |toks|
    decreases |toks| - i, 20
  {
    match ParseTernary(toks, i)
    case Parsed(left, j) =>
      (match At(toks, j).kind
       case Assignment(op) =>
         (match ParseAssignment(toks, j + 1)
          case Parsed(right, k) => Parsed(Assign(left, op, right), k)
          case other => other)
       case _ => Parsed(left, j))
    case other => other
  }

  function ParseTernary(toks: seq<Token>, i: nat): (r: Outcome)
    ensures r.Parsed? ==> i < r.next <= |toks|
    decreases |toks| - i, 19
  {
    match ParseLevel(toks, i, LOGICAL_OR)
    case Parsed(c, j) =>
      if At(toks, j).kind != Question then Parsed(c, j)
      else
        (match ParseTernary(toks, j + 1)
         case Parsed(t, k) =>
           if At(toks, k).kind != Colon then NoExpr
           else
             (match ParseTernary(toks, k + 1)
              case Parsed(f, n) => Parsed(Ternary(c, t, f), n)
              case other => other)
         case other => other)
    case other => other
  }

  /** The left-associative levels and what lies below them. */
  function ParseLevel(toks: seq<Token>, i: nat, level: nat): (r: Outcome)
    requires LOGICAL_OR <= level <= PREFIX
    ensures r.Parsed? ==> i < r.next <= |toks|
    decreases |toks| - i, 18 - level, 1
  {
    if level == PREFIX then ParsePrefix(toks, i)
    else
      match ParseLevel(toks, i, level + 1)
      case Parsed(left, j) => Fold(toks, level, left, j)
      case other => other
  }

  /** The loop of one level, with what has been parsed on its left. */
  function Fold(toks: seq<Token>, level: nat, left: Expr, i: nat): (r: Outcome)
    requires LOGICAL_OR <= level < PREFIX && i <= |toks|
    ensures r.Parsed? ==> i <= r.next <= |toks|
    decreases |toks| - i, 18 - level, 0
  {
    if !Continues(At(toks, i), level) then Parsed(left, i)
    else
      match ParseLevel(toks, i + 1, level + 1)
      case Parsed(right, j) => Fold(toks, level, Binary(left, At(toks, i).kind.op, right), j)
      case other => other
  }

  function PrefixOf(kind: TokenKind): (op: PrefixOp)
    requires kind == Bang || kind == Tilde || kind == Operator(Minus) || kind == Operator(Amp)
    ensures PrefixKind(op) == kind
  {
    match kind
    case Bang => Not
    case Tilde => Complement
    case Operator(Minus) => Negate
    case _ => AddressOf
  }

  /** An ampersand before a parenthesis or `mut` announces the captures of a lambda. */
  predicate StartsCapture(toks: seq<Token>, i: nat) {
    At(toks, i).kind == Operator(Amp) &&
    (At(toks, i + 1).kind == LParen || (At(toks, i + 1).kind == Identifier && At(toks, i + 1).spelling == "mut"))
  }

  function ParsePrefix(toks: seq<Token>, i: nat): (r: Outcome)
    ensures r.Parsed? ==> i < r.next <= |toks|
    decreases |toks| - i, 4
  {
    if StartsCapture(toks, i) then ParsePostfix(toks, i)
    else
      match At(toks, i).kind
      case Bang | Tilde | Operator(Minus) | Operator(Amp) =>
        (match ParsePrefix(toks, i + 1)
         case Parsed(x, j) => Parsed(Unary(PrefixOf(At(toks, i).kind), x), j)
         case other => other)
      case _ => ParsePostfix(toks, i)
  }

  function ParsePostfix(toks: seq<Token>, i: nat): (r: Outcome)
    ensures r.Parsed? ==> i < r.next <= |toks|
    decreases |toks| - i, 3
  {
    match ParsePrimary(toks, i)
    case Parsed(x, j) => if At(toks, j).kind == LParen && !At(toks, j).newlineBefore then Beyond else Parsed(x, j)
    case other => other
  }

  /** No token of this language can make a capture modifier or lambda parameters valid, since
      `=>` is not among them, so both end in the null result. */
  function ParsePrimary(toks: seq<Token>, i: nat): (r: Outcome)
    ensures r.Parsed? ==> i < r.next <= |toks|
    decreases |toks| - i, 2
  {
    match At(toks, i).kind
    case Operator(Amp) => NoExpr
    case Identifier => if toks[i].spelling == "move" then NoExpr else Parsed(Name(toks[i].spelling), i + 1)
    case IntegerLiteral => Parsed(Number(toks[i].spelling), i + 1)
    case LParen =>
      if At(toks, i + 1).kind == RParen || LooksLikeLambda(toks, i) then NoExpr
      else
        (match ParseAssignment(toks, i + 1)
         case Parsed(x, j) =>
           if At(toks, j).kind == Comma then NoExpr
           else if At(toks, j).kind == RParen then Parsed(x, j + 1)
           else Parsed(x, j)
         case other => other)
    case _ => NoExpr
  }
}

/** How operators group, spelled out token by token. */
module ParserPrecedence {
  import opened Syntax
  import opened ParserSpec
  import opened ParserRoundTrip

  /** The binary operators from those that bind least to those that bind most. */
  function Classes(): seq<seq<BinOp>> {
    [
      [PipePipe],
      [AmpAmp],
      [Pipe],
      [Caret],
      [Amp],
      [EqualEqual, NotEqual],
      [Less, LessEqual, Greater, GreaterEqual],
      [QuestionQuestion],
      [LessLess, GreaterGreater],
      [Plus, Minus],
      [Slash, Percent]
    ]
  }

  predicate InClass(op: BinOp, i: nat) {
    i < |Classes()| && op in Classes()[i]
  }

  /** Its class comes later. */
  ghost predicate BindsTighter(op: BinOp, than: BinOp) {
    exists i, j :: i < j && InClass(than, i) && InClass(op, j)
  }

  /** A token that is no part of an expression. */
  predicate Ends(t: Token) {
    t.kind in {RParen, Comma, Semicolon, Colon, Eof}
  }

  function Op(op: BinOp): Token {
    Token(Operator(op), "", false)
  }

  lemma ClassIsLevel(op: BinOp, i: nat)
    ensures InClass(op, i) <==> OpLevel(op) == i + 2
  {
    assert i < 11 || !InClass(op, i);
  }

  lemma TighterIsHigher(op: BinOp, than: BinOp)
    ensures BindsTighter(op, than) <==> OpLevel(than) < OpLevel(op)
  {
    hide OpLevel, InClass;
    if i, j :| i < j && InClass(than, i) && InClass(op, j) {
      ClassIsLevel(than, i);
      ClassIsLevel(op, j);
    }
    if OpLevel(than) < OpLevel(op) {
      ClassIsLevel(than, OpLevel(than) - 2);
      ClassIsLevel(op, OpLevel(op) - 2);
    }
  }

  lemma EndStops(t: Token)
    requires Ends(t)
    ensures Stops(t, ASSIGNMENT)
  {
  }

  /** No name of the expression is taken for a modifier. */
  predicate AllNames(names: seq<string>) {
    "move" !in names
  }

  // ---------------------------------------------------------------- the general step

  /** Tokens without parentheses whose ampersands, if prefixes, do not stand before `mut`. */
  predicate Plain(ts: seq<Token>) {
    forall k :: 0 <= k < |ts| ==> ts[k].kind != LParen && PlainAmp(ts, k)
  }

  predicate PlainAmp(ts: seq<Token>, k: nat)
    requires k < |ts|
  {
    ts[k].kind == Operator(Amp) ==>
      (k > 0 && EndsOperand(ts[k - 1].kind)) || (k + 1 < |ts| && ts[k + 1].spelling != "mut")
  }

  predicate HoldsMove(ts: seq<Token>) {
    exists k :: 0 <= k < |ts| && ts[k].kind == Identifier && ts[k].spelling == "move"
  }

  /** A tree that is printed as these tokens is what they parse to. */
  lemma PrintedParses(e: Expr, ts: seq<Token>, rest: seq<Token>)
    requires Print(e, ASSIGNMENT) == ts && Plain(ts) && Ends(At(rest, 0))
    ensures ParseAssignment(ts + rest, 0) == if HoldsMove(ts) then NoExpr else Parsed(e, |ts|)
  {
    EndStops(At(rest, 0));
    RoundTrip(e, rest);
    hide ParseAssignment, Print, LooksLikeLambda;
    forall k | 0 <= k < |ts|
      ensures Trap(ts + rest, 0, k) <==> ts[k].kind == Identifier && ts[k].spelling == "move"
    {
      OnlyMoveTraps(ts + rest, ts, k);
    }
  }

  lemma OnlyMoveTraps(toks: seq<Token>, ts: seq<Token>, k: nat)
    requires Plain(ts) && ts <= toks && k < |ts|
    ensures Trap(toks, 0, k) <==> ts[k].kind == Identifier && ts[k].spelling == "move"
  {
    assert toks[k] == ts[k] && At(toks, k) == ts[k] && PlainAmp(ts, k);
    if k > 0 {
      assert toks[k - 1] == ts[k - 1];
    }
    if k + 1 < |ts| {
      assert toks[k + 1] == ts[k + 1] && At(toks, k + 1) == ts[k + 1] && ts[k + 1].kind != LParen;
    }
  }

  lemma PrintBinary(a: Expr, op: BinOp, b: Expr, level: nat)
    requires level <= OpLevel(op)
    ensures Print(Binary(a, op, b), level) == Print(a, OpLevel(op)) + [Op(op)] + Print(b, OpLevel(op) + 1)
  {
  }

  lemma PrintAtom(n: string, level: nat)
    requires level <= POSTFIX
    ensures Print(Name(n), level) == [Id(n)]
  {
  }

  // ---------------------------------------------------------------- two binary operators

  /** Two operators: the second one takes the middle operand exactly if its class comes later. */
  lemma BinaryGroups(x: string, op1: BinOp, y: string, op2: BinOp, z: string, rest: seq<Token>)
    requires Ends(At(rest, 0))
    ensures var toks := [Id(x), Op(op1), Id(y), Op(op2), Id(z)] + rest;
      ParseAssignment(toks, 0) ==
        if !AllNames([x, y, z]) then NoExpr
        else if BindsTighter(op2, op1) then Parsed(Binary(Name(x), op1, Binary(Name(y), op2, Name(z))), 5)
        else Parsed(Binary(Binary(Name(x), op1, Name(y)), op2, Name(z)), 5)
  {
    TighterIsHigher(op2, op1);
    MoveOfThree([Id(x), Op(op1), Id(y), Op(op2), Id(z)], x, y, z);
    hide ParseAssignment, Print, BindsTighter, OpLevel, HoldsMove;
    if BindsTighter(op2, op1) {
      PrintRight(x, op1, y, op2, z);
      PrintedParses(Binary(Name(x), op1, Binary(Name(y), op2, Name(z))), [Id(x), Op(op1), Id(y), Op(op2), Id(z)], rest);
    } else {
      PrintLeft(x, op1, y, op2, z);
      PrintedParses(Binary(Binary(Name(x), op1, Name(y)), op2, Name(z)), [Id(x), Op(op1), Id(y), Op(op2), Id(z)], rest);
    }
  }

  lemma PrintRight(x: string, op1: BinOp, y: string, op2: BinOp, z: string)
    requires OpLevel(op1) < OpLevel(op2)
    ensures Print(Binary(Name(x), op1, Binary(Name(y), op2, Name(z))), ASSIGNMENT) ==
      [Id(x), Op(op1), Id(y), Op(op2), Id(z)]
  {
    hide Print, OpLevel;
    PrintAtom(x, OpLevel(op1));
    PrintAtom(y, OpLevel(op2));
    PrintAtom(z, OpLevel(op2) + 1);
    PrintBinary(Name(y), op2, Name(z), OpLevel(op1) + 1);
    PrintBinary(Name(x), op1, Binary(Name(y), op2, Name(z)), ASSIGNMENT);
  }

  lemma PrintLeft(x: string, op1: BinOp, y: string, op2: BinOp, z: string)
    requires OpLevel(op2) <= OpLevel(op1)
    ensures Print(Binary(Binary(Name(x), op1, Name(y)), op2, Name(z)), ASSIGNMENT) ==
      [Id(x), Op(op1), Id(y), Op(op2), Id(z)]
  {
    hide Print, OpLevel;
    PrintAtom(x, OpLevel(op1));
    PrintAtom(y, OpLevel(op1) + 1);
    PrintAtom(z, OpLevel(op2) + 1);
    PrintBinary(Name(x), op1, Name(y), OpLevel(op2));
    PrintBinary(Binary(Name(x), op1, Name(y)), op2, Name(z), ASSIGNMENT);
  }

  lemma MoveOfThree(ts: seq<Token>, x: string, y: string, z: string)
    requires |ts| == 5 && ts[0] == Id(x) && ts[2] == Id(y) && ts[4] == Id(z)
    requires ts[1].kind != Identifier && ts[3].kind != Identifier
    ensures HoldsMove(ts) <==> !AllNames([x, y, z])
  {
    if x == "move" {
      assert ts[0].spelling == "move";
    }
    if y == "move" {
      assert ts[2].spelling == "move";
    }
    if z == "move" {
      assert ts[4].spelling == "move";
    }
  }

  // ---------------------------------------------------------------- assignments and conditionals

  function Eq(a: AssignOp): Token {
    Token(Assignment(a), "", false)
  }

  lemma PrintAssign(t: Expr, a: AssignOp, v: Expr)
    ensures Print(Assign(t, a, v), ASSIGNMENT) == Print(t, TERNARY) + [Eq(a)] + Print(v, ASSIGNMENT)
  {
  }

  /** Assignments group to the right ... */
  lemma AssignmentGroups(x: string, a: AssignOp, y: string, b: AssignOp, z: string, rest: seq<Token>)
    requires Ends(At(rest, 0)) && AllNames([x, y, z])
    ensures ParseAssignment([Id(x), Eq(a), Id(y), Eq(b), Id(z)] + rest, 0) ==
      Parsed(Assign(Name(x), a, Assign(Name(y), b, Name(z))), 5)
  {
    var ts := [Id(x), Eq(a), Id(y), Eq(b), Id(z)];
    MoveOfThree(ts, x, y, z);
    hide ParseAssignment, Print, HoldsMove;
    PrintAtom(x, TERNARY);
    PrintAtom(y, TERNARY);
    PrintAtom(z, ASSIGNMENT);
    PrintAssign(Name(y), b, Name(z));
    PrintAssign(Name(x), a, Assign(Name(y), b, Name(z)));
    PrintedParses(Assign(Name(x), a, Assign(Name(y), b, Name(z))), ts, rest);
  }

  /** ... and bind less than any operator, on either side. */
  lemma AssignmentBindsLess(x: string, a: AssignOp, y: string, op: BinOp, z: string, rest: seq<Token>)
    requires Ends(At(rest, 0)) && AllNames([x, y, z])
    ensures ParseAssignment([Id(x), Eq(a), Id(y), Op(op), Id(z)] + rest, 0) ==
      Parsed(Assign(Name(x), a, Binary(Name(y), op, Name(z))), 5)
    ensures ParseAssignment([Id(x), Op(op), Id(y), Eq(a), Id(z)] + rest, 0) ==
      Parsed(Assign(Binary(Name(x), op, Name(y)), a, Name(z)), 5)
  {
    ValueGroups(x, a, y, op, z, rest);
    TargetGroups(x, op, y, a, z, rest);
  }

  lemma ValueGroups(x: string, a: AssignOp, y: string, op: BinOp, z: string, rest: seq<Token>)
    requires Ends(At(rest, 0)) && AllNames([x, y, z])
    ensures ParseAssignment([Id(x), Eq(a), Id(y), Op(op), Id(z)] + rest, 0) ==
      Parsed(Assign(Name(x), a, Binary(Name(y), op, Name(z))), 5)
  {
    var ts := [Id(x), Eq(a), Id(y), Op(op), Id(z)];
    MoveOfThree(ts, x, y, z);
    hide ParseAssignment, Print, OpLevel, HoldsMove;
    PrintAtom(x, TERNARY);
    PrintAtom(y, OpLevel(op));
    PrintAtom(z, OpLevel(op) + 1);
    PrintBinary(Name(y), op, Name(z), ASSIGNMENT);
    PrintAssign(Name(x), a, Binary(Name(y), op, Name(z)));
    PrintedParses(Assign(Name(x), a, Binary(Name(y), op, Name(z))), ts, rest);
  }

  lemma TargetGroups(x: string, op: BinOp, y: string, a: AssignOp, z: string, rest: seq<Token>)
    requires Ends(At(rest, 0)) && AllNames([x, y, z])
    ensures ParseAssignment([Id(x), Op(op), Id(y), Eq(a), Id(z)] + rest, 0) ==
      Parsed(Assign(Binary(Name(x), op, Name(y)), a, Name(z)), 5)
  {
    var ts := [Id(x), Op(op), Id(y), Eq(a), Id(z)];
    MoveOfThree(ts, x, y, z);
    hide ParseAssignment, Print, OpLevel, HoldsMove;
    PrintAtom(x, OpLevel(op));
    PrintAtom(y, OpLevel(op) + 1);
    PrintAtom(z, ASSIGNMENT);
    PrintBinary(Name(x), op, Name(y), TERNARY);
    PrintAssign(Binary(Name(x), op, Name(y)), a, Name(z));
    PrintedParses(Assign(Binary(Name(x), op, Name(y)), a, Name(z)), ts, rest);
  }

  lemma NoMove(ts: seq<Token>, names: seq<string>)
    requires AllNames(names) && forall k :: 0 <= k < |ts| && ts[k].kind == Identifier ==> ts[k].spelling in names
    ensures !HoldsMove(ts)
  {
  }

  lemma PrintTernary(c: Expr, t: Expr, f: Expr)
    ensures Print(Ternary(c, t, f), TERNARY) ==
      Print(c, LOGICAL_OR) + [Tok(Question)] + Print(t, TERNARY) + [Tok(Colon)] + Print(f, TERNARY)
    ensures Print(Ternary(c, t, f), ASSIGNMENT) == Print(Ternary(c, t, f), TERNARY)
  {
  }

  lemma PrintTernaryOfNames(c: string, t: string, f: string)
    ensures Print(Ternary(Name(c), Name(t), Name(f)), TERNARY) == [Id(c), Tok(Question), Id(t), Tok(Colon), Id(f)]
  {
    hide Print;
    PrintAtom(c, LOGICAL_OR);
    PrintAtom(t, TERNARY);
    PrintAtom(f, TERNARY);
    PrintTernary(Name(c), Name(t), Name(f));
  }

  /** A conditional in the last part belongs there, and so does one in the middle. */
  lemma TernaryGroups(x: string, y: string, z: string, u: string, v: string, rest: seq<Token>)
    requires Ends(At(rest, 0)) && AllNames([x, y, z, u, v])
    ensures ParseAssignment([Id(x), Tok(Question), Id(y), Tok(Colon), Id(z), Tok(Question), Id(u), Tok(Colon), Id(v)]
      + rest, 0)
      == Parsed(Ternary(Name(x), Name(y), Ternary(Name(z), Name(u), Name(v))), 9)
    ensures ParseAssignment([Id(x), Tok(Question), Id(y), Tok(Question), Id(z), Tok(Colon), Id(u), Tok(Colon), Id(v)]
      + rest, 0)
      == Parsed(Ternary(Name(x), Ternary(Name(y), Name(z), Name(u)), Name(v)), 9)
  {
    TernaryGroupsLast(x, y, z, u, v, rest);
    TernaryGroupsMiddle(x, y, z, u, v, rest);
  }

  lemma TernaryGroupsLast(x: string, y: string, z: string, u: string, v: string, rest: seq<Token>)
    requires Ends(At(rest, 0)) && AllNames([x, y, z, u, v])
    ensures ParseAssignment([Id(x), Tok(Question), Id(y), Tok(Colon), Id(z), Tok(Question), Id(u), Tok(Colon), Id(v)]
      + rest, 0)
      == Parsed(Ternary(Name(x), Name(y), Ternary(Name(z), Name(u), Name(v))), 9)
  {
    var ts := [Id(x), Tok(Question), Id(y), Tok(Colon), Id(z), Tok(Question), Id(u), Tok(Colon), Id(v)];
    NoMove(ts, [x, y, z, u, v]);
    hide ParseAssignment, Print, HoldsMove;
    PrintAtom(x, LOGICAL_OR);
    PrintAtom(y, TERNARY);
    PrintTernaryOfNames(z, u, v);
    PrintTernary(Name(x), Name(y), Ternary(Name(z), Name(u), Name(v)));
    PrintedParses(Ternary(Name(x), Name(y), Ternary(Name(z), Name(u), Name(v))), ts, rest);
  }

  lemma TernaryGroupsMiddle(x: string, y: string, z: string, u: string, v: string, rest: seq<Token>)
    requires Ends(At(rest, 0)) && AllNames([x, y, z, u, v])
    ensures ParseAssignment([Id(x), Tok(Question), Id(y), Tok(Question), Id(z), Tok(Colon), Id(u), Tok(Colon), Id(v)]
      + rest, 0)
      == Parsed(Ternary(Name(x), Ternary(Name(y), Name(z), Name(u)), Name(v)), 9)
  {
    var ts := [Id(x), Tok(Question), Id(y), Tok(Question), Id(z), Tok(Colon), Id(u), Tok(Colon), Id(v)];
    NoMove(ts, [x, y, z, u, v]);
    hide ParseAssignment, Print, HoldsMove;
    PrintAtom(x, LOGICAL_OR);
    PrintAtom(v, TERNARY);
    PrintTernaryOfNames(y, z, u);
    PrintTernary(Name(x), Ternary(Name(y), Name(z), Name(u)), Name(v));
    PrintedParses(Ternary(Name(x), Ternary(Name(y), Name(z), Name(u)), Name(v)), ts, rest);
  }

  /** A conditional binds less than an operator, on both sides. */
  lemma TernaryBindsLess(x: string, op: BinOp, y: string, u: string, v: string, rest: seq<Token>)
    requires Ends(At(rest, 0)) && AllNames([x, y, u, v])
    ensures ParseAssignment([Id(x), Op(op), Id(y), Tok(Question), Id(u), Tok(Colon), Id(v)] + rest, 0)
      == Parsed(Ternary(Binary(Name(x), op, Name(y)), Name(u), Name(v)), 7)
    ensures ParseAssignment([Id(u), Tok(Question), Id(v), Tok(Colon), Id(x), Op(op), Id(y)] + rest, 0)
      == Parsed(Ternary(Name(u), Name(v), Binary(Name(x), op, Name(y))), 7)
  {
    ConditionGroups(x, op, y, u, v, rest);
    LastPartGroups(x, op, y, u, v, rest);
  }

  lemma PrintBinaryOfNames(x: string, op: BinOp, y: string, level: nat)
    requires level <= OpLevel(op)
    ensures Print(Binary(Name(x), op, Name(y)), level) == [Id(x), Op(op), Id(y)]
  {
    hide Print, OpLevel;
    PrintAtom(x, OpLevel(op));
    PrintAtom(y, OpLevel(op) + 1);
    PrintBinary(Name(x), op, Name(y), level);
  }

  lemma ConditionGroups(x: string, op: BinOp, y: string, u: string, v: string, rest: seq<Token>)
    requires Ends(At(rest, 0)) && AllNames([x, y, u, v])
    ensures ParseAssignment([Id(x), Op(op), Id(y), Tok(Question), Id(u), Tok(Colon), Id(v)] + rest, 0)
      == Parsed(Ternary(Binary(Name(x), op, Name(y)), Name(u), Name(v)), 7)
  {
    var ts := [Id(x), Op(op), Id(y), Tok(Question), Id(u), Tok(Colon), Id(v)];
    NoMove(ts, [x, y, u, v]);
    hide ParseAssignment, Print, OpLevel, HoldsMove;
    PrintAtom(u, TERNARY);
    PrintAtom(v, TERNARY);
    PrintBinaryOfNames(x, op, y, LOGICAL_OR);
    PrintTernary(Binary(Name(x), op, Name(y)), Name(u), Name(v));
    PrintedParses(Ternary(Binary(Name(x), op, Name(y)), Name(u), Name(v)), ts, rest);
  }

  lemma LastPartGroups(x: string, op: BinOp, y: string, u: string, v: string, rest: seq<Token>)
    requires Ends(At(rest, 0)) && AllNames([x, y, u, v])
    ensures ParseAssignment([Id(u), Tok(Question), Id(v), Tok(Colon), Id(x), Op(op), Id(y)] + rest, 0)
      == Parsed(Ternary(Name(u), Name(v), Binary(Name(x), op, Name(y))), 7)
  {
    var ts := [Id(u), Tok(Question), Id(v), Tok(Colon), Id(x), Op(op), Id(y)];
    NoMove(ts, [x, y, u, v]);
    hide ParseAssignment, Print, OpLevel, HoldsMove;
    PrintAtom(u, LOGICAL_OR);
    PrintAtom(v, TERNARY);
    PrintBinaryOfNames(x, op, y, TERNARY);
    PrintTernary(Name(u), Name(v), Binary(Name(x), op, Name(y)));
    PrintedParses(Ternary(Name(u), Name(v), Binary(Name(x), op, Name(y))), ts, rest);
  }

  /** An assignment binds less than a conditional, on both sides. */
  lemma AssignmentBindsLeast(x: string, a: AssignOp, y: string, u: string, v: string, rest: seq<Token>)
    requires Ends(At(rest, 0)) && AllNames([x, y, u, v])
    ensures ParseAssignment([Id(x), Eq(a), Id(y), Tok(Question), Id(u), Tok(Colon), Id(v)] + rest, 0)
      == Parsed(Assign(Name(x), a, Ternary(Name(y), Name(u), Name(v))), 7)
    ensures ParseAssignment([Id(y), Tok(Question), Id(u), Tok(Colon), Id(v), Eq(a), Id(x)] + rest, 0)
      == Parsed(Assign(Ternary(Name(y), Name(u), Name(v)), a, Name(x)), 7)
  {
    var value := [Id(x), Eq(a), Id(y), Tok(Question), Id(u), Tok(Colon), Id(v)];
    var target := [Id(y), Tok(Question), Id(u), Tok(Colon), Id(v), Eq(a), Id(x)];
    NoMove(value, [x, y, u, v]);
    NoMove(target, [x, y, u, v]);
    hide ParseAssignment, Print, HoldsMove;
    PrintAtom(x, TERNARY);
    PrintAtom(x, ASSIGNMENT);
    PrintTernaryOfNames(y, u, v);
    PrintTernary(Name(y), Name(u), Name(v));
    PrintAssign(Name(x), a, Ternary(Name(y), Name(u), Name(v)));
    PrintAssign(Ternary(Name(y), Name(u), Name(v)), a, Name(x));
    PrintedParses(Assign(Name(x), a, Ternary(Name(y), Name(u), Name(v))), value, rest);
    PrintedParses(Assign(Ternary(Name(y), Name(u), Name(v)), a, Name(x)), target, rest);
  }

  // ---------------------------------------------------------------- prefix operators

  /** The signs of the prefix operators. */
  lemma Signs()
    ensures Tok(PrefixKind(Not)) == Token(Bang, "", false) && Tok(PrefixKind(Complement)) == Token(Tilde, "", false)
    ensures Tok(PrefixKind(Negate)) == Op(Minus) && Tok(PrefixKind(AddressOf)) == Op(Amp)
  {
  }

  lemma PrintUnary(p: PrefixOp, e: Expr, level: nat)
    requires level <= PREFIX
    ensures Print(Unary(p, e), level) == [Tok(PrefixKind(p))] + Print(e, PREFIX)
  {
  }

  /** Prefix operators bind more than binary ones, before either operand, and stack up. */
  lemma PrefixGroups(p: PrefixOp, q: PrefixOp, x: string, op: BinOp, y: string, rest: seq<Token>)
    requires Ends(At(rest, 0)) && AllNames([x, y]) && x != "mut" && y != "mut"
    ensures ParseAssignment([Tok(PrefixKind(p)), Id(x), Op(op), Id(y)] + rest, 0)
      == Parsed(Binary(Unary(p, Name(x)), op, Name(y)), 4)
    ensures ParseAssignment([Id(x), Op(op), Tok(PrefixKind(p)), Id(y)] + rest, 0)
      == Parsed(Binary(Name(x), op, Unary(p, Name(y))), 4)
    ensures ParseAssignment([Tok(PrefixKind(p)), Tok(PrefixKind(q)), Id(x)] + rest, 0)
      == Parsed(Unary(p, Unary(q, Name(x))), 3)
  {
    PrefixOnLeft(p, x, op, y, rest);
    PrefixOnRight(p, x, op, y, rest);
    PrefixTwice(p, q, x, rest);
  }

  lemma PrefixOnLeft(p: PrefixOp, x: string, op: BinOp, y: string, rest: seq<Token>)
    requires Ends(At(rest, 0)) && AllNames([x, y]) && x != "mut"
    ensures ParseAssignment([Tok(PrefixKind(p)), Id(x), Op(op), Id(y)] + rest, 0)
      == Parsed(Binary(Unary(p, Name(x)), op, Name(y)), 4)
  {
    var ts := [Tok(PrefixKind(p)), Id(x), Op(op), Id(y)];
    NoMove(ts, [x, y]);
    hide ParseAssignment, Print, OpLevel, HoldsMove;
    PrintAtom(x, PREFIX);
    PrintAtom(y, OpLevel(op) + 1);
    PrintUnary(p, Name(x), OpLevel(op));
    PrintBinary(Unary(p, Name(x)), op, Name(y), ASSIGNMENT);
    PrintedParses(Binary(Unary(p, Name(x)), op, Name(y)), ts, rest);
  }

  lemma PrefixOnRight(p: PrefixOp, x: string, op: BinOp, y: string, rest: seq<Token>)
    requires Ends(At(rest, 0)) && AllNames([x, y]) && y != "mut"
    ensures ParseAssignment([Id(x), Op(op), Tok(PrefixKind(p)), Id(y)] + rest, 0)
      == Parsed(Binary(Name(x), op, Unary(p, Name(y))), 4)
  {
    var ts := [Id(x), Op(op), Tok(PrefixKind(p)), Id(y)];
    NoMove(ts, [x, y]);
    hide ParseAssignment, Print, OpLevel, HoldsMove;
    PrintAtom(y, PREFIX);
    PrintAtom(x, OpLevel(op));
    PrintUnary(p, Name(y), OpLevel(op) + 1);
    PrintBinary(Name(x), op, Unary(p, Name(y)), ASSIGNMENT);
    PrintedParses(Binary(Name(x), op, Unary(p, Name(y))), ts, rest);
  }

  lemma PrefixTwice(p: PrefixOp, q: PrefixOp, x: string, rest: seq<Token>)
    requires Ends(At(rest, 0)) && AllNames([x]) && x != "mut"
    ensures ParseAssignment([Tok(PrefixKind(p)), Tok(PrefixKind(q)), Id(x)] + rest, 0)
      == Parsed(Unary(p, Unary(q, Name(x))), 3)
  {
    var ts := [Tok(PrefixKind(p)), Tok(PrefixKind(q)), Id(x)];
    NoMove(ts, [x]);
    hide ParseAssignment, Print, HoldsMove;
    PrintAtom(x, PREFIX);
    PrintUnary(q, Name(x), PREFIX);
    PrintUnary(p, Unary(q, Name(x)), ASSIGNMENT);
    PrintedParses(Unary(p, Unary(q, Name(x))), ts, rest);
  }

  // ---------------------------------------------------------------- line breaks

  /** What has been parsed at some level is all there is, if the next token continues nothing. */
  lemma {:induction false} NothingMore(toks: seq<Token>, i: nat, e: Expr, j: nat, level: nat, low: nat)
    requires LOGICAL_OR <= low <= level <= PREFIX && j <= |toks|
    requires ParseLevel(toks, i, level) == Parsed(e, j) && Stops(At(toks, j), low)
    ensures ParseLevel(toks, i, low) == Parsed(e, j)
    decreases level - low
  {
    hide ParseLevel, Fold, Stops;
    if low < level {
      StopsHigher(At(toks, j), low, low + 1);
      NothingMore(toks, i, e, j, level, low + 1);
      LevelStep(toks, i, low);
      FoldStops(toks, low, e, j);
    }
  }

  lemma NothingMoreAtAll(toks: seq<Token>, i: nat, e: Expr, j: nat)
    requires j <= |toks| && ParseLevel(toks, i, LOGICAL_OR) == Parsed(e, j)
    requires At(toks, j).kind != Question && !At(toks, j).kind.Assignment?
    ensures ParseAssignment(toks, i) == Parsed(e, j)
  {
    hide ParseLevel;
    TernaryStep(toks, i);
    AssignStep(toks, i);
  }

  lemma NameAlone(toks: seq<Token>, i: nat)
    requires i < |toks| && toks[i].kind == Identifier && toks[i].spelling != "move" && At(toks, i + 1).kind != LParen
    ensures ParseLevel(toks, i, PREFIX) == Parsed(Name(toks[i].spelling), i + 1)
  {
    assert Stops(At(toks, i + 1), POSTFIX);
    LeafStep(toks, i);
    NotPrefixStep(toks, i);
  }

  /** An ampersand, a plus or a minus on a new line starts a new statement; any other operator goes
      on with the expression. */
  lemma LineBreaks(x: string, op: BinOp, y: string, rest: seq<Token>)
    requires Ends(At(rest, 0)) && AllNames([x, y])
    ensures ParseAssignment([Id(x), Token(Operator(op), "", true), Id(y)] + rest, 0) ==
      if op == Amp || op == Plus || op == Minus then Parsed(Name(x), 1) else Parsed(Binary(Name(x), op, Name(y)), 3)
  {
    var toks := [Id(x), Token(Operator(op), "", true), Id(y)] + rest;
    assert toks[0] == Id(x) && toks[1] == Token(Operator(op), "", true) && toks[2] == Id(y)
      && At(toks, 3) == At(rest, 0);
    NameAlone(toks, 0);
    NameAlone(toks, 2);
    EndStops(At(rest, 0));
    hide ParseLevel, ParseAssignment, Fold;
    if op == Amp || op == Plus || op == Minus {
      NothingMore(toks, 0, Name(x), 1, PREFIX, LOGICAL_OR);
      NothingMoreAtAll(toks, 0, Name(x), 1);
    } else {
      NothingMore(toks, 0, Name(x), 1, PREFIX, OpLevel(op) + 1);
      NothingMore(toks, 2, Name(y), 3, PREFIX, OpLevel(op) + 1);
      LevelStep(toks, 0, OpLevel(op));
      FoldTakes(toks, Name(x), 1, op);
      FoldStops(toks, OpLevel(op), Binary(Name(x), op, Name(y)), 3);
      NothingMore(toks, 0, Binary(Name(x), op, Name(y)), 3, OpLevel(op), LOGICAL_OR);
      NothingMoreAtAll(toks, 0, Binary(Name(x), op, Name(y)), 3);
    }
  }

  lemma FoldTakes(toks: seq<Token>, left: Expr, i: nat, op: BinOp)
    requires i < |toks| && toks[i].kind == Operator(op) && op != Amp && op != Plus && op != Minus
    ensures var right := ParseLevel(toks, i + 1, OpLevel(op) + 1);
      Fold(toks, OpLevel(op), left, i) ==
        if right.Parsed? then Fold(toks, OpLevel(op), Binary(left, op, right.expr), right.next) else right
  {
  }

  // ---------------------------------------------------------------- beginnings that do not parse

  /** A parenthesis after a name on the same line goes on to a call; on a new line it does not. */
  lemma Calls(x: string, rest: seq<Token>)
    requires AllNames([x])
    ensures ParseAssignment([Id(x), Token(LParen, "", false)] + rest, 0) == Beyond
    ensures ParseAssignment([Id(x), Token(LParen, "", true)] + rest, 0) == Parsed(Name(x), 1)
  {
    var same, next := [Id(x), Token(LParen, "", false)] + rest, [Id(x), Token(LParen, "", true)] + rest;
    assert ParsePostfix(same, 0) == Beyond && ParsePostfix(next, 0) == Parsed(Name(x), 1);
    NotPrefixStep(same, 0);
    NotPrefixStep(next, 0);
    hide ParsePostfix, ParsePrefix, Fold;
    LevelFails(same, 0, Beyond, LOGICAL_OR);
    TernaryStep(same, 0);
    AssignStep(same, 0);
    NothingMore(next, 0, Name(x), 1, PREFIX, LOGICAL_OR);
    NothingMoreAtAll(next, 0, Name(x), 1);
  }

  lemma {:induction false} LevelFails(toks: seq<Token>, i: nat, r: Outcome, level: nat)
    requires LOGICAL_OR <= level <= PREFIX && ParseLevel(toks, i, PREFIX) == r && !r.Parsed?
    ensures ParseLevel(toks, i, level) == r
    decreases PREFIX - level
  {
    hide ParsePrefix, Fold;
    if level < PREFIX {
      LevelFails(toks, i, r, level + 1);
    }
  }

  /** Beginnings that are taken for a lambda: empty parentheses, two names or a name and a question
      mark after a parenthesis, an ampersand before a parenthesis or before `mut`, and the modifier
      `move`. */
  lemma LambdaBeginnings(x: string, y: string, rest: seq<Token>)
    ensures ParseAssignment([Tok(LParen), Tok(RParen)] + rest, 0) == NoExpr
    ensures ParseAssignment([Tok(LParen), Id(x), Id(y)] + rest, 0) == NoExpr
    ensures ParseAssignment([Tok(LParen), Id(x), Tok(Question)] + rest, 0) == NoExpr
    ensures ParseAssignment([Op(Amp), Tok(LParen)] + rest, 0) == NoExpr
    ensures ParseAssignment([Op(Amp), Id("mut")] + rest, 0) == NoExpr
    ensures ParseAssignment([Id("move")] + rest, 0) == NoExpr
  {
    ParenthesisFails([Tok(LParen), Tok(RParen)] + rest);
    ParenthesisFails([Tok(LParen), Id(x), Id(y)] + rest);
    ParenthesisFails([Tok(LParen), Id(x), Tok(Question)] + rest);
    AmpersandFails([Op(Amp), Tok(LParen)] + rest);
    AmpersandFails([Op(Amp), Id("mut")] + rest);
    MoveFails([Id("move")] + rest);
  }

  lemma BeginningFails(toks: seq<Token>)
    requires ParsePrefix(toks, 0) == NoExpr
    ensures ParseAssignment(toks, 0) == NoExpr
  {
    hide ParsePrefix, Fold;
    LevelFails(toks, 0, NoExpr, LOGICAL_OR);
    TernaryStep(toks, 0);
    AssignStep(toks, 0);
  }

  lemma ParenthesisFails(toks: seq<Token>)
    requires |toks| > 1 && toks[0].kind == LParen
    requires toks[1].kind == RParen ||
      (|toks| > 2 && toks[1].kind == Identifier && toks[2].kind in {Identifier, Question})
    ensures ParseAssignment(toks, 0) == NoExpr
  {
    assert ParsePrimary(toks, 0) == NoExpr;
    BeginningFails(toks);
  }

  lemma AmpersandFails(toks: seq<Token>)
    requires |toks| > 1 && toks[0].kind == Operator(Amp) && (toks[1].kind == LParen || toks[1] == Id("mut"))
    ensures ParseAssignment(toks, 0) == NoExpr
  {
    assert ParsePrimary(toks, 0) == NoExpr;
    BeginningFails(toks);
  }

  lemma MoveFails(toks: seq<Token>)
    requires |toks| > 0 && toks[0] == Id("move")
    ensures ParseAssignment(toks, 0) == NoExpr
  {
    assert ParsePrimary(toks, 0) == NoExpr;
    BeginningFails(toks);
  }

  /** After one expression in parentheses: a comma makes it no expression; anything else that is no
      part of it ends it, a closing parenthesis included, which may be missing. */
  lemma Parenthesised(x: string, t: Token, rest: seq<Token>)
    requires AllNames([x]) && Ends(t) && At(rest, 0).kind != LParen
    ensures ParsePostfix([Tok(LParen), Id(x), t] + rest, 0) ==
      if t.kind == Comma then NoExpr else if t.kind == RParen then Parsed(Name(x), 3) else Parsed(Name(x), 2)
  {
    var toks := [Tok(LParen), Id(x), t] + rest;
    assert toks[1] == Id(x) && toks[2] == t && At(toks, 2) == t && At(toks, 3) == At(rest, 0);
    NameAlone(toks, 1);
    EndStops(t);
    hide ParseAssignment, ParseLevel;
    NothingMore(toks, 1, Name(x), 2, PREFIX, LOGICAL_OR);
    NothingMoreAtAll(toks, 1, Name(x), 2);
  }
}

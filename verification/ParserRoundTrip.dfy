/** Parsing what the printer wrote, and what a successful parse says about its tokens. */
module ParserRoundTrip {
  import opened Syntax
  import opened ParserSpec

  // ---------------------------------------------------------------- printed segments

  /** The tokens of ts stand at position i. */
  ghost predicate Stands(toks: seq<Token>, i: nat, ts: seq<Token>) {
    i + |ts| <= |toks| && toks[i..i + |ts|] == ts
  }

  lemma StandsSplit(toks: seq<Token>, i: nat, a: seq<Token>, b: seq<Token>)
    requires Stands(toks, i, a + b)
    ensures Stands(toks, i, a) && Stands(toks, i + |a|, b)
  {
    assert (a + b)[..|a|] == a && (a + b)[|a|..] == b;
  }

  lemma HeadAt(toks: seq<Token>, i: nat, t: Token)
    requires Stands(toks, i, [t])
    ensures i < |toks| && toks[i] == t
  {
    assert toks[i] == toks[i..i + 1][0];
  }

  lemma StandsFirst(toks: seq<Token>, i: nat, ts: seq<Token>)
    requires Stands(toks, i, ts) && |ts| > 0
    ensures i + |ts| <= |toks| && toks[i] == ts[0]
  {
    assert toks[i] == toks[i..i + |ts|][0];
  }

  /** No token that could continue an expression of this level. */
  predicate Stops(t: Token, level: nat) {
    match t.kind
    case LParen => t.newlineBefore
    case Question => level > TERNARY
    case Assignment(_) => level > ASSIGNMENT
    case Operator(op) => !Continues(t, OpLevel(op)) || OpLevel(op) < level
    case _ => true
  }

  lemma StopsHigher(t: Token, level: nat, higher: nat)
    requires Stops(t, level) && level <= higher
    ensures Stops(t, higher)
  {
  }

  // ---------------------------------------------------------------- where the parser goes astray

  /** At some place of the rendering of e at position i the parser takes a name, a parenthesis
      or an ampersand for the start of a lambda. */
  ghost predicate Astray(toks: seq<Token>, i: nat, e: Expr, level: nat)
    decreases e, 1
  {
    if ExprLevel(e) < level then LooksLikeLambda(toks, i) || AstrayBare(toks, i + 1, e)
    else AstrayBare(toks, i, e)
  }

  ghost predicate AstrayBare(toks: seq<Token>, i: nat, e: Expr)
    decreases e, 0
  {
    match e
    case Name(n) => n == "move"
    case Number(_) => false
    case Unary(op, x) => (op == AddressOf && StartsCapture(toks, i)) || Astray(toks, i + 1, x, PREFIX)
    case Binary(a, op, b) =>
      || Astray(toks, i, a, OpLevel(op))
      || Astray(toks, i + |Print(a, OpLevel(op))| + 1, b, OpLevel(op) + 1)
    case Ternary(c, t, f) =>
      var j := i + |Print(c, LOGICAL_OR)| + 1;
      var k := j + |Print(t, TERNARY)| + 1;
      Astray(toks, i, c, LOGICAL_OR) || Astray(toks, j, t, TERNARY) || Astray(toks, k, f, TERNARY)
    case Assign(t, op, v) =>
      || Astray(toks, i, t, TERNARY)
      || Astray(toks, i + |Print(t, TERNARY)| + 1, v, ASSIGNMENT)
  }

  lemma {:induction false} FirstIsNotClosing(e: Expr)
    ensures PrintBare(e)[0].kind != RParen
  {
    match e
    case Binary(a, op, b) =>
      if ExprLevel(a) >= OpLevel(op) {
        FirstIsNotClosing(a);
      }
    case Ternary(c, t, f) =>
      if ExprLevel(c) >= LOGICAL_OR {
        FirstIsNotClosing(c);
      }
    case Assign(t, op, v) =>
      if ExprLevel(t) >= TERNARY {
        FirstIsNotClosing(t);
      }
    case _ =>
  }

  // ---------------------------------------------------------------- what a rendering looks like

  lemma BinaryShape(toks: seq<Token>, i: nat, e: Expr)
    requires e.Binary? && Stands(toks, i, Print(e, OpLevel(e.op)))
    ensures var level, n := OpLevel(e.op), |Print(e.left, OpLevel(e.op))|;
      && Stands(toks, i, Print(e.left, level)) && At(toks, i + n) == Tok(Operator(e.op))
      && Stands(toks, i + n + 1, Print(e.right, level + 1))
      && i + n < |toks| && |Print(e, level)| == n + 1 + |Print(e.right, level + 1)|
      && (Astray(toks, i, e, level) <==> Astray(toks, i, e.left, level) || Astray(toks, i + n + 1, e.right, level + 1))
  {
    var level := OpLevel(e.op);
    var pa, pb := Print(e.left, level), Print(e.right, level + 1);
    BinaryAstray(toks, i, e);
    assert Print(e, level) == pa + ([Tok(Operator(e.op))] + pb);
    hide Print, Stands, Astray;
    StandsApart(toks, i, pa, Tok(Operator(e.op)), pb);
  }

  lemma BinaryAstray(toks: seq<Token>, i: nat, e: Expr)
    requires e.Binary?
    ensures var level, j := OpLevel(e.op), i + |Print(e.left, OpLevel(e.op))| + 1;
      Astray(toks, i, e, level) <==> Astray(toks, i, e.left, level) || Astray(toks, j, e.right, level + 1)
  {
    hide Print;
  }

  lemma TernaryShape(toks: seq<Token>, i: nat, e: Expr)
    requires e.Ternary? && Stands(toks, i, Print(e, TERNARY))
    ensures var j := i + |Print(e.condition, LOGICAL_OR)|;
      var k := j + 1 + |Print(e.whenTrue, TERNARY)|;
      && Stands(toks, i, Print(e.condition, LOGICAL_OR)) && At(toks, j) == Tok(Question)
      && Stands(toks, j + 1, Print(e.whenTrue, TERNARY)) && At(toks, k) == Tok(Colon)
      && Stands(toks, k + 1, Print(e.whenFalse, TERNARY))
      && i + |Print(e, TERNARY)| == k + 1 + |Print(e.whenFalse, TERNARY)|
  {
    var pc, pt, pf := Print(e.condition, LOGICAL_OR), Print(e.whenTrue, TERNARY), Print(e.whenFalse, TERNARY);
    assert Print(e, TERNARY) == pc + ([Tok(Question)] + (pt + ([Tok(Colon)] + pf)));
    hide Print, Stands;
    StandsApart(toks, i, pc, Tok(Question), pt + ([Tok(Colon)] + pf));
    StandsApart(toks, i + |pc| + 1, pt, Tok(Colon), pf);
  }

  lemma StandsApart(toks: seq<Token>, i: nat, a: seq<Token>, t: Token, b: seq<Token>)
    requires Stands(toks, i, a + ([t] + b))
    ensures Stands(toks, i, a) && At(toks, i + |a|) == t && Stands(toks, i + |a| + 1, b)
    ensures i + |a| < |toks|
  {
    hide Stands;
    StandsSplit(toks, i, a, [t] + b);
    StandsSplit(toks, i + |a|, [t], b);
    HeadAt(toks, i + |a|, t);
  }

  lemma TernaryAstray(toks: seq<Token>, i: nat, e: Expr)
    requires e.Ternary?
    ensures var j := i + |Print(e.condition, LOGICAL_OR)| + 1;
      var k := j + |Print(e.whenTrue, TERNARY)| + 1;
      Astray(toks, i, e, TERNARY) <==>
        || Astray(toks, i, e.condition, LOGICAL_OR) || Astray(toks, j, e.whenTrue, TERNARY)
        || Astray(toks, k, e.whenFalse, TERNARY)
  {
  }

  lemma AssignShape(toks: seq<Token>, i: nat, e: Expr)
    requires e.Assign? && Stands(toks, i, Print(e, ASSIGNMENT))
    ensures var j := i + |Print(e.target, TERNARY)|;
      && Stands(toks, i, Print(e.target, TERNARY)) && At(toks, j) == Tok(Assignment(e.assign))
      && Stands(toks, j + 1, Print(e.value, ASSIGNMENT))
      && i + |Print(e, ASSIGNMENT)| == j + 1 + |Print(e.value, ASSIGNMENT)|
      && (Astray(toks, i, e, ASSIGNMENT) <==>
           Astray(toks, i, e.target, TERNARY) || Astray(toks, j + 1, e.value, ASSIGNMENT))
  {
    var pt, pv := Print(e.target, TERNARY), Print(e.value, ASSIGNMENT);
    AssignAstray(toks, i, e);
    assert Print(e, ASSIGNMENT) == pt + ([Tok(Assignment(e.assign))] + pv);
    hide Print, Stands, Astray;
    StandsApart(toks, i, pt, Tok(Assignment(e.assign)), pv);
  }

  lemma AssignAstray(toks: seq<Token>, i: nat, e: Expr)
    requires e.Assign?
    ensures var j := i + |Print(e.target, TERNARY)| + 1;
      Astray(toks, i, e, ASSIGNMENT) <==> Astray(toks, i, e.target, TERNARY) || Astray(toks, j, e.value, ASSIGNMENT)
  {
    hide Print;
  }

  lemma UnaryShape(toks: seq<Token>, i: nat, e: Expr)
    requires e.Unary? && Stands(toks, i, Print(e, PREFIX))
    ensures At(toks, i) == Tok(PrefixKind(e.prefix)) && Stands(toks, i + 1, Print(e.operand, PREFIX))
    ensures |Print(e, PREFIX)| == 1 + |Print(e.operand, PREFIX)|
    ensures Astray(toks, i, e, PREFIX) <==>
      (e.prefix == AddressOf && StartsCapture(toks, i)) || Astray(toks, i + 1, e.operand, PREFIX)
  {
    assert Print(e, PREFIX) == [Tok(PrefixKind(e.prefix))] + Print(e.operand, PREFIX);
    StandsSplit(toks, i, [Tok(PrefixKind(e.prefix))], Print(e.operand, PREFIX));
    HeadAt(toks, i, Tok(PrefixKind(e.prefix)));
  }

  lemma ParenAstray(toks: seq<Token>, i: nat, e: Expr)
    requires ExprLevel(e) < POSTFIX
    ensures Astray(toks, i, e, POSTFIX) <==> LooksLikeLambda(toks, i) || Astray(toks, i + 1, e, ASSIGNMENT)
  {
  }

  lemma ParenShape(toks: seq<Token>, i: nat, e: Expr)
    requires ExprLevel(e) < POSTFIX && Stands(toks, i, Print(e, POSTFIX))
    ensures At(toks, i) == Tok(LParen) && Stands(toks, i + 1, Print(e, ASSIGNMENT)) && At(toks, i + 1).kind != RParen
    ensures At(toks, i + 1 + |Print(e, ASSIGNMENT)|) == Tok(RParen)
    ensures |Print(e, POSTFIX)| == |Print(e, ASSIGNMENT)| + 2
    ensures Astray(toks, i, e, POSTFIX) <==> LooksLikeLambda(toks, i) || Astray(toks, i + 1, e, ASSIGNMENT)
  {
    ParenAstray(toks, i, e);
    hide Astray, LooksLikeLambda, Stands;
    var inner := PrintBare(e);
    assert Print(e, ASSIGNMENT) == inner;
    assert Print(e, POSTFIX) == [Tok(LParen)] + (inner + [Tok(RParen)]);
    FirstIsNotClosing(e);
    hide Print, PrintBare;
    StandsSplit(toks, i, [Tok(LParen)], inner + [Tok(RParen)]);
    StandsSplit(toks, i + 1, inner, [Tok(RParen)]);
    HeadAt(toks, i, Tok(LParen));
    StandsFirst(toks, i + 1, inner);
    HeadAt(toks, i + 1 + |inner|, Tok(RParen));
  }

  lemma LeafShape(toks: seq<Token>, i: nat, e: Expr)
    requires e.Name? || e.Number?
    requires Stands(toks, i, Print(e, POSTFIX))
    ensures i < |toks| && toks[i] == Print(e, POSTFIX)[0] && |Print(e, POSTFIX)| == 1
    ensures toks[i] == (if e.Name? then Token(Identifier, e.name, false) else Token(IntegerLiteral, e.text, false))
    ensures Astray(toks, i, e, POSTFIX) <==> e == Name("move")
  {
    assert toks[i] == toks[i..i + 1][0];
  }

  /** Below its own level an expression is printed, and goes astray, as at the next one. */
  lemma SameOneLevelUp(toks: seq<Token>, i: nat, e: Expr, level: nat)
    requires level < POSTFIX && ExprLevel(e) != level
    ensures Print(e, level) == Print(e, level + 1)
    ensures Astray(toks, i, e, level) <==> Astray(toks, i, e, level + 1)
  {
  }

  // ---------------------------------------------------------------- one step of the parser

  lemma LevelStep(toks: seq<Token>, i: nat, level: nat)
    requires LOGICAL_OR <= level < PREFIX
    ensures var left := ParseLevel(toks, i, level + 1);
      ParseLevel(toks, i, level) == if left.Parsed? then Fold(toks, level, left.expr, left.next) else left
  {
  }

  lemma FoldStops(toks: seq<Token>, level: nat, left: Expr, i: nat)
    requires LOGICAL_OR <= level < PREFIX && i <= |toks| && Stops(At(toks, i), level)
    ensures Fold(toks, level, left, i) == Parsed(left, i)
  {
  }

  lemma FoldGoesOn(toks: seq<Token>, left: Expr, i: nat, op: BinOp)
    requires i < |toks| && At(toks, i) == Tok(Operator(op))
    ensures var right := ParseLevel(toks, i + 1, OpLevel(op) + 1);
      Fold(toks, OpLevel(op), left, i) ==
        if right.Parsed? then Fold(toks, OpLevel(op), Binary(left, op, right.expr), right.next) else right
  {
  }

  lemma PrefixStep(toks: seq<Token>, i: nat, op: PrefixOp)
    requires At(toks, i) == Tok(PrefixKind(op))
    ensures var x := ParsePrefix(toks, i + 1);
      ParsePrefix(toks, i) ==
        if op == AddressOf && StartsCapture(toks, i) then NoExpr
        else if x.Parsed? then Parsed(Unary(op, x.expr), x.next) else x
  {
    if StartsCapture(toks, i) {
      assert ParsePrimary(toks, i) == NoExpr;
    } else {
      assert PrefixOf(PrefixKind(op)) == op;
    }
  }

  lemma TernaryStep(toks: seq<Token>, i: nat)
    ensures var c := ParseLevel(toks, i, LOGICAL_OR);
      && (!c.Parsed? ==> ParseTernary(toks, i) == c)
      && (c.Parsed? && At(toks, c.next).kind != Question ==> ParseTernary(toks, i) == c)
      && (c.Parsed? && At(toks, c.next).kind == Question ==>
            var t := ParseTernary(toks, c.next + 1);
            && (!t.Parsed? ==> ParseTernary(toks, i) == t)
            && (t.Parsed? && At(toks, t.next).kind == Colon ==>
                  var f := ParseTernary(toks, t.next + 1);
                  ParseTernary(toks, i) == if f.Parsed? then Parsed(Ternary(c.expr, t.expr, f.expr), f.next) else f))
  {
  }

  lemma AssignStep(toks: seq<Token>, i: nat)
    ensures var left := ParseTernary(toks, i);
      && (!left.Parsed? ==> ParseAssignment(toks, i) == left)
      && (left.Parsed? && !At(toks, left.next).kind.Assignment? ==> ParseAssignment(toks, i) == left)
      && (left.Parsed? && At(toks, left.next).kind.Assignment? ==>
            var right := ParseAssignment(toks, left.next + 1);
            ParseAssignment(toks, i) ==
              if right.Parsed? then Parsed(Assign(left.expr, At(toks, left.next).kind.assign, right.expr), right.next)
                else right)
  {
  }

  lemma ParenStep(toks: seq<Token>, i: nat)
    requires At(toks, i).kind == LParen && At(toks, i + 1).kind != RParen
    ensures LooksLikeLambda(toks, i) ==> ParsePostfix(toks, i) == NoExpr
    ensures var x := ParseAssignment(toks, i + 1);
      !LooksLikeLambda(toks, i) ==>
      && (x == NoExpr ==> ParsePostfix(toks, i) == NoExpr)
      && (x.Parsed? && At(toks, x.next).kind == RParen && Stops(At(toks, x.next + 1), POSTFIX) ==>
            ParsePostfix(toks, i) == Parsed(x.expr, x.next + 1))
  {
  }

  lemma LeafStep(toks: seq<Token>, i: nat)
    requires i < |toks| && HasText(toks[i].kind) && Stops(At(toks, i + 1), POSTFIX)
    ensures ParsePostfix(toks, i) ==
      if toks[i].kind.IntegerLiteral? then Parsed(Number(toks[i].spelling), i + 1)
      else if toks[i].spelling == "move" then NoExpr
      else Parsed(Name(toks[i].spelling), i + 1)
  {
  }

  lemma NotPrefixStep(toks: seq<Token>, i: nat)
    requires i < |toks| && (HasText(toks[i].kind) || toks[i].kind == LParen)
    ensures ParsePrefix(toks, i) == ParsePostfix(toks, i)
  {
  }

  lemma OperatorStopsHigher(op: BinOp)
    ensures Stops(Tok(Operator(op)), OpLevel(op) + 1)
    ensures Stops(Tok(Question), LOGICAL_OR) && Stops(Tok(Colon), TERNARY) && Stops(Tok(RParen), ASSIGNMENT)
  {
  }

  // ---------------------------------------------------------------- the round trip

  ghost function Reply(toks: seq<Token>, i: nat, e: Expr, level: nat): Outcome {
    if Astray(toks, i, e, level) then NoExpr else Parsed(e, i + |Print(e, level)|)
  }

  /** Parsing from any entry of the ladder. */
  function ParseFrom(toks: seq<Token>, i: nat, level: nat): (r: Outcome)
    requires level <= POSTFIX
    ensures r.Parsed? ==> i < r.next <= |toks|
  {
    if level == ASSIGNMENT then ParseAssignment(toks, i)
    else if level == TERNARY then ParseTernary(toks, i)
    else if level == POSTFIX then ParsePostfix(toks, i)
    else ParseLevel(toks, i, level)
  }

  /** The loop of a level, entered with e on its left. */
  ghost function Resume(toks: seq<Token>, i: nat, e: Expr, level: nat): Outcome
    requires LOGICAL_OR <= level < PREFIX && i + |Print(e, level)| <= |toks|
  {
    if Astray(toks, i, e, level) then NoExpr else Fold(toks, level, e, i + |Print(e, level)|)
  }

  /** Parsing the rendering of e at its level gives e back, and stops after it, unless the
      parser goes astray; then it gives nothing. */
  lemma {:induction false} ParsePrinted(toks: seq<Token>, i: nat, e: Expr, level: nat)
    requires level <= POSTFIX && Stands(toks, i, Print(e, level))
    requires Stops(At(toks, i + |Print(e, level)|), level)
    ensures ParseFrom(toks, i, level) == Reply(toks, i, e, level)
    decreases e, ExprLevel(e) < level, 100 - level, 2
  {
    hide ParseAssignment, ParseTernary, ParseLevel, ParsePostfix, Fold, Print, Astray, Stands;
    if level == ASSIGNMENT {
      ParsePrintedAssignment(toks, i, e);
    } else if level == TERNARY {
      ParsePrintedTernary(toks, i, e);
    } else if level < PREFIX {
      StopsHigher(At(toks, i + |Print(e, level)|), level, level + 1);
      ResumePrinted(toks, i, e, level);
      FoldStops(toks, level, e, i + |Print(e, level)|);
    } else if level == PREFIX {
      ParsePrintedPrefix(toks, i, e);
    } else {
      ParsePrintedPostfix(toks, i, e);
    }
  }

  /** At a left-associative level the parser arrives at its loop with e on the left, whatever
      operator of that level follows. */
  lemma {:induction false} ResumePrinted(toks: seq<Token>, i: nat, e: Expr, level: nat)
    requires LOGICAL_OR <= level < PREFIX && Stands(toks, i, Print(e, level))
    requires Stops(At(toks, i + |Print(e, level)|), level + 1)
    ensures i + |Print(e, level)| <= |toks|
    ensures ParseLevel(toks, i, level) == Resume(toks, i, e, level)
    decreases e, ExprLevel(e) < level, 100 - level, 1
  {
    hide ParseAssignment, ParseTernary, ParseLevel, ParsePostfix, Fold, Print, Astray;
    if ExprLevel(e) != level {
      SameOneLevelUp(toks, i, e, level);
      LevelStep(toks, i, level);
      ParsePrinted(toks, i, e, level + 1);
    } else {
      var n := |Print(e.left, level)|;
      BinaryShape(toks, i, e);
      OperatorStopsHigher(e.op);
      ResumePrinted(toks, i, e.left, level);
      FoldGoesOn(toks, e.left, i + n, e.op);
      ParsePrinted(toks, i + n + 1, e.right, level + 1);
    }
  }

  lemma {:induction false} ParsePrintedTernary(toks: seq<Token>, i: nat, e: Expr)
    requires Stands(toks, i, Print(e, TERNARY))
    requires Stops(At(toks, i + |Print(e, TERNARY)|), TERNARY)
    ensures ParseTernary(toks, i) == Reply(toks, i, e, TERNARY)
    decreases e, ExprLevel(e) < TERNARY, 100 - TERNARY, 1
  {
    hide ParseAssignment, ParseTernary, ParseLevel, ParsePostfix, Fold, Print, Astray, Stands;
    TernaryStep(toks, i);
    if e.Ternary? {
      var j := i + |Print(e.condition, LOGICAL_OR)|;
      var k := j + 1 + |Print(e.whenTrue, TERNARY)|;
      TernaryShape(toks, i, e);
      TernaryAstray(toks, i, e);
      OperatorStopsHigher(Plus);
      ParsePrinted(toks, i, e.condition, LOGICAL_OR);
      ParsePrinted(toks, j + 1, e.whenTrue, TERNARY);
      ParsePrinted(toks, k + 1, e.whenFalse, TERNARY);
    } else {
      SameOneLevelUp(toks, i, e, TERNARY);
      StopsHigher(At(toks, i + |Print(e, TERNARY)|), TERNARY, LOGICAL_OR);
      ParsePrinted(toks, i, e, LOGICAL_OR);
    }
  }

  lemma {:induction false} ParsePrintedAssignment(toks: seq<Token>, i: nat, e: Expr)
    requires Stands(toks, i, Print(e, ASSIGNMENT))
    requires Stops(At(toks, i + |Print(e, ASSIGNMENT)|), ASSIGNMENT)
    ensures ParseAssignment(toks, i) == Reply(toks, i, e, ASSIGNMENT)
    decreases e, ExprLevel(e) < ASSIGNMENT, 100 - ASSIGNMENT, 1
  {
    hide ParseAssignment, ParseTernary, ParseLevel, ParsePostfix, Fold, Print, Astray, Stands;
    AssignStep(toks, i);
    if e.Assign? {
      var j := i + |Print(e.target, TERNARY)|;
      AssignShape(toks, i, e);
      ParsePrinted(toks, i, e.target, TERNARY);
      ParsePrinted(toks, j + 1, e.value, ASSIGNMENT);
    } else {
      SameOneLevelUp(toks, i, e, ASSIGNMENT);
      StopsHigher(At(toks, i + |Print(e, ASSIGNMENT)|), ASSIGNMENT, TERNARY);
      ParsePrinted(toks, i, e, TERNARY);
    }
  }

  lemma {:induction false} ParsePrintedPrefix(toks: seq<Token>, i: nat, e: Expr)
    requires Stands(toks, i, Print(e, PREFIX))
    requires Stops(At(toks, i + |Print(e, PREFIX)|), PREFIX)
    ensures ParseLevel(toks, i, PREFIX) == ParsePrefix(toks, i) == Reply(toks, i, e, PREFIX)
    decreases e, ExprLevel(e) < PREFIX, 100 - PREFIX, 1
  {
    hide ParseAssignment, ParseTernary, ParsePrefix, ParsePostfix, Fold, Print, Astray, Stands;
    if e.Unary? {
      UnaryShape(toks, i, e);
      PrefixStep(toks, i, e.prefix);
      ParsePrinted(toks, i + 1, e.operand, PREFIX);
    } else {
      SameOneLevelUp(toks, i, e, PREFIX);
      StopsHigher(At(toks, i + |Print(e, PREFIX)|), PREFIX, POSTFIX);
      if ExprLevel(e) < POSTFIX {
        ParenShape(toks, i, e);
      } else {
        LeafShape(toks, i, e);
      }
      NotPrefixStep(toks, i);
      ParsePrinted(toks, i, e, POSTFIX);
    }
  }

  lemma {:induction false} ParsePrintedPostfix(toks: seq<Token>, i: nat, e: Expr)
    requires Stands(toks, i, Print(e, POSTFIX))
    requires Stops(At(toks, i + |Print(e, POSTFIX)|), POSTFIX)
    ensures ParsePostfix(toks, i) == Reply(toks, i, e, POSTFIX)
    decreases e, ExprLevel(e) < POSTFIX, 100 - POSTFIX, 1
  {
    hide ParseAssignment, ParseTernary, ParseLevel, ParsePostfix, Fold, Print, Astray, Stands;
    if ExprLevel(e) < POSTFIX {
      ParenShape(toks, i, e);
      OperatorStopsHigher(Plus);
      ParsePrinted(toks, i + 1, e, ASSIGNMENT);
      ParenStep(toks, i);
    } else {
      LeafShape(toks, i, e);
      LeafStep(toks, i);
    }
  }

  // ---------------------------------------------------------------- going astray, token by token

  ghost function Size(e: Expr): (n: nat)
    ensures n > 0
  {
    match e
    case Name(_) => 1
    case Number(_) => 1
    case Unary(_, x) => 1 + Size(x)
    case Binary(a, _, b) => 1 + Size(a) + Size(b)
    case Ternary(c, t, f) => 1 + Size(c) + Size(t) + Size(f)
    case Assign(t, _, v) => 1 + Size(t) + Size(v)
  }

  predicate EndsOperand(kind: TokenKind) {
    HasText(kind) || kind == RParen
  }

  /** At position k of an expression that starts at `start`: the name `move`, a parenthesis
      that looks like lambda parameters, or a prefix ampersand that looks like a capture. */
  predicate Trap(toks: seq<Token>, start: nat, k: nat)
    requires k < |toks|
  {
    || (toks[k].kind == Identifier && toks[k].spelling == "move")
    || (toks[k].kind == LParen && LooksLikeLambda(toks, k))
    || (StartsCapture(toks, k) && (k <= start || !EndsOperand(toks[k - 1].kind)))
  }

  ghost predicate Trapped(toks: seq<Token>, start: nat, i: nat, j: nat)
    requires j <= |toks|
  {
    exists k :: i <= k < j && Trap(toks, start, k)
  }

  lemma TrappedSplit(toks: seq<Token>, start: nat, i: nat, m: nat, j: nat)
    requires i <= m <= j <= |toks|
    ensures Trapped(toks, start, i, j) <==> Trapped(toks, start, i, m) || Trapped(toks, start, m, j)
  {
  }

  lemma TrappedOne(toks: seq<Token>, start: nat, k: nat)
    requires k < |toks|
    ensures Trapped(toks, start, k, k + 1) <==> Trap(toks, start, k)
  {
  }

  /** An operand that begins after an operator or an opening parenthesis is its own start. */
  lemma TrappedRestart(toks: seq<Token>, start: nat, m: nat, j: nat)
    requires start < m <= j <= |toks| && !EndsOperand(toks[m - 1].kind)
    ensures Trapped(toks, start, m, j) <==> Trapped(toks, m, m, j)
  {
    forall k | m <= k < j ensures Trap(toks, start, k) <==> Trap(toks, m, k) {
    }
  }

  lemma {:induction false} LastEndsOperand(e: Expr, level: nat)
    ensures var ts := Print(e, level); EndsOperand(ts[|ts| - 1].kind)
    decreases e
  {
    if ExprLevel(e) >= level {
      match e
      case Unary(_, x) => LastEndsOperand(x, PREFIX);
      case Binary(_, op, b) => LastEndsOperand(b, OpLevel(op) + 1);
      case Ternary(_, _, f) => LastEndsOperand(f, TERNARY);
      case Assign(_, _, v) => LastEndsOperand(v, ASSIGNMENT);
      case _ =>
    }
  }

  predicate BetweenOperands(kind: TokenKind) {
    kind.Operator? || kind.Assignment? || kind == Question || kind == Colon
  }

  /** The token after a rendered operand is no prefix operator. */
  lemma AfterOperand(toks: seq<Token>, start: nat, i: nat, e: Expr, level: nat)
    requires start <= i && Stands(toks, i, Print(e, level)) && i + |Print(e, level)| < |toks|
    requires BetweenOperands(toks[i + |Print(e, level)|].kind) || toks[i + |Print(e, level)|].kind == RParen
    ensures !Trap(toks, start, i + |Print(e, level)|)
  {
    var ts := Print(e, level);
    LastEndsOperand(e, level);
    assert toks[i + |ts| - 1] == toks[i..i + |ts|][|ts| - 1];
  }

  lemma StandsFits(toks: seq<Token>, i: nat, ts: seq<Token>)
    requires Stands(toks, i, ts)
    ensures i + |ts| <= |toks|
  {
  }

  /** The parser goes astray in a rendering exactly when one of its tokens is a trap. */
  lemma {:induction false} AstrayIffTrapped(toks: seq<Token>, i: nat, e: Expr, level: nat)
    requires level <= POSTFIX && Stands(toks, i, Print(e, level))
    ensures i + |Print(e, level)| <= |toks|
    ensures Astray(toks, i, e, level) <==> Trapped(toks, i, i, i + |Print(e, level)|)
    decreases Size(e), ExprLevel(e) < level, POSTFIX + 1 - level
  {
    StandsFits(toks, i, Print(e, level));
    hide Print, Astray, Trap, Trapped, LooksLikeLambda, StartsCapture, Stands, Size;
    if level < POSTFIX && ExprLevel(e) != level {
      SameOneLevelUp(toks, i, e, level);
      AstrayIffTrapped(toks, i, e, level + 1);
    } else if ExprLevel(e) < level {
      AstrayIffTrappedParen(toks, i, e);
    } else if e.Name? || e.Number? {
      AstrayIffTrappedLeaf(toks, i, e);
    } else if e.Unary? {
      AstrayIffTrappedUnary(toks, i, e);
    } else if e.Binary? {
      AstrayIffTrappedBinary(toks, i, e);
    } else if e.Assign? {
      AstrayIffTrappedAssign(toks, i, e);
    } else {
      AstrayIffTrappedTernary(toks, i, e);
    }
  }

  lemma {:induction false} AstrayIffTrappedUnary(toks: seq<Token>, i: nat, e: Expr)
    requires e.Unary? && Stands(toks, i, Print(e, PREFIX))
    ensures i + |Print(e, PREFIX)| <= |toks|
    ensures Astray(toks, i, e, PREFIX) <==> Trapped(toks, i, i, i + |Print(e, PREFIX)|)
    decreases Size(e), false, 0
  {
    hide Print, Astray, Trap, Trapped, LooksLikeLambda, StartsCapture;
    var end := i + |Print(e, PREFIX)|;
    UnaryShape(toks, i, e);
    AstrayIffTrapped(toks, i + 1, e.operand, PREFIX);
    TrappedSplit(toks, i, i, i + 1, end);
    TrappedPrefix(toks, i, e.prefix);
    TrappedRestart(toks, i, i + 1, end);
  }

  lemma {:induction false} AstrayIffTrappedBinary(toks: seq<Token>, i: nat, e: Expr)
    requires e.Binary? && Stands(toks, i, Print(e, OpLevel(e.op)))
    ensures var end := i + |Print(e, OpLevel(e.op))|;
      end <= |toks| && (Astray(toks, i, e, OpLevel(e.op)) <==> Trapped(toks, i, i, end))
    decreases Size(e), false, 0
  {
    hide Print, Astray, Trap, Trapped, Stands;
    BinaryShape(toks, i, e);
    TrappedOperands(toks, i, e.left, OpLevel(e.op), e.right, OpLevel(e.op) + 1);
  }

  lemma {:induction false} AstrayIffTrappedAssign(toks: seq<Token>, i: nat, e: Expr)
    requires e.Assign? && Stands(toks, i, Print(e, ASSIGNMENT))
    ensures var end := i + |Print(e, ASSIGNMENT)|;
      end <= |toks| && (Astray(toks, i, e, ASSIGNMENT) <==> Trapped(toks, i, i, end))
    decreases Size(e), false, 0
  {
    hide Print, Astray, Trap, Trapped, Stands;
    AssignShape(toks, i, e);
    TrappedOperands(toks, i, e.target, TERNARY, e.value, ASSIGNMENT);
  }

  lemma {:induction false} TrappedOperands(toks: seq<Token>, i: nat, a: Expr, level: nat, b: Expr, level': nat)
    requires level <= POSTFIX && level' <= POSTFIX
    requires Stands(toks, i, Print(a, level)) && i + |Print(a, level)| < |toks|
    requires BetweenOperands(toks[i + |Print(a, level)|].kind)
    requires Stands(toks, i + |Print(a, level)| + 1, Print(b, level'))
    ensures var m := i + |Print(a, level)| + 1;
      && m + |Print(b, level')| <= |toks|
      && (Trapped(toks, i, i, m + |Print(b, level')|) <==> Astray(toks, i, a, level) || Astray(toks, m, b, level'))
    decreases Size(a) + Size(b), true, 0
  {
    hide Print, Astray, Trap, Trapped;
    var m := i + |Print(a, level)|;
    AstrayIffTrapped(toks, i, a, level);
    AstrayIffTrapped(toks, m + 1, b, level');
    AfterOperand(toks, i, i, a, level);
    TrappedTwo(toks, i, m, m + 1 + |Print(b, level')|);
  }

  lemma {:induction false} AstrayIffTrappedTernary(toks: seq<Token>, i: nat, e: Expr)
    requires e.Ternary? && Stands(toks, i, Print(e, TERNARY))
    ensures i + |Print(e, TERNARY)| <= |toks|
    ensures Astray(toks, i, e, TERNARY) <==> Trapped(toks, i, i, i + |Print(e, TERNARY)|)
    decreases Size(e), false, 0
  {
    hide Print, Astray, Trap, Trapped;
    var m := i + |Print(e.condition, LOGICAL_OR)|;
    TernaryShape(toks, i, e);
    TernaryAstray(toks, i, e);
    AstrayIffTrapped(toks, i, e.condition, LOGICAL_OR);
    AfterOperand(toks, i, i, e.condition, LOGICAL_OR);
    TrappedOperands(toks, m + 1, e.whenTrue, TERNARY, e.whenFalse, TERNARY);
    TrappedTwo(toks, i, m, i + |Print(e, TERNARY)|);
  }

  /** Two operands with an operator token at m between them. */
  lemma TrappedTwo(toks: seq<Token>, i: nat, m: nat, end: nat)
    requires i < m < end <= |toks| && !Trap(toks, i, m) && !EndsOperand(toks[m].kind)
    ensures Trapped(toks, i, i, end) <==> Trapped(toks, i, i, m) || Trapped(toks, m + 1, m + 1, end)
  {
    TrappedSplit(toks, i, i, m, end);
    TrappedSplit(toks, i, m, m + 1, end);
    TrappedOne(toks, i, m);
    TrappedRestart(toks, i, m + 1, end);
  }

  lemma TrappedPrefix(toks: seq<Token>, i: nat, op: PrefixOp)
    requires i < |toks| && toks[i] == Tok(PrefixKind(op))
    ensures Trapped(toks, i, i, i + 1) <==> op == AddressOf && StartsCapture(toks, i)
    ensures !EndsOperand(toks[i].kind)
  {
    TrappedOne(toks, i, i);
  }

  lemma AstrayIffTrappedLeaf(toks: seq<Token>, i: nat, e: Expr)
    requires (e.Name? || e.Number?) && Stands(toks, i, Print(e, POSTFIX))
    ensures |Print(e, POSTFIX)| == 1 && i < |toks|
    ensures Astray(toks, i, e, POSTFIX) <==> Trapped(toks, i, i, i + 1)
  {
    LeafShape(toks, i, e);
    TrappedOne(toks, i, i);
  }

  lemma {:induction false} AstrayIffTrappedParen(toks: seq<Token>, i: nat, e: Expr)
    requires ExprLevel(e) < POSTFIX && Stands(toks, i, Print(e, POSTFIX))
    ensures i + |Print(e, POSTFIX)| <= |toks|
    ensures Astray(toks, i, e, POSTFIX) <==> Trapped(toks, i, i, i + |Print(e, POSTFIX)|)
    decreases Size(e), true, 0
  {
    hide Print, Astray, Trap, Trapped, LooksLikeLambda, StartsCapture;
    var m := i + 1 + |Print(e, ASSIGNMENT)|;
    ParenShape(toks, i, e);
    AstrayIffTrapped(toks, i + 1, e, ASSIGNMENT);
    TrappedSplit(toks, i, i, i + 1, m + 1);
    TrappedParen(toks, i);
    TrappedRestart(toks, i, i + 1, m + 1);
    TrappedSplit(toks, i + 1, i + 1, m, m + 1);
    AfterOperand(toks, i + 1, i + 1, e, ASSIGNMENT);
    TrappedOne(toks, i + 1, m);
  }

  lemma TrappedParen(toks: seq<Token>, i: nat)
    requires i < |toks| && toks[i].kind == LParen
    ensures Trapped(toks, i, i, i + 1) <==> LooksLikeLambda(toks, i)
    ensures !EndsOperand(toks[i].kind)
  {
    TrappedOne(toks, i, i);
  }

  /** A rendering followed by a token that continues nothing parses back to its tree, and the
      parser stops at that token, exactly when none of its tokens is a trap. Otherwise the
      parser reports an error and returns nothing. */
  lemma RoundTrip(e: Expr, rest: seq<Token>)
    requires Stops(At(rest, 0), ASSIGNMENT)
    ensures var ts := Print(e, ASSIGNMENT);
      ParseAssignment(ts + rest, 0) ==
        if exists k :: 0 <= k < |ts| && Trap(ts + rest, 0, k) then NoExpr else Parsed(e, |ts|)
  {
    var ts := Print(e, ASSIGNMENT);
    assert At(ts + rest, |ts|) == At(rest, 0);
    assert (ts + rest)[0..|ts|] == ts;
    ParsePrinted(ts + rest, 0, e, ASSIGNMENT);
    AstrayIffTrapped(ts + rest, 0, e, ASSIGNMENT);
  }

  function Id(name: string): Token {
    Token(Identifier, name, false)
  }

  lemma PrintName(n: string, level: nat)
    requires level <= POSTFIX
    ensures Print(Name(n), level) == [Id(n)]
  {
  }

  lemma PrintNames(a: string, op: BinOp, b: string, level: nat)
    requires level <= OpLevel(op)
    ensures Print(Binary(Name(a), op, Name(b)), level) == [Id(a), Tok(Operator(op)), Id(b)]
  {
    PrintName(a, OpLevel(op));
    PrintName(b, OpLevel(op) + 1);
  }

  lemma PrintOfBinary(a: Expr, op: BinOp, b: Expr, level: nat)
    ensures var bare := Print(a, OpLevel(op)) + [Tok(Operator(op))] + Print(b, OpLevel(op) + 1);
      Print(Binary(a, op, b), level) == if OpLevel(op) < level then [Tok(LParen)] + bare + [Tok(RParen)] else bare
  {
  }

  function Conjunction(a: string, b: string, c: string, d: string, x: string): Expr {
    Binary(Binary(Binary(Name(a), Less, Name(b)), AmpAmp, Binary(Name(c), Greater, Name(d))), EqualEqual, Name(x))
  }

  lemma PrintOfConjunction(a: string, b: string, c: string, d: string, x: string)
    ensures Print(Conjunction(a, b, c, d, x), ASSIGNMENT) ==
      [Tok(LParen), Id(a), Tok(Operator(Less)), Id(b), Tok(Operator(AmpAmp)), Id(c), Tok(Operator(Greater)), Id(d),
       Tok(RParen),
       Tok(Operator(EqualEqual)), Id(x)]
  {
    hide Print;
    var less, greater := Binary(Name(a), Less, Name(b)), Binary(Name(c), Greater, Name(d));
    PrintNames(a, Less, b, LOGICAL_AND);
    PrintNames(c, Greater, d, LOGICAL_AND + 1);
    PrintOfBinary(less, AmpAmp, greater, EQUALITY);
    PrintOfBinary(Binary(less, AmpAmp, greater), EqualEqual, Name(x), ASSIGNMENT);
    PrintName(x, EQUALITY + 1);
  }

  /** `(a < b && c > d)`: the scan finds a bracket closed before d, and looks at its first
      character. */
  lemma ProbeOfComparisons(toks: seq<Token>)
    requires |toks| >= 9 && forall k :: 0 <= k < 9 ==> !toks[k].newlineBefore
    requires toks[1].kind == toks[3].kind == toks[5].kind == toks[7].kind == Identifier
    requires toks[2].kind == Operator(Less) && toks[4].kind == Operator(AmpAmp) && toks[6].kind == Operator(Greater)
    ensures LooksLikeLambda(toks, 0) <==> StartsWithLetter(toks[7].spelling)
  {
    assert ProbeFinds(toks, 6, 1) <==> StartsWithLetter(toks[7].spelling);
    assert ProbeFinds(toks, 5, 1) == ProbeFinds(toks, 6, 1);
    assert ProbeFinds(toks, 4, 1) == ProbeFinds(toks, 5, 1);
    assert ProbeFinds(toks, 3, 1) == ProbeFinds(toks, 4, 1);
  }

  /** A parenthesised conjunction of `<` and `>` between names parses as an operand only if the
      last name starts outside ASCII: otherwise the two angle brackets are taken for type
      arguments. */
  lemma ConjunctionOfComparisonsFails(a: string, b: string, c: string, d: string, x: string, rest: seq<Token>)
    requires Stops(At(rest, 0), ASSIGNMENT)
    ensures var e := Conjunction(a, b, c, d, x);
      ParseAssignment(Print(e, ASSIGNMENT) + rest, 0) ==
        if StartsWithLetter(d) || "move" in [a, b, c, d, x] then NoExpr else Parsed(e, 11)
  {
    hide ParseAssignment, Print, LooksLikeLambda, ProbeFinds, StartsWithLetter;
    PrintOfConjunction(a, b, c, d, x);
    var toks := Print(Conjunction(a, b, c, d, x), ASSIGNMENT) + rest;
    ProbeOfComparisons(toks);
    TrapsOfConjunction(toks, a, b, c, d, x);
    RoundTrip(Conjunction(a, b, c, d, x), rest);
  }

  lemma TrapsOfConjunction(toks: seq<Token>, a: string, b: string, c: string, d: string, x: string)
    requires |toks| >= 11 && LooksLikeLambda(toks, 0) == StartsWithLetter(d)
    requires toks[..11] ==
      [Tok(LParen), Id(a), Tok(Operator(Less)), Id(b), Tok(Operator(AmpAmp)), Id(c), Tok(Operator(Greater)), Id(d),
       Tok(RParen),
       Tok(Operator(EqualEqual)), Id(x)]
    ensures (exists k :: 0 <= k < 11 && Trap(toks, 0, k)) <==> StartsWithLetter(d) || "move" in [a, b, c, d, x]
  {
    hide LooksLikeLambda, ProbeFinds, StartsWithLetter;
    forall k | 0 <= k < 11 ensures toks[k] == toks[..11][k] {
    }
    assert Trap(toks, 0, 0) <==> StartsWithLetter(d);
    assert Trap(toks, 0, 1) <==> a == "move";
    assert Trap(toks, 0, 3) <==> b == "move";
    assert Trap(toks, 0, 5) <==> c == "move";
    assert Trap(toks, 0, 7) <==> d == "move";
    assert Trap(toks, 0, 10) <==> x == "move";
  }

  // ---------------------------------------------------------------- what a parse has read

  ghost function Read(toks: seq<Token>, i: nat, j: nat): seq<Symbol>
    requires i <= j <= |toks|
  {
    WithoutParens(toks[i..j])
  }

  lemma {:induction false} WithoutParensConcat(a: seq<Token>, b: seq<Token>)
    ensures WithoutParens(a + b) == WithoutParens(a) + WithoutParens(b)
    decreases |a|
  {
    if a == [] {
      assert a + b == b;
    } else {
      assert (a + b)[1..] == a[1..] + b;
      WithoutParensConcat(a[1..], b);
    }
  }

  lemma ReadSplit(toks: seq<Token>, i: nat, m: nat, j: nat)
    requires i <= m <= j <= |toks|
    ensures Read(toks, i, j) == Read(toks, i, m) + Read(toks, m, j)
  {
    assert toks[i..j] == toks[i..m] + toks[m..j];
    WithoutParensConcat(toks[i..m], toks[m..j]);
  }

  lemma ReadToken(toks: seq<Token>, i: nat, j: nat)
    requires i < j <= |toks|
    ensures Read(toks, i, j) ==
      (if toks[i].kind == LParen || toks[i].kind == RParen then [] else [SymbolOf(toks[i])]) + Read(toks, i + 1, j)
  {
    assert toks[i..j][1..] == toks[i + 1..j];
  }

  lemma ReadNothing(toks: seq<Token>, i: nat)
    requires i <= |toks|
    ensures Read(toks, i, i) == []
  {
  }

  /** Whatever tokens it is given: the tree of a successful parse has exactly the tokens that
      were read, parentheses left out, as its leaves and operators from left to right. */
  lemma {:induction false} AssignmentYield(toks: seq<Token>, i: nat)
    requires ParseAssignment(toks, i).Parsed?
    ensures var r := ParseAssignment(toks, i); Yield(r.expr) == Read(toks, i, r.next)
    decreases |toks| - i, 20
  {
    hide Yield, Read, ParseTernary;
    AssignStep(toks, i);
    var r, left := ParseAssignment(toks, i), ParseTernary(toks, i);
    TernaryYield(toks, i);
    if At(toks, left.next).kind.Assignment? {
      AssignmentYield(toks, left.next + 1);
      ReadSplit(toks, i, left.next, r.next);
      ReadToken(toks, left.next, r.next);
      YieldOfAssign(r.expr);
    }
  }

  lemma YieldOfAssign(e: Expr)
    requires e.Assign?
    ensures Yield(e) == Yield(e.target) + ([Symbol(Assignment(e.assign), "")] + Yield(e.value))
  {
  }

  lemma {:induction false} TernaryYield(toks: seq<Token>, i: nat)
    requires ParseTernary(toks, i).Parsed?
    ensures var r := ParseTernary(toks, i); Yield(r.expr) == Read(toks, i, r.next)
    decreases |toks| - i, 19
  {
    hide Yield, Read, ParseLevel;
    var r, c := ParseTernary(toks, i), ParseLevel(toks, i, LOGICAL_OR);
    LevelYield(toks, i, LOGICAL_OR);
    if At(toks, c.next).kind == Question {
      var t := ParseTernary(toks, c.next + 1);
      TernaryYield(toks, c.next + 1);
      TernaryYield(toks, t.next + 1);
      ReadSplit(toks, i, c.next, r.next);
      ReadToken(toks, c.next, r.next);
      ReadSplit(toks, c.next + 1, t.next, r.next);
      ReadToken(toks, t.next, r.next);
      YieldOfTernary(r.expr);
    }
  }

  lemma YieldOfTernary(e: Expr)
    requires e.Ternary?
    ensures Yield(e) ==
      Yield(e.condition) + ([Symbol(Question, "")] + (Yield(e.whenTrue) + ([Symbol(Colon, "")] + Yield(e.whenFalse))))
  {
  }

  lemma {:induction false} LevelYield(toks: seq<Token>, i: nat, level: nat)
    requires LOGICAL_OR <= level <= PREFIX && ParseLevel(toks, i, level).Parsed?
    ensures var r := ParseLevel(toks, i, level); Yield(r.expr) == Read(toks, i, r.next)
    decreases |toks| - i, 18 - level, 1
  {
    hide Yield, Read, Fold;
    if level == PREFIX {
      PrefixYield(toks, i);
    } else {
      var left := ParseLevel(toks, i, level + 1);
      LevelYield(toks, i, level + 1);
      FoldYield(toks, level, left.expr, i, left.next);
    }
  }

  /** Each turn of a loop appends what it has read. */
  lemma {:induction false} FoldYield(toks: seq<Token>, level: nat, left: Expr, start: nat, i: nat)
    requires LOGICAL_OR <= level < PREFIX && start <= i <= |toks| && Fold(toks, level, left, i).Parsed?
    requires Yield(left) == Read(toks, start, i)
    ensures var r := Fold(toks, level, left, i); Yield(r.expr) == Read(toks, start, r.next)
    decreases |toks| - i, 18 - level, 0
  {
    hide Yield, Read, ParseLevel;
    if Continues(At(toks, i), level) {
      var right := ParseLevel(toks, i + 1, level + 1);
      LevelYield(toks, i + 1, level + 1);
      ReadSplit(toks, start, i, right.next);
      ReadToken(toks, i, right.next);
      var grown := Binary(left, toks[i].kind.op, right.expr);
      YieldOfBinary(grown);
      FoldYield(toks, level, grown, start, right.next);
    }
  }

  lemma YieldOfBinary(e: Expr)
    requires e.Binary?
    ensures Yield(e) == Yield(e.left) + ([Symbol(Operator(e.op), "")] + Yield(e.right))
  {
  }

  lemma {:induction false} PrefixYield(toks: seq<Token>, i: nat)
    requires ParsePrefix(toks, i).Parsed?
    ensures var r := ParsePrefix(toks, i); Yield(r.expr) == Read(toks, i, r.next)
    decreases |toks| - i, 4
  {
    hide Read, ParsePostfix;
    var r := ParsePrefix(toks, i);
    if ParsePrefix(toks, i) == ParsePostfix(toks, i) {
      PostfixYield(toks, i);
    } else {
      PrefixYield(toks, i + 1);
      ReadToken(toks, i, r.next);
    }
  }

  lemma {:induction false} PostfixYield(toks: seq<Token>, i: nat)
    requires ParsePostfix(toks, i).Parsed?
    ensures var r := ParsePostfix(toks, i); Yield(r.expr) == Read(toks, i, r.next)
    decreases |toks| - i, 3
  {
    hide Read, ParseAssignment;
    var r := ParsePostfix(toks, i);
    assert ParsePrimary(toks, i) == r;
    if HasText(At(toks, i).kind) {
      ReadToken(toks, i, i + 1);
      ReadNothing(toks, i + 1);
    } else {
      var x := ParseAssignment(toks, i + 1);
      AssignmentYield(toks, i + 1);
      ReadToken(toks, i, r.next);
      if r.next > x.next {
        ReadSplit(toks, i + 1, x.next, r.next);
        ReadToken(toks, x.next, r.next);
        ReadNothing(toks, r.next);
      }
    }
  }
}

/** The printer writes as few parentheses as any token list that parses to the same tree. */
module ParserMinimal {
  import opened Syntax
  import opened ParserSpec
  import opened ParserRoundTrip

  /** How many parentheses are opened. */
  function Opened(tokens: seq<Token>): nat {
    if tokens == [] then 0 else Opened(tokens[..|tokens| - 1]) + if tokens[|tokens| - 1].kind == LParen then 1 else 0
  }

  lemma {:induction false} OpenedConcat(a: seq<Token>, b: seq<Token>)
    ensures Opened(a + b) == Opened(a) + Opened(b)
    decreases |b|
  {
    if b == [] {
      assert a + b == a;
    } else {
      var front := b[..|b| - 1];
      assert (a + b)[..|a + b| - 1] == a + front;
      OpenedConcat(a, front);
    }
  }

  ghost function OpenedIn(toks: seq<Token>, i: nat, j: nat): nat
    requires i <= j <= |toks|
  {
    Opened(toks[i..j])
  }

  lemma OpenedSplit(toks: seq<Token>, i: nat, m: nat, j: nat)
    requires i <= m <= j <= |toks|
    ensures OpenedIn(toks, i, j) == OpenedIn(toks, i, m) + OpenedIn(toks, m, j)
  {
    assert toks[i..j] == toks[i..m] + toks[m..j];
    OpenedConcat(toks[i..m], toks[m..j]);
  }

  lemma OpenedToken(toks: seq<Token>, i: nat, j: nat)
    requires i < j <= |toks|
    ensures OpenedIn(toks, i, j) == (if toks[i].kind == LParen then 1 else 0) + OpenedIn(toks, i + 1, j)
  {
    OpenedSplit(toks, i, i + 1, j);
    assert toks[i..i + 1] == [toks[i]];
    assert Opened([toks[i]]) == if toks[i].kind == LParen then 1 else 0;
  }

  // ---------------------------------------------------------------- the parentheses of a rendering

  function Parens(e: Expr, level: nat): nat
    decreases e, 1
  {
    ParensInside(e) + if ExprLevel(e) < level then 1 else 0
  }

  function ParensInside(e: Expr): nat
    decreases e, 0
  {
    match e
    case Name(_) => 0
    case Number(_) => 0
    case Unary(_, x) => Parens(x, PREFIX)
    case Binary(a, op, b) => Parens(a, OpLevel(op)) + Parens(b, OpLevel(op) + 1)
    case Ternary(c, t, f) => Parens(c, LOGICAL_OR) + Parens(t, TERNARY) + Parens(f, TERNARY)
    case Assign(t, _, v) => Parens(t, TERNARY) + Parens(v, ASSIGNMENT)
  }

  lemma OpenedOne(t: Token)
    ensures Opened([t]) == if t.kind == LParen then 1 else 0
  {
    assert [t][..0] == [];
  }

  lemma OpenedThree(a: seq<Token>, t: Token, b: seq<Token>)
    ensures Opened(a + [t] + b) == Opened(a) + (if t.kind == LParen then 1 else 0) + Opened(b)
  {
    OpenedOne(t);
    OpenedConcat(a, [t]);
    OpenedConcat(a + [t], b);
  }

  lemma {:induction false} ParensOfPrint(e: Expr, level: nat)
    ensures Opened(Print(e, level)) == Parens(e, level)
    decreases e, 1
  {
    hide Opened, ParensInside;
    ParensOfPrintBare(e);
    if ExprLevel(e) < level {
      OpenedThree([], Tok(LParen), PrintBare(e));
      OpenedThree([Tok(LParen)] + PrintBare(e), Tok(RParen), []);
      assert [] + [Tok(LParen)] + PrintBare(e) == [Tok(LParen)] + PrintBare(e);
      assert [Tok(LParen)] + PrintBare(e) + [Tok(RParen)] + [] == Print(e, level);
      assert Opened([]) == 0 by { NothingOpened(); }
    }
  }

  lemma NothingOpened()
    ensures Opened([]) == 0
  {
  }

  lemma {:induction false} ParensOfPrintBare(e: Expr)
    ensures Opened(PrintBare(e)) == ParensInside(e)
    decreases e, 0
  {
    hide Opened, Print, Parens;
    NothingOpened();
    match e
    case Name(n) => OpenedOne(Token(Identifier, n, false));
    case Number(t) => OpenedOne(Token(IntegerLiteral, t, false));
    case Unary(op, x) =>
      ParensOfPrint(x, PREFIX);
      OpenedOne(Tok(PrefixKind(op)));
      OpenedConcat([Tok(PrefixKind(op))], Print(x, PREFIX));
    case Binary(a, op, b) =>
      ParensOfPrint(a, OpLevel(op));
      ParensOfPrint(b, OpLevel(op) + 1);
      OpenedThree(Print(a, OpLevel(op)), Tok(Operator(op)), Print(b, OpLevel(op) + 1));
    case Ternary(c, t, f) =>
      ParensOfPrint(c, LOGICAL_OR);
      ParensOfPrint(t, TERNARY);
      ParensOfPrint(f, TERNARY);
      OpenedThree(Print(c, LOGICAL_OR), Tok(Question), Print(t, TERNARY));
      OpenedThree(Print(c, LOGICAL_OR) + [Tok(Question)] + Print(t, TERNARY), Tok(Colon), Print(f, TERNARY));
    case Assign(t, op, v) =>
      ParensOfPrint(t, TERNARY);
      ParensOfPrint(v, ASSIGNMENT);
      OpenedThree(Print(t, TERNARY), Tok(Assignment(op)), Print(v, ASSIGNMENT));
  }

  // ---------------------------------------------------------------- what a parse has opened

  /** A parse at some level has opened at least the parentheses that its tree needs there. */
  ghost predicate OpensEnough(toks: seq<Token>, i: nat, r: Outcome, level: nat)
    requires i <= |toks|
  {
    r.Parsed? && i <= r.next <= |toks| && Parens(r.expr, level) <= OpenedIn(toks, i, r.next)
  }

  lemma LowerNeedsFewer(e: Expr, level: nat, higher: nat)
    requires level <= higher
    ensures Parens(e, level) <= Parens(e, higher) <= 1 + Parens(e, level)
  {
  }

  lemma {:induction false} AssignmentOpens(toks: seq<Token>, i: nat)
    requires i <= |toks| && ParseAssignment(toks, i).Parsed?
    ensures OpensEnough(toks, i, ParseAssignment(toks, i), ASSIGNMENT)
    decreases |toks| - i, 20
  {
    hide Parens, OpenedIn, ParseTernary;
    AssignStep(toks, i);
    var r, left := ParseAssignment(toks, i), ParseTernary(toks, i);
    TernaryOpens(toks, i);
    if At(toks, left.next).kind.Assignment? {
      AssignmentOpens(toks, left.next + 1);
      OpenedSplit(toks, i, left.next, r.next);
      OpenedToken(toks, left.next, r.next);
      ParensOfAssign(r.expr);
    } else {
      LowerNeedsFewer(left.expr, ASSIGNMENT, TERNARY);
    }
  }

  lemma ParensOfAssign(e: Expr)
    requires e.Assign?
    ensures Parens(e, ASSIGNMENT) == Parens(e.target, TERNARY) + Parens(e.value, ASSIGNMENT)
  {
  }

  lemma {:induction false} TernaryOpens(toks: seq<Token>, i: nat)
    requires i <= |toks| && ParseTernary(toks, i).Parsed?
    ensures OpensEnough(toks, i, ParseTernary(toks, i), TERNARY)
    decreases |toks| - i, 19
  {
    hide Parens, OpenedIn, ParseLevel;
    var r, c := ParseTernary(toks, i), ParseLevel(toks, i, LOGICAL_OR);
    LevelOpens(toks, i, LOGICAL_OR);
    if At(toks, c.next).kind == Question {
      var t := ParseTernary(toks, c.next + 1);
      TernaryOpens(toks, c.next + 1);
      TernaryOpens(toks, t.next + 1);
      OpenedSplit(toks, i, c.next, r.next);
      OpenedToken(toks, c.next, r.next);
      OpenedSplit(toks, c.next + 1, t.next, r.next);
      OpenedToken(toks, t.next, r.next);
      ParensOfTernary(r.expr);
    } else {
      LowerNeedsFewer(c.expr, TERNARY, LOGICAL_OR);
    }
  }

  lemma ParensOfTernary(e: Expr)
    requires e.Ternary?
    ensures Parens(e, TERNARY) == Parens(e.condition, LOGICAL_OR) + Parens(e.whenTrue, TERNARY)
      + Parens(e.whenFalse, TERNARY)
  {
  }

  lemma {:induction false} LevelOpens(toks: seq<Token>, i: nat, level: nat)
    requires LOGICAL_OR <= level <= PREFIX && i <= |toks| && ParseLevel(toks, i, level).Parsed?
    ensures OpensEnough(toks, i, ParseLevel(toks, i, level), level)
    decreases |toks| - i, 18 - level, 1
  {
    hide Parens, OpenedIn, Fold;
    if level == PREFIX {
      PrefixOpens(toks, i);
    } else {
      var left := ParseLevel(toks, i, level + 1);
      LevelOpens(toks, i, level + 1);
      LowerNeedsFewer(left.expr, level, level + 1);
      FoldOpens(toks, level, left.expr, i, left.next);
    }
  }

  lemma {:induction false} FoldOpens(toks: seq<Token>, level: nat, left: Expr, start: nat, i: nat)
    requires LOGICAL_OR <= level < PREFIX && start <= i <= |toks| && Fold(toks, level, left, i).Parsed?
    requires Parens(left, level) <= OpenedIn(toks, start, i)
    ensures OpensEnough(toks, start, Fold(toks, level, left, i), level)
    decreases |toks| - i, 18 - level, 0
  {
    hide Parens, OpenedIn, ParseLevel;
    if Continues(At(toks, i), level) {
      var right := ParseLevel(toks, i + 1, level + 1);
      LevelOpens(toks, i + 1, level + 1);
      OpenedSplit(toks, start, i, right.next);
      OpenedToken(toks, i, right.next);
      var grown := Binary(left, toks[i].kind.op, right.expr);
      ParensOfBinary(grown);
      FoldOpens(toks, level, grown, start, right.next);
    }
  }

  lemma ParensOfBinary(e: Expr)
    requires e.Binary?
    ensures Parens(e, OpLevel(e.op)) == Parens(e.left, OpLevel(e.op)) + Parens(e.right, OpLevel(e.op) + 1)
  {
  }

  lemma {:induction false} PrefixOpens(toks: seq<Token>, i: nat)
    requires i <= |toks| && ParsePrefix(toks, i).Parsed?
    ensures OpensEnough(toks, i, ParsePrefix(toks, i), PREFIX)
    decreases |toks| - i, 4
  {
    hide Parens, OpenedIn, ParsePostfix;
    var r := ParsePrefix(toks, i);
    if ParsePrefix(toks, i) == ParsePostfix(toks, i) {
      PostfixOpens(toks, i);
      LowerNeedsFewer(r.expr, PREFIX, POSTFIX);
    } else {
      PrefixOpens(toks, i + 1);
      OpenedToken(toks, i, r.next);
      ParensOfUnary(r.expr);
    }
  }

  lemma ParensOfUnary(e: Expr)
    requires e.Unary?
    ensures Parens(e, PREFIX) == Parens(e.operand, PREFIX)
  {
  }

  lemma {:induction false} PostfixOpens(toks: seq<Token>, i: nat)
    requires i <= |toks| && ParsePostfix(toks, i).Parsed?
    ensures OpensEnough(toks, i, ParsePostfix(toks, i), POSTFIX)
    decreases |toks| - i, 3
  {
    hide Parens, OpenedIn, ParseAssignment;
    var r := ParsePostfix(toks, i);
    assert ParsePrimary(toks, i) == r;
    if HasText(At(toks, i).kind) {
      LeafNeedsNone(r.expr);
    } else {
      var x := ParseAssignment(toks, i + 1);
      AssignmentOpens(toks, i + 1);
      OpenedToken(toks, i, r.next);
      OpenedSplit(toks, i + 1, x.next, r.next);
      LowerNeedsFewer(x.expr, ASSIGNMENT, POSTFIX);
    }
  }

  lemma LeafNeedsNone(e: Expr)
    requires e.Name? || e.Number?
    ensures Parens(e, POSTFIX) == 0
  {
  }

  // ---------------------------------------------------------------- the theorems

  /** Whatever token list parses to a tree at some level, even one with closing parentheses left
      out: it opens no fewer parentheses than the rendering of the tree for that level. */
  lemma PrintOpensFewest(toks: seq<Token>, i: nat, level: nat)
    requires level <= POSTFIX && i <= |toks| && ParseFrom(toks, i, level).Parsed?
    ensures var r := ParseFrom(toks, i, level);
      i <= r.next <= |toks| && Opened(Print(r.expr, level)) <= Opened(toks[i..r.next])
  {
    ParensOfPrint(ParseFrom(toks, i, level).expr, level);
    if level == ASSIGNMENT {
      AssignmentOpens(toks, i);
    } else if level == TERNARY {
      TernaryOpens(toks, i);
    } else if level == POSTFIX {
      PostfixOpens(toks, i);
    } else {
      LevelOpens(toks, i, level);
    }
  }

  /** No parenthesis of a rendering can be left out: where the printer puts one around e, the
      tokens of e without it do not parse to e, whatever stands around them. */
  lemma ParenthesesAreNeeded(toks: seq<Token>, i: nat, e: Expr, level: nat)
    requires level <= POSTFIX && ExprLevel(e) < level && Stands(toks, i, PrintBare(e))
    ensures ParseFrom(toks, i, level) != Parsed(e, i + |PrintBare(e)|)
  {
    if ParseFrom(toks, i, level) == Parsed(e, i + |PrintBare(e)|) {
      PrintOpensFewest(toks, i, level);
      ParensOfPrint(e, level);
      ParensOfPrintBare(e);
      assert false;
    }
  }
}

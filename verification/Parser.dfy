/** The recursive-descent parser with its two-token window. */
module ExpressionParser {
  import opened Syntax
  import opened ParserSpec

  class Parser {
    const toks: seq<Token>
    var curTok: Token
    var nextTok: Token
    var pos: nat

    /** The window shows the tokens at `pos` and after it. */
    ghost predicate Valid()
      reads this
    {
      pos <= |toks| && curTok == At(toks, pos) && nextTok == At(toks, pos + 1)
    }

    constructor (toks: seq<Token>)
      ensures this.toks == toks && pos == 0 && Valid()
    {
      this.toks := toks;
      curTok, nextTok, pos := At(toks, 0), At(toks, 1), 0;
    }

    method Advance()
      requires Valid() && pos < |toks|
      modifies this
      ensures Valid() && pos == old(pos) + 1
    {
      curTok := nextTok;
      nextTok := At(toks, pos + 2);
      pos := pos + 1;
    }

    method ParseExpression() returns (r: Outcome)
      requires Valid()
      modifies this
      ensures r == ParserSpec.ParseAssignment(toks, old(pos))
      ensures r.Parsed? ==> Valid() && pos == r.next
      decreases |toks| - pos, 21
    {
      r := ParseAssignment();
    }

    method ParseAssignment() returns (r: Outcome)
      requires Valid()
      modifies this
      ensures r == ParserSpec.ParseAssignment(toks, old(pos))
      ensures r.Parsed? ==> Valid() && pos == r.next
      decreases |toks| - pos, 20
    {
      var left := ParseTernary();
      if !left.Parsed? {
        return left;
      }
      if curTok.kind.Assignment? {
        var op := curTok.kind.assign;
        Advance();
        var right := ParseAssignment();
        if !right.Parsed? {
          return right;
        }
        return Parsed(Assign(left.expr, op, right.expr), right.next);
      }
      return left;
    }

    method ParseTernary() returns (r: Outcome)
      requires Valid()
      modifies this
      ensures r == ParserSpec.ParseTernary(toks, old(pos))
      ensures r.Parsed? ==> Valid() && pos == r.next
      decreases |toks| - pos, 19
    {
      var cond := ParseLevel(LOGICAL_OR);
      if !cond.Parsed? {
        return cond;
      }
      if curTok.kind == Question {
        Advance();
        var trueBranch := ParseTernary();
        if !trueBranch.Parsed? {
          return trueBranch;
        }
        if curTok.kind != Colon {
          return NoExpr;
        }
        Advance();
        var falseBranch := ParseTernary();
        if !falseBranch.Parsed? {
          return falseBranch;
        }
        return Parsed(Ternary(cond.expr, trueBranch.expr, falseBranch.expr), falseBranch.next);
      }
      return cond;
    }

    /** One of the eleven left-associative levels: an operand of the next level, and then a
        loop that folds further operands onto its left. */
    method ParseLevel(level: nat) returns (r: Outcome)
      requires Valid() && LOGICAL_OR <= level <= PREFIX
      modifies this
      ensures r == ParserSpec.ParseLevel(toks, old(pos), level)
      ensures r.Parsed? ==> Valid() && pos == r.next
      decreases |toks| - pos, 18 - level
    {
      if level == PREFIX {
        r := ParsePrefix();
        return;
      }
      r := ParseLevel(level + 1);
      while r.Parsed? && Continues(curTok, level)
        invariant r.Parsed? ==> Valid() && pos == r.next && old(pos) < pos
        invariant ParserSpec.ParseLevel(toks, old(pos), level) ==
          if r.Parsed? then Fold(toks, level, r.expr, r.next) else r
        decreases r.Parsed?, |toks| - pos
      {
        var op := curTok.kind.op;
        Advance();
        var right := ParseLevel(level + 1);
        r := if right.Parsed? then Parsed(Binary(r.expr, op, right.expr), right.next) else right;
      }
    }

    method ParsePrefix() returns (r: Outcome)
      requires Valid()
      modifies this
      ensures r == ParserSpec.ParsePrefix(toks, old(pos))
      ensures r.Parsed? ==> Valid() && pos == r.next
      decreases |toks| - pos, 4
    {
      if curTok.kind == Operator(Amp) {
        var isClosureCapture := nextTok.kind == LParen || (nextTok.kind == Identifier && nextTok.spelling == "mut");
        if isClosureCapture {
          r := ParsePostfix();
          return;
        }
      }
      if curTok.kind == Bang || curTok.kind == Tilde || curTok.kind == Operator(Minus) || curTok.kind == Operator(Amp) {
        var op := PrefixOf(curTok.kind);
        Advance();
        var operand := ParsePrefix();
        r := if operand.Parsed? then Parsed(Unary(op, operand.expr), operand.next) else operand;
        return;
      }
      r := ParsePostfix();
    }

    method ParsePostfix() returns (r: Outcome)
      requires Valid()
      modifies this
      ensures r == ParserSpec.ParsePostfix(toks, old(pos))
      ensures r.Parsed? ==> Valid() && pos == r.next
      decreases |toks| - pos, 3
    {
      r := ParsePrimary();
      if r.Parsed? && curTok.kind == LParen && !curTok.newlineBefore {
        r := Beyond;
      }
    }

    method ParsePrimary() returns (r: Outcome)
      requires Valid()
      modifies this
      ensures r == ParserSpec.ParsePrimary(toks, old(pos))
      ensures r.Parsed? ==> Valid() && pos == r.next
      decreases |toks| - pos, 2
    {
      var here := curTok;
      if here.kind == Operator(Amp) || (here.kind == Identifier && here.spelling == "move") {
        return NoExpr;
      }
      match here.kind
      case Identifier =>
        Advance();
        return Parsed(Name(here.spelling), pos);
      case IntegerLiteral =>
        Advance();
        return Parsed(Number(here.spelling), pos);
      case LParen =>
        ghost var start := pos;
        Advance();
        if curTok.kind == RParen || LooksLikeLambda(toks, pos - 1) {
          return NoExpr;
        }
        var inner := ParseExpression();
        if !inner.Parsed? {
          return inner;
        }
        if curTok.kind == Comma {
          return NoExpr;
        }
        if curTok.kind == RParen {
          Advance();
        }
        return Parsed(inner.expr, pos);
      case _ =>
        return NoExpr;
    }
  }
}

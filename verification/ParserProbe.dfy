/** The scan for lambda parameters reads characters; its model reads tokens. They agree. */
module ParserProbe {
  import opened Syntax
  import opened ParserSpec

  // ---------------------------------------------------------------- the scan of characters

  predicate IsBlank(c: char) {
    c == ' ' || c == '\t' || c == '\r' || c == '\n'
  }

  predicate IsLetter(c: char) {
    'a' <= c <= 'z' || 'A' <= c <= 'Z' || c == '_'
  }

  /** After the bracket that closes: a letter, once blanks are skipped. */
  predicate LetterFollows(s: string) {
    s != "" && if IsBlank(s[0]) then LetterFollows(s[1..]) else IsLetter(s[0])
  }

  /** Angle brackets are counted up to the end of the line, a closing parenthesis or the bracket
      that brings the count to zero. */
  predicate Scan(s: string, depth: int) {
    if s == "" || s[0] == ')' || s[0] == '\n' then false
    else if s[0] == '<' then Scan(s[1..], depth + 1)
    else if s[0] == '>' then (if depth == 1 then LetterFollows(s[1..]) else Scan(s[1..], depth - 1))
    else Scan(s[1..], depth)
  }

  // ---------------------------------------------------------------- the characters of tokens

  function OperatorText(op: BinOp): string {
    match op
    case PipePipe => "||"
    case AmpAmp => "&&"
    case Pipe => "|"
    case Caret => "^"
    case Amp => "&"
    case EqualEqual => "=="
    case NotEqual => "!="
    case Less => "<"
    case LessEqual => "<="
    case Greater => ">"
    case GreaterEqual => ">="
    case QuestionQuestion => "??"
    case LessLess => "<<"
    case GreaterGreater => ">>"
    case Plus => "+"
    case Minus => "-"
    case Slash => "/"
    case Percent => "%"
  }

  function AssignText(op: AssignOp): string {
    match op
    case Equal => "="
    case PlusEqual => "+="
    case MinusEqual => "-="
    case StarEqual => "*="
    case SlashEqual => "/="
    case PercentEqual => "%="
    case AmpEqual => "&="
    case PipeEqual => "|="
    case CaretEqual => "^="
    case LessLessEqual => "<<="
    case GreaterGreaterEqual => ">>="
  }

  function Text(t: Token): string {
    match t.kind
    case Identifier => t.spelling
    case IntegerLiteral => t.spelling
    case LParen => "("
    case RParen => ")"
    case Operator(op) => OperatorText(op)
    case Assignment(op) => AssignText(op)
    case Bang => "!"
    case Tilde => "~"
    case Question => "?"
    case Colon => ":"
    case Comma => ","
    case Semicolon => ";"
    case Eof => ""
  }

  /** The text of the tokens from i on up to the end of the file, each after a space or a line
      break. */
  function TextFrom(toks: seq<Token>, i: nat): string
    decreases |toks| - i
  {
    if i >= |toks| || toks[i].kind == Eof then ""
    else (if toks[i].newlineBefore then "\n" else " ") + Text(toks[i]) + TextFrom(toks, i + 1)
  }

  /** A name or number has characters, none of which the scan minds, and no number begins with a
      letter. */
  predicate Spelled(t: Token) {
    HasText(t.kind) ==>
      && t.spelling != "" && (forall c :: c in t.spelling ==> c !in "<>)" && !IsBlank(c))
      && (t.kind.IntegerLiteral? ==> !IsLetter(t.spelling[0]))
  }

  predicate AllSpelled(toks: seq<Token>) {
    forall k :: 0 <= k < |toks| ==> Spelled(toks[k])
  }

  // ---------------------------------------------------------------- token by token

  /** Characters that the scan does not mind. */
  predicate Unminded(s: string) {
    forall c :: c in s ==> c !in "<>)" && c != '\n'
  }

  lemma {:induction false} ScanSkips(s: string, rest: string, depth: int)
    requires Unminded(s)
    ensures Scan(s + rest, depth) == Scan(rest, depth)
    decreases |s|
  {
    if s == "" {
      assert s + rest == rest;
    } else {
      assert (s + rest)[1..] == s[1..] + rest && (s + rest)[0] == s[0] && s[0] in s;
      assert forall c :: c in s[1..] ==> c in s;
      ScanSkips(s[1..], rest, depth);
    }
  }

  lemma {:induction false} LetterAfter(s: string, rest: string)
    requires s != "" && !IsBlank(s[0])
    ensures LetterFollows(" " + s + rest) == IsLetter(s[0]) && LetterFollows("\n" + s + rest) == IsLetter(s[0])
  {
    assert (" " + s + rest)[1..] == s + rest && ("\n" + s + rest)[1..] == s + rest;
    assert (s + rest)[0] == s[0];
  }

  /** The letter that is looked for is the first one of a name. */
  lemma LetterIsName(toks: seq<Token>, i: nat)
    requires AllSpelled(toks)
    ensures LetterFollows(TextFrom(toks, i)) <==> IsLetterName(At(toks, i))
  {
    if i < |toks| && toks[i].kind != Eof {
      assert Spelled(toks[i]);
      TextHasNoBlank(toks[i]);
      LetterAfter(Text(toks[i]), TextFrom(toks, i + 1));
      if HasText(toks[i].kind) {
        assert Text(toks[i]) == toks[i].spelling;
      } else {
        SignIsNoLetter(toks[i]);
      }
    }
  }

  lemma TextHasNoBlank(t: Token)
    requires Spelled(t) && t.kind != Eof
    ensures Text(t) != "" && !IsBlank(Text(t)[0])
  {
    if HasText(t.kind) {
      assert t.spelling[0] in t.spelling;
    }
  }

  lemma SignIsNoLetter(t: Token)
    requires !HasText(t.kind) && t.kind != Eof
    ensures Text(t) != "" && !IsLetter(Text(t)[0])
  {
  }

  /** One token, inside brackets. */
  lemma ScanToken(toks: seq<Token>, i: nat, depth: int, rest: string)
    requires i < |toks| && AllSpelled(toks) && depth > 0 && toks[i].kind != Eof && toks[i].kind != RParen
    requires rest == TextFrom(toks, i + 1)
    ensures var kind := toks[i].kind;
      Scan(Text(toks[i]) + rest, depth) ==
        if depth <= Closes(kind) then
          depth == Closes(kind) && kind.Operator? && kind != Operator(GreaterEqual) && IsLetterName(At(toks, i + 1))
        else Scan(rest, depth + Opens(kind) - Closes(kind))
  {
    var t := toks[i];
    assert Spelled(t);
    LetterIsName(toks, i + 1);
    hide LetterFollows, TextFrom, IsLetterName;
    match t.kind
    case Operator(op) => ScanOperator(op, depth, rest);
    case Assignment(op) => ScanAssignment(op, depth, rest);
    case _ => ScanSkips(Text(t), rest, depth);
  }

  lemma Unfold(c: char, s: string, depth: int)
    ensures Scan([c] + s, depth) ==
      if c == ')' || c == '\n' then false
      else if c == '<' then Scan(s, depth + 1)
      else if c == '>' then (if depth == 1 then LetterFollows(s) else Scan(s, depth - 1))
      else Scan(s, depth)
  {
    assert ([c] + s)[1..] == s;
  }

  lemma ScanOperator(op: BinOp, depth: int, rest: string)
    requires depth > 0
    ensures var kind := Operator(op);
      Scan(OperatorText(op) + rest, depth) ==
        if depth <= Closes(kind) then depth == Closes(kind) && kind != Operator(GreaterEqual) && LetterFollows(rest)
        else Scan(rest, depth + Opens(kind) - Closes(kind))
  {
    var text := OperatorText(op);
    assert text + rest == [text[0]] + (text[1..] + rest);
    Unfold(text[0], text[1..] + rest, depth);
    hide Scan;
    if |text| == 1 {
      assert text[1..] + rest == rest;
    } else {
      assert text[1..] + rest == [text[1]] + rest;
      Unfold(text[1], rest, depth);
      Unfold(text[1], rest, depth + 1);
      Unfold(text[1], rest, depth - 1);
    }
  }

  lemma ScanAssignment(op: AssignOp, depth: int, rest: string)
    requires depth > 0
    ensures var kind := Assignment(op);
      Scan(AssignText(op) + rest, depth) == (depth > Closes(kind) && Scan(rest, depth + Opens(kind) - Closes(kind)))
  {
    var text := AssignText(op);
    assert text + rest == [text[0]] + (text[1..] + rest);
    Unfold(text[0], text[1..] + rest, depth);
    hide Scan;
  }

  /** The scan of the characters of the tokens from i on, inside brackets. */
  lemma {:induction false} ScanIsProbe(toks: seq<Token>, i: nat, depth: int)
    requires AllSpelled(toks) && depth > 0
    ensures Scan(TextFrom(toks, i), depth) <==> ProbeFinds(toks, i, depth)
    decreases |toks| - i
  {
    if i < |toks| && toks[i].kind != Eof {
      var before := if toks[i].newlineBefore then "\n" else " ";
      var rest := TextFrom(toks, i + 1);
      assert TextFrom(toks, i) == before + (Text(toks[i]) + rest);
      Unfold(before[0], Text(toks[i]) + rest, depth);
      assert before == [before[0]];
      if !toks[i].newlineBefore {
        hide Scan, TextFrom;
        if toks[i].kind == RParen {
          Unfold(')', rest, depth);
        } else {
          ScanToken(toks, i, depth, rest);
          if depth > Closes(toks[i].kind) {
            ScanIsProbe(toks, i + 1, depth + Opens(toks[i].kind) - Closes(toks[i].kind));
          }
        }
      }
    }
  }

  /** From the bracket on, without what stands before it, and with nothing counted yet. */
  lemma ProbeIsScan(toks: seq<Token>, i: nat)
    requires AllSpelled(toks) && i < |toks| && toks[i].kind == Operator(Less)
    ensures ProbeFinds(toks, i, 0) <==> Scan(Text(toks[i]) + TextFrom(toks, i + 1), 0)
  {
    Unfold('<', TextFrom(toks, i + 1), 0);
    ScanIsProbe(toks, i + 1, 1);
  }
}

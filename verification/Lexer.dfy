/** The lexer: one cursor over a buffer of bytes, with a state for template strings and a stack
    of brace counts for the interpolations in them. */
module Lexing {
  import opened Escapes
  import opened LexerSpec
  import opened LexerComments

  class Lexer {
    const buffer: string
    /** The length of the legal UTF-8 sequence at a position, 0 if there is none. */
    const utf8: (string, nat) -> nat
    var curPtr: nat
    var fragmentStart: Position
    var state: State
    var interpolationStack: seq<nat>

    constructor (buffer: string, utf8: (string, nat) -> nat)
      requires Decodes(buffer, utf8)
      ensures this.buffer == buffer && this.utf8 == utf8 && Valid()
      ensures curPtr == 0 && state == Normal && interpolationStack == []
    {
      this.buffer, this.utf8 := buffer, utf8;
      curPtr, fragmentStart, state, interpolationStack := 0, Unset, Normal, [];
    }

    /** In a template string the text scanned next starts at the cursor, unless an
        interpolation is still open. */
    ghost predicate Valid()
      reads this
    {
      && Decodes(buffer, utf8)
      && curPtr <= |buffer|
      && (fragmentStart.From? ==> fragmentStart.pos <= curPtr)
      && (state == InTemplate ==> fragmentStart.From?)
      && (state == InTemplate && interpolationStack == [] ==> fragmentStart == From(curPtr))
    }

    function Peek(n: nat): char
      reads this
    {
      At(buffer, curPtr + n)
    }

    function ErrorAt(start: nat): Token
      reads this
    {
      Token(Error, start, if curPtr > start then curPtr - start else 1, false)
    }

    function TokenFrom(kind: TokenKind, start: nat): Token
      requires start <= curPtr
      reads this
    {
      Token(kind, start, curPtr - start, false)
    }

    method SkipRun(p: char -> bool)
      requires curPtr <= |buffer|
      modifies this`curPtr
      ensures curPtr == RunEnd(buffer, old(curPtr), p)
    {
      while curPtr < |buffer| && p(buffer[curPtr])
        invariant curPtr <= |buffer| && RunEnd(buffer, old(curPtr), p) == RunEnd(buffer, curPtr, p)
      {
        curPtr := curPtr + 1;
      }
    }

    // -------------------------------------------------------------- escapes

    /** Skips n hexadecimal digits if they are all there. */
    method ConsumeHex(n: nat) returns (ok: bool)
      requires curPtr <= |buffer|
      modifies this`curPtr
      ensures ok == HexRun(buffer, old(curPtr), n) && curPtr == old(curPtr) + (if ok then n else 0)
    {
      if curPtr + n > |buffer| {
        return false;
      }
      var i := 0;
      while i < n
        invariant i <= n && AllHex(buffer[curPtr..curPtr + i])
      {
        if !IsHexDigit(buffer[curPtr + i]) {
          assert buffer[curPtr..curPtr + n][i] == buffer[curPtr + i];
          return false;
        }
        assert buffer[curPtr..curPtr + i + 1] == buffer[curPtr..curPtr + i] + [buffer[curPtr + i]];
        i := i + 1;
      }
      curPtr := curPtr + n;
      return true;
    }

    /** Hexadecimal digits up to a closing brace. */
    method ConsumeBraced() returns (ok: bool)
      requires curPtr <= |buffer|
      modifies this`curPtr
      ensures var j := HexEnd(buffer, old(curPtr));
        ok == (j < |buffer| && buffer[j] == '}') && curPtr == if ok then j + 1 else j
    {
      while curPtr < |buffer| && buffer[curPtr] != '}'
        invariant curPtr <= |buffer| && HexEnd(buffer, old(curPtr)) == HexEnd(buffer, curPtr)
      {
        if !IsHexDigit(buffer[curPtr]) {
          return false;
        }
        curPtr := curPtr + 1;
      }
      if curPtr >= |buffer| || buffer[curPtr] != '}' {
        return false;
      }
      curPtr := curPtr + 1;
      return true;
    }

    method ConsumeEscape() returns (ok: bool)
      requires curPtr < |buffer|
      modifies this`curPtr
      ensures (ok, curPtr) == ScanEscape(buffer, old(curPtr))
    {
      hide HexRun, HexEnd, IsHexDigit;
      curPtr := curPtr + 1;
      if curPtr >= |buffer| {
        return false;
      }
      var c := buffer[curPtr];
      if c in SIMPLE {
        curPtr := curPtr + 1;
        return true;
      }
      match c
      case 'x' =>
        curPtr := curPtr + 1;
        ok := ConsumeHex(2);
      case 'u' =>
        curPtr := curPtr + 1;
        if curPtr < |buffer| && buffer[curPtr] == '{' {
          curPtr := curPtr + 1;
          ok := ConsumeBraced();
          return;
        }
        ok := ConsumeHex(4);
      case 'U' =>
        curPtr := curPtr + 1;
        ok := ConsumeHex(8);
      case _ =>
        ok := false;
    }

    // -------------------------------------------------------------- trivia

    method SkipComment() returns (closed: bool)
      requires curPtr < |buffer| && CommentAt(buffer, curPtr)
      modifies this`curPtr
      ensures (closed, curPtr) == CommentEnd(buffer, old(curPtr))
      ensures closed <==> LineComment(buffer, old(curPtr), curPtr) || BlockComment(buffer, old(curPtr), curPtr)
      ensures !closed ==> curPtr == |buffer|
    {
      closed := ScanComment();
      CommentIs(buffer, old(curPtr), curPtr);
    }

    method ScanComment() returns (closed: bool)
      requires curPtr < |buffer| && CommentAt(buffer, curPtr)
      modifies this`curPtr
      ensures (closed, curPtr) == CommentEnd(buffer, old(curPtr))
    {
      if Peek(1) == '/' {
        curPtr := curPtr + 2;
        SkipRun(c => c != '\n' && c != '\r');
        return true;
      }
      curPtr := curPtr + 2;
      var depth: nat := 1;
      while curPtr < |buffer|
        invariant curPtr <= |buffer| && depth > 0
        invariant BlockEnd(buffer, old(curPtr) + 2, 1) == BlockEnd(buffer, curPtr, depth)
      {
        if buffer[curPtr] == '/' && Peek(1) == '*' {
          depth := depth + 1;
          curPtr := curPtr + 2;
        } else if buffer[curPtr] == '*' && Peek(1) == '/' {
          depth := depth - 1;
          curPtr := curPtr + 2;
          if depth == 0 {
            return true;
          }
        } else {
          curPtr := curPtr + 1;
        }
      }
      return false;
    }

    /** White space and comments; false at a comment that is not closed. */
    method SkipTrivia() returns (ok: bool)
      requires curPtr <= |buffer|
      modifies this`curPtr
      ensures (ok, curPtr) == TriviaEnd(buffer, old(curPtr))
    {
      while true
        invariant curPtr <= |buffer| && TriviaEnd(buffer, old(curPtr)) == TriviaEnd(buffer, curPtr)
        decreases |buffer| - curPtr
      {
        SkipRun(IsSpace);
        if curPtr >= |buffer| {
          return true;
        }
        if buffer[curPtr] == '/' {
          var nextChar := Peek(1);
          if nextChar == '/' || nextChar == '*' {
            var closed := SkipComment();
            if !closed {
              return false;
            }
            continue;
          }
        }
        return true;
      }
    }

    // -------------------------------------------------------------- words and numbers

    method AdvanceUtf8() returns (ok: bool)
      requires Decodes(buffer, utf8) && curPtr <= |buffer|
      modifies this`curPtr
      ensures ok <==> utf8(buffer, old(curPtr)) > 0
      ensures curPtr == old(curPtr) + utf8(buffer, old(curPtr)) <= |buffer|
    {
      var n := utf8(buffer, curPtr);
      curPtr := curPtr + n;
      ok := n > 0;
    }

    /** No token: the byte at the cursor starts no character. */
    ghost predicate Undecodable()
      reads this
    {
      curPtr < |buffer| && IsUtf8Start(buffer[curPtr]) && utf8(buffer, curPtr) == 0
    }

    /** A word; keywords are words with a spelling of their own. */
    method ScanIdentifier() returns (tok: Token)
      requires Valid() && curPtr < |buffer| && (IsIdentStart(buffer[curPtr]) || IsUtf8Start(buffer[curPtr]))
      modifies this`curPtr
      ensures old(curPtr) <= curPtr <= |buffer| && (curPtr == old(curPtr) <==> old(Undecodable()))
      ensures tok == TokenFrom(Identifier, old(curPtr)) || tok == ErrorAt(old(curPtr))
      ensures (tok.kind != Error, curPtr) == WordEnd(buffer, utf8, old(curPtr))
    {
      var start := curPtr;
      if IsIdentStart(buffer[curPtr]) {
        curPtr := curPtr + 1;
      } else {
        var ok := AdvanceUtf8();
        if !ok {
          return ErrorAt(start);
        }
      }
      while curPtr < |buffer|
        invariant start < curPtr <= |buffer| && WordEnd(buffer, utf8, start) == WordEnd(buffer, utf8, curPtr)
        decreases |buffer| - curPtr
      {
        var c := buffer[curPtr];
        if IsIdentBody(c) {
          curPtr := curPtr + 1;
        } else if IsUtf8Start(c) {
          var ok := AdvanceUtf8();
          if !ok {
            return ErrorAt(start);
          }
        } else {
          break;
        }
      }
      return TokenFrom(Identifier, start);
    }

    /** A leading point with its digits, or a base prefix with its digits. */
    method ScanPrefix() returns (isFloat: bool, base: Base)
      requires curPtr < |buffer|
      modifies this`curPtr
      ensures isFloat <==> buffer[old(curPtr)] == '.'
      ensures base == BaseAt(buffer, old(curPtr))
      ensures old(curPtr) <= curPtr <= |buffer|
      ensures isFloat ==> curPtr == RunEnd(buffer, old(curPtr) + 1, IsDigitOrUnderscore)
      ensures base != NoBase ==>
        old(curPtr) + 2 <= |buffer| && curPtr == RunEnd(buffer, old(curPtr) + 2, BaseDigit(buffer[old(curPtr) + 1]))
      ensures !isFloat && base == NoBase ==> curPtr == old(curPtr)
    {
      hide RunEnd;
      isFloat, base := false, NoBase;
      if buffer[curPtr] == '.' {
        isFloat := true;
        curPtr := curPtr + 1;
        SkipRun(IsDigitOrUnderscore);
      } else if buffer[curPtr] == '0' {
        var next := Peek(1);
        if next == 'x' || next == 'X' {
          base := Hex;
        } else if next == 'b' || next == 'B' {
          base := Bin;
        } else if next == 'o' || next == 'O' {
          base := Octal;
        }
        if base != NoBase {
          curPtr := curPtr + 2;
          SkipRun(BaseDigit(next));
        }
      }
    }

    method ScanFraction() returns (isFloat: bool, hadError: bool)
      requires curPtr <= |buffer|
      modifies this`curPtr
      ensures Digits(curPtr, isFloat, hadError) == Fraction(buffer, old(curPtr))
    {
      hide RunEnd;
      isFloat, hadError := false, false;
      if Peek(0) == '.' {
        if IsDigit(Peek(1)) {
          isFloat := true;
          curPtr := curPtr + 1;
          SkipRun(IsDigitOrUnderscore);
          if Peek(0) == '.' {
            hadError := true;
            SkipRun(IsDigitOrPoint);
          }
        } else if !IsIdentStart(Peek(1)) {
          isFloat := true;
          curPtr := curPtr + 1;
        }
      }
    }

    method ScanExponent() returns (isFloat: bool, hadError: bool)
      requires curPtr <= |buffer|
      modifies this`curPtr
      ensures Digits(curPtr, isFloat, hadError) == Exponent(buffer, old(curPtr))
    {
      hide RunEnd;
      isFloat, hadError := false, false;
      if Peek(0) in "eE" {
        isFloat := true;
        curPtr := curPtr + 1;
        if Peek(0) in "+-" {
          curPtr := curPtr + 1;
        }
        if !IsDigit(Peek(0)) {
          hadError := true;
        }
        SkipRun(IsDigitOrUnderscore);
      }
    }

    method ScanDigits() returns (isFloat: bool, base: Base, hadError: bool)
      requires curPtr < |buffer| && StartsNumber(buffer, curPtr)
      modifies this`curPtr
      ensures base == BaseAt(buffer, old(curPtr))
      ensures Digits(curPtr, isFloat, hadError) == DigitsAt(buffer, old(curPtr))
    {
      hide RunEnd, Fraction, Exponent, BaseDigit;
      isFloat, base := ScanPrefix();
      hadError := false;
      if base == NoBase {
        SkipRun(IsDigitOrUnderscore);
        var fraction, secondPoint := ScanFraction();
        var exponent, noDigits := ScanExponent();
        isFloat := isFloat || fraction || exponent;
        hadError := secondPoint || noDigits;
      }
    }

    method ScanNumber() returns (tok: Token)
      requires curPtr < |buffer| && StartsNumber(buffer, curPtr)
      modifies this`curPtr
      ensures tok == NumberAt(buffer, old(curPtr)) && curPtr == tok.start + tok.length
    {
      hide RunEnd, DigitsAt;
      var start := curPtr;
      var isFloat, base, hadError := ScanDigits();
      var suffix := "";
      if curPtr < |buffer| && (IsIdentStart(buffer[curPtr]) || IsUtf8Start(buffer[curPtr])) {
        var suffixStart := curPtr;
        if !IsIdentBody(buffer[curPtr]) {
          RunEndHere(buffer, curPtr, IsIdentBody);
        }
        SkipRun(IsIdentBody);
        suffix := buffer[suffixStart..curPtr];
        if suffix !in SUFFIXES && suffix != "" {
          hadError := true;
        }
      }
      if buffer[curPtr - 1] == '_' && suffix == "" {
        hadError := true;
      }
      var p := start;
      ghost var errorBefore := hadError;
      while p + 1 < curPtr
        invariant start <= p && p + 1 <= curPtr
        invariant hadError == errorBefore && !DoubleUnderscore(buffer, start, p + 1)
      {
        if buffer[p] == '_' && buffer[p + 1] == '_' {
          hadError := true;
          break;
        }
        p := p + 1;
      }
      if hadError {
        return ErrorAt(start);
      }
      return TokenFrom(NumberKind(isFloat, suffix), start).(suffix := suffix, base := base);
    }

    method ScanChar() returns (tok: Token)
      requires Decodes(buffer, utf8) && curPtr < |buffer| && buffer[curPtr] == '\''
      modifies this`curPtr
      ensures old(curPtr) < curPtr <= |buffer| && tok == Token(tok.kind, old(curPtr), curPtr - old(curPtr), false)
      ensures var (ok, end) := CharEnd(buffer, utf8, old(curPtr));
        if ok && At(buffer, end) == '\'' then tok.kind == CharLiteral && curPtr == end + 1 else tok.kind == Error
    {
      var start := curPtr;
      curPtr := curPtr + 1;
      var ok: bool;
      if Peek(0) == '\\' {
        ok := ConsumeEscape();
      } else {
        ok := AdvanceUtf8();
      }
      if !ok || Peek(0) != '\'' {
        return ErrorAt(start);
      }
      curPtr := curPtr + 1;
      return TokenFrom(CharLiteral, start);
    }

    // -------------------------------------------------------------- operators

    /** Moves over the character expected next. */
    method Accept(c: char) returns (found: bool)
      requires curPtr <= |buffer| && c != '\0'
      modifies this`curPtr
      ensures found <==> At(buffer, old(curPtr)) == c
      ensures curPtr == old(curPtr) + (if found then 1 else 0) <= |buffer|
    {
      found := Peek(0) == c;
      if found {
        curPtr := curPtr + 1;
      }
    }

    /** Moves over one of the characters expected next. */
    method AcceptAny(cs: string) returns (found: bool)
      requires curPtr <= |buffer| && '\0' !in cs
      modifies this`curPtr
      ensures found <==> At(buffer, old(curPtr)) in cs
      ensures curPtr == old(curPtr) + (if found then 1 else 0) <= |buffer|
    {
      found := Peek(0) in cs;
      if found {
        curPtr := curPtr + 1;
      }
    }

    /** Shifts and comparisons. */
    method ScanAngle() returns (n: nat)
      requires curPtr < |buffer| && buffer[curPtr] in "<>"
      modifies this`curPtr
      ensures curPtr == old(curPtr) + n <= |buffer| && LongestOperatorAt(buffer, old(curPtr), n)
    {
      hide OperatorAt, IsOperator, LongestOperatorAt, Seconds;
      ghost var start := curPtr;
      OperatorsAt(buffer, curPtr);
      var c := buffer[curPtr];
      SecondsAre(c);
      curPtr := curPtr + 1;
      var twice := Accept(c);
      var assign := Accept('=');
      n := 1 + (if twice then 1 else 0) + (if assign then 1 else 0);
    }

    /** Any other operator, or an error if the character starts none. */
    method ScanPlain() returns (found: bool, n: nat)
      requires curPtr < |buffer| && buffer[curPtr] !in "<>"
      modifies this`curPtr
      ensures curPtr == old(curPtr) + n <= |buffer| && n > 0
      ensures found <==> buffer[old(curPtr)] in SINGLES
      ensures if found then LongestOperatorAt(buffer, old(curPtr), n) else n == 1
    {
      hide OperatorAt, IsOperator, LongestOperatorAt, Seconds;
      ghost var start := curPtr;
      OperatorsAt(buffer, curPtr);
      var c := buffer[curPtr];
      SecondsAre(c);
      curPtr := curPtr + 1;
      if c == '.' {
        found, n := true, 1;
        if Peek(0) == '.' && Peek(1) == '.' {
          curPtr := curPtr + 2;
          n := 3;
        }
      } else {
        var second := AcceptAny(Seconds(c));
        found, n := c in SINGLES, if second then 2 else 1;
      }
    }

    method ScanSymbol() returns (found: bool, n: nat)
      requires curPtr < |buffer|
      modifies this`curPtr
      ensures curPtr == old(curPtr) + n <= |buffer| && n > 0
      ensures found <==> buffer[old(curPtr)] in SINGLES
      ensures if found then LongestOperatorAt(buffer, old(curPtr), n) else n == 1
    {
      if buffer[curPtr] in "<>" {
        n := ScanAngle();
        found := true;
      } else {
        found, n := ScanPlain();
      }
    }

    /** Counts a brace of the innermost open interpolation; true if it closes it. */
    method CountBrace(c: char) returns (closed: bool)
      modifies this`interpolationStack
      ensures interpolationStack == BracesAfter(old(interpolationStack), c)
      ensures closed <==> c == '}' && old(interpolationStack) != [] && Top(old(interpolationStack)) == 0
      ensures !closed ==> (interpolationStack == [] <==> old(interpolationStack) == [])
    {
      closed := false;
      if c == '{' && interpolationStack != [] {
        interpolationStack := WithTop(interpolationStack, Top(interpolationStack) + 1);
      } else if c == '}' && interpolationStack != [] {
        if Top(interpolationStack) == 0 {
          interpolationStack := interpolationStack[..|interpolationStack| - 1];
          closed := true;
        } else {
          interpolationStack := WithTop(interpolationStack, Top(interpolationStack) - 1);
        }
      }
    }

    /** Braces are counted while an interpolation is open; the one that closes it resumes the
        template string. */
    method ScanOperator() returns (tok: Token)
      requires Valid() && curPtr < |buffer|
      requires state == Normal || interpolationStack != []
      modifies this
      ensures Valid() && old(curPtr) < curPtr
      ensures tok == Token(tok.kind, old(curPtr), curPtr - old(curPtr), false)
      ensures tok.kind in {Operator, InterpolationEnd, Error}
      ensures tok.kind == InterpolationEnd <==>
        buffer[old(curPtr)] == '}' && old(interpolationStack) != [] && Top(old(interpolationStack)) == 0
      ensures tok.kind == Error <==> buffer[old(curPtr)] !in SINGLES
      ensures tok.kind == Operator ==> LongestOperatorAt(buffer, tok.start, tok.length)
      ensures interpolationStack == BracesAfter(old(interpolationStack), buffer[old(curPtr)])
      ensures state == (if tok.kind == InterpolationEnd then InTemplate else old(state))
      ensures fragmentStart == (if tok.kind == InterpolationEnd then From(curPtr) else old(fragmentStart))
    {
      hide Decodes, LongestOperatorAt, BracesAfter, Top;
      var start := curPtr;
      var c := buffer[curPtr];
      var found, n := ScanSymbol();
      var closed := CountBrace(c);
      if closed {
        state := InTemplate;
        fragmentStart := From(curPtr);
        return TokenFrom(InterpolationEnd, start);
      }
      tok := TokenFrom(if found then Operator else Error, start);
    }

    // -------------------------------------------------------------- strings

    /** A double-quoted literal, from its opening quote. */
    method ScanQuoted() returns (tok: Token)
      requires curPtr < |buffer| && buffer[curPtr] == '"'
      modifies this`curPtr
      ensures old(curPtr) < curPtr <= |buffer| && tok.start == old(curPtr) && tok.length == curPtr - tok.start
      ensures var scan := ScanBody(buffer, old(curPtr) + 1, false);
        && tok.kind == (if scan.Accepted? then StringLiteral else Error)
        && (scan.Accepted? ==> curPtr == scan.end && (tok.isEscaped <==> HasBackslash(buffer, tok.start, curPtr)))
    {
      hide ScanEscape, HasBackslash;
      var start := curPtr;
      NoBackslash(buffer, start);
      BackslashGrows(buffer, start, start, start + 1);
      var hasEscape, hadError := false, false;
      curPtr := curPtr + 1;
      while curPtr < |buffer|
        invariant start < curPtr <= |buffer|
        invariant ScanBody(buffer, start + 1, false) == ScanBody(buffer, curPtr, hadError)
        invariant hasEscape <==> HasBackslash(buffer, start, curPtr)
        decreases |buffer| - curPtr
      {
        var c := buffer[curPtr];
        if c == '\n' || c == '\r' {
          return ErrorAt(start);
        }
        if c == '\\' {
          hasEscape := true;
          ghost var here := curPtr;
          var ok := ConsumeEscape();
          BackslashGrows(buffer, start, here, curPtr);
          hadError := hadError || !ok;
          continue;
        }
        BackslashGrows(buffer, start, curPtr, curPtr + 1);
        curPtr := curPtr + 1;
        if c == '"' {
          return if hadError then ErrorAt(start) else TokenFrom(StringLiteral, start).(isEscaped := hasEscape);
        }
      }
      return ErrorAt(start);
    }

    /** The text of a template string from the cursor on, whose fragment began at `start`. What
        ends it decides what follows. */
    method ScanTemplate(start: nat) returns (tok: Token)
      requires curPtr <= |buffer| && start <= curPtr && fragmentStart == From(start) && state == InTemplate
      modifies this
      ensures TextRead(old(interpolationStack), old(curPtr), start, tok)
    {
      hide ScanEscape, HasBackslash;
      var from := curPtr;
      NoBackslash(buffer, from);
      var hasEscape, hadError := false, false;
      while curPtr < |buffer|
        invariant start <= from <= curPtr <= |buffer| && state == InTemplate && fragmentStart == From(start)
        invariant interpolationStack == old(interpolationStack)
        invariant FragmentEnd(buffer, from) == FragmentEnd(buffer, curPtr)
        invariant HasBadEscape(buffer, from) <==> hadError || HasBadEscape(buffer, curPtr)
        invariant hasEscape <==> HasBackslash(buffer, from, curPtr)
        decreases |buffer| - curPtr
      {
        var c := buffer[curPtr];
        if c == '\\' {
          hasEscape := true;
          ghost var here := curPtr;
          var ok := ConsumeEscape();
          BackslashGrows(buffer, from, here, curPtr);
          hadError := hadError || !ok;
          continue;
        }
        if c == '`' {
          curPtr := curPtr + 1;
          state, fragmentStart := Normal, Unset;
          return if hadError then ErrorAt(start) else TokenFrom(TemplateString, start).(isEscaped := hasEscape);
        }
        if c == '$' && Peek(1) == '{' {
          if curPtr == start {
            curPtr := curPtr + 2;
            state := Normal;
            interpolationStack := interpolationStack + [0];
            return Token(InterpolationStart, start, 2, false);
          }
          tok := TokenFrom(StringFragment, start).(isEscaped := hasEscape);
          fragmentStart := From(curPtr);
          return;
        }
        BackslashGrows(buffer, from, curPtr, curPtr + 1);
        curPtr := curPtr + 1;
      }
      state, fragmentStart := Normal, Unset;
      return ErrorAt(start);
    }

    /** What reading the text of a template string from `from` on leaves, if its fragment began
        at `start` and `stack` was open: at the end of the buffer an error, at a backtick the
        whole string, and at an interpolation either the fragment before it or its start. */
    ghost predicate TextRead(stack: seq<nat>, from: nat, start: nat, tok: Token)
      requires start <= from <= |buffer|
      reads this
    {
      var e := FragmentEnd(buffer, from);
      if e == |buffer| then
        Stands(e, Normal, Unset, stack) && tok == ErrorAt(start)
      else if buffer[e] == '`' then
        && Stands(e + 1, Normal, Unset, stack)
        && if HasBadEscape(buffer, from) then tok == ErrorAt(start)
           else tok == Token(TemplateString, start, e + 1 - start, HasBackslash(buffer, from, e))
      else if e == start then
        Stands(e + 2, Normal, From(start), stack + [0]) && tok == Token(InterpolationStart, e, 2, false)
      else
        Stands(e, InTemplate, From(e), stack) &&
        tok == Token(StringFragment, start, e - start, HasBackslash(buffer, from, e))
    }

    ghost predicate Stands(pos: nat, s: State, f: Position, stack: seq<nat>)
      reads this
    {
      curPtr == pos && state == s && fragmentStart == f && interpolationStack == stack
    }

    ghost predicate QuotedRead(stack: seq<nat>, from: nat, tok: Token)
      requires from < |buffer|
      reads this
    {
      var scan := ScanBody(buffer, from + 1, false);
      && state == Normal && interpolationStack == stack && tok.start == from && tok.length == curPtr - from
      && tok.kind == (if scan.Accepted? then StringLiteral else Error)
      && (scan.Accepted? ==> curPtr == scan.end && (tok.isEscaped <==> HasBackslash(buffer, from, scan.end)))
    }

    /** A string, or the next part of a template string. Inside a template string any quote
        goes on with its text. */
    method ScanString() returns (tok: Token)
      requires Valid() && curPtr < |buffer|
      requires buffer[curPtr] in "\"`" || (state == InTemplate && interpolationStack == [])
      modifies this
      ensures Valid() && old(curPtr) < curPtr && tok.kind != Eof
      ensures old(state) == Normal && buffer[old(curPtr)] == '"' ==>
        QuotedRead(old(interpolationStack), old(curPtr), tok)
      ensures old(state) == Normal && buffer[old(curPtr)] != '"' ==>
        TextRead(old(interpolationStack), old(curPtr) + 1, old(curPtr) + 1, tok)
      ensures old(state) == InTemplate ==>
        TextRead(old(interpolationStack), old(curPtr), old(fragmentStart).pos, tok)
    {
      hide ScanBody, Decodes, FragmentEnd, HasBadEscape;
      if state == Normal && buffer[curPtr] == '"' {
        tok := ScanQuoted();
        return;
      }
      if state == Normal {
        curPtr := curPtr + 1;
        state := InTemplate;
        fragmentStart := From(curPtr);
      }
      tok := ScanTemplate(fragmentStart.pos);
    }

    // -------------------------------------------------------------- the next token

    /** Inside the text of a template string. */
    predicate InText()
      reads this
    {
      state == InTemplate && interpolationStack == []
    }

    ghost predicate OperatorRead(stack: seq<nat>, from: nat, tok: Token)
      requires from < |buffer|
      reads this
    {
      var c := buffer[from];
      var closes := c == '}' && stack != [] && Top(stack) == 0;
      && from < curPtr && tok == Token(tok.kind, from, curPtr - from, false)
      && tok.kind == (if closes then InterpolationEnd else if c in SINGLES then Operator else Error)
      && (tok.kind == Operator ==> LongestOperatorAt(buffer, from, tok.length))
      && interpolationStack == BracesAfter(stack, c) && state == (if closes then InTemplate else Normal)
    }

    ghost predicate CharRead(stack: seq<nat>, from: nat, tok: Token)
      requires from < |buffer|
      reads this
    {
      var (ok, end) := CharEnd(buffer, utf8, from);
      && state == Normal && interpolationStack == stack && from < curPtr
      && tok == Token(tok.kind, from, curPtr - from, false)
      && if ok && At(buffer, end) == '\'' then tok.kind == CharLiteral && curPtr == end + 1 else tok.kind == Error
    }

    /** What reading the token at `from` in normal state leaves: its first character decides
        which kind of token it is, where it ends, and what is open afterwards. */
    ghost predicate TokenRead(stack: seq<nat>, from: nat, tok: Token)
      requires from < |buffer| && Decodes(buffer, utf8)
      reads this
    {
      var c := buffer[from];
      if IsIdentStart(c) || IsUtf8Start(c) then
        && state == Normal && interpolationStack == stack && tok.start == from
        && tok.kind in {Identifier, Error} && (tok.kind != Error, curPtr) == WordEnd(buffer, utf8, from)
      else if StartsNumber(buffer, from) then
        && state == Normal && interpolationStack == stack && tok == NumberAt(buffer, from)
        && curPtr == from + tok.length
      else if c == '"' then QuotedRead(stack, from, tok)
      else if c == '`' then TextRead(stack, from + 1, from + 1, tok)
      else if c == '\'' then CharRead(stack, from, tok)
      else OperatorRead(stack, from, tok)
    }

    method ScanToken() returns (tok: Token)
      requires Valid() && curPtr < |buffer| && !InText()
      modifies this
      ensures Valid() && old(curPtr) <= curPtr && tok.kind != Eof
      ensures curPtr == old(curPtr) <==> old(Undecodable())
      ensures old(state) == Normal ==> TokenRead(old(interpolationStack), old(curPtr), tok)
    {
      hide Decodes, LongestOperatorAt, WordEnd, NumberAt, CharEnd, TextRead, QuotedRead, BracesAfter;
      var c := buffer[curPtr];
      if IsIdentStart(c) || IsUtf8Start(c) {
        tok := ScanIdentifier();
      } else if StartsNumber(buffer, curPtr) {
        tok := ScanNumber();
      } else if c == '"' || c == '`' {
        tok := ScanString();
      } else if c == '\'' {
        tok := ScanChar();
      } else {
        tok := ScanOperator();
      }
    }

    /** Every call moves the cursor, in every state, unless the byte at the cursor starts no
        character. */
    method Next() returns (tok: Token)
      requires Valid()
      modifies this
      ensures Valid() && old(curPtr) <= curPtr
      ensures old(curPtr) < |buffer| ==> (curPtr == old(curPtr) <==> !old(InText()) && old(Undecodable()))
      ensures var (closed, from) := TriviaEnd(buffer, old(curPtr));
        && (tok.kind == Eof <==> !old(InText()) && closed && from == |buffer|)
        && (old(state) == Normal && closed && from < |buffer| ==> TokenRead(old(interpolationStack), from, tok))
        && (old(state) == Normal && !closed ==> tok.kind == Error && curPtr == |buffer|)
      ensures old(InText()) && old(curPtr) < |buffer| ==>
        TextRead(old(interpolationStack), old(curPtr), old(curPtr), tok)
    {
      hide Decodes, TextRead, TokenRead;
      if InText() {
        if curPtr >= |buffer| {
          return ErrorAt(fragmentStart.pos);
        }
        tok := ScanString();
        return;
      }
      TriviaIsNothing();
      var ok := SkipTrivia();
      if !ok {
        return ErrorAt(curPtr);
      }
      if curPtr >= |buffer| {
        return Token(Eof, curPtr, 0, false);
      }
      tok := ScanToken();
    }

    /** White space and comments start with bytes that are characters. */
    lemma TriviaIsNothing()
      requires curPtr <= |buffer|
      ensures Undecodable() ==> TriviaEnd(buffer, curPtr) == (true, curPtr)
    {
    }
  }
}

/** The tables of the lexer, written out, and what the text of a template string is made of. */
module LexerTables {
  import opened Escapes
  import opened LexerSpec

  // ---------------------------------------------------------------- operators

  lemma OneCharacterOperators(c: char)
    ensures IsOperator([c]) <==>
      || c == '{' || c == '}' || c == '(' || c == ')' || c == '[' || c == ']'
      || c == '+' || c == '-' || c == '*' || c == '/' || c == '%'
      || c == '<' || c == '>' || c == '=' || c == '!'
      || c == '&' || c == '|' || c == '^' || c == '~'
      || c == '?' || c == '.' || c == ',' || c == ';' || c == ':'
  {
  }

  /** Doubled, with an equals sign, and the arrows, the pipe and optional access. */
  lemma TwoCharacterOperators(c: char, d: char)
    ensures IsOperator([c, d]) <==>
      || (c == d &&
          (c == '+' || c == '-' || c == '*' || c == '<' || c == '>' || c == '=' || c == '&' || c == '|' || c == '?'))
      || (d == '=' && (c == '+' || c == '-' || c == '*' || c == '/' || c == '%' || c == '<' || c == '>' || c == '!' ||
                       c == '&' || c == '|' || c == '^'))
      || (c == '-' && d == '>') || (c == '=' && d == '>') || (c == '|' && d == '>') || (c == '?' && d == '.')
  {
  }

  lemma ThreeCharacterOperators(c: char, d: char, e: char)
    ensures IsOperator([c, d, e]) <==>
      || (c == d && e == '=' && (c == '<' || c == '>'))
      || (c == '.' && d == '.' && e == '.')
  {
    assert [c, d, e] == "..." <==> c == '.' && d == '.' && e == '.';
    assert [c, d, e] == "<<=" <==> c == '<' && d == '<' && e == '=';
    assert [c, d, e] == ">>=" <==> c == '>' && d == '>' && e == '=';
  }

  lemma OtherLengths(op: string)
    requires |op| == 0 || |op| > 3
    ensures !IsOperator(op)
  {
  }

  // ---------------------------------------------------------------- digits of a base

  lemma BaseDigitsAre(c: char)
    ensures BaseDigit('x')(c) == BaseDigit('X')(c) ==
      (48 <= c as nat <= 57 || 65 <= c as nat <= 70 || 97 <= c as nat <= 102 || c == '_')
    ensures BaseDigit('b')(c) == BaseDigit('B')(c) == (c == '0' || c == '1' || c == '_')
    ensures BaseDigit('o')(c) == BaseDigit('O')(c) == (48 <= c as nat <= 55 || c == '_')
    ensures IsDigitOrUnderscore(c) == (48 <= c as nat <= 57 || c == '_')
  {
  }

  // ---------------------------------------------------------------- braces of an interpolation

  /** A closing brace whose partner is not inside the interpolation ends it. */
  lemma InterpolationCloses(outer: seq<nat>, text: string)
    requires (forall k :: 0 <= k <= |text| ==> Depth(text[..k]) >= 0) && Depth(text) == 0
    ensures BracesOver(outer + [0], text + "}") == outer
  {
    InterpolationStaysOpen(outer, text);
    assert (text + "}")[..|text|] == text;
    assert (outer + [0])[..|outer|] == outer;
  }

  // ---------------------------------------------------------------- the text of a template string

  /** One character that neither ends the text nor starts an escape, or one escape, well formed or
      not. */
  predicate TextStep(s: string, i: nat, j: nat) {
    && i < |s| && !(s[i] == '`') && !(s[i] == '$' && i + 1 < |s| && s[i + 1] == '{')
    && if s[i] == '\\' then j == ScanEscape(s, i).1 else j == i + 1
  }

  ghost predicate TextCuts(s: string, i: nat, j: nat, cuts: seq<nat>) {
    && |cuts| > 0 && cuts[0] == i && cuts[|cuts| - 1] == j
    && (forall k :: 0 <= k < |cuts| ==> cuts[k] <= |s|)
    && forall k :: 0 < k < |cuts| ==> TextStep(s, cuts[k - 1], cuts[k])
  }

  /** The text goes on, step by step, to the end of the buffer, a backtick or the start of an
      interpolation; an escape on the way is bad exactly if it is not well formed. */
  lemma {:induction false} TextIs(s: string, i: nat) returns (cuts: seq<nat>)
    requires i <= |s|
    ensures TextCuts(s, i, FragmentEnd(s, i), cuts)
    ensures var j := FragmentEnd(s, i); j == |s| || s[j] == '`' || (s[j] == '$' && j + 1 < |s| && s[j + 1] == '{')
    ensures HasBadEscape(s, i) <==> exists k :: 0 <= k < |cuts| - 1 && BadEscapeAt(s, cuts[k])
    decreases |s| - i
  {
    cuts := [i];
    hide ScanEscape;
    if i < |s| && s[i] != '`' && !(s[i] == '$' && At(s, i + 1) == '{') {
      var next := if s[i] == '\\' then ScanEscape(s, i).1 else i + 1;
      var rest := TextIs(s, next);
      cuts := [i] + rest;
      BadIsOneOf(s, i, rest, cuts);
    }
  }

  predicate BadEscapeAt(s: string, i: nat) {
    i < |s| && s[i] == '\\' && !ScanEscape(s, i).0
  }

  lemma BadIsOneOf(s: string, i: nat, rest: seq<nat>, cuts: seq<nat>)
    requires |rest| > 0 && cuts == [i] + rest
    ensures (exists k :: 0 <= k < |cuts| - 1 && BadEscapeAt(s, cuts[k])) <==>
      BadEscapeAt(s, i) || exists k :: 0 <= k < |rest| - 1 && BadEscapeAt(s, rest[k])
  {
    hide BadEscapeAt;
    if k :| 0 <= k < |rest| - 1 && BadEscapeAt(s, rest[k]) {
      assert cuts[k + 1] == rest[k];
    }
    if k :| 0 <= k < |cuts| - 1 && BadEscapeAt(s, cuts[k]) {
      assert k > 0 ==> rest[k - 1] == cuts[k];
    }
    assert cuts[0] == i;
  }

  // ---------------------------------------------------------------- character literals

  /** Between the quotes of a character literal at i stands one escape, or one character of as many
      bytes as the decoder takes: one below 128, and none at a byte that starts no character. */
  lemma CharactersEnd(s: string, utf8: (string, nat) -> nat, i: nat)
    requires i + 1 < |s| && Decodes(s, utf8)
    ensures s[i + 1] == '\\' ==> CharEnd(s, utf8, i) == ScanEscape(s, i + 1)
    ensures s[i + 1] != '\\' && s[i + 1] as nat < 128 ==> CharEnd(s, utf8, i) == (true, i + 2)
    ensures s[i + 1] as nat >= 128 ==> CharEnd(s, utf8, i) == (utf8(s, i + 1) > 0, i + 1 + utf8(s, i + 1))
  {
  }
}

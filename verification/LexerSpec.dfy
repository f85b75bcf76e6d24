/** What the lexer reads at a position of a buffer of bytes: trivia, operators, words, numbers,
    characters and the text of template strings. */
module LexerSpec {
  import opened Escapes

  // ---------------------------------------------------------------- characters

  predicate IsDigit(c: char) {
    '0' <= c <= '9'
  }

  predicate IsAlpha(c: char) {
    'a' <= c <= 'z' || 'A' <= c <= 'Z'
  }

  predicate IsIdentStart(c: char) {
    IsAlpha(c) || c == '_'
  }

  predicate IsIdentBody(c: char) {
    IsAlpha(c) || IsDigit(c) || c == '_'
  }

  predicate IsUtf8Start(c: char) {
    c as nat >= 0x80
  }

  predicate IsSpace(c: char) {
    c in " \t\r\n" || c as nat == 11 || c as nat == 12
  }

  predicate IsDigitOrUnderscore(c: char) {
    IsDigit(c) || c == '_'
  }

  predicate IsHexOrUnderscore(c: char) {
    IsHexDigit(c) || c == '_'
  }

  predicate IsBinaryOrUnderscore(c: char) {
    c in "01_"
  }

  predicate IsOctalOrUnderscore(c: char) {
    '0' <= c <= '7' || c == '_'
  }

  predicate IsDigitOrPoint(c: char) {
    IsDigitOrUnderscore(c) || c == '.'
  }

  /** The first position from i on whose character does not satisfy p. */
  function RunEnd(s: string, i: nat, p: char -> bool): (j: nat)
    requires i <= |s|
    ensures i <= j <= |s| && (j < |s| ==> !p(s[j]))
    ensures forall k :: i <= k < j ==> p(s[k])
    decreases |s| - i
  {
    if i < |s| && p(s[i]) then RunEnd(s, i + 1, p) else i
  }

  lemma RunEndHere(s: string, i: nat, p: char -> bool)
    requires i < |s| && !p(s[i])
    ensures RunEnd(s, i, p) == i
  {
  }

  // ---------------------------------------------------------------- what lies between tokens

  /** The end of a block comment that is `depth` levels deep at position i. */
  function BlockEnd(s: string, i: nat, depth: nat): (r: (bool, nat))
    requires i <= |s| && depth > 0
    ensures i <= r.1 <= |s| && (!r.0 ==> r.1 == |s|)
    decreases |s| - i
  {
    if i == |s| then (false, i)
    else if s[i] == '/' && At(s, i + 1) == '*' then BlockEnd(s, i + 2, depth + 1)
    else if s[i] == '*' && At(s, i + 1) == '/' then
      if depth == 1 then (true, i + 2) else BlockEnd(s, i + 2, depth - 1)
    else BlockEnd(s, i + 1, depth)
  }

  /** The end of the comment that starts at i; the first component is false if it is not
      closed. */
  function CommentEnd(s: string, i: nat): (r: (bool, nat))
    requires i < |s| && s[i] == '/' && At(s, i + 1) in "/*"
    ensures i + 2 <= r.1 <= |s| && (!r.0 ==> r.1 == |s|)
  {
    if s[i + 1] == '/' then (true, RunEnd(s, i + 2, c => c != '\n' && c != '\r')) else BlockEnd(s, i + 2, 1)
  }

  predicate CommentAt(s: string, i: nat) {
    At(s, i) == '/' && At(s, i + 1) in "/*"
  }

  /** The end of the white space and comments that start at i. */
  function TriviaEnd(s: string, i: nat): (r: (bool, nat))
    requires i <= |s|
    ensures i <= r.1 <= |s|
    ensures !r.0 ==> r.1 == |s| > i
    ensures r.0 && r.1 < |s| ==> !IsSpace(s[r.1]) && !CommentAt(s, r.1)
    decreases |s| - i
  {
    var j := RunEnd(s, i, IsSpace);
    if j == |s| || !CommentAt(s, j) then (true, j)
    else
      var end := CommentEnd(s, j);
      if end.0 then TriviaEnd(s, end.1) else (false, end.1)
  }

  // ---------------------------------------------------------------- operators

  /** The characters that make a two-character operator of c. */
  function Seconds(c: char): string {
    match c
    case '+' => "+="
    case '-' => "-=>"
    case '*' => "*="
    case '<' => "<="
    case '>' => ">="
    case '=' => "=>"
    case '&' => "&="
    case '|' => ">|="
    case '?' => "?."
    case '/' => "="
    case '%' => "="
    case '!' => "="
    case '^' => "="
    case _ => ""
  }

  predicate IsOperator(op: string) {
    || (|op| == 1 && op[0] in SINGLES)
    || (|op| == 2 && op[1] in Seconds(op[0]))
    || op == "<<=" || op == ">>=" || op == "..."
  }

  predicate OperatorAt(s: string, i: nat, n: nat) {
    i + n <= |s| && IsOperator(s[i..i + n])
  }

  /** The longest operator at position i has n characters. */
  ghost predicate LongestOperatorAt(s: string, i: nat, n: nat) {
    OperatorAt(s, i, n) && forall m: nat :: OperatorAt(s, i, m) ==> m <= n
  }

  const SINGLES: string := "{}+-*/%<>=!&|^~?.,;:()[]"

  function LongestBy(one: bool, two: bool, three: bool): nat {
    if three then 3 else if two then 2 else if one then 1 else 0
  }

  lemma OperatorLengths(s: string, i: nat)
    requires i < |s|
    ensures OperatorAt(s, i, 1) <==> s[i] in SINGLES
    ensures OperatorAt(s, i, 2) <==> At(s, i + 1) in Seconds(s[i])
    ensures OperatorAt(s, i, 3) <==>
      At(s, i + 1) == s[i] && ((s[i] in "<>" && At(s, i + 2) == '=') || (s[i] == '.' && At(s, i + 2) == '.'))
    ensures forall m: nat :: OperatorAt(s, i, m) ==> 1 <= m <= 3
  {
    assert s[i..i + 1] == [s[i]];
    if i + 2 <= |s| {
      assert s[i..i + 2] == [s[i], s[i + 1]];
    }
    if i + 3 <= |s| {
      assert s[i..i + 3] == [s[i], s[i + 1], s[i + 2]];
    }
  }

  /** The operators at a position, by their length, and the longest of them. */
  lemma OperatorsAt(s: string, i: nat)
    requires i < |s|
    ensures OperatorAt(s, i, 1) <==> s[i] in SINGLES
    ensures OperatorAt(s, i, 2) <==> At(s, i + 1) in Seconds(s[i])
    ensures OperatorAt(s, i, 3) <==>
      At(s, i + 1) == s[i] && ((s[i] in "<>" && At(s, i + 2) == '=') || (s[i] == '.' && At(s, i + 2) == '.'))
    ensures forall n: nat :: LongestOperatorAt(s, i, n) <==>
      n == LongestBy(OperatorAt(s, i, 1), OperatorAt(s, i, 2), OperatorAt(s, i, 3)) && n > 0
  {
    OperatorLengths(s, i);
    hide OperatorAt, IsOperator, Seconds;
  }

  lemma SecondsAre(c: char)
    ensures '\0' !in Seconds(c)
    ensures c !in SINGLES || c == '.' ==> forall d :: d !in Seconds(c)
    ensures c == '<' || c == '>' ==> forall d :: d in Seconds(c) <==> d == c || d == '='
  {
  }

  // ---------------------------------------------------------------- open interpolations

  function Top(stack: seq<nat>): nat
    requires stack != []
  {
    stack[|stack| - 1]
  }

  function WithTop(stack: seq<nat>, n: nat): seq<nat>
    requires stack != []
  {
    stack[..|stack| - 1] + [n]
  }

  /** The brace counts of the open interpolations after one more operator that starts with c. */
  function BracesAfter(stack: seq<nat>, c: char): seq<nat> {
    if stack == [] || (c != '{' && c != '}') then stack
    else if c == '{' then WithTop(stack, Top(stack) + 1)
    else if Top(stack) == 0 then stack[..|stack| - 1]
    else WithTop(stack, Top(stack) - 1)
  }

  /** ... and after a run of operators, each known by its first character: only operator tokens
      touch the counts (see `TokenRead` of the lexer), so braces in literals do not. */
  function BracesOver(stack: seq<nat>, text: string): seq<nat>
    decreases |text|
  {
    if text == "" then stack else BracesAfter(BracesOver(stack, text[..|text| - 1]), text[|text| - 1])
  }

  /** How many more braces a run of operators opens than it closes. */
  function Depth(text: string): int {
    if text == "" then 0 else
      Depth(text[..|text| - 1]) + (if text[|text| - 1] == '{' then 1 else if text[|text| - 1] == '}' then -1 else 0)
  }

  /** An interpolation stays open as long as every closing brace has a partner inside it, and
      the count then says how many are open: only a brace without a partner ends it. */
  lemma {:induction false} InterpolationStaysOpen(outer: seq<nat>, text: string)
    requires forall k :: 0 <= k <= |text| ==> Depth(text[..k]) >= 0
    ensures Depth(text) >= 0 && BracesOver(outer + [0], text) == outer + [Depth(text)]
    decreases |text|
  {
    assert text[..|text|] == text;
    if text != "" {
      var front := text[..|text| - 1];
      forall k | 0 <= k <= |front|
        ensures Depth(front[..k]) >= 0
      {
        assert front[..k] == text[..k];
      }
      InterpolationStaysOpen(outer, front);
      var stack := outer + [Depth(front)];
      assert stack[..|stack| - 1] == outer;
    }
  }

  // ---------------------------------------------------------------- template strings

  /** Where the text of a template string that goes on at i is interrupted: at a backtick, at
      the start of an interpolation, or at the end of the buffer. */
  function FragmentEnd(s: string, i: nat): (j: nat)
    requires i <= |s|
    ensures i <= j <= |s|
    ensures j < |s| ==> s[j] == '`' || (s[j] == '$' && At(s, j + 1) == '{')
    decreases |s| - i
  {
    if i == |s| || s[i] == '`' || (s[i] == '$' && At(s, i + 1) == '{') then i
    else if s[i] == '\\' then FragmentEnd(s, ScanEscape(s, i).1)
    else FragmentEnd(s, i + 1)
  }

  /** Whether that text holds an escape that is not well formed. */
  function HasBadEscape(s: string, i: nat): bool
    requires i <= |s|
    decreases |s| - i
  {
    if i == |s| || s[i] == '`' || (s[i] == '$' && At(s, i + 1) == '{') then false
    else if s[i] == '\\' then !ScanEscape(s, i).0 || HasBadEscape(s, ScanEscape(s, i).1)
    else HasBadEscape(s, i + 1)
  }

  predicate HasBackslash(s: string, i: nat, j: nat)
    requires i <= j <= |s|
  {
    '\\' in s[i..j]
  }

  lemma NoBackslash(s: string, i: nat)
    requires i <= |s|
    ensures !HasBackslash(s, i, i)
  {
  }

  lemma BackslashGrows(s: string, i: nat, j: nat, j': nat)
    requires i <= j < j' <= |s|
    ensures s[j] == '\\' ==> HasBackslash(s, i, j')
    ensures s[j] != '\\' && j' == j + 1 ==> (HasBackslash(s, i, j') <==> HasBackslash(s, i, j))
  {
    assert s[i..j'][j - i] == s[j];
    if j' == j + 1 {
      assert s[i..j'] == s[i..j] + [s[j]];
    }
  }

  // ---------------------------------------------------------------- tokens

  datatype TokenKind =
    | Eof | Error | Identifier | IntegerLiteral | FloatLiteral | DecimalLiteral | CharLiteral
    | StringLiteral | TemplateString | StringFragment | InterpolationStart | InterpolationEnd
    | Operator

  /** The flag that a base prefix sets. */
  datatype Base = NoBase | Hex | Bin | Octal

  datatype Token = Token(kind: TokenKind, start: nat, length: nat, isEscaped: bool, suffix: string := "",
                         base: Base := NoBase)

  datatype State = Normal | InTemplate

  datatype Position = Unset | From(pos: nat)

  const SUFFIXES: set<string> := {
    "i8", "u8", "i16", "u16", "i32", "u32", "i64", "u64", "isize", "usize", "f8", "f16", "f32", "f64", "d"
  }

  // ---------------------------------------------------------------- words, characters, numbers

  /** The end of a word that goes on at i; the first component is false at a byte that starts no
      character. */
  function WordEnd(s: string, utf8: (string, nat) -> nat, i: nat): (r: (bool, nat))
    requires i <= |s| && forall k :: 0 <= k <= |s| ==> k + utf8(s, k) <= |s|
    ensures i <= r.1 <= |s|
    decreases |s| - i
  {
    if i < |s| && IsIdentBody(s[i]) then WordEnd(s, utf8, i + 1)
    else if i < |s| && IsUtf8Start(s[i]) then
      if utf8(s, i) == 0 then (false, i) else WordEnd(s, utf8, i + utf8(s, i))
    else (true, i)
  }

  /** Where the contents of a character literal that starts at i end: after one escape or one
      character. */
  function CharEnd(s: string, utf8: (string, nat) -> nat, i: nat): (bool, nat)
    requires i < |s|
  {
    if At(s, i + 1) == '\\' then ScanEscape(s, i + 1) else (utf8(s, i + 1) > 0, i + 1 + utf8(s, i + 1))
  }

  datatype Digits = Digits(end: nat, isFloat: bool, hadError: bool)

  function BaseDigit(prefix: char): char -> bool {
    if prefix in "xX" then IsHexOrUnderscore else if prefix in "bB" then IsBinaryOrUnderscore else IsOctalOrUnderscore
  }

  /** A point with the digits after it; a second point is a mistake. */
  function Fraction(s: string, i: nat): (r: Digits)
    requires i <= |s|
    ensures i <= r.end <= |s|
  {
    if At(s, i) != '.' then Digits(i, false, false)
    else if IsDigit(At(s, i + 1)) then
      var j := RunEnd(s, i + 1, IsDigitOrUnderscore);
      if At(s, j) == '.' then Digits(RunEnd(s, j, IsDigitOrPoint), true, true) else Digits(j, true, false)
    else if IsIdentStart(At(s, i + 1)) then Digits(i, false, false)
    else Digits(i + 1, true, false)
  }

  /** An exponent; it must have digits. */
  function Exponent(s: string, i: nat): (r: Digits)
    requires i <= |s|
    ensures i <= r.end <= |s|
  {
    if At(s, i) !in "eE" then Digits(i, false, false)
    else
      var j := if At(s, i + 1) in "+-" then i + 2 else i + 1;
      Digits(RunEnd(s, j, IsDigitOrUnderscore), true, !IsDigit(At(s, j)))
  }

  function AfterPrefix(s: string, i: nat, isFloat: bool): (r: Digits)
    requires i <= |s|
    ensures i <= r.end <= |s|
  {
    var fraction := Fraction(s, RunEnd(s, i, IsDigitOrUnderscore));
    var exponent := Exponent(s, fraction.end);
    Digits(exponent.end, isFloat || fraction.isFloat || exponent.isFloat, fraction.hadError || exponent.hadError)
  }

  predicate StartsNumber(s: string, i: nat) {
    IsDigit(At(s, i)) || (At(s, i) == '.' && IsDigit(At(s, i + 1)))
  }

  /** The number at i up to its suffix. */
  function DigitsAt(s: string, i: nat): (r: Digits)
    requires i < |s| && StartsNumber(s, i)
    ensures i < r.end <= |s|
  {
    if s[i] == '.' then AfterPrefix(s, RunEnd(s, i + 1, IsDigitOrUnderscore), true)
    else if s[i] == '0' && At(s, i + 1) in "xXbBoO" then
      Digits(RunEnd(s, i + 2, BaseDigit(s[i + 1])), false, false)
    else
      assert IsDigitOrUnderscore(s[i]);
      assert RunEnd(s, i, IsDigitOrUnderscore) == RunEnd(s, i + 1, IsDigitOrUnderscore);
      AfterPrefix(s, i, false)
  }

  predicate DoubleUnderscore(s: string, i: nat, j: nat)
    requires i <= j <= |s|
  {
    exists k :: i <= k < j - 1 && s[k] == '_' && s[k + 1] == '_'
  }

  function BaseAt(s: string, i: nat): Base {
    if At(s, i) != '0' then NoBase
    else if At(s, i + 1) in "xX" then Hex else if At(s, i + 1) in "bB" then Bin else if At(s, i + 1) in "oO" then Octal
    else NoBase
  }

  function NumberKind(isFloat: bool, suffix: string): TokenKind {
    if suffix == "d" then DecimalLiteral else if isFloat then FloatLiteral else IntegerLiteral
  }

  /** The token of the number literal at i. */
  function NumberAt(s: string, i: nat): (tok: Token)
    requires i < |s| && StartsNumber(s, i)
    ensures tok.start == i && tok.length > 0 && i + tok.length <= |s| && tok.kind != Eof
  {
    var digits := DigitsAt(s, i);
    var end := if IsIdentStart(At(s, digits.end)) then RunEnd(s, digits.end, IsIdentBody) else digits.end;
    var suffix := s[digits.end..end];
    var bad := digits.hadError || (suffix != "" && suffix !in SUFFIXES)
            || (suffix == "" && s[end - 1] == '_') || DoubleUnderscore(s, i, end);
    if bad then Token(Error, i, end - i, false)
    else Token(NumberKind(digits.isFloat, suffix), i, end - i, false, suffix, BaseAt(s, i))
  }

  lemma {:induction false} RunEndIs(s: string, i: nat, j: nat, p: char -> bool)
    requires i <= j <= |s| && (forall k :: i <= k < j ==> p(s[k])) && (j < |s| ==> !p(s[j]))
    ensures RunEnd(s, i, p) == j
    decreases j - i
  {
    if i < j {
      RunEndIs(s, i + 1, j, p);
    }
  }

  // ---------------------------------------------------------------- which numbers are accepted

  /** Where the parts of a number end: its first digits with a base prefix or a point before
      them, a fraction, an exponent, a suffix. All but the first may be empty. */
  datatype Parts = Parts(lead: nat, fraction: nat, exponent: nat, end: nat)

  /** A digit with digits and underscores after it. */
  predicate DigitRun(s: string, i: nat, j: nat) {
    i < j <= |s| && IsDigit(s[i]) && forall k :: i <= k < j ==> IsDigitOrUnderscore(s[k])
  }

  predicate LeadRun(s: string, i: nat, m: nat) {
    if BaseAt(s, i) != NoBase then i + 2 <= m <= |s| && forall k :: i + 2 <= k < m ==> BaseDigit(s[i + 1])(s[k])
    else DigitRun(s, if At(s, i) == '.' then i + 1 else i, m)
  }

  /** A point with digits, or a bare point. */
  predicate FractionRun(s: string, m: nat, f: nat) {
    f == m || (At(s, m) == '.' && (f == m + 1 || DigitRun(s, m + 1, f)))
  }

  predicate ExponentRun(s: string, f: nat, e: nat) {
    f == e || (At(s, f) in "eE" && DigitRun(s, if At(s, f + 1) in "+-" then f + 2 else f + 1, e))
  }

  /** The parts stand at i. A number in another base has digits and a suffix only, and nothing
      goes with a bare point. */
  predicate Written(s: string, i: nat, p: Parts) {
    && i < p.lead <= p.fraction <= p.exponent <= p.end <= |s|
    && LeadRun(s, i, p.lead) && FractionRun(s, p.lead, p.fraction) && ExponentRun(s, p.fraction, p.exponent)
    && (p.end == p.exponent || s[p.exponent..p.end] in SUFFIXES)
    && (BaseAt(s, i) != NoBase ==> p.exponent == p.lead)
    && (p.fraction == p.lead + 1 ==> p.end == p.fraction)
  }

  /** What follows does not belong to the number: no part could be longer, and no part that is
      missing begins there. */
  predicate Complete(s: string, i: nat, p: Parts) {
    var c, d := At(s, p.end), At(s, p.end + 1);
    if BaseAt(s, i) != NoBase then
      !BaseDigit(s[i + 1])(At(s, p.lead)) && (if p.end == p.lead then !IsIdentStart(c) else !IsIdentBody(c))
    else
      && !IsIdentBody(c)
      && (c == '.' && p.end == p.exponent == p.fraction ==>
            p.fraction == p.lead + 1 || (p.fraction == p.lead && IsIdentStart(d)))
  }

  /** No two underscores in a row, and none at the end. */
  predicate TidyUnderscores(s: string, i: nat, p: Parts)
    requires i < p.exponent <= p.end <= |s|
  {
    !DoubleUnderscore(s, i, p.end) && (p.end == p.exponent ==> s[p.end - 1] != '_')
  }

  predicate Reads(s: string, i: nat, p: Parts) {
    i < |s| && Written(s, i, p) && Complete(s, i, p) && TidyUnderscores(s, i, p)
  }

  predicate IsFloating(s: string, i: nat, p: Parts) {
    At(s, i) == '.' || p.lead < p.exponent
  }

  lemma SuffixChars(suffix: string)
    requires suffix in SUFFIXES
    ensures |suffix| > 0 && suffix[0] in "iufd" && forall c :: c in suffix ==> IsIdentBody(c)
  {
  }

  /** What follows the digits of a number: its suffix, or what follows the number. */
  lemma SuffixIs(s: string, e: nat, end: nat)
    requires e <= end <= |s| && (end == e || s[e..end] in SUFFIXES)
    requires end == e ==> !IsIdentStart(At(s, e))
    requires end > e ==> !IsIdentBody(At(s, end))
    ensures end == if IsIdentStart(At(s, e)) then RunEnd(s, e, IsIdentBody) else e
    ensures end > e ==> At(s, e) in "iufd"
  {
    if end > e {
      var suffix := s[e..end];
      SuffixChars(suffix);
      assert suffix[0] == s[e];
      assert forall k :: e <= k < end ==> s[k] == suffix[k - e];
      RunEndIs(s, e, end, IsIdentBody);
    }
  }

  lemma ExponentIs(s: string, f: nat, e: nat)
    requires f <= e <= |s| && ExponentRun(s, f, e) && !IsDigitOrUnderscore(At(s, e)) && (e == f ==> At(s, f) !in "eE")
    ensures Exponent(s, f) == Digits(e, e != f, false)
    ensures e != f ==> At(s, f) in "eE"
  {
    if e != f {
      RunEndIs(s, if At(s, f + 1) in "+-" then f + 2 else f + 1, e, IsDigitOrUnderscore);
    }
  }

  lemma FractionIs(s: string, m: nat, f: nat)
    requires m <= f <= |s| && FractionRun(s, m, f) && !IsDigitOrUnderscore(At(s, f))
    requires f == m ==> At(s, f) != '.' || IsIdentStart(At(s, f + 1))
    requires f == m + 1 ==> !IsIdentStart(At(s, f))
    requires f > m + 1 ==> At(s, f) != '.'
    ensures Fraction(s, m) == Digits(f, f != m, false)
  {
    if f > m + 1 {
      RunEndIs(s, m + 1, f, IsDigitOrUnderscore);
    }
  }

  /** A number that stands at i and is complete is read, with its kind, suffix and base. */
  lemma NumberIsRead(s: string, i: nat, p: Parts)
    requires Reads(s, i, p)
    ensures StartsNumber(s, i)
    ensures NumberAt(s, i) ==
      Token(NumberKind(IsFloating(s, i, p), s[p.exponent..p.end]), i, p.end - i, false, s[p.exponent..p.end],
        BaseAt(s, i))
  {
    SuffixIs(s, p.exponent, p.end);
    DigitsAre(s, i, p);
    hide RunEnd, DigitsAt, IsDigit;
  }

  /** The first digits: where they begin and end. */
  function LeadStart(s: string, i: nat): nat {
    if BaseAt(s, i) != NoBase then i + 2 else if At(s, i) == '.' then i + 1 else i
  }

  function LeadDigit(s: string, i: nat): char -> bool {
    if BaseAt(s, i) != NoBase then BaseDigit(At(s, i + 1)) else IsDigitOrUnderscore
  }

  lemma DigitsByLead(s: string, i: nat)
    requires i < |s| && StartsNumber(s, i)
    ensures LeadStart(s, i) <= |s|
    ensures var m := RunEnd(s, LeadStart(s, i), LeadDigit(s, i));
      && i < m && (BaseAt(s, i) != NoBase ==> DigitsAt(s, i) == Digits(m, false, false))
      && (BaseAt(s, i) == NoBase ==>
            var f := Fraction(s, m);
            var e := Exponent(s, f.end);
            DigitsAt(s, i) == Digits(e.end, s[i] == '.' || f.isFloat || e.isFloat, f.hadError || e.hadError))
  {
    hide Fraction, Exponent, BaseDigit;
    if BaseAt(s, i) == NoBase {
      var m := RunEnd(s, LeadStart(s, i), LeadDigit(s, i));
      RunEndIs(s, m, m, IsDigitOrUnderscore);
    }
  }

  lemma DigitsAre(s: string, i: nat, p: Parts)
    requires Reads(s, i, p) && (p.end > p.exponent ==> At(s, p.exponent) in "iufd")
    ensures StartsNumber(s, i) && DigitsAt(s, i) == Digits(p.exponent, IsFloating(s, i, p), false)
  {
    DigitsByLead(s, i);
    LeadIs(s, i, p);
    hide RunEnd, DigitsAt, Fraction, Exponent, BaseDigit, LeadRun, FractionRun, ExponentRun, LeadDigit, LeadStart,
      BaseAt, Complete, TidyUnderscores;
    if BaseAt(s, i) == NoBase {
      AfterExponent(s, i, p);
      ExponentIs(s, p.fraction, p.exponent);
      AfterFraction(s, i, p);
      FractionIs(s, p.lead, p.fraction);
    }
  }

  lemma AfterExponent(s: string, i: nat, p: Parts)
    requires Reads(s, i, p) && BaseAt(s, i) == NoBase && (p.end > p.exponent ==> At(s, p.exponent) in "iufd")
    ensures !IsDigitOrUnderscore(At(s, p.exponent)) && At(s, p.exponent) !in "eE"
  {
    hide LeadRun, FractionRun, ExponentRun, BaseDigit, BaseAt, TidyUnderscores;
  }

  lemma AfterFraction(s: string, i: nat, p: Parts)
    requires Reads(s, i, p) && BaseAt(s, i) == NoBase && (p.end > p.exponent ==> At(s, p.exponent) in "iufd")
    requires p.exponent != p.fraction ==> At(s, p.fraction) in "eE"
    ensures !IsDigitOrUnderscore(At(s, p.fraction))
    ensures p.fraction == p.lead ==> At(s, p.fraction) != '.' || IsIdentStart(At(s, p.fraction + 1))
    ensures p.fraction == p.lead + 1 ==> !IsIdentStart(At(s, p.fraction))
    ensures p.fraction > p.lead + 1 ==> At(s, p.fraction) != '.'
  {
    hide LeadRun, FractionRun, ExponentRun, BaseDigit, BaseAt, TidyUnderscores;
  }

  lemma LeadIs(s: string, i: nat, p: Parts)
    requires Reads(s, i, p) && (p.end > p.exponent ==> At(s, p.exponent) in "iufd")
    ensures StartsNumber(s, i) && RunEnd(s, LeadStart(s, i), LeadDigit(s, i)) == p.lead
  {
    RunEndIs(s, LeadStart(s, i), p.lead, LeadDigit(s, i));
  }

  /** The parts that the lexer takes. */
  function PartsAt(s: string, i: nat): Parts
    requires i < |s| && StartsNumber(s, i)
  {
    DigitsByLead(s, i);
    var m := RunEnd(s, LeadStart(s, i), LeadDigit(s, i));
    var e := DigitsAt(s, i).end;
    Parts(m, if BaseAt(s, i) != NoBase then m else Fraction(s, m).end, e, i + NumberAt(s, i).length)
  }

  lemma FractionStands(s: string, m: nat)
    requires m <= |s| && !Fraction(s, m).hadError
    ensures var f := Fraction(s, m).end;
      && FractionRun(s, m, f) && (Fraction(s, m).isFloat <==> f != m)
      && (f == m ==> At(s, f) != '.' || IsIdentStart(At(s, f + 1)))
      && (f == m + 1 ==> !IsDigit(At(s, f)) && !IsIdentStart(At(s, f)))
      && (f > m + 1 ==> At(s, f) != '.' && !IsDigitOrUnderscore(At(s, f)))
  {
  }

  lemma ExponentStands(s: string, f: nat)
    requires f <= |s| && !Exponent(s, f).hadError
    ensures var e := Exponent(s, f).end;
      && ExponentRun(s, f, e) && (Exponent(s, f).isFloat <==> e != f)
      && (e == f ==> At(s, f) !in "eE") && (e != f ==> !IsDigitOrUnderscore(At(s, e)))
  {
  }

  lemma LeadStands(s: string, i: nat)
    requires i < |s| && StartsNumber(s, i)
    ensures LeadStart(s, i) <= |s|
    ensures var m := RunEnd(s, LeadStart(s, i), LeadDigit(s, i));
      LeadRun(s, i, m) && (m < |s| ==> !LeadDigit(s, i)(s[m])) && !LeadDigit(s, i)(At(s, |s|))
  {
    DigitsByLead(s, i);
  }

  lemma SuffixStands(s: string, i: nat)
    requires i < |s| && StartsNumber(s, i) && NumberAt(s, i).kind != Error
    ensures var e, end := DigitsAt(s, i).end, i + NumberAt(s, i).length;
      && !DigitsAt(s, i).hadError && e <= end <= |s|
      && (if end == e then !IsIdentStart(At(s, e))
           else s[e..end] in SUFFIXES && IsIdentStart(s[e]) && !IsIdentBody(At(s, end)))
      && !DoubleUnderscore(s, i, end) && (end == e ==> s[end - 1] != '_')
  {
    hide DigitsAt, DoubleUnderscore;
    SuffixChars("d");
  }

  /** ... stand at i ... */
  lemma AcceptedIsWritten(s: string, i: nat)
    requires i < |s| && StartsNumber(s, i) && NumberAt(s, i).kind != Error
    ensures Written(s, i, PartsAt(s, i))
  {
    var m := PartsAt(s, i).lead;
    DigitsByLead(s, i);
    LeadStands(s, i);
    SuffixStands(s, i);
    hide RunEnd, DigitsAt, NumberAt, Fraction, Exponent, LeadRun, FractionRun, ExponentRun, LeadDigit, LeadStart;
    if BaseAt(s, i) == NoBase {
      FractionStands(s, m);
      ExponentStands(s, Fraction(s, m).end);
    }
  }

  /** ... and are complete, if the number is accepted. */
  lemma AcceptedIsComplete(s: string, i: nat)
    requires i < |s| && StartsNumber(s, i) && NumberAt(s, i).kind != Error
    ensures Complete(s, i, PartsAt(s, i))
  {
    var m := PartsAt(s, i).lead;
    DigitsByLead(s, i);
    LeadStands(s, i);
    SuffixStands(s, i);
    hide RunEnd, DigitsAt, NumberAt, Fraction, Exponent, LeadRun, FractionRun, ExponentRun;
    if BaseAt(s, i) == NoBase {
      FractionStands(s, m);
      ExponentStands(s, Fraction(s, m).end);
    }
  }

  lemma AcceptedReads(s: string, i: nat)
    requires i < |s| && StartsNumber(s, i) && NumberAt(s, i).kind != Error
    ensures Reads(s, i, PartsAt(s, i))
  {
    AcceptedIsWritten(s, i);
    AcceptedIsComplete(s, i);
    SuffixStands(s, i);
    hide RunEnd, DigitsAt, NumberAt, Written, Complete;
  }

  /** What is a number, all bases, exponents and underscores included: the text at i is accepted
      exactly if some parts stand there, are complete and have tidy underscores. They end where
      the token ends. */
  lemma AcceptedIffReads(s: string, i: nat)
    requires i < |s| && StartsNumber(s, i)
    ensures NumberAt(s, i).kind != Error <==> exists p :: Reads(s, i, p)
    ensures forall p :: Reads(s, i, p) ==> NumberAt(s, i).length == p.end - i
  {
    hide Reads, NumberAt;
    if NumberAt(s, i).kind != Error {
      AcceptedReads(s, i);
    }
    forall p | Reads(s, i, p) ensures NumberAt(s, i).kind != Error && NumberAt(s, i).length == p.end - i {
      NumberIsRead(s, i, p);
    }
  }

  /** A base prefix needs no digits, and a number that starts with a point may hold another. */
  lemma OddNumbers()
    ensures NumberAt("0x", 0) == Token(IntegerLiteral, 0, 2, false, "", Hex)
    ensures NumberAt(".5.6", 0) == Token(FloatLiteral, 0, 4, false)
  {
    hide NumberAt;
    NumberIsRead("0x", 0, Parts(2, 2, 2, 2));
    NumberIsRead(".5.6", 0, Parts(2, 4, 4, 4));
  }

  /** What is asked of the decoder: it stays inside the buffer, and a byte below 0x80 is a
      character of its own. */
  ghost predicate Decodes(buffer: string, utf8: (string, nat) -> nat) {
    && (forall i :: 0 <= i <= |buffer| ==> i + utf8(buffer, i) <= |buffer|)
    && (forall i :: 0 <= i < |buffer| && !IsUtf8Start(buffer[i]) ==> utf8(buffer, i) == 1)
  }
}

/** What lies between tokens, and how words and the text of template strings are made up, said
    without the functions that scan them. */
module LexerComments {
  import opened Escapes
  import opened LexerSpec

  // ---------------------------------------------------------------- nested comments

  /** The inside of a block comment: plain characters and comments. */
  datatype Body = Nothing | Character(rest: Body) | Comment(inside: Body, after: Body)

  function Length(b: Body): nat {
    match b
    case Nothing => 0
    case Character(rest) => 1 + Length(rest)
    case Comment(inside, after) => 2 + Length(inside) + 2 + Length(after)
  }

  predicate OpensAt(s: string, i: nat) {
    i + 2 <= |s| && s[i] == '/' && s[i + 1] == '*'
  }

  predicate ClosesAt(s: string, i: nat) {
    i + 2 <= |s| && s[i] == '*' && s[i + 1] == '/'
  }

  /** The body stands at i: no plain character starts a mark, and each comment has both marks. */
  predicate BodyAt(s: string, i: nat, b: Body)
    decreases b
  {
    match b
    case Nothing => i <= |s|
    case Character(rest) => i < |s| && !OpensAt(s, i) && !ClosesAt(s, i) && BodyAt(s, i + 1, rest)
    case Comment(inside, after) =>
      && OpensAt(s, i) && BodyAt(s, i + 2, inside)
      && ClosesAt(s, i + 2 + Length(inside)) && BodyAt(s, i + 2 + Length(inside) + 2, after)
  }

  /** One character or mark. */
  lemma BlockStep(s: string, i: nat, depth: nat)
    requires i < |s| && depth > 0
    ensures OpensAt(s, i) ==> !ClosesAt(s, i) && BlockEnd(s, i, depth) == BlockEnd(s, i + 2, depth + 1)
    ensures ClosesAt(s, i) ==>
      BlockEnd(s, i, depth) == if depth == 1 then (true, i + 2) else BlockEnd(s, i + 2, depth - 1)
    ensures !OpensAt(s, i) && !ClosesAt(s, i) ==> BlockEnd(s, i, depth) == BlockEnd(s, i + 1, depth)
  {
  }

  lemma CharacterBody(s: string, i: nat, rest: Body)
    ensures BodyAt(s, i, Character(rest)) <==>
      i < |s| && !OpensAt(s, i) && !ClosesAt(s, i) && BodyAt(s, i + 1, rest)
    ensures Length(Character(rest)) == 1 + Length(rest)
  {
  }

  lemma CommentBody(s: string, i: nat, inside: Body, after: Body)
    ensures BodyAt(s, i, Comment(inside, after)) <==>
      && OpensAt(s, i) && BodyAt(s, i + 2, inside)
      && ClosesAt(s, i + 2 + Length(inside)) && BodyAt(s, i + 2 + Length(inside) + 2, after)
    ensures Length(Comment(inside, after)) == 2 + Length(inside) + 2 + Length(after)
  {
  }

  lemma NoBody(s: string, i: nat)
    ensures BodyAt(s, i, Nothing) <==> i <= |s|
    ensures Length(Nothing) == 0
  {
  }

  /** A body does not change how deep one is. */
  lemma {:induction false} BodyIsPassed(s: string, i: nat, b: Body, depth: nat)
    requires BodyAt(s, i, b) && depth > 0
    ensures i + Length(b) <= |s| && BlockEnd(s, i, depth) == BlockEnd(s, i + Length(b), depth)
    decreases b
  {
    hide BlockEnd, OpensAt, ClosesAt, BodyAt, Length;
    match b
    case Nothing =>
      NoBody(s, i);
    case Character(rest) =>
      CharacterBody(s, i, rest);
      BlockStep(s, i, depth);
      BodyIsPassed(s, i + 1, rest, depth);
    case Comment(inside, after) =>
      CommentBody(s, i, inside, after);
      MarksFit(s, i);
      BodyIsPassed(s, i + 2, inside, depth + 1);
      CommentIsPassed(s, i, i + 2 + Length(inside), depth);
      BodyIsPassed(s, i + 2 + Length(inside) + 2, after, depth);
  }

  lemma CommentIsPassed(s: string, i: nat, j: nat, depth: nat)
    requires OpensAt(s, i) && ClosesAt(s, j) && i + 2 <= j && depth > 0
    requires BlockEnd(s, i + 2, depth + 1) == BlockEnd(s, j, depth + 1)
    ensures j + 2 <= |s| && BlockEnd(s, i, depth) == BlockEnd(s, j + 2, depth)
  {
    MarksFit(s, i);
    MarksFit(s, j);
    BlockStep(s, i, depth);
    BlockStep(s, j, depth + 1);
    hide BlockEnd;
  }

  /** The body b stands from i to j, and there the innermost open comment is closed. */
  ghost predicate BodyUpTo(s: string, i: nat, depth: nat, b: Body, j: nat)
    requires i <= |s| && depth > 0
  {
    && BodyAt(s, i, b) && j == i + Length(b) && ClosesAt(s, j)
    && BlockEnd(s, i, depth) == if depth == 1 then (true, j + 2) else BlockEnd(s, j + 2, depth - 1)
  }

  /** What lies before the mark that closes the innermost open comment is a body. */
  lemma {:induction false} BodyIsThere(s: string, i: nat, depth: nat) returns (b: Body, j: nat)
    requires i <= |s| && depth > 0 && BlockEnd(s, i, depth).0
    ensures BodyUpTo(s, i, depth, b, j)
    decreases |s| - i
  {
    NotAtEnd(s, i, depth);
    hide BlockEnd, OpensAt, ClosesAt, BodyUpTo;
    BlockStep(s, i, depth);
    MarksFit(s, i);
    if OpensAt(s, i) {
      var inside, m := BodyIsThere(s, i + 2, depth + 1);
      InsideEnds(s, i, depth, inside, m);
      var after;
      after, j := BodyIsThere(s, m + 2, depth);
      b := Comment(inside, after);
      CommentUpTo(s, i, depth, inside, m, after, j);
    } else if ClosesAt(s, i) {
      b, j := Nothing, i;
      NothingUpTo(s, i, depth);
    } else {
      var rest;
      rest, j := BodyIsThere(s, i + 1, depth);
      b := Character(rest);
      CharacterUpTo(s, i, depth, rest, j);
    }
  }

  lemma InsideEnds(s: string, i: nat, depth: nat, inside: Body, m: nat)
    requires i + 2 <= |s| && depth > 0 && BodyUpTo(s, i + 2, depth + 1, inside, m)
    requires BlockEnd(s, i + 2, depth + 1).0
    ensures i + 2 <= m && m + 2 <= |s| && BlockEnd(s, m + 2, depth).0
  {
    hide BlockEnd, BodyAt, Length;
  }

  lemma NothingUpTo(s: string, i: nat, depth: nat)
    requires i < |s| && depth > 0 && ClosesAt(s, i)
    ensures BodyUpTo(s, i, depth, Nothing, i)
  {
    BlockStep(s, i, depth);
    hide BlockEnd, OpensAt;
  }

  lemma CharacterUpTo(s: string, i: nat, depth: nat, rest: Body, j: nat)
    requires i < |s| && depth > 0 && !OpensAt(s, i) && !ClosesAt(s, i) && BodyUpTo(s, i + 1, depth, rest, j)
    ensures BodyUpTo(s, i, depth, Character(rest), j)
  {
    BlockStep(s, i, depth);
    CharacterBody(s, i, rest);
    hide BlockEnd, OpensAt, BodyAt, Length;
  }

  lemma CommentUpTo(s: string, i: nat, depth: nat, inside: Body, m: nat, after: Body, j: nat)
    requires i + 2 <= |s| && depth > 0 && OpensAt(s, i) && BodyUpTo(s, i + 2, depth + 1, inside, m)
    requires m + 2 <= |s| && BodyUpTo(s, m + 2, depth, after, j)
    ensures BodyUpTo(s, i, depth, Comment(inside, after), j)
  {
    BlockStep(s, i, depth);
    CommentBody(s, i, inside, after);
    hide BlockEnd, OpensAt, BodyAt, Length;
  }

  lemma NotAtEnd(s: string, i: nat, depth: nat)
    requires i <= |s| && depth > 0 && BlockEnd(s, i, depth).0
    ensures i < |s|
  {
  }

  lemma MarksFit(s: string, i: nat)
    ensures OpensAt(s, i) || ClosesAt(s, i) ==> i + 2 <= |s|
  {
  }

  /** A block comment from i ends at `end`: its marks stand around a body. */
  ghost predicate BlockComment(s: string, i: nat, end: nat) {
    OpensAt(s, i) && exists b :: BodyAt(s, i + 2, b) && ClosesAt(s, i + 2 + Length(b)) && end == i + 2 + Length(b) + 2
  }

  /** A line comment: up to the end of the line, or of the buffer. */
  predicate LineComment(s: string, i: nat, end: nat) {
    && i + 2 <= end <= |s| && s[i] == '/' && s[i + 1] == '/'
    && (forall k :: i + 2 <= k < end ==> s[k] != '\n' && s[k] != '\r')
    && (end < |s| ==> s[end] == '\n' || s[end] == '\r')
  }

  /** A comment is closed at `end` exactly if it is a line comment that ends there, or a block
      comment with properly nested ones inside. */
  lemma CommentIs(s: string, i: nat, end: nat)
    requires i < |s| && CommentAt(s, i)
    ensures CommentEnd(s, i) == (true, end) <==> LineComment(s, i, end) || BlockComment(s, i, end)
    ensures !CommentEnd(s, i).0 ==> CommentEnd(s, i).1 == |s|
  {
    if s[i + 1] == '/' {
      RunIsLine(s, i, end);
    } else {
      assert OpensAt(s, i);
      if CommentEnd(s, i) == (true, end) {
        var b, j := BodyIsThere(s, i + 2, 1);
      }
      if b :| BodyAt(s, i + 2, b) && ClosesAt(s, i + 2 + Length(b)) && end == i + 2 + Length(b) + 2 {
        BodyIsPassed(s, i + 2, b, 1);
      }
    }
  }

  lemma RunIsLine(s: string, i: nat, end: nat)
    requires i + 2 <= |s| && s[i] == '/' && s[i + 1] == '/'
    ensures RunEnd(s, i + 2, c => c != '\n' && c != '\r') == end <==> LineComment(s, i, end)
  {
    if LineComment(s, i, end) {
      RunEndIs(s, i + 2, end, c => c != '\n' && c != '\r');
    }
  }

  /** An open block comment, as deep as it may be. */
  lemma OpenIsOpen(s: string, i: nat)
    requires i < |s| && CommentAt(s, i)
    ensures !CommentEnd(s, i).0 <==> OpensAt(s, i) && forall end :: !BlockComment(s, i, end)
  {
    hide BlockComment;
    CommentIs(s, i, CommentEnd(s, i).1);
    if OpensAt(s, i) && CommentEnd(s, i).0 {
      assert BlockComment(s, i, CommentEnd(s, i).1);
    }
    forall end | BlockComment(s, i, end) ensures CommentEnd(s, i).0 {
      CommentIs(s, i, end);
    }
  }

  // ---------------------------------------------------------------- white space and comments

  /** White space: space, tab, line feed, vertical tab, form feed, carriage return. */
  predicate Blank(c: char) {
    c as nat in {9, 10, 11, 12, 13, 32}
  }

  /** The cuts lead from i to j over blanks and closed comments. */
  ghost predicate TriviaCuts(s: string, i: nat, j: nat, cuts: seq<nat>) {
    && |cuts| > 0 && cuts[0] == i && cuts[|cuts| - 1] == j
    && (forall k :: 0 <= k < |cuts| ==> cuts[k] <= |s|)
    && forall k :: 0 < k < |cuts| ==> TriviaStep(s, cuts[k - 1], cuts[k])
  }

  ghost predicate TriviaStep(s: string, i: nat, j: nat) {
    (i < |s| && Blank(s[i]) && j == i + 1) || LineComment(s, i, j) || BlockComment(s, i, j)
  }

  predicate MarkAt(s: string, i: nat) {
    i + 2 <= |s| && s[i] == '/' && (s[i + 1] == '/' || s[i + 1] == '*')
  }

  /** After blanks and closed comments comes a character that starts neither, or the end of the
      buffer; or an open comment, and then the whole buffer is used up. */
  lemma {:induction false} TriviaIs(s: string, i: nat) returns (j: nat, cuts: seq<nat>)
    requires i <= |s|
    ensures TriviaCuts(s, i, j, cuts) && j <= |s|
    ensures TriviaEnd(s, i).0 ==> TriviaEnd(s, i).1 == j && (j < |s| ==> !Blank(s[j]) && !MarkAt(s, j))
    ensures !TriviaEnd(s, i).0 ==> TriviaEnd(s, i).1 == |s| && OpensAt(s, j) && forall end :: !BlockComment(s, j, end)
    decreases |s| - i
  {
    j, cuts := i, [i];
    TriviaAtEnd(s, i);
    assert TriviaCuts(s, i, i, [i]);
    hide TriviaEnd, TriviaCuts, BlockComment, LineComment, CommentEnd, IsSpace, Blank, CommentAt, OpensAt, MarkAt;
    if i < |s| {
      WordChars(s[i]);
      TriviaStarts(s, i);
      if IsSpace(s[i]) {
        var rest;
        j, rest := TriviaIs(s, i + 1);
        assert TriviaStep(s, i, i + 1);
        cuts := CutsGrow(s, i, i + 1, j, rest);
      } else if CommentAt(s, i) {
        CommentIs(s, i, CommentEnd(s, i).1);
        OpenIsOpen(s, i);
        if CommentEnd(s, i).0 {
          var rest;
          j, rest := TriviaIs(s, CommentEnd(s, i).1);
          cuts := CutsGrow(s, i, CommentEnd(s, i).1, j, rest);
        }
      }
    }
  }

  lemma TriviaAtEnd(s: string, i: nat)
    requires i <= |s|
    ensures i == |s| ==> TriviaEnd(s, i) == (true, i)
  {
  }

  lemma CutsGrow(s: string, i: nat, next: nat, j: nat, rest: seq<nat>) returns (cuts: seq<nat>)
    requires i <= |s| && TriviaStep(s, i, next) && TriviaCuts(s, next, j, rest)
    ensures TriviaCuts(s, i, j, cuts)
  {
    hide TriviaStep;
    cuts := [i] + rest;
  }

  lemma TriviaStarts(s: string, i: nat)
    requires i < |s|
    ensures IsSpace(s[i]) ==> TriviaEnd(s, i) == TriviaEnd(s, i + 1)
    ensures !IsSpace(s[i]) && !CommentAt(s, i) ==> TriviaEnd(s, i) == (true, i) && !MarkAt(s, i)
    ensures !IsSpace(s[i]) && CommentAt(s, i) ==>
      TriviaEnd(s, i) == if CommentEnd(s, i).0 then TriviaEnd(s, CommentEnd(s, i).1) else CommentEnd(s, i)
    ensures CommentAt(s, i) ==> i < CommentEnd(s, i).1 <= |s|
  {
    hide BlockEnd;
    if !IsSpace(s[i]) {
      RunStops(s, i);
    }
  }

  lemma RunStops(s: string, i: nat)
    requires i <= |s| && (i < |s| ==> !IsSpace(s[i]))
    ensures RunEnd(s, i, IsSpace) == i
  {
  }

  // ---------------------------------------------------------------- words

  /** The cuts lead from i to j over letters, digits, underscores and decoded characters. */
  ghost predicate WordCuts(s: string, utf8: (string, nat) -> nat, i: nat, j: nat, cuts: seq<nat>) {
    && |cuts| > 0 && cuts[0] == i && cuts[|cuts| - 1] == j
    && (forall k :: 0 <= k < |cuts| ==> cuts[k] <= |s|)
    && forall k :: 0 < k < |cuts| ==> WordStep(s, utf8, cuts[k - 1], cuts[k])
  }

  /** Upper-case letters, the underscore, lower-case letters ... */
  predicate WordStart(c: char) {
    65 <= c as nat <= 90 || c as nat == 95 || 97 <= c as nat <= 122
  }

  /** ... and digits. */
  predicate WordChar(c: char) {
    WordStart(c) || 48 <= c as nat <= 57
  }

  predicate WordStep(s: string, utf8: (string, nat) -> nat, i: nat, j: nat) {
    && i < |s|
    && ((WordChar(s[i]) && j == i + 1) || (s[i] as nat >= 128 && utf8(s, i) > 0 && j == i + utf8(s, i)))
  }

  lemma WordChars(c: char)
    ensures IsIdentBody(c) <==> WordChar(c)
    ensures IsIdentStart(c) <==> WordStart(c)
    ensures IsDigit(c) <==> 48 <= c as nat <= 57
    ensures IsSpace(c) <==> Blank(c)
  {
  }

  /** A word goes on over all such characters, up to one that is none, to the end of the buffer, or
      to a byte that starts no character. */
  lemma {:induction false} WordIs(s: string, utf8: (string, nat) -> nat, i: nat) returns (j: nat, cuts: seq<nat>)
    requires i <= |s| && forall k :: 0 <= k <= |s| ==> k + utf8(s, k) <= |s|
    ensures WordCuts(s, utf8, i, j, cuts) && j <= |s| && WordEnd(s, utf8, i).1 == j
    ensures WordEnd(s, utf8, i).0 <==> j == |s| || (!WordChar(s[j]) && s[j] as nat < 128)
    ensures !WordEnd(s, utf8, i).0 <==> j < |s| && s[j] as nat >= 128 && utf8(s, j) == 0
    decreases |s| - i
  {
    j, cuts := i, [i];
    if i < |s| {
      WordChars(s[i]);
      hide IsIdentBody, WordChar;
      if IsIdentBody(s[i]) || (IsUtf8Start(s[i]) && utf8(s, i) > 0) {
        var rest;
        j, rest := WordIs(s, utf8, if IsIdentBody(s[i]) then i + 1 else i + utf8(s, i));
        cuts := [i] + rest;
      }
    }
  }
}

/** The lexer and the evaluator read the same pieces. */
module EscapeAgreement {
  import opened Escapes

  predicate Stands(s: string, i: nat, t: string) {
    i + |t| <= |s| && s[i..i + |t|] == t
  }

  lemma StandsSplit(s: string, i: nat, a: string, b: string)
    requires Stands(s, i, a + b)
    ensures Stands(s, i, a) && Stands(s, i + |a|, b)
  {
    assert (a + b)[..|a|] == a && (a + b)[|a|..] == b;
  }

  lemma StandsJoin(s: string, i: nat, a: string, b: string)
    requires Stands(s, i, a) && Stands(s, i + |a|, b)
    ensures Stands(s, i, a + b)
  {
    assert s[i..i + |a| + |b|] == s[i..i + |a|] + s[i + |a|..i + |a| + |b|];
  }

  lemma StandsChar(s: string, i: nat, t: string, k: nat)
    requires Stands(s, i, t) && k < |t|
    ensures i + k < |s| && s[i + k] == t[k]
  {
    assert s[i..i + |t|][k] == s[i + k];
  }

  /** A run of digits ends where the first other character stands. */
  lemma {:induction false} HexEndIs(s: string, i: nat, j: nat)
    requires i <= j <= |s| && AllHex(s[i..j]) && (j < |s| ==> !IsHexDigit(s[j]))
    ensures HexEnd(s, i) == j
    decreases j - i
  {
    if i < j {
      assert s[i..j][0] == s[i] && s[i..j][1..] == s[i + 1..j];
      HexEndIs(s, i + 1, j);
    }
  }

  lemma {:induction false} FindBraceIs(s: string, i: nat, j: nat)
    requires i <= j < |s| && AllHex(s[i..j]) && s[j] == '}'
    ensures FindBrace(s, i) == j
    decreases j - i
  {
    if i < j {
      assert s[i..j][0] == s[i] && s[i..j][1..] == s[i + 1..j];
      assert IsHexDigit(s[i]);
      FindBraceIs(s, i + 1, j);
    }
  }

  // ---------------------------------------------------------------- one escape

  lemma RunStands(s: string, i: nat, d: string)
    requires Stands(s, i, d) && AllHex(d)
    ensures HexRun(s, i, |d|)
  {
  }

  /** The three parts of `\u{...}`. */
  lemma BracedStands(s: string, i: nat, d: string)
    requires Stands(s, i, "\\u{" + d + "}") && AllHex(d)
    ensures i + 3 + |d| < |s| && s[i] == '\\' && s[i + 1] == 'u' && s[i + 2] == '{' && s[i + 3 + |d|] == '}'
    ensures s[i + 3..i + 3 + |d|] == d
    ensures HexEnd(s, i + 3) == i + 3 + |d| && FindBrace(s, i + 3) == i + 3 + |d|
  {
    var t := "\\u{" + d + "}";
    StandsChar(s, i, t, 0);
    StandsChar(s, i, t, 1);
    StandsChar(s, i, t, 2);
    StandsChar(s, i, t, 3 + |d|);
    assert t == "\\u{" + (d + "}");
    StandsSplit(s, i, "\\u{", d + "}");
    StandsSplit(s, i + 3, d, "}");
    HexEndIs(s, i + 3, i + 3 + |d|);
    FindBraceIs(s, i + 3, i + 3 + |d|);
  }

  /** A backslash, a letter and a fixed number of digits. */
  lemma FixedStands(s: string, i: nat, c: char, d: string)
    requires Stands(s, i, ['\\', c] + d) && AllHex(d)
    ensures i + 2 + |d| <= |s| && s[i] == '\\' && s[i + 1] == c && HexRun(s, i + 2, |d|)
    ensures s[i + 2..i + 2 + |d|] == d && (|d| > 0 ==> s[i + 2] != '{')
  {
    StandsChar(s, i, ['\\', c] + d, 0);
    StandsChar(s, i, ['\\', c] + d, 1);
    StandsSplit(s, i, ['\\', c], d);
    RunStands(s, i + 2, d);
    if |d| > 0 {
      StandsChar(s, i + 2, d, 0);
      assert IsHexDigit(d[0]);
    }
  }

  /** The lexer accepts the escape of a piece and goes on right after it. */
  lemma ScanOfPiece(s: string, i: nat, p: Piece)
    requires Proper(p) && !p.Plain? && Stands(s, i, RenderPiece(p))
    ensures i < |s| && s[i] == '\\' && ScanEscape(s, i) == (true, i + |RenderPiece(p)|)
  {
    match p
    case Simple(c) =>
      StandsChar(s, i, ['\\', c], 0);
      StandsChar(s, i, ['\\', c], 1);
    case HexByte(d) => FixedStands(s, i, 'x', d);
    case Short(d) => FixedStands(s, i, 'u', d);
    case Long(d) => FixedStands(s, i, 'U', d);
    case Braced(d) => BracedStands(s, i, d);
  }

  lemma AllHexEnd(d: string)
    requires AllHex(d)
    ensures HexEnd(d, 0) == |d|
  {
    assert d[0..|d|] == d;
    HexEndIs(d, 0, |d|);
  }

  lemma {:induction false} HexValueBound(d: string, n: nat)
    requires AllHex(d) && |d| <= n
    ensures HexValue(d) < Pow16(n)
    decreases n
  {
    if d != "" {
      HexValueBound(d[..|d| - 1], n - 1);
    }
  }

  function Pow16(n: nat): (r: nat)
    ensures r > 0
  {
    if n == 0 then 1 else 16 * Pow16(n - 1)
  }

  lemma ShortValue(d: string)
    requires AllHex(d) && 0 < |d| <= 8
    ensures CodePoint(d) == HexValue(d) % TWO_32
  {
    AllHexEnd(d);
    HexValueBound(d, 8);
    assert d[..|d|] == d;
    assert Pow16(8) == 16 * (16 * (16 * (16 * Pow16(4)))) && Pow16(4) == 16 * (16 * (16 * (16 * Pow16(0))));
  }

  lemma AnyValue(d: string)
    requires AllHex(d)
    ensures CodePoint(d) == if HexValue(d) >= TWO_64 then 0 else HexValue(d) % TWO_32
  {
    AllHexEnd(d);
    assert d[..|d|] == d;
  }

  lemma StepOfSimple(s: string, i: nat, c: char)
    requires c in SIMPLE && Stands(s, i, ['\\', c])
    ensures i < |s| && UnescapeStep(s, i) == ([SimpleValue(c)], i + 2)
  {
    StandsChar(s, i, ['\\', c], 0);
    StandsChar(s, i, ['\\', c], 1);
  }

  lemma StepOfHexByte(s: string, i: nat, d: string)
    requires |d| == 2 && AllHex(d) && Stands(s, i, "\\x" + d)
    ensures i < |s| && UnescapeStep(s, i) == ([Byte(HexValue(d) % 256)], i + 4)
  {
    FixedStands(s, i, 'x', d);
    AllHexEnd(d);
    hide HexValue, FindBrace, Utf8, CodePoint, HexEnd, HexRun, Stands;
    assert d[..2] == d;
  }

  lemma StepOfFixed(s: string, i: nat, c: char, d: string)
    requires AllHex(d) && ((c == 'u' && |d| == 4) || (c == 'U' && |d| == 8)) && Stands(s, i, ['\\', c] + d)
    ensures i < |s| && UnescapeStep(s, i) == (Utf8(HexValue(d) % TWO_32), i + 2 + |d|)
  {
    FixedStands(s, i, c, d);
    ShortValue(d);
    hide HexValue, FindBrace, Utf8, CodePoint, HexEnd, HexRun, Stands, AllHex;
  }

  lemma StepOfBraced(s: string, i: nat, d: string)
    requires AllHex(d) && Stands(s, i, "\\u{" + d + "}")
    ensures i < |s| && UnescapeStep(s, i) == (Utf8(CodePoint(d)), i + 4 + |d|)
  {
    BracedStands(s, i, d);
    hide HexValue, FindBrace, Utf8, CodePoint, HexEnd, HexRun, Stands, AllHex;
  }

  /** The evaluator reads the same piece: it appends its value and goes on right after it. */
  lemma StepOfPiece(s: string, i: nat, p: Piece)
    requires Proper(p) && Stands(s, i, RenderPiece(p))
    ensures i < |s| && UnescapeStep(s, i) == (PieceValue(p), i + |RenderPiece(p)|)
  {
    hide UnescapeStep, Utf8, HexValue, CodePoint, Stands;
    match p
    case Plain(c) => StepOfPlain(s, i, c);
    case Simple(c) => StepOfSimple(s, i, c);
    case HexByte(d) => StepOfHexByte(s, i, d);
    case Short(d) => StepOfFixed(s, i, 'u', d);
    case Long(d) => StepOfFixed(s, i, 'U', d);
    case Braced(d) =>
      StepOfBraced(s, i, d);
      AnyValue(d);
  }

  lemma StepOfPlain(s: string, i: nat, c: char)
    requires c != '\\' && Stands(s, i, [c])
    ensures i < |s| && UnescapeStep(s, i) == ([c], i + 1)
  {
    StandsChar(s, i, [c], 0);
  }

  lemma TwoStand(s: string, i: nat)
    requires i + 1 < |s|
    ensures Stands(s, i, [s[i], s[i + 1]])
  {
  }

  /** The text of a fixed-length escape. */
  lemma FixedText(s: string, i: nat, c: char, n: nat)
    requires i + 2 + n <= |s| && s[i] == '\\' && s[i + 1] == c
    ensures Stands(s, i, ['\\', c] + s[i + 2..i + 2 + n])
  {
    TwoStand(s, i);
    StandsJoin(s, i, ['\\', c], s[i + 2..i + 2 + n]);
  }

  lemma BracedText(s: string, i: nat, j: nat)
    requires i + 3 <= j < |s| && s[i] == '\\' && s[i + 1] == 'u' && s[i + 2] == '{' && s[j] == '}'
    ensures Stands(s, i, "\\u{" + s[i + 3..j] + "}")
  {
    assert s[i..i + 3] == "\\u{" && s[j..j + 1] == "}";
    StandsJoin(s, i, "\\u{", s[i + 3..j]);
    StandsJoin(s, i, "\\u{" + s[i + 3..j], "}");
  }

  ghost predicate ScannedAs(s: string, i: nat, p: Piece)
    requires i < |s|
  {
    Proper(p) && Stands(s, i, RenderPiece(p)) && ScanEscape(s, i).1 == i + |RenderPiece(p)|
  }

  lemma SimpleOfScan(s: string, i: nat)
    requires i + 1 < |s| && s[i] == '\\' && s[i + 1] in SIMPLE
    ensures ScannedAs(s, i, Simple(s[i + 1]))
  {
    TwoStand(s, i);
    hide Stands;
  }

  lemma HexByteOfScan(s: string, i: nat)
    requires i + 1 < |s| && s[i] == '\\' && s[i + 1] == 'x' && ScanEscape(s, i).0
    ensures i + 4 <= |s| && ScannedAs(s, i, HexByte(s[i + 2..i + 4]))
  {
    hide Stands, AllHex;
    FixedText(s, i, 'x', 2);
  }

  lemma ShortOfScan(s: string, i: nat)
    requires i + 1 < |s| && s[i] == '\\' && s[i + 1] == 'u' && At(s, i + 2) != '{' && ScanEscape(s, i).0
    ensures i + 6 <= |s| && ScannedAs(s, i, Short(s[i + 2..i + 6]))
  {
    hide Stands, AllHex;
    FixedText(s, i, 'u', 4);
  }

  lemma LongOfScan(s: string, i: nat)
    requires i + 1 < |s| && s[i] == '\\' && s[i + 1] == 'U' && ScanEscape(s, i).0
    ensures i + 10 <= |s| && ScannedAs(s, i, Long(s[i + 2..i + 10]))
  {
    hide Stands, AllHex;
    FixedText(s, i, 'U', 8);
  }

  lemma BracedOfScan(s: string, i: nat)
    requires i + 2 < |s| && s[i] == '\\' && s[i + 1] == 'u' && s[i + 2] == '{' && ScanEscape(s, i).0
    ensures var end := ScanEscape(s, i).1; i + 3 < end <= |s| && ScannedAs(s, i, Braced(s[i + 3..end - 1]))
  {
    hide Stands, AllHex, HexEnd;
    BracedText(s, i, ScanEscape(s, i).1 - 1);
  }

  lemma AcceptedEscapes(s: string, i: nat)
    requires i < |s| && ScanEscape(s, i).0
    ensures i + 1 < |s| && (s[i + 1] in SIMPLE || s[i + 1] == 'x' || s[i + 1] == 'u' || s[i + 1] == 'U')
  {
  }

  /** Every escape the lexer accepts is the rendering of a piece. */
  lemma PieceOfScan(s: string, i: nat) returns (p: Piece)
    requires i < |s| && s[i] == '\\' && ScanEscape(s, i).0
    ensures ScannedAs(s, i, p)
  {
    hide ScanEscape, ScannedAs;
    AcceptedEscapes(s, i);
    var c := s[i + 1];
    var end := ScanEscape(s, i).1;
    if c in SIMPLE {
      SimpleOfScan(s, i);
      p := Simple(c);
    } else if c == 'x' {
      HexByteOfScan(s, i);
      p := HexByte(s[i + 2..i + 4]);
    } else if c == 'U' {
      LongOfScan(s, i);
      p := Long(s[i + 2..i + 10]);
    } else if At(s, i + 2) == '{' {
      BracedOfScan(s, i);
      p := Braced(s[i + 3..end - 1]);
    } else {
      ShortOfScan(s, i);
      p := Short(s[i + 2..i + 6]);
    }
  }

  /** An escape that the lexer accepts, met again in the text of the token, ends for the parser
      where it ended for the lexer, and contributes the value it stands for. */
  lemma EscapesEndTogether(s: string, i: nat, raw: string, k: nat) returns (p: Piece)
    requires i < |s| && s[i] == '\\' && ScanEscape(s, i).0
    requires Stands(raw, k, s[i..ScanEscape(s, i).1])
    ensures Proper(p) && !p.Plain? && RenderPiece(p) == s[i..ScanEscape(s, i).1]
    ensures k < |raw| && UnescapeStep(raw, k) == (PieceValue(p), k + ScanEscape(s, i).1 - i)
  {
    hide ScanEscape, UnescapeStep, PieceValue, Proper, RenderPiece, Utf8, HexValue, CodePoint;
    p := PieceOfScan(s, i);
    NotPlain(p);
    StepOfPiece(raw, k, p);
  }

  lemma NotPlain(p: Piece)
    requires Proper(p) && RenderPiece(p)[0] == '\\'
    ensures !p.Plain?
  {
  }

  // ---------------------------------------------------------------- whole literals

  lemma {:induction false} ErrorsAreNotForgotten(s: string, i: nat)
    requires i <= |s|
    ensures ScanBody(s, i, true) == Rejected
    decreases |s| - i
  {
    if i < |s| && s[i] != '\n' && s[i] != '\r' && s[i] != '"' {
      ErrorsAreNotForgotten(s, if s[i] == '\\' then ScanEscape(s, i).1 else i + 1);
    }
  }

  /** Reading one piece brings the lexer to the next. */
  lemma ScanOne(s: string, i: nat, p: Piece)
    requires Proper(p) && Stands(s, i, RenderPiece(p))
    ensures i + |RenderPiece(p)| <= |s| && s[i] != '"'
    ensures ScanBody(s, i, false) == ScanBody(s, i + |RenderPiece(p)|, false)
  {
    if p.Plain? {
      StandsChar(s, i, [p.c], 0);
    } else {
      ScanOfPiece(s, i, p);
      hide ScanEscape, RenderPiece, Proper;
    }
  }

  lemma ScanQuote(s: string, i: nat)
    requires Stands(s, i, "\"")
    ensures i < |s| && ScanBody(s, i, false) == Accepted(i + 1)
  {
    StandsChar(s, i, "\"", 0);
  }

  lemma RenderNothing()
    ensures Render([]) == "" && Render([]) + "\"" == "\""
  {
  }

  lemma RenderStep(ps: seq<Piece>)
    requires ps != []
    ensures Render(ps) + "\"" == RenderPiece(ps[0]) + (Render(ps[1..]) + "\"")
    ensures |Render(ps)| == |RenderPiece(ps[0])| + |Render(ps[1..])|
  {
  }

  lemma {:induction false} RenderingIsAccepted(s: string, i: nat, ps: seq<Piece>)
    requires AllProper(ps) && Stands(s, i, Render(ps) + "\"")
    ensures i <= |s| && ScanBody(s, i, false) == Accepted(i + |Render(ps)| + 1)
    decreases |ps|
  {
    hide ScanBody, Stands, Render, RenderPiece, Proper;
    if ps == [] {
      RenderNothing();
      ScanQuote(s, i);
    } else {
      RenderStep(ps);
      StandsSplit(s, i, RenderPiece(ps[0]), Render(ps[1..]) + "\"");
      ScanOne(s, i, ps[0]);
      RenderingIsAccepted(s, i + |RenderPiece(ps[0])|, ps[1..]);
    }
  }

  /** The first piece of an accepted text. */
  lemma FirstPiece(s: string, i: nat) returns (p: Piece)
    requires i < |s| && s[i] != '"' && ScanBody(s, i, false).Accepted?
    ensures Proper(p) && Stands(s, i, RenderPiece(p)) && i + |RenderPiece(p)| <= |s|
    ensures ScanBody(s, i, false) == ScanBody(s, i + |RenderPiece(p)|, false)
  {
    if s[i] == '\\' {
      if !ScanEscape(s, i).0 {
        ErrorsAreNotForgotten(s, ScanEscape(s, i).1);
      }
      p := PieceOfScan(s, i);
      hide RenderPiece, Proper, ScanEscape;
    } else {
      p := Plain(s[i]);
    }
  }

  lemma ClosingQuote(s: string, i: nat)
    requires i < |s| && s[i] == '"' && ScanBody(s, i, false).Accepted?
    ensures ScanBody(s, i, false).end == i + 1
    ensures AllProper([]) && Stands(s, i, Render([]) + "\"") && |Render([])| == 0
  {
    RenderNothing();
    assert s[i..i + 1] == "\"";
  }

  lemma AcceptedGoesOn(s: string, i: nat)
    requires i <= |s| && ScanBody(s, i, false).Accepted?
    ensures i < |s|
  {
  }

  lemma PiecesJoin(s: string, i: nat, p: Piece, rest: seq<Piece>)
    requires Proper(p) && AllProper(rest)
    requires Stands(s, i, RenderPiece(p)) && Stands(s, i + |RenderPiece(p)|, Render(rest) + "\"")
    ensures AllProper([p] + rest) && Stands(s, i, Render([p] + rest) + "\"")
    ensures |Render([p] + rest)| == |RenderPiece(p)| + |Render(rest)|
  {
    hide Stands, Render, RenderPiece, Proper;
    var ps := [p] + rest;
    RenderStep(ps);
    assert ps[1..] == rest;
    StandsJoin(s, i, RenderPiece(p), Render(rest) + "\"");
  }

  lemma {:induction false} AcceptedIsRendering(s: string, i: nat) returns (ps: seq<Piece>)
    requires i <= |s| && ScanBody(s, i, false).Accepted?
    ensures AllProper(ps) && Stands(s, i, Render(ps) + "\"")
    ensures ScanBody(s, i, false).end == i + |Render(ps)| + 1
    decreases |s| - i
  {
    hide ScanBody, ScanEscape, Stands, AllProper, Render, RenderPiece, Proper;
    AcceptedGoesOn(s, i);
    if s[i] == '"' {
      ps := [];
      ClosingQuote(s, i);
    } else {
      var p := FirstPiece(s, i);
      var rest := AcceptedIsRendering(s, i + |RenderPiece(p)|);
      ps := [p] + rest;
      PiecesJoin(s, i, p, rest);
    }
  }

  lemma EvaluateOne(raw: string, i: nat, p: Piece)
    requires Proper(p) && Stands(raw, i, RenderPiece(p))
    ensures i + |RenderPiece(p)| <= |raw|
    ensures Unescape(raw, i) == PieceValue(p) + Unescape(raw, i + |RenderPiece(p)|)
  {
    hide UnescapeStep, RenderPiece, PieceValue, Proper, Stands, Utf8, HexValue;
    StepOfPiece(raw, i, p);
  }

  lemma {:induction false} EvaluationOfRendering(raw: string, i: nat, ps: seq<Piece>)
    requires AllProper(ps) && Stands(raw, i, Render(ps)) && i + |Render(ps)| == |raw|
    ensures Unescape(raw, i) == Meaning(ps)
    decreases |ps|
  {
    hide Unescape, Stands, RenderPiece, Proper, PieceValue, Render, Meaning;
    if ps == [] {
      RenderNothing();
      UnescapeNothing(raw);
    } else {
      RenderParts(ps);
      StandsSplit(raw, i, RenderPiece(ps[0]), Render(ps[1..]));
      EvaluateOne(raw, i, ps[0]);
      EvaluationOfRendering(raw, i + |RenderPiece(ps[0])|, ps[1..]);
    }
  }

  lemma RenderParts(ps: seq<Piece>)
    requires ps != [] && AllProper(ps)
    ensures Render(ps) == RenderPiece(ps[0]) + Render(ps[1..]) && Proper(ps[0]) && AllProper(ps[1..])
    ensures Meaning(ps) == PieceValue(ps[0]) + Meaning(ps[1..])
  {
  }

  lemma UnescapeNothing(raw: string)
    ensures Unescape(raw, |raw|) == "" && Meaning([]) == ""
  {
  }

  lemma QuoteStands(s: string, k: nat)
    requires k < |s| && s[k] == '"'
    ensures Stands(s, k, "\"")
  {
    assert s[k..k + 1] == [s[k]];
  }

  /** The lexer accepts a double-quoted literal, ending it at `end`, exactly when its text is a
      sequence of well-formed pieces followed by the closing quote. */
  lemma AcceptedIffPieces(s: string, i: nat, end: nat)
    requires i < end <= |s|
    ensures ScanBody(s, i, false) == Accepted(end) <==>
      exists ps :: AllProper(ps) && s[i..end - 1] == Render(ps) && s[end - 1] == '"'
  {
    hide ScanBody, Render, Proper;
    if ScanBody(s, i, false) == Accepted(end) {
      var ps := AcceptedIsRendering(s, i);
      StandsSplit(s, i, Render(ps), "\"");
    }
    if exists ps :: AllProper(ps) && s[i..end - 1] == Render(ps) && s[end - 1] == '"' {
      var ps :| AllProper(ps) && s[i..end - 1] == Render(ps) && s[end - 1] == '"';
      QuoteStands(s, end - 1);
      StandsJoin(s, i, Render(ps), "\"");
      RenderingIsAccepted(s, i, ps);
    }
  }

  /** Whatever pieces the text of an accepted literal is made of, the parser evaluates it to
      their values: each escape is taken as a whole and none is left as it stands. */
  lemma AcceptedEvaluates(s: string, i: nat, ps: seq<Piece>)
    requires i <= |s| && ScanBody(s, i, false).Accepted?
    requires AllProper(ps) && s[i..ScanBody(s, i, false).end - 1] == Render(ps)
    ensures Unescape(Render(ps), 0) == Meaning(ps)
  {
    assert Render(ps)[0..|Render(ps)|] == Render(ps);
    EvaluationOfRendering(Render(ps), 0, ps);
  }

  lemma QuotePieceMeans(c: char)
    ensures Proper(QuotePiece(c)) && PieceValue(QuotePiece(c)) == [c]
  {
  }

  lemma {:induction false} QuoteMeans(text: string)
    ensures AllProper(Quote(text)) && Meaning(Quote(text)) == text
    decreases |text|
  {
    if text != "" {
      QuotePieceMeans(text[0]);
      hide QuotePiece, Proper, PieceValue;
      QuoteMeans(text[1..]);
      assert Quote(text)[1..] == Quote(text[1..]);
      assert text == [text[0]] + text[1..];
    }
  }

  /** Any text, quoted, lexed and evaluated, comes back; the literal ends at its own quote
      whatever follows. */
  lemma QuoteRoundTrip(text: string, rest: string)
    ensures var body := Render(Quote(text));
      && ScanBody("\"" + body + "\"" + rest, 1, false) == Accepted(|body| + 2)
      && Unescape(body, 0) == text
  {
    QuoteMeans(text);
    var body := Render(Quote(text));
    var s := "\"" + body + "\"" + rest;
    assert s[1..1 + |body + "\""|] == body + "\"";
    RenderingIsAccepted(s, 1, Quote(text));
    assert body[0..|body|] == body;
    EvaluationOfRendering(body, 0, Quote(text));
  }
}

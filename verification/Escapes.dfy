/** String literals: how the lexer finds their end, how the parser evaluates their escapes,
    and the pieces both agree on. A character stands for a byte. */
module Escapes {

  predicate IsHexDigit(c: char) {
    '0' <= c <= '9' || 'a' <= c <= 'f' || 'A' <= c <= 'F'
  }

  predicate AllHex(s: string) {
    forall c :: c in s ==> IsHexDigit(c)
  }

  function At(s: string, i: nat): char {
    if i < |s| then s[i] else '\0'
  }

  // ---------------------------------------------------------------- the lexer

  const SIMPLE: string := "nrt0b\\'\"`$"

  /** Whether n characters from i on are there and are all hexadecimal digits. */
  predicate HexRun(s: string, i: nat, n: nat) {
    i + n <= |s| && AllHex(s[i..i + n])
  }

  /** The first position from i on that does not hold a hexadecimal digit. */
  function HexEnd(s: string, i: nat): (j: nat)
    requires i <= |s|
    ensures i <= j <= |s|
    ensures AllHex(s[i..j]) && (j < |s| ==> !IsHexDigit(s[j]))
    decreases |s| - i
  {
    if i < |s| && IsHexDigit(s[i]) then
      var j := HexEnd(s, i + 1);
      assert s[i..j] == [s[i]] + s[i + 1..j];
      j
    else i
  }

  /** The escape whose backslash is at position i: whether it is valid, and where the lexer
      goes on. */
  function ScanEscape(s: string, i: nat): (r: (bool, nat))
    requires i < |s|
    ensures i < r.1 <= |s|
  {
    if i + 1 >= |s| then (false, i + 1)
    else if s[i + 1] in SIMPLE then (true, i + 2)
    else if s[i + 1] == 'x' then (if HexRun(s, i + 2, 2) then (true, i + 4) else (false, i + 2))
    else if s[i + 1] == 'u' then
      if At(s, i + 2) == '{' && i + 2 < |s| then
        var j := HexEnd(s, i + 3);
        if j < |s| && s[j] == '}' then (true, j + 1) else (false, j)
      else if HexRun(s, i + 2, 4) then (true, i + 6) else (false, i + 2)
    else if s[i + 1] == 'U' then (if HexRun(s, i + 2, 8) then (true, i + 10) else (false, i + 2))
    else (false, i + 1)
  }

  /** The position after the closing quote of a double-quoted literal whose characters from i
      on are still to be read; None if the literal is rejected. */
  datatype Scan = Accepted(end: nat) | Rejected

  function ScanBody(s: string, i: nat, hadError: bool): (r: Scan)
    requires i <= |s|
    ensures r.Accepted? ==> i < r.end <= |s| && s[r.end - 1] == '"'
    decreases |s| - i
  {
    if i == |s| || s[i] == '\n' || s[i] == '\r' then Rejected
    else if s[i] == '\\' then
      var (ok, next) := ScanEscape(s, i);
      ScanBody(s, next, hadError || !ok)
    else if s[i] == '"' then (if hadError then Rejected else Accepted(i + 1))
    else ScanBody(s, i + 1, hadError)
  }

  // ---------------------------------------------------------------- the parser

  function HexDigitValue(c: char): (v: nat)
    requires IsHexDigit(c)
    ensures v < 16
  {
    if '0' <= c <= '9' then (c - '0') as nat
    else if 'a' <= c <= 'f' then (c - 'a') as nat + 10
    else (c - 'A') as nat + 10
  }

  function HexValue(s: string): nat
    requires AllHex(s)
  {
    if s == "" then 0 else 16 * HexValue(s[..|s| - 1]) + HexDigitValue(s[|s| - 1])
  }

  const TWO_32: nat := 0x1_0000_0000
  const TWO_64: nat := 0x1_0000_0000_0000_0000

  /** The number read from the digits at the front of s: 0 when there are none or when the
      number does not fit into 64 bits, otherwise cut to 32 bits. */
  function CodePoint(s: string): (cp: nat)
    ensures cp < TWO_32
  {
    var digits := s[..HexEnd(s, 0)];
    if digits == "" || HexValue(digits) >= TWO_64 then 0 else HexValue(digits) % TWO_32
  }

  function Byte(n: nat): char
    requires n < 256
  {
    n as char
  }

  /** The UTF-8 encoding of a code point; nothing for surrogates and values that are too big. */
  function Utf8(cp: nat): string {
    if cp < 0x80 then [Byte(cp)]
    else if cp < 0x800 then [Byte(0xC0 + cp / 0x40), Byte(0x80 + cp % 0x40)]
    else if 0xD800 <= cp <= 0xDFFF || cp > 0x10FFFF then ""
    else if cp < 0x1_0000 then [Byte(0xE0 + cp / 0x1000), Byte(0x80 + cp / 0x40 % 0x40), Byte(0x80 + cp % 0x40)]
    else [Byte(0xF0 + cp / 0x4_0000), Byte(0x80 + cp / 0x1000 % 0x40), Byte(0x80 + cp / 0x40 % 0x40),
      Byte(0x80 + cp % 0x40)]
  }

  function SimpleValue(c: char): char {
    match c
    case 'n' => '\n'
    case 'r' => '\r'
    case 't' => '\t'
    case 'b' => Byte(8)
    case '0' => '\0'
    case _ => c
  }

  /** The first closing brace from i on. */
  function FindBrace(s: string, i: nat): (j: nat)
    requires i <= |s|
    ensures i <= j <= |s|
    ensures j < |s| ==> s[j] == '}'
    decreases |s| - i
  {
    if i == |s| || s[i] == '}' then i else FindBrace(s, i + 1)
  }

  /** One turn of the evaluation loop at position i: what it appends and where it goes on. */
  function UnescapeStep(raw: string, i: nat): (r: (string, nat))
    requires i < |raw|
    ensures i < r.1 <= |raw|
  {
    if raw[i] != '\\' || i + 1 >= |raw| then ([raw[i]], i + 1)
    else
      var c := raw[i + 1];
      if c == 'x' then
        if i + 3 < |raw| then
          var digits := raw[i + 2..i + 4];
          var n := HexEnd(digits, 0);
          (if n == 0 then "" else [Byte(HexValue(digits[..n]) % 256)], i + 4)
        else ([raw[i]], i + 1)
      else if c == 'u' && i + 2 < |raw| && raw[i + 2] == '{' then
        var brace := FindBrace(raw, i + 3);
        if brace < |raw| then (Utf8(CodePoint(raw[i + 3..brace])), brace + 1) else ([raw[i]], i + 1)
      else if c == 'u' && i + 5 < |raw| then (Utf8(CodePoint(raw[i + 2..i + 6])), i + 6)
      else if c == 'U' && i + 9 < |raw| then (Utf8(CodePoint(raw[i + 2..i + 10])), i + 10)
      else if c == 'u' || c == 'U' then ([raw[i]], i + 1)
      else ([SimpleValue(c)], i + 2)
  }

  function Unescape(raw: string, i: nat): string
    requires i <= |raw|
    decreases |raw| - i
  {
    if i == |raw| then ""
    else
      var (out, next) := UnescapeStep(raw, i);
      out + Unescape(raw, next)
  }

  // ---------------------------------------------------------------- the pieces of a literal

  datatype Piece =
    | Plain(c: char)
    | Simple(letter: char)
    | HexByte(byteDigits: string)
    | Short(shortDigits: string)
    | Long(longDigits: string)
    | Braced(digits: string)

  predicate Proper(p: Piece) {
    match p
    case Plain(c) => c != '"' && c != '\\' && c != '\n' && c != '\r'
    case Simple(c) => c in SIMPLE
    case HexByte(d) => |d| == 2 && AllHex(d)
    case Short(d) => |d| == 4 && AllHex(d)
    case Long(d) => |d| == 8 && AllHex(d)
    case Braced(d) => AllHex(d)
  }

  function RenderPiece(p: Piece): (s: string)
    ensures |s| > 0
  {
    match p
    case Plain(c) => [c]
    case Simple(c) => ['\\', c]
    case HexByte(d) => "\\x" + d
    case Short(d) => "\\u" + d
    case Long(d) => "\\U" + d
    case Braced(d) => "\\u{" + d + "}"
  }

  function PieceValue(p: Piece): string
    requires Proper(p)
  {
    match p
    case Plain(c) => [c]
    case Simple(c) => [SimpleValue(c)]
    case HexByte(d) => [Byte(HexValue(d) % 256)]
    case Short(d) => Utf8(HexValue(d) % TWO_32)
    case Long(d) => Utf8(HexValue(d) % TWO_32)
    case Braced(d) => Utf8(if HexValue(d) >= TWO_64 then 0 else HexValue(d) % TWO_32)
  }

  predicate AllProper(ps: seq<Piece>) {
    forall p :: p in ps ==> Proper(p)
  }

  function Render(ps: seq<Piece>): string {
    if ps == [] then "" else RenderPiece(ps[0]) + Render(ps[1..])
  }

  function Meaning(ps: seq<Piece>): string
    requires AllProper(ps)
  {
    if ps == [] then "" else PieceValue(ps[0]) + Meaning(ps[1..])
  }

  function QuotePiece(c: char): Piece {
    match c
    case '"' => Simple('"')
    case '\\' => Simple('\\')
    case '\n' => Simple('n')
    case '\r' => Simple('r')
    case _ => Plain(c)
  }

  /** The literal that writes any text: only the two delimiters and line ends are escaped. */
  function Quote(text: string): seq<Piece> {
    if text == "" then [] else [QuotePiece(text[0])] + Quote(text[1..])
  }
}

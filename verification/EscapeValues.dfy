/** What escapes stand for, and where the lexer goes on after one, in numbers and positions. */
module EscapeValues {
  import opened Escapes

  // ---------------------------------------------------------------- digits

  predicate HexDigitIs(c: char, v: nat) {
    || (48 <= c as nat <= 57 && v == c as nat - 48)
    || (65 <= c as nat <= 70 && v == c as nat - 55)
    || (97 <= c as nat <= 102 && v == c as nat - 87)
  }

  /** 0 to 9, A to F and a to f. */
  predicate Hex(c: char) {
    48 <= c as nat <= 57 || 65 <= c as nat <= 70 || 97 <= c as nat <= 102
  }

  lemma HexDigitsAre(c: char)
    ensures IsHexDigit(c) <==> Hex(c)
    ensures IsHexDigit(c) ==> HexDigitIs(c, HexDigitValue(c))
  {
  }

  function Power16(n: nat): nat {
    if n == 0 then 1 else 16 * Power16(n - 1)
  }

  /** The sum of the digits, each times its power of sixteen. */
  ghost predicate PositionalSum(s: string, sum: nat)
    decreases |s|
  {
    if s == "" then sum == 0
    else
      exists v: nat, rest: nat ::
        HexDigitIs(s[0], v) && PositionalSum(s[1..], rest) && sum == v * Power16(|s| - 1) + rest
  }

  lemma {:induction false} HexValueFromFront(s: string)
    requires AllHex(s) && s != ""
    ensures AllHex(s[1..]) && HexValue(s) == HexDigitValue(s[0]) * Power16(|s| - 1) + HexValue(s[1..])
    decreases |s|
  {
    if |s| > 1 {
      var front := s[..|s| - 1];
      HexValueFromFront(front);
      assert front[1..] == s[1..][..|s| - 2] && s[1..][|s| - 2] == s[|s| - 1];
      assert HexValue(s[1..]) == 16 * HexValue(front[1..]) + HexDigitValue(s[|s| - 1]);
      Times16(HexDigitValue(s[0]), |s| - 2);
    }
  }

  lemma Times16(v: nat, n: nat)
    ensures 16 * (v * Power16(n)) == v * Power16(n + 1)
  {
  }

  /** The value of digits is that sum. */
  lemma {:induction false} HexValueIsSum(s: string)
    requires AllHex(s)
    ensures PositionalSum(s, HexValue(s))
    decreases |s|
  {
    if s != "" {
      HexValueFromFront(s);
      HexDigitsAre(s[0]);
      HexValueIsSum(s[1..]);
    }
  }

  // ---------------------------------------------------------------- UTF-8

  /** A byte that goes on with a character, 10xxxxxx. */
  predicate GoesOn(c: char) {
    0x80 <= c as nat < 0xC0
  }

  /** The bytes hold the code point, by the bit patterns 0xxxxxxx, 110xxxxx 10xxxxxx,
      1110xxxx 10xxxxxx 10xxxxxx and 11110xxx 10xxxxxx 10xxxxxx 10xxxxxx, and no shorter pattern
      holds it. */
  predicate Encodes(s: string, cp: nat) {
    if |s| == 1 then s[0] as nat < 0x80 && cp == s[0] as nat
    else if |s| == 2 then
      && 0xC0 <= s[0] as nat < 0xE0 && GoesOn(s[1]) && cp >= 0x80
      && cp == (s[0] as nat - 0xC0) * 0x40 + (s[1] as nat - 0x80)
    else if |s| == 3 then
      && 0xE0 <= s[0] as nat < 0xF0 && GoesOn(s[1]) && GoesOn(s[2]) && cp >= 0x800
      && cp == (s[0] as nat - 0xE0) * 0x1000 + (s[1] as nat - 0x80) * 0x40 + (s[2] as nat - 0x80)
    else
      && |s| == 4 && 0xF0 <= s[0] as nat < 0xF8 && GoesOn(s[1]) && GoesOn(s[2]) && GoesOn(s[3]) && cp >= 0x1_0000
      && cp == (s[0] as nat - 0xF0) * 0x4_0000 + (s[1] as nat - 0x80) * 0x1000
               + (s[2] as nat - 0x80) * 0x40 + (s[3] as nat - 0x80)
  }

  lemma Digits64(n: nat)
    ensures n == n / 0x40 * 0x40 + n % 0x40 && n % 0x40 < 0x40
  {
  }

  lemma ThreeDigits64(cp: nat)
    requires cp < 0x1_0000
    ensures cp == cp / 0x1000 * 0x1000 + cp / 0x40 % 0x40 * 0x40 + cp % 0x40 && cp / 0x1000 < 0x10
  {
    Digits64(cp);
    Digits64(cp / 0x40);
    assert cp / 0x40 / 0x40 == cp / 0x1000;
  }

  lemma FourDigits64(cp: nat)
    requires cp <= 0x10FFFF
    ensures cp == cp / 0x4_0000 * 0x4_0000 + cp / 0x1000 % 0x40 * 0x1000 + cp / 0x40 % 0x40 * 0x40 + cp % 0x40
    ensures cp / 0x4_0000 < 8
  {
    Digits64(cp);
    Digits64(cp / 0x40);
    Digits64(cp / 0x1000);
    assert cp / 0x40 / 0x40 == cp / 0x1000 && cp / 0x1000 / 0x40 == cp / 0x4_0000;
  }

  /** Surrogates and numbers beyond 10FFFF have no encoding. */
  lemma Utf8Encodes(cp: nat)
    ensures if 0xD800 <= cp <= 0xDFFF || cp > 0x10FFFF then Utf8(cp) == "" else Encodes(Utf8(cp), cp)
  {
    if cp < 0x80 || 0xD800 <= cp <= 0xDFFF || cp > 0x10FFFF {
    } else if cp < 0x800 {
      Digits64(cp);
      Two(cp, cp / 0x40, cp % 0x40);
    } else if cp < 0x1_0000 {
      ThreeDigits64(cp);
      Three(cp, cp / 0x1000, cp / 0x40 % 0x40, cp % 0x40);
    } else {
      FourDigits64(cp);
      Four(cp, cp / 0x4_0000, cp / 0x1000 % 0x40, cp / 0x40 % 0x40, cp % 0x40);
    }
  }

  lemma Two(cp: nat, a: nat, b: nat)
    requires a < 0x20 && b < 0x40 && cp == a * 0x40 + b && cp >= 0x80
    ensures Encodes([Byte(0xC0 + a), Byte(0x80 + b)], cp)
  {
  }

  lemma Three(cp: nat, a: nat, b: nat, c: nat)
    requires a < 0x10 && b < 0x40 && c < 0x40 && cp == a * 0x1000 + b * 0x40 + c && cp >= 0x800
    ensures Encodes([Byte(0xE0 + a), Byte(0x80 + b), Byte(0x80 + c)], cp)
  {
  }

  lemma Four(cp: nat, a: nat, b: nat, c: nat, d: nat)
    requires a < 8 && b < 0x40 && c < 0x40 && d < 0x40 && cp >= 0x1_0000
    requires cp == a * 0x4_0000 + b * 0x1000 + c * 0x40 + d
    ensures Encodes([Byte(0xF0 + a), Byte(0x80 + b), Byte(0x80 + c), Byte(0x80 + d)], cp)
  {
  }

  // ---------------------------------------------------------------- simple escapes

  /** Line feed, carriage return, tab, backspace, the zero byte, and five characters that stand for
      themselves; no other letter is a simple escape. */
  lemma SimpleEscapes(c: char)
    ensures SimpleValue('n') as nat == 10 && SimpleValue('r') as nat == 13 && SimpleValue('t') as nat == 9
    ensures SimpleValue('b') as nat == 8 && SimpleValue('0') as nat == 0
    ensures c !in "nrtb0" ==> SimpleValue(c) == c
    ensures c in SIMPLE <==>
      || c == 'n' || c == 'r' || c == 't' || c == 'b' || c == '0'
      || c == '\\' || c == '\'' || c == '"' || c == '`' || c == '$'
  {
  }

  /** What each kind of escape contributes: the byte, or the encoding of the number, cut to 32 bits;
      a number of more than 64 bits counts as zero. */
  lemma EscapeContributes(d: string, n: nat)
    requires AllHex(d) && PositionalSum(d, n)
    ensures |d| == 2 ==> n < 256 && PieceValue(HexByte(d)) == [Byte(n)]
    ensures |d| == 4 ==> PieceValue(Short(d)) == Utf8(n)
    ensures |d| == 8 ==> PieceValue(Long(d)) == Utf8(n)
    ensures PieceValue(Braced(d)) == Utf8(if n >= 0x1_0000_0000_0000_0000 then 0 else n % 0x1_0000_0000)
  {
    SumIsValue(d, n);
    ValueIsBounded(d);
    hide PositionalSum;
    ByteContributes(d);
    ShortContributes(d);
    LongContributes(d);
    BracedContributes(d);
    hide PieceValue, HexValue, Utf8, Byte;
  }

  lemma ValueIsBounded(d: string)
    requires AllHex(d)
    ensures |d| == 2 ==> HexValue(d) < 0x100
    ensures |d| == 4 ==> HexValue(d) < 0x1_0000
    ensures |d| == 8 ==> HexValue(d) < 0x1_0000_0000
  {
    SumIsBounded(d);
    Powers();
    hide HexValue, Power16;
  }

  lemma ByteContributes(d: string)
    requires AllHex(d)
    ensures |d| == 2 && HexValue(d) < 0x100 ==> PieceValue(HexByte(d)) == [Byte(HexValue(d))]
  {
    hide HexValue;
  }

  lemma ShortContributes(d: string)
    requires AllHex(d)
    ensures |d| == 4 && HexValue(d) < 0x1_0000 ==> PieceValue(Short(d)) == Utf8(HexValue(d))
  {
    hide HexValue, Utf8;
  }

  lemma LongContributes(d: string)
    requires AllHex(d)
    ensures |d| == 8 && HexValue(d) < 0x1_0000_0000 ==> PieceValue(Long(d)) == Utf8(HexValue(d))
  {
    hide HexValue, Utf8;
  }

  lemma BracedContributes(d: string)
    requires AllHex(d)
    ensures PieceValue(Braced(d)) ==
      Utf8(if HexValue(d) >= 0x1_0000_0000_0000_0000 then 0 else HexValue(d) % 0x1_0000_0000)
  {
    hide HexValue, Utf8;
  }

  lemma {:induction false} SumIsValue(d: string, n: nat)
    requires AllHex(d) && PositionalSum(d, n)
    ensures n == HexValue(d)
    decreases |d|
  {
    if d != "" {
      HexValueFromFront(d);
      var v: nat, rest: nat :| HexDigitIs(d[0], v) && PositionalSum(d[1..], rest) && n == v * Power16(|d| - 1) + rest;
      SumIsValue(d[1..], rest);
    }
  }

  lemma {:induction false} SumIsBounded(d: string)
    requires AllHex(d)
    ensures HexValue(d) < Power16(|d|)
    decreases |d|
  {
    if d != "" {
      SumIsBounded(d[..|d| - 1]);
    }
  }

  lemma Powers()
    ensures Power16(2) == 0x100 && Power16(4) == 0x1_0000 && Power16(8) == 0x1_0000_0000
  {
    assert Power16(4) == 16 * (16 * Power16(2));
    assert Power16(8) == 16 * (16 * (16 * (16 * Power16(4))));
  }

  // ---------------------------------------------------------------- where an escape ends

  /** So many hexadecimal digits stand at i. */
  predicate DigitsAt(s: string, i: nat, n: nat) {
    i + n <= |s| && forall k :: i <= k < i + n ==> Hex(s[k])
  }

  lemma HexRunIs(s: string, i: nat, n: nat)
    ensures HexRun(s, i, n) <==> DigitsAt(s, i, n)
  {
    if i + n <= |s| {
      forall k | i <= k < i + n ensures s[k] in s[i..i + n] {
        assert s[i..i + n][k - i] == s[k];
      }
      forall c ensures IsHexDigit(c) <==> Hex(c) {
      }
    }
  }

  /** Each kind of escape, by the letter after the backslash at i: what makes it valid, and where
      the lexer goes on, be it valid or not. */
  lemma EscapeIs(s: string, i: nat)
    requires i < |s|
    ensures i + 1 == |s| ==> ScanEscape(s, i) == (false, i + 1)
    ensures i + 1 < |s| && s[i + 1] == 'x' ==>
      ScanEscape(s, i) == if DigitsAt(s, i + 2, 2) then (true, i + 4) else (false, i + 2)
    ensures i + 1 < |s| && s[i + 1] == 'U' ==>
      ScanEscape(s, i) == if DigitsAt(s, i + 2, 8) then (true, i + 10) else (false, i + 2)
    ensures i + 1 < |s| && s[i + 1] == 'u' && !(i + 2 < |s| && s[i + 2] == '{') ==>
      ScanEscape(s, i) == if DigitsAt(s, i + 2, 4) then (true, i + 6) else (false, i + 2)
    ensures i + 1 < |s| && s[i + 1] !in "xuU" ==>
      ScanEscape(s, i) == if s[i + 1] in "nrtb0\\'\"`$" then (true, i + 2) else (false, i + 1)
  {
    HexRunIs(s, i + 2, 2);
    HexRunIs(s, i + 2, 4);
    HexRunIs(s, i + 2, 8);
    hide HexEnd, HexRun, DigitsAt;
  }

  /** The variable form: any number of digits between braces, none included. */
  lemma BracedEscapeIs(s: string, i: nat, n: nat)
    requires i + 2 < |s| && s[i + 1] == 'u' && s[i + 2] == '{'
    requires DigitsAt(s, i + 3, n) && !DigitsAt(s, i + 3, n + 1)
    ensures ScanEscape(s, i) ==
      if i + 3 + n < |s| && s[i + 3 + n] == '}' then (true, i + 4 + n) else (false, i + 3 + n)
  {
    HexEndIs(s, i + 3, n);
    hide HexEnd, HexRun, DigitsAt;
  }

  lemma {:induction false} HexEndIs(s: string, i: nat, n: nat)
    requires i <= |s| && DigitsAt(s, i, n) && !DigitsAt(s, i, n + 1)
    ensures HexEnd(s, i) == i + n
    decreases n
  {
    if n > 0 {
      assert Hex(s[i]);
      HexDigitsAre(s[i]);
      HexEndIs(s, i + 1, n - 1);
    } else if i < |s| {
      HexDigitsAre(s[i]);
    }
  }

  // ---------------------------------------------------------------- other text

  lemma {:induction false} NoBraceFound(raw: string, i: nat)
    requires i <= |raw|
    ensures '}' !in raw[i..] ==> FindBrace(raw, i) == |raw|
    decreases |raw| - i
  {
    if i < |raw| {
      NoBraceFound(raw, i + 1);
      assert raw[i..] == [raw[i]] + raw[i + 1..];
    }
  }

  /** What the evaluation does at a backslash that starts no complete escape: it stands for itself;
      before any other letter it is dropped. */
  lemma OtherBackslashes(raw: string, i: nat)
    requires i < |raw| && raw[i] == '\\'
    ensures i + 1 == |raw| ==> UnescapeStep(raw, i) == ("\\", i + 1)
    ensures i + 1 < |raw| && raw[i + 1] == 'x' && i + 4 > |raw| ==> UnescapeStep(raw, i) == ("\\", i + 1)
    ensures i + 1 < |raw| && raw[i + 1] == 'U' && i + 10 > |raw| ==> UnescapeStep(raw, i) == ("\\", i + 1)
    ensures i + 1 < |raw| && raw[i + 1] == 'u' && i + 6 > |raw| && !(i + 2 < |raw| && raw[i + 2] == '{') ==>
      UnescapeStep(raw, i) == ("\\", i + 1)
    ensures i + 2 < |raw| && raw[i + 1] == 'u' && raw[i + 2] == '{' && '}' !in raw[i + 3..] ==>
      UnescapeStep(raw, i) == ("\\", i + 1)
    ensures i + 1 < |raw| && raw[i + 1] !in "xuU" ==> UnescapeStep(raw, i) == ([SimpleValue(raw[i + 1])], i + 2)
  {
    hide HexEnd, HexValue, Utf8, CodePoint;
    if i + 2 < |raw| {
      NoBraceFound(raw, i + 3);
    }
  }
}

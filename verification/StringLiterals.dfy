/** How the parser evaluates the text of a string token. */
module StringLiterals {
  import opened Escapes

  /** The evaluation loop of the parser. */
  method UnescapeString(raw: string) returns (result: string)
    ensures result == Unescape(raw, 0)
  {
    result := "";
    var i := 0;
    while i < |raw|
      invariant i <= |raw| && Unescape(raw, 0) == result + Unescape(raw, i)
    {
      var (out, next) := UnescapeStep(raw, i);
      result := result + out;
      i := next;
    }
  }

  /** The value of a literal token: the quotes are stripped and the escapes evaluated. */
  method ParseStringLiteral(spelling: string) returns (value: string)
    ensures |spelling| >= 2 && spelling[0] in "\"`'" ==> value == Unescape(spelling[1..|spelling| - 1], 0)
    ensures |spelling| < 2 || spelling[0] !in "\"`'" ==> value == Unescape(spelling, 0)
  {
    var val := spelling;
    if |val| >= 2 {
      var quote := val[0];
      if quote == '"' || quote == '`' || quote == '\'' {
        val := val[1..|val| - 1];
      }
    }
    value := UnescapeString(val);
  }
}

/**
 * TFormatter.FORMAT.BOOL: the three ways a boolean value is appended to output.
 */
module TFormatter {

  /** Java's `Boolean.toString`. */
  function BooleanText(b: bool): (s: string)
    ensures s == "true" || s == "false"
    ensures (s == "true") <==> b
  {
    if b then "true" else "false"
  }

  /** ASCII upper-casing, enough for the two boolean spellings. */
  function UpperCase(s: string): (r: string)
    ensures |r| == |s|
  {
    if s == [] then []
    else [if 'a' <= s[0] <= 'z' then (s[0] as int - 32) as char else s[0]] + UpperCase(s[1..])
  }

  /** `format`: appends "true" or "false". */
  function Format(value: bool, out: string): (r: string)
    ensures |r| == |out| + |BooleanText(value)|
    ensures r[..|out|] == out && r[|out|..] == BooleanText(value)
  {
    out + BooleanText(value)
  }

  /** `formatAsLiteral`: appends "TRUE" or "FALSE". */
  function FormatAsLiteral(value: bool, out: string): (r: string)
    ensures |r| >= |out| && r[..|out|] == out
    ensures r[|out|..] == (if value then "TRUE" else "FALSE")
  {
    out + (if value then "TRUE" else "FALSE")
  }

  /** `formatAsJson`: the same text as `format`. */
  function FormatAsJson(value: bool, out: string): (r: string)
  {
    Format(value, out)
  }

  /** The literal spelling is the upper case of the plain one. */
  lemma LiteralIsUpperCasePlain(value: bool, out: string)
    ensures FormatAsLiteral(value, out)[|out|..] == UpperCase(Format(value, out)[|out|..])
  {
    assert UpperCase("e") == "E" by { assert "e"[1..] == []; }
    assert UpperCase("ue") == "UE" by { assert "ue"[1..] == "e"; }
    assert UpperCase("rue") == "RUE" by { assert "rue"[1..] == "ue"; }
    assert UpperCase("true") == "TRUE" by { assert "true"[1..] == "rue"; }
    assert UpperCase("se") == "SE" by { assert "se"[1..] == "e"; }
    assert UpperCase("lse") == "LSE" by { assert "lse"[1..] == "se"; }
    assert UpperCase("alse") == "ALSE" by { assert "alse"[1..] == "lse"; }
    assert UpperCase("false") == "FALSE" by { assert "false"[1..] == "alse"; }
  }

  /** The plain text determines the value: format is injective. */
  lemma FormatDeterminesValue(a: bool, b: bool, out: string)
    requires Format(a, out) == Format(b, out)
    ensures a == b
  {
    assert Format(a, out)[|out|..] == BooleanText(a);
  }
}

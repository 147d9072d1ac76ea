/**
 * INET_ATON: a dotted address string to its numeric value, or null.
 * Java's `String.split("\\.")` and `Short.parseShort` are modelled alongside it.
 */
module InetAton {
  import opened Common

  /** The outcomes of `doEvaluate`. `WarnedNull` is null with an InvalidCharToNum warning to the
      client; `IndexOutOfBounds` is the ArrayIndexOutOfBoundsException of `tks[-1]`, which is not caught. */
  datatype Outcome = Int64Value(n: int) | NullValue | WarnedNull | IndexOutOfBounds

  /** FACTORS: the weights of the leading tokens. */
  const FACTORS: seq<int> := [16777216, 65536, 256]

  // ----- String.split("\\.") -----

  /** Every piece between dots, empty ones included. */
  function PiecesBetweenDots(s: string): (r: seq<string>)
    ensures |r| >= 1
    ensures forall i :: 0 <= i < |r| ==> '.' !in r[i]
  {
    if s == [] then [[]]
    else if s[0] == '.' then [[]] + PiecesBetweenDots(s[1..])
    else
      var rest := PiecesBetweenDots(s[1..]);
      [[s[0]] + rest[0]] + rest[1..]
  }

  function DropTrailingEmpty(xs: seq<string>): (r: seq<string>)
    ensures |r| <= |xs| && r == xs[..|r|]
    ensures r != [] ==> r[|r| - 1] != []
    ensures forall i :: |r| <= i < |xs| ==> xs[i] == []
  {
    if xs != [] && xs[|xs| - 1] == [] then DropTrailingEmpty(xs[..|xs| - 1]) else xs
  }

  /** Java's split with limit 0: a string without a dot is returned whole (even when empty);
      otherwise trailing empty pieces are removed. */
  function SplitDot(s: string): (r: seq<string>)
    ensures forall i :: 0 <= i < |r| ==> '.' !in r[i]
  {
    if '.' !in s then [s] else DropTrailingEmpty(PiecesBetweenDots(s))
  }

  // ----- Short.parseShort -----

  predicate IsDigit(c: char) { '0' <= c <= '9' }

  /** The decimal value of a string of digits. */
  function DigitsValue(t: string): (v: nat)
    requires forall i :: 0 <= i < |t| ==> IsDigit(t[i])
  {
    if t == [] then 0
    else
      assert IsDigit(t[|t| - 1]);
      DigitsValue(t[..|t| - 1]) * 10 + (t[|t| - 1] as int - '0' as int)
  }

  /** `Short.parseShort`: an optional sign and at least one digit, with a value in -32768..32767;
      anything else is a NumberFormatException (None). */
  function ParseShort(t: string): (r: Option<int>)
    ensures r.Some? ==> -32768 <= r.value <= 32767
  {
    var negative := t != [] && t[0] == '-';
    var digits := if t != [] && (t[0] == '-' || t[0] == '+') then t[1..] else t;
    if digits == [] || exists i :: 0 <= i < |digits| && !IsDigit(digits[i]) then None
    else
      var v := if negative then -(DigitsValue(digits) as int) else DigitsValue(digits);
      if -32768 <= v <= 32767 then Some(v) else None
  }

  predicate InByteRange(v: int) { 0 <= v <= 255 }

  // ----- doEvaluate -----

  /** The leading tokens from index i on, with `ret` accumulated so far. */
  function LeadingTokens(tks: seq<string>, i: nat, ret: int): Outcome
    requires 1 <= |tks| <= 4 && i <= |tks| - 1
    decreases |tks| - i
  {
    if i == |tks| - 1 then Int64Value(ret)
    else match ParseShort(tks[i])
      case None => WarnedNull
      case Some(v) =>
        if !InByteRange(v) then NullValue
        else LeadingTokens(tks, i + 1, ret + v * FACTORS[i])
  }

  /** What `doEvaluate` produces for the tokens of the split input. */
  function FromTokens(tks: seq<string>): Outcome
  {
    if |tks| > 4 then NullValue
    else if |tks| == 0 then IndexOutOfBounds
    else match ParseShort(tks[|tks| - 1])
      case None => WarnedNull
      case Some(v) =>
        if !InByteRange(v) then NullValue
        else if |tks| == 1 then Int64Value(v)
        else LeadingTokens(tks, 0, v)
  }

  function InetAtonOf(input: string): Outcome
  {
    FromTokens(SplitDot(input))
  }

  /** `doEvaluate` on a non-null string input. */
  method DoEvaluate(input: string) returns (output: Outcome)
    ensures output == InetAtonOf(input)
  {
    var tks := SplitDot(input);
    if |tks| > 4 {
      return NullValue;
    }
    if |tks| == 0 {
      return IndexOutOfBounds;
    }
    var last := |tks| - 1;
    var parsed := ParseShort(tks[last]);
    if parsed.None? {
      return WarnedNull;
    }
    var val := parsed.value;
    var ret := val;
    if ret < 0 || ret > 255 {
      return NullValue;
    } else if |tks| == 1 {
      return Int64Value(ret);
    }
    var i := 0;
    while i < last
      invariant 0 <= i <= last
      invariant FromTokens(tks) == LeadingTokens(tks, i, ret)
    {
      parsed := ParseShort(tks[i]);
      if parsed.None? {
        return WarnedNull;
      }
      val := parsed.value;
      if val < 0 || val > 255 {
        return NullValue;
      }
      ret := ret + val * FACTORS[i];
      i := i + 1;
    }
    return Int64Value(ret);
  }

  // ----- Properties -----

  /** The weighted sum the leading tokens contribute, each with its factor. */
  function WeightedSum(vals: seq<int>, i: nat): int
    requires i <= |vals| <= 3
    decreases |vals| - i
  {
    if i == |vals| then 0 else vals[i] * FACTORS[i] + WeightedSum(vals, i + 1)
  }

  /** The token values when every token parses. */
  function TokenValues(tks: seq<string>): seq<int>
    requires forall i :: 0 <= i < |tks| ==> ParseShort(tks[i]).Some?
  {
    seq(|tks|, i requires 0 <= i < |tks| => ParseShort(tks[i]).value)
  }

  /** More than four tokens: null, without a warning. */
  lemma TooManyTokensIsNull(input: string)
    requires |SplitDot(input)| > 4
    ensures InetAtonOf(input) == NullValue
  {
  }

  lemma {:induction false} LeadingAllInRange(tks: seq<string>, i: nat, ret: int)
    requires 1 <= |tks| <= 4 && i <= |tks| - 1
    requires forall j :: 0 <= j < |tks| ==> ParseShort(tks[j]).Some? && InByteRange(ParseShort(tks[j]).value)
    ensures LeadingTokens(tks, i, ret) == Int64Value(ret + WeightedSum(TokenValues(tks)[..|tks| - 1], i))
    decreases |tks| - i
  {
    if i < |tks| - 1 {
      LeadingAllInRange(tks, i + 1, ret + ParseShort(tks[i]).value * FACTORS[i]);
    }
  }

  /** Tokens all in 0..255: the last token plus each leading token times its factor. */
  lemma AllTokensInRange(tks: seq<string>)
    requires 1 <= |tks| <= 4
    requires forall j :: 0 <= j < |tks| ==> ParseShort(tks[j]).Some? && InByteRange(ParseShort(tks[j]).value)
    ensures FromTokens(tks) == Int64Value(TokenValues(tks)[|tks| - 1] + WeightedSum(TokenValues(tks)[..|tks| - 1], 0))
  {
    if |tks| > 1 {
      LeadingAllInRange(tks, 0, ParseShort(tks[|tks| - 1]).value);
    }
  }

  lemma {:induction false} LeadingOutOfRange(tks: seq<string>, i: nat, ret: int, k: nat)
    requires 1 <= |tks| <= 4 && i <= k < |tks| - 1
    requires forall j :: 0 <= j < |tks| ==> ParseShort(tks[j]).Some?
    requires !InByteRange(ParseShort(tks[k]).value)
    ensures LeadingTokens(tks, i, ret) == NullValue
    decreases |tks| - i
  {
    if i < k && InByteRange(ParseShort(tks[i]).value) {
      LeadingOutOfRange(tks, i + 1, ret + ParseShort(tks[i]).value * FACTORS[i], k);
    }
  }

  /** Every token numeric but one outside 0..255: null, without a warning. */
  lemma TokenOutOfRangeIsNull(tks: seq<string>, k: nat)
    requires 1 <= |tks| <= 4 && k < |tks|
    requires forall j :: 0 <= j < |tks| ==> ParseShort(tks[j]).Some?
    requires !InByteRange(ParseShort(tks[k]).value)
    ensures FromTokens(tks) == NullValue
  {
    if k < |tks| - 1 && InByteRange(ParseShort(tks[|tks| - 1]).value) {
      LeadingOutOfRange(tks, 0, ParseShort(tks[|tks| - 1]).value, k);
    }
  }

  lemma {:induction false} LeadingWarnsOnlyOnBadNumber(tks: seq<string>, i: nat, ret: int)
    requires 1 <= |tks| <= 4 && i <= |tks| - 1
    requires LeadingTokens(tks, i, ret) == WarnedNull
    ensures exists j :: i <= j < |tks| && ParseShort(tks[j]).None?
    decreases |tks| - i
  {
    if ParseShort(tks[i]).Some? {
      LeadingWarnsOnlyOnBadNumber(tks, i + 1, ret + ParseShort(tks[i]).value * FACTORS[i]);
    }
  }

  /** A warning is raised only for a token that is not a short; the last token is parsed first,
      so a non-numeric last token always warns. */
  lemma WarningMeansBadNumber(tks: seq<string>)
    ensures FromTokens(tks) == WarnedNull ==> exists j :: 0 <= j < |tks| && ParseShort(tks[j]).None?
    ensures 1 <= |tks| <= 4 && ParseShort(tks[|tks| - 1]).None? ==> FromTokens(tks) == WarnedNull
  {
    if FromTokens(tks) == WarnedNull && ParseShort(tks[|tks| - 1]).Some? {
      LeadingWarnsOnlyOnBadNumber(tks, 0, ParseShort(tks[|tks| - 1]).value);
    }
  }

  lemma {:induction false} LeadingNumericOnlyIfBytes(tks: seq<string>, i: nat, ret: int)
    requires 1 <= |tks| <= 4 && i <= |tks| - 1
    requires LeadingTokens(tks, i, ret).Int64Value?
    ensures forall j :: i <= j < |tks| - 1 ==> ParseShort(tks[j]).Some? && InByteRange(ParseShort(tks[j]).value)
    decreases |tks| - i
  {
    if i < |tks| - 1 {
      LeadingNumericOnlyIfBytes(tks, i + 1, ret + ParseShort(tks[i]).value * FACTORS[i]);
    }
  }

  /** A numeric result needs one to four tokens, each a short in 0..255: so any token outside
      0..255, or any token that is not a short, rules a number out. */
  lemma NumericOnlyIfAllBytes(tks: seq<string>)
    requires FromTokens(tks).Int64Value?
    ensures 1 <= |tks| <= 4
    ensures forall j :: 0 <= j < |tks| ==> ParseShort(tks[j]).Some? && InByteRange(ParseShort(tks[j]).value)
  {
    if |tks| > 1 {
      LeadingNumericOnlyIfBytes(tks, 0, ParseShort(tks[|tks| - 1]).value);
    }
  }

  lemma {:induction false} LeadingBadNumberWarns(tks: seq<string>, i: nat, ret: int, k: nat)
    requires 1 <= |tks| <= 4 && i <= k < |tks| - 1
    requires forall j :: i <= j < k ==> ParseShort(tks[j]).Some? && InByteRange(ParseShort(tks[j]).value)
    requires ParseShort(tks[k]).None?
    ensures LeadingTokens(tks, i, ret) == WarnedNull
    decreases |tks| - i
  {
    if i < k {
      LeadingBadNumberWarns(tks, i + 1, ret + ParseShort(tks[i]).value * FACTORS[i], k);
    }
  }

  /** A leading token that is not a short, after a last token and earlier tokens in 0..255,
      makes the loop warn. */
  lemma FirstBadNumberWarns(tks: seq<string>, k: nat)
    requires 2 <= |tks| <= 4 && k < |tks| - 1
    requires ParseShort(tks[|tks| - 1]).Some? && InByteRange(ParseShort(tks[|tks| - 1]).value)
    requires forall j :: 0 <= j < k ==> ParseShort(tks[j]).Some? && InByteRange(ParseShort(tks[j]).value)
    requires ParseShort(tks[k]).None?
    ensures FromTokens(tks) == WarnedNull
  {
    LeadingBadNumberWarns(tks, 0, ParseShort(tks[|tks| - 1]).value, k);
  }

  /** A numeric result lies in 0..2^32-1. */
  lemma ValueInRange(input: string)
    ensures InetAtonOf(input).Int64Value? ==> 0 <= InetAtonOf(input).n < 0x1_0000_0000
  {
    var tks := SplitDot(input);
    if InetAtonOf(input).Int64Value? && |tks| > 1 {
      LeadingSum(tks, 0, ParseShort(tks[|tks| - 1]).value);
      FactorsBound(0, |tks| - 1);
    }
  }

  /** The leading tokens add at most 255 times their remaining factors. */
  lemma {:induction false} LeadingSum(tks: seq<string>, i: nat, ret: int)
    requires 1 <= |tks| <= 4 && i <= |tks| - 1
    requires LeadingTokens(tks, i, ret).Int64Value?
    ensures ret <= LeadingTokens(tks, i, ret).n <= ret + 255 * RemainingFactors(i, |tks| - 1)
    decreases |tks| - i
  {
    if i < |tks| - 1 {
      LeadingSum(tks, i + 1, ret + ParseShort(tks[i]).value * FACTORS[i]);
    }
  }

  /** FACTORS[i] + ... + FACTORS[last - 1]. */
  function RemainingFactors(i: nat, last: nat): int
    requires last <= 3
    decreases last - i
  {
    if i >= last then 0 else FACTORS[i] + RemainingFactors(i + 1, last)
  }

  lemma FactorsBound(i: nat, last: nat)
    requires last <= 3
    ensures 0 <= RemainingFactors(i, last) <= 16843008
  {
    assert RemainingFactors(2, 3) == 256;
    assert RemainingFactors(1, 3) == 65792;
    assert RemainingFactors(0, 3) == 16843008;
    assert RemainingFactors(1, 2) == 65536;
    assert RemainingFactors(0, 2) == 16842752;
    assert RemainingFactors(0, 1) == 16777216;
  }

  /** Java's split keeps an empty input whole and reduces a string of dots to no tokens, so
      "" warns (parseShort("") fails) and "." fails on `tks[-1]`. */
  lemma SplitEdgeCases()
    ensures SplitDot("") == [""]
    ensures SplitDot(".") == []
    ensures InetAtonOf("") == WarnedNull
    ensures InetAtonOf(".") == IndexOutOfBounds
  {
    assert PiecesBetweenDots(".") == [[], []];
  }

  lemma SplitExamples()
    ensures SplitDot("10.0.0.1") == ["10", "0", "0", "1"]
    ensures SplitDot("10.1") == ["10", "1"]
  {
    assert "1"[1..] == "";
    assert ['1'] + "" == "1";
    assert PiecesBetweenDots("1") == ["1"];
    assert ".1"[1..] == "1";
    assert PiecesBetweenDots(".1") == ["", "1"];
    assert "0.1"[1..] == ".1";
    assert ['0'] + "" == "0";
    assert PiecesBetweenDots("0.1") == ["0", "1"];
    assert ".0.1"[1..] == "0.1";
    assert PiecesBetweenDots(".0.1") == ["", "0", "1"];
    assert "0.0.1"[1..] == ".0.1";
    assert PiecesBetweenDots("0.0.1") == ["0", "0", "1"];
    assert ".0.0.1"[1..] == "0.0.1";
    assert PiecesBetweenDots(".0.0.1") == ["", "0", "0", "1"];
    assert "0.0.0.1"[1..] == ".0.0.1";
    assert PiecesBetweenDots("0.0.0.1") == ["0", "0", "0", "1"];
    assert "10.0.0.1"[1..] == "0.0.0.1";
    assert ['1'] + "0" == "10";
    assert PiecesBetweenDots("10.0.0.1") == ["10", "0", "0", "1"];
    assert "10.1"[1..] == "0.1";
    assert PiecesBetweenDots("10.1") == ["10", "1"];
  }

  lemma ParseExamples()
    ensures ParseShort("10") == Some(10) && ParseShort("1") == Some(1) && ParseShort("0") == Some(0)
  {
    assert DigitsValue("1") == 1;
    assert DigitsValue("10") == 10;
    assert DigitsValue("0") == 0;
  }

  /** "10.0.0.1" is 10 * 2^24 + 1; "10.1" puts the last token in the low byte as well. */
  lemma DottedExamples()
    ensures InetAtonOf("10.0.0.1") == Int64Value(167772161)
    ensures InetAtonOf("10.1") == Int64Value(167772161)
  {
    SplitExamples();
    ParseExamples();
  }

  /** A single token in range is its own value. */
  lemma SingleToken(tks: seq<string>)
    requires |tks| == 1 && ParseShort(tks[0]).Some? && InByteRange(ParseShort(tks[0]).value)
    ensures FromTokens(tks) == Int64Value(ParseShort(tks[0]).value)
  {
  }
}

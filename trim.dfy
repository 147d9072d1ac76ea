/**
 * TrimExpression: LTRIM, RTRIM and TRIM of a string by one character, with null propagation and the
 * two-argument type composition.
 */
module Trim {
  import opened Common

  /** LEADING, TRAILING, or (as Java's null) both sides. */
  datatype TrimType = Leading | Trailing

  datatype AkType = Varchar | OtherType(name: string)

  datatype Error =
    | StringIndexOutOfBounds(index: int)              // charAt(0) of an empty trim string
    | WrongExpressionArity(expected: int, given: int)

  /** The string without its leading run of ch. */
  function LeftTrimmed(st: string, ch: char): string
  {
    if st != [] && st[0] == ch then LeftTrimmed(st[1..], ch) else st
  }

  /** The string without its trailing run of ch. */
  function RightTrimmed(st: string, ch: char): string
  {
    if st != [] && st[|st| - 1] == ch then RightTrimmed(st[..|st| - 1], ch) else st
  }

  /** The left trim removes a prefix made only of ch, and what stays does not start with ch. */
  lemma {:induction false} LeftTrimmedRemovesLeadingRun(st: string, ch: char)
    ensures var r := LeftTrimmed(st, ch);
            |r| <= |st| && r == st[|st| - |r|..]
            && (forall i :: 0 <= i < |st| - |r| ==> st[i] == ch)
            && (r != [] ==> r[0] != ch)
  {
    if st != [] && st[0] == ch {
      LeftTrimmedRemovesLeadingRun(st[1..], ch);
      var r := LeftTrimmed(st, ch);
      forall i | 0 <= i < |st| - |r| ensures st[i] == ch {
        if i > 0 { assert st[i] == st[1..][i - 1]; }
      }
    }
  }

  /** The right trim removes a suffix made only of ch, and what stays does not end with ch. */
  lemma {:induction false} RightTrimmedRemovesTrailingRun(st: string, ch: char)
    ensures var r := RightTrimmed(st, ch);
            |r| <= |st| && r == st[..|r|]
            && (forall i :: |r| <= i < |st| ==> st[i] == ch)
            && (r != [] ==> r[|r| - 1] != ch)
  {
    if st != [] && st[|st| - 1] == ch {
      RightTrimmedRemovesTrailingRun(st[..|st| - 1], ch);
    }
  }

  /** Trimming twice is trimming once. */
  lemma {:induction false} TrimIdempotent(st: string, ch: char)
    ensures LeftTrimmed(LeftTrimmed(st, ch), ch) == LeftTrimmed(st, ch)
    ensures RightTrimmed(RightTrimmed(st, ch), ch) == RightTrimmed(st, ch)
  {
    LeftTrimmedRemovesLeadingRun(st, ch);
    RightTrimmedRemovesTrailingRun(st, ch);
  }

  /** TRIM applies ltrim then rtrim; the other order gives the same string. */
  lemma {:induction false} TrimSidesCommute(st: string, ch: char)
    ensures RightTrimmed(LeftTrimmed(st, ch), ch) == LeftTrimmed(RightTrimmed(st, ch), ch)
    decreases |st|
  {
    if st != [] && st[0] == ch {
      if |st| == 1 {
        assert LeftTrimmed(st[1..], ch) == [];
      } else {
        TrimSidesCommute(st[1..], ch);
        RightKeepsHead(st, ch);
      }
    } else {
      RightKeepsHead(st, ch);
    }
  }

  /** When st does not consist only of ch, the right trim does not touch its first character. */
  lemma {:induction false} RightKeepsHead(st: string, ch: char)
    ensures st != [] && st[0] == ch && |st| > 1 ==>
      LeftTrimmed(RightTrimmed(st, ch), ch) == LeftTrimmed(RightTrimmed(st[1..], ch), ch)
    ensures !(st != [] && st[0] == ch) ==>
      LeftTrimmed(RightTrimmed(st, ch), ch) == RightTrimmed(st, ch)
    decreases |st|
  {
    RightTrimmedRemovesTrailingRun(st, ch);
    if st != [] {
      RightTrimmedRemovesTrailingRun(st[1..], ch);
      if st[0] == ch && |st| > 1 {
        RightDropsHead(st, ch);
      }
    }
  }

  /** Right-trimming commutes with dropping a first character equal to ch. */
  lemma {:induction false} RightDropsHead(st: string, ch: char)
    requires |st| > 1 && st[0] == ch
    ensures RightTrimmed(st, ch) == [] || RightTrimmed(st, ch) == [ch] + RightTrimmed(st[1..], ch)
    ensures RightTrimmed(st, ch) == [] ==> RightTrimmed(st[1..], ch) == []
    decreases |st|
  {
    if st[|st| - 1] == ch {
      if |st| > 2 {
        RightDropsHead(st[..|st| - 1], ch);
        assert st[..|st| - 1][1..] == st[1..][..|st| - 2];
      } else {
        assert st[1..][..0] == [];
      }
    } else {
      assert st == [ch] + st[1..];
    }
  }

  /** `ltrim`: scans forward for the first character other than ch. */
  method Ltrim(st: string, ch: char) returns (r: string)
    ensures r == LeftTrimmed(st, ch)
  {
    var n := 0;
    while n < |st|
      invariant 0 <= n <= |st|
      invariant LeftTrimmed(st, ch) == LeftTrimmed(st[n..], ch)
    {
      if st[n] != ch {
        return st[n..];
      }
      assert st[n..][1..] == st[n + 1..];
      n := n + 1;
    }
    return "";
  }

  /** `rtrim`: scans backward for the last character other than ch. */
  method Rtrim(st: string, ch: char) returns (r: string)
    ensures r == RightTrimmed(st, ch)
  {
    var n := |st| - 1;
    assert st[..n + 1] == st;
    while n >= 0
      invariant -1 <= n < |st|
      invariant RightTrimmed(st, ch) == RightTrimmed(st[..n + 1], ch)
    {
      if st[n] != ch {
        return st[..n + 1];
      }
      assert st[..n + 1][..n] == st[..n];
      n := n - 1;
    }
    return "";
  }

  /** The value TRIM/LTRIM/RTRIM yields for a (possibly null) source and trim string. */
  function TrimValue(source: Option<string>, trimChar: Option<string>, trimType: Option<TrimType>): Result<Option<string>, Error>
  {
    if source.None? || trimChar.None? then Success(None)
    else if trimChar.value == [] then Failure(StringIndexOutOfBounds(0))
    else
      var ch := trimChar.value[0];
      var left := if trimType != Some(Trailing) then LeftTrimmed(source.value, ch) else source.value;
      Success(Some(if trimType != Some(Leading) then RightTrimmed(left, ch) else left))
  }

  /** `InnerEvaluation.eval`: null in either operand gives null; an empty trim string fails at
      `charAt(0)`; otherwise the first character trims the sides the type selects. */
  method Eval(source: Option<string>, trimChar: Option<string>, trimType: Option<TrimType>) returns (r: Result<Option<string>, Error>)
    ensures r == TrimValue(source, trimChar, trimType)
  {
    if source.None? {
      return Success(None);
    }
    if trimChar.None? {
      return Success(None);
    }
    if trimChar.value == [] {
      return Failure(StringIndexOutOfBounds(0));
    }
    var st := source.value;
    var ch := trimChar.value[0];
    if trimType != Some(Trailing) {
      st := Ltrim(st, ch);
    }
    if trimType != Some(Leading) {
      st := Rtrim(st, ch);
    }
    return Success(Some(st));
  }

  /** The three functions' results: null-contaminating, and trimmed on exactly the named sides. */
  lemma TrimValueSides(source: string, trimChar: string, trimType: Option<TrimType>)
    requires trimChar != []
    ensures var ch := trimChar[0];
            TrimValue(Some(source), Some(trimChar), trimType) == Success(Some(
              match trimType
                case Some(Leading) => LeftTrimmed(source, ch)
                case Some(Trailing) => RightTrimmed(source, ch)
                case None => RightTrimmed(LeftTrimmed(source, ch), ch)))
    ensures forall t: Option<string> :: TrimValue(None, t, trimType) == Success(None)
    ensures TrimValue(Some(source), None, trimType) == Success(None)
  {
  }

  /** Both-sides TRIM leaves neither end equal to the trim character. */
  lemma TrimBothEnds(source: string, ch: char)
    ensures var r := RightTrimmed(LeftTrimmed(source, ch), ch);
            r != [] ==> r[0] != ch && r[|r| - 1] != ch
  {
    var l := LeftTrimmed(source, ch);
    LeftTrimmedRemovesLeadingRun(source, ch);
    RightTrimmedRemovesTrailingRun(l, ch);
  }

  /** `InternalComposer.composeType`: exactly two arguments, both then typed VARCHAR, and the result
      is the first argument's (new) type. */
  method ComposeType(argumentTypes: array<AkType>) returns (r: Result<AkType, Error>)
    modifies argumentTypes
    ensures argumentTypes.Length != 2 ==>
      r == Failure(WrongExpressionArity(1, argumentTypes.Length)) && argumentTypes[..] == old(argumentTypes[..])
    ensures argumentTypes.Length == 2 ==>
      r == Success(Varchar) && argumentTypes[..] == [Varchar, Varchar]
  {
    if argumentTypes.Length != 2 {
      return Failure(WrongExpressionArity(1, argumentTypes.Length));
    }
    var n := 0;
    while n < argumentTypes.Length
      invariant 0 <= n <= argumentTypes.Length
      invariant forall j :: 0 <= j < n ==> argumentTypes[j] == Varchar
    {
      argumentTypes[n] := Varchar;
      n := n + 1;
    }
    return Success(argumentTypes[0]);
  }

  /** `name()`: "TRIM " followed by the type's name, or nothing for both sides. */
  function Name(trimType: Option<TrimType>): (s: string)
    ensures |s| >= 5 && s[..5] == "TRIM "
    ensures trimType.None? <==> s == "TRIM "
  {
    "TRIM " + match trimType
      case None => ""
      case Some(Leading) => "LEADING"
      case Some(Trailing) => "TRAILING"
  }
}

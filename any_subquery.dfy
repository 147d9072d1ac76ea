/**
 * ANY over a subquery: the quantified comparison predicate of SQL-92 (ISO/IEC 9075:1992,
 * section 8.7). The predicate is evaluated against each inner row in turn; the answer is TRUE as
 * soon as one row gives true, otherwise NULL (unknown) if some row gave null, otherwise FALSE.
 */
module AnySubquery {
  import opened Common
  import opened Rows

  /** A SQL boolean: true, false or null (unknown). */
  datatype TriBool = True | False | Unknown

  /** `resultType()`: a nullable BOOLEAN. */
  function ResultType(): (t: TInstance)
    ensures t.typeClass == BOOLEAN && t.nullable
  {
    TInstance(BOOLEAN, [], true)
  }

  /** Reference semantics of ANY over the predicate's values, one per inner row. */
  function AnyOf(vs: seq<TriBool>): TriBool
  {
    if True in vs then True
    else if Unknown in vs then Unknown
    else False
  }

  /** TRUE exactly when some row gives true. */
  lemma AnyTrueIffSomeTrue(vs: seq<TriBool>)
    ensures AnyOf(vs) == True <==> exists i :: 0 <= i < |vs| && vs[i] == True
  {
  }

  /** NULL exactly when no row gives true and some row gives null. */
  lemma AnyUnknownIffNoTrueSomeUnknown(vs: seq<TriBool>)
    ensures AnyOf(vs) == Unknown <==>
      (forall i :: 0 <= i < |vs| ==> vs[i] != True) && (exists i :: 0 <= i < |vs| && vs[i] == Unknown)
  {
  }

  /** FALSE exactly when every row gives false; in particular for an empty subquery. */
  lemma AnyFalseIffAllFalse(vs: seq<TriBool>)
    ensures AnyOf(vs) == False <==> forall i :: 0 <= i < |vs| ==> vs[i] == False
    ensures AnyOf([]) == False
  {
  }

  /** Index of the first row whose predicate is true, or |vs| when none is. */
  function FirstTrue(vs: seq<TriBool>): (k: nat)
    ensures k <= |vs|
    ensures k < |vs| ==> vs[k] == True
    ensures forall j :: 0 <= j < k ==> vs[j] != True
  {
    if vs == [] then 0
    else if vs[0] == True then 0
    else 1 + FirstTrue(vs[1..])
  }

  /** The predicate's value for each inner row, in order. */
  function Conditions(rows: seq<Row>, condition: Row -> TriBool): (vs: seq<TriBool>)
    ensures |vs| == |rows|
    ensures forall i :: 0 <= i < |rows| ==> vs[i] == condition(rows[i])
  {
    seq(|rows|, i requires 0 <= i < |rows| => condition(rows[i]))
  }

  /**
   * `doEval`: pulls inner rows until the input ends or the predicate is true for one of them.
   * `pulls` counts the calls to `next()`, the final one that returns no row included.
   */
  method AnyEval(rows: seq<Row>, condition: Row -> TriBool) returns (result: TriBool, pulls: nat)
    ensures result == AnyOf(Conditions(rows, condition))
    ensures var k := FirstTrue(Conditions(rows, condition));
            pulls == if k < |rows| then k + 1 else |rows| + 1
  {
    ghost var vs := Conditions(rows, condition);
    result := False;
    var position := 0;
    pulls := 0;
    while true
      invariant 0 <= position <= |rows| && pulls == position
      invariant result != True
      invariant result == AnyOf(vs[..position])
      invariant forall j :: 0 <= j < position ==> vs[j] != True
      decreases |rows| - position
    {
      pulls := pulls + 1;
      if position == |rows| {
        break;
      }
      var row := rows[position];
      position := position + 1;
      var v := condition(row);
      assert vs[..position] == vs[..position - 1] + [v];
      if v == Unknown {
        result := Unknown;
      } else if v == True {
        result := True;
        break;
      }
    }
    assert position == |rows| ==> vs[..position] == vs;
  }
}

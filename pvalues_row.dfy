/**
 * PValuesRow: a row built from typed value sources. Construction checks that the number of
 * values equals the row type's field count and that each value's type class is the class the
 * row type declares at that position.
 */
module PValuesRows {
  import opened Common
  import opened Rows

  datatype RowError =
    | ArityMismatch(required: nat, given: nat)
    | TypeMismatch(index: nat, requiredClass: TClass, actualClass: Option<TClass>)

  /** A hierarchical key; a PValuesRow never has one. */
  datatype HKey = HKey(segments: seq<seq<Value>>)

  datatype PValuesRow = PValuesRow(rowType: RowType, values: seq<PValue>) {
    function RowTypeOf(): RowType { rowType }

    function PValueAt(i: nat): PValue
      requires i < |values|
    {
      values[i]
    }

    function HKeyOf(): Option<HKey> { None }
  }

  /** Value i has the type class that the row type requires at position i. */
  predicate ClassMatches(rowType: RowType, values: seq<PValue>, i: nat)
    requires i < |values| && i < rowType.NFields()
  {
    TClassOf(values[i].tInstance) == Some(rowType.fieldTypes[i].typeClass)
  }

  /** The values fit the row type: right arity and right class at every position. */
  predicate Conforms(rowType: RowType, values: seq<PValue>)
  {
    |values| == rowType.NFields() && forall i :: 0 <= i < |values| ==> ClassMatches(rowType, values, i)
  }

  /** The constructor `PValuesRow(rowType, values...)`, which throws IllegalArgumentException on a mismatch. */
  method NewPValuesRow(rowType: RowType, values: seq<PValue>) returns (r: Result<PValuesRow, RowError>)
    ensures r.Success? <==> Conforms(rowType, values)
    ensures r.Success? ==>
      && r.value.RowTypeOf() == rowType
      && |r.value.values| == |values|
      && (forall i :: 0 <= i < |values| ==> r.value.PValueAt(i) == values[i])
      && r.value.HKeyOf() == None
    ensures |values| != rowType.NFields() ==> r == Failure(ArityMismatch(rowType.NFields(), |values|))
    ensures r.Failure? && r.error.ArityMismatch? ==> |values| != rowType.NFields()
    ensures r.Failure? && |values| == rowType.NFields() ==> r.error.TypeMismatch?
    ensures r.Failure? && r.error.TypeMismatch? ==>
      && |values| == rowType.NFields()
      && r.error.index < |values|
      && !ClassMatches(rowType, values, r.error.index)
      && (forall j :: 0 <= j < r.error.index ==> ClassMatches(rowType, values, j))
      && r.error.requiredClass == rowType.fieldTypes[r.error.index].typeClass
      && r.error.actualClass == TClassOf(values[r.error.index].tInstance)
  {
    if rowType.NFields() != |values| {
      return Failure(ArityMismatch(rowType.NFields(), |values|));
    }
    var i := 0;
    while i < |values|
      invariant 0 <= i <= |values|
      invariant forall j :: 0 <= j < i ==> ClassMatches(rowType, values, j)
    {
      var requiredType := rowType.fieldTypes[i].typeClass;
      var actualType := TClassOf(values[i].tInstance);
      if actualType != Some(requiredType) {
        assert !ClassMatches(rowType, values, i);
        return Failure(TypeMismatch(i, requiredType, actualType));
      }
      i := i + 1;
    }
    r := Success(PValuesRow(rowType, values));
  }
}

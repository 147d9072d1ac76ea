/**
 * PrimaryKey: a table's primary key, whose column list is derived from its index once and then kept.
 */
module PrimaryKeys {
  import opened Common

  /** A column; `isAkibanPKColumn` marks the hidden column of a generated key. */
  datatype Column = Column(name: string, isAkibanPKColumn: bool)

  datatype IndexColumn = IndexColumn(column: Column)

  datatype TableIndex = TableIndex(columns: seq<IndexColumn>)

  /** `getColumns` on a key built by the default constructor has no index to read. */
  datatype Error = NullIndex

  /** The columns of the index's index-columns, in order. */
  function ColumnsOf(index: TableIndex): (cols: seq<Column>)
    ensures |cols| == |index.columns|
    ensures forall i :: 0 <= i < |cols| ==> cols[i] == index.columns[i].column
  {
    seq(|index.columns|, i requires 0 <= i < |index.columns| => index.columns[i].column)
  }

  /** A generated key: exactly one column, and that column is the generated one. */
  predicate IsGeneratedKey(cols: seq<Column>)
  {
    |cols| == 1 && cols[0].isAkibanPKColumn
  }

  /** A key with several columns, or whose only column was declared, is not generated. This
      unfolds `IsGeneratedKey` over `ColumnsOf`; it adds no proof. */
  lemma GeneratedKeyHasOneHiddenColumn(index: TableIndex)
    ensures IsGeneratedKey(ColumnsOf(index)) <==>
      |index.columns| == 1 && index.columns[0].column.isAkibanPKColumn
  {
  }

  class PrimaryKey {
    const index: Option<TableIndex>
    var columns: Option<seq<Column>>

    /** The cached list, once built, is the index's column list. */
    ghost predicate Valid()
      reads this
    {
      columns.Some? ==> index.Some? && columns.value == ColumnsOf(index.value)
    }

    /** `PrimaryKey(index)`. */
    constructor (index: TableIndex)
      ensures Valid() && this.index == Some(index) && columns.None?
    {
      this.index := Some(index);
      columns := None;
    }

    /** The no-argument constructor, which leaves the index null. */
    constructor Empty()
      ensures Valid() && index.None? && columns.None?
    {
      index := None;
      columns := None;
    }

    function GetIndex(): Option<TableIndex>
    {
      index
    }

    /** `getColumns`: builds the list on the first call and returns the kept list afterwards. */
    method GetColumns() returns (r: Result<seq<Column>, Error>)
      requires Valid()
      modifies this
      ensures Valid()
      ensures index.None? ==> r == Failure(NullIndex) && columns == old(columns)
      ensures index.Some? ==> r == Success(ColumnsOf(index.value)) && columns == Some(ColumnsOf(index.value))
      ensures old(columns).Some? ==> columns == old(columns)
    {
      if columns.None? {
        if index.None? {
          return Failure(NullIndex);
        }
        var built: seq<Column> := [];
        var indexColumns := index.value.columns;
        var i := 0;
        while i < |indexColumns|
          invariant 0 <= i <= |indexColumns|
          invariant |built| == i && forall j :: 0 <= j < i ==> built[j] == indexColumns[j].column
          invariant columns.None?
        {
          built := built + [indexColumns[i].column];
          i := i + 1;
        }
        columns := Some(built);
      }
      return Success(columns.value);
    }

    /** `isAkibanPK`. */
    method IsAkibanPK() returns (r: Result<bool, Error>)
      requires Valid()
      modifies this
      ensures Valid()
      ensures index.None? ==> r == Failure(NullIndex)
      ensures index.Some? ==> r == Success(IsGeneratedKey(ColumnsOf(index.value)))
      ensures index.Some? ==> columns == Some(ColumnsOf(index.value))
    {
      var cols := GetColumns();
      if cols.Failure? {
        return Failure(cols.error);
      }
      return Success(|cols.value| == 1 && cols.value[0].isAkibanPKColumn);
    }
  }

  /** Calling getColumns twice yields the same list, and the second call builds nothing. */
  method ColumnsAreKept(pk: PrimaryKey) returns (first: Result<seq<Column>, Error>, second: Result<seq<Column>, Error>)
    requires pk.Valid()
    modifies pk
    ensures first == second
    ensures pk.index.Some? ==> first.Success? && pk.columns == Some(first.value)
  {
    first := pk.GetColumns();
    second := pk.GetColumns();
  }
}

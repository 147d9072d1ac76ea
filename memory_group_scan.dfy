/**
 * SimpleMemoryGroupScan: a group scan over an in-memory iterator. Each element becomes one row,
 * in iterator order, built with a hidden primary key that counts the rows produced from 1.
 */
module MemoryGroupScan {
  import opened Common
  import opened Rows

  /** The row built for the element at index k: its hidden primary key is k + 1 (a Java int). */
  function RowAt<T>(data: seq<T>, rowType: RowType, createRow: (T, Int32) -> seq<Value>, k: nat): Row
    requires k < |data|
  {
    Row(rowType, createRow(data[k], Wrap32(k + 1)))
  }

  /** Every row of a complete scan, in iterator order. */
  function ScanRows<T>(data: seq<T>, rowType: RowType, createRow: (T, Int32) -> seq<Value>): (rows: seq<Row>)
    ensures |rows| == |data|
    ensures forall k :: 0 <= k < |data| ==> rows[k] == RowAt(data, rowType, createRow, k)
  {
    seq(|data|, k requires 0 <= k < |data| => RowAt(data, rowType, createRow, k))
  }

  /** The k-th row (counting from 1) carries hidden primary key k, while k fits in an int. */
  lemma HiddenPkCountsFromOne<T>(data: seq<T>, rowType: RowType, createRow: (T, Int32) -> seq<Value>, k: nat)
    requires 1 <= k <= |data| && k <= INT_MAX
    ensures ScanRows(data, rowType, createRow)[k - 1] == Row(rowType, createRow(data[k - 1], k))
  {
  }

  class SimpleMemoryGroupScan<T> {
    /** The iterator's elements and how far it has advanced. */
    const data: seq<T>
    var position: nat
    const rowType: RowType
    /** The subclass's `createRow(data, hiddenPk)`. */
    const createRow: (T, Int32) -> seq<Value>
    var hiddenPk: Int32
    /** The rows returned so far. */
    ghost var produced: seq<Row>

    ghost predicate Valid()
      reads this
    {
      && position <= |data|
      && hiddenPk == Wrap32(position)
      && produced == ScanRows(data, rowType, createRow)[..position]
    }

    constructor (rowType: RowType, data: seq<T>, createRow: (T, Int32) -> seq<Value>)
      ensures Valid() && produced == [] && hiddenPk == 0
      ensures this.data == data && this.rowType == rowType && this.createRow == createRow
    {
      this.data := data;
      this.rowType := rowType;
      this.createRow := createRow;
      position := 0;
      hiddenPk := 0;
      produced := [];
    }

    /** The next element's row, or None once the iterator is exhausted (and ever after). */
    method Next() returns (r: Option<Row>)
      requires Valid()
      modifies this
      ensures Valid()
      ensures old(position) == |data| ==> r == None && position == old(position) && hiddenPk == old(hiddenPk)
      ensures old(position) < |data| ==>
        && r == Some(RowAt(data, rowType, createRow, old(position)))
        && position == old(position) + 1
        && hiddenPk == Wrap32(old(hiddenPk) + 1)
      ensures r.Some? ==> produced == old(produced) + [r.value]
      ensures r.None? ==> produced == old(produced)
    {
      if position == |data| {
        return None;
      }
      Wrap32Succ(position);
      hiddenPk := Wrap32(hiddenPk + 1);
      var row := Row(rowType, createRow(data[position], hiddenPk));
      ghost var all := ScanRows(data, rowType, createRow);
      assert all[..position + 1] == all[..position] + [all[position]];
      position := position + 1;
      produced := produced + [row];
      r := Some(row);
    }

    /** Closing changes nothing. */
    method Close()
      requires Valid()
      ensures Valid()
    {
    }
  }
}

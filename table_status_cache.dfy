/**
 * MemoryOnlyTableStatusCache: per-table counters kept in memory, keyed by table id. An entry is
 * created, all zero, the first time a table id is used; `drop` forgets it. Counters are Java longs.
 */
module TableStatusCache {
  import opened Common

  /** A snapshot of one table's counters. `rowDef` stands for the attached RowDef reference. */
  datatype Status = Status(autoIncrement: Int64, ordinal: Int32, rowCount: Int64, uniqueID: Int64, rowDef: Option<nat>)

  const ZERO_STATUS: Status := Status(0, 0, 0, 0, None)

  // ----- The counter updates of InternalTableStatus, on snapshots -----

  /** `rowDeleted`: rowCount := Math.max(0, rowCount - 1), in long arithmetic. */
  function RowDeletedStep(s: Status): (t: Status)
    ensures t.rowCount >= 0
    ensures s.rowCount > 0 ==> t.rowCount == s.rowCount - 1
    ensures s.rowCount == 0 ==> t.rowCount == 0
    ensures t == s.(rowCount := t.rowCount)
  {
    s.(rowCount := Max(0, Wrap64(s.rowCount - 1)))
  }

  /** `rowWritten`: ++rowCount, which wraps at Long.MAX_VALUE. */
  function RowWrittenStep(s: Status): (t: Status)
    ensures s.rowCount < TWO_63 - 1 ==> t.rowCount == s.rowCount + 1
    ensures s.rowCount == TWO_63 - 1 ==> t.rowCount == -TWO_63
    ensures t == s.(rowCount := t.rowCount)
  {
    s.(rowCount := Wrap64(s.rowCount + 1))
  }

  /** `setAutoIncrement`: keeps the larger of the stored and the given value. */
  function SetAutoIncrementStep(s: Status, value: Int64): (t: Status)
    ensures t.autoIncrement >= s.autoIncrement && t.autoIncrement >= value
    ensures t.autoIncrement == s.autoIncrement || t.autoIncrement == value
    ensures t == s.(autoIncrement := t.autoIncrement)
  {
    s.(autoIncrement := Max(s.autoIncrement, value))
  }

  /** `setUniqueID`: `Math.max(uniqueID, uniqueID)` compares the parameter with itself, so the
      given value is stored outright, even when it is smaller than the stored one. */
  function SetUniqueIDStep(s: Status, value: Int64): (t: Status)
    ensures t.uniqueID == value
    ensures t == s.(uniqueID := value)
  {
    s.(uniqueID := Max(value, value))
  }

  /** `createNewUniqueID`: ++uniqueID, returning the new value. */
  function CreateNewUniqueIDStep(s: Status): (r: (Status, Int64))
    ensures r.1 == r.0.uniqueID
    ensures s.uniqueID < TWO_63 - 1 ==> r.1 == s.uniqueID + 1
    ensures r.0 == s.(uniqueID := r.1)
  {
    var id := Wrap64(s.uniqueID + 1);
    (s.(uniqueID := id), id)
  }

  function SetOrdinalStep(s: Status, value: Int32): (t: Status)
    ensures t.ordinal == value && t == s.(ordinal := value)
  {
    s.(ordinal := value)
  }

  /** `truncate`: zeroes autoIncrement, uniqueID and rowCount; ordinal and rowDef stay. */
  function TruncateStep(s: Status): (t: Status)
    ensures t.autoIncrement == 0 && t.uniqueID == 0 && t.rowCount == 0
    ensures t.ordinal == s.ordinal && t.rowDef == s.rowDef
  {
    s.(autoIncrement := 0, uniqueID := 0, rowCount := 0)
  }

  /** The ids handed out by n successive createNewUniqueID calls. */
  function UniqueIDs(s: Status, n: nat): (ids: seq<Int64>)
    ensures |ids| == n
    decreases n
  {
    if n == 0 then [] else
      var (s', id) := CreateNewUniqueIDStep(s);
      [id] + UniqueIDs(s', n - 1)
  }

  /** Until the long wraps, successive unique ids are old+1, old+2, ...: strictly increasing. */
  lemma {:induction false} UniqueIDsIncrease(s: Status, n: nat)
    requires s.uniqueID + n < TWO_63
    ensures forall k :: 0 <= k < n ==> UniqueIDs(s, n)[k] == s.uniqueID + k + 1
    ensures forall j, k :: 0 <= j < k < n ==> UniqueIDs(s, n)[j] < UniqueIDs(s, n)[k]
    decreases n
  {
    if n > 0 {
      var (s', id) := CreateNewUniqueIDStep(s);
      UniqueIDsIncrease(s', n - 1);
      assert UniqueIDs(s, n) == [id] + UniqueIDs(s', n - 1);
    }
  }

  /** Starting from zero, written and deleted rows never drive rowCount below zero. */
  lemma {:induction false} RowCountStaysNonNegative(s: Status, writes: seq<bool>)
    requires 0 <= s.rowCount && s.rowCount + |writes| < TWO_63
    ensures 0 <= ApplyRowChanges(s, writes).rowCount <= s.rowCount + |writes|
    decreases |writes|
  {
    if writes != [] {
      var s' := if writes[0] then RowWrittenStep(s) else RowDeletedStep(s);
      RowCountStaysNonNegative(s', writes[1..]);
    }
  }

  /** rowWritten (true) and rowDeleted (false) applied in order. */
  function ApplyRowChanges(s: Status, writes: seq<bool>): Status
    decreases |writes|
  {
    if writes == [] then s
    else ApplyRowChanges(if writes[0] then RowWrittenStep(s) else RowDeletedStep(s), writes[1..])
  }

  /** The status of a table id: its entry, or the all-zero status a first access creates. */
  function StatusOf(view: map<Int32, Status>, tableID: Int32): Status
  {
    if tableID in view then view[tableID] else ZERO_STATUS
  }

  /** After `drop`, the next access on that id sees an all-zero status; other ids keep theirs. */
  lemma DropResets(view: map<Int32, Status>, tableID: Int32, other: Int32)
    requires other != tableID
    ensures StatusOf(view - {tableID}, tableID) == ZERO_STATUS
    ensures StatusOf(view - {tableID}, other) == StatusOf(view, other)
  {
  }

  // ----- The objects -----

  class InternalTableStatus {
    var autoIncrement: Int64
    var ordinal: Int32
    var rowCount: Int64
    var uniqueID: Int64
    var rowDef: Option<nat>

    function Snapshot(): Status
      reads this
    {
      Status(autoIncrement, ordinal, rowCount, uniqueID, rowDef)
    }

    constructor ()
      ensures Snapshot() == ZERO_STATUS
    {
      autoIncrement, ordinal, rowCount, uniqueID, rowDef := 0, 0, 0, 0, None;
    }

    method RowDeleted()
      modifies this
      ensures Snapshot() == RowDeletedStep(old(Snapshot()))
    {
      rowCount := Max(0, Wrap64(rowCount - 1));
    }

    /** Only the last-update timestamp, which is not modelled, changes. */
    method RowUpdated()
      ensures Snapshot() == old(Snapshot())
    {
    }

    method RowWritten()
      modifies this
      ensures Snapshot() == RowWrittenStep(old(Snapshot()))
    {
      rowCount := Wrap64(rowCount + 1);
    }

    method SetAutoIncrement(value: Int64)
      modifies this
      ensures Snapshot() == SetAutoIncrementStep(old(Snapshot()), value)
    {
      autoIncrement := Max(autoIncrement, value);
    }

    method SetOrdinal(value: Int32)
      modifies this
      ensures Snapshot() == SetOrdinalStep(old(Snapshot()), value)
    {
      ordinal := value;
    }

    method SetUniqueID(value: Int64)
      modifies this
      ensures Snapshot() == SetUniqueIDStep(old(Snapshot()), value)
    {
      uniqueID := Max(value, value);
    }

    method CreateNewUniqueID() returns (id: Int64)
      modifies this
      ensures (Snapshot(), id) == CreateNewUniqueIDStep(old(Snapshot()))
    {
      uniqueID := Wrap64(uniqueID + 1);
      id := uniqueID;
    }

    method Truncate()
      modifies this
      ensures Snapshot() == TruncateStep(old(Snapshot()))
    {
      autoIncrement := 0;
      uniqueID := 0;
      rowCount := 0;
    }

    method SetRowDef(rowDef: Option<nat>)
      modifies this
      ensures Snapshot() == old(Snapshot()).(rowDef := rowDef)
    {
      this.rowDef := rowDef;
    }
  }

  class MemoryOnlyTableStatusCache {
    var tableStatusMap: map<Int32, InternalTableStatus>

    /** Distinct ids never share a status object. */
    ghost predicate Valid()
      reads this
    {
      forall a, b :: a in tableStatusMap && b in tableStatusMap && a != b ==> tableStatusMap[a] != tableStatusMap[b]
    }

    /** The counters of every table id that has an entry. */
    ghost function View(): map<Int32, Status>
      reads this, tableStatusMap.Values
    {
      map id | id in tableStatusMap :: tableStatusMap[id].Snapshot()
    }

    constructor ()
      ensures Valid() && View() == map[]
    {
      tableStatusMap := map[];
    }

    /** `getInternalTableStatus`: the id's status object, created all-zero on first use. */
    method GetInternalTableStatus(tableID: Int32) returns (ts: InternalTableStatus)
      requires Valid()
      modifies this
      ensures Valid()
      ensures tableID in tableStatusMap && ts == tableStatusMap[tableID]
      ensures tableStatusMap == old(tableStatusMap)[tableID := ts]
      ensures tableID in old(tableStatusMap) ==> ts == old(tableStatusMap)[tableID]
      ensures tableID !in old(tableStatusMap) ==> fresh(ts) && ts.Snapshot() == ZERO_STATUS
    {
      if tableID in tableStatusMap {
        ts := tableStatusMap[tableID];
      } else {
        ts := new InternalTableStatus();
        tableStatusMap := tableStatusMap[tableID := ts];
      }
    }

    /** `getTableStatus`: creates the entry when missing; no counter changes. */
    method GetTableStatus(tableID: Int32) returns (status: InternalTableStatus)
      requires Valid()
      modifies this
      ensures Valid() && tableID in tableStatusMap && status == tableStatusMap[tableID]
      ensures View() == old(View())[tableID := StatusOf(old(View()), tableID)]
      ensures status.Snapshot() == StatusOf(old(View()), tableID)
    {
      ghost var oldMap, oldView := tableStatusMap, View();
      status := GetInternalTableStatus(tableID);
      ViewAfterUpdate(oldMap, oldView, tableID, status);
    }

    method RowDeleted(tableID: Int32)
      requires Valid()
      modifies this, tableStatusMap.Values
      ensures Valid()
      ensures View() == old(View())[tableID := RowDeletedStep(StatusOf(old(View()), tableID))]
    {
      ghost var oldMap, oldView := tableStatusMap, View();
      var ts := GetInternalTableStatus(tableID);
      ViewAfterUpdate(oldMap, oldView, tableID, ts);
      ghost var before := View();
      ts.RowDeleted();
      ViewAfterStep(oldView, tableID);
    }

    method RowUpdated(tableID: Int32)
      requires Valid()
      modifies this, tableStatusMap.Values
      ensures Valid()
      ensures View() == old(View())[tableID := StatusOf(old(View()), tableID)]
    {
      ghost var oldMap, oldView := tableStatusMap, View();
      var ts := GetInternalTableStatus(tableID);
      ViewAfterUpdate(oldMap, oldView, tableID, ts);
      ts.RowUpdated();
    }

    method RowWritten(tableID: Int32)
      requires Valid()
      modifies this, tableStatusMap.Values
      ensures Valid()
      ensures View() == old(View())[tableID := RowWrittenStep(StatusOf(old(View()), tableID))]
    {
      ghost var oldMap, oldView := tableStatusMap, View();
      var ts := GetInternalTableStatus(tableID);
      ViewAfterUpdate(oldMap, oldView, tableID, ts);
      ghost var before := View();
      ts.RowWritten();
      ViewAfterStep(oldView, tableID);
    }

    method Truncate(tableID: Int32)
      requires Valid()
      modifies this, tableStatusMap.Values
      ensures Valid()
      ensures View() == old(View())[tableID := TruncateStep(StatusOf(old(View()), tableID))]
    {
      ghost var oldMap, oldView := tableStatusMap, View();
      var ts := GetInternalTableStatus(tableID);
      ViewAfterUpdate(oldMap, oldView, tableID, ts);
      ghost var before := View();
      ts.Truncate();
      ViewAfterStep(oldView, tableID);
    }

    /** `drop`: removes the entry, if any. */
    method Drop(tableID: Int32)
      requires Valid()
      modifies this
      ensures Valid()
      ensures View() == old(View()) - {tableID}
    {
      tableStatusMap := tableStatusMap - {tableID};
    }

    method SetAutoIncrement(tableID: Int32, value: Int64)
      requires Valid()
      modifies this, tableStatusMap.Values
      ensures Valid()
      ensures View() == old(View())[tableID := SetAutoIncrementStep(StatusOf(old(View()), tableID), value)]
    {
      ghost var oldMap, oldView := tableStatusMap, View();
      var ts := GetInternalTableStatus(tableID);
      ViewAfterUpdate(oldMap, oldView, tableID, ts);
      ghost var before := View();
      ts.SetAutoIncrement(value);
      ViewAfterStep(oldView, tableID);
    }

    method CreateNewUniqueID(tableID: Int32) returns (id: Int64)
      requires Valid()
      modifies this, tableStatusMap.Values
      ensures Valid()
      ensures var (s, n) := CreateNewUniqueIDStep(StatusOf(old(View()), tableID));
              id == n && View() == old(View())[tableID := s]
    {
      ghost var oldMap, oldView := tableStatusMap, View();
      var ts := GetInternalTableStatus(tableID);
      ViewAfterUpdate(oldMap, oldView, tableID, ts);
      ghost var before := View();
      id := ts.CreateNewUniqueID();
      ViewAfterStep(oldView, tableID);
    }

    method SetUniqueID(tableID: Int32, value: Int64)
      requires Valid()
      modifies this, tableStatusMap.Values
      ensures Valid()
      ensures View() == old(View())[tableID := SetUniqueIDStep(StatusOf(old(View()), tableID), value)]
    {
      ghost var oldMap, oldView := tableStatusMap, View();
      var ts := GetInternalTableStatus(tableID);
      ViewAfterUpdate(oldMap, oldView, tableID, ts);
      ghost var before := View();
      ts.SetUniqueID(value);
      ViewAfterStep(oldView, tableID);
    }

    method SetOrdinal(tableID: Int32, value: Int32)
      requires Valid()
      modifies this, tableStatusMap.Values
      ensures Valid()
      ensures View() == old(View())[tableID := SetOrdinalStep(StatusOf(old(View()), tableID), value)]
    {
      ghost var oldMap, oldView := tableStatusMap, View();
      var ts := GetInternalTableStatus(tableID);
      ViewAfterUpdate(oldMap, oldView, tableID, ts);
      ghost var before := View();
      ts.SetOrdinal(value);
      ViewAfterStep(oldView, tableID);
    }

    /** `detachAIS`: clears the RowDef of every entry. */
    method DetachAIS()
      requires Valid()
      modifies tableStatusMap.Values
      ensures Valid()
      ensures View() == map id | id in old(View()) :: old(View())[id].(rowDef := None)
    {
      var remaining := tableStatusMap.Keys;
      while remaining != {}
        invariant remaining <= tableStatusMap.Keys
        invariant forall id :: id in tableStatusMap ==>
          tableStatusMap[id].Snapshot() == if id in remaining then old(tableStatusMap[id].Snapshot())
                                           else old(tableStatusMap[id].Snapshot()).(rowDef := None)
        decreases remaining
      {
        var id :| id in remaining;
        tableStatusMap[id].SetRowDef(None);
        remaining := remaining - {id};
      }
    }

    /** After the map gains (or keeps) `ts` under `tableID`, with no status object changed, the view is the old one with the id's status filled in. */
    lemma ViewAfterUpdate(oldMap: map<Int32, InternalTableStatus>, oldView: map<Int32, Status>,
                          tableID: Int32, ts: InternalTableStatus)
      requires oldView.Keys == oldMap.Keys
      requires forall id :: id in oldMap ==> oldMap[id].Snapshot() == oldView[id]
      requires tableStatusMap == oldMap[tableID := ts]
      requires tableID in oldMap ==> ts == oldMap[tableID]
      requires tableID !in oldMap ==> ts.Snapshot() == ZERO_STATUS
      ensures View() == oldView[tableID := StatusOf(oldView, tableID)]
    {
    }

    /** One status object changed by a step; every other id keeps its status. */
    lemma ViewAfterStep(base: map<Int32, Status>, tableID: Int32)
      requires tableID in tableStatusMap && tableStatusMap.Keys == base.Keys + {tableID}
      requires forall id :: id in tableStatusMap && id != tableID ==> tableStatusMap[id].Snapshot() == base[id]
      ensures View() == base[tableID := tableStatusMap[tableID].Snapshot()]
    {
    }
  }
}

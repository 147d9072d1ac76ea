/**
 * GroupIndexHelper: attaching a group index to, or detaching it from, every table on the path from
 * a key column's table up to the group's root.
 */
module GroupIndexHelper {
  import opened Common

  /** A key column: the index it belongs to and the user table of its column. */
  datatype IndexColumn = IndexColumn(indexId: nat, table: nat)

  datatype GroupIndex = GroupIndex(id: nat, keyColumns: seq<IndexColumn>)

  /** The two IndexAction constants. */
  datatype IndexAction = Add | Remove

  datatype Error = ColumnNotOfIndex(column: IndexColumn, indexId: nat)

  /** The group-index set of one table after the action. */
  function Applied(action: IndexAction, indexes: set<nat>, index: nat): (r: set<nat>)
    ensures action == Add ==> index in r && r - {index} == indexes - {index}
    ensures action == Remove ==> index !in r && r == indexes - {index}
  {
    match action
      case Add => indexes + {index}
      case Remove => indexes - {index}
  }

  /** The position of the first key column that belongs to another index, if any. */
  function FirstForeign(columns: seq<IndexColumn>, id: nat): (r: Option<nat>)
    ensures r.None? <==> forall j :: 0 <= j < |columns| ==> columns[j].indexId == id
    ensures r.Some? ==> r.value < |columns| && columns[r.value].indexId != id
                        && forall j :: 0 <= j < r.value ==> columns[j].indexId == id
    decreases |columns|
  {
    if columns == [] then None
    else if columns[0].indexId != id then Some(0)
    else match FirstForeign(columns[1..], id)
      case None => None
      case Some(k) => Some(k + 1)
  }

  /** A foreign column after a run of the index's own columns is the first foreign one. */
  lemma FirstForeignAt(columns: seq<IndexColumn>, id: nat, i: nat)
    requires i < |columns| && columns[i].indexId != id
    requires forall j :: 0 <= j < i ==> columns[j].indexId == id
    ensures FirstForeign(columns, id) == Some(i)
  {
    var r := FirstForeign(columns, id);
    assert r.Some?;
    if r.value < i {
      assert false;
    } else if r.value > i {
      assert false;
    }
  }

  /** The user tables of a schema: a parent per table (None for a group's root) and the group
      indexes each table takes part in. `rank` orders every parent below its child. */
  class Schema {
    const parentOf: seq<Option<nat>>
    ghost const rank: seq<nat>
    var groupIndexes: seq<set<nat>>

    ghost predicate Acyclic()
    {
      |rank| == |parentOf|
      && forall t :: 0 <= t < |parentOf| && parentOf[t].Some? ==>
           parentOf[t].value < |parentOf| && rank[parentOf[t].value] < rank[t]
    }

    ghost predicate Valid()
      reads this
    {
      Acyclic() && |groupIndexes| == |parentOf|
    }

    constructor (parentOf: seq<Option<nat>>, ghost rank: seq<nat>, groupIndexes: seq<set<nat>>)
      requires |groupIndexes| == |parentOf|
      requires |rank| == |parentOf|
      requires forall t :: 0 <= t < |parentOf| && parentOf[t].Some? ==>
                 parentOf[t].value < |parentOf| && rank[parentOf[t].value] < rank[t]
      ensures Valid() && this.parentOf == parentOf && this.groupIndexes == groupIndexes
    {
      this.parentOf := parentOf;
      this.rank := rank;
      this.groupIndexes := groupIndexes;
    }

    /** The table and its ancestors up to the root, child first. */
    ghost function Ancestors(t: nat): (path: seq<nat>)
      requires Acyclic() && t < |parentOf|
      ensures |path| >= 1 && path[0] == t
      ensures forall i :: 0 <= i < |path| ==> path[i] < |parentOf|
      decreases rank[t]
    {
      match parentOf[t]
        case None => [t]
        case Some(p) => [t] + Ancestors(p)
    }

    /** The parent of every table on the path is on the path, and the path ends at a root. */
    lemma {:induction false} AncestorsClosed(t: nat)
      requires Acyclic() && t < |parentOf|
      ensures var path := Ancestors(t);
              parentOf[path[|path| - 1]].None?
              && forall i :: 0 <= i < |path| - 1 ==> parentOf[path[i]] == Some(path[i + 1])
      decreases rank[t]
    {
      if parentOf[t].Some? {
        AncestorsClosed(parentOf[t].value);
      }
    }

    /** Every key column's table is a table of the schema. */
    ghost predicate ColumnsInSchema(columns: seq<IndexColumn>)
    {
      forall j :: 0 <= j < |columns| ==> columns[j].table < |parentOf|
    }

    /** Whether table x lies on the path from the table of one of the first n key columns to its root. */
    ghost predicate OnSomePath(columns: seq<IndexColumn>, n: nat, x: nat)
      requires Acyclic() && ColumnsInSchema(columns) && n <= |columns|
    {
      n > 0 && (OnSomePath(columns, n - 1, x) || x in Ancestors(columns[n - 1].table))
    }

    lemma {:induction false} OnSomePathIff(columns: seq<IndexColumn>, n: nat, x: nat)
      requires Acyclic() && ColumnsInSchema(columns) && n <= |columns|
      ensures OnSomePath(columns, n, x) <==> exists j :: 0 <= j < n && x in Ancestors(columns[j].table)
    {
      if n > 0 {
        OnSomePathIff(columns, n - 1, x);
      }
    }

    /** The group-index sets after the action on the paths from the tables of the first n key
        columns, one column after another. */
    ghost function ActedAlong(indexes: seq<set<nat>>, action: IndexAction, index: nat, columns: seq<IndexColumn>, n: nat): (r: seq<set<nat>>)
      requires Acyclic() && |indexes| == |parentOf| && ColumnsInSchema(columns) && n <= |columns|
      ensures |r| == |indexes|
    {
      if n == 0 then indexes
      else ActOnPath(ActedAlong(indexes, action, index, columns, n - 1), action, index, columns[n - 1].table)
    }

    /** The group-index sets after the action on the path from table t to its root. */
    ghost function ActOnPath(indexes: seq<set<nat>>, action: IndexAction, index: nat, t: nat): (r: seq<set<nat>>)
      requires Acyclic() && |indexes| == |parentOf| && t < |parentOf|
      ensures |r| == |indexes|
    {
      seq(|indexes|, x requires 0 <= x < |indexes| => ActedCell(indexes[x], action, index, t, x))
    }

    /** The group-index set of table x after the action on the path from t. */
    ghost function ActedCell(indexes: set<nat>, action: IndexAction, index: nat, t: nat, x: nat): set<nat>
      requires Acyclic() && t < |parentOf|
    {
      if x in Ancestors(t) then Applied(action, indexes, index) else indexes
    }

    /** Acting along several paths touches exactly the tables on some path, each once in effect:
        the order of the key columns makes no difference. */
    lemma ActedAlongTouchesPaths(indexes: seq<set<nat>>, action: IndexAction, index: nat, columns: seq<IndexColumn>, n: nat)
      requires Acyclic() && |indexes| == |parentOf| && ColumnsInSchema(columns) && n <= |columns|
      ensures forall x :: 0 <= x < |indexes| ==>
        ActedAlong(indexes, action, index, columns, n)[x]
          == if OnSomePath(columns, n, x) then Applied(action, indexes[x], index) else indexes[x]
      ensures forall x :: 0 <= x < |indexes| ==>
        (OnSomePath(columns, n, x) <==> exists j :: 0 <= j < n && x in Ancestors(columns[j].table))
    {
      forall x | 0 <= x < |indexes|
        ensures ActedAlong(indexes, action, index, columns, n)[x]
                == if OnSomePath(columns, n, x) then Applied(action, indexes[x], index) else indexes[x]
      {
        ActedAlongAt(indexes, action, index, columns, n, x);
      }
      forall x | 0 <= x < |indexes|
        ensures OnSomePath(columns, n, x) <==> exists j :: 0 <= j < n && x in Ancestors(columns[j].table)
      {
        OnSomePathIff(columns, n, x);
      }
    }

    lemma {:induction false} ActedAlongAt(indexes: seq<set<nat>>, action: IndexAction, index: nat,
                                          columns: seq<IndexColumn>, n: nat, x: nat)
      requires Acyclic() && |indexes| == |parentOf| && x < |indexes| && ColumnsInSchema(columns) && n <= |columns|
      ensures ActedAlong(indexes, action, index, columns, n)[x]
              == if OnSomePath(columns, n, x) then Applied(action, indexes[x], index) else indexes[x]
    {
      if n > 0 {
        ActedAlongAt(indexes, action, index, columns, n - 1, x);
      }
    }

    /** `IndexAction.act`: walks from onTable to the root, adding or removing the index at each. */
    method Act(action: IndexAction, index: nat, onTable: nat)
      requires Valid() && onTable < |parentOf|
      modifies this
      ensures Valid()
      ensures groupIndexes == ActOnPath(old(groupIndexes), action, index, onTable)
    {
      ghost var path := Ancestors(onTable);
      ghost var k := 0;
      AncestorsClosed(onTable);
      var ancestor: Option<nat> := Some(onTable);
      while ancestor.Some?
        invariant Valid()
        invariant 0 <= k <= |path|
        invariant ancestor.Some? <==> k < |path|
        invariant ancestor.Some? ==> ancestor.value == path[k]
        invariant forall x :: 0 <= x < |groupIndexes| ==>
          groupIndexes[x] == if x in path[..k] then Applied(action, old(groupIndexes)[x], index) else old(groupIndexes)[x]
        decreases |path| - k
      {
        var t := ancestor.value;
        assert t !in path[..k] by { AncestorsDistinct(onTable, k); }
        groupIndexes := groupIndexes[t := Applied(action, groupIndexes[t], index)];
        assert path[..k + 1] == path[..k] + [t];
        assert k + 1 < |path| ==> parentOf[path[k]] == Some(path[k + 1]);
        assert k + 1 == |path| ==> parentOf[path[k]].None?;
        ancestor := parentOf[t];
        k := k + 1;
      }
      assert path[..k] == path;
    }

    /** A path never repeats a table, since the rank strictly decreases along it. */
    lemma AncestorsDistinct(t: nat, k: nat)
      requires Acyclic() && t < |parentOf| && k < |Ancestors(t)|
      ensures Ancestors(t)[k] !in Ancestors(t)[..k]
    {
      AncestorsRankDecreasing(t);
      var path := Ancestors(t);
      forall i | 0 <= i < k ensures path[i] != path[k] {
        assert rank[path[i]] > rank[path[k]];
      }
    }

    lemma {:induction false} AncestorsRankDecreasing(t: nat)
      requires Acyclic() && t < |parentOf|
      ensures var path := Ancestors(t);
              forall i, j :: 0 <= i < j < |path| ==> rank[path[i]] > rank[path[j]]
      decreases rank[t]
    {
      if parentOf[t].Some? {
        var p := parentOf[t].value;
        AncestorsRankDecreasing(p);
        var path := Ancestors(t);
        forall i, j | 0 <= i < j < |path| ensures rank[path[i]] > rank[path[j]] {
          if i > 0 {
            assert path[i] == Ancestors(p)[i - 1] && path[j] == Ancestors(p)[j - 1];
          } else {
            assert path[j] == Ancestors(p)[j - 1];
            AncestorsRankBelow(p, j - 1);
          }
        }
      }
    }

    lemma {:induction false} AncestorsRankBelow(t: nat, i: nat)
      requires Acyclic() && t < |parentOf| && i < |Ancestors(t)|
      ensures rank[Ancestors(t)[i]] <= rank[t]
      decreases rank[t]
    {
      if i > 0 {
        AncestorsRankBelow(parentOf[t].value, i - 1);
      }
    }

    /** `actOnGroupIndexTables(index, indexColumn, action)`: the column must belong to the index. */
    method ActOnColumn(index: GroupIndex, column: IndexColumn, action: IndexAction) returns (o: Outcome<Error>)
      requires Valid() && column.table < |parentOf|
      modifies this
      ensures Valid()
      ensures column.indexId != index.id ==>
        o == Fail(ColumnNotOfIndex(column, index.id)) && groupIndexes == old(groupIndexes)
      ensures column.indexId == index.id ==>
        o == Pass && groupIndexes == ActOnPath(old(groupIndexes), action, index.id, column.table)
    {
      if column.indexId != index.id {
        return Fail(ColumnNotOfIndex(column, index.id));
      }
      Act(action, index.id, column.table);
      return Pass;
    }

    /** `actOnGroupIndexTables(index, action)`: acts once per key column, in order; the first column
        of another index stops the walk with the earlier columns already acted on. */
    method ActOnIndex(index: GroupIndex, action: IndexAction) returns (o: Outcome<Error>)
      requires Valid() && ColumnsInSchema(index.keyColumns)
      modifies this
      ensures Valid()
      ensures FirstForeign(index.keyColumns, index.id).None? ==>
        o == Pass && groupIndexes == ActedAlong(old(groupIndexes), action, index.id, index.keyColumns, |index.keyColumns|)
      ensures FirstForeign(index.keyColumns, index.id).Some? ==>
        var k := FirstForeign(index.keyColumns, index.id).value;
        o == Fail(ColumnNotOfIndex(index.keyColumns[k], index.id))
        && groupIndexes == ActedAlong(old(groupIndexes), action, index.id, index.keyColumns, k)
    {
      var columns := index.keyColumns;
      ghost var g0 := groupIndexes;
      var i := 0;
      while i < |columns|
        invariant Valid()
        invariant 0 <= i <= |columns|
        invariant forall j :: 0 <= j < i ==> columns[j].indexId == index.id
        invariant groupIndexes == ActedAlong(g0, action, index.id, columns, i)
      {
        o := ActOnColumn(index, columns[i], action);
        if o.Fail? {
          FirstForeignAt(columns, index.id, i);
          return;
        }
        i := i + 1;
      }
      return Pass;
    }
  }
}

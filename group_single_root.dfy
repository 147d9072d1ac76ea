/**
 * GroupSingleRoot: the schema validation that reports every group with more than one root table.
 */
module GroupSingleRoot {
  import opened Common
  import opened AisNames

  datatype Group = Group(id: nat, name: TableName)

  /** A user table: its name, the id of its group, and whether it has no parent. */
  datatype UserTable = UserTable(name: TableName, group: nat, isRoot: bool)

  /** The schema's groups and user tables, in the iteration order of its maps. */
  datatype Ais = Ais(groups: seq<Group>, userTables: seq<UserTable>)

  /** GroupHasMultipleRootsException(group, first root, extra root). */
  datatype Failure = GroupHasMultipleRoots(group: TableName, root: TableName, extraRoot: TableName)

  /** The root tables of the group, in table order. */
  function RootsOf(tables: seq<UserTable>, group: Group): (roots: seq<TableName>)
    ensures |roots| <= |tables|
  {
    if tables == [] then []
    else
      var t := tables[|tables| - 1];
      RootsOf(tables[..|tables| - 1], group) + (if t.group == group.id && t.isRoot then [t.name] else [])
  }

  /** Each root after the first is reported against the first. */
  function GroupFailures(tables: seq<UserTable>, group: Group): seq<Failure>
  {
    var roots := RootsOf(tables, group);
    if |roots| <= 1 then []
    else seq(|roots| - 1, i requires 0 <= i < |roots| - 1 => GroupHasMultipleRoots(group.name, roots[0], roots[i + 1]))
  }

  /** All groups' failures, group by group. */
  function AllFailures(ais: Ais, i: nat): seq<Failure>
    requires i <= |ais.groups|
  {
    if i == 0 then [] else AllFailures(ais, i - 1) + GroupFailures(ais.userTables, ais.groups[i - 1])
  }

  /** A group reports one failure per root beyond the first, each naming the first root found and
      the extra one. This spells out `GroupFailures` for a reader; it adds no proof. */
  lemma GroupFailuresCount(tables: seq<UserTable>, group: Group)
    ensures var roots := RootsOf(tables, group);
            var failures := GroupFailures(tables, group);
            |failures| == (if |roots| <= 1 then 0 else |roots| - 1)
            && forall i :: 0 <= i < |failures| ==>
                 failures[i] == GroupHasMultipleRoots(group.name, roots[0], roots[i + 1])
  {
  }

  /** Only root tables of that group are counted. */
  lemma {:induction false} RootsAreThisGroupsRoots(tables: seq<UserTable>, group: Group)
    ensures forall n :: n in RootsOf(tables, group) <==>
      exists t :: t in tables && t.group == group.id && t.isRoot && t.name == n
  {
    if tables != [] {
      var init := tables[..|tables| - 1];
      RootsAreThisGroupsRoots(init, group);
      assert tables == init + [tables[|tables| - 1]];
    }
  }

  /** A group with at most one root table reports nothing. */
  lemma SingleRootNoFailure(tables: seq<UserTable>, group: Group)
    requires |RootsOf(tables, group)| <= 1
    ensures GroupFailures(tables, group) == []
  {
  }

  /** AISValidationOutput: the failures reported so far. */
  class ValidationOutput {
    var failures: seq<Failure>

    constructor ()
      ensures failures == []
    {
      failures := [];
    }

    method ReportFailure(f: Failure)
      modifies this
      ensures failures == old(failures) + [f]
    {
      failures := failures + [f];
    }
  }

  /** `validateGroup`: scans the user tables keeping the first root of the group. */
  method ValidateGroup(ais: Ais, group: Group, output: ValidationOutput)
    modifies output
    ensures output.failures == old(output.failures) + GroupFailures(ais.userTables, group)
  {
    var tables := ais.userTables;
    var root: Option<TableName> := None;
    var i := 0;
    while i < |tables|
      invariant 0 <= i <= |tables|
      invariant root.None? <==> RootsOf(tables[..i], group) == []
      invariant root.Some? ==> root.value == RootsOf(tables[..i], group)[0]
      invariant output.failures == old(output.failures) + GroupFailures(tables[..i], group)
    {
      var userTable := tables[i];
      ghost var before := RootsOf(tables[..i], group);
      assert tables[..i + 1][..i] == tables[..i];
      if userTable.group == group.id && userTable.isRoot {
        if root.None? {
          root := Some(userTable.name);
        } else {
          output.ReportFailure(GroupHasMultipleRoots(group.name, root.value, userTable.name));
          ghost var after := RootsOf(tables[..i + 1], group);
          assert after == before + [userTable.name];
          assert GroupFailures(tables[..i + 1], group) == GroupFailures(tables[..i], group)
                 + [GroupHasMultipleRoots(group.name, root.value, userTable.name)];
        }
      }
      i := i + 1;
    }
    assert tables[..i] == tables;
  }

  /** `validate`: every group, in order. */
  method Validate(ais: Ais, output: ValidationOutput)
    modifies output
    ensures output.failures == old(output.failures) + AllFailures(ais, |ais.groups|)
  {
    var i := 0;
    while i < |ais.groups|
      invariant 0 <= i <= |ais.groups|
      invariant output.failures == old(output.failures) + AllFailures(ais, i)
    {
      ValidateGroup(ais, ais.groups[i], output);
      i := i + 1;
    }
  }

  /** The whole validation reports, for every group, its failures and nothing else. */
  lemma {:induction false} AllFailuresPerGroup(ais: Ais, i: nat)
    requires i <= |ais.groups|
    ensures |AllFailures(ais, i)| == SumOfCounts(ais, i)
    ensures forall f :: f in AllFailures(ais, i) <==>
      exists g :: 0 <= g < i && f in GroupFailures(ais.userTables, ais.groups[g])
  {
    if i > 0 {
      AllFailuresPerGroup(ais, i - 1);
    }
  }

  /** The number of extra roots over the first i groups. */
  function SumOfCounts(ais: Ais, i: nat): nat
    requires i <= |ais.groups|
  {
    if i == 0 then 0
    else
      var roots := |RootsOf(ais.userTables, ais.groups[i - 1])|;
      SumOfCounts(ais, i - 1) + (if roots <= 1 then 0 else roots - 1)
  }
}

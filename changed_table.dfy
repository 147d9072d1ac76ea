/**
 * ChangedTableDescription: what ALTER TABLE records about one changed table, and its naming.
 */
module ChangedTable {
  import opened Common
  import opened AisNames
  import TFormatter

  datatype ParentChange = NONE | UPDATE | ADD | DROP

  /** The enum constant's name. */
  function ParentChangeName(p: ParentChange): string
  {
    match p
      case NONE => "NONE"
      case UPDATE => "UPDATE"
      case ADD => "ADD"
      case DROP => "DROP"
  }

  datatype Error = NullArgument(argument: string)

  /** A description. `newDefinition` is the new table's name when a new definition is given;
      `parentChange` may be Java's null. Maps are listed in their iteration order. */
  datatype Description = Description(
    tableName: TableName,
    newDefinition: Option<TableName>,
    colNames: Option<seq<(string, string)>>,
    parentChange: Option<ParentChange>,
    parentName: Option<TableName>,
    parentColNames: Option<seq<(string, string)>>,
    preserveIndexes: seq<(string, string)>,
    droppedSequences: Option<seq<TableName>>)

  /** The constructor: tableName and preserveIndexes must not be null, checked in that order. */
  function NewDescription(tableName: Option<TableName>, newDefinition: Option<TableName>,
                          colNames: Option<seq<(string, string)>>, parentChange: Option<ParentChange>,
                          parentName: Option<TableName>, parentColNames: Option<seq<(string, string)>>,
                          preserveIndexes: Option<seq<(string, string)>>,
                          droppedSequences: Option<seq<TableName>>): (r: Result<Description, Error>)
    ensures tableName.None? ==> r == Failure(NullArgument("tableName"))
    ensures tableName.Some? && preserveIndexes.None? ==> r == Failure(NullArgument("preserveIndexes"))
    ensures r.Success? <==> tableName.Some? && preserveIndexes.Some?
    ensures r.Success? ==>
      r.value.tableName == tableName.value && r.value.preserveIndexes == preserveIndexes.value
      && r.value.newDefinition == newDefinition && r.value.parentChange == parentChange
      && r.value.colNames == colNames && r.value.parentName == parentName
      && r.value.parentColNames == parentColNames && r.value.droppedSequences == droppedSequences
  {
    if tableName.None? then Failure(NullArgument("tableName"))
    else if preserveIndexes.None? then Failure(NullArgument("preserveIndexes"))
    else Success(Description(tableName.value, newDefinition, colNames, parentChange, parentName,
                             parentColNames, preserveIndexes.value, droppedSequences))
  }

  function GetOldName(d: Description): TableName
  {
    d.tableName
  }

  /** The new definition's name when there is one, otherwise the current name. */
  function GetNewName(d: Description): (n: TableName)
    ensures d.newDefinition.None? ==> n == GetOldName(d)
    ensures d.newDefinition.Some? ==> n == d.newDefinition.value
  {
    if d.newDefinition.Some? then d.newDefinition.value else d.tableName
  }

  /** Any parent change other than NONE (a null one included) moves the table to a new group. */
  function IsNewGroup(d: Description): bool
  {
    d.parentChange != Some(NONE)
  }

  /** A renamed table always carries a new definition holding the new name. */
  lemma RenameNeedsDefinition(d: Description)
    requires GetNewName(d) != GetOldName(d)
    ensures d.newDefinition == Some(GetNewName(d))
  {
  }

  /** `AbstractMap.toString`: "{k1=v1, k2=v2}", entries in iteration order. */
  function MapText(entries: seq<(string, string)>): (s: string)
    ensures |s| >= 2 && s[0] == '{' && s[|s| - 1] == '}'
  {
    "{" + EntriesText(entries) + "}"
  }

  function EntriesText(entries: seq<(string, string)>): string
  {
    if entries == [] then ""
    else if |entries| == 1 then entries[0].0 + "=" + entries[0].1
    else entries[0].0 + "=" + entries[0].1 + ", " + EntriesText(entries[1..])
  }

  /** The text that `+` appends for a possibly null parent change. */
  function ParentChangeText(p: Option<ParentChange>): string
  {
    match p
      case None => "null"
      case Some(c) => ParentChangeName(c)
  }

  /** The static `toString`; `nameText` is TableName's own rendering, which is not part of this model. */
  function DescriptionText(nameText: TableName -> string, oldName: TableName, newName: TableName, newGroup: bool,
                           groupChange: Option<ParentChange>, indexMap: seq<(string, string)>): (s: string)
    ensures var head := nameText(oldName) + "=" + nameText(newName) + "[newGroup=";
            |s| > |head| && s[..|head|] == head
    ensures var tail := MapText(indexMap);
            |s| >= |tail| && s[|s| - |tail|..] == tail
  {
    var head := nameText(oldName) + "=" + nameText(newName) + "[newGroup=";
    var middle := TFormatter.BooleanText(newGroup) + "][parentChange=" + ParentChangeText(groupChange) + "]";
    var s := head + middle + MapText(indexMap);
    assert s[..|head|] == head;
    assert s[|s| - |MapText(indexMap)|..] == MapText(indexMap);
    s
  }

  /** `toString()`: old and new name, whether a new group is made, the parent change, and the
      preserved-index map. */
  function ToString(nameText: TableName -> string, d: Description): string
  {
    DescriptionText(nameText, GetOldName(d), GetNewName(d), IsNewGroup(d), d.parentChange, d.preserveIndexes)
  }

  /** A text with no '[' in it. */
  predicate NoBracket(s: string)
  {
    forall i :: 0 <= i < |s| ==> s[i] != '['
  }

  /** The position of the first '[' in `s`, or |s| when there is none. */
  function FirstBracket(s: string): (k: nat)
    ensures k <= |s|
  {
    if s == [] || s[0] == '[' then 0 else 1 + FirstBracket(s[1..])
  }

  lemma {:induction false} FirstBracketAfter(a: string, rest: string)
    requires NoBracket(a) && |rest| > 0 && rest[0] == '['
    ensures FirstBracket(a + rest) == |a|
  {
    if a != [] {
      assert (a + rest)[1..] == a[1..] + rest;
      FirstBracketAfter(a[1..], rest);
    }
  }

  /** The parent-change texts differ already in their first character. */
  lemma ParentChangeTextFirstChar(p: Option<ParentChange>, q: Option<ParentChange>)
    requires ParentChangeText(p)[0] == ParentChangeText(q)[0]
    ensures p == q
  {
  }

  /** The two name texts and the '=' between them: the part of `toString` before the first '['. */
  function NamesText(nameText: TableName -> string, d: Description): string
  {
    nameText(GetOldName(d)) + "=" + nameText(GetNewName(d))
  }

  /** The part of `toString` from the first '[' on. */
  function FlagsText(d: Description): string
  {
    "[newGroup=" + TFormatter.BooleanText(IsNewGroup(d)) + "][parentChange=" + ParentChangeText(d.parentChange) + "]"
    + MapText(d.preserveIndexes)
  }

  lemma ToStringSplits(nameText: TableName -> string, d: Description)
    ensures ToString(nameText, d) == NamesText(nameText, d) + FlagsText(d)
  {
  }

  /** Where the flag and the parent change sit in the part from the first '[' on. */
  lemma FlagPositions(d: Description)
    ensures var b := TFormatter.BooleanText(IsNewGroup(d));
            |FlagsText(d)| > 10 + |b| + 15
            && FlagsText(d)[10] == b[0]
            && FlagsText(d)[10 + |b| + 15] == ParentChangeText(d.parentChange)[0]
  {
    var b := TFormatter.BooleanText(IsNewGroup(d));
    var p := ParentChangeText(d.parentChange);
    assert FlagsText(d) == "[newGroup=" + b + ("][parentChange=" + p + "]" + MapText(d.preserveIndexes));
  }

  /** "true" and "false" differ in their first character. */
  lemma BooleanTextFirstChar(x: bool, y: bool)
    requires TFormatter.BooleanText(x)[0] == TFormatter.BooleanText(y)[0]
    ensures x == y
  {
  }

  /** Two texts that each run up to their first '[' and agree agree on what follows it. */
  lemma SameTailAfterBracket(a1: string, f1: string, a2: string, f2: string)
    requires NoBracket(a1) && NoBracket(a2)
    requires |f1| > 0 && f1[0] == '[' && |f2| > 0 && f2[0] == '['
    requires a1 + f1 == a2 + f2
    ensures f1 == f2
  {
    FirstBracketAfter(a1, f1);
    FirstBracketAfter(a2, f2);
    assert f1 == (a1 + f1)[|a1|..];
    assert f2 == (a2 + f2)[|a2|..];
  }

  /** The part from the first '[' on determines the flag and the parent change. */
  lemma FlagsTextDetermines(d1: Description, d2: Description)
    requires FlagsText(d1) == FlagsText(d2)
    ensures IsNewGroup(d1) == IsNewGroup(d2)
    ensures d1.parentChange == d2.parentChange
  {
    FlagPositions(d1);
    FlagPositions(d2);
    BooleanTextFirstChar(IsNewGroup(d1), IsNewGroup(d2));
    ParentChangeTextFirstChar(d1.parentChange, d2.parentChange);
  }

  /** As long as the names print without '[', the text of a description determines whether it
      makes a new group and which parent change it records. */
  lemma ToStringDeterminesGroupChange(nameText: TableName -> string, d1: Description, d2: Description)
    requires NoBracket(NamesText(nameText, d1)) && NoBracket(NamesText(nameText, d2))
    requires ToString(nameText, d1) == ToString(nameText, d2)
    ensures IsNewGroup(d1) == IsNewGroup(d2)
    ensures d1.parentChange == d2.parentChange
  {
    ToStringSplits(nameText, d1);
    ToStringSplits(nameText, d2);
    SameTailAfterBracket(NamesText(nameText, d1), FlagsText(d1), NamesText(nameText, d2), FlagsText(d2));
    FlagsTextDetermines(d1, d2);
  }

  /** An unchanged name prints the same text on both sides of '='. */
  lemma SameNameBothSides(nameText: TableName -> string, d: Description)
    requires d.newDefinition.None?
    ensures var n := nameText(d.tableName);
            ToString(nameText, d)[..|n| + 1 + |n|] == n + "=" + n
  {
    var n := nameText(d.tableName);
    var head := n + "=" + n + "[newGroup=";
    assert ToString(nameText, d)[..|head|] == head;
    assert head[..|n| + 1 + |n|] == n + "=" + n;
  }
}

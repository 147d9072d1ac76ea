/**
 * AisToSpace: one entity per group, keyed by the unqualified name of the group's root table.
 */
module AisToSpace {
  import opened Common
  import opened AisNames

  /** A group and its root table (null when the group has none). */
  datatype Group = Group(root: Option<TableName>)

  /** The entity EntityBuilder makes for a root table. */
  datatype Entity = Entity(root: TableName)

  /** Space.create(entities, uuidGenerator). */
  datatype Space<U> = Space(entities: map<string, Entity>, uuidGenerator: string -> U)

  datatype Error =
    | NullRoot(group: nat)                    // root.getName() on a group without a root
    | DuplicateTableName(entityName: string)  // InconvertibleAisException

  /** The entity names of the first k groups, when all of them have roots. */
  function NamesUpTo(groups: seq<Group>, k: nat): (names: seq<string>)
    requires k <= |groups| && forall g :: 0 <= g < k ==> groups[g].root.Some?
    ensures |names| == k
    ensures forall g :: 0 <= g < k ==> names[g] == groups[g].root.value.tableName
  {
    if k == 0 then [] else NamesUpTo(groups, k - 1) + [groups[k - 1].root.value.tableName]
  }

  ghost predicate Distinct(names: seq<string>)
  {
    forall i, j :: 0 <= i < j < |names| ==> names[i] != names[j]
  }

  /** The conversion from group i on, with the entities of the earlier groups in acc: the first
      group without a root, or whose root name is already taken, stops it. */
  function ConvertFrom(groups: seq<Group>, i: nat, acc: map<string, Entity>): Result<map<string, Entity>, Error>
    requires i <= |groups|
    decreases |groups| - i
  {
    if i == |groups| then Success(acc)
    else match groups[i].root
      case None => Failure(NullRoot(i))
      case Some(root) =>
        if root.tableName in acc then Failure(DuplicateTableName(root.tableName))
        else ConvertFrom(groups, i + 1, acc[root.tableName := Entity(root)])
  }

  /** What `create` returns. */
  function CreateSpace<U>(groups: seq<Group>, uuidGenerator: string -> U): Result<Space<U>, Error>
  {
    match ConvertFrom(groups, 0, map[])
      case Success(entities) => Success(Space(entities, uuidGenerator))
      case Failure(e) => Failure(e)
  }

  /** The entities of the first k groups, each under its root's table name. */
  function EntitiesOf(groups: seq<Group>, k: nat): map<string, Entity>
    requires k <= |groups| && forall g :: 0 <= g < k ==> groups[g].root.Some?
  {
    if k == 0 then map[]
    else EntitiesOf(groups, k - 1)[groups[k - 1].root.value.tableName := Entity(groups[k - 1].root.value)]
  }

  /** The entity names are exactly the root names. */
  lemma {:induction false} EntitiesKeys(groups: seq<Group>, k: nat)
    requires k <= |groups| && forall g :: 0 <= g < k ==> groups[g].root.Some?
    ensures forall name :: name in EntitiesOf(groups, k) <==> name in NamesUpTo(groups, k)
  {
    if k > 0 {
      EntitiesKeys(groups, k - 1);
      assert NamesUpTo(groups, k) == NamesUpTo(groups, k - 1) + [groups[k - 1].root.value.tableName];
    }
  }

  /** With distinct root names, each group's entity is kept under its name. */
  lemma {:induction false} EntitiesValues(groups: seq<Group>, k: nat)
    requires k <= |groups| && forall g :: 0 <= g < k ==> groups[g].root.Some?
    requires Distinct(NamesUpTo(groups, k))
    ensures |EntitiesOf(groups, k)| == k
    ensures forall g :: 0 <= g < k ==>
      groups[g].root.value.tableName in EntitiesOf(groups, k)
      && EntitiesOf(groups, k)[groups[g].root.value.tableName] == Entity(groups[g].root.value)
  {
    if k > 0 {
      var names, names' := NamesUpTo(groups, k), NamesUpTo(groups, k - 1);
      assert Distinct(names') by {
        forall a, b | 0 <= a < b < k - 1 ensures names'[a] != names'[b] {
          assert names'[a] == names[a] && names'[b] == names[b];
        }
      }
      EntitiesValues(groups, k - 1);
      EntitiesKeys(groups, k - 1);
      var name := groups[k - 1].root.value.tableName;
      assert name !in names' by {
        forall a | 0 <= a < k - 1 ensures names'[a] != name {
          assert names'[a] == names[a] && names[k - 1] == name;
        }
      }
      forall g | 0 <= g < k - 1 ensures groups[g].root.value.tableName != name {
        assert names[g] == groups[g].root.value.tableName;
      }
    }
  }

  /** acc holds exactly the entities of the first i groups, whose root names are distinct. */
  ghost predicate HoldsFirst(groups: seq<Group>, i: nat, acc: map<string, Entity>)
  {
    i <= |groups|
    && (forall g :: 0 <= g < i ==> groups[g].root.Some?)
    && Distinct(NamesUpTo(groups, i))
    && acc == EntitiesOf(groups, i)
  }

  lemma DistinctAppend(names: seq<string>, name: string)
    requires Distinct(names) && name !in names
    ensures Distinct(names + [name])
  {
    var n' := names + [name];
    forall a, b | 0 <= a < b < |n'| ensures n'[a] != n'[b] {
      assert n'[a] == names[a];
      if b < |names| { assert n'[b] == names[b]; }
    }
  }

  lemma HoldsFirstStep(groups: seq<Group>, i: nat, acc: map<string, Entity>)
    requires i < |groups| && HoldsFirst(groups, i, acc)
    requires groups[i].root.Some? && groups[i].root.value.tableName !in acc
    ensures HoldsFirst(groups, i + 1, acc[groups[i].root.value.tableName := Entity(groups[i].root.value)])
  {
    EntitiesKeys(groups, i);
    assert NamesUpTo(groups, i + 1) == NamesUpTo(groups, i) + [groups[i].root.value.tableName];
    DistinctAppend(NamesUpTo(groups, i), groups[i].root.value.tableName);
  }

  /** A root name already taken by an earlier group makes the full list of names repeat. */
  lemma RepeatedNameNotDistinct(groups: seq<Group>, i: nat, acc: map<string, Entity>)
    requires i < |groups| && HoldsFirst(groups, i, acc)
    requires groups[i].root.Some? && groups[i].root.value.tableName in acc
    requires forall g :: 0 <= g < |groups| ==> groups[g].root.Some?
    ensures !Distinct(NamesUpTo(groups, |groups|))
  {
    EntitiesKeys(groups, i);
    var names := NamesUpTo(groups, |groups|);
    var j :| 0 <= j < i && NamesUpTo(groups, i)[j] == groups[i].root.value.tableName;
    assert names[j] == names[i];
  }

  /** The conversion succeeds exactly when every group has a root and the root names are distinct. */
  lemma {:induction false} ConvertFromSucceeds(groups: seq<Group>, i: nat, acc: map<string, Entity>)
    requires HoldsFirst(groups, i, acc)
    ensures ConvertFrom(groups, i, acc).Success? <==>
      (forall g :: 0 <= g < |groups| ==> groups[g].root.Some?) && Distinct(NamesUpTo(groups, |groups|))
    decreases |groups| - i
  {
    if i < |groups| {
      match groups[i].root
        case None =>
        case Some(root) =>
          if root.tableName in acc {
            if forall g :: 0 <= g < |groups| ==> groups[g].root.Some? {
              RepeatedNameNotDistinct(groups, i, acc);
            }
          } else {
            HoldsFirstStep(groups, i, acc);
            ConvertFromSucceeds(groups, i + 1, acc[root.tableName := Entity(root)]);
          }
    }
  }

  /** A successful conversion holds one entity per group, under its root's table name. */
  lemma {:induction false} ConvertFromHoldsAll(groups: seq<Group>, i: nat, acc: map<string, Entity>)
    requires HoldsFirst(groups, i, acc)
    requires ConvertFrom(groups, i, acc).Success?
    ensures HoldsFirst(groups, |groups|, ConvertFrom(groups, i, acc).value)
    decreases |groups| - i
  {
    if i < |groups| {
      var root := groups[i].root.value;
      HoldsFirstStep(groups, i, acc);
      ConvertFromHoldsAll(groups, i + 1, acc[root.tableName := Entity(root)]);
    }
  }

  /** Group k is the first at fault, and err is the exception it raises. */
  ghost predicate FirstFault(groups: seq<Group>, k: nat, err: Error)
  {
    k < |groups|
    && (forall g :: 0 <= g < k ==> groups[g].root.Some?)
    && Distinct(NamesUpTo(groups, k))
    && match err
         case NullRoot(n) => n == k && groups[k].root.None?
         case DuplicateTableName(name) =>
           groups[k].root.Some? && name == groups[k].root.value.tableName && name in NamesUpTo(groups, k)
  }

  /** A failed conversion names the first group at fault: the first without a root, or the first
      whose root name repeats an earlier group's. */
  lemma {:induction false} ConvertFromFails(groups: seq<Group>, i: nat, acc: map<string, Entity>)
    requires HoldsFirst(groups, i, acc)
    requires ConvertFrom(groups, i, acc).Failure?
    ensures exists k :: FirstFault(groups, k, ConvertFrom(groups, i, acc).error)
    decreases |groups| - i
  {
    match groups[i].root
      case None =>
        assert FirstFault(groups, i, ConvertFrom(groups, i, acc).error);
      case Some(root) =>
        if root.tableName !in acc {
          HoldsFirstStep(groups, i, acc);
          ConvertFromFails(groups, i + 1, acc[root.tableName := Entity(root)]);
        } else {
          EntitiesKeys(groups, i);
          assert FirstFault(groups, i, ConvertFrom(groups, i, acc).error);
        }
  }

  /** On success: one entity per group, keyed by its root's table name, and the generator as given. */
  lemma CreateSpaceProperties<U>(groups: seq<Group>, uuidGenerator: string -> U)
    ensures CreateSpace(groups, uuidGenerator).Success? <==>
      (forall g :: 0 <= g < |groups| ==> groups[g].root.Some?) && Distinct(NamesUpTo(groups, |groups|))
    ensures CreateSpace(groups, uuidGenerator).Success? ==>
      var space := CreateSpace(groups, uuidGenerator).value;
      |space.entities| == |groups|
      && space.uuidGenerator == uuidGenerator
      && (forall g :: 0 <= g < |groups| ==>
            groups[g].root.value.tableName in space.entities
            && space.entities[groups[g].root.value.tableName] == Entity(groups[g].root.value))
      && (forall name :: name in space.entities ==>
            exists g :: 0 <= g < |groups| && groups[g].root.value.tableName == name)
  {
    assert HoldsFirst(groups, 0, map[]);
    ConvertFromSucceeds(groups, 0, map[]);
    if ConvertFrom(groups, 0, map[]).Success? {
      ConvertFromHoldsAll(groups, 0, map[]);
      EntitiesValues(groups, |groups|);
      EntitiesKeys(groups, |groups|);
    }
  }

  lemma CreateSpaceFailure<U>(groups: seq<Group>, uuidGenerator: string -> U)
    requires CreateSpace(groups, uuidGenerator).Failure?
    ensures exists k :: FirstFault(groups, k, CreateSpace(groups, uuidGenerator).error)
  {
    assert HoldsFirst(groups, 0, map[]);
    ConvertFromFails(groups, 0, map[]);
  }

  /** Two groups whose roots share a table name make the conversion fail. */
  lemma SharedRootNameFails<U>(groups: seq<Group>, uuidGenerator: string -> U, a: nat, b: nat)
    requires a < b < |groups| && groups[a].root.Some? && groups[b].root.Some?
    requires groups[a].root.value.tableName == groups[b].root.value.tableName
    ensures CreateSpace(groups, uuidGenerator).Failure?
  {
    CreateSpaceProperties(groups, uuidGenerator);
  }

  /** `create`: converts the groups in order, returning the space or the exception. */
  method Create<U>(groups: seq<Group>, uuidGenerator: string -> U) returns (r: Result<Space<U>, Error>)
    ensures r == CreateSpace(groups, uuidGenerator)
  {
    var entities: map<string, Entity> := map[];
    var i := 0;
    while i < |groups|
      invariant 0 <= i <= |groups|
      invariant ConvertFrom(groups, 0, map[]) == ConvertFrom(groups, i, entities)
    {
      var root := groups[i].root;
      if root.None? {
        return Failure(NullRoot(i));
      }
      var entityName := root.value.tableName;
      if entityName in entities {
        return Failure(DuplicateTableName(entityName));
      }
      entities := entities[entityName := Entity(root.value)];
      i := i + 1;
    }
    return Success(Space(entities, uuidGenerator));
  }
}

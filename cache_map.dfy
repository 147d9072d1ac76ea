/**
 * CacheMap: a LinkedHashMap in access order whose eldest entry is evicted as soon as the size
 * exceeds maxSize, with an optional allocator that fills a missed key.
 * The entries are kept as a sequence from least to most recently accessed.
 */
module CacheMaps {
  import opened Common

  const DEFAULT_SIZE: int := 100

  /** No key occurs twice. */
  ghost predicate DistinctKeys<K, V>(entries: seq<(K, V)>)
  {
    forall i, j :: 0 <= i < j < |entries| ==> entries[i].0 != entries[j].0
  }

  /** The position of key in entries, if present. */
  function IndexOf<K(==), V>(entries: seq<(K, V)>, key: K): (r: Option<nat>)
    ensures r.Some? ==> r.value < |entries| && entries[r.value].0 == key
    ensures r.None? <==> forall i :: 0 <= i < |entries| ==> entries[i].0 != key
    ensures r.Some? ==> forall i :: 0 <= i < r.value ==> entries[i].0 != key
  {
    if entries == [] then None
    else if entries[0].0 == key then Some(0)
    else match IndexOf(entries[1..], key)
      case None => None
      case Some(i) => Some(i + 1)
  }

  /** The value stored under key, if any: what the map returns for it, order aside. */
  function Lookup<K(==), V>(entries: seq<(K, V)>, key: K): Option<V>
  {
    match IndexOf(entries, key)
      case Some(i) => Some(entries[i].1)
      case None => None
  }

  /** The entry at i moves to the most recent end, with the given value. */
  function MoveToEnd<K, V>(entries: seq<(K, V)>, i: nat, value: V): seq<(K, V)>
    requires i < |entries|
  {
    entries[..i] + entries[i + 1..] + [(entries[i].0, value)]
  }

  /** `put`: an existing key is replaced and becomes most recent; a new key is appended, and if the
      map then holds more than maxSize entries the eldest is removed. */
  function Put<K(==), V>(entries: seq<(K, V)>, maxSize: int, key: K, value: V): seq<(K, V)>
  {
    match IndexOf(entries, key)
      case Some(i) => MoveToEnd(entries, i, value)
      case None =>
        var grown := entries + [(key, value)];
        if |grown| > maxSize then grown[1..] else grown
  }

  /** With distinct keys, the entry at any position is what a lookup of its key finds. */
  lemma LookupAt<K, V>(entries: seq<(K, V)>, j: nat)
    requires j < |entries| && DistinctKeys(entries)
    ensures Lookup(entries, entries[j].0) == Some(entries[j].1)
  {
    var r := IndexOf(entries, entries[j].0);
    assert r.Some?;
  }

  /** Every put keeps the keys distinct and the size within maxSize. */
  lemma PutKeepsInvariant<K, V>(entries: seq<(K, V)>, maxSize: int, key: K, value: V)
    requires 1 <= maxSize && |entries| <= maxSize && DistinctKeys(entries)
    ensures |Put(entries, maxSize, key, value)| <= maxSize
    ensures DistinctKeys(Put(entries, maxSize, key, value))
  {
    var r := Put(entries, maxSize, key, value);
    match IndexOf(entries, key)
      case Some(i) =>
        var rest := entries[..i] + entries[i + 1..];
        assert forall j :: 0 <= j < |rest| ==> rest[j] == if j < i then entries[j] else entries[j + 1];
      case None =>
  }

  /** A put always leaves the key as the most recently used entry, holding the value. */
  lemma PutMakesMostRecent<K, V>(entries: seq<(K, V)>, maxSize: int, key: K, value: V)
    requires 1 <= maxSize
    ensures var r := Put(entries, maxSize, key, value);
            |r| > 0 && r[|r| - 1] == (key, value)
  {
  }

  /** Inserting a new key into a full map evicts exactly the least recently used entry. */
  lemma PutEvictsEldest<K, V>(entries: seq<(K, V)>, maxSize: int, key: K, value: V)
    requires 1 <= maxSize && |entries| == maxSize
    requires IndexOf(entries, key).None?
    ensures Put(entries, maxSize, key, value) == entries[1..] + [(key, value)]
  {
  }

  /** Inserting a new key below capacity keeps every entry. */
  lemma PutBelowCapacityKeepsAll<K, V>(entries: seq<(K, V)>, maxSize: int, key: K, value: V)
    requires |entries| < maxSize
    requires IndexOf(entries, key).None?
    ensures Put(entries, maxSize, key, value) == entries + [(key, value)]
  {
  }

  /** Moving an entry to the recent end changes the order, not what any key maps to. */
  lemma MoveKeepsMapping<K, V>(entries: seq<(K, V)>, i: nat, key: K)
    requires i < |entries| && DistinctKeys(entries)
    ensures Lookup(MoveToEnd(entries, i, entries[i].1), key) == Lookup(entries, key)
  {
    var moved := MoveToEnd(entries, i, entries[i].1);
    var rest := entries[..i] + entries[i + 1..];
    assert forall j :: 0 <= j < |rest| ==> rest[j] == if j < i then entries[j] else entries[j + 1];
    assert DistinctKeys(moved);
    if k :| 0 <= k < |entries| && entries[k].0 == key {
      var m := if k < i then k else if k == i then |moved| - 1 else k - 1;
      assert moved[m] == entries[k];
      LookupAt(moved, m);
      LookupAt(entries, k);
    } else {
      assert forall j :: 0 <= j < |moved| ==> moved[j].0 != key by {
        forall j | 0 <= j < |moved| ensures moved[j].0 != key {
          if j < i { assert moved[j] == entries[j]; }
          else if j < |moved| - 1 { assert moved[j] == entries[j + 1]; }
        }
      }
    }
  }

  /** After inserting a new key, it maps to its value; the evicted eldest key (if the map was
      full) maps to nothing; every other key keeps its value. */
  lemma InsertMapping<K, V>(entries: seq<(K, V)>, maxSize: int, key: K, value: V, other: K)
    requires 1 <= maxSize && |entries| <= maxSize && DistinctKeys(entries)
    requires IndexOf(entries, key).None?
    ensures Lookup(Put(entries, maxSize, key, value), key) == Some(value)
    ensures other != key ==>
      Lookup(Put(entries, maxSize, key, value), other)
        == if |entries| == maxSize && other == entries[0].0 then None else Lookup(entries, other)
  {
    var r := Put(entries, maxSize, key, value);
    assert r[|r| - 1] == (key, value);
    PutKeepsInvariant(entries, maxSize, key, value);
    LookupAt(r, |r| - 1);
    if other != key {
      InsertKeepsOther(entries, maxSize, key, value, other);
    }
  }

  /** The other-key half of InsertMapping. */
  lemma InsertKeepsOther<K, V>(entries: seq<(K, V)>, maxSize: int, key: K, value: V, other: K)
    requires 1 <= maxSize && |entries| <= maxSize && DistinctKeys(entries)
    requires IndexOf(entries, key).None? && other != key
    ensures Lookup(Put(entries, maxSize, key, value), other)
              == if |entries| == maxSize && other == entries[0].0 then None else Lookup(entries, other)
  {
    var r := Put(entries, maxSize, key, value);
    var evict := |entries| == maxSize;
    var grown := entries + [(key, value)];
    assert r == if evict then grown[1..] else grown;
    PutKeepsInvariant(entries, maxSize, key, value);
    if k :| 0 <= k < |entries| && entries[k].0 == other {
      LookupAt(entries, k);
      if evict && k == 0 {
        forall j | 0 <= j < |r| ensures r[j].0 != other {
          if j < |r| - 1 { assert r[j] == entries[j + 1]; }
        }
      } else {
        var m := if evict then k - 1 else k;
        assert r[m] == entries[k];
        LookupAt(r, m);
      }
    } else {
      forall j | 0 <= j < |r| ensures r[j].0 != other {
        if j < |r| - 1 { assert r[j] == if evict then entries[j + 1] else entries[j]; }
      }
    }
  }

  class CacheMap<K(==), V> {
    var entries: seq<(K, V)>
    const maxSize: int
    const allocator: Option<K -> V>
    /** How many times `allocatorHook` has run. */
    var hookCalls: nat

    ghost predicate Valid()
      reads this
    {
      1 <= maxSize && |entries| <= maxSize && DistinctKeys(entries)
    }

    constructor (size: int, allocator: Option<K -> V>)
      requires size >= 1
      ensures Valid() && entries == [] && maxSize == size && this.allocator == allocator && hookCalls == 0
    {
      entries := [];
      maxSize := size;
      this.allocator := allocator;
      hookCalls := 0;
    }

    /** `CacheMap(size, allocator)`: rejected when size < 1. */
    static method Create(size: Int32, allocator: Option<K -> V>) returns (r: Option<CacheMap<K, V>>)
      ensures r.None? <==> size < 1
      ensures r.Some? ==> fresh(r.value) && r.value.Valid() && r.value.entries == []
                          && r.value.maxSize == size as int && r.value.allocator == allocator
                          && r.value.hookCalls == 0
    {
      if size < 1 {
        return None;
      }
      var c := new CacheMap(size as int, allocator);
      return Some(c);
    }

    /** `CacheMap()` and `CacheMap(allocator)`: capacity 100. */
    static method CreateDefault(allocator: Option<K -> V>) returns (c: CacheMap<K, V>)
      ensures fresh(c) && c.Valid() && c.entries == [] && c.maxSize == DEFAULT_SIZE
      ensures c.allocator == allocator && c.hookCalls == 0
    {
      c := new CacheMap(DEFAULT_SIZE, allocator);
    }

    /** The inherited `put`, with `removeEldestEntry` deciding eviction. */
    method PutEntry(key: K, value: V) returns (previous: Option<V>)
      requires Valid()
      modifies this
      ensures Valid()
      ensures entries == Put(old(entries), maxSize, key, value)
      ensures previous == Lookup(old(entries), key)
      ensures hookCalls == old(hookCalls)
    {
      PutKeepsInvariant(entries, maxSize, key, value);
      var found := IndexOf(entries, key);
      previous := if found.Some? then Some(entries[found.value].1) else None;
      entries := Put(entries, maxSize, key, value);
    }

    /** `get`: a hit returns the stored value and makes the key most recent; a miss with an
        allocator stores and returns `allocateFor(key)`, running the hook once; a miss
        without one returns nothing and changes nothing. */
    method Get(key: K) returns (r: Option<V>)
      requires Valid()
      modifies this
      ensures Valid()
      ensures Lookup(old(entries), key).Some? ==>
        r == Lookup(old(entries), key)
        && entries == Put(old(entries), maxSize, key, r.value)
        && (forall k :: Lookup(entries, k) == Lookup(old(entries), k))
        && hookCalls == old(hookCalls)
      ensures Lookup(old(entries), key).None? && allocator.None? ==>
        r.None? && entries == old(entries) && hookCalls == old(hookCalls)
      ensures Lookup(old(entries), key).None? && allocator.Some? ==>
        r == Some(allocator.value(key))
        && entries == Put(old(entries), maxSize, key, r.value)
        && hookCalls == old(hookCalls) + 1
    {
      var found := IndexOf(entries, key);
      if found.Some? {
        var value := entries[found.value].1;
        forall k ensures Lookup(MoveToEnd(entries, found.value, value), k) == Lookup(entries, k) {
          MoveKeepsMapping(entries, found.value, k);
        }
        PutKeepsInvariant(entries, maxSize, key, value);
        entries := MoveToEnd(entries, found.value, value);
        r := Some(value);
      } else if allocator.Some? {
        var value := allocator.value(key);
        hookCalls := hookCalls + 1;
        var shouldBeNone := PutEntry(key, value);
        assert shouldBeNone.None?;
        r := Some(value);
      } else {
        r := None;
      }
    }
  }
}

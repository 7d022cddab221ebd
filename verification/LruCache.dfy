/**
 The LRU cache as a vector of cells, each stamped with the generation of its last use.

 The order of the vector means nothing: removing a cell moves the last one into its place.  The
 ghost field `recency` lists the cells by generation, and shows that the cache refines
 `RecencyList`.
*/
module LruCache {
  import opened Wrappers
  import opened RecencyList

  datatype Cell<T> = Cell(generation: nat, value: T)

  function Values<T>(cells: seq<Cell<T>>): (values: seq<T>)
    ensures |values| == |cells| && forall i | 0 <= i < |cells| :: values[i] == cells[i].value
  {
    if cells == [] then [] else Values(cells[..|cells| - 1]) + [cells[|cells| - 1].value]
  }

  ghost predicate Stamped<T>(cells: seq<Cell<T>>, generation: nat) {
    && (forall i, j | 0 <= i < j < |cells| :: cells[i].generation < cells[j].generation)
    && (forall i | 0 <= i < |cells| :: cells[i].generation <= generation)
  }

  /** The last element takes the place of a removed one. */
  function SwapRemove<T>(s: seq<T>, i: nat): seq<T>
    requires i < |s|
  {
    s[i := s[|s| - 1]][..|s| - 1]
  }

  lemma SwapRemoveElements<T>(s: seq<T>, i: nat)
    requires i < |s|
    ensures multiset(SwapRemove(s, i)) == multiset(s) - multiset{s[i]}
  {
    var last := s[|s| - 1];
    assert s == s[..|s| - 1] + [last];
    if i < |s| - 1 {
      assert s[..|s| - 1] == s[..i] + [s[i]] + s[i + 1..|s| - 1];
      assert SwapRemove(s, i) == s[..i] + [last] + s[i + 1..|s| - 1];
    } else {
      assert SwapRemove(s, i) == s[..|s| - 1];
    }
  }

  function RemoveAt<T>(s: seq<T>, i: nat): (r: seq<T>)
    requires i < |s|
    ensures |r| == |s| - 1
  {
    s[..i] + s[i + 1..]
  }

  lemma RemoveAtElements<T>(s: seq<T>, i: nat)
    requires i < |s|
    ensures multiset(RemoveAt(s, i)) == multiset(s) - multiset{s[i]}
  {
    assert s == s[..i] + [s[i]] + s[i + 1..];
  }

  lemma UpdateElements<T>(s: seq<T>, i: nat, x: T)
    requires i < |s|
    ensures multiset(s[i := x]) == multiset(s) - multiset{s[i]} + multiset{x}
  {
    assert s == s[..i] + [s[i]] + s[i + 1..];
    assert s[i := x] == s[..i] + [x] + s[i + 1..];
  }

  lemma MovedElements<T>(s: seq<T>, t: seq<T>, i: nat, r: nat, x: T)
    requires multiset(s) == multiset(t) && i < |s| && r < |t| && s[i] == t[r]
    ensures multiset(s[i := x]) == multiset(RemoveAt(t, r) + [x])
  {
    hide RemoveAt;
    UpdateElements(s, i, x);
    RemoveAtElements(t, r);
  }

  lemma StampedNext<T>(cells: seq<Cell<T>>, generation: nat, value: T)
    requires Stamped(cells, generation)
    ensures Stamped(cells + [Cell(generation + 1, value)], generation + 1)
    ensures Values(cells + [Cell(generation + 1, value)]) == Values(cells) + [value]
  {
    assert (cells + [Cell(generation + 1, value)])[..|cells|] == cells;
  }

  lemma StampedAt<T>(cells: seq<Cell<T>>, generation: nat, i: nat, j: nat)
    requires Stamped(cells, generation) && i < j < |cells|
    ensures cells[i].generation < cells[j].generation <= generation
  {
  }

  lemma StampedWithout<T>(cells: seq<Cell<T>>, generation: nat, r: nat)
    requires Stamped(cells, generation) && r < |cells|
    ensures Stamped(RemoveAt(cells, r), generation) && Values(RemoveAt(cells, r)) == RemoveAt(Values(cells), r)
  {
    ValuesWithout(cells, r);
    var left := RemoveAt(cells, r);
    assert Stamped(left, generation) by {
      hide RemoveAt, Values;
      forall i | 0 <= i < |left|
        ensures left[i].generation <= generation
      {
        RemovedAt(cells, r, i);
      }
      forall i, j | 0 <= i < j < |left|
        ensures left[i].generation < left[j].generation
      {
        RemovedAt(cells, r, i);
        RemovedAt(cells, r, j);
        StampedAt(cells, generation, if i < r then i else i + 1, if j < r then j else j + 1);
      }
    }
  }

  lemma RemovedAt<T>(s: seq<T>, r: nat, i: nat)
    requires r < |s| && i < |s| - 1
    ensures RemoveAt(s, r)[i] == s[if i < r then i else i + 1]
  {
  }

  lemma ValuesWithout<T>(cells: seq<Cell<T>>, r: nat)
    requires r < |cells|
    ensures Values(RemoveAt(cells, r)) == RemoveAt(Values(cells), r)
  {
    hide RemoveAt;
    forall i | 0 <= i < |cells| - 1
      ensures Values(RemoveAt(cells, r))[i] == RemoveAt(Values(cells), r)[i]
    {
      RemovedAt(cells, r, i);
      RemovedAt(Values(cells), r, i);
    }
  }

  class Lru<T(==)> {
    var data: seq<Cell<T>>
    var generation: nat
    const cap: nat
    ghost var recency: seq<Cell<T>>

    constructor (capacity: nat)
      requires capacity > 0
      ensures Valid() && Entries() == [] && cap == capacity
    {
      data, generation, recency, cap := [], 0, [], capacity;
    }

    ghost predicate Valid()
      reads this
    {
      && cap > 0 && |data| <= cap
      && multiset(data) == multiset(recency)
      && Stamped(recency, generation)
    }

    /** The elements from the least to the most recently used. */
    ghost function Entries(): seq<T>
      reads this
    {
      Values(recency)
    }

    lemma SameLength()
      requires Valid()
      ensures |data| == |recency| == |Entries()|
      ensures forall c :: c in data <==> c in recency
    {
      assert |multiset(data)| == |multiset(recency)|;
      forall c
        ensures c in data <==> c in recency
      {
        assert c in multiset(data) <==> c in multiset(recency);
      }
    }

    /** A generation may be skipped. */
    lemma StampedLater(before: nat)
      requires Stamped(recency, before) && before <= generation
      ensures Stamped(recency, generation)
    {
    }

    method NextGeneration() returns (g: nat)
      modifies `generation
      ensures g == generation == old(generation) + 1
    {
      generation := generation + 1;
      g := generation;
    }

    /** Stamp a cell with the next generation, and give it a value. */
    method Restamp(i: nat, ghost r: nat, value: T)
      requires Valid() && i < |data| && r < |recency| && data[i] == recency[r]
      modifies this
      ensures Valid()
      ensures r < |old(Entries())| && Entries() == RemoveAt(old(Entries()), r) + [value]
    {
      hide Stamped, RemoveAt, Values;
      SameLength();
      var next := NextGeneration();
      MovedElements(data, recency, i, r, Cell(next, value));
      StampedWithout(recency, next - 1, r);
      StampedNext(RemoveAt(recency, r), next - 1, value);
      data := data[i := Cell(next, value)];
      recency := RemoveAt(recency, r) + [Cell(next, value)];
    }

    /** Remove a cell. */
    method RemoveCell(i: nat, ghost r: nat)
      requires Valid() && i < |data| && r < |recency| && data[i] == recency[r]
      modifies this
      ensures Valid()
      ensures r < |old(Entries())| && Entries() == RemoveAt(old(Entries()), r)
    {
      hide Stamped, RemoveAt, Values;
      SameLength();
      SwapRemoveElements(data, i);
      RemoveAtElements(recency, r);
      StampedWithout(recency, generation, r);
      data := SwapRemove(data, i);
      recency := RemoveAt(recency, r);
    }

    /** Add an element; the least recently used one leaves a full cache. */
    method Put(value: T) returns (evicted: Option<T>)
      requires Valid()
      modifies this
      ensures Valid()
      ensures
        if |old(Entries())| == cap then
          evicted == Some(old(Entries())[0]) && Entries() == old(Entries())[1..] + [value]
        else evicted == None && Entries() == old(Entries()) + [value]
    {
      hide Stamped, RemoveAt, Values;
      SameLength();
      var next := NextGeneration();
      evicted := None;
      if |data| == cap {
        StampedLater(next - 1);
        evicted := Pop();
        SameLength();
        StampedWithout(old(recency), next - 1, 0);
      }
      StampedNext(recency, next - 1, value);
      data := data + [Cell(next, value)];
      recency := recency + [Cell(next, value)];
    }

    /** Remove the least recently used element. */
    method Pop() returns (evicted: Option<T>)
      requires Valid()
      modifies `data, `recency
      ensures Valid()
      ensures recency == if old(recency) == [] then [] else RemoveAt(old(recency), 0)
      ensures old(Entries()) == [] ==> evicted == None && Entries() == []
      ensures old(Entries()) != [] ==> evicted == Some(old(Entries())[0]) && Entries() == old(Entries())[1..]
    {
      hide Stamped;
      SameLength();
      if data == [] {
        return None;
      }
      var minIndex := 0;
      for i := 1 to |data|
        invariant minIndex < |data| && forall j | 0 <= j < i :: data[minIndex].generation <= data[j].generation
      {
        if data[minIndex].generation > data[i].generation {
          minIndex := i;
        }
      }
      OldestIsFirst(recency, generation, data, minIndex);
      SwapRemoveElements(data, minIndex);
      RemoveAtElements(recency, 0);
      StampedWithout(recency, generation, 0);
      evicted := Some(data[minIndex].value);
      data := SwapRemove(data, minIndex);
      recency := RemoveAt(recency, 0);
    }
  }

  /** With unique keys, the entry found for a key is the one with that key. */
  lemma FoundInRecency<K, V>(recency: seq<Cell<(K, V)>>, cell: Cell<(K, V)>, key: K)
    requires UniqueKeys(Values(recency)) && cell in recency && cell.value.0 == key
    ensures Find(Values(recency), key).Some? && recency[Find(Values(recency), key).value] == cell
  {
    hide UniqueKeys, Find;
    var r :| 0 <= r < |recency| && recency[r] == cell;
    assert Values(recency)[r] == cell.value && cell.value in Values(recency);
    UniqueAt(Values(recency), r, Find(Values(recency), key).value);
  }

  lemma MissingInRecency<K, V>(recency: seq<Cell<(K, V)>>, data: seq<Cell<(K, V)>>, key: K)
    requires forall c :: c in data <==> c in recency
    requires forall c <- data :: c.value.0 != key
    ensures Find(Values(recency), key).None?
  {
    forall i | 0 <= i < |recency|
      ensures Values(recency)[i].0 != key
    {
      assert recency[i] in recency;
    }
  }

  lemma OldestIsFirst<T>(recency: seq<Cell<T>>, generation: nat, data: seq<Cell<T>>, i: nat)
    requires Stamped(recency, generation) && recency != [] && i < |data|
    requires forall c :: c in data <==> c in recency
    requires forall j | 0 <= j < |data| :: data[i].generation <= data[j].generation
    ensures data[i] == recency[0]
  {
    assert recency[0] in recency && data[i] in data;
    var j :| 0 <= j < |data| && data[j] == recency[0];
    var r :| 0 <= r < |recency| && recency[r] == data[i];
  }

  class LruMap<K(==), V(==)> {
    const lru: Lru<(K, V)>

    constructor (capacity: nat)
      requires capacity > 0
      ensures Valid() && fresh(lru) && Entries() == [] && lru.cap == capacity
    {
      lru := new Lru<(K, V)>(capacity);
    }

    ghost predicate Valid()
      reads this, lru
    {
      lru.Valid() && IsCache(lru.Entries(), lru.cap)
    }

    ghost function Entries(): seq<(K, V)>
      reads this, lru
    {
      lru.Entries()
    }

    /** Where a key is, if it is there. */
    method Position(key: K) returns (i: Option<nat>)
      requires Valid()
      ensures
        match Find(Entries(), key)
        case Some(r) => i.Some? && i.value < |lru.data| && r < |lru.recency| && lru.data[i.value] == lru.recency[r]
        case None => i.None?
    {
      hide Stamped, Find;
      lru.SameLength();
      for j := 0 to |lru.data|
        invariant forall k | 0 <= k < j :: lru.data[k].value.0 != key
      {
        if lru.data[j].value.0 == key {
          FoundInRecency(lru.recency, lru.data[j], key);
          return Some(j);
        }
      }
      MissingInRecency(lru.recency, lru.data, key);
      return None;
    }

    /** Read a value, and mark it as the most recently used. */
    method Get(key: K) returns (value: Option<V>)
      requires Valid()
      modifies lru
      ensures Valid() && (value, Entries()) == RecencyList.Get(old(Entries()), key)
    {
      hide Find, UniqueKeys, Stamped;
      GetKeeps(Entries(), lru.cap, key);
      var i := Position(key);
      if i.None? {
        return None;
      }
      var entry := lru.data[i.value].value;
      value := Some(entry.1);
      lru.Restamp(i.value, Find(Entries(), key).value, entry);
    }

    /** Insert a value, and tell what it replaced or drove out. */
    method Insert(key: K, value: V) returns (outcome: InsertionOutcome<K, V>)
      requires Valid()
      modifies lru
      ensures Valid() && (outcome, Entries()) == RecencyList.Insert(old(Entries()), lru.cap, key, value)
    {
      hide Find, UniqueKeys, Stamped;
      InsertKeeps(Entries(), lru.cap, key, value);
      lru.SameLength();
      var i := Position(key);
      if i.Some? {
        outcome := Replaced(lru.data[i.value].value.1);
        lru.Restamp(i.value, Find(Entries(), key).value, (key, value));
      } else {
        var unused := lru.NextGeneration();
        lru.StampedLater(unused - 1);
        var evicted := lru.Put((key, value));
        outcome := match evicted case Some(e) => Evicted(e.0, e.1) case None => InsertedNew;
      }
    }

    /** Remove a key; the last cell takes its place. */
    method Remove(key: K) returns (value: Option<V>)
      requires Valid()
      modifies lru
      ensures Valid() && (value, Entries()) == RecencyList.Remove(old(Entries()), key)
    {
      hide Find, UniqueKeys, Stamped;
      WithoutKey(Entries(), key);
      WithoutEntry(Entries(), key);
      var i := Position(key);
      if i.None? {
        return None;
      }
      value := Some(lru.data[i.value].value.1);
      lru.RemoveCell(i.value, Find(Entries(), key).value);
    }
  }
}

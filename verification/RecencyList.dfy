/**
 What an LRU cache is: its entries from the least to the most recently used, each key once.

 `LruCache` refines it with a vector of cells in no particular order.
*/
module RecencyList {
  import opened Wrappers

  datatype InsertionOutcome<K, V> = InsertedNew | Evicted(key: K, value: V) | Replaced(value: V)

  function Find<K(==), V>(list: seq<(K, V)>, key: K): (i: Option<nat>)
    ensures i.Some? ==> i.value < |list| && list[i.value].0 == key
    ensures i.None? ==> forall e <- list :: e.0 != key
  {
    if list == [] then None
    else if list[|list| - 1].0 == key then Some(|list| - 1)
    else Find(list[..|list| - 1], key)
  }

  function Without<K(==), V>(list: seq<(K, V)>, key: K): seq<(K, V)> {
    match Find(list, key)
    case Some(i) => list[..i] + list[i + 1..]
    case None => list
  }

  /** Using an entry makes it the most recent one. */
  function Get<K(==), V>(list: seq<(K, V)>, key: K): (Option<V>, seq<(K, V)>) {
    match Find(list, key)
    case Some(i) => (Some(list[i].1), Without(list, key) + [list[i]])
    case None => (None, list)
  }

  function Insert<K(==), V>(list: seq<(K, V)>, cap: nat, key: K, value: V): (InsertionOutcome<K, V>, seq<(K, V)>)
    requires cap > 0
  {
    match Find(list, key)
    case Some(i) => (Replaced(list[i].1), Without(list, key) + [(key, value)])
    case None =>
      if |list| < cap then (InsertedNew, list + [(key, value)])
      else (Evicted(list[0].0, list[0].1), list[1..] + [(key, value)])
  }

  function Remove<K(==), V>(list: seq<(K, V)>, key: K): (Option<V>, seq<(K, V)>) {
    match Find(list, key)
    case Some(i) => (Some(list[i].1), Without(list, key))
    case None => (None, list)
  }

  predicate UniqueKeys<K(==), V>(list: seq<(K, V)>) {
    forall i, j | 0 <= i < j < |list| :: list[i].0 != list[j].0
  }

  predicate IsCache<K(==), V>(list: seq<(K, V)>, cap: nat) {
    UniqueKeys(list) && |list| <= cap
  }

  lemma UniqueSnoc<K, V>(list: seq<(K, V)>, e: (K, V))
    requires UniqueKeys(list) && forall d <- list :: d.0 != e.0
    ensures UniqueKeys(list + [e])
  {
  }

  lemma WithoutAt<K, V>(list: seq<(K, V)>, key: K, j: nat)
    requires j < |Without(list, key)| && Find(list, key).Some?
    ensures
      var k := if j < Find(list, key).value then j else j + 1;
      k < |list| && Without(list, key)[j] == list[k] && k != Find(list, key).value
  {
  }

  lemma WithoutKey<K, V>(list: seq<(K, V)>, key: K)
    requires UniqueKeys(list)
    ensures UniqueKeys(Without(list, key)) && forall e <- Without(list, key) :: e.0 != key
  {
    if Find(list, key).Some? {
      hide Without, Find;
      var left := Without(list, key);
      forall i, j | 0 <= i < j < |left|
        ensures left[i].0 != left[j].0
      {
        WithoutAt(list, key, i);
        WithoutAt(list, key, j);
      }
      forall j | 0 <= j < |left|
        ensures left[j].0 != key
      {
        WithoutAt(list, key, j);
        OtherKey(list, if j < Find(list, key).value then j else j + 1, Find(list, key).value);
      }
    }
  }

  lemma OtherKey<K, V>(list: seq<(K, V)>, i: nat, j: nat)
    requires UniqueKeys(list) && i < |list| && j < |list| && i != j
    ensures list[i].0 != list[j].0
  {
    if i < j {
      assert list[i].0 != list[j].0;
    } else {
      assert list[j].0 != list[i].0;
    }
  }

  lemma TakenOut<T>(s: seq<T>, i: nat)
    requires i < |s|
    ensures multiset(s) == multiset(s[..i] + s[i + 1..]) + multiset{s[i]}
  {
    assert s == s[..i] + [s[i]] + s[i + 1..];
  }

  lemma WithoutEntry<K, V>(list: seq<(K, V)>, key: K)
    ensures
      match Find(list, key)
      case Some(i) =>
        |Without(list, key)| == |list| - 1 && multiset(list) == multiset(Without(list, key)) + multiset{list[i]}
      case None => Without(list, key) == list
  {
    hide Find;
    match Find(list, key) {
      case Some(i) => TakenOut(list, i);
      case None =>
    }
  }

  lemma UniqueAt<K, V>(list: seq<(K, V)>, i: nat, j: nat)
    requires UniqueKeys(list) && i < |list| && j < |list| && list[i].0 == list[j].0
    ensures i == j
  {
  }

  lemma UniqueTail<K, V>(list: seq<(K, V)>)
    requires UniqueKeys(list) && list != []
    ensures UniqueKeys(list[1..]) && forall e <- list[1..] :: e in list
  {
  }

  /** The entries of a cache as a map: what it answers to a reader. */
  function Contents<K(==), V>(list: seq<(K, V)>): (m: map<K, V>)
    ensures m.Keys == set e | e in list :: e.0
  {
    if list == [] then map[] else Contents(list[..|list| - 1])[list[|list| - 1].0 := list[|list| - 1].1]
  }

  lemma {:induction false} ContentsAt<K, V>(list: seq<(K, V)>, i: nat)
    requires UniqueKeys(list) && i < |list|
    ensures list[i].0 in Contents(list) && Contents(list)[list[i].0] == list[i].1
  {
    if i < |list| - 1 {
      ContentsAt(list[..|list| - 1], i);
    }
  }

  /** `a` was used before `b`. */
  ghost predicate Before<K, V>(list: seq<(K, V)>, a: K, b: K) {
    exists i, j :: 0 <= i < j < |list| && list[i].0 == a && list[j].0 == b
  }

  /** All entries but the one of `key` follow each other as they did. */
  ghost predicate KeepsOrder<K, V>(list: seq<(K, V)>, after: seq<(K, V)>, key: K) {
    forall d, e | d in list && e in list && d.0 != key && e.0 != key ::
      Before(after, d.0, e.0) <==> Before(list, d.0, e.0)
  }

  /** `list` with its entry at `f` taken out, and `e` added at the end. */
  function Moved<K, V>(list: seq<(K, V)>, f: nat, e: (K, V)): seq<(K, V)>
    requires f < |list|
  {
    list[..f] + list[f + 1..] + [e]
  }

  lemma MovedAt<K, V>(list: seq<(K, V)>, f: nat, e: (K, V), k: nat)
    requires f < |list| && k < |list| && k != f
    ensures
      var x := if k < f then k else k - 1;
      0 <= x < |list| - 1 && |Moved(list, f, e)| == |list| && Moved(list, f, e)[x] == list[k]
  {
  }

  lemma BeforeMoved<K, V>(list: seq<(K, V)>, f: nat, e: (K, V), a: K, b: K)
    requires f < |list| && a != list[f].0 && b != list[f].0 && Before(list, a, b)
    ensures Before(Moved(list, f, e), a, b)
  {
    hide Moved;
    var i, j :| 0 <= i < j < |list| && list[i].0 == a && list[j].0 == b;
    MovedAt(list, f, e, i);
    MovedAt(list, f, e, j);
  }

  lemma MovedBefore<K, V>(list: seq<(K, V)>, f: nat, e: (K, V), a: K, b: K)
    requires f < |list| && a != e.0 && b != e.0 && Before(Moved(list, f, e), a, b)
    ensures Before(list, a, b)
  {
    var after := Moved(list, f, e);
    var i, j :| 0 <= i < j < |after| && after[i].0 == a && after[j].0 == b;
    assert after[|list| - 1] == e;
    hide Moved, Before;
    var x, y := if i < f then i else i + 1, if j < f then j else j + 1;
    MovedAt(list, f, e, x);
    MovedAt(list, f, e, y);
    IsBefore(list, x, y);
  }

  lemma IsBefore<K, V>(list: seq<(K, V)>, i: nat, j: nat)
    requires i < j < |list|
    ensures Before(list, list[i].0, list[j].0)
  {
  }

  /** Moving the entry of a key to the end leaves the others in their order. */
  lemma MovedKeepsOrder<K, V>(list: seq<(K, V)>, key: K, value: V)
    requires Find(list, key).Some?
    ensures KeepsOrder(list, Without(list, key) + [(key, value)], key)
  {
    hide Find, Before;
    var f := Find(list, key).value;
    var after := Without(list, key) + [(key, value)];
    assert after == Moved(list, f, (key, value));
    forall d, e | d in list && e in list && d.0 != key && e.0 != key
      ensures Before(after, d.0, e.0) <==> Before(list, d.0, e.0)
    {
      if Before(list, d.0, e.0) {
        BeforeMoved(list, f, (key, value), d.0, e.0);
      }
      if Before(after, d.0, e.0) {
        MovedBefore(list, f, (key, value), d.0, e.0);
      }
    }
  }

  /** Getting answers from the contents, and moves the entry behind all others, which keep their order. */
  lemma GetKeeps<K, V>(list: seq<(K, V)>, cap: nat, key: K)
    requires IsCache(list, cap)
    ensures
      var (value, after) := Get(list, key);
      && IsCache(after, cap) && multiset(after) == multiset(list) && KeepsOrder(list, after, key)
      && value == (if key in Contents(list) then Some(Contents(list)[key]) else None)
      && (value.Some? ==> after != [] && after[|after| - 1] == (key, value.value))
      && (value.None? ==> after == list)
  {
    hide UniqueKeys, Without, Find, Contents, KeepsOrder;
    WithoutKey(list, key);
    WithoutEntry(list, key);
    match Find(list, key) {
      case Some(i) =>
        ContentsAt(list, i);
        UniqueSnoc(Without(list, key), list[i]);
        MovedKeepsOrder(list, key, list[i].1);
        assert list[i] == (key, list[i].1);
      case None =>
        SameOrder(list, key);
    }
  }

  lemma SameOrder<K, V>(list: seq<(K, V)>, key: K)
    ensures KeepsOrder(list, list, key)
  {
  }

  /**
   Inserting stores the value, as the most recent entry; the one entry that leaves, if any, is the
   old value of the key or the least recently used entry of a full cache, and it is reported.  The
   others keep their order.
  */
  lemma InsertKeeps<K, V>(list: seq<(K, V)>, cap: nat, key: K, value: V)
    requires IsCache(list, cap) && cap > 0
    ensures
      var (outcome, after) := Insert(list, cap, key, value);
      && IsCache(after, cap) && after != [] && after[|after| - 1] == (key, value)
      && match outcome
         case InsertedNew => (forall e <- list :: e.0 != key) && |list| < cap && after == list + [(key, value)]
         case Replaced(old_) =>
           && (key, old_) in list && multiset(after) == multiset(list) - multiset{(key, old_)} + multiset{(key, value)}
           && KeepsOrder(list, after, key)
         case Evicted(k, v) =>
           (forall e <- list :: e.0 != key) && |list| == cap && list == [(k, v)] + after[..|after| - 1]
  {
    hide UniqueKeys, Without, Find, KeepsOrder;
    WithoutKey(list, key);
    WithoutEntry(list, key);
    match Find(list, key) {
      case Some(i) =>
        UniqueSnoc(Without(list, key), (key, value));
        MovedKeepsOrder(list, key, value);
      case None =>
        if |list| < cap {
          UniqueSnoc(list, (key, value));
        } else {
          UniqueTail(list);
          UniqueSnoc(list[1..], (key, value));
          assert list == [list[0]] + list[1..];
        }
    }
  }

  /** Removing takes out the one entry of the key, and reports its value; the others stay, in their order. */
  lemma RemoveKeeps<K, V>(list: seq<(K, V)>, cap: nat, key: K)
    requires IsCache(list, cap)
    ensures
      var (value, after) := Remove(list, key);
      && IsCache(after, cap) && (forall e <- after :: e.0 != key)
      && value == (if key in Contents(list) then Some(Contents(list)[key]) else None)
      && multiset(list) == multiset(after) + (if value.Some? then multiset{(key, value.value)} else multiset{})
      && KeepsOrder(list, after, key)
  {
    hide UniqueKeys, Without, Find, Contents, KeepsOrder;
    WithoutKey(list, key);
    WithoutEntry(list, key);
    match Find(list, key) {
      case Some(i) =>
        ContentsAt(list, i);
        TakenKeepsOrder(list, key);
        assert list[i] == (key, list[i].1);
      case None => SameOrder(list, key);
    }
  }

  lemma TakenKeepsOrder<K, V>(list: seq<(K, V)>, key: K)
    requires Find(list, key).Some?
    ensures KeepsOrder(list, Without(list, key), key)
  {
    hide Find, Before;
    var f := Find(list, key).value;
    var without := Without(list, key);
    MovedKeepsOrder(list, key, list[f].1);
    forall d, e | d in list && e in list && d.0 != key && e.0 != key
      ensures Before(without, d.0, e.0) <==> Before(list, d.0, e.0)
    {
      LastMakesNoDifference(without, (key, list[f].1), d.0, e.0);
    }
  }

  lemma LastMakesNoDifference<K, V>(list: seq<(K, V)>, last: (K, V), a: K, b: K)
    requires a != last.0 && b != last.0
    ensures Before(list + [last], a, b) <==> Before(list, a, b)
  {
    var after := list + [last];
    if Before(list, a, b) {
      var i, j :| 0 <= i < j < |list| && list[i].0 == a && list[j].0 == b;
      assert after[i] == list[i] && after[j] == list[j];
    }
    if Before(after, a, b) {
      var i, j :| 0 <= i < j < |after| && after[i].0 == a && after[j].0 == b;
      assert j < |list| && after[i] == list[i] && after[j] == list[j];
    }
  }
}

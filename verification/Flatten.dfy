/**
 Flattening a document: nested members get dotted keys, arrays are transparent.

 `Flattened` says what the result is: a key with leaves holds exactly those leaves, in the order
 of the document, and a key without leaves keeps its first original value.
*/
module Flatten {
  import opened Wrappers
  import opened Bytes
  import opened Json

  type Key = seq<byte>

  const DOT: byte := 0x2E

  predicate IsScalar(v: Value) {
    !v.Array? && !v.Object?
  }

  /** A scalar of the document, the key it belongs to, and whether it was an element of an array. */
  datatype Leaf = Leaf(key: Key, value: Value, fromArray: bool)

  /** A member of the document under its dotted key. */
  datatype Entry = Entry(key: Key, value: Value)

  function Join(base: Option<Key>, name: Key): Key {
    if base.Some? then base.value + [DOT] + name else name
  }

  // What there is to find in a document

  function Leaves(base: Option<Key>, members: seq<Member>): seq<Leaf>
    decreases members
  {
    if members == [] then [] else MemberLeaves(Join(base, members[0].name), members[0].value) + Leaves(base, members[1..])
  }

  function MemberLeaves(key: Key, v: Value): seq<Leaf>
    decreases v
  {
    match v
    case Array(items) => ItemLeaves(key, items)
    case Object(members) => Leaves(Some(key), members)
    case _ => [Leaf(key, v, false)]
  }

  function ItemLeaves(key: Key, items: seq<Value>): seq<Leaf>
    decreases items
  {
    if items == [] then []
    else ItemLeavesOf(key, items[0]) + ItemLeaves(key, items[1..])
  }

  function ItemLeavesOf(key: Key, v: Value): seq<Leaf>
    decreases v
  {
    match v
    case Object(members) => Leaves(Some(key), members)
    case Array(items) => ItemLeaves(key, items)
    case _ => [Leaf(key, v, true)]
  }

  function Entries(base: Option<Key>, members: seq<Member>): seq<Entry>
    decreases members
  {
    if members == [] then []
    else
      var key := Join(base, members[0].name);
      [Entry(key, members[0].value)] + ValueEntries(key, members[0].value) + Entries(base, members[1..])
  }

  function ValueEntries(key: Key, v: Value): seq<Entry>
    decreases v
  {
    match v
    case Array(items) => ItemEntries(key, items)
    case Object(members) => Entries(Some(key), members)
    case _ => []
  }

  function ItemEntries(key: Key, items: seq<Value>): seq<Entry>
    decreases items
  {
    if items == [] then [] else ValueEntries(key, items[0]) + ItemEntries(key, items[1..])
  }

  // What flattening makes of it

  function LeavesAt(leaves: seq<Leaf>, key: Key): seq<Value> {
    if leaves == [] then []
    else
      var last := leaves[|leaves| - 1];
      LeavesAt(leaves[..|leaves| - 1], key) + if last.key == key then [last.value] else []
  }

  /** The first leaf of a key, if it has one. */
  function FirstLeaf(leaves: seq<Leaf>, key: Key): Option<Leaf> {
    if leaves == [] then None
    else
      var earlier := FirstLeaf(leaves[..|leaves| - 1], key);
      if earlier.Some? then earlier
      else if leaves[|leaves| - 1].key == key then Some(leaves[|leaves| - 1])
      else None
  }

  function FirstEntry(entries: seq<Entry>, key: Key): Option<Value> {
    if entries == [] then None
    else
      var earlier := FirstEntry(entries[..|entries| - 1], key);
      if earlier.Some? then earlier
      else if entries[|entries| - 1].key == key then Some(entries[|entries| - 1].value)
      else None
  }

  /** The leaves of a key: one that stands alone, and not in an array, stays as it is. */
  function Merged(leaves: seq<Leaf>, key: Key): Option<Value> {
    var values, first := LeavesAt(leaves, key), FirstLeaf(leaves, key);
    if first.None? then None
    else if |values| == 1 && !first.value.fromArray then Some(values[0])
    else Some(Value.Array(values))
  }

  function Keys(entries: seq<Entry>): set<Key> {
    set e | e in entries :: e.key
  }

  function Flattened(members: seq<Member>): map<Key, Value> {
    var leaves, entries := Leaves(None, members), Entries(None, members);
    map key | key in Keys(entries) :: ValueOf(leaves, entries, key)
  }

  function ValueOf(leaves: seq<Leaf>, entries: seq<Entry>, key: Key): Value {
    match Merged(leaves, key)
    case Some(v) => v
    case None => match FirstEntry(entries, key) case Some(v) => v case None => Null
  }

  // The steps of the program

  /** `insert_value` on a map. */
  function Inserted(m: map<Key, Value>, leaf: Leaf): map<Key, Value> {
    if leaf.key in m then
      m[leaf.key := match m[leaf.key]
                    case Array(items) => Value.Array(items + [leaf.value])
                    case v => Value.Array([v, leaf.value])]
    else m[leaf.key := if leaf.fromArray then Value.Array([leaf.value]) else leaf.value]
  }

  function InsertAll(m: map<Key, Value>, leaves: seq<Leaf>): map<Key, Value> {
    if leaves == [] then m else Inserted(InsertAll(m, leaves[..|leaves| - 1]), leaves[|leaves| - 1])
  }

  lemma {:induction false} InsertAppend(m: map<Key, Value>, a: seq<Leaf>, b: seq<Leaf>)
    ensures InsertAll(m, a + b) == InsertAll(InsertAll(m, a), b)
  {
    if b == [] {
      assert a + b == a;
    } else {
      assert (a + b)[..|a + b| - 1] == a + b[..|b| - 1];
      InsertAppend(m, a, b[..|b| - 1]);
    }
  }

  lemma InsertOne(m: map<Key, Value>, leaf: Leaf)
    ensures InsertAll(m, [leaf]) == Inserted(m, leaf)
  {
    assert [leaf][..0] == [];
  }

  lemma MembersStep(base: Option<Key>, members: seq<Member>, i: nat)
    requires i < |members|
    ensures
      var key, v := Join(base, members[i].name), members[i].value;
      && Leaves(base, members[i..]) == MemberLeaves(key, v) + Leaves(base, members[i + 1..])
      && Entries(base, members[i..]) == [Entry(key, v)] + ValueEntries(key, v) + Entries(base, members[i + 1..])
  {
    assert members[i..][1..] == members[i + 1..];
  }

  lemma ItemsStep(key: Key, items: seq<Value>, i: nat)
    requires i < |items|
    ensures ItemLeaves(key, items[i..]) == ItemLeavesOf(key, items[i]) + ItemLeaves(key, items[i + 1..])
    ensures ItemEntries(key, items[i..]) == ValueEntries(key, items[i]) + ItemEntries(key, items[i + 1..])
  {
    assert items[i..][1..] == items[i + 1..];
  }

  lemma NothingLeft(m: map<Key, Value>, base: Option<Key>, members: seq<Member>)
    requires members == []
    ensures InsertAll(m, Leaves(base, members)) == m && Entries(base, members) == []
  {
  }

  lemma NoItemLeft(m: map<Key, Value>, key: Key, items: seq<Value>)
    requires items == []
    ensures InsertAll(m, ItemLeaves(key, items)) == m && ItemEntries(key, items) == []
  {
  }

  class Flattener {
    var baseJson: map<Key, Value>
    var allEntries: seq<Entry>

    constructor ()
      ensures baseJson == map[] && allEntries == []
    {
      baseJson, allEntries := map[], [];
    }

    method InsertObject(baseKey: Option<Key>, members: seq<Member>)
      modifies this
      ensures baseJson == InsertAll(old(baseJson), Leaves(baseKey, members))
      ensures allEntries == old(allEntries) + Entries(baseKey, members)
      decreases members
    {
      hide InsertAll, Leaves, Entries, Join;
      assert members[0..] == members;
      for i := 0 to |members|
        invariant InsertAll(baseJson, Leaves(baseKey, members[i..])) == InsertAll(old(baseJson), Leaves(baseKey, members))
        invariant allEntries + Entries(baseKey, members[i..]) == old(allEntries) + Entries(baseKey, members)
      {
        var newKey, value := Join(baseKey, members[i].name), members[i].value;
        MembersStep(baseKey, members, i);
        InsertAppend(baseJson, MemberLeaves(newKey, value), Leaves(baseKey, members[i + 1..]));
        allEntries := allEntries + [Entry(newKey, value)];
        if value.Array? {
          InsertArray(newKey, value.items);
        } else if value.Object? {
          InsertObject(Some(newKey), value.members);
        } else {
          InsertValue(newKey, value, false);
        }
      }
      NothingLeft(baseJson, baseKey, members[|members|..]);
    }

    method InsertArray(baseKey: Key, array_: seq<Value>)
      modifies this
      ensures baseJson == InsertAll(old(baseJson), ItemLeaves(baseKey, array_))
      ensures allEntries == old(allEntries) + ItemEntries(baseKey, array_)
      decreases array_
    {
      hide InsertAll, ItemLeaves, ItemEntries, Leaves, Entries;
      assert array_[0..] == array_;
      for i := 0 to |array_|
        invariant InsertAll(baseJson, ItemLeaves(baseKey, array_[i..])) == InsertAll(old(baseJson), ItemLeaves(baseKey, array_))
        invariant allEntries + ItemEntries(baseKey, array_[i..]) == old(allEntries) + ItemEntries(baseKey, array_)
      {
        var value := array_[i];
        ItemsStep(baseKey, array_, i);
        InsertAppend(baseJson, ItemLeavesOf(baseKey, value), ItemLeaves(baseKey, array_[i + 1..]));
        if value.Object? {
          InsertObject(Some(baseKey), value.members);
        } else if value.Array? {
          InsertArray(baseKey, value.items);
        } else {
          InsertValue(baseKey, value, true);
        }
      }
      NoItemLeft(baseJson, baseKey, array_[|array_|..]);
    }

    method InsertValue(key: Key, toInsert: Value, cameFromArray: bool)
      requires IsScalar(toInsert)
      modifies `baseJson
      ensures baseJson == InsertAll(old(baseJson), [Leaf(key, toInsert, cameFromArray)])
    {
      InsertOne(baseJson, Leaf(key, toInsert, cameFromArray));
      if key in baseJson {
        var value := baseJson[key];
        if value.Array? {
          baseJson := baseJson[key := Value.Array(value.items + [toInsert])];
        } else {
          baseJson := baseJson[key := Value.Array([value, toInsert])];
        }
      } else if cameFromArray {
        baseJson := baseJson[key := Value.Array([toInsert])];
      } else {
        baseJson := baseJson[key := toInsert];
      }
    }
  }

  // What the steps amount to

  predicate AllScalars(leaves: seq<Leaf>) {
    forall l <- leaves :: IsScalar(l.value)
  }

  lemma AtSnoc(leaves: seq<Leaf>, l: Leaf, key: Key)
    ensures LeavesAt(leaves + [l], key) == LeavesAt(leaves, key) + if l.key == key then [l.value] else []
    ensures FirstLeaf(leaves + [l], key)
         == if FirstLeaf(leaves, key).Some? then FirstLeaf(leaves, key) else if l.key == key then Some(l) else None
  {
    assert (leaves + [l])[..|leaves|] == leaves;
  }

  lemma {:induction false} FirstIsFirst(leaves: seq<Leaf>, key: Key)
    ensures FirstLeaf(leaves, key).Some? <==> LeavesAt(leaves, key) != []
    ensures FirstLeaf(leaves, key).Some? ==> LeavesAt(leaves, key)[0] == FirstLeaf(leaves, key).value.value
  {
    if leaves != [] {
      FirstIsFirst(leaves[..|leaves| - 1], key);
    }
  }

  /** Inserting leaves one by one collects, under each key, all its leaves in order. */
  lemma {:induction false} Collected(leaves: seq<Leaf>, key: Key)
    requires AllScalars(leaves)
    ensures
      var m := InsertAll(map[], leaves);
      match Merged(leaves, key)
      case Some(v) => key in m && m[key] == v
      case None => key !in m
    ensures FirstLeaf(leaves, key).Some? ==> IsScalar(FirstLeaf(leaves, key).value.value)
  {
    hide LeavesAt, FirstLeaf;
    if leaves == [] {
      NoLeaves(key);
    } else {
      var rest, l := leaves[..|leaves| - 1], leaves[|leaves| - 1];
      assert leaves == rest + [l] && l in leaves;
      assert AllScalars(rest) by {
        assert forall x <- rest :: x in leaves;
      }
      Collected(rest, key);
      AtSnoc(rest, l, key);
      FirstIsFirst(rest, key);
      assert InsertAll(map[], leaves) == Inserted(InsertAll(map[], rest), l);
    }
  }

  lemma NoLeaves(key: Key)
    ensures LeavesAt([], key) == [] && FirstLeaf([], key) == None
  {
  }

  lemma {:induction false} LeavesAreScalars(base: Option<Key>, members: seq<Member>)
    ensures AllScalars(Leaves(base, members))
    decreases members
  {
    if members != [] {
      MemberLeavesAreScalars(Join(base, members[0].name), members[0].value);
      LeavesAreScalars(base, members[1..]);
    }
  }

  lemma {:induction false} MemberLeavesAreScalars(key: Key, v: Value)
    ensures AllScalars(MemberLeaves(key, v)) && AllScalars(ItemLeavesOf(key, v))
    decreases v
  {
    if v.Array? {
      ItemLeavesAreScalars(key, v.items);
    } else if v.Object? {
      LeavesAreScalars(Some(key), v.members);
    }
  }

  lemma {:induction false} ItemLeavesAreScalars(key: Key, items: seq<Value>)
    ensures AllScalars(ItemLeaves(key, items))
    decreases items
  {
    if items != [] {
      MemberLeavesAreScalars(key, items[0]);
      ItemLeavesAreScalars(key, items[1..]);
    }
  }

  predicate Under(leaves: seq<Leaf>, keys: set<Key>) {
    forall l <- leaves :: l.key in keys
  }

  lemma KeysAppend(a: seq<Entry>, b: seq<Entry>)
    ensures Keys(a + b) == Keys(a) + Keys(b)
  {
    forall k
      ensures k in Keys(a + b) <==> k in Keys(a) + Keys(b)
    {
      if k in Keys(a) {
        var e :| e in a && e.key == k;
        assert e in a + b;
      }
      if k in Keys(b) {
        var e :| e in b && e.key == k;
        assert e in a + b;
      }
    }
  }

  /** Every leaf is under the dotted path of some member. */
  lemma {:induction false} LeavesUnderEntries(base: Option<Key>, members: seq<Member>)
    ensures Under(Leaves(base, members), Keys(Entries(base, members)))
    decreases members
  {
    if members != [] {
      hide Keys;
      var key, v := Join(base, members[0].name), members[0].value;
      ValueUnderEntries(key, v);
      LeavesUnderEntries(base, members[1..]);
      KeysAppend([Entry(key, v)] + ValueEntries(key, v), Entries(base, members[1..]));
      KeysAppend([Entry(key, v)], ValueEntries(key, v));
      OneKey(Entry(key, v));
    }
  }

  lemma OneKey(e: Entry)
    ensures Keys([e]) == {e.key}
  {
    assert e in [e];
  }

  lemma {:induction false} ValueUnderEntries(key: Key, v: Value)
    ensures Under(MemberLeaves(key, v), {key} + Keys(ValueEntries(key, v)))
    ensures Under(ItemLeavesOf(key, v), {key} + Keys(ValueEntries(key, v)))
    decreases v
  {
    if v.Array? {
      ItemsUnderEntries(key, v.items);
    } else if v.Object? {
      LeavesUnderEntries(Some(key), v.members);
    }
  }

  lemma {:induction false} ItemsUnderEntries(key: Key, items: seq<Value>)
    ensures Under(ItemLeaves(key, items), {key} + Keys(ItemEntries(key, items)))
    decreases items
  {
    if items != [] {
      hide Keys;
      ValueUnderEntries(key, items[0]);
      ItemsUnderEntries(key, items[1..]);
      KeysAppend(ValueEntries(key, items[0]), ItemEntries(key, items[1..]));
    }
  }

  lemma {:induction false} MergedIsUnder(leaves: seq<Leaf>, keys: set<Key>, key: Key)
    requires Under(leaves, keys) && Merged(leaves, key).Some?
    ensures key in keys
  {
    var rest, l := leaves[..|leaves| - 1], leaves[|leaves| - 1];
    assert l in leaves && forall x <- rest :: x in leaves;
    if l.key != key {
      AtSnoc(rest, l, key);
      assert leaves == rest + [l];
      MergedIsUnder(rest, keys, key);
    }
  }

  /** `or_insert` for all entries: a key that is there keeps its value, others get their first entry. */
  ghost predicate Filled(m: map<Key, Value>, entries: seq<Entry>, n: map<Key, Value>) {
    && n.Keys == m.Keys + Keys(entries)
    && (forall k <- m :: n[k] == m[k])
    && (forall k | k in n && k !in m :: FirstEntry(entries, k) == Some(n[k]))
  }

  lemma FilledMore(m: map<Key, Value>, entries: seq<Entry>, e: Entry, n: map<Key, Value>)
    requires Filled(m, entries, n)
    ensures Filled(m, entries + [e], if e.key in n then n else n[e.key := e.value])
  {
    KeysAppend(entries, [e]);
    OneKey(e);
    assert (entries + [e])[..|entries|] == entries;
    forall k
      ensures FirstEntry(entries, k).Some? <==> k in Keys(entries)
    {
      FirstEntryKeys(entries, k);
    }
  }

  lemma {:induction false} FirstEntryKeys(entries: seq<Entry>, k: Key)
    ensures FirstEntry(entries, k).Some? <==> k in Keys(entries)
  {
    if entries != [] {
      var rest, e := entries[..|entries| - 1], entries[|entries| - 1];
      assert entries == rest + [e];
      KeysAppend(rest, [e]);
      OneKey(e);
      FirstEntryKeys(rest, k);
    }
  }

  /** Collecting the leaves, then filling in the entries, gives the flattened document. */
  lemma FilledIsFlattened(members: seq<Member>, n: map<Key, Value>)
    requires Filled(InsertAll(map[], Leaves(None, members)), Entries(None, members), n)
    ensures n == Flattened(members)
  {
    hide Leaves, Entries, Merged, InsertAll, Keys, FirstEntry;
    var leaves, entries := Leaves(None, members), Entries(None, members);
    var m := InsertAll(map[], leaves);
    LeavesAreScalars(None, members);
    LeavesUnderEntries(None, members);
    forall k
      ensures k in m <==> Merged(leaves, k).Some?
      ensures k in m ==> m[k] == Merged(leaves, k).value && k in Keys(entries)
    {
      Collected(leaves, k);
      if k in m {
        MergedIsUnder(leaves, Keys(entries), k);
      }
    }
    assert n.Keys == Flattened(members).Keys;
    forall k <- n
      ensures n[k] == Flattened(members)[k]
    {
    }
  }

  /** Flatten a document. */
  method FlattenDocument(members: seq<Member>) returns (obj: map<Key, Value>)
    ensures obj == Flattened(members)
  {
    hide Filled, InsertAll, Leaves, Entries, Flattened;
    var f := new Flattener();
    f.InsertObject(None, members);
    obj := f.baseJson;
    var all := f.allEntries;
    FilledNone(obj);
    for i := 0 to |all|
      invariant Filled(f.baseJson, all[..i], obj)
      invariant f.baseJson == InsertAll(map[], Leaves(None, members)) && all == Entries(None, members)
    {
      assert all[..i + 1] == all[..i] + [all[i]];
      FilledMore(f.baseJson, all[..i], all[i], obj);
      if all[i].key !in obj {
        obj := obj[all[i].key := all[i].value];
      }
    }
    assert all[..|all|] == all;
    FilledIsFlattened(members, obj);
  }

  lemma FilledNone(m: map<Key, Value>)
    ensures Filled(m, [], m)
  {
  }
}

/**
 Where the keys and the scalars of a flattened document come from.

 A path is the names on the way to a member, through objects; arrays on the way do not count.
*/
module FlattenPaths {
  import opened Wrappers
  import opened Bytes
  import opened Json
  import opened Flatten
  import opened FlattenLaws
  import opened FlattenTwice

  /** The names of a path, with dots between them. */
  function Dotted(path: seq<Key>): Key {
    if path == [] then []
    else if |path| == 1 then path[0]
    else path[0] + [0x2E] + Dotted(path[1..])
  }

  /** The member at a path has the value `v`. */
  ghost predicate At(members: seq<Member>, path: seq<Key>, v: Value)
    decreases members, 1
  {
    path != [] && exists m <- members :: m.name == path[0] && Below(m.value, path[1..], v)
  }

  /** `v` is what stands at a path inside of a value: the value itself, or behind the objects in its arrays. */
  ghost predicate Below(value: Value, path: seq<Key>, v: Value)
    decreases value, 0
  {
    if path == [] then v == value
    else
      match value
      case Object(members) => At(members, path, v)
      case Array(items) => exists item <- items :: Below(item, path, v)
      case _ => false
  }

  /** A scalar, or one in an array, or in an array of that array. */
  ghost predicate Holds(value: Value, v: Value) {
    v == value || (value.Array? && exists item <- value.items :: Holds(item, v))
  }

  function KeyAt(base: Option<Key>, path: seq<Key>): Key {
    if base.Some? then base.value + [0x2E] + Dotted(path) else Dotted(path)
  }

  lemma KeyCons(base: Option<Key>, name: Key, path: seq<Key>)
    ensures KeyAt(base, [name]) == Join(base, name)
    ensures path != [] ==> KeyAt(base, [name] + path) == KeyAt(Some(Join(base, name)), path)
  {
    assert ([name] + path)[1..] == path;
    if path != [] && base.Some? {
      assert base.value + [0x2E] + (name + [0x2E] + Dotted(path)) == base.value + [0x2E] + name + [0x2E] + Dotted(path);
    }
  }

  // Every entry has a path

  lemma {:induction false} PathOfMember(base: Option<Key>, members: seq<Member>, e: Entry) returns (path: seq<Key>)
    requires e in Entries(base, members)
    ensures path != [] && KeyAt(base, path) == e.key && At(members, path, e.value)
    decreases members
  {
    var first, key := members[0], Join(base, members[0].name);
    if e == Entry(key, first.value) {
      path := [first.name];
      KeyCons(base, first.name, []);
    } else if e in ValueEntries(key, first.value) {
      var inner := PathOfValue(key, first.value, e);
      path := [first.name] + inner;
      KeyCons(base, first.name, inner);
      assert path[1..] == inner && Below(first.value, path[1..], e.value);
    } else {
      path := PathOfMember(base, members[1..], e);
      AtMore(members, path, e.value);
    }
  }

  lemma AtMore(members: seq<Member>, path: seq<Key>, v: Value)
    requires members != [] && At(members[1..], path, v)
    ensures At(members, path, v)
  {
    var m :| m in members[1..] && m.name == path[0] && Below(m.value, path[1..], v);
    assert m in members;
  }

  lemma {:induction false} PathOfValue(key: Key, value: Value, e: Entry) returns (path: seq<Key>)
    requires e in ValueEntries(key, value)
    ensures path != [] && KeyAt(Some(key), path) == e.key && Below(value, path, e.value)
    decreases value
  {
    if value.Array? {
      path := PathOfItem(key, value.items, e);
    } else {
      path := PathOfMember(Some(key), value.members, e);
    }
  }

  lemma {:induction false} PathOfItem(key: Key, items: seq<Value>, e: Entry) returns (path: seq<Key>)
    requires e in ItemEntries(key, items)
    ensures path != [] && KeyAt(Some(key), path) == e.key && exists item <- items :: Below(item, path, e.value)
    decreases items
  {
    if e in ValueEntries(key, items[0]) {
      path := PathOfValue(key, items[0], e);
      assert items[0] in items;
    } else {
      path := PathOfItem(key, items[1..], e);
      var item :| item in items[1..] && Below(item, path, e.value);
      assert item in items;
    }
  }

  // Every path has an entry

  lemma {:induction false} MemberEntry(base: Option<Key>, members: seq<Member>, path: seq<Key>, v: Value)
    requires At(members, path, v)
    ensures Entry(KeyAt(base, path), v) in Entries(base, members)
    decreases members
  {
    var first, key := members[0], Join(base, members[0].name);
    if first.name == path[0] && Below(first.value, path[1..], v) {
      assert path == [first.name] + path[1..];
      KeyCons(base, first.name, path[1..]);
      if |path| > 1 {
        ValueEntry(key, first.value, path[1..], v);
      } else {
        assert path == [first.name];
      }
    } else {
      var m :| m in members && m.name == path[0] && Below(m.value, path[1..], v);
      assert m in members[1..];
      MemberEntry(base, members[1..], path, v);
    }
  }

  lemma {:induction false} ValueEntry(key: Key, value: Value, path: seq<Key>, v: Value)
    requires path != [] && Below(value, path, v)
    ensures Entry(KeyAt(Some(key), path), v) in ValueEntries(key, value)
    decreases value
  {
    if value.Array? {
      ItemEntry(key, value.items, path, v);
    } else {
      MemberEntry(Some(key), value.members, path, v);
    }
  }

  lemma {:induction false} ItemEntry(key: Key, items: seq<Value>, path: seq<Key>, v: Value)
    requires path != [] && exists item <- items :: Below(item, path, v)
    ensures Entry(KeyAt(Some(key), path), v) in ItemEntries(key, items)
    decreases items
  {
    if Below(items[0], path, v) {
      ValueEntry(key, items[0], path, v);
    } else {
      var item :| item in items && Below(item, path, v);
      assert item in items[1..];
      ItemEntry(key, items[1..], path, v);
    }
  }

  /** The entries of a document are its members, each under its dotted path. */
  lemma EntriesExactly(members: seq<Member>, key: Key, v: Value)
    ensures Entry(key, v) in Entries(None, members) <==> exists path :: Dotted(path) == key && At(members, path, v)
  {
    hide Entries, At;
    if Entry(key, v) in Entries(None, members) {
      var path := PathOfMember(None, members, Entry(key, v));
      assert KeyAt(None, path) == Dotted(path);
    }
    if exists path :: Dotted(path) == key && At(members, path, v) {
      var path :| Dotted(path) == key && At(members, path, v);
      MemberEntry(None, members, path, v);
      assert KeyAt(None, path) == Dotted(path);
    }
  }

  // Leaves

  lemma {:induction false} LeafOfMembers(base: Option<Key>, members: seq<Member>, l: Leaf) returns (e: Entry)
    requires l in Leaves(base, members)
    ensures e in Entries(base, members) && e.key == l.key && Holds(e.value, l.value)
    decreases members
  {
    var key, v := Join(base, members[0].name), members[0].value;
    if l in MemberLeaves(key, v) {
      var own;
      own, e := LeafOfValue(key, v, l);
      if own {
        e := Entry(key, v);
      }
    } else {
      e := LeafOfMembers(base, members[1..], l);
    }
  }

  /** A scalar is held by the value, or by the value of an entry inside of it. */
  lemma {:induction false} LeafOfValue(key: Key, v: Value, l: Leaf) returns (own: bool, e: Entry)
    requires l in MemberLeaves(key, v) || l in ItemLeavesOf(key, v)
    ensures own ==> l.key == key && Holds(v, l.value)
    ensures !own ==> e in ValueEntries(key, v) && e.key == l.key && Holds(e.value, l.value)
    decreases v
  {
    e := Entry(key, v);
    if v.Array? {
      own, e := LeafOfItems(key, v.items, l);
    } else if v.Object? {
      own := false;
      e := LeafOfMembers(Some(key), v.members, l);
    } else {
      own := true;
    }
  }

  lemma {:induction false} LeafOfItems(key: Key, items: seq<Value>, l: Leaf) returns (own: bool, e: Entry)
    requires l in ItemLeaves(key, items)
    ensures own ==> l.key == key && exists item <- items :: Holds(item, l.value)
    ensures !own ==> e in ItemEntries(key, items) && e.key == l.key && Holds(e.value, l.value)
    decreases items
  {
    if l in ItemLeavesOf(key, items[0]) {
      own, e := LeafOfValue(key, items[0], l);
      assert items[0] in items;
    } else {
      own, e := LeafOfItems(key, items[1..], l);
      if own {
        var item :| item in items[1..] && Holds(item, l.value);
        assert item in items;
      }
    }
  }

  lemma {:induction false} HeldIsLeaf(key: Key, value: Value, v: Value)
    requires IsScalar(v) && Holds(value, v)
    ensures exists l <- MemberLeaves(key, value) :: l.key == key && l.value == v
    ensures exists l <- ItemLeavesOf(key, value) :: l.key == key && l.value == v
    decreases value
  {
    if value == v {
      assert Leaf(key, v, false) in MemberLeaves(key, value) && Leaf(key, v, true) in ItemLeavesOf(key, value);
    } else {
      HeldInItems(key, value.items, v);
    }
  }

  lemma {:induction false} HeldInItems(key: Key, items: seq<Value>, v: Value)
    requires IsScalar(v) && exists item <- items :: Holds(item, v)
    ensures exists l <- ItemLeaves(key, items) :: l.key == key && l.value == v
    decreases items
  {
    if Holds(items[0], v) {
      HeldIsLeaf(key, items[0], v);
      var l :| l in ItemLeavesOf(key, items[0]) && l.key == key && l.value == v;
      assert l in ItemLeaves(key, items);
    } else {
      var item :| item in items && Holds(item, v);
      assert item in items[1..];
      HeldInItems(key, items[1..], v);
      var l :| l in ItemLeaves(key, items[1..]) && l.key == key && l.value == v;
      assert l in ItemLeaves(key, items);
    }
  }

  lemma {:induction false} SeenLeaves(leaves: seq<Leaf>, key: Key, v: Value)
    ensures v in LeavesAt(leaves, key) <==> exists l <- leaves :: l.key == key && l.value == v
  {
    if leaves != [] {
      var rest, last := leaves[..|leaves| - 1], leaves[|leaves| - 1];
      assert leaves == rest + [last];
      SeenLeaves(rest, key, v);
    }
  }

  /** The scalars collected under a key are those held by the members whose path it is. */
  lemma LeavesExactly(members: seq<Member>, key: Key, v: Value)
    requires IsScalar(v)
    ensures v in LeavesAt(Leaves(None, members), key)
       <==> exists path, w :: Dotted(path) == key && At(members, path, w) && Holds(w, v)
  {
    hide Entries, At, Leaves, LeavesAt, MemberLeaves, Holds;
    SeenLeaves(Leaves(None, members), key, v);
    if v in LeavesAt(Leaves(None, members), key) {
      var l :| l in Leaves(None, members) && l.key == key && l.value == v;
      var e := LeafOfMembers(None, members, l);
      EntriesExactly(members, key, e.value);
      var path :| Dotted(path) == key && At(members, path, e.value);
    }
    if exists path, w :: Dotted(path) == key && At(members, path, w) && Holds(w, v) {
      var path, w :| Dotted(path) == key && At(members, path, w) && Holds(w, v);
      MemberEntry(None, members, path, w);
      assert KeyAt(None, path) == key;
      WithinMembers(None, members, Entry(key, w));
      HeldIsLeaf(key, w, v);
      var l :| l in MemberLeaves(key, w) && l.key == key && l.value == v;
    }
  }

  /** So a key of the flattened document is the dotted path of a member, and every such path is a key. */
  lemma KeysExactly(members: seq<Member>, key: Key)
    ensures key in Flattened(members) <==> exists path, v :: Dotted(path) == key && At(members, path, v)
  {
    hide Entries, At, Leaves;
    if key in Flattened(members) {
      var e :| e in Entries(None, members) && e.key == key;
      EntriesExactly(members, key, e.value);
      var path :| Dotted(path) == key && At(members, path, e.value);
    }
    if exists path, v :: Dotted(path) == key && At(members, path, v) {
      var path, v :| Dotted(path) == key && At(members, path, v);
      MemberEntry(None, members, path, v);
      assert KeyAt(None, path) == key;
      assert Entry(key, v) in Entries(None, members);
    }
  }

  // The order

  /** The values under a key stand in the order of the document: members first to last, and items first to last. */
  lemma DocumentOrder(a: seq<Member>, b: seq<Member>, name: Key, xs: seq<Value>, ys: seq<Value>, key: Key)
    ensures LeavesAt(Leaves(None, a + b), key) == LeavesAt(Leaves(None, a), key) + LeavesAt(Leaves(None, b), key)
    ensures LeavesAt(Leaves(None, [Member(name, Array(xs + ys))]), key)
         == LeavesAt(Leaves(None, [Member(name, Array(xs))]), key) + LeavesAt(Leaves(None, [Member(name, Array(ys))]), key)
  {
    hide LeavesAt;
    PartsAppend(None, a, b);
    LeavesAppend(Leaves(None, a), Leaves(None, b), key);
    ItemsAppend(name, xs, ys);
    LeavesAppend(ItemLeaves(name, xs), ItemLeaves(name, ys), key);
    ArrayAlone(name, xs + ys);
    ArrayAlone(name, xs);
    ArrayAlone(name, ys);
  }

  lemma ArrayAlone(name: Key, items: seq<Value>)
    ensures Leaves(None, [Member(name, Array(items))]) == ItemLeaves(name, items)
  {
    assert [Member(name, Array(items))][1..] == [];
  }

  lemma {:induction false} ItemsAppend(key: Key, xs: seq<Value>, ys: seq<Value>)
    ensures ItemLeaves(key, xs + ys) == ItemLeaves(key, xs) + ItemLeaves(key, ys)
    decreases |xs|
  {
    if xs == [] {
      assert xs + ys == ys;
    } else {
      assert (xs + ys)[1..] == xs[1..] + ys;
      ItemsAppend(key, xs[1..], ys);
    }
  }

  /** A key that only whole values stand for keeps the first of them. */
  lemma FirstIsKept(a: seq<Member>, b: seq<Member>, key: Key)
    requires key in Flattened(a) && LeavesAt(Leaves(None, a + b), key) == []
    ensures key in Flattened(a + b) && Flattened(a + b)[key] == Flattened(a)[key]
  {
    hide LeavesAt, FirstEntry, FirstLeaf, Keys;
    PartsAppend(None, a, b);
    KeysAppend(Entries(None, a), Entries(None, b));
    EntriesAppend(Entries(None, a), Entries(None, b), key);
    LeavesAppend(Leaves(None, a), Leaves(None, b), key);
    FirstEntryKeys(Entries(None, a), key);
    NoLeaves(Leaves(None, a + b), key);
    NoLeaves(Leaves(None, a), key);
  }

  lemma {:induction false} NoLeaves(leaves: seq<Leaf>, key: Key)
    ensures LeavesAt(leaves, key) == [] <==> FirstLeaf(leaves, key).None?
  {
    if leaves != [] {
      NoLeaves(leaves[..|leaves| - 1], key);
    }
  }
}

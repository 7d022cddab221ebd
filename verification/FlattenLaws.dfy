/**
 Which documents flattening leaves alone: exactly the settled ones.
*/
module FlattenLaws {
  import opened Wrappers
  import opened Bytes
  import opened Json
  import opened Flatten

  predicate IsFlatValue(v: Value) {
    IsScalar(v) || (v.Array? && forall item <- v.items :: IsScalar(item))
  }

  predicate DistinctNames(members: seq<Member>) {
    forall i, j | 0 <= i < j < |members| :: members[i].name != members[j].name
  }

  /** Distinct names, scalars and arrays of scalars. */
  predicate IsFlat(members: seq<Member>) {
    && DistinctNames(members)
    && (forall i | 0 <= i < |members| :: IsFlatValue(members[i].value))
  }

  /** No scalar anywhere in the value of the member. */
  predicate Leafless(member: Member) {
    MemberLeaves(member.name, member.value) == []
  }

  function Names(members: seq<Member>): set<Key> {
    set member <- members :: member.name
  }

  /** Members that leave nothing under the name of another one. */
  predicate KeepsToItself(members: seq<Member>) {
    forall i | 0 <= i < |members| :: IsFlatValue(members[i].value) || Leafless(members[i])
  }

  /**
   What a document must be to survive flattening: its values are flat or hold no scalar, its nested
   members are also listed under their dotted names, and a member without scalars is not preceded by
   another value for its name.
  */
  ghost predicate IsSettled(members: seq<Member>) {
    && KeepsToItself(members)
    && Keys(Entries(None, members)) <= Names(members)
    && forall j | 0 <= j < |members| && Leafless(members[j]) ::
      FirstEntry(Entries(None, members[..j]), members[j].name) in {None, Some(members[j].value)}
  }

  /** `m` has the names of the members, each with its value. */
  ghost predicate Describes(m: map<Key, Value>, members: seq<Member>) {
    && m.Keys == Names(members)
    && (forall i | 0 <= i < |members| :: members[i].name in m && m[members[i].name] == members[i].value)
  }

  // Leaves and entries of parts

  lemma {:induction false} LeavesAppend(a: seq<Leaf>, b: seq<Leaf>, key: Key)
    ensures LeavesAt(a + b, key) == LeavesAt(a, key) + LeavesAt(b, key)
    ensures FirstLeaf(a + b, key) == if FirstLeaf(a, key).Some? then FirstLeaf(a, key) else FirstLeaf(b, key)
  {
    if b == [] {
      assert a + b == a;
    } else {
      var rest, l := b[..|b| - 1], b[|b| - 1];
      assert a + b == a + rest + [l] && b == rest + [l];
      LeavesAppend(a, rest, key);
      AtSnoc(a + rest, l, key);
      AtSnoc(rest, l, key);
    }
  }

  lemma LeafAlone(l: Leaf, key: Key)
    ensures LeavesAt([l], key) == if l.key == key then [l.value] else []
    ensures FirstLeaf([l], key) == if l.key == key then Some(l) else None
  {
    assert [] + [l] == [l];
    AtSnoc([], l, key);
  }

  /** An array of scalars gives back its elements. */
  lemma {:induction false} ItemsBack(name: Key, items: seq<Value>, key: Key)
    requires forall item <- items :: IsScalar(item)
    ensures LeavesAt(ItemLeaves(name, items), key) == if name == key then items else []
    ensures FirstLeaf(ItemLeaves(name, items), key)
         == if name == key && items != [] then Some(Leaf(name, items[0], true)) else None
  {
    hide LeavesAt, FirstLeaf;
    if items == [] {
      NoLeaves(key);
    } else {
      assert items[0] in items && forall item <- items[1..] :: item in items;
      ItemsBack(name, items[1..], key);
      LeavesAppend(ItemLeavesOf(name, items[0]), ItemLeaves(name, items[1..]), key);
      LeafAlone(Leaf(name, items[0], true), key);
    }
  }

  /** What a flat member leaves under a key: nothing, unless it is its own. */
  lemma MemberBack(name: Key, v: Value, key: Key)
    requires IsFlatValue(v)
    ensures name != key ==> LeavesAt(MemberLeaves(name, v), key) == [] && FirstLeaf(MemberLeaves(name, v), key).None?
    ensures Merged(MemberLeaves(name, v), name) == if v == Value.Array([]) then None else Some(v)
  {
    hide LeavesAt, FirstLeaf;
    if v.Array? {
      ItemsBack(name, v.items, key);
      ItemsBack(name, v.items, name);
    } else {
      LeafAlone(Leaf(name, v, false), key);
      LeafAlone(Leaf(name, v, false), name);
    }
  }

  lemma {:induction false} NoItemEntries(key: Key, items: seq<Value>)
    requires forall item <- items :: IsScalar(item)
    ensures ItemEntries(key, items) == []
  {
    if items != [] {
      assert items[0] in items && forall item <- items[1..] :: item in items;
      NoItemEntries(key, items[1..]);
    }
  }

  lemma {:induction false} FirstEntryIsThere(entries: seq<Entry>, key: Key)
    ensures FirstEntry(entries, key).Some? ==> Entry(key, FirstEntry(entries, key).value) in entries
  {
    if entries != [] {
      var rest := entries[..|entries| - 1];
      FirstEntryIsThere(rest, key);
      assert forall e <- rest :: e in entries;
    }
  }

  lemma {:induction false} EntriesAppend(a: seq<Entry>, b: seq<Entry>, key: Key)
    ensures FirstEntry(a + b, key) == if FirstEntry(a, key).Some? then FirstEntry(a, key) else FirstEntry(b, key)
  {
    if b == [] {
      assert a + b == a;
    } else {
      var rest := b[..|b| - 1];
      assert (a + b)[..|a + b| - 1] == a + rest;
      EntriesAppend(a, rest, key);
    }
  }

  lemma EntryAlone(e: Entry, key: Key)
    ensures FirstEntry([e], key) == if e.key == key then Some(e.value) else None
  {
    assert [e][..0] == [];
  }

  lemma {:induction false} PartsAppend(base: Option<Key>, a: seq<Member>, b: seq<Member>)
    ensures Leaves(base, a + b) == Leaves(base, a) + Leaves(base, b)
    ensures Entries(base, a + b) == Entries(base, a) + Entries(base, b)
    decreases |a|
  {
    if a == [] {
      assert a + b == b;
    } else {
      assert (a + b)[1..] == a[1..] + b;
      PartsAppend(base, a[1..], b);
    }
  }

  /** The document around one of its members. */
  lemma AroundMember(members: seq<Member>, i: nat)
    requires i < |members|
    ensures
      var name, v := members[i].name, members[i].value;
      && Leaves(None, members)
      == Leaves(None, members[..i]) + (MemberLeaves(name, v) + Leaves(None, members[i + 1..]))
      && Entries(None, members)
      == Entries(None, members[..i]) + ([Entry(name, v)] + (ValueEntries(name, v) + Entries(None, members[i + 1..])))
  {
    hide Leaves, Entries, MemberLeaves, ValueEntries;
    assert members == members[..i] + members[i..];
    PartsAppend(None, members[..i], members[i..]);
    MembersStep(None, members, i);
    assert Join(None, members[i].name) == members[i].name;
  }

  lemma EntriesAround(members: seq<Member>, i: nat, key: Key)
    requires i < |members|
    ensures
      var earlier := FirstEntry(Entries(None, members[..i]), key);
      var name, v := members[i].name, members[i].value;
      && (earlier.Some? ==> FirstEntry(Entries(None, members), key) == earlier)
      && (earlier.None? && name == key ==> FirstEntry(Entries(None, members), key) == Some(v))
      && (earlier.None? && name != key && FirstEntry(ValueEntries(name, v), key).Some?
          ==> FirstEntry(Entries(None, members), key) == FirstEntry(ValueEntries(name, v), key))
  {
    hide Entries, ValueEntries, FirstEntry;
    var name, v := members[i].name, members[i].value;
    AroundMember(members, i);
    var tail := ValueEntries(name, v) + Entries(None, members[i + 1..]);
    EntriesAppend(Entries(None, members[..i]), [Entry(name, v)] + tail, key);
    EntriesAppend([Entry(name, v)], tail, key);
    EntriesAppend(ValueEntries(name, v), Entries(None, members[i + 1..]), key);
    EntryAlone(Entry(name, v), key);
  }

  lemma OwnEntry(members: seq<Member>, i: nat)
    requires i < |members|
    ensures members[i].name in Keys(Entries(None, members))
  {
    hide Entries, FirstEntry, ValueEntries;
    EntriesAround(members, i, members[i].name);
    FirstEntryKeys(Entries(None, members), members[i].name);
  }

  lemma LeavesAround(members: seq<Member>, i: nat, key: Key)
    requires i < |members|
    ensures LeavesAt(Leaves(None, members), key)
         == LeavesAt(Leaves(None, members[..i]), key)
          + (LeavesAt(MemberLeaves(members[i].name, members[i].value), key)
             + LeavesAt(Leaves(None, members[i + 1..]), key))
  {
    hide Leaves, MemberLeaves, LeavesAt;
    AroundMember(members, i);
    var own, after := MemberLeaves(members[i].name, members[i].value), Leaves(None, members[i + 1..]);
    LeavesAppend(Leaves(None, members[..i]), own + after, key);
    LeavesAppend(own, after, key);
  }

  /** Two members each leave their share under a key. */
  lemma TwoShares(members: seq<Member>, i: nat, j: nat, key: Key)
    requires i < j < |members|
    ensures |LeavesAt(Leaves(None, members), key)|
         >= |LeavesAt(MemberLeaves(members[i].name, members[i].value), key)|
          + |LeavesAt(MemberLeaves(members[j].name, members[j].value), key)|
  {
    hide Leaves, MemberLeaves, LeavesAt;
    LeavesAround(members, i, key);
    assert members[i + 1..][j - i - 1] == members[j];
    LeavesAround(members[i + 1..], j - i - 1, key);
  }

  lemma {:induction false} LeafIsSeen(leaves: seq<Leaf>, l: Leaf)
    requires l in leaves
    ensures LeavesAt(leaves, l.key) != []
  {
    if leaves[|leaves| - 1] != l {
      LeafIsSeen(leaves[..|leaves| - 1], l);
    }
  }

  lemma {:induction false} ScalarsAt(leaves: seq<Leaf>, key: Key)
    requires AllScalars(leaves)
    ensures forall v <- LeavesAt(leaves, key) :: IsScalar(v)
  {
    if leaves != [] {
      assert leaves[|leaves| - 1] in leaves && forall l <- leaves[..|leaves| - 1] :: l in leaves;
      ScalarsAt(leaves[..|leaves| - 1], key);
    }
  }

  // Settled documents are fixed

  lemma OtherMember(member: Member, key: Key)
    requires IsFlatValue(member.value) || Leafless(member)
    requires member.name != key
    ensures LeavesAt(MemberLeaves(member.name, member.value), key) == []
    ensures FirstLeaf(MemberLeaves(member.name, member.value), key).None?
  {
    hide LeavesAt, FirstLeaf, MemberLeaves, IsFlatValue;
    if Leafless(member) {
      NoLeaves(key);
    } else {
      MemberBack(member.name, member.value, key);
    }
  }

  /** Nobody else's leaves are under the name of a member. */
  lemma {:induction false} OthersLeaveNothing(members: seq<Member>, key: Key)
    requires KeepsToItself(members) && forall i | 0 <= i < |members| :: members[i].name != key
    ensures LeavesAt(Leaves(None, members), key) == [] && FirstLeaf(Leaves(None, members), key).None?
    decreases |members|
  {
    hide LeavesAt, FirstLeaf, MemberLeaves, IsFlatValue, Leafless;
    if members == [] {
      NoLeaves(key);
    } else {
      assert KeepsToItself(members[1..]) by {
        assert forall i | 0 <= i < |members| - 1 :: members[1..][i] == members[i + 1];
      }
      OthersLeaveNothing(members[1..], key);
      OtherMember(members[0], key);
      LeavesAppend(MemberLeaves(members[0].name, members[0].value), Leaves(None, members[1..]), key);
    }
  }

  lemma OwnLeaves(members: seq<Member>, i: nat)
    requires KeepsToItself(members) && DistinctNames(members) && i < |members|
    ensures
      var own := MemberLeaves(members[i].name, members[i].value);
      && LeavesAt(Leaves(None, members), members[i].name) == LeavesAt(own, members[i].name)
      && FirstLeaf(Leaves(None, members), members[i].name) == FirstLeaf(own, members[i].name)
  {
    hide LeavesAt, FirstLeaf, Leaves, MemberLeaves, IsFlatValue, Leafless;
    var key := members[i].name;
    var before, own, after := members[..i], MemberLeaves(key, members[i].value), members[i + 1..];
    assert KeepsToItself(before) && KeepsToItself(after);
    AroundMember(members, i);
    OthersLeaveNothing(before, key);
    OthersLeaveNothing(after, key);
    LeavesAppend(Leaves(None, before), own + Leaves(None, after), key);
    LeavesAppend(own, Leaves(None, after), key);
  }

  /** Under the name of a member stands its own value. */
  lemma OwnValue(members: seq<Member>, j: nat)
    requires KeepsToItself(members) && DistinctNames(members) && j < |members|
    requires !Leafless(members[j])
    ensures Merged(Leaves(None, members), members[j].name) == Some(members[j].value)
  {
    hide LeavesAt, FirstLeaf, Leaves, MemberLeaves;
    OwnLeaves(members, j);
    MemberBack(members[j].name, members[j].value, members[j].name);
    if members[j].value == Value.Array([]) {
      NoScalars(members[j].name);
    }
  }

  lemma NoScalars(name: Key)
    ensures MemberLeaves(name, Value.Array([])) == []
  {
  }

  /** Without scalars, the first value found for the name is kept. */
  lemma KeptValue(members: seq<Member>, j: nat)
    requires KeepsToItself(members) && DistinctNames(members) && j < |members|
    requires Leafless(members[j])
    ensures Merged(Leaves(None, members), members[j].name) == None
  {
    hide LeavesAt, FirstLeaf, Leaves, MemberLeaves, IsFlatValue;
    OwnLeaves(members, j);
    NoLeaves(members[j].name);
  }

  lemma NamesThere(members: seq<Member>, i: nat)
    requires i < |members|
    ensures members[i].name in Names(members)
  {
    assert members[i] in members;
  }

  lemma NameOf(members: seq<Member>, name: Key) returns (i: nat)
    requires name in Names(members)
    ensures i < |members| && members[i].name == name
  {
    var member :| member in members && member.name == name;
    i :| 0 <= i < |members| && members[i] == member;
  }

  lemma NamesAreKeys(members: seq<Member>)
    ensures Names(members) <= Keys(Entries(None, members))
  {
    hide Entries, Names, Keys;
    forall name | name in Names(members)
      ensures name in Keys(Entries(None, members))
    {
      var i := NameOf(members, name);
      OwnEntry(members, i);
    }
  }

  lemma SettledIsFixed(members: seq<Member>)
    requires DistinctNames(members) && IsSettled(members)
    ensures Describes(Flattened(members), members)
  {
    hide FirstEntry, Entries, LeavesAt, FirstLeaf, Leaves, MemberLeaves, Merged, Keys, Names;
    hide IsFlatValue, Leafless, KeepsToItself, DistinctNames;
    var m := Flattened(members);
    NamesAreKeys(members);
    assert m.Keys == Names(members);
    forall j | 0 <= j < |members|
      ensures members[j].name in m && m[members[j].name] == members[j].value
    {
      NamesThere(members, j);
      if Leafless(members[j]) {
        KeptValue(members, j);
        EntriesAround(members, j, members[j].name);
      } else {
        OwnValue(members, j);
      }
    }
  }

  // Fixed documents are settled

  lemma FixedKeeps(members: seq<Member>, i: nat)
    requires DistinctNames(members) && i < |members|
    requires Describes(Flattened(members), members)
    ensures IsFlatValue(members[i].value) || Leafless(members[i])
  {
    hide FirstEntry, Entries, LeavesAt, FirstLeaf, Leaves, MemberLeaves, Keys, Names, ValueEntries, Merged, IsFlatValue;
    var name, v := members[i].name, members[i].value;
    var own, leaves := MemberLeaves(name, v), Leaves(None, members);
    if own != [] {
      var l := own[0];
      LeafIsSeen(own, l);
      LeavesAround(members, i, l.key);
      LeafyKey(members, l.key);
      var j := NameOf(members, l.key);
      if i != j && !IsFlatValue(v) {
        TwoShares(members, if i < j then i else j, if i < j then j else i, l.key);
        SharesTell(members, j);
      }
    }
  }

  /** A key with leaves is one of the flattened document, with a flat value. */
  lemma LeafyKey(members: seq<Member>, key: Key)
    requires LeavesAt(Leaves(None, members), key) != []
    ensures key in Flattened(members) && Merged(Leaves(None, members), key) == Some(Flattened(members)[key])
    ensures IsFlatValue(Flattened(members)[key])
  {
    hide FirstEntry, Entries, LeavesAt, FirstLeaf, Leaves, Keys;
    var leaves := Leaves(None, members);
    FirstIsFirst(leaves, key);
    LeavesUnderEntries(None, members);
    MergedIsUnder(leaves, Keys(Entries(None, members)), key);
    LeavesAreScalars(None, members);
    ScalarsAt(leaves, key);
  }

  /** A flat value that flattening gives back has all the leaves of its name. */
  lemma SharesTell(members: seq<Member>, j: nat)
    requires j < |members| && LeavesAt(Leaves(None, members), members[j].name) != []
    requires Merged(Leaves(None, members), members[j].name) == Some(members[j].value)
    requires IsFlatValue(members[j].value)
    ensures |LeavesAt(MemberLeaves(members[j].name, members[j].value), members[j].name)|
         == |LeavesAt(Leaves(None, members), members[j].name)|
  {
    hide LeavesAt, FirstLeaf, Leaves, MemberLeaves;
    var name, v := members[j].name, members[j].value;
    var own, leaves := MemberLeaves(name, v), Leaves(None, members);
    MemberBack(name, v, name);
    FirstIsFirst(own, name);
    FirstIsFirst(leaves, name);
    MemberLeavesAreScalars(name, v);
    LeavesAreScalars(None, members);
    ScalarsAt(own, name);
    ScalarsAt(leaves, name);
    var all := LeavesAt(leaves, name);
    assert all[0] in all;
    assert v != Value.Array([]);
    var mine := LeavesAt(own, name);
    assert mine != [] && mine[0] in mine;
  }

  lemma FixedIsSettled(members: seq<Member>)
    requires DistinctNames(members) && Describes(Flattened(members), members)
    ensures IsSettled(members)
  {
    hide FirstEntry, Entries, LeavesAt, FirstLeaf, Leaves, MemberLeaves, Merged, Keys, Names;
    hide IsFlatValue, Leafless, DistinctNames;
    forall i | 0 <= i < |members|
      ensures IsFlatValue(members[i].value) || Leafless(members[i])
    {
      FixedKeeps(members, i);
    }
    assert KeepsToItself(members);
    forall j | 0 <= j < |members| && Leafless(members[j])
      ensures FirstEntry(Entries(None, members[..j]), members[j].name) in {None, Some(members[j].value)}
    {
      KeptValue(members, j);
      EntriesAround(members, j, members[j].name);
    }
    assert Flattened(members).Keys == Keys(Entries(None, members));
  }

  /** The documents that flattening leaves alone are the settled ones. */
  lemma FixedExactly(members: seq<Member>)
    requires DistinctNames(members)
    ensures Describes(Flattened(members), members) <==> IsSettled(members)
  {
    hide IsSettled, Describes, Flattened;
    if IsSettled(members) {
      SettledIsFixed(members);
    }
    if Describes(Flattened(members), members) {
      FixedIsSettled(members);
    }
  }

  lemma FlatHasNoEntries(name: Key, v: Value)
    requires IsFlatValue(v)
    ensures ValueEntries(name, v) == []
  {
    if v.Array? {
      NoItemEntries(name, v.items);
    }
  }

  lemma {:induction false} FlatEntries(members: seq<Member>)
    requires forall i | 0 <= i < |members| :: IsFlatValue(members[i].value)
    ensures Keys(Entries(None, members)) == Names(members)
    decreases |members|
  {
    if members != [] {
      hide Keys, Entries, ValueEntries, IsFlatValue;
      var first, rest := members[0], members[1..];
      FlatEntries(rest);
      FlatHasNoEntries(first.name, first.value);
      assert members[..0] == [];
      AroundMember(members, 0);
      NothingLeft(map[], None, members[..0]);
      KeysAppend([Entry(first.name, first.value)], Entries(None, rest));
      OneKey(Entry(first.name, first.value));
      assert members == [first] + rest;
      assert Names(members) == {first.name} + Names(rest);
    } else {
      assert Keys(Entries(None, [])) == {};
    }
  }

  lemma EarlierNames(members: seq<Member>, j: nat)
    requires DistinctNames(members) && j < |members|
    ensures members[j].name !in Names(members[..j])
  {
    forall member <- members[..j]
      ensures member.name != members[j].name
    {
      var i :| 0 <= i < j && members[..j][i] == member;
    }
  }

  /** Documents of scalars and arrays of scalars are settled, so they are fixed. */
  lemma FlatIsFixed(members: seq<Member>)
    requires IsFlat(members)
    ensures Describes(Flattened(members), members)
  {
    hide FirstEntry, Entries, Leafless, Keys, Names, Flattened, Describes;
    FlatEntries(members);
    forall j | 0 <= j < |members|
      ensures FirstEntry(Entries(None, members[..j]), members[j].name) == None
    {
      FlatEntries(members[..j]);
      FirstEntryKeys(Entries(None, members[..j]), members[j].name);
      EarlierNames(members, j);
    }
    FixedExactly(members);
  }
}

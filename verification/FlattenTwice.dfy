/**
 When flattening twice is flattening once.

 The flattened document is a map; to flatten it again its members are listed, in any order.  A key
 that holds scalars holds nothing else, and comes back as it is.  Every other key keeps its first
 value whole, beside the members found inside that value, and this is what can go wrong.
*/
module FlattenTwice {
  import opened Wrappers
  import opened Bytes
  import opened Json
  import opened Flatten
  import opened FlattenLaws

  /** However the flattened document is listed, flattening it again changes nothing. */
  ghost predicate FlattensOnce(members: seq<Member>) {
    forall again: seq<Member> | DistinctNames(again) && Describes(Flattened(members), again) ::
      Flattened(again) == Flattened(members)
  }

  /** The key holds no scalar of the document, and `v` is the first value found for it. */
  predicate IsKeptWhole(members: seq<Member>, key: Key, v: Value) {
    LeavesAt(Leaves(None, members), key) == [] && FirstEntry(Entries(None, members), key) == Some(v)
  }

  /** What is kept whole holds no scalar, and agrees with what is kept for the keys inside of it. */
  ghost predicate KeepsConsistently(members: seq<Member>) {
    forall key, v | IsKeptWhole(members, key, v) ::
      && MemberLeaves(key, v) == []
      && forall inner, w | inner in Keys(ValueEntries(key, v)) && IsKeptWhole(members, inner, w) ::
        FirstEntry(ValueEntries(key, v), inner) == Some(w)
  }

  // What is inside of an entry

  ghost predicate Within(e: Entry, entries: seq<Entry>, leaves: seq<Leaf>) {
    && (forall x <- ValueEntries(e.key, e.value) :: x in entries)
    && (forall l <- MemberLeaves(e.key, e.value) :: l in leaves)
  }

  /** Whatever is inside of the value of an entry is found in the document. */
  lemma {:induction false} WithinMembers(base: Option<Key>, members: seq<Member>, e: Entry)
    requires e in Entries(base, members)
    ensures Within(e, Entries(base, members), Leaves(base, members))
    decreases members
  {
    var key, v := Join(base, members[0].name), members[0].value;
    if e == Entry(key, v) {
    } else if e in ValueEntries(key, v) {
      WithinValue(key, v, e);
    } else {
      WithinMembers(base, members[1..], e);
    }
  }

  lemma {:induction false} WithinValue(key: Key, v: Value, e: Entry)
    requires e in ValueEntries(key, v)
    ensures Within(e, ValueEntries(key, v), MemberLeaves(key, v))
    decreases v
  {
    if v.Array? {
      WithinItems(key, v.items, e);
    } else {
      WithinMembers(Some(key), v.members, e);
    }
  }

  lemma {:induction false} WithinItems(key: Key, items: seq<Value>, e: Entry)
    requires e in ItemEntries(key, items)
    ensures Within(e, ItemEntries(key, items), ItemLeaves(key, items))
    decreases items
  {
    if e in ValueEntries(key, items[0]) {
      WithinValue(key, items[0], e);
      assert MemberLeaves(key, items[0]) == ItemLeavesOf(key, items[0]);
    } else {
      WithinItems(key, items[1..], e);
    }
  }

  lemma {:induction false} LongerKeys(base: Key, members: seq<Member>, e: Entry)
    requires e in Entries(Some(base), members)
    ensures |e.key| > |base|
    decreases members
  {
    var key, v := Join(Some(base), members[0].name), members[0].value;
    assert |key| > |base|;
    if e in ValueEntries(key, v) {
      LongerValueKeys(key, v, e);
    } else if e != Entry(key, v) {
      LongerKeys(base, members[1..], e);
    }
  }

  /** A value does not occur under its own key. */
  lemma {:induction false} LongerValueKeys(key: Key, v: Value, e: Entry)
    requires e in ValueEntries(key, v)
    ensures |e.key| > |key|
    decreases v
  {
    if v.Array? {
      LongerItemKeys(key, v.items, e);
    } else {
      LongerKeys(key, v.members, e);
    }
  }

  lemma {:induction false} LongerItemKeys(key: Key, items: seq<Value>, e: Entry)
    requires e in ItemEntries(key, items)
    ensures |e.key| > |key|
    decreases items
  {
    if e in ValueEntries(key, items[0]) {
      LongerValueKeys(key, items[0], e);
    } else {
      LongerItemKeys(key, items[1..], e);
    }
  }

  lemma NotInside(key: Key, v: Value)
    ensures key !in Keys(ValueEntries(key, v))
  {
    forall e <- ValueEntries(key, v)
      ensures e.key != key
    {
      LongerValueKeys(key, v, e);
    }
  }

  /** The keys inside of a value that is kept whole are keys of the document, its scalars belong to the document. */
  lemma InsideKept(members: seq<Member>, key: Key, v: Value)
    requires FirstEntry(Entries(None, members), key) == Some(v)
    ensures Keys(ValueEntries(key, v)) <= Keys(Entries(None, members))
    ensures forall l <- MemberLeaves(key, v) :: l in Leaves(None, members)
  {
    hide Entries, Leaves, MemberLeaves, ValueEntries, FirstEntry;
    var entries := Entries(None, members);
    FirstEntryIsThere(entries, key);
    WithinMembers(None, members, Entry(key, v));
  }

  // Listings of the flattened document

  lemma DescribesOne(m: map<Key, Value>, n: map<Key, Value>, members: seq<Member>)
    requires Describes(m, members) && Describes(n, members)
    ensures m == n
  {
    hide Names;
    forall k | k in m
      ensures m[k] == n[k]
    {
      var i := NameOf(members, k);
      assert members[i].name == k;
    }
  }

  lemma {:induction false} Listing(m: map<Key, Value>) returns (members: seq<Member>)
    ensures DistinctNames(members) && Describes(m, members)
    decreases |m|
  {
    if m == map[] {
      members := [];
    } else {
      var key :| key in m;
      members := ListingFrom(m, key);
    }
  }

  /** The members can be listed with any of them first. */
  lemma {:induction false} ListingFrom(m: map<Key, Value>, key: Key) returns (members: seq<Member>)
    requires key in m
    ensures DistinctNames(members) && Describes(m, members)
    ensures members != [] && members[0] == Member(key, m[key])
    decreases |m|, 0
  {
    assert m.Keys == (m - {key}).Keys + {key};
    var rest := Listing(m - {key});
    members := [Member(key, m[key])] + rest;
    ListedFirst(m, key, rest);
  }

  lemma ListedFirst(m: map<Key, Value>, key: Key, rest: seq<Member>)
    requires key in m && DistinctNames(rest) && Describes(m - {key}, rest)
    ensures DistinctNames([Member(key, m[key])] + rest) && Describes(m, [Member(key, m[key])] + rest)
  {
    var members := [Member(key, m[key])] + rest;
    NamesFirst(Member(key, m[key]), rest);
    forall i | 0 <= i < |rest|
      ensures rest[i].name != key && rest[i].name in m && m[rest[i].name] == rest[i].value
    {
      assert rest[i].name in m - {key};
    }
    hide Names;
    forall i | 0 <= i < |members|
      ensures members[i].name in m && m[members[i].name] == members[i].value
    {
      assert i > 0 ==> members[i] == rest[i - 1];
    }
    assert m.Keys == (m - {key}).Keys + {key};
  }

  lemma NamesFirst(first: Member, rest: seq<Member>)
    ensures Names([first] + rest) == {first.name} + Names(rest)
  {
    var members := [first] + rest;
    assert members[0] == first && forall member <- rest :: member in members;
    forall name | name in Names(members)
      ensures name in {first.name} + Names(rest)
    {
      var i := NameOf(members, name);
      assert i > 0 ==> members[i] == rest[i - 1];
    }
  }

  lemma SettledAgain(members: seq<Member>, again: seq<Member>)
    requires DistinctNames(again) && Describes(Flattened(members), again)
    ensures Flattened(again) == Flattened(members) <==> IsSettled(again)
  {
    hide Flattened, IsSettled, Describes;
    FixedExactly(again);
    if IsSettled(again) {
      DescribesOne(Flattened(again), Flattened(members), again);
    }
  }

  /** A listed key: flat and with scalars, or kept whole. */
  lemma ListedMember(members: seq<Member>, again: seq<Member>, i: nat)
    requires Describes(Flattened(members), again) && i < |again|
    ensures
      var member := again[i];
      || (IsFlatValue(member.value) && !Leafless(member) && LeavesAt(Leaves(None, members), member.name) != [])
      || IsKeptWhole(members, member.name, member.value)
  {
    hide Names, FirstEntry, Entries, LeavesAt, FirstLeaf, Leaves, MemberLeaves, Keys, IsFlatValue;
    var name, v, leaves := again[i].name, again[i].value, Leaves(None, members);
    FirstIsFirst(leaves, name);
    if LeavesAt(leaves, name) != [] {
      LeafyKey(members, name);
      LeavesAreScalars(None, members);
      ScalarsAt(leaves, name);
      var all := LeavesAt(leaves, name);
      assert all[0] in all;
      MemberBack(name, v, name);
      NoLeaves(name);
    } else {
      FirstEntryKeys(Entries(None, members), name);
    }
  }

  // The condition is enough

  lemma {:induction false} KeysInside(members: seq<Member>, keys: set<Key>)
    requires forall i | 0 <= i < |members| ::
      members[i].name in keys && Keys(ValueEntries(members[i].name, members[i].value)) <= keys
    ensures Keys(Entries(None, members)) <= keys
  {
    hide Keys, ValueEntries;
    if members == [] {
      assert Keys(Entries(None, [])) == {} by {
        NoKeys();
      }
    } else {
      var member, rest := members[0], members[1..];
      assert forall i | 0 <= i < |rest| :: rest[i] == members[i + 1];
      KeysInside(rest, keys);
      var inside := ValueEntries(member.name, member.value);
      KeysAppend([Entry(member.name, member.value)] + inside, Entries(None, rest));
      KeysAppend([Entry(member.name, member.value)], inside);
      OneKey(Entry(member.name, member.value));
      assert Join(None, member.name) == member.name;
    }
  }

  lemma NoKeys()
    ensures Keys([]) == {} && forall key :: FirstEntry([], key) == None
  {
  }

  /** When all that is found under a key is `w`, the first is. */
  lemma {:induction false} OnlyValue(members: seq<Member>, key: Key, w: Value)
    requires forall i | 0 <= i < |members| ::
      members[i].name != key && FirstEntry(ValueEntries(members[i].name, members[i].value), key) in {None, Some(w)}
    ensures FirstEntry(Entries(None, members), key) in {None, Some(w)}
  {
    hide FirstEntry, ValueEntries;
    if members == [] {
      NoKeys();
    } else {
      var member, rest := members[0], members[1..];
      assert forall i | 0 <= i < |rest| :: rest[i] == members[i + 1];
      OnlyValue(rest, key, w);
      var inside := ValueEntries(member.name, member.value);
      EntriesAppend([Entry(member.name, member.value)] + inside, Entries(None, rest), key);
      EntriesAppend([Entry(member.name, member.value)], inside, key);
      EntryAlone(Entry(member.name, member.value), key);
      assert Join(None, member.name) == member.name;
    }
  }

  /** What a listed member holds inside, under a key without scalars. */
  lemma InsideListed(members: seq<Member>, again: seq<Member>, i: nat, key: Key, w: Value)
    requires KeepsConsistently(members) && Describes(Flattened(members), again) && i < |again|
    requires IsKeptWhole(members, key, w)
    ensures FirstEntry(ValueEntries(again[i].name, again[i].value), key) in {None, Some(w)}
  {
    hide Describes, IsKeptWhole, FirstEntry, ValueEntries, Keys, MemberLeaves, Leaves;
    var name, v := again[i].name, again[i].value;
    ListedMember(members, again, i);
    FirstEntryKeys(ValueEntries(name, v), key);
    if !IsKeptWhole(members, name, v) {
      FlatHasNoEntries(name, v);
      NoKeys();
    }
  }

  lemma ConsistentIsSettled(members: seq<Member>, again: seq<Member>)
    requires KeepsConsistently(members)
    requires DistinctNames(again) && Describes(Flattened(members), again)
    ensures IsSettled(again)
  {
    hide FirstEntry, Entries, ValueEntries, Leaves, MemberLeaves, LeavesAt, Keys, Names, IsFlatValue, Flattened;
    forall i | 0 <= i < |again|
      ensures IsFlatValue(again[i].value) || Leafless(again[i])
      ensures Leafless(again[i]) ==> IsKeptWhole(members, again[i].name, again[i].value)
      ensures again[i].name in Names(again)
      ensures Keys(ValueEntries(again[i].name, again[i].value)) <= Names(again)
    {
      ListedMember(members, again, i);
      NamesThere(again, i);
      InsideNames(members, again, i);
    }
    KeysInside(again, Names(again));
    forall j | 0 <= j < |again| && Leafless(again[j])
      ensures FirstEntry(Entries(None, again[..j]), again[j].name) in {None, Some(again[j].value)}
    {
      forall i | 0 <= i < j
        ensures again[i].name != again[j].name
        ensures FirstEntry(ValueEntries(again[i].name, again[i].value), again[j].name) in {None, Some(again[j].value)}
      {
        InsideListed(members, again, i, again[j].name, again[j].value);
      }
      OnlyValue(again[..j], again[j].name, again[j].value);
    }
  }

  lemma InsideNames(members: seq<Member>, again: seq<Member>, i: nat)
    requires Describes(Flattened(members), again) && i < |again|
    ensures Keys(ValueEntries(again[i].name, again[i].value)) <= Names(again)
  {
    hide Names, FirstEntry, Entries, LeavesAt, Leaves, MemberLeaves, Keys, IsFlatValue, ValueEntries;
    ListedMember(members, again, i);
    if IsKeptWhole(members, again[i].name, again[i].value) {
      InsideKept(members, again[i].name, again[i].value);
    } else {
      FlatHasNoEntries(again[i].name, again[i].value);
      NoKeys();
    }
  }

  // The condition is needed

  lemma KeptIsListed(members: seq<Member>, key: Key, v: Value)
    requires IsKeptWhole(members, key, v)
    ensures key in Flattened(members) && Flattened(members)[key] == v
  {
    hide FirstEntry, Entries, LeavesAt, FirstLeaf, Leaves, Keys;
    FirstIsFirst(Leaves(None, members), key);
    FirstEntryKeys(Entries(None, members), key);
  }

  /** Listed first, a value kept whole that holds a scalar would have its scalar found twice. */
  lemma KeptIsLeafless(members: seq<Member>, key: Key, v: Value)
    requires FlattensOnce(members) && IsKeptWhole(members, key, v)
    ensures MemberLeaves(key, v) == []
  {
    hide FirstEntry, Entries, LeavesAt, FirstLeaf, Leaves, MemberLeaves, Keys, IsFlatValue, Flattened, Describes;
    KeptIsListed(members, key, v);
    var again := ListingFrom(Flattened(members), key);
    SettledAgain(members, again);
    assert IsFlatValue(again[0].value) || Leafless(again[0]);
    if MemberLeaves(key, v) != [] {
      var l := MemberLeaves(key, v)[0];
      InsideKept(members, key, v);
      assert l in Leaves(None, members);
      FlatLeafKey(key, v, l);
      LeafIsSeen(Leaves(None, members), l);
    }
  }

  lemma FlatLeafKey(key: Key, v: Value, l: Leaf)
    requires IsFlatValue(v) && l in MemberLeaves(key, v)
    ensures l.key == key
  {
    hide LeavesAt, FirstLeaf, MemberLeaves, IsFlatValue;
    LeafIsSeen(MemberLeaves(key, v), l);
    MemberBack(key, v, l.key);
  }

  /** Listed first, it would put what is inside of it before what is kept for a key. */
  lemma KeptAgrees(members: seq<Member>, key: Key, v: Value, inner: Key, w: Value)
    requires FlattensOnce(members) && IsKeptWhole(members, key, v) && IsKeptWhole(members, inner, w)
    requires inner in Keys(ValueEntries(key, v))
    ensures FirstEntry(ValueEntries(key, v), inner) == Some(w)
  {
    hide FirstEntry, Entries, LeavesAt, FirstLeaf, Leaves, MemberLeaves, ValueEntries, Keys, IsFlatValue, Flattened, IsKeptWhole;
    KeptIsListed(members, key, v);
    KeptIsListed(members, inner, w);
    KeptIsLeafless(members, inner, w);
    var again := ListingFrom(Flattened(members), key);
    SettledAgain(members, again);
    var j := NameOf(again, inner);
    NotInside(key, v);
    assert j > 0 && again[j].value == w && Leafless(again[j]);
    FirstEntryKeys(ValueEntries(key, v), inner);
    assert again[..j][..0] == [] && again[..j][0] == again[0];
    NoEntriesLeft();
    EntriesAround(again[..j], 0, inner);
  }

  lemma NoEntriesLeft()
    ensures Entries(None, []) == [] && forall key :: FirstEntry(Entries(None, []), key) == None
  {
  }

  /** Flattening twice is flattening once exactly when what is kept whole is consistent. */
  lemma FlattensOnceExactly(members: seq<Member>)
    ensures FlattensOnce(members) <==> KeepsConsistently(members)
  {
    hide FirstEntry, Entries, LeavesAt, Leaves, MemberLeaves, ValueEntries, Keys, Flattened, IsKeptWhole, Describes;
    if KeepsConsistently(members) {
      forall again: seq<Member> | DistinctNames(again) && Describes(Flattened(members), again)
        ensures Flattened(again) == Flattened(members)
      {
        ConsistentIsSettled(members, again);
        SettledAgain(members, again);
      }
    }
    if FlattensOnce(members) {
      forall key, v | IsKeptWhole(members, key, v)
        ensures MemberLeaves(key, v) == []
        ensures forall inner, w | inner in Keys(ValueEntries(key, v)) && IsKeptWhole(members, inner, w) ::
          FirstEntry(ValueEntries(key, v), inner) == Some(w)
      {
        KeptIsLeafless(members, key, v);
        forall inner, w | inner in Keys(ValueEntries(key, v)) && IsKeptWhole(members, inner, w)
          ensures FirstEntry(ValueEntries(key, v), inner) == Some(w)
        {
          KeptAgrees(members, key, v, inner, w);
        }
      }
    }
  }

  // What follows

  lemma OneMember(base: Option<Key>, member: Member)
    ensures Leaves(base, [member]) == MemberLeaves(Join(base, member.name), member.value)
    ensures Entries(base, [member])
         == [Entry(Join(base, member.name), member.value)] + ValueEntries(Join(base, member.name), member.value)
  {
    hide MemberLeaves, ValueEntries, Join;
    MembersStep(base, [member], 0);
    assert [member][0..] == [member] && [member][1..] == [];
    NothingLeft(map[], base, [member][1..]);
    assert Leaves(base, [member][1..]) == [];
  }

  /** Documents of scalars and arrays of scalars flatten once. */
  lemma FlatFlattensOnce(members: seq<Member>)
    requires IsFlat(members)
    ensures FlattensOnce(members)
  {
    hide FirstEntry, Entries, LeavesAt, Leaves, MemberLeaves, ValueEntries, Keys, IsFlatValue, Flattened, FlattensOnce;
    forall key, v | IsKeptWhole(members, key, v)
      ensures MemberLeaves(key, v) == [] && ValueEntries(key, v) == []
    {
      FlatKept(members, key, v);
      FlatHasNoEntries(key, v);
      InsideKept(members, key, v);
      if MemberLeaves(key, v) != [] {
        var l := MemberLeaves(key, v)[0];
        assert l in Leaves(None, members);
        FlatLeafKey(key, v, l);
        LeafIsSeen(Leaves(None, members), l);
      }
    }
    NoKeys();
    FlattensOnceExactly(members);
  }

  lemma FlatKept(members: seq<Member>, key: Key, v: Value)
    requires IsFlat(members) && FirstEntry(Entries(None, members), key) == Some(v)
    ensures IsFlatValue(v)
  {
    hide FirstEntry, Entries, ValueEntries, IsFlatValue, Keys, Names;
    FirstEntryKeys(Entries(None, members), key);
    FlatEntries(members);
    var i := NameOf(members, key);
    FlatEntries(members[..i]);
    EarlierNames(members, i);
    FirstEntryKeys(Entries(None, members[..i]), key);
    EntriesAround(members, i, key);
  }

  /** A nested member is kept beside its flattened form: the second time, its scalar is found twice. */
  lemma NestedTwice(name: Key, inner: Key, v: Value)
    requires IsScalar(v)
    ensures !FlattensOnce([Member(name, Value.Object([Member(inner, v)]))])
  {
    hide FlattensOnce, FirstEntry, LeavesAt;
    var nested := Value.Object([Member(inner, v)]);
    var doc := [Member(name, nested)];
    var key := Join(Some(name), inner);
    assert |key| > |name|;
    OneMember(None, doc[0]);
    OneMember(Some(name), Member(inner, v));
    assert Leaves(None, doc) == [Leaf(key, v, false)];
    LeafAlone(Leaf(key, v, false), name);
    NoEntriesLeft();
    assert doc[..0] == [];
    EntriesAround(doc, 0, name);
    assert IsKeptWhole(doc, name, nested);
    FlattensOnceExactly(doc);
  }

  /** Without any scalar it can fail too: a nested value that differs from the one listed before it. */
  lemma ShadowedTwice(name: Key, inner: Key, listed: Value, nested: Value)
    requires
      var key := Join(Some(name), inner);
      MemberLeaves(key, listed) == [] && MemberLeaves(key, nested) == [] && listed != nested
    ensures !FlattensOnce([Member(Join(Some(name), inner), listed), Member(name, Value.Object([Member(inner, nested)]))])
  {
    hide FlattensOnce, FirstEntry, LeavesAt;
    var key, outer := Join(Some(name), inner), Value.Object([Member(inner, nested)]);
    var doc := [Member(key, listed), Member(name, outer)];
    assert |key| > |name| && doc == [doc[0]] + [doc[1]];
    OneMember(Some(name), Member(inner, nested));
    OneMember(None, doc[0]);
    OneMember(None, doc[1]);
    PartsAppend(None, [doc[0]], [doc[1]]);
    assert Leaves(None, doc) == [];
    NoLeaves(name);
    NoLeaves(key);
    NoEntriesLeft();
    assert doc[..0] == [];
    EntriesAround(doc, 0, key);
    OuterKept(name, key, listed, outer);
    assert IsKeptWhole(doc, name, outer) && IsKeptWhole(doc, key, listed);
    NestedInside(name, inner, nested);
    FlattensOnceExactly(doc);
  }

  lemma OuterKept(name: Key, key: Key, listed: Value, outer: Value)
    requires |key| > |name|
    ensures FirstEntry(Entries(None, [Member(key, listed), Member(name, outer)]), name) == Some(outer)
  {
    hide FirstEntry, ValueEntries;
    var doc := [Member(key, listed), Member(name, outer)];
    assert doc[..1] == [doc[0]];
    OneMember(None, doc[0]);
    var before := Entries(None, doc[..1]);
    assert before == [Entry(key, listed)] + ValueEntries(key, listed);
    forall e <- before
      ensures e.key != name
    {
      if e != Entry(key, listed) {
        LongerValueKeys(key, listed, e);
      }
    }
    FirstEntryKeys(before, name);
    EntriesAround(doc, 1, name);
  }

  lemma NestedInside(name: Key, inner: Key, nested: Value)
    ensures
      var entries, key := ValueEntries(name, Value.Object([Member(inner, nested)])), Join(Some(name), inner);
      key in Keys(entries) && FirstEntry(entries, key) == Some(nested)
  {
    hide FirstEntry;
    var entries, key := ValueEntries(name, Value.Object([Member(inner, nested)])), Join(Some(name), inner);
    OneMember(Some(name), Member(inner, nested));
    assert entries == [Entry(key, nested)] + ValueEntries(key, nested);
    assert entries[0].key == key;
    EntriesAppend([Entry(key, nested)], ValueEntries(key, nested), key);
    EntryAlone(Entry(key, nested), key);
  }
}

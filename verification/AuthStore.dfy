/**
 The store of API keys: the keys, and an inverted table that answers what a key may do.

 `Valid` says that the table is exact: it holds the encoded grants of the stored keys, each with
 the key's expiration date, and nothing else.
*/
module AuthStore {
  import opened Wrappers
  import opened Bytes
  import opened ApiKeys

  /** The encoded entries of some actions and scopes of a key. */
  function EntrySet(uid: Uid, actions: set<Action>, scopes: set<Option<Pattern>>): set<seq<byte>> {
    set a, i | a in actions && i in scopes :: Encode(uid, a, i)
  }

  /** All that a key grants. */
  function Granted(key: Key): set<seq<byte>> {
    EntrySet(key.uid, ExpandAll(key.actions), key.Scopes())
  }

  predicate HasOwner(keys: map<Uid, Key>, b: seq<byte>) {
    |b| > UID_LENGTH && b[..UID_LENGTH] in keys
  }

  ghost predicate Exact(keys: map<Uid, Key>, table: map<seq<byte>, Option<Date>>) {
    && (forall uid <- keys :: keys[uid].uid == uid)
    && (forall b :: b in table <==> HasOwner(keys, b) && b in Granted(keys[b[..UID_LENGTH]]))
    && (forall b <- table :: HasOwner(keys, b) && table[b] == keys[b[..UID_LENGTH]].expiresAt)
  }

  lemma GrantedAt(key: Key, action: Action, index: Option<Pattern>)
    ensures Encode(key.uid, action, index) in Granted(key) <==> action in ExpandAll(key.actions) && index in key.Scopes()
  {
    if Encode(key.uid, action, index) in Granted(key) {
      var a, i :| a in ExpandAll(key.actions) && i in key.Scopes() && Encode(key.uid, a, i) == Encode(key.uid, action, index);
      EncodeInjective(key.uid, a, i, key.uid, action, index);
    }
  }

  /** A table entry, looked up by what it encodes. */
  lemma TableAt(keys: map<Uid, Key>, table: map<seq<byte>, Option<Date>>, uid: Uid, action: Action, index: Option<Pattern>)
    requires Exact(keys, table)
    ensures
      Encode(uid, action, index) in table
      <==> uid in keys && action in ExpandAll(keys[uid].actions) && index in keys[uid].Scopes()
    ensures Encode(uid, action, index) in table ==> table[Encode(uid, action, index)] == keys[uid].expiresAt
  {
    hide Granted, Encode;
    EncodePrefix(uid, action, index);
    if uid in keys {
      GrantedAt(keys[uid], action, index);
    }
  }

  /** What an entry of the table stands for. */
  lemma TableEntry(keys: map<Uid, Key>, table: map<seq<byte>, Option<Date>>, b: seq<byte>)
    requires Exact(keys, table) && b in table
    ensures Decode(b).Some?
    ensures
      var (uid, action, index) := Decode(b).value;
      && uid in keys && action in ExpandAll(keys[uid].actions) && (index.Some? ==> index.value != [])
      && index in keys[uid].Scopes() && table[b] == keys[uid].expiresAt && b == Encode(uid, action, index)
  {
    var key := keys[b[..UID_LENGTH]];
    var a, i :| a in ExpandAll(key.actions) && i in key.Scopes() && Encode(key.uid, a, i) == b;
    DecodeEncode(key.uid, a, i);
  }

  function WithoutPrefix(table: map<seq<byte>, Option<Date>>, prefix: seq<byte>): map<seq<byte>, Option<Date>> {
    map b | b in table && !(prefix <= b) :: table[b]
  }

  function With(table: map<seq<byte>, Option<Date>>, entries: set<seq<byte>>, expiresAt: Option<Date>): map<seq<byte>, Option<Date>> {
    map b | b in table.Keys + entries :: if b in entries then expiresAt else table[b]
  }

  /** The entries of a key all start with its identifier. */
  lemma GrantedPrefix(key: Key, b: seq<byte>)
    requires b in Granted(key)
    ensures |b| > UID_LENGTH && b[..UID_LENGTH] == key.uid && key.uid <= b
  {
    var a, i :| a in ExpandAll(key.actions) && i in key.Scopes() && Encode(key.uid, a, i) == b;
    EncodePrefix(key.uid, a, i);
  }

  lemma PrefixIs(uid: Uid, b: seq<byte>)
    requires |b| >= UID_LENGTH
    ensures uid <= b <==> b[..UID_LENGTH] == uid
  {
  }

  lemma ExactWithout(keys: map<Uid, Key>, table: map<seq<byte>, Option<Date>>, uid: Uid)
    requires Exact(keys, table)
    ensures Exact(keys - {uid}, WithoutPrefix(table, uid))
  {
    hide Granted;
    var left := WithoutPrefix(table, uid);
    forall b: seq<byte>
      ensures b in left <==> HasOwner(keys - {uid}, b) && b in Granted((keys - {uid})[b[..UID_LENGTH]])
      ensures b in left ==> HasOwner(keys - {uid}, b) && left[b] == (keys - {uid})[b[..UID_LENGTH]].expiresAt
    {
      assert b in table <==> HasOwner(keys, b) && b in Granted(keys[b[..UID_LENGTH]]);
      if |b| >= UID_LENGTH {
        PrefixIs(uid, b);
      }
    }
  }

  lemma ExactWith(keys: map<Uid, Key>, table: map<seq<byte>, Option<Date>>, key: Key)
    requires Exact(keys, table) && key.uid !in keys
    ensures Exact(keys[key.uid := key], With(table, Granted(key), key.expiresAt))
  {
    hide Granted;
    var more, after := keys[key.uid := key], With(table, Granted(key), key.expiresAt);
    forall b: seq<byte>
      ensures b in after <==> HasOwner(more, b) && b in Granted(more[b[..UID_LENGTH]])
      ensures b in after ==> HasOwner(more, b) && after[b] == more[b[..UID_LENGTH]].expiresAt
    {
      assert b in table <==> HasOwner(keys, b) && b in Granted(keys[b[..UID_LENGTH]]);
      if b in Granted(key) {
        GrantedPrefix(key, b);
      }
    }
  }

  lemma WithMore(table: map<seq<byte>, Option<Date>>, a: set<seq<byte>>, b: set<seq<byte>>, expiresAt: Option<Date>)
    ensures With(With(table, a, expiresAt), b, expiresAt) == With(table, a + b, expiresAt)
  {
  }

  lemma WithOne(table: map<seq<byte>, Option<Date>>, b: seq<byte>, expiresAt: Option<Date>)
    ensures With(table, {b}, expiresAt) == table[b := expiresAt]
  {
  }

  lemma EntriesOfAction(uid: Uid, done: set<Action>, action: Action, scopes: set<Option<Pattern>>)
    ensures EntrySet(uid, done + {action}, scopes) == EntrySet(uid, done, scopes) + EntrySet(uid, {action}, scopes)
  {
    hide Encode;
  }

  lemma EntriesOfScope(uid: Uid, action: Action, done: set<Option<Pattern>>, index: Option<Pattern>)
    ensures EntrySet(uid, {action}, done + {index}) == EntrySet(uid, {action}, done) + {Encode(uid, action, index)}
  {
    hide Encode;
  }

  lemma NoEntries(uid: Uid, actions: set<Action>, scopes: set<Option<Pattern>>)
    requires actions == {} || scopes == {}
    ensures EntrySet(uid, actions, scopes) == {}
  {
  }

  lemma ExpandSnoc(actions: seq<Action>, i: nat)
    requires i < |actions|
    ensures ExpandAll(actions[..i + 1]) == ExpandAll(actions[..i]) + Expand(actions[i])
  {
    assert actions[..i + 1][..i] == actions[..i];
  }

  class Store {
    var keys: map<Uid, Key>
    var table: map<seq<byte>, Option<Date>>

    constructor ()
      ensures Valid() && keys == map[]
    {
      keys, table := map[], map[];
    }

    ghost predicate Valid()
      reads this
    {
      Exact(keys, table)
    }

    /** Remove every entry that starts with the identifier of a key. */
    method DeleteKeyFromInvertedDb(uid: Uid)
      modifies `table
      ensures table == WithoutPrefix(old(table), uid)
    {
      var left := set b | b in table && uid <= b;
      ghost var all := left;
      while left != {}
        invariant left <= all
        invariant forall b :: b in table <==> b in old(table) && b !in all - left
        invariant forall b <- table :: table[b] == old(table)[b]
        decreases |left|
      {
        var b :| b in left;
        table := table - {b};
        left := left - {b};
      }
      assert all - {} == all;
      assert table.Keys == WithoutPrefix(old(table), uid).Keys;
    }

    /** The entries of one action: one without an index, or one for each pattern. */
    method GrantAction(key: Key, action: Action)
      modifies `table
      ensures table == With(old(table), EntrySet(key.uid, {action}, key.Scopes()), key.expiresAt)
    {
      hide Encode, EntrySet, With;
      if key.NoIndexRestriction() {
        EntriesOfScope(key.uid, action, {}, None);
        NoEntries(key.uid, {action}, {});
        WithOne(table, Encode(key.uid, action, None), key.expiresAt);
        assert {} + {None} == key.Scopes();
        assert {} + {Encode(key.uid, action, None)} == {Encode(key.uid, action, None)};
        table := table[Encode(key.uid, action, None) := key.expiresAt];
      } else {
        NoEntries(key.uid, {action}, {});
        WithNone(table, key.expiresAt);
        assert SomeOf(key.indexes[..0]) == {};
        for i := 0 to |key.indexes|
          invariant table == With(old(table), EntrySet(key.uid, {action}, SomeOf(key.indexes[..i])), key.expiresAt)
        {
          var entry := Encode(key.uid, action, Some(key.indexes[i]));
          SomeOfSnoc(key.indexes, i);
          EntriesOfScope(key.uid, action, SomeOf(key.indexes[..i]), Some(key.indexes[i]));
          WithMore(old(table), EntrySet(key.uid, {action}, SomeOf(key.indexes[..i])), {entry}, key.expiresAt);
          WithOne(table, entry, key.expiresAt);
          table := table[entry := key.expiresAt];
        }
        assert key.indexes[..|key.indexes|] == key.indexes && SomeOf(key.indexes) == key.Scopes();
      }
    }

    method ExpandActions(list: seq<Action>) returns (actions: set<Action>)
      ensures actions == ExpandAll(list)
    {
      hide ExpandAll;
      actions := {};
      ExpandNone();
      for i := 0 to |list|
        invariant actions == ExpandAll(list[..i])
      {
        ExpandSnoc(list, i);
        actions := actions + Expand(list[i]);
      }
      assert list[..|list|] == list;
    }

    method PutApiKey(key: Key)
      requires Valid()
      modifies this
      ensures Valid() && keys == old(keys)[key.uid := key]
    {
      hide Exact, EntrySet, With, WithoutPrefix, ExpandAll;
      ExactWithout(keys, table, key.uid);
      keys := keys[key.uid := key];
      DeleteKeyFromInvertedDb(key.uid);
      ghost var cleared := table;
      var actions := ExpandActions(key.actions);
      var left := actions;
      NoEntries(key.uid, {}, key.Scopes());
      WithNone(cleared, key.expiresAt);
      assert actions - left == {};
      while left != {}
        invariant left <= actions && keys == old(keys)[key.uid := key]
        invariant table == With(cleared, EntrySet(key.uid, actions - left, key.Scopes()), key.expiresAt)
        decreases |left|
      {
        var action :| action in left;
        ghost var done := actions - left;
        EntriesOfAction(key.uid, done, action, key.Scopes());
        GrantAction(key, action);
        WithMore(
          cleared, EntrySet(key.uid, done, key.Scopes()), EntrySet(key.uid, {action}, key.Scopes()), key.expiresAt);
        assert done + {action} == actions - (left - {action});
        left := left - {action};
      }
      assert actions - {} == actions;
      ExactWith(old(keys) - {key.uid}, cleared, key);
      assert (old(keys) - {key.uid})[key.uid := key] == old(keys)[key.uid := key];
    }

    method DeleteApiKey(uid: Uid) returns (existing: bool)
      requires Valid()
      modifies this
      ensures Valid() && keys == old(keys) - {uid} && (existing <==> uid in old(keys))
    {
      hide Exact, WithoutPrefix;
      ExactWithout(keys, table, uid);
      existing := uid in keys;
      keys := keys - {uid};
      DeleteKeyFromInvertedDb(uid);
    }

    /** The expiration date of an action, on no index in particular or on a given one. */
    method GetExpirationDate(uid: Uid, action: Action, index: Option<seq<byte>>) returns (r: Option<Option<Date>>)
      requires Valid()
      ensures
        if uid in keys && action in ExpandAll(keys[uid].actions) && Reaches(keys[uid], index) then
          r == Some(keys[uid].expiresAt)
        else r == None
    {
      hide Exact, Encode, Decode, ExpandAll, Reaches, Serves, ScopeOf, Key.Scopes;
      var entry := Encode(uid, action, index);
      ghost var scope := ScopeOf(index);
      EmptyName(uid, action, index);
      TableAt(keys, table, uid, action, scope);
      if entry in table {
        ScopeReaches(keys[uid], index);
        return Some(table[entry]);
      }
      var prefix := Encode(uid, action, None);
      var all := set b | b in table && prefix <= b;
      var left := all;
      while left != {}
        invariant left <= all
        invariant forall b <- all - left :: !Serves(b, index)
        decreases |left|
      {
        var b :| b in left;
        TableEntry(keys, table, b);
        SamePrefix(uid, action, b);
        if Serves(b, index) {
          ServesReaches(keys[uid], b, index);
          return Some(table[b]);
        }
        left := left - {b};
      }
      assert all - {} == all;
      NobodyServes(keys, table, uid, action, index);
      return None;
    }

    /** The expiration date of an action on any index. */
    method PrefixFirstExpirationDate(uid: Uid, action: Action) returns (r: Option<Option<Date>>)
      requires Valid()
      ensures
        if uid in keys && action in ExpandAll(keys[uid].actions) && keys[uid].indexes != [] then
          r == Some(keys[uid].expiresAt)
        else r == None
    {
      hide Exact, Encode, Decode, ExpandAll;
      var prefix := Encode(uid, action, None);
      var all := set b | b in table && prefix <= b;
      if all == {} {
        forall b <- table
          ensures !(prefix <= b)
        {
          assert b !in all;
        }
        NothingGranted(keys, table, uid, action);
        return None;
      }
      var b :| b in all;
      TableEntry(keys, table, b);
      SamePrefix(uid, action, b);
      SomeScope(keys[uid], Decode(b).value.2);
      return Some(table[b]);
    }

    /**
     Whether a key may do an action on an index, or on any index: exactly when the stored key says so.
    */
    method IsKeyAuthorized(uid: Uid, action: Action, index: Option<seq<byte>>, now: Date) returns (authorized: bool)
      requires Valid()
      ensures authorized <==> Authorized(keys, uid, action, index, now)
      ensures authorized <==> uid in keys && May(keys[uid], action, index, now)
    {
      hide Exact, ExpandAll, May;
      AuthorizedExactly(keys, uid, action, index, now);
      if uid in keys {
        OrMeansAuthorized(keys[uid], index);
      }
      var date := GetExpirationDate(uid, action, None);
      var other;
      if index.Some? {
        other := GetExpirationDate(uid, action, index);
      } else {
        other := PrefixFirstExpirationDate(uid, action);
      }
      var found := if date.Some? then date else other;
      match found {
        case None => return false;
        case Some(None) => return true;
        case Some(Some(exp)) => return now < exp;
      }
    }
  }

  function SomeOf(patterns: seq<Pattern>): set<Option<Pattern>> {
    set p | p in patterns :: Some(p)
  }

  lemma SomeOfSnoc(patterns: seq<Pattern>, i: nat)
    requires i < |patterns|
    ensures SomeOf(patterns[..i + 1]) == SomeOf(patterns[..i]) + {Some(patterns[i])}
  {
    assert patterns[..i + 1] == patterns[..i] + [patterns[i]];
  }

  lemma WithNone(table: map<seq<byte>, Option<Date>>, expiresAt: Option<Date>)
    ensures With(table, {}, expiresAt) == table
  {
  }

  lemma ExpandNone()
    ensures ExpandAll([]) == {}
  {
  }

  /** The scope an index is looked up with: an empty name is encoded as no name at all. */
  function ScopeOf(index: Option<seq<byte>>): Option<Pattern> {
    if index.Some? && index.value != [] then Some(index.value) else None
  }

  lemma EmptyName(uid: Uid, action: Action, index: Option<seq<byte>>)
    ensures Encode(uid, action, index) == Encode(uid, action, ScopeOf(index))
  {
  }

  /** Whether the table has an entry of the key that answers for an index. */
  predicate Reaches(key: Key, index: Option<seq<byte>>) {
    match ScopeOf(index)
    case None => key.NoIndexRestriction()
    case Some(name) => !key.NoIndexRestriction() && exists p <- key.indexes :: MatchesStr(p, name)
  }

  lemma ScopeReaches(key: Key, index: Option<seq<byte>>)
    requires ScopeOf(index) in key.Scopes()
    ensures Reaches(key, index)
  {
    if ScopeOf(index).Some? {
      assert MatchesStr(index.value, index.value);
    }
  }

  /** An entry found under a prefix answers for an index when its pattern matches. */
  predicate Serves(b: seq<byte>, index: Option<seq<byte>>) {
    match Decode(b)
    case None => false
    case Some(e) => e.2.Some? && e.2.value != [] && index.Some? && MatchesStr(e.2.value, index.value)
  }

  lemma ServesReaches(key: Key, b: seq<byte>, index: Option<seq<byte>>)
    requires Serves(b, index) && Decode(b).value.2 in key.Scopes()
    ensures Reaches(key, index)
  {
    assert Decode(b).value.2.value in key.indexes;
  }

  lemma SamePrefix(uid: Uid, action: Action, b: seq<byte>)
    requires Decode(b).Some? && Encode(uid, action, None) <= b
    ensures Decode(b).value.0 == uid && Decode(b).value.1 == action
  {
    var prefix := Encode(uid, action, None);
    assert b[..UID_LENGTH] == prefix[..UID_LENGTH] == uid && b[UID_LENGTH] == prefix[UID_LENGTH] == Repr(action);
    ReprRoundTrip(action);
  }

  lemma NobodyServes(
    keys: map<Uid, Key>, table: map<seq<byte>, Option<Date>>, uid: Uid, action: Action, index: Option<seq<byte>>)
    requires Exact(keys, table) && Encode(uid, action, index) !in table
    requires forall b | b in table && Encode(uid, action, None) <= b :: !Serves(b, index)
    ensures !(uid in keys && action in ExpandAll(keys[uid].actions) && Reaches(keys[uid], index))
  {
    hide Exact, ExpandAll, Encode, Decode;
    EmptyName(uid, action, index);
    TableAt(keys, table, uid, action, ScopeOf(index));
    if uid in keys && action in ExpandAll(keys[uid].actions) && ScopeOf(index).Some? {
      forall p <- keys[uid].indexes
        ensures keys[uid].NoIndexRestriction() || !MatchesStr(p, index.value)
      {
        TableAt(keys, table, uid, action, Some(p));
        EncodePrefix(uid, action, Some(p));
        DecodeEncode(uid, action, Some(p));
      }
    }
  }

  lemma NothingGranted(keys: map<Uid, Key>, table: map<seq<byte>, Option<Date>>, uid: Uid, action: Action)
    requires Exact(keys, table) && forall b <- table :: !(Encode(uid, action, None) <= b)
    ensures !(uid in keys && action in ExpandAll(keys[uid].actions) && keys[uid].indexes != [])
  {
    hide Exact, ExpandAll, Encode;
    if uid in keys && keys[uid].indexes != [] {
      var p := keys[uid].indexes[0];
      assert p in keys[uid].indexes;
      TableAt(keys, table, uid, action, None);
      TableAt(keys, table, uid, action, Some(p));
      EncodePrefix(uid, action, None);
      EncodePrefix(uid, action, Some(p));
    }
  }

  lemma SomeScope(key: Key, index: Option<Pattern>)
    requires index in key.Scopes()
    ensures key.indexes != []
  {
  }

  /** A key without restriction matches every index; otherwise one of its patterns has to. */
  lemma OrMeansAuthorized(key: Key, index: Option<seq<byte>>)
    ensures
      (Reaches(key, None) || (if index.Some? then Reaches(key, index) else key.indexes != []))
      <==> match index
           case Some(name) => exists p <- key.indexes :: MatchesStr(p, name)
           case None => key.indexes != []
  {
    if key.NoIndexRestriction() {
      var p :| p in key.indexes && MatchesAll(p);
      if index.Some? {
        assert p[..|p| - 1] <= index.value;
        assert MatchesStr(p, index.value);
      }
    }
  }
}

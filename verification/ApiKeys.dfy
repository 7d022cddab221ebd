/**
 API keys: what a key allows, and the codec of the inverted table that answers for it.
*/
module ApiKeys {
  import opened Wrappers
  import opened Bytes

  /** A key identifier: 16 bytes. */
  const UID_LENGTH: nat := 16

  type Uid = u: seq<byte> | |u| == UID_LENGTH witness seq(UID_LENGTH, _ => 0)

  type Date = int

  const STAR: byte := 0x2A

  datatype Action =
    | All | Search
    | DocumentsAll | DocumentsAdd | DocumentsGet | DocumentsDelete
    | IndexesAll | IndexesAdd | IndexesGet | IndexesUpdate | IndexesDelete | IndexesSwap
    | TasksAll | TasksCancel | TasksDelete | TasksGet
    | SettingsAll | SettingsGet | SettingsUpdate
    | StatsAll | StatsGet | MetricsAll | MetricsGet | DumpsAll | DumpsCreate
    | Version | KeysAdd | KeysGet | KeysUpdate | KeysDelete
    | ExperimentalFeaturesGet | ExperimentalFeaturesUpdate

  const ACTIONS: seq<Action> := [
    All, Search, DocumentsAll, DocumentsAdd, DocumentsGet, DocumentsDelete, IndexesAll, IndexesAdd, IndexesGet,
    IndexesUpdate, IndexesDelete, IndexesSwap, TasksAll, TasksCancel, TasksDelete, TasksGet, SettingsAll, SettingsGet,
    SettingsUpdate, StatsAll, StatsGet, MetricsAll, MetricsGet, DumpsAll, DumpsCreate, Version, KeysAdd, KeysGet,
    KeysUpdate, KeysDelete, ExperimentalFeaturesGet, ExperimentalFeaturesUpdate]

  function Repr(a: Action): byte {
    match a
    case All => 0
    case Search => 1
    case DocumentsAll => 2
    case DocumentsAdd => 3
    case DocumentsGet => 4
    case DocumentsDelete => 5
    case IndexesAll => 6
    case IndexesAdd => 7
    case IndexesGet => 8
    case IndexesUpdate => 9
    case IndexesDelete => 10
    case IndexesSwap => 11
    case TasksAll => 12
    case TasksCancel => 13
    case TasksDelete => 14
    case TasksGet => 15
    case SettingsAll => 16
    case SettingsGet => 17
    case SettingsUpdate => 18
    case StatsAll => 19
    case StatsGet => 20
    case MetricsAll => 21
    case MetricsGet => 22
    case DumpsAll => 23
    case DumpsCreate => 24
    case Version => 25
    case KeysAdd => 26
    case KeysGet => 27
    case KeysUpdate => 28
    case KeysDelete => 29
    case ExperimentalFeaturesGet => 30
    case ExperimentalFeaturesUpdate => 31
  }

  function FromRepr(b: byte): Option<Action> {
    if b as int < |ACTIONS| then Some(ACTIONS[b]) else None
  }

  lemma ReprRoundTrip(a: Action)
    ensures Repr(a) as int < |ACTIONS| && FromRepr(Repr(a)) == Some(a)
  {
  }

  lemma FromReprRoundTrip(b: byte)
    ensures FromRepr(b).Some? ==> Repr(FromRepr(b).value) == b
  {
  }

  /** What an action of a key stands for. */
  function Expand(a: Action): set<Action> {
    match a
    case All => set b: Action | b in ACTIONS
    case DocumentsAll => {DocumentsGet, DocumentsDelete, DocumentsAdd}
    case IndexesAll => {IndexesAdd, IndexesDelete, IndexesGet, IndexesUpdate, IndexesSwap}
    case SettingsAll => {SettingsGet, SettingsUpdate}
    case DumpsAll => {DumpsCreate}
    case TasksAll => {TasksGet, TasksDelete, TasksCancel}
    case StatsAll => {StatsGet}
    case MetricsAll => {MetricsGet}
    case _ => {a}
  }

  function ExpandAll(actions: seq<Action>): set<Action> {
    if actions == [] then {} else ExpandAll(actions[..|actions| - 1]) + Expand(actions[|actions| - 1])
  }

  /** An index name, or a prefix of index names that ends with a star. */
  type Pattern = p: seq<byte> | p != [] witness [STAR]

  predicate MatchesAll(p: Pattern) {
    p == [STAR]
  }

  predicate MatchesStr(p: Pattern, name: seq<byte>) {
    if p[|p| - 1] == STAR then p[..|p| - 1] <= name else p == name
  }

  datatype Key = Key(uid: Uid, actions: seq<Action>, indexes: seq<Pattern>, expiresAt: Option<Date>)
  {
    predicate NoIndexRestriction() {
      exists p <- indexes :: MatchesAll(p)
    }

    /** The scopes that the inverted table holds for the key: none in particular, or each pattern. */
    function Scopes(): set<Option<Pattern>> {
      if NoIndexRestriction() then {None} else set p | p in indexes :: Some(p)
    }
  }

  predicate Unexpired(expiresAt: Option<Date>, now: Date) {
    expiresAt.Some? ==> now < expiresAt.value
  }

  /** What authorisation means: the stored key has the action, a pattern for the index, and has not expired. */
  predicate Authorized(keys: map<Uid, Key>, uid: Uid, action: Action, index: Option<seq<byte>>, now: Date) {
    && uid in keys
    && action in ExpandAll(keys[uid].actions)
    && (match index
        case Some(name) => exists p <- keys[uid].indexes :: MatchesStr(p, name)
        case None => keys[uid].indexes != [])
    && Unexpired(keys[uid].expiresAt, now)
  }

  /** The group an action belongs to, if it belongs to one. */
  function GroupOf(a: Action): Option<Action> {
    match a
    case DocumentsAdd => Some(DocumentsAll)
    case DocumentsGet => Some(DocumentsAll)
    case DocumentsDelete => Some(DocumentsAll)
    case IndexesAdd => Some(IndexesAll)
    case IndexesGet => Some(IndexesAll)
    case IndexesUpdate => Some(IndexesAll)
    case IndexesDelete => Some(IndexesAll)
    case IndexesSwap => Some(IndexesAll)
    case TasksCancel => Some(TasksAll)
    case TasksDelete => Some(TasksAll)
    case TasksGet => Some(TasksAll)
    case SettingsGet => Some(SettingsAll)
    case SettingsUpdate => Some(SettingsAll)
    case StatsGet => Some(StatsAll)
    case MetricsGet => Some(MetricsAll)
    case DumpsCreate => Some(DumpsAll)
    case _ => None
  }

  predicate IsGroup(a: Action) {
    a.DocumentsAll? || a.IndexesAll? || a.TasksAll? || a.SettingsAll? || a.StatsAll? || a.MetricsAll? || a.DumpsAll?
  }

  /** Which of the actions a key lists allow an action: all, its group, or the action itself; a group is not its own member. */
  predicate Allows(listed: Action, a: Action) {
    listed == All || GroupOf(a) == Some(listed) || (listed == a && !IsGroup(a))
  }

  lemma ExpandExactly(listed: Action, a: Action)
    ensures a in Expand(listed) <==> Allows(listed, a)
  {
    hide Allows, Expand;
    AllowsCases(listed, a);
    if listed == All {
      AllActions(a);
    } else if IsGroup(listed) {
      GroupExactly(listed, a);
    } else {
      SingleExpands(listed);
    }
  }

  lemma AllowsCases(listed: Action, a: Action)
    ensures listed == All ==> Allows(listed, a)
    ensures IsGroup(listed) ==> (Allows(listed, a) <==> GroupOf(a) == Some(listed))
    ensures listed != All && !IsGroup(listed) ==> (Allows(listed, a) <==> listed == a)
  {
    hide GroupOf;
    GroupsAreGroups(a);
  }

  lemma GroupsAreGroups(a: Action)
    ensures GroupOf(a).Some? ==> IsGroup(GroupOf(a).value) && !IsGroup(a)
  {
  }

  lemma SingleExpands(listed: Action)
    requires listed != All && !IsGroup(listed)
    ensures Expand(listed) == {listed}
  {
    hide ACTIONS;
  }

  lemma GroupExactly(listed: Action, a: Action)
    requires IsGroup(listed)
    ensures a in Expand(listed) <==> GroupOf(a) == Some(listed)
  {
    hide ACTIONS;
  }

  lemma AllActions(a: Action)
    ensures a in Expand(All)
  {
    ReprRoundTrip(a);
    assert ACTIONS[Repr(a)] == a;
  }

  lemma {:induction false} ExpandAllExactly(actions: seq<Action>, a: Action)
    ensures a in ExpandAll(actions) <==> exists listed <- actions :: Allows(listed, a)
  {
    if actions != [] {
      hide Allows, Expand;
      var rest, last := actions[..|actions| - 1], actions[|actions| - 1];
      assert actions == rest + [last];
      ExpandAllExactly(rest, a);
      ExpandExactly(last, a);
    }
  }

  /** A pattern with a star at its end stands for all names that start with what is before it. */
  ghost predicate StandsFor(p: Pattern, name: seq<byte>) {
    if p[|p| - 1] == STAR then |name| >= |p| - 1 && forall i | 0 <= i < |p| - 1 :: name[i] == p[i] else name == p
  }

  lemma PatternExactly(p: Pattern, name: seq<byte>)
    ensures MatchesStr(p, name) <==> StandsFor(p, name)
  {
    var prefix := p[..|p| - 1];
    assert |name| >= |prefix| ==> (prefix <= name <==> forall i | 0 <= i < |prefix| :: name[i] == prefix[i]);
  }

  /** What a key may do, from what it lists: an action that allows it, a pattern for the index, a later end. */
  ghost predicate May(key: Key, action: Action, index: Option<seq<byte>>, now: Date) {
    && (exists listed <- key.actions :: Allows(listed, action))
    && (match index
        case Some(name) => exists p <- key.indexes :: StandsFor(p, name)
        case None => key.indexes != [])
    && (key.expiresAt.None? || now < key.expiresAt.value)
  }

  lemma AuthorizedExactly(keys: map<Uid, Key>, uid: Uid, action: Action, index: Option<seq<byte>>, now: Date)
    ensures Authorized(keys, uid, action, index, now) <==> uid in keys && May(keys[uid], action, index, now)
  {
    hide MatchesStr, StandsFor, Allows, ExpandAll;
    if uid in keys {
      ExpandAllExactly(keys[uid].actions, action);
      if index.Some? {
        forall p: Pattern
          ensures MatchesStr(p, index.value) <==> StandsFor(p, index.value)
        {
          PatternExactly(p, index.value);
        }
      }
    }
  }

  // The codec of the inverted table

  function Encode(uid: Uid, action: Action, index: Option<seq<byte>>): seq<byte> {
    uid + [Repr(action)] + (match index case Some(name) => name case None => [])
  }

  function Decode(bytes: seq<byte>): Option<(Uid, Action, Option<seq<byte>>)> {
    if |bytes| <= UID_LENGTH then None
    else
      var index := bytes[UID_LENGTH + 1..];
      match FromRepr(bytes[UID_LENGTH])
      case None => None
      case Some(action) => Some((bytes[..UID_LENGTH], action, if index == [] then None else Some(index)))
  }

  /** The codec gives back what it was given, but for an empty index name. */
  lemma DecodeEncode(uid: Uid, action: Action, index: Option<seq<byte>>)
    ensures Decode(Encode(uid, action, index)) == Some((uid, action, index)) <==> index != Some([])
  {
    ReprRoundTrip(action);
    var bytes := Encode(uid, action, index);
    assert bytes[..UID_LENGTH] == uid && bytes[UID_LENGTH] == Repr(action);
    assert bytes[UID_LENGTH + 1..] == match index case Some(name) => name case None => [];
  }

  /** Only one entry is encoded by some bytes. */
  lemma EncodeDecode(bytes: seq<byte>)
    requires Decode(bytes).Some?
    ensures Encode(Decode(bytes).value.0, Decode(bytes).value.1, Decode(bytes).value.2) == bytes
  {
    FromReprRoundTrip(bytes[UID_LENGTH]);
  }

  lemma EncodePrefix(uid: Uid, action: Action, index: Option<seq<byte>>)
    ensures |Encode(uid, action, index)| > UID_LENGTH && Encode(uid, action, index)[..UID_LENGTH] == uid
    ensures Encode(uid, action, index)[..UID_LENGTH + 1] == Encode(uid, action, None)
    ensures Encode(uid, action, None) <= Encode(uid, action, index)
  {
    var bytes := Encode(uid, action, index);
    assert bytes[..UID_LENGTH + 1] == uid + [Repr(action)];
  }

  /** Encoded entries are the same only for the same key, action and index name. */
  lemma EncodeInjective(u: Uid, a: Action, i: Option<Pattern>, v: Uid, b: Action, j: Option<Pattern>)
    requires Encode(u, a, i) == Encode(v, b, j)
    ensures u == v && a == b && i == j
  {
    DecodeEncode(u, a, i);
    DecodeEncode(v, b, j);
  }
}

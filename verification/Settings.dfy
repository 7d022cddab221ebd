/**
 Index settings, and the builder through which they reach an index.

 `apply_settings_to_builder` records, for each of the sixteen settings an index stores, whether
 it is to be set, reset or left alone; the builder is executed once.  Several settings tasks of
 one batch share a builder, so the last task that mentions a setting wins.
*/
module Settings {
  import opened Wrappers

  datatype Setting<+T> = Set(value: T) | Reset | NotSet

  datatype MinWordSizeTyposSetting = MinWordSizeTyposSetting(oneTypo: Setting<nat>, twoTypos: Setting<nat>)

  datatype TypoSettings = TypoSettings(
    enabled: Setting<bool>,
    minWordSizeForTypos: Setting<MinWordSizeTyposSetting>,
    disableOnWords: Setting<set<string>>,
    disableOnAttributes: Setting<set<string>>)

  datatype FacetingSettings = FacetingSettings(
    maxValuesPerFacet: Setting<nat>,
    sortFacetValuesBy: Setting<map<string, string>>)

  datatype PaginationSettings = PaginationSettings(maxTotalHits: Setting<nat>)

  /** The settings a task carries, before or after `Check`. */
  datatype IndexSettings = IndexSettings(
    displayedAttributes: Setting<seq<string>>,
    searchableAttributes: Setting<seq<string>>,
    filterableAttributes: Setting<set<string>>,
    sortableAttributes: Setting<set<string>>,
    rankingRules: Setting<seq<string>>,
    stopWords: Setting<set<string>>,
    synonyms: Setting<map<string, seq<string>>>,
    distinctAttribute: Setting<string>,
    typoTolerance: Setting<TypoSettings>,
    faceting: Setting<FacetingSettings>,
    pagination: Setting<PaginationSettings>)

  /** What an index stores, one entry per builder setter. */
  datatype Field =
    | Displayed | Searchable | Filterable | Sortable | Criteria | StopWords | Synonyms | Distinct
    | AuthorizeTypos | MinWordLenOneTypo | MinWordLenTwoTypos | ExactWords | ExactAttributes
    | MaxValuesPerFacet | SortFacetValuesBy | PaginationMaxTotalHits

  datatype Value =
    | List(list: seq<string>)
    | Names(names: set<string>)
    | Name(name: string)
    | Number(number: nat)
    | Flag(flag: bool)
    | Table(table: map<string, seq<string>>)
    | Orders(orders: map<string, string>)

  /** The settings stored by an index; a missing field has milli's default. */
  type StoredSettings = map<Field, Value>

  /** The pending writes of a builder: a value to set, or `None` to reset; untouched fields are absent. */
  type Pending = map<Field, Option<Value>>

  /** A wildcard in an attribute list means "all attributes", which is the reset value. */
  function CheckWildcard(fields: Setting<seq<string>>): Setting<seq<string>> {
    if fields.Set? && "*" in fields.value then Reset else fields
  }

  function Check(settings: IndexSettings): IndexSettings {
    settings.(displayedAttributes := CheckWildcard(settings.displayedAttributes),
              searchableAttributes := CheckWildcard(settings.searchableAttributes))
  }

  function Unset(field: Field): Pending {
    map[field := None]
  }

  // The settings of a task as values to store

  function OfList(s: Setting<seq<string>>): Setting<Value> {
    match s case Set(v) => Set(List(v)) case Reset => Reset case NotSet => NotSet
  }

  function OfNames(s: Setting<set<string>>): Setting<Value> {
    match s case Set(v) => Set(Names(v)) case Reset => Reset case NotSet => NotSet
  }

  function OfName(s: Setting<string>): Setting<Value> {
    match s case Set(v) => Set(Name(v)) case Reset => Reset case NotSet => NotSet
  }

  function OfNumber(s: Setting<nat>): Setting<Value> {
    match s case Set(v) => Set(Number(v)) case Reset => Reset case NotSet => NotSet
  }

  function OfFlag(s: Setting<bool>): Setting<Value> {
    match s case Set(v) => Set(Flag(v)) case Reset => Reset case NotSet => NotSet
  }

  function OfTable(s: Setting<map<string, seq<string>>>): Setting<Value> {
    match s case Set(v) => Set(Table(v)) case Reset => Reset case NotSet => NotSet
  }

  function OfOrders(s: Setting<map<string, string>>): Setting<Value> {
    match s case Set(v) => Set(Orders(v)) case Reset => Reset case NotSet => NotSet
  }

  /** The write one setting causes on one field. */
  function Write(field: Field, setting: Setting<Value>): Pending {
    match setting
    case Set(value) => map[field := Some(value)]
    case Reset => Unset(field)
    case NotSet => map[]
  }

  function MinWordSizeWrites(min: Setting<MinWordSizeTyposSetting>): Pending {
    match min
    case NotSet => map[]
    case Reset => Unset(MinWordLenOneTypo) + Unset(MinWordLenTwoTypos)
    case Set(m) =>
      Write(MinWordLenOneTypo, OfNumber(m.oneTypo)) + Write(MinWordLenTwoTypos, OfNumber(m.twoTypos))
  }

  function TypoWrites(typo: Setting<TypoSettings>): Pending {
    match typo
    case NotSet => map[]
    case Reset =>
      Unset(AuthorizeTypos) + Unset(MinWordLenOneTypo) + Unset(MinWordLenTwoTypos) + Unset(ExactWords) +
      Unset(ExactAttributes)
    case Set(t) => TypoFieldWrites(t)
  }

  function TypoFieldWrites(t: TypoSettings): Pending {
    Write(AuthorizeTypos, OfFlag(t.enabled)) +
    MinWordSizeWrites(t.minWordSizeForTypos) +
    Write(ExactWords, OfNames(t.disableOnWords)) +
    Write(ExactAttributes, OfNames(t.disableOnAttributes))
  }

  function FacetingWrites(faceting: Setting<FacetingSettings>): Pending {
    match faceting
    case NotSet => map[]
    case Reset => Unset(MaxValuesPerFacet) + Unset(SortFacetValuesBy)
    case Set(f) =>
      Write(MaxValuesPerFacet, OfNumber(f.maxValuesPerFacet)) +
      Write(SortFacetValuesBy, OfOrders(f.sortFacetValuesBy))
  }

  function PaginationWrites(pagination: Setting<PaginationSettings>): Pending {
    match pagination
    case NotSet => map[]
    case Reset => Unset(PaginationMaxTotalHits)
    case Set(p) => Write(PaginationMaxTotalHits, OfNumber(p.maxTotalHits))
  }

  function AttributeWrites(s: IndexSettings): Pending {
    Write(Searchable, OfList(s.searchableAttributes)) +
    Write(Displayed, OfList(s.displayedAttributes)) +
    Write(Filterable, OfNames(s.filterableAttributes)) +
    Write(Sortable, OfNames(s.sortableAttributes))
  }

  function RankingWrites(s: IndexSettings): Pending {
    Write(Criteria, OfList(s.rankingRules)) +
    Write(StopWords, OfNames(s.stopWords)) +
    Write(Synonyms, OfTable(s.synonyms)) +
    Write(Distinct, OfName(s.distinctAttribute))
  }

  /** Everything one settings task writes, whatever the builder held before. */
  function Writes(s: IndexSettings): Pending {
    AttributeWrites(s) + RankingWrites(s) + TypoWrites(s.typoTolerance) + FacetingWrites(s.faceting) +
    PaginationWrites(s.pagination)
  }

  /** What executing a builder leaves stored. */
  function Execute(pending: Pending, stored: StoredSettings): StoredSettings {
    map f | f in stored.Keys + pending.Keys && (f in pending ==> pending[f].Some?) ::
      if f in pending then pending[f].value else stored[f]
  }

  /** Executing two builders one after the other is executing their merge, later writes winning. */
  lemma ExecuteMerge(first: Pending, second: Pending, stored: StoredSettings)
    ensures Execute(first + second, stored) == Execute(second, Execute(first, stored))
  {
    var once := Execute(first + second, stored);
    var twice := Execute(second, Execute(first, stored));
    forall f: Field
      ensures f in once <==> f in twice
      ensures f in once ==> once[f] == twice[f]
    {
      if f in second {
        assert (first + second)[f] == second[f];
      } else if f in first {
        assert (first + second)[f] == first[f];
      }
    }
  }

  /** milli's settings builder: an object whose setters overwrite one field each. */
  class Builder {
    var pending: Pending

    constructor ()
      ensures pending == map[]
    {
      pending := map[];
    }

    method Put(field: Field, setting: Setting<Value>)
      modifies this
      ensures pending == old(pending) + Write(field, setting)
    {
      match setting
      case Set(value) => pending := pending[field := Some(value)];
      case Reset => pending := pending[field := None];
      case NotSet =>
    }

    method ResetField(field: Field)
      modifies this
      ensures pending == old(pending) + Unset(field)
    {
      pending := pending[field := None];
    }

    /** `builder.execute()`: the stored settings of the index after the pending writes. */
    method ExecuteOn(stored: StoredSettings) returns (updated: StoredSettings)
      ensures updated == Execute(pending, stored)
    {
      updated := Execute(pending, stored);
    }
  }

  /** Merging pending writes is associative. */
  lemma MergeAssociative()
    ensures forall a: Pending, b: Pending, c: Pending {:trigger (a + b) + c} :: (a + b) + c == a + (b + c)
  {
    forall a: Pending, b: Pending, c: Pending
      ensures (a + b) + c == a + (b + c)
    {
    }
  }

  lemma MergeThree(a: Pending, b: Pending, c: Pending)
    ensures a + b + c == a + (b + c)
  {
  }

  lemma MergeFive(base: Pending, a: Pending, b: Pending, c: Pending, d: Pending, e: Pending)
    ensures base + a + b + c + d + e == base + (a + b + c + d + e)
  {
    MergeThree(base, a, b);
    MergeThree(base, a + b, c);
    MergeThree(base, a + b + c, d);
    MergeThree(base, a + b + c + d, e);
  }

  method ApplyMinWordSizeToBuilder(min: Setting<MinWordSizeTyposSetting>, builder: Builder)
    modifies builder
    ensures builder.pending == old(builder.pending) + MinWordSizeWrites(min)
  {
    MergeAssociative();
    match min
    case Set(m) =>
      builder.Put(MinWordLenOneTypo, OfNumber(m.oneTypo));
      builder.Put(MinWordLenTwoTypos, OfNumber(m.twoTypos));
    case Reset =>
      builder.ResetField(MinWordLenOneTypo);
      builder.ResetField(MinWordLenTwoTypos);
    case NotSet =>
  }

  method ApplyTypoFieldsToBuilder(t: TypoSettings, builder: Builder)
    modifies builder
    ensures builder.pending == old(builder.pending) + TypoFieldWrites(t)
  {
    hide MinWordSizeWrites;
    MergeAssociative();
    builder.Put(AuthorizeTypos, OfFlag(t.enabled));
    ApplyMinWordSizeToBuilder(t.minWordSizeForTypos, builder);
    builder.Put(ExactWords, OfNames(t.disableOnWords));
    builder.Put(ExactAttributes, OfNames(t.disableOnAttributes));
  }

  method ResetTypoInBuilder(builder: Builder)
    modifies builder
    ensures builder.pending == old(builder.pending) + TypoWrites(Reset)
  {
    hide Unset;
    builder.ResetField(AuthorizeTypos);
    builder.ResetField(MinWordLenOneTypo);
    builder.ResetField(MinWordLenTwoTypos);
    builder.ResetField(ExactWords);
    builder.ResetField(ExactAttributes);
    MergeFive(
      old(builder.pending), Unset(AuthorizeTypos), Unset(MinWordLenOneTypo), Unset(MinWordLenTwoTypos), Unset(ExactWords),
      Unset(ExactAttributes));
  }

  method ApplyTypoToBuilder(typo: Setting<TypoSettings>, builder: Builder)
    modifies builder
    ensures builder.pending == old(builder.pending) + TypoWrites(typo)
  {
    match typo
    case Set(t) => ApplyTypoFieldsToBuilder(t, builder);
    case Reset => ResetTypoInBuilder(builder);
    case NotSet =>
  }

  method ApplyFacetingToBuilder(faceting: Setting<FacetingSettings>, builder: Builder)
    modifies builder
    ensures builder.pending == old(builder.pending) + FacetingWrites(faceting)
  {
    MergeAssociative();
    match faceting
    case Set(f) =>
      builder.Put(MaxValuesPerFacet, OfNumber(f.maxValuesPerFacet));
      builder.Put(SortFacetValuesBy, OfOrders(f.sortFacetValuesBy));
    case Reset =>
      builder.ResetField(MaxValuesPerFacet);
      builder.ResetField(SortFacetValuesBy);
    case NotSet =>
  }

  method ApplyPaginationToBuilder(pagination: Setting<PaginationSettings>, builder: Builder)
    modifies builder
    ensures builder.pending == old(builder.pending) + PaginationWrites(pagination)
  {
    match pagination
    case Set(p) => builder.Put(PaginationMaxTotalHits, OfNumber(p.maxTotalHits));
    case Reset => builder.ResetField(PaginationMaxTotalHits);
    case NotSet =>
  }

  method ApplyAttributesToBuilder(s: IndexSettings, builder: Builder)
    modifies builder
    ensures builder.pending == old(builder.pending) + AttributeWrites(s)
  {
    MergeAssociative();
    builder.Put(Searchable, OfList(s.searchableAttributes));
    builder.Put(Displayed, OfList(s.displayedAttributes));
    builder.Put(Filterable, OfNames(s.filterableAttributes));
    builder.Put(Sortable, OfNames(s.sortableAttributes));
  }

  method ApplyRankingToBuilder(s: IndexSettings, builder: Builder)
    modifies builder
    ensures builder.pending == old(builder.pending) + RankingWrites(s)
  {
    MergeAssociative();
    builder.Put(Criteria, OfList(s.rankingRules));
    builder.Put(StopWords, OfNames(s.stopWords));
    builder.Put(Synonyms, OfTable(s.synonyms));
    builder.Put(Distinct, OfName(s.distinctAttribute));
  }

  method ApplySettingsToBuilder(s: IndexSettings, builder: Builder)
    modifies builder
    ensures builder.pending == old(builder.pending) + Writes(s)
  {
    hide AttributeWrites, RankingWrites, TypoWrites, FacetingWrites, PaginationWrites;
    ApplyAttributesToBuilder(s, builder);
    ApplyRankingToBuilder(s, builder);
    ApplyTypoToBuilder(s.typoTolerance, builder);
    ApplyFacetingToBuilder(s.faceting, builder);
    ApplyPaginationToBuilder(s.pagination, builder);
    MergeFive(
      old(builder.pending), AttributeWrites(s), RankingWrites(s), TypoWrites(s.typoTolerance), FacetingWrites(s.faceting),
      PaginationWrites(s.pagination));
  }
}

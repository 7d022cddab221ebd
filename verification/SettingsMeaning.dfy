/**
 What an index stores after a settings task, setting by setting.
*/
module SettingsMeaning {
  import opened Wrappers
  import opened Tasks
  import opened Settings
  import opened Indexing
  import opened SlotRuns

  /** A value that is set is stored, a reset removes what was stored, and what is not set is kept. */
  predicate Takes(setting: Setting<Value>, field: Field, before: StoredSettings, after: StoredSettings) {
    match setting
    case Set(v) => field in after && after[field] == v
    case Reset => field !in after
    case NotSet => (field in after <==> field in before) && (field in after ==> after[field] == before[field])
  }

  /** A list of attributes that names `*` asks for the default. */
  function WithoutStar(s: Setting<seq<string>>): Setting<Value> {
    if s.Set? && "*" in s.value then Reset else OfList(s)
  }

  /** A setting inside of another: with the outer one reset or not set, so is the inner one. */
  function Inner<T>(outer: Setting<T>, inner: T -> Setting<Value>): Setting<Value> {
    match outer case Set(v) => inner(v) case Reset => Reset case NotSet => NotSet
  }

  function WordSize(typo: Setting<TypoSettings>, inner: MinWordSizeTyposSetting -> Setting<Value>): Setting<Value> {
    Inner(typo, (t: TypoSettings) => Inner(t.minWordSizeForTypos, inner))
  }

  // The pending writes behind it

  /** What pending writes do to a field. */
  function At(pending: Pending, field: Field): Setting<Value> {
    if field !in pending then NotSet else if pending[field].Some? then Set(pending[field].value) else Reset
  }

  lemma AtWrite(field: Field, setting: Setting<Value>, f: Field)
    ensures At(Write(field, setting), f) == if f == field then setting else NotSet
    ensures At(Unset(field), f) == if f == field then Reset else NotSet
    ensures At(map[], f) == NotSet
  {
  }

  lemma AtMerge(a: Pending, b: Pending, f: Field)
    ensures At(a + b, f) == if At(b, f).NotSet? then At(a, f) else At(b, f)
  {
  }

  lemma AtExecute(pending: Pending, before: StoredSettings, f: Field)
    ensures Takes(At(pending, f), f, before, Execute(pending, before))
  {
  }

  lemma AtAttributes(s: IndexSettings, f: Field)
    ensures At(AttributeWrites(s), f) ==
      match f
      case Searchable => OfList(s.searchableAttributes)
      case Displayed => OfList(s.displayedAttributes)
      case Filterable => OfNames(s.filterableAttributes)
      case Sortable => OfNames(s.sortableAttributes)
      case _ => NotSet
  {
    hide At, Write;
    AtWrite(Searchable, OfList(s.searchableAttributes), f);
    AtWrite(Displayed, OfList(s.displayedAttributes), f);
    AtWrite(Filterable, OfNames(s.filterableAttributes), f);
    AtWrite(Sortable, OfNames(s.sortableAttributes), f);
    var two := Write(Searchable, OfList(s.searchableAttributes)) + Write(Displayed, OfList(s.displayedAttributes));
    var three := two + Write(Filterable, OfNames(s.filterableAttributes));
    AtMerge(Write(Searchable, OfList(s.searchableAttributes)), Write(Displayed, OfList(s.displayedAttributes)), f);
    AtMerge(two, Write(Filterable, OfNames(s.filterableAttributes)), f);
    AtMerge(three, Write(Sortable, OfNames(s.sortableAttributes)), f);
  }

  lemma AtRanking(s: IndexSettings, f: Field)
    ensures At(RankingWrites(s), f) ==
      match f
      case Criteria => OfList(s.rankingRules)
      case StopWords => OfNames(s.stopWords)
      case Synonyms => OfTable(s.synonyms)
      case Distinct => OfName(s.distinctAttribute)
      case _ => NotSet
  {
    hide At, Write;
    AtWrite(Criteria, OfList(s.rankingRules), f);
    AtWrite(StopWords, OfNames(s.stopWords), f);
    AtWrite(Synonyms, OfTable(s.synonyms), f);
    AtWrite(Distinct, OfName(s.distinctAttribute), f);
    var two := Write(Criteria, OfList(s.rankingRules)) + Write(StopWords, OfNames(s.stopWords));
    var three := two + Write(Synonyms, OfTable(s.synonyms));
    AtMerge(Write(Criteria, OfList(s.rankingRules)), Write(StopWords, OfNames(s.stopWords)), f);
    AtMerge(two, Write(Synonyms, OfTable(s.synonyms)), f);
    AtMerge(three, Write(Distinct, OfName(s.distinctAttribute)), f);
  }

  lemma AtWordSizes(min: Setting<MinWordSizeTyposSetting>, f: Field)
    ensures At(MinWordSizeWrites(min), f) ==
      match f
      case MinWordLenOneTypo => Inner(min, (m: MinWordSizeTyposSetting) => OfNumber(m.oneTypo))
      case MinWordLenTwoTypos => Inner(min, (m: MinWordSizeTyposSetting) => OfNumber(m.twoTypos))
      case _ => NotSet
  {
    hide At, Write, Unset;
    AtWrite(MinWordLenOneTypo, Reset, f);
    AtWrite(MinWordLenTwoTypos, Reset, f);
    AtMerge(Unset(MinWordLenOneTypo), Unset(MinWordLenTwoTypos), f);
    if min.Set? {
      var one, two := OfNumber(min.value.oneTypo), OfNumber(min.value.twoTypos);
      AtWrite(MinWordLenOneTypo, one, f);
      AtWrite(MinWordLenTwoTypos, two, f);
      AtMerge(Write(MinWordLenOneTypo, one), Write(MinWordLenTwoTypos, two), f);
    }
  }

  lemma AtTypo(typo: Setting<TypoSettings>, f: Field)
    ensures At(TypoWrites(typo), f) ==
      match f
      case AuthorizeTypos => Inner(typo, (t: TypoSettings) => OfFlag(t.enabled))
      case MinWordLenOneTypo => WordSize(typo, (m: MinWordSizeTyposSetting) => OfNumber(m.oneTypo))
      case MinWordLenTwoTypos => WordSize(typo, (m: MinWordSizeTyposSetting) => OfNumber(m.twoTypos))
      case ExactWords => Inner(typo, (t: TypoSettings) => OfNames(t.disableOnWords))
      case ExactAttributes => Inner(typo, (t: TypoSettings) => OfNames(t.disableOnAttributes))
      case _ => NotSet
  {
    match typo {
      case NotSet => AtWrite(AuthorizeTypos, Reset, f);
      case Reset => AtTypoReset(f);
      case Set(t) => AtTypoFields(t, f);
    }
  }

  lemma AtTypoReset(f: Field)
    ensures At(TypoWrites(Reset), f)
         == if f in {AuthorizeTypos, MinWordLenOneTypo, MinWordLenTwoTypos, ExactWords, ExactAttributes} then Reset else NotSet
  {
    hide At, Unset;
    AtWrite(AuthorizeTypos, Reset, f);
    AtWrite(MinWordLenOneTypo, Reset, f);
    AtWrite(MinWordLenTwoTypos, Reset, f);
    AtWrite(ExactWords, Reset, f);
    AtWrite(ExactAttributes, Reset, f);
    var two := Unset(AuthorizeTypos) + Unset(MinWordLenOneTypo);
    var three := two + Unset(MinWordLenTwoTypos);
    var four := three + Unset(ExactWords);
    AtMerge(Unset(AuthorizeTypos), Unset(MinWordLenOneTypo), f);
    AtMerge(two, Unset(MinWordLenTwoTypos), f);
    AtMerge(three, Unset(ExactWords), f);
    AtMerge(four, Unset(ExactAttributes), f);
  }

  lemma AtTypoFields(t: TypoSettings, f: Field)
    ensures At(TypoFieldWrites(t), f) ==
      match f
      case AuthorizeTypos => OfFlag(t.enabled)
      case ExactWords => OfNames(t.disableOnWords)
      case ExactAttributes => OfNames(t.disableOnAttributes)
      case _ => At(MinWordSizeWrites(t.minWordSizeForTypos), f)
    ensures f != MinWordLenOneTypo && f != MinWordLenTwoTypos ==> At(MinWordSizeWrites(t.minWordSizeForTypos), f) == NotSet
  {
    hide At, Write, MinWordSizeWrites;
    AtWrite(AuthorizeTypos, OfFlag(t.enabled), f);
    AtWordSizes(t.minWordSizeForTypos, f);
    AtWrite(ExactWords, OfNames(t.disableOnWords), f);
    AtWrite(ExactAttributes, OfNames(t.disableOnAttributes), f);
    var two := Write(AuthorizeTypos, OfFlag(t.enabled)) + MinWordSizeWrites(t.minWordSizeForTypos);
    var three := two + Write(ExactWords, OfNames(t.disableOnWords));
    AtMerge(Write(AuthorizeTypos, OfFlag(t.enabled)), MinWordSizeWrites(t.minWordSizeForTypos), f);
    AtMerge(two, Write(ExactWords, OfNames(t.disableOnWords)), f);
    AtMerge(three, Write(ExactAttributes, OfNames(t.disableOnAttributes)), f);
  }

  lemma AtFaceting(faceting: Setting<FacetingSettings>, f: Field)
    ensures At(FacetingWrites(faceting), f) ==
      match f
      case MaxValuesPerFacet => Inner(faceting, (x: FacetingSettings) => OfNumber(x.maxValuesPerFacet))
      case SortFacetValuesBy => Inner(faceting, (x: FacetingSettings) => OfOrders(x.sortFacetValuesBy))
      case _ => NotSet
  {
    hide At, Write, Unset;
    AtWrite(MaxValuesPerFacet, Reset, f);
    AtWrite(SortFacetValuesBy, Reset, f);
    AtMerge(Unset(MaxValuesPerFacet), Unset(SortFacetValuesBy), f);
    if faceting.Set? {
      var most, order := OfNumber(faceting.value.maxValuesPerFacet), OfOrders(faceting.value.sortFacetValuesBy);
      AtWrite(MaxValuesPerFacet, most, f);
      AtWrite(SortFacetValuesBy, order, f);
      AtMerge(Write(MaxValuesPerFacet, most), Write(SortFacetValuesBy, order), f);
    }
  }

  lemma AtPagination(pagination: Setting<PaginationSettings>, f: Field)
    ensures At(PaginationWrites(pagination), f)
         == if f == PaginationMaxTotalHits then Inner(pagination, (p: PaginationSettings) => OfNumber(p.maxTotalHits)) else NotSet
  {
    hide At, Write, Unset;
    AtWrite(PaginationMaxTotalHits, if pagination.Set? then OfNumber(pagination.value.maxTotalHits) else Reset, f);
  }

  /** What all the writes of a task do to a field. */
  lemma AtWrites(s: IndexSettings, f: Field)
    ensures At(Writes(s), f) ==
      if !At(AttributeWrites(s), f).NotSet? then At(AttributeWrites(s), f)
      else if !At(RankingWrites(s), f).NotSet? then At(RankingWrites(s), f)
      else if !At(TypoWrites(s.typoTolerance), f).NotSet? then At(TypoWrites(s.typoTolerance), f)
      else if !At(FacetingWrites(s.faceting), f).NotSet? then At(FacetingWrites(s.faceting), f)
      else At(PaginationWrites(s.pagination), f)
  {
    hide At, AttributeWrites, RankingWrites, TypoWrites, FacetingWrites, PaginationWrites, Inner, WordSize;
    AtAttributes(s, f);
    AtRanking(s, f);
    AtTypo(s.typoTolerance, f);
    AtFaceting(s.faceting, f);
    AtPagination(s.pagination, f);
    var two := AttributeWrites(s) + RankingWrites(s);
    var three := two + TypoWrites(s.typoTolerance);
    var four := three + FacetingWrites(s.faceting);
    AtMerge(AttributeWrites(s), RankingWrites(s), f);
    AtMerge(two, TypoWrites(s.typoTolerance), f);
    AtMerge(three, FacetingWrites(s.faceting), f);
    AtMerge(four, PaginationWrites(s.pagination), f);
  }

  /** What a settings task asks for a field. */
  function Wanted(s: IndexSettings, f: Field): Setting<Value> {
    match f
    case Displayed => WithoutStar(s.displayedAttributes)
    case Searchable => WithoutStar(s.searchableAttributes)
    case Filterable => OfNames(s.filterableAttributes)
    case Sortable => OfNames(s.sortableAttributes)
    case Criteria => OfList(s.rankingRules)
    case StopWords => OfNames(s.stopWords)
    case Synonyms => OfTable(s.synonyms)
    case Distinct => OfName(s.distinctAttribute)
    case AuthorizeTypos => Inner(s.typoTolerance, (t: TypoSettings) => OfFlag(t.enabled))
    case MinWordLenOneTypo => WordSize(s.typoTolerance, (m: MinWordSizeTyposSetting) => OfNumber(m.oneTypo))
    case MinWordLenTwoTypos => WordSize(s.typoTolerance, (m: MinWordSizeTyposSetting) => OfNumber(m.twoTypos))
    case ExactWords => Inner(s.typoTolerance, (t: TypoSettings) => OfNames(t.disableOnWords))
    case ExactAttributes => Inner(s.typoTolerance, (t: TypoSettings) => OfNames(t.disableOnAttributes))
    case MaxValuesPerFacet => Inner(s.faceting, (x: FacetingSettings) => OfNumber(x.maxValuesPerFacet))
    case SortFacetValuesBy => Inner(s.faceting, (x: FacetingSettings) => OfOrders(x.sortFacetValuesBy))
    case PaginationMaxTotalHits => Inner(s.pagination, (p: PaginationSettings) => OfNumber(p.maxTotalHits))
  }

  lemma AtWanted(s: IndexSettings, f: Field)
    ensures At(Writes(Check(s)), f) == Wanted(s, f)
  {
    hide At, Writes, AttributeWrites, RankingWrites, TypoWrites, FacetingWrites, PaginationWrites;
    var checked := Check(s);
    AtWrites(checked, f);
    AtAttributes(checked, f);
    AtRanking(checked, f);
    AtTypo(s.typoTolerance, f);
    AtFaceting(s.faceting, f);
    AtPagination(s.pagination, f);
  }

  /** The stored settings after one settings task: each field takes what the task asks for it. */
  lemma TaskStores(s: IndexSettings, before: StoredSettings)
    ensures forall f: Field :: Takes(Wanted(s, f), f, before, Execute(Writes(Check(s)), before))
  {
    hide At, Writes, Takes, Wanted, Execute;
    forall f: Field
      ensures Takes(Wanted(s, f), f, before, Execute(Writes(Check(s)), before))
    {
      AtWanted(s, f);
      AtExecute(Writes(Check(s)), before, f);
    }
  }

  /** So does a settings task executed alone on an index. */
  lemma SettingsTaskExactly(milli: Milli, index: Index, kind: KindWithContent)
    requires kind.SettingsUpdate?
    ensures
      var r := Effect(milli, Some(index), kind);
      && r.Some? && r.value.documents == index.documents && r.value.primaryKey == index.primaryKey
      && forall f: Field :: Takes(Wanted(kind.newSettings, f), f, index.settings, r.value.settings)
  {
    hide Takes, Wanted, Writes, Check, Execute;
    TaskStores(kind.newSettings, index.settings);
    WritesSnoc([], kind.newSettings);
  }
}

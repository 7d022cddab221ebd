/**
 The filter parser accepts exactly the texts that have a reading within the depth budget.

 The parser never looks back after a keyword or an opening parenthesis; these lemmas show that it
 loses nothing by it.
*/
module FilterGrammar {
  import opened Wrappers
  import opened FilterSyntax
  import opened FilterParser
  import opened FilterMeaning

  /** Letters are alphanumeric and brackets are not; geo conditions start with their own words. */
  ghost predicate IsSane(lang: Language) {
    && (forall c | 'A' <= c <= 'Z' :: lang.alphanumeric(c))
    && !lang.alphanumeric('(') && !lang.alphanumeric(')')
    && (forall s :: lang.geo(s).Matched? ==>
          var word := TakeWord(lang, SkipSpaces(s));
          word.Matched? && (word.value == "_geoRadius" || word.value == "_geoBoundingBox"))
  }

  /** What follows a group of the grammar does not continue it. */
  predicate StopsAnd(lang: Language, s: string) {
    !WsWord(lang, s, "AND").Matched?
  }

  predicate StopsOr(lang: Language, s: string) {
    StopsAnd(lang, s) && !WsWord(lang, s, "OR").Matched?
  }

  lemma WordsAreWords(lang: Language, s: string, a: string, b: string)
    requires WsWord(lang, s, a).Matched? && a != b
    ensures !WsWord(lang, s, b).Matched?
  {
  }

  lemma NeverFailure(lang: Language, s: string, word: string)
    ensures !WsWord(lang, s, word).Failure? && !WsTag(s, word).Failure?
  {
  }

  lemma NoWordAtParenthesis(lang: Language, s: string, tag: string, word: string)
    requires IsSane(lang) && (tag == "(" || tag == ")") && WsTag(s, tag).Matched?
    ensures !WsWord(lang, s, word).Matched? && TakeWord(lang, SkipSpaces(s)) == Error
    ensures SkipSpaces(s) != [] && SkipSpaces(s)[0] == tag[0]
  {
    var t := SkipSpaces(s);
    assert tag <= t && t[0] == tag[0];
    assert !IsValueComponent(lang, t[0]);
  }

  lemma NoWordAtEnd(lang: Language, word: string)
    ensures !WsWord(lang, "", word).Matched?
  {
  }

  lemma {:induction false} SpacesAreWhitespace(s: string)
    requires SkipSpaces(s) != [] && !IsWhitespace(SkipSpaces(s)[0])
    ensures SkipWhitespace(s) == SkipSpaces(s)
  {
    if IsSpace(s[0]) {
      SpacesAreWhitespace(s[1..]);
    }
  }

  /** No value starts with the word NOT, nor with a parenthesis. */
  lemma NoValueThere(lang: Language, s: string)
    requires IsSane(lang) && (WsWord(lang, s, "NOT").Matched? || WsTag(s, "(").Matched?)
    ensures !ParseValue(lang, s).Matched?
  {
    hide SkipSpaces, SkipWhitespace;
    var t := SkipSpaces(s);
    if WsTag(s, "(").Matched? {
      NoWordAtParenthesis(lang, s, "(", "NOT");
    } else {
      StartsWithN(lang, t);
    }
    SpacesAreWhitespace(s);
  }

  lemma StartsWithN(lang: Language, t: string)
    requires WordExact(lang, t, "NOT").Matched?
    ensures t != [] && t[0] == 'N' && WordNotKeyword(lang, t) == Error
  {
    var n := WordLength(lang, t);
    assert t[..n] == "NOT" && t[0] == t[..n][0];
    assert KEYWORDS[3] == "NOT";
  }

  lemma NoGeoThere(lang: Language, s: string)
    requires IsSane(lang) && (WsWord(lang, s, "NOT").Matched? || WsTag(s, "(").Matched?)
    ensures !lang.geo(s).Matched?
  {
    if WsTag(s, "(").Matched? {
      NoWordAtParenthesis(lang, s, "(", "NOT");
    }
  }

  lemma NoAtomThere(lang: Language, s: string)
    requires IsSane(lang) && (WsWord(lang, s, "NOT").Matched? || WsTag(s, "(").Matched?)
    ensures !ParseAtom(lang, s).Matched?
  {
    hide ParseValue, ParseInBody, Words, Operator, IsSane, WsWord, WsTag;
    NoValueThere(lang, s);
    NoGeoThere(lang, s);
  }

  lemma {:induction false} OrComplete(lang: Language, r: OrReading, input: string, rest: string, depth: nat)
    requires IsSane(lang) && OrOk(r) && ReadsOr(lang, r, input, rest) && StopsOr(lang, rest) && OrWithin(r, depth)
    ensures depth <= MAX_FILTER_DEPTH - 3 && ParseOr(lang, input, depth) == Matched(rest, OrTree(r))
    decreases r, 2
  {
    hide IsSane, StopsAnd, WsWord, ParseAnd, ReadsAnd, AndTree;
    OrNestingBound(r, depth);
    var a :| ReadsAnd(lang, r.ands[0], input, a) && ReadsOrs(lang, r.ands[1..], a, rest);
    OrsStopAnd(lang, r.ands[1..], a, rest);
    AndComplete(lang, r.ands[0], input, a, depth);
    ManyOrComplete(lang, r.ands[1..], a, rest, depth);
  }

  /** Whatever follows an AND group, it is not an AND. */
  lemma OrsStopAnd(lang: Language, ands: seq<AndReading>, input: string, rest: string)
    requires ReadsOrs(lang, ands, input, rest) && StopsOr(lang, rest)
    ensures StopsAnd(lang, input)
  {
    if ands != [] {
      WordsAreWords(lang, input, "OR", "AND");
    }
  }

  lemma {:induction false} ManyOrComplete(lang: Language, ands: seq<AndReading>, input: string, rest: string, depth: nat)
    requires IsSane(lang) && AndsOk(ands) && ReadsOrs(lang, ands, input, rest) && StopsOr(lang, rest)
    requires AndsWithin(ands, depth) && depth <= MAX_FILTER_DEPTH - 3
    ensures ManyOr(lang, input, depth) == Matched(rest, AndTrees(ands))
    decreases ands, 1
  {
    hide IsSane, StopsAnd, ParseAnd, ReadsAnd, AndTree, WordExact, SkipSpaces;
    NeverFailure(lang, input, "OR");
    if ands != [] {
      var a, b :| WsWord(lang, input, "OR") == Matched(a, ()) && ReadsAnd(lang, ands[0], a, b) && ReadsOrs(lang, ands[1..], b, rest);
      OrsStopAnd(lang, ands[1..], b, rest);
      AndComplete(lang, ands[0], a, b, depth);
      ManyOrComplete(lang, ands[1..], b, rest, depth);
    }
  }

  lemma {:induction false} AndComplete(lang: Language, r: AndReading, input: string, rest: string, charge: nat)
    requires IsSane(lang) && AndOk(r) && ReadsAnd(lang, r, input, rest) && StopsAnd(lang, rest)
    requires AndWithin(r, charge) && charge <= MAX_FILTER_DEPTH - 3
    ensures ParseAnd(lang, input, charge + 1) == Matched(rest, AndTree(r))
    decreases r, 2
  {
    hide IsSane, StopsAnd, WsWord, ParseNot, ReadsNot, NotTree;
    var a :| ReadsNot(lang, r.nots[0], input, a) && ReadsAnds(lang, r.nots[1..], a, rest);
    NotComplete(lang, r.nots[0], input, a, charge);
    ManyAndComplete(lang, r.nots[1..], a, rest, charge);
  }

  lemma {:induction false} ManyAndComplete(lang: Language, nots: seq<NotReading>, input: string, rest: string, charge: nat)
    requires IsSane(lang) && NotsOk(nots) && ReadsAnds(lang, nots, input, rest) && StopsAnd(lang, rest)
    requires NotsWithin(nots, charge) && charge <= MAX_FILTER_DEPTH - 3
    ensures ManyAnd(lang, input, charge + 1) == Matched(rest, NotTrees(nots))
    decreases nots, 1
  {
    hide IsSane, ParseNot, ReadsNot, NotTree, WordExact, SkipSpaces;
    NeverFailure(lang, input, "AND");
    if nots != [] {
      var a, b :| WsWord(lang, input, "AND") == Matched(a, ()) && ReadsNot(lang, nots[0], a, b) && ReadsAnds(lang, nots[1..], b, rest);
      NotComplete(lang, nots[0], a, b, charge);
      ManyAndComplete(lang, nots[1..], b, rest, charge);
    }
  }

  lemma {:induction false} NotComplete(lang: Language, r: NotReading, input: string, rest: string, charge: nat)
    requires IsSane(lang) && NotOk(r) && ReadsNot(lang, r, input, rest) && NotWithin(r, charge)
    ensures charge <= MAX_FILTER_DEPTH - 3 && ParseNot(lang, input, charge + 2) == Matched(rest, NotTree(r))
    decreases r, 1
  {
    hide IsSane, WordExact, SkipSpaces, ParseAtom, ParseOr, OrTree, ReadsOr;
    NotNestingBound(r, charge);
    NeverFailure(lang, input, "NOT");
    NeverFailure(lang, input, "(");
    match r {
      case Negation(e) =>
        var a :| WsWord(lang, input, "NOT") == Matched(a, ()) && ReadsNot(lang, e, a, rest);
        NotComplete(lang, e, a, rest, charge + 1);
      case Plain(Parens(e)) =>
        var a, b :| WsTag(input, "(") == Matched(a, ()) && ReadsOr(lang, e, a, b) && WsTag(b, ")") == Matched(rest, ());
        NoWordAtParenthesis(lang, input, "(", "NOT");
        NoWordAtParenthesis(lang, b, ")", "OR");
        NoWordAtParenthesis(lang, b, ")", "AND");
        OrComplete(lang, e, a, b, charge + 4);
      case Plain(Atom(f)) =>
        if WsWord(lang, input, "NOT").Matched? || WsTag(input, "(").Matched? {
          NoAtomThere(lang, input);
        }
    }
  }

  /** A text is accepted with a tree exactly when it has a reading of that tree within the budget. */
  lemma AcceptedExactly(lang: Language, text: string, f: FilterCondition)
    requires IsSane(lang)
    ensures
      ParseFilter(lang, text) == Some(f)
      <==> exists r :: ReadsOr(lang, r, text, "") && OrWithin(r, 0) && OrTree(r) == f
  {
    hide IsSane, ReadsOr, OrWithin, OrTree, ParseOr, WsWord, OrOk;
    if ParseFilter(lang, text) == Some(f) {
      var r := OrRead(lang, text, 0, 0);
      assert ReadsOr(lang, r, text, "") && OrWithin(r, 0) && OrTree(r) == f;
    }
    if r :| ReadsOr(lang, r, text, "") && OrWithin(r, 0) && OrTree(r) == f {
      ReadOrOk(lang, r, text, "");
      NoWordAtEnd(lang, "AND");
      NoWordAtEnd(lang, "OR");
      OrComplete(lang, r, text, "", 0);
    }
  }

  // No text has two readings

  lemma {:induction false} OrUnique(lang: Language, r: OrReading, q: OrReading, input: string, a: string, b: string)
    requires IsSane(lang) && ReadsOr(lang, r, input, a) && ReadsOr(lang, q, input, b)
    requires StopsOr(lang, a) && StopsOr(lang, b)
    ensures r == q && a == b
    decreases r, 2
  {
    hide IsSane, StopsAnd, WsWord, ReadsAnd;
    var c :| ReadsAnd(lang, r.ands[0], input, c) && ReadsOrs(lang, r.ands[1..], c, a);
    var d :| ReadsAnd(lang, q.ands[0], input, d) && ReadsOrs(lang, q.ands[1..], d, b);
    OrsStopAnd(lang, r.ands[1..], c, a);
    OrsStopAnd(lang, q.ands[1..], d, b);
    AndUnique(lang, r.ands[0], q.ands[0], input, c, d);
    OrsUnique(lang, r.ands[1..], q.ands[1..], c, a, b);
    assert r.ands == [r.ands[0]] + r.ands[1..] && q.ands == [q.ands[0]] + q.ands[1..];
  }

  lemma {:induction false} OrsUnique(lang: Language, ands: seq<AndReading>, others: seq<AndReading>, input: string, a: string, b: string)
    requires IsSane(lang) && ReadsOrs(lang, ands, input, a) && ReadsOrs(lang, others, input, b)
    requires StopsOr(lang, a) && StopsOr(lang, b)
    ensures ands == others && a == b
    decreases ands, 1
  {
    hide IsSane, StopsAnd, WsWord, ReadsAnd;
    if ands != [] && others != [] {
      var s, c :| WsWord(lang, input, "OR") == Matched(s, ()) && ReadsAnd(lang, ands[0], s, c) && ReadsOrs(lang, ands[1..], c, a);
      var t, d :| WsWord(lang, input, "OR") == Matched(t, ()) && ReadsAnd(lang, others[0], t, d) && ReadsOrs(lang, others[1..], d, b);
      OrsStopAnd(lang, ands[1..], c, a);
      OrsStopAnd(lang, others[1..], d, b);
      AndUnique(lang, ands[0], others[0], s, c, d);
      OrsUnique(lang, ands[1..], others[1..], c, a, b);
      assert ands == [ands[0]] + ands[1..] && others == [others[0]] + others[1..];
    }
  }

  lemma {:induction false} AndUnique(lang: Language, r: AndReading, q: AndReading, input: string, a: string, b: string)
    requires IsSane(lang) && ReadsAnd(lang, r, input, a) && ReadsAnd(lang, q, input, b)
    requires StopsAnd(lang, a) && StopsAnd(lang, b)
    ensures r == q && a == b
    decreases r, 2
  {
    hide IsSane, WsWord, ReadsNot;
    var c :| ReadsNot(lang, r.nots[0], input, c) && ReadsAnds(lang, r.nots[1..], c, a);
    var d :| ReadsNot(lang, q.nots[0], input, d) && ReadsAnds(lang, q.nots[1..], d, b);
    NotUnique(lang, r.nots[0], q.nots[0], input, c, d);
    AndsUnique(lang, r.nots[1..], q.nots[1..], c, a, b);
    assert r.nots == [r.nots[0]] + r.nots[1..] && q.nots == [q.nots[0]] + q.nots[1..];
  }

  lemma {:induction false} AndsUnique(lang: Language, nots: seq<NotReading>, others: seq<NotReading>, input: string, a: string, b: string)
    requires IsSane(lang) && ReadsAnds(lang, nots, input, a) && ReadsAnds(lang, others, input, b)
    requires StopsAnd(lang, a) && StopsAnd(lang, b)
    ensures nots == others && a == b
    decreases nots, 1
  {
    hide IsSane, WsWord, ReadsNot;
    if nots != [] && others != [] {
      var s, c :| WsWord(lang, input, "AND") == Matched(s, ()) && ReadsNot(lang, nots[0], s, c) && ReadsAnds(lang, nots[1..], c, a);
      var t, d :| WsWord(lang, input, "AND") == Matched(t, ()) && ReadsNot(lang, others[0], t, d) && ReadsAnds(lang, others[1..], d, b);
      NotUnique(lang, nots[0], others[0], s, c, d);
      AndsUnique(lang, nots[1..], others[1..], c, a, b);
      assert nots == [nots[0]] + nots[1..] && others == [others[0]] + others[1..];
    }
  }

  lemma {:induction false} NotUnique(lang: Language, r: NotReading, q: NotReading, input: string, a: string, b: string)
    requires IsSane(lang) && ReadsNot(lang, r, input, a) && ReadsNot(lang, q, input, b)
    ensures r == q && a == b
    decreases r, 1
  {
    hide IsSane, WsWord, WsTag, ParseAtom, ReadsOr, StopsOr;
    OneWayIn(lang, input);
    match (r, q) {
      case (Negation(e), Negation(g)) =>
        var c :| WsWord(lang, input, "NOT") == Matched(c, ()) && ReadsNot(lang, e, c, a);
        var d :| WsWord(lang, input, "NOT") == Matched(d, ()) && ReadsNot(lang, g, d, b);
        NotUnique(lang, e, g, c, a, b);
      case (Plain(Parens(e)), Plain(Parens(g))) =>
        var c, x :| WsTag(input, "(") == Matched(c, ()) && ReadsOr(lang, e, c, x) && WsTag(x, ")") == Matched(a, ());
        var d, y :| WsTag(input, "(") == Matched(d, ()) && ReadsOr(lang, g, d, y) && WsTag(y, ")") == Matched(b, ());
        ClosingStops(lang, x);
        ClosingStops(lang, y);
        OrUnique(lang, e, g, c, x, y);
      case _ =>
    }
  }

  /** A negation, a parenthesis and a condition never start in the same way. */
  lemma OneWayIn(lang: Language, s: string)
    requires IsSane(lang)
    ensures WsTag(s, "(").Matched? ==> !WsWord(lang, s, "NOT").Matched?
    ensures WsTag(s, "(").Matched? || WsWord(lang, s, "NOT").Matched? ==> !ParseAtom(lang, s).Matched?
  {
    hide IsSane, ParseAtom, WsWord, WsTag;
    if WsTag(s, "(").Matched? {
      NoWordAtParenthesis(lang, s, "(", "NOT");
    }
    if WsTag(s, "(").Matched? || WsWord(lang, s, "NOT").Matched? {
      NoAtomThere(lang, s);
    }
  }

  lemma ClosingStops(lang: Language, s: string)
    requires IsSane(lang) && WsTag(s, ")").Matched?
    ensures StopsOr(lang, s)
  {
    NoWordAtParenthesis(lang, s, ")", "OR");
    NoWordAtParenthesis(lang, s, ")", "AND");
  }

  /** No text is ambiguous. */
  lemma ReadingsAgree(lang: Language, text: string, r: OrReading, q: OrReading)
    requires IsSane(lang) && ReadsOr(lang, r, text, "") && ReadsOr(lang, q, text, "")
    ensures r == q
  {
    hide IsSane, ReadsOr, WsWord;
    NoWordAtEnd(lang, "AND");
    NoWordAtEnd(lang, "OR");
    OrUnique(lang, r, q, text, "", "");
  }

  /** So a text with a reading is accepted exactly when that reading keeps to the budget, and then with its tree. */
  lemma ReadTextAccepted(lang: Language, text: string, r: OrReading)
    requires IsSane(lang) && ReadsOr(lang, r, text, "")
    ensures ParseFilter(lang, text) == if OrWithin(r, 0) then Some(OrTree(r)) else None
  {
    hide IsSane, ReadsOr, OrWithin, OrTree, ParseFilter;
    AcceptedExactly(lang, text, OrTree(r));
    if ParseFilter(lang, text).Some? {
      var f := ParseFilter(lang, text).value;
      AcceptedExactly(lang, text, f);
      var q :| ReadsOr(lang, q, text, "") && OrWithin(q, 0) && OrTree(q) == f;
      ReadingsAgree(lang, text, r, q);
    }
  }
}

/**
 What a filter means, and that its tree means it.

 A reading of a text says how it is made of conditions, NOT, AND, OR and parentheses, NOT binding
 tighter than AND, and AND than OR.  Every accepted text has a reading; its tree is the reading
 with double negations and one-element groups removed, and has the same truth value whatever the
 conditions are worth.
*/
module FilterMeaning {
  import opened Wrappers
  import opened FilterSyntax
  import opened FilterParser

  datatype OrReading = OrReading(ands: seq<AndReading>)

  datatype AndReading = AndReading(nots: seq<NotReading>)

  datatype NotReading = Negation(e: NotReading) | Plain(p: PrimaryReading)

  datatype PrimaryReading = Parens(e: OrReading) | Atom(f: FilterCondition)

  // Readings of texts

  ghost predicate ReadsOr(lang: Language, r: OrReading, input: string, rest: string)
    decreases r, 1
  {
    r.ands != [] && exists a :: ReadsAnd(lang, r.ands[0], input, a) && ReadsOrs(lang, r.ands[1..], a, rest)
  }

  ghost predicate ReadsOrs(lang: Language, ands: seq<AndReading>, input: string, rest: string)
    decreases ands, 0
  {
    if ands == [] then rest == input
    else
      exists a, b ::
        && WsWord(lang, input, "OR") == Matched(a, ())
        && ReadsAnd(lang, ands[0], a, b) && ReadsOrs(lang, ands[1..], b, rest)
  }

  ghost predicate ReadsAnd(lang: Language, r: AndReading, input: string, rest: string)
    decreases r, 1
  {
    r.nots != [] && exists a :: ReadsNot(lang, r.nots[0], input, a) && ReadsAnds(lang, r.nots[1..], a, rest)
  }

  ghost predicate ReadsAnds(lang: Language, nots: seq<NotReading>, input: string, rest: string)
    decreases nots, 0
  {
    if nots == [] then rest == input
    else
      exists a, b ::
        && WsWord(lang, input, "AND") == Matched(a, ())
        && ReadsNot(lang, nots[0], a, b) && ReadsAnds(lang, nots[1..], b, rest)
  }

  ghost predicate ReadsNot(lang: Language, r: NotReading, input: string, rest: string)
    decreases r, 0
  {
    match r
    case Negation(e) => exists a :: WsWord(lang, input, "NOT") == Matched(a, ()) && ReadsNot(lang, e, a, rest)
    case Plain(p) => ReadsPrimary(lang, p, input, rest)
  }

  ghost predicate ReadsPrimary(lang: Language, r: PrimaryReading, input: string, rest: string)
    decreases r, 0
  {
    match r
    case Parens(e) =>
      exists a, b ::
        && WsTag(input, "(") == Matched(a, ()) && ReadsOr(lang, e, a, b) && WsTag(b, ")") == Matched(rest, ())
    case Atom(f) => ParseAtom(lang, input) == Matched(rest, f)
  }

  // Truth values

  /** A condition with nothing under it. */
  predicate IsCondition(f: FilterCondition) {
    f.Compare? || f.In? || f.Geo?
  }

  /** The value of a tree, given the value of each condition. */
  predicate Holds(f: FilterCondition, v: FilterCondition -> bool)
    decreases f
  {
    match f
    case Not(g) => !Holds(g, v)
    case Or(fs) => AnyHolds(fs, v)
    case And(fs) => AllHold(fs, v)
    case Compare(_, _) => v(f)
    case In(_, _) => v(f)
    case Geo(_) => v(f)
  }

  predicate AnyHolds(fs: seq<FilterCondition>, v: FilterCondition -> bool)
    decreases fs
  {
    fs != [] && (Holds(fs[0], v) || AnyHolds(fs[1..], v))
  }

  predicate AllHold(fs: seq<FilterCondition>, v: FilterCondition -> bool)
    decreases fs
  {
    fs != [] ==> Holds(fs[0], v) && AllHold(fs[1..], v)
  }

  predicate OrHolds(r: OrReading, v: FilterCondition -> bool)
    decreases r, 1
  {
    SomeAnd(r.ands, v)
  }

  predicate SomeAnd(ands: seq<AndReading>, v: FilterCondition -> bool)
    decreases ands, 0
  {
    ands != [] && (AndHolds(ands[0], v) || SomeAnd(ands[1..], v))
  }

  predicate AndHolds(r: AndReading, v: FilterCondition -> bool)
    decreases r, 1
  {
    EveryNot(r.nots, v)
  }

  predicate EveryNot(nots: seq<NotReading>, v: FilterCondition -> bool)
    decreases nots, 0
  {
    nots != [] ==> NotHolds(nots[0], v) && EveryNot(nots[1..], v)
  }

  predicate NotHolds(r: NotReading, v: FilterCondition -> bool)
    decreases r, 0
  {
    match r
    case Negation(e) => !NotHolds(e, v)
    case Plain(p) => PrimaryHolds(p, v)
  }

  predicate PrimaryHolds(r: PrimaryReading, v: FilterCondition -> bool)
    decreases r, 0
  {
    match r
    case Parens(e) => OrHolds(e, v)
    case Atom(f) => Holds(f, v)
  }

  // Depth

  /** Every condition has at most 197 in charges above it: 4 for a pair of parentheses, 1 for a NOT. */
  predicate OrWithin(r: OrReading, charge: nat)
    decreases r, 1
  {
    AndsWithin(r.ands, charge)
  }

  predicate AndsWithin(ands: seq<AndReading>, charge: nat)
    decreases ands, 0
  {
    ands != [] ==> AndWithin(ands[0], charge) && AndsWithin(ands[1..], charge)
  }

  predicate AndWithin(r: AndReading, charge: nat)
    decreases r, 1
  {
    NotsWithin(r.nots, charge)
  }

  predicate NotsWithin(nots: seq<NotReading>, charge: nat)
    decreases nots, 0
  {
    nots != [] ==> NotWithin(nots[0], charge) && NotsWithin(nots[1..], charge)
  }

  predicate NotWithin(r: NotReading, charge: nat)
    decreases r, 0
  {
    match r
    case Negation(e) => NotWithin(e, charge + 1)
    case Plain(Parens(e)) => OrWithin(e, charge + 4)
    case Plain(Atom(_)) => charge <= MAX_FILTER_DEPTH - 3
  }

  // The tree of a reading

  function OrTree(r: OrReading): FilterCondition
    decreases r, 1
  {
    var fs := AndTrees(r.ands);
    if |fs| == 1 then fs[0] else Or(fs)
  }

  function AndTrees(ands: seq<AndReading>): (fs: seq<FilterCondition>)
    ensures |fs| == |ands|
    decreases ands, 0
  {
    if ands == [] then [] else [AndTree(ands[0])] + AndTrees(ands[1..])
  }

  function AndTree(r: AndReading): FilterCondition
    decreases r, 1
  {
    var fs := NotTrees(r.nots);
    if |fs| == 1 then fs[0] else And(fs)
  }

  function NotTrees(nots: seq<NotReading>): (fs: seq<FilterCondition>)
    ensures |fs| == |nots|
    decreases nots, 0
  {
    if nots == [] then [] else [NotTree(nots[0])] + NotTrees(nots[1..])
  }

  function NotTree(r: NotReading): FilterCondition
    decreases r, 0
  {
    match r
    case Negation(e) => Negate(NotTree(e))
    case Plain(Parens(e)) => OrTree(e)
    case Plain(Atom(f)) => f
  }

  // Every accepted text has a reading

  lemma OrRead(lang: Language, input: string, depth: nat, charge: nat) returns (r: OrReading)
    requires depth <= MAX_FILTER_DEPTH + 1 && depth == charge
    requires ParseOr(lang, input, depth).Matched?
    ensures ReadsOr(lang, r, input, ParseOr(lang, input, depth).rest)
    ensures OrTree(r) == ParseOr(lang, input, depth).value
    ensures OrWithin(r, charge)
    decreases MAX_FILTER_DEPTH + 1 - depth, |input|, 1
  {
    var a := ParseAnd(lang, input, depth + 1).rest;
    var first := AndRead(lang, input, depth + 1, charge);
    var more := ManyOrRead(lang, a, depth, charge);
    r := OrReading([first] + more);
    assert r.ands[1..] == more;
  }

  lemma ManyOrRead(lang: Language, input: string, depth: nat, charge: nat) returns (ands: seq<AndReading>)
    requires depth <= MAX_FILTER_DEPTH && depth == charge
    requires ManyOr(lang, input, depth).Matched?
    ensures ReadsOrs(lang, ands, input, ManyOr(lang, input, depth).rest)
    ensures AndTrees(ands) == ManyOr(lang, input, depth).value
    ensures AndsWithin(ands, charge)
    decreases MAX_FILTER_DEPTH + 1 - depth, |input|, 0
  {
    hide ParseAnd, WordExact, SkipSpaces, AndTree, ReadsAnd, AndWithin;
    if WsWord(lang, input, "OR").Matched? {
      var a := WsWord(lang, input, "OR").rest;
      var b := ParseAnd(lang, a, depth + 1).rest;
      var next := AndRead(lang, a, depth + 1, charge);
      var more := ManyOrRead(lang, b, depth, charge);
      ands := [next] + more;
      assert ands[1..] == more;
    } else {
      ands := [];
    }
  }

  lemma AndRead(lang: Language, input: string, depth: nat, charge: nat) returns (r: AndReading)
    requires depth <= MAX_FILTER_DEPTH + 1 && depth == charge + 1
    requires ParseAnd(lang, input, depth).Matched?
    ensures ReadsAnd(lang, r, input, ParseAnd(lang, input, depth).rest)
    ensures AndTree(r) == ParseAnd(lang, input, depth).value
    ensures AndWithin(r, charge)
    decreases MAX_FILTER_DEPTH + 1 - depth, |input|, 1
  {
    var a := ParseNot(lang, input, depth + 1).rest;
    var first := NotRead(lang, input, depth + 1, charge);
    var more := ManyAndRead(lang, a, depth, charge);
    r := AndReading([first] + more);
    assert r.nots[1..] == more;
  }

  lemma ManyAndRead(lang: Language, input: string, depth: nat, charge: nat) returns (nots: seq<NotReading>)
    requires depth <= MAX_FILTER_DEPTH && depth == charge + 1
    requires ManyAnd(lang, input, depth).Matched?
    ensures ReadsAnds(lang, nots, input, ManyAnd(lang, input, depth).rest)
    ensures NotTrees(nots) == ManyAnd(lang, input, depth).value
    ensures NotsWithin(nots, charge)
    decreases MAX_FILTER_DEPTH + 1 - depth, |input|, 0
  {
    hide ParseNot, WordExact, SkipSpaces, NotTree, ReadsNot, NotWithin;
    if WsWord(lang, input, "AND").Matched? {
      var a := WsWord(lang, input, "AND").rest;
      var b := ParseNot(lang, a, depth + 1).rest;
      var next := NotRead(lang, a, depth + 1, charge);
      var more := ManyAndRead(lang, b, depth, charge);
      nots := [next] + more;
      assert nots[1..] == more;
    } else {
      nots := [];
    }
  }

  lemma NotRead(lang: Language, input: string, depth: nat, charge: nat) returns (r: NotReading)
    requires depth <= MAX_FILTER_DEPTH + 1 && depth == charge + 2
    requires ParseNot(lang, input, depth).Matched?
    ensures ReadsNot(lang, r, input, ParseNot(lang, input, depth).rest)
    ensures NotTree(r) == ParseNot(lang, input, depth).value
    ensures NotWithin(r, charge)
    decreases MAX_FILTER_DEPTH + 1 - depth, |input|, 0
  {
    hide ParsePrimary, WordExact, SkipSpaces, ReadsPrimary;
    if WsWord(lang, input, "NOT").Matched? {
      var a := WsWord(lang, input, "NOT").rest;
      var e := NotRead(lang, a, depth + 1, charge + 1);
      r := Negation(e);
    } else {
      var p := PrimaryRead(lang, input, depth + 1, charge);
      r := Plain(p);
    }
  }

  lemma PrimaryRead(lang: Language, input: string, depth: nat, charge: nat) returns (r: PrimaryReading)
    requires depth <= MAX_FILTER_DEPTH + 1 && depth == charge + 3
    requires ParsePrimary(lang, input, depth).Matched?
    ensures ReadsPrimary(lang, r, input, ParsePrimary(lang, input, depth).rest)
    ensures NotTree(Plain(r)) == ParsePrimary(lang, input, depth).value
    ensures NotWithin(Plain(r), charge)
    decreases MAX_FILTER_DEPTH + 1 - depth, |input|, 0
  {
    if WsTag(input, "(").Matched? {
      var a := WsTag(input, "(").rest;
      var b := ParseOr(lang, a, depth + 1).rest;
      var e := OrRead(lang, a, depth + 1, charge + 4);
      r := Parens(e);
      assert WsTag(input, "(") == Matched(a, ());
      assert WsTag(b, ")") == Matched(ParsePrimary(lang, input, depth).rest, ());
    } else {
      r := Atom(ParsePrimary(lang, input, depth).value);
    }
  }

  // What the tree of a reading is like

  /** No negation of a negation, and no group of one. */
  predicate IsNormal(f: FilterCondition)
    decreases f
  {
    match f
    case Not(g) => !g.Not? && IsNormal(g)
    case Or(fs) => |fs| >= 2 && AreNormal(fs)
    case And(fs) => |fs| >= 2 && AreNormal(fs)
    case Compare(_, _) => true
    case In(_, _) => true
    case Geo(_) => true
  }

  predicate AreNormal(fs: seq<FilterCondition>)
    decreases fs
  {
    fs != [] ==> IsNormal(fs[0]) && AreNormal(fs[1..])
  }

  /** A reading with at least one element in each list, and only conditions or their negations as atoms. */
  predicate OrOk(r: OrReading)
    decreases r, 1
  {
    r.ands != [] && AndsOk(r.ands)
  }

  predicate AndsOk(ands: seq<AndReading>)
    decreases ands, 0
  {
    ands != [] ==> AndOk(ands[0]) && AndsOk(ands[1..])
  }

  predicate AndOk(r: AndReading)
    decreases r, 1
  {
    r.nots != [] && NotsOk(r.nots)
  }

  predicate NotsOk(nots: seq<NotReading>)
    decreases nots, 0
  {
    nots != [] ==> NotOk(nots[0]) && NotsOk(nots[1..])
  }

  predicate NotOk(r: NotReading)
    decreases r, 0
  {
    match r
    case Negation(e) => NotOk(e)
    case Plain(Parens(e)) => OrOk(e)
    case Plain(Atom(f)) => IsCondition(f) || (f.Not? && IsCondition(f.f))
  }

  lemma AtomsAreConditions(lang: Language, input: string)
    ensures
      var r := ParseAtom(lang, input);
      r.Matched? ==> IsCondition(r.value) || (r.value.Not? && IsCondition(r.value.f))
  {
    hide ParseValue, ParseInBody, Words, Operator;
  }

  lemma {:induction false} ReadOrOk(lang: Language, r: OrReading, input: string, rest: string)
    requires ReadsOr(lang, r, input, rest)
    ensures OrOk(r)
    decreases r, 1
  {
    var a :| ReadsAnd(lang, r.ands[0], input, a) && ReadsOrs(lang, r.ands[1..], a, rest);
    ReadAndOk(lang, r.ands[0], input, a);
    ReadOrsOk(lang, r.ands[1..], a, rest);
  }

  lemma {:induction false} ReadOrsOk(lang: Language, ands: seq<AndReading>, input: string, rest: string)
    requires ReadsOrs(lang, ands, input, rest)
    ensures AndsOk(ands)
    decreases ands, 0
  {
    if ands != [] {
      var a, b :| WsWord(lang, input, "OR") == Matched(a, ()) && ReadsAnd(lang, ands[0], a, b) && ReadsOrs(lang, ands[1..], b, rest);
      ReadAndOk(lang, ands[0], a, b);
      ReadOrsOk(lang, ands[1..], b, rest);
    }
  }

  lemma {:induction false} ReadAndOk(lang: Language, r: AndReading, input: string, rest: string)
    requires ReadsAnd(lang, r, input, rest)
    ensures AndOk(r)
    decreases r, 1
  {
    var a :| ReadsNot(lang, r.nots[0], input, a) && ReadsAnds(lang, r.nots[1..], a, rest);
    ReadNotOk(lang, r.nots[0], input, a);
    ReadAndsOk(lang, r.nots[1..], a, rest);
  }

  lemma {:induction false} ReadAndsOk(lang: Language, nots: seq<NotReading>, input: string, rest: string)
    requires ReadsAnds(lang, nots, input, rest)
    ensures NotsOk(nots)
    decreases nots, 0
  {
    if nots != [] {
      var a, b :| WsWord(lang, input, "AND") == Matched(a, ()) && ReadsNot(lang, nots[0], a, b) && ReadsAnds(lang, nots[1..], b, rest);
      ReadNotOk(lang, nots[0], a, b);
      ReadAndsOk(lang, nots[1..], b, rest);
    }
  }

  lemma {:induction false} ReadNotOk(lang: Language, r: NotReading, input: string, rest: string)
    requires ReadsNot(lang, r, input, rest)
    ensures NotOk(r)
    decreases r, 0
  {
    hide ParseAtom;
    match r {
      case Negation(e) =>
        var a :| WsWord(lang, input, "NOT") == Matched(a, ()) && ReadsNot(lang, e, a, rest);
        ReadNotOk(lang, e, a, rest);
      case Plain(Parens(e)) =>
        var a, b :| WsTag(input, "(") == Matched(a, ()) && ReadsOr(lang, e, a, b) && WsTag(b, ")") == Matched(rest, ());
        ReadOrOk(lang, e, a, b);
      case Plain(Atom(f)) => AtomsAreConditions(lang, input);
    }
  }

  lemma {:induction false} OrTreeNormal(r: OrReading)
    requires OrOk(r)
    ensures IsNormal(OrTree(r))
    decreases r, 1
  {
    AndTreesNormal(r.ands);
  }

  lemma {:induction false} AndTreesNormal(ands: seq<AndReading>)
    requires AndsOk(ands)
    ensures AreNormal(AndTrees(ands))
    decreases ands, 0
  {
    if ands != [] {
      AndTreeNormal(ands[0]);
      AndTreesNormal(ands[1..]);
    }
  }

  lemma {:induction false} AndTreeNormal(r: AndReading)
    requires AndOk(r)
    ensures IsNormal(AndTree(r))
    decreases r, 1
  {
    NotTreesNormal(r.nots);
  }

  lemma {:induction false} NotTreesNormal(nots: seq<NotReading>)
    requires NotsOk(nots)
    ensures AreNormal(NotTrees(nots))
    decreases nots, 0
  {
    if nots != [] {
      NotTreeNormal(nots[0]);
      NotTreesNormal(nots[1..]);
    }
  }

  lemma {:induction false} NotTreeNormal(r: NotReading)
    requires NotOk(r)
    ensures IsNormal(NotTree(r))
    decreases r, 0
  {
    match r {
      case Negation(e) => NotTreeNormal(e);
      case Plain(Parens(e)) => OrTreeNormal(e);
      case Plain(Atom(_)) =>
    }
  }

  // The tree means what the reading means

  lemma {:induction false} OrTreeHolds(r: OrReading, v: FilterCondition -> bool)
    ensures Holds(OrTree(r), v) == OrHolds(r, v)
    decreases r, 1
  {
    AndTreesHold(r.ands, v);
    if |r.ands| == 1 {
      assert AndTrees(r.ands)[1..] == [];
    }
  }

  lemma {:induction false} AndTreesHold(ands: seq<AndReading>, v: FilterCondition -> bool)
    ensures AnyHolds(AndTrees(ands), v) == SomeAnd(ands, v)
    decreases ands, 0
  {
    if ands != [] {
      AndTreeHolds(ands[0], v);
      AndTreesHold(ands[1..], v);
    }
  }

  lemma {:induction false} AndTreeHolds(r: AndReading, v: FilterCondition -> bool)
    ensures Holds(AndTree(r), v) == AndHolds(r, v)
    decreases r, 1
  {
    NotTreesHold(r.nots, v);
    if |r.nots| == 1 {
      assert NotTrees(r.nots)[1..] == [];
    }
  }

  lemma {:induction false} NotTreesHold(nots: seq<NotReading>, v: FilterCondition -> bool)
    ensures AllHold(NotTrees(nots), v) == EveryNot(nots, v)
    decreases nots, 0
  {
    if nots != [] {
      NotTreeHolds(nots[0], v);
      NotTreesHold(nots[1..], v);
    }
  }

  lemma {:induction false} NotTreeHolds(r: NotReading, v: FilterCondition -> bool)
    ensures Holds(NotTree(r), v) == NotHolds(r, v)
    decreases r, 0
  {
    match r {
      case Negation(e) => NotTreeHolds(e, v);
      case Plain(Parens(e)) => OrTreeHolds(e, v);
      case Plain(Atom(_)) =>
    }
  }

  // How deep parentheses can nest

  function OrNesting(r: OrReading): nat
    decreases r, 1
  {
    AndsNesting(r.ands)
  }

  function AndsNesting(ands: seq<AndReading>): nat
    decreases ands, 0
  {
    if ands == [] then 0 else Max(AndNesting(ands[0]), AndsNesting(ands[1..]))
  }

  function AndNesting(r: AndReading): nat
    decreases r, 1
  {
    NotsNesting(r.nots)
  }

  function NotsNesting(nots: seq<NotReading>): nat
    decreases nots, 0
  {
    if nots == [] then 0 else Max(NotNesting(nots[0]), NotsNesting(nots[1..]))
  }

  function NotNesting(r: NotReading): nat
    decreases r, 0
  {
    match r
    case Negation(e) => NotNesting(e)
    case Plain(Parens(e)) => 1 + OrNesting(e)
    case Plain(Atom(_)) => 0
  }

  function Max(a: nat, b: nat): nat {
    if a >= b then a else b
  }

  lemma {:induction false} OrNestingBound(r: OrReading, charge: nat)
    requires OrOk(r) && OrWithin(r, charge)
    ensures charge + 4 * OrNesting(r) <= MAX_FILTER_DEPTH - 3
    decreases r, 1
  {
    AndsNestingBound(r.ands, charge);
  }

  lemma {:induction false} AndsNestingBound(ands: seq<AndReading>, charge: nat)
    requires ands != [] && AndsOk(ands) && AndsWithin(ands, charge)
    ensures charge + 4 * AndsNesting(ands) <= MAX_FILTER_DEPTH - 3
    decreases ands, 0
  {
    NotsNestingBound(ands[0].nots, charge);
    if |ands| > 1 {
      AndsNestingBound(ands[1..], charge);
    }
  }

  lemma {:induction false} NotsNestingBound(nots: seq<NotReading>, charge: nat)
    requires nots != [] && NotsOk(nots) && NotsWithin(nots, charge)
    ensures charge + 4 * NotsNesting(nots) <= MAX_FILTER_DEPTH - 3
    decreases nots, 0
  {
    NotNestingBound(nots[0], charge);
    if |nots| > 1 {
      NotsNestingBound(nots[1..], charge);
    }
  }

  lemma {:induction false} NotNestingBound(r: NotReading, charge: nat)
    requires NotOk(r) && NotWithin(r, charge)
    ensures charge + 4 * NotNesting(r) <= MAX_FILTER_DEPTH - 3
    decreases r, 0
  {
    match r {
      case Negation(e) => NotNestingBound(e, charge + 1);
      case Plain(Parens(e)) => OrNestingBound(e, charge + 4);
      case Plain(Atom(_)) =>
    }
  }

  /**
   Every accepted filter has a reading of the whole text; its tree has no double negation and no
   group of one, and the same truth value as the reading under every valuation; and no condition
   is deeper than the budget allows, so that at most 49 pairs of parentheses nest.
  */
  lemma AcceptedFilter(lang: Language, text: string) returns (r: OrReading)
    requires ParseFilter(lang, text).Some?
    ensures ReadsOr(lang, r, text, "")
    ensures IsNormal(ParseFilter(lang, text).value)
    ensures forall v: FilterCondition -> bool :: Holds(ParseFilter(lang, text).value, v) == OrHolds(r, v)
    ensures OrWithin(r, 0) && OrNesting(r) <= 49
  {
    hide ParseOr, ReadsOr, OrTree, OrWithin, OrOk, Holds, IsNormal, OrHolds, OrNesting;
    r := OrRead(lang, text, 0, 0);
    ReadOrOk(lang, r, text, "");
    OrTreeNormal(r);
    OrNestingBound(r, 0);
    forall v: FilterCondition -> bool
      ensures Holds(ParseFilter(lang, text).value, v) == OrHolds(r, v)
    {
      OrTreeHolds(r, v);
    }
  }
}

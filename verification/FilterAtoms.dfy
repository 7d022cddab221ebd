/**
 The single conditions of a filter, from their text to their tree.

 `text` starts with the name of a field, however it is spelled: `ParseValue` reads it as `fid` and
 leaves what follows.  Each lemma says which tree the rest makes of it.
*/
module FilterAtoms {
  import opened Wrappers
  import opened FilterSyntax
  import opened FilterParser
  import opened FilterMeaning
  import opened FilterGrammar

  /** The text starts with a field, and not with a geo condition. */
  predicate StartsWith(lang: Language, text: string, fid: Token, after: string) {
    ParseValue(lang, text) == Matched(after, fid) && lang.geo(text) == Error
  }

  /** At least one space. */
  predicate IsGap(gap: string) {
    gap != [] && forall c <- gap :: c == ' ' || c == '\t' || c == '\r' || c == '\n'
  }

  lemma {:induction false} GapSkipped(gap: string, s: string)
    requires (forall c <- gap :: IsSpace(c)) && s != [] && !IsSpace(s[0])
    ensures SkipSpaces(gap + s) == s
  {
    if gap == [] {
      assert gap + s == s;
    } else {
      assert gap[0] in gap && forall c <- gap[1..] :: c in gap;
      assert (gap + s)[1..] == gap[1..] + s;
      GapSkipped(gap[1..], s);
    }
  }

  // Words that are there, and words that are not

  lemma Misses(s: string, w: string, i: nat)
    requires i < |w| && i < |s| && s[i] != w[i]
    ensures !(w <= s)
  {
  }

  lemma WordMissed(lang: Language, s: string, w: string)
    requires !(w <= s)
    ensures WordExact(lang, s, w) == Error
  {
    hide WordLength;
    var n := WordLength(lang, s);
    assert s[..n] <= s;
  }

  lemma WordLeaves(lang: Language, s: string, w: string)
    ensures WordExact(lang, s, w) == Error || (w <= s && WordExact(lang, s, w) == Matched(s[|w|..], ()))
  {
    hide WordLength;
  }

  lemma OneWord(w: string, rest: string)
    ensures Words(w + rest, [w]) == Matched(rest, ())
  {
    assert (w + rest)[|w|..] == rest && w <= w + rest;
  }

  lemma NextWord(w: string, gap: string, tail: string, more: seq<string>)
    requires IsGap(gap) && tail != [] && !IsSpace(tail[0]) && more != []
    ensures Words(w + (gap + tail), [w] + more) == Words(tail, more)
  {
    hide SkipSpaces;
    var s := w + (gap + tail);
    assert s[|w|..] == gap + tail && w <= s && (gap + tail)[0] == gap[0] && gap[0] in gap;
    GapSkipped(gap, tail);
    assert ([w] + more)[0] == w && ([w] + more)[1..] == more;
  }

  lemma NoWord(s: string, w: string, more: seq<string>)
    requires !(w <= s)
    ensures Words(s, [w] + more) == Error
  {
    assert ([w] + more)[0] == w;
  }

  /** No list of values behind what is not the word IN. */
  lemma NoInBody(lang: Language, s: string)
    requires !("IN" <= SkipSpaces(s))
    ensures ParseInBody(lang, s) == Error
  {
    hide SkipSpaces, WordExact;
    WordMissed(lang, SkipSpaces(s), "IN");
  }

  lemma NoSkip(s: string)
    requires s != [] && !IsSpace(s[0])
    ensures SkipSpaces(s) == s
  {
  }

  lemma NoOperator(s: string)
    requires s != [] && s[0] !in "<>=!"
    ensures Operator(s) == Error
  {
  }

  // The conditions behind a field

  /** What `ParseAtom` tries before the postfix conditions. */
  lemma NoListNoComparison(lang: Language, text: string, fid: Token, after: string)
    requires StartsWith(lang, text, fid, after)
    requires after != [] && !IsSpace(after[0]) && after[0] !in "<>=!" && !("IN" <= after)
    requires "NOT" <= after ==> !("IN" <= SkipSpaces(after[3..]))
    ensures ParseGeo(lang, text) == ParseIn(lang, text) == ParseNotIn(lang, text) == ParseCondition(lang, text) == Error
  {
    hide ParseValue, ParseInBody, WordExact, Operator, SkipSpaces;
    NoSkip(after);
    NoInBody(lang, after);
    NoOperator(after);
    WordLeaves(lang, after, "NOT");
    if "NOT" <= after {
      NoInBody(lang, after[3..]);
    }
  }

  lemma PostfixIs(lang: Language, text: string, fid: Token, after: string, words: seq<string>, op: Condition, negated: bool)
    requires StartsWith(lang, text, fid, after)
    ensures ParsePostfix(lang, text, words, op, negated)
         == match Words(after, words)
            case Matched(rest, _) => Matched(rest, if negated then Not(Compare(fid, op)) else Compare(fid, op))
            case Error => Error
            case Failure => Failure
  {
    hide ParseValue, Words;
  }

  lemma IsNullRead(lang: Language, text: string, fid: Token, gap: string, rest: string)
    requires StartsWith(lang, text, fid, "IS" + (gap + ("NULL" + rest))) && IsGap(gap)
    ensures ParseAtom(lang, text) == Matched(rest, Compare(fid, Null))
  {
    hide ParseGeo, ParseIn, ParseNotIn, ParseCondition, ParsePostfix, ParseTo, Words, StartsWith;
    var after := "IS" + (gap + ("NULL" + rest));
    Misses(after, "IN", 1);
    Misses(after, "NOT", 0);
    NoListNoComparison(lang, text, fid, after);
    NextWord("IS", gap, "NULL" + rest, ["NULL"]);
    OneWord("NULL", rest);
    PostfixIs(lang, text, fid, after, ["IS", "NULL"], Null, false);
    assert ["IS"] + ["NULL"] == ["IS", "NULL"];
  }

  lemma IsNotNullRead(lang: Language, text: string, fid: Token, gap: string, gap2: string, rest: string)
    requires StartsWith(lang, text, fid, "IS" + (gap + ("NOT" + (gap2 + ("NULL" + rest))))) && IsGap(gap) && IsGap(gap2)
    ensures ParseAtom(lang, text) == Matched(rest, Not(Compare(fid, Null)))
  {
    hide ParseGeo, ParseIn, ParseNotIn, ParseCondition, ParsePostfix, ParseTo, Words, StartsWith;
    var tail := "NOT" + (gap2 + ("NULL" + rest));
    var after := "IS" + (gap + tail);
    Misses(after, "IN", 1);
    Misses(after, "NOT", 0);
    NoListNoComparison(lang, text, fid, after);
    NextWord("IS", gap, tail, ["NULL"]);
    Misses(tail, "NULL", 1);
    NoWord(tail, "NULL", []);
    NextWord("IS", gap, tail, ["NOT", "NULL"]);
    NextWord("NOT", gap2, "NULL" + rest, ["NULL"]);
    OneWord("NULL", rest);
    PostfixIs(lang, text, fid, after, ["IS", "NULL"], Null, false);
    PostfixIs(lang, text, fid, after, ["IS", "NOT", "NULL"], Null, true);
    assert ["IS"] + ["NULL"] == ["IS", "NULL"] && ["NULL"] + [] == ["NULL"];
    assert ["IS"] + ["NOT", "NULL"] == ["IS", "NOT", "NULL"] && ["NOT"] + ["NULL"] == ["NOT", "NULL"];
  }

  lemma IsEmptyRead(lang: Language, text: string, fid: Token, gap: string, rest: string)
    requires StartsWith(lang, text, fid, "IS" + (gap + ("EMPTY" + rest))) && IsGap(gap)
    ensures ParseAtom(lang, text) == Matched(rest, Compare(fid, Empty))
  {
    hide ParseGeo, ParseIn, ParseNotIn, ParseCondition, ParsePostfix, ParseTo, Words, StartsWith;
    var tail := "EMPTY" + rest;
    var after := "IS" + (gap + tail);
    Misses(after, "IN", 1);
    Misses(after, "NOT", 0);
    NoListNoComparison(lang, text, fid, after);
    NextWord("IS", gap, tail, ["NULL"]);
    Misses(tail, "NULL", 0);
    NoWord(tail, "NULL", []);
    NextWord("IS", gap, tail, ["NOT", "NULL"]);
    Misses(tail, "NOT", 0);
    NoWord(tail, "NOT", ["NULL"]);
    NextWord("IS", gap, tail, ["EMPTY"]);
    OneWord("EMPTY", rest);
    PostfixIs(lang, text, fid, after, ["IS", "NULL"], Null, false);
    PostfixIs(lang, text, fid, after, ["IS", "NOT", "NULL"], Null, true);
    PostfixIs(lang, text, fid, after, ["IS", "EMPTY"], Empty, false);
    assert ["IS"] + ["NULL"] == ["IS", "NULL"] && ["NULL"] + [] == ["NULL"] && ["IS"] + ["EMPTY"] == ["IS", "EMPTY"];
    assert ["IS"] + ["NOT", "NULL"] == ["IS", "NOT", "NULL"] && ["NOT"] + ["NULL"] == ["NOT", "NULL"];
  }

  lemma IsNotEmptyRead(lang: Language, text: string, fid: Token, gap: string, gap2: string, rest: string)
    requires StartsWith(lang, text, fid, "IS" + (gap + ("NOT" + (gap2 + ("EMPTY" + rest))))) && IsGap(gap) && IsGap(gap2)
    ensures ParseAtom(lang, text) == Matched(rest, Not(Compare(fid, Empty)))
  {
    hide ParseGeo, ParseIn, ParseNotIn, ParseCondition, ParsePostfix, ParseTo, Words, StartsWith;
    var end := "EMPTY" + rest;
    var tail := "NOT" + (gap2 + end);
    var after := "IS" + (gap + tail);
    Misses(after, "IN", 1);
    Misses(after, "NOT", 0);
    NoListNoComparison(lang, text, fid, after);
    NextWord("IS", gap, tail, ["NULL"]);
    Misses(tail, "NULL", 1);
    NoWord(tail, "NULL", []);
    NextWord("IS", gap, tail, ["NOT", "NULL"]);
    NextWord("NOT", gap2, end, ["NULL"]);
    Misses(end, "NULL", 0);
    NoWord(end, "NULL", []);
    NextWord("IS", gap, tail, ["EMPTY"]);
    Misses(tail, "EMPTY", 0);
    NoWord(tail, "EMPTY", []);
    NextWord("IS", gap, tail, ["NOT", "EMPTY"]);
    NextWord("NOT", gap2, end, ["EMPTY"]);
    OneWord("EMPTY", rest);
    PostfixIs(lang, text, fid, after, ["IS", "NULL"], Null, false);
    PostfixIs(lang, text, fid, after, ["IS", "NOT", "NULL"], Null, true);
    PostfixIs(lang, text, fid, after, ["IS", "EMPTY"], Empty, false);
    PostfixIs(lang, text, fid, after, ["IS", "NOT", "EMPTY"], Empty, true);
    assert ["IS"] + ["NULL"] == ["IS", "NULL"] && ["NULL"] + [] == ["NULL"] && ["IS"] + ["EMPTY"] == ["IS", "EMPTY"];
    assert ["IS"] + ["NOT", "NULL"] == ["IS", "NOT", "NULL"] && ["NOT"] + ["NULL"] == ["NOT", "NULL"];
    assert ["IS"] + ["NOT", "EMPTY"] == ["IS", "NOT", "EMPTY"] && ["NOT"] + ["EMPTY"] == ["NOT", "EMPTY"];
    assert ["EMPTY"] + [] == ["EMPTY"];
  }

  /** Behind what is not IS, no test for NULL or for EMPTY. */
  lemma NoIs(lang: Language, text: string, fid: Token, after: string)
    requires StartsWith(lang, text, fid, after) && !("IS" <= after)
    ensures ParsePostfix(lang, text, ["IS", "NULL"], Null, false) == Error
    ensures ParsePostfix(lang, text, ["IS", "NOT", "NULL"], Null, true) == Error
    ensures ParsePostfix(lang, text, ["IS", "EMPTY"], Empty, false) == Error
    ensures ParsePostfix(lang, text, ["IS", "NOT", "EMPTY"], Empty, true) == Error
  {
    hide ParsePostfix, StartsWith, Words;
    NoWord(after, "IS", ["NULL"]);
    NoWord(after, "IS", ["NOT", "NULL"]);
    NoWord(after, "IS", ["EMPTY"]);
    NoWord(after, "IS", ["NOT", "EMPTY"]);
    assert ["IS"] + ["NULL"] == ["IS", "NULL"] && ["IS"] + ["NOT", "NULL"] == ["IS", "NOT", "NULL"];
    assert ["IS"] + ["EMPTY"] == ["IS", "EMPTY"] && ["IS"] + ["NOT", "EMPTY"] == ["IS", "NOT", "EMPTY"];
    PostfixIs(lang, text, fid, after, ["IS", "NULL"], Null, false);
    PostfixIs(lang, text, fid, after, ["IS", "NOT", "NULL"], Null, true);
    PostfixIs(lang, text, fid, after, ["IS", "EMPTY"], Empty, false);
    PostfixIs(lang, text, fid, after, ["IS", "NOT", "EMPTY"], Empty, true);
  }

  lemma ExistsRead(lang: Language, text: string, fid: Token, rest: string)
    requires StartsWith(lang, text, fid, "EXISTS" + rest)
    ensures ParseAtom(lang, text) == Matched(rest, Compare(fid, Exists))
  {
    hide ParseGeo, ParseIn, ParseNotIn, ParseCondition, ParsePostfix, ParseTo, Words, StartsWith;
    var after := "EXISTS" + rest;
    Misses(after, "IN", 0);
    Misses(after, "NOT", 0);
    Misses(after, "IS", 0);
    NoListNoComparison(lang, text, fid, after);
    NoIs(lang, text, fid, after);
    OneWord("EXISTS", rest);
    PostfixIs(lang, text, fid, after, ["EXISTS"], Exists, false);
  }

  lemma NotExistsRead(lang: Language, text: string, fid: Token, gap: string, rest: string)
    requires StartsWith(lang, text, fid, "NOT" + (gap + ("EXISTS" + rest))) && IsGap(gap)
    ensures ParseAtom(lang, text) == Matched(rest, Not(Compare(fid, Exists)))
  {
    hide ParseGeo, ParseIn, ParseNotIn, ParseCondition, ParsePostfix, ParseTo, Words, StartsWith, SkipSpaces;
    var tail := "EXISTS" + rest;
    var after := "NOT" + (gap + tail);
    Misses(after, "IN", 0);
    Misses(after, "IS", 0);
    Misses(after, "EXISTS", 0);
    assert after[3..] == gap + tail;
    GapSkipped(gap, tail);
    Misses(tail, "IN", 0);
    NoListNoComparison(lang, text, fid, after);
    NoIs(lang, text, fid, after);
    NoWord(after, "EXISTS", []);
    NextWord("NOT", gap, tail, ["EXISTS"]);
    OneWord("EXISTS", rest);
    PostfixIs(lang, text, fid, after, ["EXISTS"], Exists, false);
    PostfixIs(lang, text, fid, after, ["NOT", "EXISTS"], Exists, true);
    assert ["EXISTS"] + [] == ["EXISTS"] && ["NOT"] + ["EXISTS"] == ["NOT", "EXISTS"];
  }

  /** `field from TO to`, the bounds in this order. */
  lemma ToRead(
    lang: Language, text: string, fid: Token, after: string, from: Token, gap: string, upper: string, to: Token, rest: string)
    requires StartsWith(lang, text, fid, after) && IsGap(gap)
    requires after != [] && !IsSpace(after[0]) && after[0] !in "<>=!"
    requires !("IN" <= after) && !("NOT" <= after) && !("IS" <= after) && !("EXISTS" <= after)
    requires upper != [] && !IsSpace(upper[0])
    requires ParseValue(lang, after) == Matched("TO" + (gap + upper), from) && ParseValue(lang, upper) == Matched(rest, to)
    ensures ParseAtom(lang, text) == Matched(rest, Compare(fid, Between(from, to)))
  {
    hide ParseGeo, ParseIn, ParseNotIn, ParseCondition, ParsePostfix, Words, ParseValue, SkipSpaces;
    NoListNoComparison(lang, text, fid, after);
    NoIs(lang, text, fid, after);
    NoWord(after, "EXISTS", []);
    NoWord(after, "NOT", ["EXISTS"]);
    PostfixIs(lang, text, fid, after, ["EXISTS"], Exists, false);
    PostfixIs(lang, text, fid, after, ["NOT", "EXISTS"], Exists, true);
    assert ["EXISTS"] + [] == ["EXISTS"] && ["NOT"] + ["EXISTS"] == ["NOT", "EXISTS"];
    NextWord("TO", gap, upper, [""]);
    OneWord("", upper);
    assert "" + upper == upper && ["TO"] + [""] == ["TO", ""];
  }

  /** The six comparisons. */
  lemma ComparisonRead(lang: Language, text: string, fid: Token, op: string, right: string, value: Token, rest: string)
    requires op in OPERATORS && right != [] && right[0] != '='
    requires StartsWith(lang, text, fid, op + right) && ParseValue(lang, right) == Matched(rest, value)
    ensures op == "<" ==> ParseAtom(lang, text) == Matched(rest, Compare(fid, LowerThan(value)))
    ensures op == "<=" ==> ParseAtom(lang, text) == Matched(rest, Compare(fid, LowerThanOrEqual(value)))
    ensures op == ">" ==> ParseAtom(lang, text) == Matched(rest, Compare(fid, GreaterThan(value)))
    ensures op == ">=" ==> ParseAtom(lang, text) == Matched(rest, Compare(fid, GreaterThanOrEqual(value)))
    ensures op == "=" ==> ParseAtom(lang, text) == Matched(rest, Compare(fid, Equal(value)))
    ensures op == "!=" ==> ParseAtom(lang, text) == Matched(rest, Compare(fid, NotEqual(value)))
  {
    hide ParseInBody, ParsePostfix, ParseTo, ParseValue, Operator, SkipSpaces, WordExact;
    var after := op + right;
    OperatorRead(op, right);
    assert after[0] == op[0];
    Misses(after, "IN", 0);
    Misses(after, "NOT", 0);
    NoInBody(lang, after);
    WordMissed(lang, after, "NOT");
  }

  // Lists

  /** Capital letters belong to words; brackets and spaces do not. */
  predicate HasWords(lang: Language) {
    && (forall c: char | 'A' <= c <= 'Z' :: lang.alphanumeric(c))
    && (forall c: char | c in "[] \t\r\n" :: !lang.alphanumeric(c))
  }

  lemma WordHit(lang: Language, w: string, tail: string)
    requires HasWords(lang) && w != [] && forall c <- w :: 'A' <= c <= 'Z'
    requires tail != [] && tail[0] in "[] \t\r\n"
    ensures WordExact(lang, w + tail, w) == Matched(tail, ())
  {
    hide TakeWord;
    assert forall c <- w :: IsValueComponent(lang, c);
    assert !IsValueComponent(lang, tail[0]);
    WordTaken(lang, w, tail);
  }

  function Quoted(values: seq<string>, quote: char): seq<Token> {
    if values == [] then [] else [QuotedToken(values[0], quote)] + Quoted(values[1..], quote)
  }

  /** Values between quotes, each behind a comma. */
  function CommaText(values: seq<string>, quote: char): string {
    if values == [] then [] else "," + (InQuotes(values[0], quote) + CommaText(values[1..], quote))
  }

  function ListText(values: seq<string>, quote: char): string {
    if values == [] then [] else InQuotes(values[0], quote) + CommaText(values[1..], quote)
  }

  predicate AllQuotable(values: seq<string>, quote: char) {
    forall v <- values :: Quotable(v, quote)
  }

  ghost predicate ReadsQuotes(lang: Language, quote: char) {
    (quote == '\'' || quote == '"') && forall s | s != [] && s[0] == quote :: !lang.reservedGeo(s)
  }

  lemma CommaOrEnd(values: seq<string>, quote: char, rest: string)
    ensures
      var s := CommaText(values, quote) + ("]" + rest);
      s != [] && SkipSpaces(s) == s && s[0] == if values == [] then ']' else ','
  {
  }

  lemma TagMissed(s: string, tag: string)
    requires s != [] && !IsSpace(s[0]) && tag != [] && s[0] != tag[0]
    ensures WsTag(s, tag) == Error
  {
  }

  lemma {:induction false} CommasRead(lang: Language, values: seq<string>, quote: char, rest: string)
    requires ReadsQuotes(lang, quote) && AllQuotable(values, quote)
    ensures ManyValues(lang, CommaText(values, quote) + ("]" + rest)) == Matched("]" + rest, Quoted(values, quote))
    decreases |values|
  {
    hide ParseValue, ReadsQuotes, Quotable, InQuotes, QuotedToken, SkipSpaces;
    var s := CommaText(values, quote) + ("]" + rest);
    CommaOrEnd(values, quote, rest);
    if values == [] {
      assert s == "]" + rest;
      TagMissed(s, ",");
    } else {
      var more := CommaText(values[1..], quote) + ("]" + rest);
      var right := InQuotes(values[0], quote) + more;
      assert s == "," + right && s[1..] == right && "," <= s;
      assert values[0] in values && forall v <- values[1..] :: v in values;
      ValueOfList(lang, values[0], quote, more);
      CommaOrEnd(values[1..], quote, rest);
      assert WsTag(s, ",") == Matched(right, ());
      CommasRead(lang, values[1..], quote, rest);
    }
  }

  lemma ValueOfList(lang: Language, value: string, quote: char, more: string)
    requires ReadsQuotes(lang, quote) && Quotable(value, quote)
    ensures
      var right := InQuotes(value, quote) + more;
      && right != [] && right[0] == quote && SkipSpaces(right) == right
      && ParseValue(lang, right) == Matched(SkipSpaces(more), QuotedToken(value, quote))
  {
    hide ParseValue, Quotable, QuotedToken;
    var right := InQuotes(value, quote) + more;
    assert right[0] == quote;
    QuotedValueRead(lang, value, quote, more);
  }

  /** A list of quoted values, in the order in which they are written. */
  lemma ListRead(lang: Language, values: seq<string>, quote: char, rest: string)
    requires ReadsQuotes(lang, quote) && AllQuotable(values, quote) && HasWords(lang)
    requires !lang.reservedGeo("]" + rest)
    ensures ParseValueList(lang, ListText(values, quote) + ("]" + rest)) == Matched("]" + rest, Quoted(values, quote))
  {
    hide ReadsQuotes, Quotable, InQuotes, QuotedToken, SkipSpaces, ManyValues;
    var end := "]" + rest;
    TagMissed(end, ",");
    if values == [] {
      assert ListText(values, quote) + end == end;
      NoValueAtBracket(lang, rest);
    } else {
      hide ParseValue;
      var more := CommaText(values[1..], quote) + end;
      assert ListText(values, quote) + end == InQuotes(values[0], quote) + more;
      assert values[0] in values && forall v <- values[1..] :: v in values;
      ValueOfList(lang, values[0], quote, more);
      CommaOrEnd(values[1..], quote, rest);
      CommasRead(lang, values[1..], quote, rest);
    }
  }

  lemma NoValueAtBracket(lang: Language, rest: string)
    requires HasWords(lang) && !lang.reservedGeo("]" + rest)
    ensures ParseValue(lang, "]" + rest) == Error
  {
    var s := "]" + rest;
    assert s[0] == ']' && !IsValueComponent(lang, ']');
    assert SkipWhitespace(s) == s;
  }

  lemma InBodyRead(lang: Language, before: string, gap: string, values: seq<string>, quote: char, rest: string)
    requires ReadsQuotes(lang, quote) && AllQuotable(values, quote) && HasWords(lang)
    requires (forall c <- before :: IsSpace(c)) && (forall c <- gap :: IsSpace(c)) && !lang.reservedGeo("]" + rest)
    ensures ParseInBody(lang, before + ("IN" + (gap + ("[" + (ListText(values, quote) + ("]" + rest))))))
         == Matched(SkipSpaces(rest), Quoted(values, quote))
  {
    hide ParseValueList, WordExact, ListText, HasWords, ReadsQuotes, AllQuotable, SkipSpaces;
    var list := ListText(values, quote) + ("]" + rest);
    var bracket := "[" + list;
    var tail := gap + bracket;
    var s := "IN" + tail;
    GapSkipped(before, s);
    GapSkipped(gap, bracket);
    assert gap != [] ==> tail[0] == gap[0] && gap[0] in gap;
    assert gap == [] ==> tail == bracket;
    WordHit(lang, "IN", tail);
    assert bracket[1..] == list && "[" <= bracket;
    ListRead(lang, values, quote, rest);
    ClosingRead(rest);
  }

  lemma ClosingRead(rest: string)
    ensures WsTag("]" + rest, "]") == Matched(SkipSpaces(rest), ())
  {
    var s := "]" + rest;
    assert s[1..] == rest && "]" <= s && SkipSpaces(s) == s;
  }

  /** `field IN [...]`. */
  lemma InRead(lang: Language, text: string, fid: Token, gap: string, values: seq<string>, quote: char, rest: string)
    requires ReadsQuotes(lang, quote) && AllQuotable(values, quote) && HasWords(lang)
    requires (forall c <- gap :: IsSpace(c)) && !lang.reservedGeo("]" + rest)
    requires StartsWith(lang, text, fid, "IN" + (gap + ("[" + (ListText(values, quote) + ("]" + rest)))))
    ensures ParseAtom(lang, text) == Matched(SkipSpaces(rest), In(fid, Quoted(values, quote)))
  {
    hide ParseInBody, ParseValue, ListText, HasWords, ReadsQuotes, AllQuotable;
    hide ParseNotIn, ParseCondition, ParsePostfix, ParseTo, SkipSpaces;
    var after := "IN" + (gap + ("[" + (ListText(values, quote) + ("]" + rest))));
    InBodyRead(lang, "", gap, values, quote, rest);
    assert "" + after == after;
  }

  /** `field NOT IN [...]`. */
  lemma NotInRead(
    lang: Language, text: string, fid: Token, before: string, gap: string, values: seq<string>, quote: char, rest: string)
    requires ReadsQuotes(lang, quote) && AllQuotable(values, quote) && HasWords(lang)
    requires IsGap(before) && (forall c <- gap :: IsSpace(c)) && !lang.reservedGeo("]" + rest)
    requires StartsWith(lang, text, fid, "NOT" + (before + ("IN" + (gap + ("[" + (ListText(values, quote) + ("]" + rest)))))))
    ensures ParseAtom(lang, text) == Matched(SkipSpaces(rest), Not(In(fid, Quoted(values, quote))))
  {
    hide ParseInBody, ParseValue, ListText, HasWords, ReadsQuotes, AllQuotable, WordExact;
    hide ParseCondition, ParsePostfix, ParseTo, SkipSpaces;
    var tail := before + ("IN" + (gap + ("[" + (ListText(values, quote) + ("]" + rest)))));
    var after := "NOT" + tail;
    assert tail[0] == before[0] && before[0] in before;
    WordHit(lang, "NOT", tail);
    Misses(after, "IN", 0);
    NoSkip(after);
    NoInBody(lang, after);
    InBodyRead(lang, before, gap, values, quote, rest);
  }

  // Whole filters

  /** A single condition, with nothing behind it, is the whole filter. */
  lemma AtomIsFilter(lang: Language, text: string, f: FilterCondition)
    requires IsSane(lang) && ParseValue(lang, text).Matched? && ParseAtom(lang, text) == Matched([], f)
    ensures ParseFilter(lang, text) == Some(f)
  {
    hide ParseAtom, ParseValue, IsSane, WsTag, WsWord;
    if WsWord(lang, text, "NOT").Matched? || WsTag(text, "(").Matched? {
      NoValueThere(lang, text);
    }
    NeverFailure(lang, text, "NOT");
    NeverFailure(lang, text, "(");
    NeverFailure(lang, [], "AND");
    NeverFailure(lang, [], "OR");
    NoWordAtEnd(lang, "AND");
    NoWordAtEnd(lang, "OR");
    assert ParsePrimary(lang, text, 3) == Matched([], f);
    assert ParseNot(lang, text, 2) == Matched([], f);
    assert ParseAnd(lang, text, 1) == Matched([], f);
    assert ParseOr(lang, text, 0) == Matched([], f);
  }

  /** A name that needs no quotes: letters, digits, underscores, hyphens and dots, and not a keyword. */
  predicate IsBareName(lang: Language, name: string) {
    && name != [] && (forall c <- name :: lang.alphanumeric(c) || c == '_' || c == '-' || c == '.')
    && name !in ["AND", "OR", "IN", "NOT", "TO", "EXISTS", "IS", "NULL", "EMPTY", "_geoRadius", "_geoBoundingBox"]
  }

  /** A bare name, then NOT EXISTS: the field is missing from the document. */
  lemma FieldNotExists(lang: Language, name: string, before: string, gap: string)
    requires IsSane(lang) && IsGap(before) && IsGap(gap) && !lang.alphanumeric(before[0])
    requires IsBareName(lang, name) && !IsWhitespace(name[0]) && name[0] != '\'' && name[0] != '"'
    requires
      var text := name + (before + ("NOT" + (gap + "EXISTS")));
      !lang.reservedGeo(text) && lang.geo(text) == Error
    ensures ParseFilter(lang, name + (before + ("NOT" + (gap + "EXISTS")))) == Some(Not(Compare(Token(name, None), Exists)))
  {
    hide ParseFilter, ParseAtom, ParseValue, IsSane;
    var after := "NOT" + (gap + "EXISTS");
    var text := name + (before + after);
    var fid := Token(name, None);
    assert before[0] in before;
    WordValueRead(lang, name, before + after);
    GapSkipped(before, after);
    assert "EXISTS" + [] == "EXISTS";
    NotExistsRead(lang, text, fid, gap, []);
    AtomIsFilter(lang, text, Not(Compare(fid, Exists)));
  }
}

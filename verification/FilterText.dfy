/**
 Writing a filter, and reading it back.

 Names and values are written between quotes, parentheses only where the grammar needs them.
*/
module FilterText {
  import opened Wrappers
  import opened FilterSyntax
  import opened FilterParser
  import opened FilterMeaning
  import opened FilterGrammar
  import opened FilterAtoms

  // What can be written

  /** The token that is read when its value stands between quotes. */
  predicate IsWritten(token: Token, quote: char) {
    Quotable(token.Value(), quote) && token == QuotedToken(token.Value(), quote)
  }

  predicate CanWriteCondition(op: Condition, quote: char) {
    match op
    case Between(from, to) => IsWritten(from, quote) && IsWritten(to, quote)
    case Null => true
    case Empty => true
    case Exists => true
    case _ => IsWritten(op.value, quote)
  }

  /** Every filter but geo conditions, if its values can be quoted. */
  predicate CanWrite(f: FilterCondition, quote: char)
    decreases f
  {
    match f
    case Not(g) => CanWrite(g, quote)
    case Or(fs) => CanWriteAll(fs, quote)
    case And(fs) => CanWriteAll(fs, quote)
    case Compare(fid, op) => IsWritten(fid, quote) && CanWriteCondition(op, quote)
    case In(fid, els) => IsWritten(fid, quote) && forall e <- els :: IsWritten(e, quote)
    case Geo(_) => false
  }

  predicate CanWriteAll(fs: seq<FilterCondition>, quote: char)
    decreases fs
  {
    fs != [] ==> CanWrite(fs[0], quote) && CanWriteAll(fs[1..], quote)
  }

  // The text

  function Write(token: Token, quote: char): string {
    InQuotes(token.Value(), quote)
  }

  function Values(tokens: seq<Token>): seq<string> {
    if tokens == [] then [] else [tokens[0].Value()] + Values(tokens[1..])
  }

  function OperatorText(op: Condition): string {
    match op
    case LowerThan(_) => "<"
    case LowerThanOrEqual(_) => "<="
    case GreaterThan(_) => ">"
    case GreaterThanOrEqual(_) => ">="
    case Equal(_) => "="
    case _ => "!="
  }

  function ConditionText(op: Condition, quote: char): string {
    match op
    case Null => "IS NULL"
    case Empty => "IS EMPTY"
    case Exists => "EXISTS"
    case Between(from, to) => Write(from, quote) + (" TO " + Write(to, quote))
    case _ => OperatorText(op) + Write(op.value, quote)
  }

  function AtomText(f: FilterCondition, quote: char): string {
    match f
    case Compare(fid, op) => Write(fid, quote) + (" " + ConditionText(op, quote))
    case In(fid, els) => Write(fid, quote) + (" IN [" + (ListText(Values(els), quote) + "]"))
    case _ => ""
  }

  function NotText(f: FilterCondition, quote: char): string
    decreases f, 0
  {
    match f
    case Not(g) => "NOT " + NotText(g, quote)
    case Or(fs) => "(" + (OrsText(fs, quote) + ")")
    case And(fs) => "(" + (AndsText(fs, quote) + ")")
    case _ => AtomText(f, quote)
  }

  function AndText(f: FilterCondition, quote: char): string
    decreases f, 1
  {
    if f.And? then AndsText(f.fs, quote) else NotText(f, quote)
  }

  /** The text of a filter. */
  function OrText(f: FilterCondition, quote: char): string
    decreases f, 2
  {
    if f.Or? then OrsText(f.fs, quote) else AndText(f, quote)
  }

  function AndsText(fs: seq<FilterCondition>, quote: char): string
    decreases fs, 1
  {
    if fs == [] then "" else NotText(fs[0], quote) + MoreAnds(fs[1..], quote)
  }

  function MoreAnds(fs: seq<FilterCondition>, quote: char): string
    decreases fs, 0
  {
    if fs == [] then "" else " AND " + (NotText(fs[0], quote) + MoreAnds(fs[1..], quote))
  }

  function OrsText(fs: seq<FilterCondition>, quote: char): string
    decreases fs, 1
  {
    if fs == [] then "" else AndText(fs[0], quote) + MoreOrs(fs[1..], quote)
  }

  function MoreOrs(fs: seq<FilterCondition>, quote: char): string
    decreases fs, 0
  {
    if fs == [] then "" else " OR " + (AndText(fs[0], quote) + MoreOrs(fs[1..], quote))
  }

  // The reading of the text

  function NotOf(f: FilterCondition): NotReading
    decreases f, 0
  {
    match f
    case Not(g) => Negation(NotOf(g))
    case Or(fs) => Plain(Parens(OrReading(AndsOf(fs))))
    case And(fs) => Plain(Parens(OrReading([AndReading(NotsOf(fs))])))
    case _ => Plain(Atom(f))
  }

  function AndOf(f: FilterCondition): AndReading
    decreases f, 1
  {
    if f.And? then AndReading(NotsOf(f.fs)) else AndReading([NotOf(f)])
  }

  function OrOf(f: FilterCondition): OrReading
    decreases f, 2
  {
    if f.Or? then OrReading(AndsOf(f.fs)) else OrReading([AndOf(f)])
  }

  function NotsOf(fs: seq<FilterCondition>): (nots: seq<NotReading>)
    ensures |nots| == |fs|
    decreases fs
  {
    if fs == [] then [] else [NotOf(fs[0])] + NotsOf(fs[1..])
  }

  function AndsOf(fs: seq<FilterCondition>): (ands: seq<AndReading>)
    ensures |ands| == |fs|
    decreases fs
  {
    if fs == [] then [] else [AndOf(fs[0])] + AndsOf(fs[1..])
  }

  // It is a reading of the filter

  lemma {:induction false} NotOfTree(f: FilterCondition)
    requires IsNormal(f)
    ensures NotTree(NotOf(f)) == f
    decreases f, 0
  {
    match f {
      case Not(g) => NotOfTree(g);
      case Or(fs) => AndsOfTrees(fs);
      case And(fs) =>
        NotsOfTrees(fs);
        OneGroup(AndReading(NotsOf(fs)));
      case _ =>
    }
  }

  lemma OneGroup(r: AndReading)
    ensures OrTree(OrReading([r])) == AndTree(r)
  {
    assert [r][1..] == [];
    assert AndTrees([r]) == [AndTree(r)];
  }

  lemma {:induction false} AndOfTree(f: FilterCondition)
    requires IsNormal(f)
    ensures AndTree(AndOf(f)) == f
    decreases f, 1
  {
    if f.And? {
      NotsOfTrees(f.fs);
    } else {
      NotOfTree(f);
    }
  }

  lemma {:induction false} OrOfTree(f: FilterCondition)
    requires IsNormal(f)
    ensures OrTree(OrOf(f)) == f
    decreases f, 2
  {
    if f.Or? {
      AndsOfTrees(f.fs);
    } else {
      AndOfTree(f);
    }
  }

  lemma {:induction false} NotsOfTrees(fs: seq<FilterCondition>)
    requires AreNormal(fs)
    ensures NotTrees(NotsOf(fs)) == fs
    decreases fs
  {
    if fs != [] {
      NotOfTree(fs[0]);
      NotsOfTrees(fs[1..]);
    }
  }

  lemma {:induction false} AndsOfTrees(fs: seq<FilterCondition>)
    requires AreNormal(fs)
    ensures AndTrees(AndsOf(fs)) == fs
    decreases fs
  {
    if fs != [] {
      AndOfTree(fs[0]);
      AndsOfTrees(fs[1..]);
    }
  }

  lemma Assoc(a: string, b: string, c: string)
    ensures (a + b) + c == a + (b + c)
  {
  }

  // Conditions

  /** What is asked of the language: no geo condition starts with a quote, and words end at spaces and brackets. */
  ghost predicate ReadsText(lang: Language, quote: char) {
    && IsSane(lang) && HasWords(lang) && (quote == '\'' || quote == '"')
    && (forall s | s != [] && s[0] == quote :: !lang.reservedGeo(s) && lang.geo(s) == Error)
    && (forall s | s != [] && s[0] == ']' :: !lang.reservedGeo(s))
  }

  /** What is left of `t` behind a condition: a value takes the spaces behind it, a fixed word does not. */
  function AtomRest(f: FilterCondition, t: string): string {
    if f.Compare? && (f.op.Null? || f.op.Empty? || f.op.Exists?) then t else SkipSpaces(t)
  }

  lemma FieldRead(lang: Language, fid: Token, quote: char, tail: string)
    requires ReadsText(lang, quote) && IsWritten(fid, quote) && tail != [] && !IsSpace(tail[0])
    ensures StartsWith(lang, Write(fid, quote) + (" " + tail), fid, tail)
  {
    hide ParseValue, Quotable, SkipSpaces, IsSane, HasWords, QuotedToken;
    var text := Write(fid, quote) + (" " + tail);
    assert text[0] == quote;
    QuotedValueRead(lang, fid.Value(), quote, " " + tail);
    GapSkipped(" ", tail);
  }

  lemma ValueRead(lang: Language, v: Token, quote: char, t: string)
    requires ReadsText(lang, quote) && IsWritten(v, quote)
    ensures ParseValue(lang, Write(v, quote) + t) == Matched(SkipSpaces(t), v)
    ensures Write(v, quote) + t != [] && (Write(v, quote) + t)[0] == quote
  {
    hide ParseValue, Quotable, SkipSpaces, IsSane, HasWords, QuotedToken;
    assert (Write(v, quote) + t)[0] == quote;
    QuotedValueRead(lang, v.Value(), quote, t);
  }

  lemma ComparisonBack(lang: Language, fid: Token, op: string, v: Token, quote: char, t: string, text: string)
    requires ReadsText(lang, quote) && IsWritten(fid, quote) && IsWritten(v, quote) && op in OPERATORS
    requires text == Write(fid, quote) + (" " + (op + (Write(v, quote) + t)))
    ensures op == "<" ==> ParseAtom(lang, text) == Matched(SkipSpaces(t), Compare(fid, LowerThan(v)))
    ensures op == "<=" ==> ParseAtom(lang, text) == Matched(SkipSpaces(t), Compare(fid, LowerThanOrEqual(v)))
    ensures op == ">" ==> ParseAtom(lang, text) == Matched(SkipSpaces(t), Compare(fid, GreaterThan(v)))
    ensures op == ">=" ==> ParseAtom(lang, text) == Matched(SkipSpaces(t), Compare(fid, GreaterThanOrEqual(v)))
    ensures op == "=" ==> ParseAtom(lang, text) == Matched(SkipSpaces(t), Compare(fid, Equal(v)))
    ensures op == "!=" ==> ParseAtom(lang, text) == Matched(SkipSpaces(t), Compare(fid, NotEqual(v)))
  {
    hide ParseAtom, ParseValue, SkipSpaces, StartsWith, IsWritten, Write, IsSane, HasWords;
    var right := Write(v, quote) + t;
    ValueRead(lang, v, quote, t);
    assert (op + right)[0] == op[0];
    FieldRead(lang, fid, quote, op + right);
    ComparisonRead(lang, text, fid, op, right, v, SkipSpaces(t));
  }

  lemma WordsBack(lang: Language, fid: Token, op: Condition, quote: char, t: string, text: string)
    requires ReadsText(lang, quote) && IsWritten(fid, quote) && (op.Null? || op.Empty? || op.Exists?)
    requires text == Write(fid, quote) + (" " + (ConditionText(op, quote) + t))
    ensures ParseAtom(lang, text) == Matched(t, Compare(fid, op))
  {
    hide ParseAtom, StartsWith, IsWritten, Write, ReadsText;
    var tail := ConditionText(op, quote) + t;
    FieldRead(lang, fid, quote, tail);
    match op {
      case Null =>
        assert tail == "IS" + (" " + ("NULL" + t));
        IsNullRead(lang, text, fid, " ", t);
      case Empty =>
        assert tail == "IS" + (" " + ("EMPTY" + t));
        IsEmptyRead(lang, text, fid, " ", t);
      case Exists => ExistsRead(lang, text, fid, t);
    }
  }

  lemma BetweenBack(lang: Language, fid: Token, from: Token, to: Token, quote: char, t: string, text: string)
    requires ReadsText(lang, quote) && IsWritten(fid, quote) && IsWritten(from, quote) && IsWritten(to, quote)
    requires text == Write(fid, quote) + (" " + (Write(from, quote) + (" TO " + (Write(to, quote) + t))))
    ensures ParseAtom(lang, text) == Matched(SkipSpaces(t), Compare(fid, Between(from, to)))
  {
    hide ParseAtom, ParseValue, SkipSpaces, StartsWith, IsWritten, Write, IsSane, HasWords;
    var upper := Write(to, quote) + t;
    var after := Write(from, quote) + (" TO " + upper);
    ValueRead(lang, to, quote, t);
    ValueRead(lang, from, quote, " TO " + upper);
    var rest := "TO" + (" " + upper);
    assert " TO " + upper == " " + rest;
    GapSkipped(" ", rest);
    FieldRead(lang, fid, quote, after);
    Misses(after, "IN", 0);
    Misses(after, "NOT", 0);
    Misses(after, "IS", 0);
    Misses(after, "EXISTS", 0);
    ToRead(lang, text, fid, after, from, " ", upper, to, SkipSpaces(t));
  }

  lemma {:induction false} ValuesQuoted(els: seq<Token>, quote: char)
    requires forall e <- els :: IsWritten(e, quote)
    ensures FilterAtoms.Quoted(Values(els), quote) == els && AllQuotable(Values(els), quote)
  {
    hide Quotable, QuotedToken;
    if els != [] {
      assert els[0] in els && forall e <- els[1..] :: e in els;
      ValuesQuoted(els[1..], quote);
      assert Values(els)[1..] == Values(els[1..]);
    }
  }

  lemma ListBack(lang: Language, fid: Token, els: seq<Token>, quote: char, t: string, text: string)
    requires ReadsText(lang, quote) && IsWritten(fid, quote) && forall e <- els :: IsWritten(e, quote)
    requires text == Write(fid, quote) + (" " + ("IN" + (" " + ("[" + (ListText(Values(els), quote) + ("]" + t))))))
    ensures ParseAtom(lang, text) == Matched(SkipSpaces(t), In(fid, els))
  {
    hide ParseAtom, SkipSpaces, StartsWith, IsWritten, Write, IsSane, HasWords, ListText;
    ValuesQuoted(els, quote);
    FieldRead(lang, fid, quote, "IN" + (" " + ("[" + (ListText(Values(els), quote) + ("]" + t)))));
    InRead(lang, text, fid, " ", Values(els), quote, t);
  }

  lemma OperatorBack(lang: Language, fid: Token, op: Condition, quote: char, t: string, text: string)
    requires ReadsText(lang, quote) && IsWritten(fid, quote) && CanWriteCondition(op, quote)
    requires !op.Between? && !op.Null? && !op.Empty? && !op.Exists?
    requires text == Write(fid, quote) + (" " + (OperatorText(op) + (Write(op.value, quote) + t)))
    ensures ParseAtom(lang, text) == Matched(SkipSpaces(t), Compare(fid, op))
  {
    hide ParseAtom, SkipSpaces, IsWritten, ReadsText, Write;
    ComparisonBack(lang, fid, OperatorText(op), op.value, quote, t, text);
  }

  lemma CompareBack(lang: Language, fid: Token, op: Condition, quote: char, t: string, text: string)
    requires ReadsText(lang, quote) && IsWritten(fid, quote) && CanWriteCondition(op, quote)
    requires text == Write(fid, quote) + (" " + (ConditionText(op, quote) + t))
    ensures ParseAtom(lang, text) == Matched(AtomRest(Compare(fid, op), t), Compare(fid, op))
  {
    hide ParseAtom, SkipSpaces, IsWritten, ReadsText, Write, OperatorText;
    match op {
      case Between(from, to) =>
        Assoc(Write(from, quote), " TO " + Write(to, quote), t);
        Assoc(" TO ", Write(to, quote), t);
        BetweenBack(lang, fid, from, to, quote, t, text);
      case Null => WordsBack(lang, fid, op, quote, t, text);
      case Empty => WordsBack(lang, fid, op, quote, t, text);
      case Exists => WordsBack(lang, fid, op, quote, t, text);
      case _ =>
        Assoc(OperatorText(op), Write(op.value, quote), t);
        OperatorBack(lang, fid, op, quote, t, text);
    }
  }

  lemma AtomBack(lang: Language, f: FilterCondition, quote: char, t: string)
    requires ReadsText(lang, quote) && IsCondition(f) && CanWrite(f, quote)
    ensures ParseAtom(lang, AtomText(f, quote) + t) == Matched(AtomRest(f, t), f)
  {
    hide ParseAtom, SkipSpaces, IsWritten, ReadsText, ListText, Write, ConditionText, CanWriteCondition;
    var text := AtomText(f, quote) + t;
    match f {
      case Compare(fid, op) =>
        Assoc(Write(fid, quote), " " + ConditionText(op, quote), t);
        Assoc(" ", ConditionText(op, quote), t);
        CompareBack(lang, fid, op, quote, t, text);
      case In(fid, els) =>
        var list := ListText(Values(els), quote);
        assert " IN [" + (list + "]") + t == " " + ("IN" + (" " + ("[" + (list + ("]" + t)))));
        assert text == Write(fid, quote) + (" IN [" + (list + "]") + t);
        ListBack(lang, fid, els, quote, t, text);
    }
  }

  // Whole filters

  /** A text that does not start with a space. */
  predicate Starts(s: string) {
    s != [] && !IsSpace(s[0])
  }

  /** What is left of `t`: all of it, or what is behind its spaces. */
  predicate IsRest(rest: string, t: string) {
    rest == t || rest == SkipSpaces(t)
  }

  lemma AtomStarts(f: FilterCondition, quote: char, t: string)
    requires IsCondition(f) && CanWrite(f, quote) && !IsSpace(quote)
    ensures Starts(AtomText(f, quote) + t)
  {
    hide ConditionText, ListText, IsWritten, CanWriteCondition;
    assert (AtomText(f, quote) + t)[0] == quote;
  }

  lemma {:induction false} NotStarts(f: FilterCondition, quote: char, t: string)
    requires CanWrite(f, quote) && !IsSpace(quote)
    ensures Starts(NotText(f, quote) + t)
  {
    if IsCondition(f) {
      AtomStarts(f, quote, t);
    } else {
      hide AtomText;
      assert (NotText(f, quote) + t)[0] == NotText(f, quote)[0];
    }
  }

  lemma {:induction false} AndStarts(f: FilterCondition, quote: char, t: string)
    requires CanWrite(f, quote) && !IsSpace(quote) && IsNormal(f)
    ensures Starts(AndText(f, quote) + t)
  {
    if f.And? {
      NotStarts(f.fs[0], quote, MoreAnds(f.fs[1..], quote) + t);
      assert AndText(f, quote) + t == NotText(f.fs[0], quote) + (MoreAnds(f.fs[1..], quote) + t);
    } else {
      NotStarts(f, quote, t);
    }
  }

  /** A keyword with a space behind it, wherever the spaces before it are skipped. */
  lemma KeywordRead(lang: Language, word: string, input: string, tail: string)
    requires HasWords(lang) && word != [] && (forall c <- word :: 'A' <= c <= 'Z') && Starts(tail)
    requires IsRest(input, word + (" " + tail)) || IsRest(input, " " + (word + (" " + tail)))
    ensures WsWord(lang, input, word) == Matched(tail, ())
  {
    hide HasWords, WordExact;
    var s := word + (" " + tail);
    assert s[0] == word[0] && word[0] in word;
    GapSkipped("", s);
    assert "" + s == s;
    GapSkipped(" ", s);
    GapSkipped(" ", tail);
    WordHit(lang, word, " " + tail);
  }

  lemma TagRead(tag: string, tail: string)
    requires tag == "(" || tag == ")"
    ensures WsTag(tag + tail, tag) == Matched(SkipSpaces(tail), ())
    ensures SkipSpaces(tag + tail) == tag + tail
  {
    var s := tag + tail;
    assert s[1..] == tail && tag <= s && SkipSpaces(s) == s;
  }

  lemma NegationRead(lang: Language, tail: string)
    requires HasWords(lang) && Starts(tail)
    ensures WsWord(lang, "NOT " + tail, "NOT") == Matched(tail, ())
  {
    hide HasWords, WsWord;
    assert "NOT " + tail == "NOT" + (" " + tail);
    KeywordRead(lang, "NOT", "NOT " + tail, tail);
  }

  lemma {:induction false} NotBack(lang: Language, f: FilterCondition, quote: char, t: string) returns (rest: string)
    requires ReadsText(lang, quote) && CanWrite(f, quote) && IsNormal(f)
    ensures IsRest(rest, t) && ReadsNot(lang, NotOf(f), NotText(f, quote) + t, rest)
    decreases f, 0
  {
    hide ReadsText, HasWords, ParseAtom, WsWord, WsTag, SkipSpaces, ReadsOr, AndsOf, NotsOf, AtomText, OrsText, AndsText;
    QuoteIsNoSpace(lang, quote);
    match f {
      case Not(g) =>
        var tail := NotText(g, quote) + t;
        NotStarts(g, quote, t);
        Assoc("NOT ", NotText(g, quote), t);
        NegationRead(lang, tail);
        rest := NotBack(lang, g, quote, t);
      case Or(fs) => rest := OrParensBack(lang, fs, quote, t);
      case And(fs) => rest := AndParensBack(lang, fs, quote, t);
      case _ =>
        AtomBack(lang, f, quote, t);
        rest := AtomRest(f, t);
    }
  }

  lemma {:induction false} OrParensBack(lang: Language, fs: seq<FilterCondition>, quote: char, t: string) returns (rest: string)
    requires ReadsText(lang, quote) && fs != [] && CanWriteAll(fs, quote) && AreNormal(fs)
    ensures IsRest(rest, t)
    ensures ReadsNot(lang, Plain(Parens(OrReading(AndsOf(fs)))), "(" + (OrsText(fs, quote) + ")") + t, rest)
    decreases fs, 3
  {
    hide ReadsText, SkipSpaces, ReadsOr, ReadsNot, AndsOf, AndText, MoreOrs, CanWrite, IsNormal;
    QuoteIsNoSpace(lang, quote);
    var close := ")" + t;
    var inside := OrsText(fs, quote) + close;
    AndStarts(fs[0], quote, MoreOrs(fs[1..], quote) + close);
    Assoc(AndText(fs[0], quote), MoreOrs(fs[1..], quote), close);
    var b := OrsBack(lang, fs, quote, close);
    rest := ParensBack(lang, OrReading(AndsOf(fs)), inside, b, t);
    Assoc("(", OrsText(fs, quote) + ")", t);
    Assoc(OrsText(fs, quote), ")", t);
  }

  lemma {:induction false} AndParensBack(lang: Language, fs: seq<FilterCondition>, quote: char, t: string) returns (rest: string)
    requires ReadsText(lang, quote) && fs != [] && CanWriteAll(fs, quote) && AreNormal(fs)
    ensures IsRest(rest, t)
    ensures ReadsNot(lang, Plain(Parens(OrReading([AndReading(NotsOf(fs))]))), "(" + (AndsText(fs, quote) + ")") + t, rest)
    decreases fs, 2
  {
    hide ReadsText, SkipSpaces, ReadsOr, ReadsAnd, ReadsNot, NotsOf, NotText, MoreAnds, CanWrite, IsNormal;
    QuoteIsNoSpace(lang, quote);
    var close := ")" + t;
    var inside := AndsText(fs, quote) + close;
    NotStarts(fs[0], quote, MoreAnds(fs[1..], quote) + close);
    Assoc(NotText(fs[0], quote), MoreAnds(fs[1..], quote), close);
    var b := AndsBack(lang, fs, quote, close);
    AloneRead(lang, AndReading(NotsOf(fs)), inside, b);
    rest := ParensBack(lang, OrReading([AndReading(NotsOf(fs))]), inside, b, t);
    Assoc("(", AndsText(fs, quote) + ")", t);
    Assoc(AndsText(fs, quote), ")", t);
  }

  lemma QuoteIsNoSpace(lang: Language, quote: char)
    requires ReadsText(lang, quote)
    ensures !IsSpace(quote) && HasWords(lang)
  {
  }

  lemma ParensBack(lang: Language, r: OrReading, inside: string, b: string, t: string) returns (rest: string)
    requires Starts(inside) && ReadsOr(lang, r, inside, b) && IsRest(b, ")" + t)
    ensures IsRest(rest, t) && ReadsNot(lang, Plain(Parens(r)), "(" + inside, rest)
  {
    hide ReadsOr, WsTag;
    TagRead("(", inside);
    TagRead(")", t);
    NoSkip(inside);
    rest := SkipSpaces(t);
    assert WsTag("(" + inside, "(") == Matched(inside, ()) && WsTag(b, ")") == Matched(rest, ());
    assert ReadsPrimary(lang, Parens(r), "(" + inside, rest);
  }

  /** An AND group alone is an OR group. */
  lemma AloneRead(lang: Language, r: AndReading, input: string, rest: string)
    requires ReadsAnd(lang, r, input, rest)
    ensures ReadsOr(lang, OrReading([r]), input, rest)
  {
    hide ReadsAnd;
    assert [r][1..] == [];
    assert ReadsOrs(lang, [], rest, rest);
  }

  lemma {:induction false} AndBack(lang: Language, f: FilterCondition, quote: char, t: string) returns (rest: string)
    requires ReadsText(lang, quote) && CanWrite(f, quote) && IsNormal(f)
    ensures IsRest(rest, t) && ReadsAnd(lang, AndOf(f), AndText(f, quote) + t, rest)
    decreases f, 1
  {
    hide ReadsText, ReadsNot, SkipSpaces;
    if f.And? {
      rest := AndsBack(lang, f.fs, quote, t);
    } else {
      rest := NotBack(lang, f, quote, t);
      assert [NotOf(f)][1..] == [];
      assert ReadsAnds(lang, [], rest, rest);
    }
  }

  lemma {:induction false} AndsBack(lang: Language, fs: seq<FilterCondition>, quote: char, t: string) returns (rest: string)
    requires ReadsText(lang, quote) && fs != [] && CanWriteAll(fs, quote) && AreNormal(fs)
    ensures IsRest(rest, t) && ReadsAnd(lang, AndReading(NotsOf(fs)), AndsText(fs, quote) + t, rest)
    decreases fs, 1
  {
    hide ReadsText, ReadsNot, ReadsAnds, SkipSpaces, NotText, NotOf, MoreAnds, CanWrite, IsNormal;
    var more := MoreAnds(fs[1..], quote) + t;
    var a := NotBack(lang, fs[0], quote, more);
    rest := MoreAndsBack(lang, fs[1..], quote, a, t);
    Assoc(NotText(fs[0], quote), MoreAnds(fs[1..], quote), t);
    assert NotsOf(fs)[1..] == NotsOf(fs[1..]);
  }

  lemma {:induction false} MoreAndsBack(lang: Language, fs: seq<FilterCondition>, quote: char, input: string, t: string)
    returns (rest: string)
    requires ReadsText(lang, quote) && CanWriteAll(fs, quote) && AreNormal(fs)
    requires IsRest(input, MoreAnds(fs, quote) + t)
    ensures IsRest(rest, t) && ReadsAnds(lang, NotsOf(fs), input, rest)
    decreases fs, 0
  {
    hide ReadsText, ReadsNot, SkipSpaces, HasWords, WsWord, NotText, NotOf, CanWrite, IsNormal;
    if fs == [] {
      assert MoreAnds(fs, quote) + t == t;
      rest := input;
    } else {
      QuoteIsNoSpace(lang, quote);
      var more := MoreAnds(fs[1..], quote) + t;
      var tail := NotText(fs[0], quote) + more;
      NotStarts(fs[0], quote, more);
      assert MoreAnds(fs, quote) + t == " " + ("AND" + (" " + tail));
      KeywordRead(lang, "AND", input, tail);
      var b := NotBack(lang, fs[0], quote, more);
      rest := MoreAndsBack(lang, fs[1..], quote, b, t);
      assert NotsOf(fs)[1..] == NotsOf(fs[1..]);
    }
  }

  lemma {:induction false} OrsBack(lang: Language, fs: seq<FilterCondition>, quote: char, t: string) returns (rest: string)
    requires ReadsText(lang, quote) && fs != [] && CanWriteAll(fs, quote) && AreNormal(fs)
    ensures IsRest(rest, t) && ReadsOr(lang, OrReading(AndsOf(fs)), OrsText(fs, quote) + t, rest)
    decreases fs, 2
  {
    hide ReadsText, ReadsAnd, ReadsOrs, SkipSpaces, AndText, AndOf, MoreOrs, CanWrite, IsNormal;
    var more := MoreOrs(fs[1..], quote) + t;
    var a := AndBack(lang, fs[0], quote, more);
    rest := MoreOrsBack(lang, fs[1..], quote, a, t);
    Assoc(AndText(fs[0], quote), MoreOrs(fs[1..], quote), t);
    assert AndsOf(fs)[1..] == AndsOf(fs[1..]);
  }

  lemma {:induction false} MoreOrsBack(lang: Language, fs: seq<FilterCondition>, quote: char, input: string, t: string)
    returns (rest: string)
    requires ReadsText(lang, quote) && CanWriteAll(fs, quote) && AreNormal(fs)
    requires IsRest(input, MoreOrs(fs, quote) + t)
    ensures IsRest(rest, t) && ReadsOrs(lang, AndsOf(fs), input, rest)
    decreases fs, 1
  {
    hide ReadsText, ReadsAnd, SkipSpaces, HasWords, WsWord, AndText, AndOf, CanWrite, IsNormal;
    if fs == [] {
      assert MoreOrs(fs, quote) + t == t;
      rest := input;
    } else {
      QuoteIsNoSpace(lang, quote);
      var more := MoreOrs(fs[1..], quote) + t;
      var tail := AndText(fs[0], quote) + more;
      AndStarts(fs[0], quote, more);
      assert MoreOrs(fs, quote) + t == " " + ("OR" + (" " + tail));
      KeywordRead(lang, "OR", input, tail);
      var b := AndBack(lang, fs[0], quote, more);
      rest := MoreOrsBack(lang, fs[1..], quote, b, t);
      assert AndsOf(fs)[1..] == AndsOf(fs[1..]);
    }
  }

  /**
   A filter in normal form is read back from its text, the very same tree, exactly if the
   parentheses and negations of the text stay within the depth budget.
  */
  lemma WrittenExactly(lang: Language, f: FilterCondition, quote: char)
    requires ReadsText(lang, quote) && CanWrite(f, quote) && IsNormal(f)
    ensures ParseFilter(lang, OrText(f, quote)) == if OrWithin(OrOf(f), 0) then Some(f) else None
  {
    hide ReadsText, ReadsOr, ReadsAnd, OrWithin, ParseFilter, OrTree, AndOf, AndText, IsSane;
    var text, rest := OrText(f, quote), "";
    assert text + "" == text;
    if f.Or? {
      rest := OrsBack(lang, f.fs, quote, "");
    } else {
      rest := AndBack(lang, f, quote, "");
      AloneRead(lang, AndOf(f), text, rest);
    }
    OrOfTree(f);
    TextIsSane(lang, quote);
    ReadTextAccepted(lang, text, OrOf(f));
  }

  lemma TextIsSane(lang: Language, quote: char)
    requires ReadsText(lang, quote)
    ensures IsSane(lang)
  {
  }

  // How deep a filter can be

  /** A condition in `n` pairs of parentheses. */
  function Nested(f: FilterCondition, n: nat, quote: char): string {
    if n == 0 then AtomText(f, quote) else "(" + (Nested(f, n - 1, quote) + ")")
  }

  function Nest(f: FilterCondition, n: nat): OrReading {
    OrReading([AndReading([Plain(if n == 0 then Atom(f) else Parens(Nest(f, n - 1)))])])
  }

  /** A condition behind `n` negations. */
  function Negated(f: FilterCondition, n: nat, quote: char): string {
    if n == 0 then AtomText(f, quote) else "NOT " + Negated(f, n - 1, quote)
  }

  function Negations(f: FilterCondition, n: nat): NotReading {
    if n == 0 then Plain(Atom(f)) else Negation(Negations(f, n - 1))
  }

  lemma OneRead(lang: Language, r: NotReading, input: string, rest: string)
    requires ReadsNot(lang, r, input, rest)
    ensures ReadsOr(lang, OrReading([AndReading([r])]), input, rest)
  {
    hide ReadsNot;
    assert [r][1..] == [];
    assert ReadsAnds(lang, [], rest, rest);
    AloneRead(lang, AndReading([r]), input, rest);
  }

  lemma OneTree(r: NotReading)
    ensures OrTree(OrReading([AndReading([r])])) == NotTree(r)
    ensures forall charge: nat :: OrWithin(OrReading([AndReading([r])]), charge) <==> NotWithin(r, charge)
  {
    OneGroup(AndReading([r]));
    assert [r][1..] == [] && NotTrees([r]) == [NotTree(r)];
    forall charge: nat
      ensures OrWithin(OrReading([AndReading([r])]), charge) <==> NotWithin(r, charge)
    {
      OneWithin(r, charge);
    }
  }

  lemma OneWithin(r: NotReading, charge: nat)
    ensures OrWithin(OrReading([AndReading([r])]), charge) <==> NotWithin(r, charge)
  {
    hide NotWithin;
    var one := AndReading([r]);
    assert [r][1..] == [] && [one][1..] == [];
    assert NotsWithin([r], charge) <==> NotWithin(r, charge);
    assert AndWithin(one, charge) <==> NotsWithin([r], charge);
    assert AndsWithin([one], charge) <==> AndWithin(one, charge);
  }

  lemma {:induction false} NestRead(lang: Language, f: FilterCondition, n: nat, quote: char, t: string) returns (rest: string)
    requires ReadsText(lang, quote) && IsCondition(f) && CanWrite(f, quote)
    ensures IsRest(rest, t) && ReadsOr(lang, Nest(f, n), Nested(f, n, quote) + t, rest)
    ensures Starts(Nested(f, n, quote) + t)
    decreases n
  {
    hide ReadsText, ReadsOr, ReadsNot, ParseAtom, SkipSpaces, HasWords, CanWrite, AtomText;
    QuoteIsNoSpace(lang, quote);
    if n == 0 {
      AtomStarts(f, quote, t);
      AtomBack(lang, f, quote, t);
      rest := AtomRest(f, t);
      AtomReads(lang, f, Nested(f, n, quote) + t, rest);
      OneRead(lang, Plain(Atom(f)), Nested(f, n, quote) + t, rest);
    } else {
      var inside := Nested(f, n - 1, quote) + (")" + t);
      var b := NestRead(lang, f, n - 1, quote, ")" + t);
      rest := ParensBack(lang, Nest(f, n - 1), inside, b, t);
      Assoc("(", Nested(f, n - 1, quote) + ")", t);
      Assoc(Nested(f, n - 1, quote), ")", t);
      OneRead(lang, Plain(Parens(Nest(f, n - 1))), "(" + inside, rest);
    }
  }

  lemma AtomReads(lang: Language, f: FilterCondition, input: string, rest: string)
    requires ParseAtom(lang, input) == Matched(rest, f)
    ensures ReadsNot(lang, Plain(Atom(f)), input, rest)
  {
    hide ParseAtom;
  }

  lemma {:induction false} NestIs(f: FilterCondition, n: nat, charge: nat)
    requires IsCondition(f)
    ensures OrTree(Nest(f, n)) == f && (OrWithin(Nest(f, n), charge) <==> charge + 4 * n <= 197)
    decreases n
  {
    hide OrTree, OrWithin;
    if n == 0 {
      OneTree(Plain(Atom(f)));
    } else {
      OneTree(Plain(Parens(Nest(f, n - 1))));
      NestIs(f, n - 1, charge + 4);
    }
  }

  /** Around a condition, 49 pairs of parentheses are accepted, and not one more. */
  lemma DeepestParentheses(lang: Language, f: FilterCondition, n: nat, quote: char)
    requires ReadsText(lang, quote) && IsCondition(f) && CanWrite(f, quote)
    ensures ParseFilter(lang, Nested(f, n, quote)) == if n <= 49 then Some(f) else None
  {
    hide ReadsText, IsSane, ReadsOr, OrWithin, OrTree, ParseFilter, CanWrite, Nested, Nest;
    var text := Nested(f, n, quote);
    assert text + "" == text;
    var rest := NestRead(lang, f, n, quote, "");
    NestIs(f, n, 0);
    TextIsSane(lang, quote);
    ReadTextAccepted(lang, text, Nest(f, n));
  }

  lemma {:induction false} NegationsRead(lang: Language, f: FilterCondition, n: nat, quote: char) returns (rest: string)
    requires ReadsText(lang, quote) && IsCondition(f) && CanWrite(f, quote)
    ensures rest == "" && ReadsNot(lang, Negations(f, n), Negated(f, n, quote), rest) && Starts(Negated(f, n, quote))
    decreases n
  {
    hide ReadsText, ParseAtom, SkipSpaces, HasWords, CanWrite, AtomText, WsWord, WsTag, ReadsPrimary;
    QuoteIsNoSpace(lang, quote);
    rest := "";
    if n == 0 {
      AtomStarts(f, quote, "");
      AtomBack(lang, f, quote, "");
      assert AtomText(f, quote) + "" == AtomText(f, quote);
      NoSpacesLeft(f);
      AtomReads(lang, f, AtomText(f, quote), "");
    } else {
      rest := NegationsRead(lang, f, n - 1, quote);
      NegationRead(lang, Negated(f, n - 1, quote));
    }
  }

  lemma NoSpacesLeft(f: FilterCondition)
    ensures AtomRest(f, "") == ""
  {
  }

  lemma {:induction false} NegationsAre(f: FilterCondition, n: nat, charge: nat)
    requires IsCondition(f)
    ensures NotTree(Negations(f, n)) == (if n % 2 == 0 then f else Not(f))
    ensures NotWithin(Negations(f, n), charge) <==> charge + n <= 197
    decreases n
  {
    if n > 0 {
      NegationsAre(f, n - 1, charge + 1);
    }
  }

  /** Before a condition, 197 negations are accepted, and not one more; pairs of them cancel out. */
  lemma MostNegations(lang: Language, f: FilterCondition, n: nat, quote: char)
    requires ReadsText(lang, quote) && IsCondition(f) && CanWrite(f, quote)
    ensures ParseFilter(lang, Negated(f, n, quote))
         == if n > 197 then None else Some(if n % 2 == 0 then f else Not(f))
  {
    hide ReadsText, IsSane, ReadsOr, OrWithin, OrTree, NotTree, NotWithin, ParseFilter, CanWrite, Negated, Negations;
    var text, r := Negated(f, n, quote), Negations(f, n);
    var rest := NegationsRead(lang, f, n, quote);
    OneRead(lang, r, text, "");
    OneTree(r);
    NegationsAre(f, n, 0);
    TextIsSane(lang, quote);
    ReadTextAccepted(lang, text, OrReading([AndReading([r])]));
  }
}

/**
 The filter parser: conditions, lists, and the grammar of OR, AND, NOT and parentheses with its
 depth budget.
*/
module FilterParser {
  import opened Wrappers
  import opened FilterSyntax

  const MAX_FILTER_DEPTH: nat := 200

  // Conditions

  /** The operators, in the order in which they are tried. */
  function Operator(s: string): (r: Parsed<string>)
    ensures r.Matched? ==> |r.rest| < |s|
  {
    if "<=" <= s then Matched(s[2..], "<=")
    else if ">=" <= s then Matched(s[2..], ">=")
    else if "!=" <= s then Matched(s[2..], "!=")
    else if "<" <= s then Matched(s[1..], "<")
    else if ">" <= s then Matched(s[1..], ">")
    else if "=" <= s then Matched(s[1..], "=")
    else Error
  }

  function Comparison(op: string, value: Token): Condition {
    if op == "<=" then LowerThanOrEqual(value)
    else if op == ">=" then GreaterThanOrEqual(value)
    else if op == "!=" then NotEqual(value)
    else if op == "<" then LowerThan(value)
    else if op == ">" then GreaterThan(value)
    else Equal(value)
  }

  function ParseCondition(lang: Language, input: string): (r: Parsed<FilterCondition>)
    ensures r.Matched? ==> |r.rest| < |input|
  {
    match ParseValue(lang, input)
    case Error => Error
    case Failure => Failure
    case Matched(a, fid) =>
      match Operator(a)
      case Error => Error
      case Failure => Failure
      case Matched(b, op) =>
        match ParseValue(lang, b).Cut()
        case Error => Error
        case Failure => Failure
        case Matched(rest, value) => Matched(rest, Compare(fid, Comparison(op, value)))
  }

  const OPERATORS: seq<string> := ["<=", ">=", "!=", "<", ">", "="]

  lemma OperatorRead(op: string, rest: string)
    requires op in OPERATORS && rest != [] && rest[0] != '='
    ensures Operator(op + rest) == Matched(rest, op) && SkipSpaces(op + rest) == op + rest
  {
    var s := op + rest;
    assert s[|op|..] == rest && op <= s && s[|op|] == rest[0];
    assert s[0] == op[0] && (|op| == 2 ==> s[1] == op[1]);
    forall two | two in ["<=", ">=", "!="]
      ensures two <= s <==> two == op
    {
      assert two <= s ==> s[0] == two[0] && s[1] == two[1];
    }
  }

  /** A list of words, each a prefix of what is left, with at least one space between them. */
  function Words(s: string, words: seq<string>): (r: Parsed<()>)
    ensures r.Matched? ==> |r.rest| <= |s|
    decreases |words|
  {
    if words == [] then Matched(s, ())
    else
      match Tag(s, words[0])
      case Error => Error
      case Failure => Failure
      case Matched(a, _) =>
        if |words| == 1 then Matched(a, ())
        else
          match Multispace1(a)
          case Error => Error
          case Failure => Failure
          case Matched(b, _) => Words(b, words[1..])
  }

  /** A value followed by fixed words. */
  function ParsePostfix(lang: Language, input: string, words: seq<string>, op: Condition, negated: bool)
    : (r: Parsed<FilterCondition>)
    ensures r.Matched? ==> |r.rest| < |input|
  {
    match ParseValue(lang, input)
    case Error => Error
    case Failure => Failure
    case Matched(a, fid) =>
      match Words(a, words)
      case Error => Error
      case Failure => Failure
      case Matched(rest, _) => Matched(rest, if negated then Not(Compare(fid, op)) else Compare(fid, op))
  }

  function ParseTo(lang: Language, input: string): (r: Parsed<FilterCondition>)
    ensures r.Matched? ==> |r.rest| < |input|
  {
    match ParseValue(lang, input)
    case Error => Error
    case Failure => Failure
    case Matched(a, fid) =>
      match ParseValue(lang, a)
      case Error => Error
      case Failure => Failure
      case Matched(b, from) =>
        match Words(b, ["TO", ""])
        case Error => Error
        case Failure => Failure
        case Matched(c, _) =>
          match ParseValue(lang, c).Cut()
          case Error => Error
          case Failure => Failure
          case Matched(rest, to) => Matched(rest, Compare(fid, Between(from, to)))
  }

  /** `("," value)*`: a comma that no value follows is given back. */
  function ManyValues(lang: Language, input: string): (r: Parsed<seq<Token>>)
    ensures r.Matched? ==> |r.rest| <= |input|
    decreases |input|
  {
    match WsTag(input, ",")
    case Error => Matched(input, [])
    case Failure => Failure
    case Matched(a, _) =>
      match ParseValue(lang, a)
      case Error => Matched(input, [])
      case Failure => Failure
      case Matched(b, value) =>
        match ManyValues(lang, b)
        case Error => Error
        case Failure => Failure
        case Matched(rest, more) => Matched(rest, [value] + more)
  }

  function ParseValueList(lang: Language, input: string): (r: Parsed<seq<Token>>)
    ensures r.Matched? ==> |r.rest| <= |input|
  {
    match ParseValue(lang, input)
    case Error => Matched(input, [])
    case Failure => Failure
    case Matched(a, first) =>
      match ManyValues(lang, a)
      case Error => Error
      case Failure => Failure
      case Matched(b, more) =>
        var rest := match WsTag(b, ",") case Matched(c, _) => c case _ => b;
        Matched(rest, [first] + more)
  }

  function ParseInBody(lang: Language, input: string): (r: Parsed<seq<Token>>)
    ensures r.Matched? ==> |r.rest| < |input|
  {
    match WsWord(lang, input, "IN")
    case Error => Error
    case Failure => Failure
    case Matched(a, _) =>
      match Tag(a, "[").Cut()
      case Error => Error
      case Failure => Failure
      case Matched(b, _) =>
        match ParseValueList(lang, b).Cut()
        case Error => Error
        case Failure => Failure
        case Matched(c, els) =>
          match WsTag(c, "]").Cut()
          case Error => Error
          case Failure => Failure
          case Matched(rest, _) => Matched(rest, els)
  }

  function ParseIn(lang: Language, input: string): (r: Parsed<FilterCondition>)
    ensures r.Matched? ==> |r.rest| < |input|
  {
    match ParseValue(lang, input)
    case Error => Error
    case Failure => Failure
    case Matched(a, fid) =>
      match ParseInBody(lang, a)
      case Error => Error
      case Failure => Failure
      case Matched(rest, els) => Matched(rest, In(fid, els))
  }

  function ParseNotIn(lang: Language, input: string): (r: Parsed<FilterCondition>)
    ensures r.Matched? ==> |r.rest| < |input|
  {
    match ParseValue(lang, input)
    case Error => Error
    case Failure => Failure
    case Matched(a, fid) =>
      match WordExact(lang, a, "NOT")
      case Error => Error
      case Failure => Failure
      case Matched(b, _) =>
        match ParseInBody(lang, b)
        case Error => Error
        case Failure => Failure
        case Matched(rest, els) => Matched(rest, Not(In(fid, els)))
  }

  function ParseGeo(lang: Language, input: string): (r: Parsed<FilterCondition>)
    ensures r.Matched? ==> |r.rest| < |input|
  {
    match lang.geo(input)
    case Error => Error
    case Failure => Failure
    case Matched(rest, g) => if |rest| < |input| then Matched(rest, Geo(g)) else Failure
  }

  /** The alternatives of a primary besides the parentheses, in their order. */
  function ParseAtom(lang: Language, input: string): (r: Parsed<FilterCondition>)
    ensures r.Matched? ==> |r.rest| < |input|
  {
    Alt(ParseGeo(lang, input),
    Alt(ParseIn(lang, input),
    Alt(ParseNotIn(lang, input),
    Alt(ParseCondition(lang, input),
    Alt(ParsePostfix(lang, input, ["IS", "NULL"], Null, false),
    Alt(ParsePostfix(lang, input, ["IS", "NOT", "NULL"], Null, true),
    Alt(ParsePostfix(lang, input, ["IS", "EMPTY"], Empty, false),
    Alt(ParsePostfix(lang, input, ["IS", "NOT", "EMPTY"], Empty, true),
    Alt(ParsePostfix(lang, input, ["EXISTS"], Exists, false),
    Alt(ParsePostfix(lang, input, ["NOT", "EXISTS"], Exists, true),
    ParseTo(lang, input)))))))))))
  }

  // The grammar

  function ParseOr(lang: Language, input: string, depth: nat): (r: Parsed<FilterCondition>)
    requires depth <= MAX_FILTER_DEPTH + 1
    ensures r.Matched? ==> |r.rest| < |input|
    decreases MAX_FILTER_DEPTH + 1 - depth, |input|, 1
  {
    if depth > MAX_FILTER_DEPTH then Error
    else
      match ParseAnd(lang, input, depth + 1)
      case Error => Error
      case Failure => Failure
      case Matched(a, first) =>
        match ManyOr(lang, a, depth)
        case Error => Error
        case Failure => Failure
        case Matched(rest, ors) => Matched(rest, if ors == [] then first else Or([first] + ors))
  }

  /** `(OR and)*`: after an `OR`, something must follow. */
  function ManyOr(lang: Language, input: string, depth: nat): (r: Parsed<seq<FilterCondition>>)
    requires depth <= MAX_FILTER_DEPTH
    ensures r.Matched? ==> |r.rest| <= |input|
    decreases MAX_FILTER_DEPTH + 1 - depth, |input|, 0
  {
    match WsWord(lang, input, "OR")
    case Error => Matched(input, [])
    case Failure => Failure
    case Matched(a, _) =>
      match ParseAnd(lang, a, depth + 1).Cut()
      case Error => Error
      case Failure => Failure
      case Matched(b, f) =>
        match ManyOr(lang, b, depth)
        case Error => Error
        case Failure => Failure
        case Matched(rest, more) => Matched(rest, [f] + more)
  }

  function ParseAnd(lang: Language, input: string, depth: nat): (r: Parsed<FilterCondition>)
    requires depth <= MAX_FILTER_DEPTH + 1
    ensures r.Matched? ==> |r.rest| < |input|
    decreases MAX_FILTER_DEPTH + 1 - depth, |input|, 1
  {
    if depth > MAX_FILTER_DEPTH then Error
    else
      match ParseNot(lang, input, depth + 1)
      case Error => Error
      case Failure => Failure
      case Matched(a, first) =>
        match ManyAnd(lang, a, depth)
        case Error => Error
        case Failure => Failure
        case Matched(rest, ands) => Matched(rest, if ands == [] then first else And([first] + ands))
  }

  function ManyAnd(lang: Language, input: string, depth: nat): (r: Parsed<seq<FilterCondition>>)
    requires depth <= MAX_FILTER_DEPTH
    ensures r.Matched? ==> |r.rest| <= |input|
    decreases MAX_FILTER_DEPTH + 1 - depth, |input|, 0
  {
    match WsWord(lang, input, "AND")
    case Error => Matched(input, [])
    case Failure => Failure
    case Matched(a, _) =>
      match ParseNot(lang, a, depth + 1).Cut()
      case Error => Error
      case Failure => Failure
      case Matched(b, f) =>
        match ManyAnd(lang, b, depth)
        case Error => Error
        case Failure => Failure
        case Matched(rest, more) => Matched(rest, [f] + more)
  }

  /** Two negations in a row are none. */
  function Negate(f: FilterCondition): FilterCondition {
    if f.Not? then f.f else Not(f)
  }

  function ParseNot(lang: Language, input: string, depth: nat): (r: Parsed<FilterCondition>)
    requires depth <= MAX_FILTER_DEPTH + 1
    ensures r.Matched? ==> |r.rest| < |input|
    decreases MAX_FILTER_DEPTH + 1 - depth, |input|, 0
  {
    if depth > MAX_FILTER_DEPTH then Error
    else
      match WsWord(lang, input, "NOT")
      case Error => ParsePrimary(lang, input, depth + 1)
      case Failure => Failure
      case Matched(a, _) =>
        match ParseNot(lang, a, depth + 1).Cut()
        case Error => Error
        case Failure => Failure
        case Matched(rest, f) => Matched(rest, Negate(f))
  }

  function ParsePrimary(lang: Language, input: string, depth: nat): (r: Parsed<FilterCondition>)
    requires depth <= MAX_FILTER_DEPTH + 1
    ensures r.Matched? ==> |r.rest| < |input|
    decreases MAX_FILTER_DEPTH + 1 - depth, |input|, 0
  {
    if depth > MAX_FILTER_DEPTH then Error
    else
      match WsTag(input, "(")
      case Error => ParseAtom(lang, input)
      case Failure => Failure
      case Matched(a, _) =>
        match ParseOr(lang, a, depth + 1).Cut()
        case Error => Error
        case Failure => Failure
        case Matched(b, f) =>
          match WsTag(b, ")").Cut()
          case Error => Error
          case Failure => Failure
          case Matched(rest, _) => Matched(rest, f)
  }

  /** A whole filter: `None` when the text is not one. */
  function ParseFilter(lang: Language, input: string): Option<FilterCondition> {
    match ParseOr(lang, input, 0)
    case Matched(rest, f) => if rest == [] then Some(f) else None
    case Error => None
    case Failure => None
  }
}

/**
 Filters: their trees, and the lexical parsers that never recurse.

 A parser answers `Matched`, a recoverable `Error` after which an alternative may be tried, or a
 `Failure` that stops everything.
*/
module FilterSyntax {
  import opened Wrappers

  datatype Parsed<T> = Matched(rest: string, value: T) | Error | Failure
  {
    /** After `cut`, an error cannot be recovered from. */
    function Cut(): Parsed<T> {
      if Error? then Failure else this
    }
  }

  function Alt<T>(a: Parsed<T>, b: Parsed<T>): Parsed<T> {
    if a.Error? then b else a
  }

  /** A piece of the filter, and what it stands for when it holds escaped quotes. */
  datatype Token = Token(lexeme: string, unescaped: Option<string>)
  {
    function Value(): string {
      if unescaped.Some? then unescaped.value else lexeme
    }
  }

  datatype Condition =
    | GreaterThan(value: Token)
    | GreaterThanOrEqual(value: Token)
    | Equal(value: Token)
    | NotEqual(value: Token)
    | Null
    | Empty
    | Exists
    | LowerThan(value: Token)
    | LowerThanOrEqual(value: Token)
    | Between(from: Token, to: Token)

  datatype GeoCondition =
    | GeoLowerThan(lat: string, lng: string, radius: string)
    | GeoBoundingBox(top: string, right: string, bottom: string, left: string)

  datatype FilterCondition =
    | Not(f: FilterCondition)
    | Compare(fid: Token, op: Condition)
    | In(fid: Token, els: seq<Token>)
    | Geo(geo: GeoCondition)
    | Or(fs: seq<FilterCondition>)
    | And(fs: seq<FilterCondition>)

  /**
   What the parsers ask from outside: which characters are alphanumeric, the geo conditions (they
   need floats), and whether a text starts with a geo expression that cannot be a value.
  */
  datatype Language = Language(
    alphanumeric: char -> bool,
    geo: string -> Parsed<GeoCondition>,
    reservedGeo: string -> bool)

  predicate IsSpace(c: char) {
    c == ' ' || c == '\t' || c == '\r' || c == '\n'
  }

  /** The white space characters of Unicode. */
  predicate IsWhitespace(c: char) {
    var u := c as int;
    || 0x09 <= u <= 0x0D || u == 0x20 || u == 0x85 || u == 0xA0 || u == 0x1680 || 0x2000 <= u <= 0x200A
    || u == 0x2028 || u == 0x2029 || u == 0x202F || u == 0x205F || u == 0x3000
  }

  function SkipSpaces(s: string): (r: string)
    ensures |r| <= |s|
  {
    if s != [] && IsSpace(s[0]) then SkipSpaces(s[1..]) else s
  }

  function SkipWhitespace(s: string): (r: string)
    ensures |r| <= |s|
  {
    if s != [] && IsWhitespace(s[0]) then SkipWhitespace(s[1..]) else s
  }

  predicate IsValueComponent(lang: Language, c: char) {
    lang.alphanumeric(c) || c == '_' || c == '-' || c == '.'
  }

  /** How many characters the word at the start of `s` has. */
  function WordLength(lang: Language, s: string): (n: nat)
    ensures n <= |s|
  {
    if s != [] && IsValueComponent(lang, s[0]) then 1 + WordLength(lang, s[1..]) else 0
  }

  function TakeWord(lang: Language, s: string): Parsed<string> {
    var n := WordLength(lang, s);
    if n == 0 then Error else Matched(s[n..], s[..n])
  }

  const KEYWORDS: seq<string> := [
    "AND", "OR", "IN", "NOT", "TO", "EXISTS", "IS", "NULL", "EMPTY", "_geoRadius", "_geoBoundingBox"]

  function WordNotKeyword(lang: Language, s: string): Parsed<Token> {
    match TakeWord(lang, s)
    case Matched(rest, word) => if word in KEYWORDS then Error else Matched(rest, Token(word, None))
    case Error => Error
    case Failure => Failure
  }

  /** A whole word, not just the beginning of one. */
  function WordExact(lang: Language, s: string, word: string): (r: Parsed<()>)
    ensures r.Matched? ==> |r.rest| < |s|
  {
    match TakeWord(lang, s)
    case Matched(rest, found) => if found == word then Matched(rest, ()) else Error
    case Error => Error
    case Failure => Failure
  }

  function Tag(s: string, tag: string): Parsed<()> {
    if tag <= s then Matched(s[|tag|..], ()) else Error
  }

  function Multispace1(s: string): Parsed<()> {
    if s != [] && IsSpace(s[0]) then Matched(SkipSpaces(s), ()) else Error
  }

  /** Optional spaces before and after a word. */
  function WsWord(lang: Language, s: string, word: string): Parsed<()> {
    match WordExact(lang, SkipSpaces(s), word)
    case Matched(rest, _) => Matched(SkipSpaces(rest), ())
    case Error => Error
    case Failure => Failure
  }

  function WsTag(s: string, tag: string): Parsed<()> {
    match Tag(SkipSpaces(s), tag)
    case Matched(rest, _) => Matched(SkipSpaces(rest), ())
    case Error => Error
    case Failure => Failure
  }

  // Quoted values

  /** Every escaped quote loses its backslash. */
  function Unescape(s: string, quote: char): string {
    if |s| >= 2 && s[0] == '\\' && s[1] == quote then [quote] + Unescape(s[2..], quote)
    else if s == [] then []
    else [s[0]] + Unescape(s[1..], quote)
  }

  /** Where the text inside the quotes ends, from position `i` on; `None` when a backslash ends the input. */
  function QuoteEnd(quote: char, s: string, i: nat, escaped: bool): (r: Option<(nat, bool)>)
    requires i <= |s|
    ensures r.Some? ==> i <= r.value.0 <= |s|
    decreases |s| - i
  {
    if i == |s| || s[i] == quote then Some((i, escaped))
    else if s[i] == '\\' then
      if i + 1 < |s| then QuoteEnd(quote, s, i + 2, escaped || s[i + 1] == quote) else None
    else QuoteEnd(quote, s, i + 1, escaped)
  }

  function Quoted(quote: char, s: string): Parsed<Token> {
    match QuoteEnd(quote, s, 0, false)
    case None => Error
    case Some((end, escaped)) =>
      Matched(s[end..], Token(s[..end], if escaped then Some(Unescape(s[..end], quote)) else None))
  }

  /** `quoted_by`: the loop over the characters, skipping the one after a backslash. */
  method QuotedBy(quote: char, input: string) returns (r: Parsed<Token>)
    ensures r == Quoted(quote, input)
  {
    if input == [] {
      return Matched(input, Token(input, None));
    }
    var escaped, i := false, 0;
    while i < |input|
      invariant i <= |input|
      invariant QuoteEnd(quote, input, i, escaped) == QuoteEnd(quote, input, 0, false)
    {
      if input[i] == quote {
        return Matched(input[i..], Token(input[..i], if escaped then Some(Unescape(input[..i], quote)) else None));
      } else if input[i] == '\\' {
        i := i + 1;
        if i < |input| {
          escaped := escaped || input[i] == quote;
        } else {
          return Error;
        }
      }
      i := i + 1;
    }
    assert input[..|input|] == input;
    return Matched(input[|input|..], Token(input, if escaped then Some(Unescape(input, quote)) else None));
  }

  /** A value between quotes: once a quote is open, there is no way back. */
  function Delimited(quote: char, s: string): Parsed<Token>
    requires s != [] && s[0] == quote
  {
    match Quoted(quote, s[1..])
    case Matched(rest, token) => if rest != [] && rest[0] == quote then Matched(rest[1..], token) else Failure
    case Error => Failure
    case Failure => Failure
  }

  function ParseValue(lang: Language, input: string): (r: Parsed<Token>)
    ensures r.Matched? ==> |r.rest| < |input|
  {
    var s := SkipWhitespace(input);
    if lang.reservedGeo(s) then Failure
    else
      var value :=
        if s != [] && s[0] == '\'' then Delimited('\'', s)
        else if s != [] && s[0] == '"' then Delimited('"', s)
        else WordNotKeyword(lang, s);
      match value
      case Matched(rest, token) => Matched(SkipSpaces(rest), token)
      case Error => Error
      case Failure => Failure
  }

  /** Write a value between quotes. */
  function Escape(value: string, quote: char): string {
    if value == [] then []
    else (if value[0] == quote then ['\\', quote] else [value[0]]) + Escape(value[1..], quote)
  }

  /**
   Whether a value survives quoting: reading from the left, a backslash shields the character after
   it, so it needs one, and not the quote.
  */
  predicate Quotable(value: string, quote: char) {
    if value == [] then true
    else if value[0] != '\\' then Quotable(value[1..], quote)
    else |value| >= 2 && value[1] != quote && Quotable(value[2..], quote)
  }

  lemma EscapeOfPair(value: string, quote: char)
    requires |value| >= 2 && value[0] == '\\' && quote != '\\'
    ensures Escape(value, quote) == (if value[1] == quote then "\\\\" + [quote] else value[..2]) + Escape(value[2..], quote)
  {
    assert value[1..][1..] == value[2..];
    assert Escape(value, quote) == ['\\'] + Escape(value[1..], quote);
  }

  /** A backslash before a quote shields the one that escapes it; one at the end shields the closing quote. */
  lemma UnpairedScanned(value: string, quote: char, before: string, rest: string, escaped: bool)
    requires quote != '\\' && rest != [] && rest[0] == quote
    requires value != [] && value[0] == '\\' && (|value| == 1 || value[1] == quote)
    ensures
      var r := QuoteEnd(quote, before + Escape(value, quote) + rest, |before|, escaped);
      r.None? || r.value.0 != |before| + |Escape(value, quote)|
  {
    var s := before + Escape(value, quote) + rest;
    if |value| == 1 {
      assert Escape(value, quote) == ['\\'] + Escape([], quote);
      assert s[|before|] == '\\' && s[|before| + 1] == quote;
    } else {
      EscapeOfPair(value, quote);
      assert s[|before|] == '\\' && s[|before| + 1] == '\\' && s[|before| + 2] == quote;
    }
  }

  /** One step of the scan: past a character, or past the pair that a backslash or an escape starts. */
  lemma StepScanned(value: string, quote: char, before: string, rest: string, escaped: bool, n: nat)
    requires quote != '\\' && n <= |value|
    requires if n == 1 then value[0] != '\\' else n == 2 && value[0] == '\\' && value[1] != quote
    ensures
      var head := if value[0] == quote then ['\\', quote] else value[..n];
      && Escape(value, quote) == head + Escape(value[n..], quote)
      && before + Escape(value, quote) + rest == before + head + Escape(value[n..], quote) + rest
      && QuoteEnd(quote, before + Escape(value, quote) + rest, |before|, escaped)
      == QuoteEnd(quote, before + Escape(value, quote) + rest, |before + head|, escaped || value[0] == quote)
  {
    var head := if value[0] == quote then ['\\', quote] else value[..n];
    if n == 2 {
      EscapeOfPair(value, quote);
    }
    var s := before + Escape(value, quote) + rest;
    assert Escape(value, quote) == head + Escape(value[n..], quote);
    assert s == before + head + Escape(value[n..], quote) + rest;
    assert s[|before|] == head[0] && (|head| == 2 ==> s[|before| + 1] == head[1]);
  }

  /** The escaped text is scanned to its end exactly if the value is quotable. */
  lemma {:induction false} EscapeScanned(value: string, quote: char, before: string, rest: string, escaped: bool)
    requires quote != '\\'
    requires rest != [] && rest[0] == quote
    ensures
      var end := |before| + |Escape(value, quote)|;
      match QuoteEnd(quote, before + Escape(value, quote) + rest, |before|, escaped)
      case Some((found, seen)) =>
        (found == end <==> Quotable(value, quote)) && (found == end ==> seen == (escaped || quote in value))
      case None => !Quotable(value, quote)
    decreases |value|
  {
    if value == [] {
      assert (before + [] + rest)[|before|] == quote;
    } else {
      var n := if value[0] != '\\' then 1 else 2;
      if n <= |value| && (n == 2 ==> value[1] != quote) {
        hide QuoteEnd, Escape;
        var head := if value[0] == quote then ['\\', quote] else value[..n];
        StepScanned(value, quote, before, rest, escaped, n);
        EscapeScanned(value[n..], quote, before + head, rest, escaped || value[0] == quote);
        assert value == value[..n] + value[n..];
      } else {
        UnpairedScanned(value, quote, before, rest, escaped);
      }
    }
  }

  lemma {:induction false} UnescapeEscape(value: string, quote: char)
    requires quote != '\\'
    ensures Unescape(Escape(value, quote), quote) == value
    ensures quote !in value ==> Escape(value, quote) == value
    ensures Escape(value, quote) != [] ==> Escape(value, quote)[0] != quote
  {
    if value != [] {
      var c, more := value[0], value[1..];
      assert value == [c] + more && forall d <- more :: d in value;
      UnescapeEscape(more, quote);
      var e := Escape(value, quote);
      if c == quote {
        assert e[2..] == Escape(more, quote);
      } else {
        assert e[1..] == Escape(more, quote);
      }
    }
  }

  function InQuotes(value: string, quote: char): string {
    [quote] + Escape(value, quote) + [quote]
  }

  /** A value survives quoting exactly if it is quotable. */
  lemma QuotingRoundTrip(value: string, quote: char, rest: string)
    requires quote != '\\'
    ensures
      var r := Delimited(quote, InQuotes(value, quote) + rest);
      (r.Matched? && r.rest == rest && r.value.Value() == value) <==> Quotable(value, quote)
  {
    hide QuoteEnd, Escape, Unescape, Quotable;
    var s := InQuotes(value, quote) + rest;
    var inside := Escape(value, quote) + ([quote] + rest);
    assert s[1..] == inside;
    EscapeScanned(value, quote, [], [quote] + rest, false);
    assert [] + Escape(value, quote) + ([quote] + rest) == inside;
    UnescapeEscape(value, quote);
    var end := |Escape(value, quote)|;
    assert inside[..end] == Escape(value, quote) && inside[end..] == [quote] + rest;
  }

  /** What is read of a value between quotes. */
  function QuotedToken(value: string, quote: char): (token: Token)
  {
    Token(Escape(value, quote), if quote in value then Some(value) else None)
  }

  lemma QuotedDelimited(value: string, quote: char, rest: string)
    requires quote != '\\' && Quotable(value, quote)
    ensures Delimited(quote, InQuotes(value, quote) + rest) == Matched(rest, QuotedToken(value, quote))
    ensures QuotedToken(value, quote).Value() == value
  {
    hide QuoteEnd, Quotable, Escape, Unescape;
    var s := InQuotes(value, quote) + rest;
    var inside := Escape(value, quote) + ([quote] + rest);
    assert s[1..] == inside;
    EscapeScanned(value, quote, [], [quote] + rest, false);
    assert [] + Escape(value, quote) + ([quote] + rest) == inside;
    UnescapeEscape(value, quote);
    var end := |Escape(value, quote)|;
    assert inside[..end] == Escape(value, quote) && inside[end..] == [quote] + rest;
  }

  /** A quotable value between quotes is read as a value of a filter. */
  lemma QuotedValueRead(lang: Language, value: string, quote: char, rest: string)
    requires quote == '\'' || quote == '"'
    requires Quotable(value, quote) && !lang.reservedGeo(InQuotes(value, quote) + rest)
    ensures ParseValue(lang, InQuotes(value, quote) + rest) == Matched(SkipSpaces(rest), QuotedToken(value, quote))
    ensures QuotedToken(value, quote).Value() == value
  {
    hide Quotable, SkipSpaces, QuotedToken, Delimited, Escape;
    var s := InQuotes(value, quote) + rest;
    assert s[0] == quote && !IsWhitespace(quote);
    assert SkipWhitespace(s) == s;
    QuotedDelimited(value, quote, rest);
  }

  /** A word that is no keyword is read as a value, up to the first character that cannot be in a word. */
  lemma WordValueRead(lang: Language, word: string, rest: string)
    requires word != [] && (forall c <- word :: IsValueComponent(lang, c)) && word !in KEYWORDS
    requires rest == [] || !IsValueComponent(lang, rest[0])
    requires !IsWhitespace(word[0]) && word[0] != '\'' && word[0] != '"' && !lang.reservedGeo(word + rest)
    ensures ParseValue(lang, word + rest) == Matched(SkipSpaces(rest), Token(word, None))
  {
    hide SkipSpaces, KEYWORDS;
    assert (word + rest)[0] == word[0];
    assert SkipWhitespace(word + rest) == word + rest;
    WordTaken(lang, word, rest);
  }

  lemma {:induction false} WordTaken(lang: Language, word: string, rest: string)
    requires forall c <- word :: IsValueComponent(lang, c)
    requires rest == [] || !IsValueComponent(lang, rest[0])
    ensures WordLength(lang, word + rest) == |word|
    ensures word != [] ==> TakeWord(lang, word + rest) == Matched(rest, word)
  {
    var s := word + rest;
    if word != [] {
      assert s[0] == word[0] && word[0] in word && s[1..] == word[1..] + rest;
      WordTaken(lang, word[1..], rest);
      assert s[..|word|] == word && s[|word|..] == rest;
    } else {
      assert s == rest;
    }
  }

  /** A keyword is no value. */
  lemma KeywordIsNoValue(lang: Language, word: string, rest: string)
    requires word in ["AND", "OR", "IN", "NOT", "TO", "EXISTS", "IS", "NULL", "EMPTY", "_geoRadius", "_geoBoundingBox"]
    requires forall c <- word :: IsValueComponent(lang, c)
    requires rest == [] || !IsValueComponent(lang, rest[0])
    requires !lang.reservedGeo(word + rest)
    ensures ParseValue(lang, word + rest) == Error
  {
    assert word != [] && !IsWhitespace(word[0]) && (word + rest)[0] == word[0];
    assert SkipWhitespace(word + rest) == word + rest;
    WordTaken(lang, word, rest);
  }

  /** How many backslashes stand directly before position `i`. */
  function BackslashesBefore(s: string, i: nat): nat
    requires i <= |s|
  {
    if i == 0 || s[i - 1] != '\\' then 0 else 1 + BackslashesBefore(s, i - 1)
  }

  lemma {:induction false} BackslashesShift(head: string, s: string, i: nat)
    requires i <= |s|
    ensures BackslashesBefore(head + s, |head| + i)
         == BackslashesBefore(s, i) + if BackslashesBefore(s, i) == i then BackslashesBefore(head, |head|) else 0
  {
    if i == 0 {
      BackslashesOfHead(head, s, |head|);
    } else if s[i - 1] == '\\' {
      assert (head + s)[|head| + i - 1] == s[i - 1];
      BackslashesShift(head, s, i - 1);
    } else {
      assert (head + s)[|head| + i - 1] == s[i - 1];
    }
  }

  lemma {:induction false} BackslashesOfHead(head: string, s: string, i: nat)
    requires i <= |head|
    ensures BackslashesBefore(head + s, i) == BackslashesBefore(head, i)
  {
    if i > 0 {
      BackslashesOfHead(head, s, i - 1);
    }
  }

  /** An even number of backslashes before the end and before every quote. */
  ghost predicate EvenBackslashes(value: string, quote: char) {
    forall i | 0 <= i <= |value| && (i == |value| || value[i] == quote) :: BackslashesBefore(value, i) % 2 == 0
  }

  /** A front that ends no quote and no odd run of backslashes makes no difference. */
  lemma EvenTail(head: string, more: string, quote: char)
    requires BackslashesBefore(head, |head|) % 2 == 0
    requires forall i | 0 <= i < |head| && head[i] == quote :: BackslashesBefore(head, i) % 2 == 0
    ensures EvenBackslashes(head + more, quote) <==> EvenBackslashes(more, quote)
  {
    hide BackslashesBefore;
    var value, n := head + more, |head|;
    forall i: nat | i <= |more|
      ensures BackslashesBefore(value, n + i) % 2 == BackslashesBefore(more, i) % 2
    {
      BackslashesShift(head, more, i);
    }
    forall i: nat | i < n
      ensures BackslashesBefore(value, i) == BackslashesBefore(head, i)
    {
      BackslashesOfHead(head, more, i);
    }
    if EvenBackslashes(value, quote) {
      forall i | 0 <= i <= |more| && (i == |more| || more[i] == quote)
        ensures BackslashesBefore(more, i) % 2 == 0
      {
        assert BackslashesBefore(value, n + i) % 2 == 0;
      }
    }
    if EvenBackslashes(more, quote) {
      forall i | 0 <= i <= |value| && (i == |value| || value[i] == quote)
        ensures BackslashesBefore(value, i) % 2 == 0
      {
        if i >= n {
          assert BackslashesBefore(value, n + (i - n)) % 2 == BackslashesBefore(more, i - n) % 2;
        }
      }
    }
  }

  /** Quotable values, seen from the right: an odd run of backslashes must not meet a quote or the end. */
  lemma {:induction false} QuotableIsEven(value: string, quote: char)
    requires quote != '\\'
    ensures Quotable(value, quote) <==> EvenBackslashes(value, quote)
    decreases |value|
  {
    if value == [] {
    } else if value[0] != '\\' {
      assert value == value[..1] + value[1..];
      EvenTail(value[..1], value[1..], quote);
      QuotableIsEven(value[1..], quote);
    } else if |value| >= 2 && value[1] != quote {
      var head := value[..2];
      assert value == head + value[2..];
      assert BackslashesBefore(head, 1) == 1;
      assert BackslashesBefore(head, 2) == if head[1] == '\\' then 2 else 0;
      EvenTail(value[..2], value[2..], quote);
      QuotableIsEven(value[2..], quote);
    } else {
      assert BackslashesBefore(value, 1) == 1;
    }
  }

  /** So no quotable value stays quotable with one more backslash at its end. */
  lemma BackslashIsLost(value: string, quote: char, rest: string)
    requires quote != '\\' && Quotable(value, quote)
    ensures
      var longer := value + ['\\'];
      var r := Delimited(quote, InQuotes(longer, quote) + rest);
      !(r.Matched? && r.rest == rest && r.value.Value() == longer)
  {
    hide Quotable, Delimited, InQuotes;
    var longer := value + ['\\'];
    QuotableIsEven(value, quote);
    QuotableIsEven(longer, quote);
    BackslashesOfHead(value, ['\\'], |value|);
    assert BackslashesBefore(longer, |longer|) == 1 + BackslashesBefore(longer, |value|);
    assert BackslashesBefore(value, |value|) % 2 == 0;
    assert BackslashesBefore(longer, |longer|) % 2 == 1;
    QuotingRoundTrip(longer, quote, rest);
  }
}

/**
 Does a document need flattening?  A scanner of bytes that never parses, and the check on the
 parsed value that it must agree with.
*/
module JsonDepth {
  import opened Bytes
  import opened Json

  predicate ShouldFlattenFromValue(v: Value) {
    match v
    case Object(_) => true
    case Array(items) => exists item <- items :: item.Array? || item.Object?
    case _ => false
  }

  /** The loop state of the scanner. */
  datatype Scanner = Found | Looking(skipNext: bool, inString: bool)

  function Feed(s: Scanner, b: byte): Scanner {
    if s.Found? then Found
    else if s.skipNext then s.(skipNext := false)
    else if b == BACKSLASH then s.(skipNext := true)
    else if s.inString then (if b == QUOTE then s.(inString := false) else s)
    else if b == QUOTE then s.(inString := true)
    else if b == OPEN_BRACKET || b == OPEN_BRACE then Found
    else s
  }

  function FeedAll(s: Scanner, bytes: seq<byte>): Scanner
    decreases |bytes|
  {
    if bytes == [] then s else FeedAll(Feed(s, bytes[0]), bytes[1..])
  }

  const START := Looking(false, false)

  /** What the scanner answers on any bytes. */
  predicate Scans(json: seq<byte>) {
    json != [] && (json[0] == OPEN_BRACE || (json[0] == OPEN_BRACKET && FeedAll(START, json[1..]).Found?))
  }

  lemma {:induction false} FoundStays(bytes: seq<byte>)
    ensures FeedAll(Found, bytes) == Found
  {
    if bytes != [] {
      FoundStays(bytes[1..]);
    }
  }

  lemma {:induction false} FeedAppend(s: Scanner, a: seq<byte>, b: seq<byte>)
    ensures FeedAll(s, a + b) == FeedAll(FeedAll(s, a), b)
    decreases |a|
  {
    if a == [] {
      assert a + b == b;
    } else {
      assert (a + b)[1..] == a[1..] + b;
      FeedAppend(Feed(s, a[0]), a[1..], b);
    }
  }

  method ShouldFlattenFromUncheckedSlice(json: seq<byte>) returns (r: bool)
    ensures r <==> Scans(json)
  {
    if json == [] {
      return false;
    }
    if json[0] == OPEN_BRACE {
      return true;
    } else if json[0] != OPEN_BRACKET {
      return false;
    }
    var skipNext, inString := false, false;
    for i := 1 to |json|
      invariant FeedAll(START, json[1..]) == FeedAll(Looking(skipNext, inString), json[i..])
    {
      var b := json[i];
      assert json[i..][1..] == json[i + 1..];
      if skipNext {
        skipNext := false;
      } else if b == BACKSLASH {
        skipNext := true;
      } else if inString {
        if b == QUOTE {
          inString := false;
        }
      } else if b == QUOTE {
        inString := true;
      } else if b == OPEN_BRACKET || b == OPEN_BRACE {
        FoundStays(json[i + 1..]);
        return true;
      }
    }
    return false;
  }

  const IN_STRING := Looking(false, true)

  lemma FeedTwo(s: Scanner, a: byte, b: byte)
    ensures FeedAll(s, [a, b]) == Feed(Feed(s, a), b)
  {
    assert [a, b][1..] == [b];
    FeedOne(Feed(s, a), b);
  }

  /** An escaped byte leaves the scanner inside the string, whatever the byte is. */
  lemma EscapeStaysInside(b: byte)
    ensures FeedAll(IN_STRING, Escape(b)) == IN_STRING
  {
    if |Escape(b)| == 2 {
      FeedTwo(IN_STRING, Escape(b)[0], Escape(b)[1]);
    } else if |Escape(b)| == 1 {
      assert [b][1..] == [];
    } else {
      var h, l := HexDigit(b / 16), HexDigit(b % 16);
      FeedAppend(IN_STRING, [BACKSLASH, 0x75], [0x30, 0x30] + [h, l]);
      FeedTwo(IN_STRING, BACKSLASH, 0x75);
      FeedAppend(IN_STRING, [0x30, 0x30], [h, l]);
      FeedTwo(IN_STRING, 0x30, 0x30);
      FeedTwo(IN_STRING, h, l);
      assert Escape(b) == [BACKSLASH, 0x75] + ([0x30, 0x30] + [h, l]);
    }
  }

  lemma {:induction false} CharsStayInside(chars: seq<byte>)
    ensures FeedAll(IN_STRING, EscapeAll(chars)) == IN_STRING
  {
    if chars != [] {
      EscapeStaysInside(chars[0]);
      CharsStayInside(chars[1..]);
      FeedAppend(IN_STRING, Escape(chars[0]), EscapeAll(chars[1..]));
    }
  }

  lemma FeedOne(s: Scanner, b: byte)
    ensures FeedAll(s, [b]) == Feed(s, b)
  {
    assert [b][1..] == [];
  }

  /** A string is passed over, brackets and escaped quotes in it included. */
  lemma StringPassed(chars: seq<byte>)
    ensures FeedAll(START, Quoted(chars)) == START
  {
    CharsStayInside(chars);
    FeedOne(START, QUOTE);
    FeedOne(IN_STRING, QUOTE);
    FeedAppend(START, [QUOTE], EscapeAll(chars));
    FeedAppend(START, [QUOTE] + EscapeAll(chars), [QUOTE]);
  }

  /** Bytes without a special meaning change nothing. */
  lemma {:induction false} PlainPassed(text: seq<byte>)
    requires forall b <- text :: b != QUOTE && b != BACKSLASH && b != OPEN_BRACKET && b != OPEN_BRACE
    ensures FeedAll(START, text) == START
  {
    if text != [] {
      assert text[0] in text && forall b <- text[1..] :: b in text;
      PlainPassed(text[1..]);
    }
  }

  predicate IsNested(v: Value) {
    v.Array? || v.Object?
  }

  /** Reading one value, the scanner stops exactly when the value is an array or an object. */
  lemma ValueScanned(v: Value)
    ensures FeedAll(START, Serialize(v)) == if IsNested(v) then Found else START
  {
    match v {
      case Null => PlainPassed(NULL_TEXT);
      case Bool(b) => PlainPassed(TRUE_TEXT);
        PlainPassed(FALSE_TEXT);
      case Number(text) =>
        assert forall b <- text :: IsNumberByte(b);
        PlainPassed(text);
      case String(chars) => StringPassed(chars);
      case Array(items) => FoundStays(Serialize(v)[1..]);
      case Object(members) => FoundStays(Serialize(v)[1..]);
    }
  }

  lemma {:induction false} ItemsScanned(items: seq<Value>)
    ensures FeedAll(START, SerializeItems(items))
         == if exists item <- items :: IsNested(item) then Found else START
  {
    if items != [] {
      var first, rest := items[0], items[1..];
      assert items == [first] + rest;
      ValueScanned(first);
      if rest != [] {
        ItemsScanned(rest);
        FeedOne(START, COMMA);
        FeedAppend(START, Serialize(first), [COMMA]);
        FeedAppend(START, Serialize(first) + [COMMA], SerializeItems(rest));
        FoundStays([COMMA]);
        FoundStays(SerializeItems(rest));
      }
    }
  }

  /** For every JSON value, the scanner on its serialization agrees with the check on the value. */
  lemma ScannerAgrees(v: Value)
    ensures Scans(Serialize(v)) <==> ShouldFlattenFromValue(v)
  {
    hide FeedAll;
    match v {
      case Array(items) =>
        ItemsScanned(items);
        var s := FeedAll(START, SerializeItems(items));
        assert Serialize(v)[1..] == SerializeItems(items) + [CLOSE_BRACKET];
        FeedAppend(START, SerializeItems(items), [CLOSE_BRACKET]);
        FeedOne(s, CLOSE_BRACKET);
      case Number(text) => assert text[0] in text && IsNumberByte(text[0]);
      case Null =>
      case Bool(_) =>
      case String(_) =>
      case Object(_) =>
    }
  }
}

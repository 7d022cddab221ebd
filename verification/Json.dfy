/**
 JSON values and their compact serialization.

 Text is bytes.  Strings are escaped as section 7 of RFC 8259 asks: quotation marks, reverse
 solidi and control characters, the others as they are.
*/
module Json {

  import opened Bytes

  const QUOTE: byte := 0x22
  const BACKSLASH: byte := 0x5C
  const OPEN_BRACKET: byte := 0x5B
  const CLOSE_BRACKET: byte := 0x5D
  const OPEN_BRACE: byte := 0x7B
  const CLOSE_BRACE: byte := 0x7D
  const COMMA: byte := 0x2C
  const COLON: byte := 0x3A

  /** The bytes of a number: digits, signs, the decimal point and the exponent marks. */
  predicate IsNumberByte(b: byte) {
    0x30 <= b <= 0x39 || b == 0x2B || b == 0x2D || b == 0x2E || b == 0x45 || b == 0x65
  }

  predicate IsNumber(text: seq<byte>) {
    text != [] && forall b <- text :: IsNumberByte(b)
  }

  type NumberText = text: seq<byte> | IsNumber(text) witness [0x30]

  datatype Value =
    | Null
    | Bool(bool)
    | Number(text: NumberText)
    | String(chars: seq<byte>)
    | Array(items: seq<Value>)
    | Object(members: seq<Member>)

  datatype Member = Member(name: seq<byte>, value: Value)

  function HexDigit(n: byte): byte
    requires n < 16
  {
    if n < 10 then 0x30 + n else 0x61 + (n - 10)
  }

  /** The escape sequence of a byte, if it needs one. */
  function Escape(b: byte): seq<byte> {
    if b == QUOTE then [BACKSLASH, QUOTE]
    else if b == BACKSLASH then [BACKSLASH, BACKSLASH]
    else if b == 0x08 then [BACKSLASH, 0x62]
    else if b == 0x09 then [BACKSLASH, 0x74]
    else if b == 0x0A then [BACKSLASH, 0x6E]
    else if b == 0x0C then [BACKSLASH, 0x66]
    else if b == 0x0D then [BACKSLASH, 0x72]
    else if b < 0x20 then [BACKSLASH, 0x75, 0x30, 0x30, HexDigit(b / 16), HexDigit(b % 16)]
    else [b]
  }

  function EscapeAll(chars: seq<byte>): seq<byte> {
    if chars == [] then [] else Escape(chars[0]) + EscapeAll(chars[1..])
  }

  function Quoted(chars: seq<byte>): seq<byte> {
    [QUOTE] + EscapeAll(chars) + [QUOTE]
  }

  const NULL_TEXT: seq<byte> := [0x6E, 0x75, 0x6C, 0x6C]
  const TRUE_TEXT: seq<byte> := [0x74, 0x72, 0x75, 0x65]
  const FALSE_TEXT: seq<byte> := [0x66, 0x61, 0x6C, 0x73, 0x65]

  function Serialize(v: Value): seq<byte> {
    match v
    case Null => NULL_TEXT
    case Bool(b) => if b then TRUE_TEXT else FALSE_TEXT
    case Number(text) => text
    case String(chars) => Quoted(chars)
    case Array(items) => [OPEN_BRACKET] + SerializeItems(items) + [CLOSE_BRACKET]
    case Object(members) => [OPEN_BRACE] + SerializeMembers(members) + [CLOSE_BRACE]
  }

  function SerializeItems(items: seq<Value>): seq<byte> {
    if items == [] then []
    else if |items| == 1 then Serialize(items[0])
    else Serialize(items[0]) + [COMMA] + SerializeItems(items[1..])
  }

  function SerializeMembers(members: seq<Member>): seq<byte> {
    if members == [] then []
    else
      var member := Quoted(members[0].name) + [COLON] + Serialize(members[0].value);
      if |members| == 1 then member else member + [COMMA] + SerializeMembers(members[1..])
  }
}

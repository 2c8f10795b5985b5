/**
 The JSON reader and writer of the example editor (examples/01_JSONEditor/json_editor.c:1527-1553,
 1693-1841, 2133-2371), as functions on the rest of the input. A NUL ends the input, as in C.
 */
module Json {
  import opened Wrappers

  type Byte = b: nat | b < 256 witness 0

  type Bytes = seq<Byte>

  const QUOTE: Byte := 34
  const BACKSLASH: Byte := 92
  const NEWLINE: Byte := 10
  const SPACE: Byte := 32

  /**
   `Int` is a number whose decimal value is a 32-bit integer, in whatever notation; such a value is a double
   and printed with `%d`. `Float` keeps the text of any other number, whose conversion is the C library's.
   */
  datatype Value =
    | Null
    | Bool(b: bool)
    | Int(n: int)
    | Float(text: Bytes)
    | String(bytes: Bytes)
    | Array(items: seq<Value>)
    | Object(entries: seq<Entry>)

  datatype Entry = Entry(key: Bytes, value: Value)

  // ---------------------------------------------------------------- the printer

  /** `printf("%d")` of a natural number. */
  function Digits(n: nat): (d: Bytes)
    ensures d != []
  {
    if n < 10 then [48 + n] else Digits(n / 10) + [48 + n % 10]
  }

  function Decimal(n: int): Bytes {
    if n < 0 then [45] + Digits(-n) else Digits(n)
  }

  function HexDigit(n: nat): Byte
    requires n < 16
  {
    if n < 10 then 48 + n else 87 + n
  }

  function EscapeByte(b: Byte): Bytes {
    match b
    case 34 => [92, 34]
    case 92 => [92, 92]
    case 8 => [92, 98]
    case 12 => [92, 102]
    case 10 => [92, 110]
    case 13 => [92, 114]
    case 9 => [92, 116]
    case _ => if b < 32 then [92, 117, 48, 48, HexDigit(b / 16), HexDigit(b % 16)] else [b]
  }

  /** The loop over a C string stops at its NUL. */
  function Escape(bytes: Bytes): Bytes {
    if bytes == [] || bytes[0] == 0 then [] else EscapeByte(bytes[0]) + Escape(bytes[1..])
  }

  /** `%s` of a C string: nothing is escaped. */
  function CString(bytes: Bytes): Bytes {
    if bytes == [] || bytes[0] == 0 then [] else [bytes[0]] + CString(bytes[1..])
  }

  function Indent(n: nat): Bytes {
    if n == 0 then [] else [32, 32, 32, 32] + Indent(n - 1)
  }

  function Print(v: Value, indent: nat): Bytes
    decreases v
  {
    match v
    case Null => [110, 117, 108, 108]
    case Bool(true) => [116, 114, 117, 101]
    case Bool(false) => [102, 97, 108, 115, 101]
    case Int(n) => Decimal(n)
    case Float(text) => text
    case String(bytes) => [QUOTE] + Escape(bytes) + [QUOTE]
    case Array(items) =>
      if items == [] then [91, 93]
      else [91, NEWLINE] + PrintItems(items, indent) + Indent(indent) + [93]
    case Object(entries) =>
      if entries == [] then [123, 125]
      else [123, NEWLINE] + PrintEntries(entries, indent) + Indent(indent) + [125]
  }

  function Separator(last: bool): Bytes {
    if last then [NEWLINE] else [44, NEWLINE]
  }

  function PrintItems(items: seq<Value>, indent: nat): Bytes
    decreases items
  {
    if items == [] then []
    else
      Indent(indent + 1) + Print(items[0], indent + 1) + Separator(|items| == 1) + PrintItems(items[1..], indent)
  }

  function PrintEntries(entries: seq<Entry>, indent: nat): Bytes
    decreases entries
  {
    if entries == [] then []
    else
      Indent(indent + 1) + [QUOTE] + CString(entries[0].key) + [QUOTE, 58, SPACE]
      + Print(entries[0].value, indent + 1) + Separator(|entries| == 1) + PrintEntries(entries[1..], indent)
  }

  // ---------------------------------------------------------------- the parser

  datatype Error =
    | EmptyInput | FailedToParse | TrailingCharacters
    | ExpectedNull | ExpectedTrue | ExpectedFalse | ExpectedNumber | NumberTooLong
    | InvalidString | ExpectedArrayEnd | ExpectedStringKey | ExpectedColon | ExpectedObjectEnd
    | UnexpectedCharacter
    | Overrun                 // the cursor passed the NUL: the program reads memory that is not the input

  /** A result and the rest of the input. `None` is a NULL value: the input ended. */
  datatype Parsed<T> = Ok(v: T, rest: Bytes) | Err(error: Error)

  /** What the cursor sees: the byte under it, NUL at the end. */
  function Head(t: Bytes): Byte {
    if t == [] then 0 else t[0]
  }

  function SkipWs(t: Bytes): (r: Bytes)
    ensures |r| <= |t|
    ensures Head(r) == 0 || Head(r) > 32
  {
    if t != [] && 0 < t[0] <= 32 then SkipWs(t[1..]) else t
  }

  function HexValue(c: Byte): int {
    if 48 <= c <= 57 then c - 48
    else if 97 <= c <= 102 then c - 97 + 10
    else if 65 <= c <= 70 then c - 65 + 10
    else -1
  }

  datatype Hex = Code(cp: nat, rest: Bytes) | NotHex(rest: Bytes) | NotHexAtEnd

  /** `parse_hex4`: also the byte that is no digit is consumed, even if it is the NUL. */
  function ParseHex4(t: Bytes, count: nat, acc: nat): (h: Hex)
    ensures h.Code? || h.NotHex? ==> |h.rest| <= |t|
  {
    if count == 0 then Code(acc, t)
    else if t == [] then NotHexAtEnd
    else if HexValue(t[0]) < 0 then NotHex(t[1..])
    else ParseHex4(t[1..], count - 1, acc * 16 + HexValue(t[0]))
  }

  /** The bytes for a code point, as in section 3 of RFC 3629 up to three bytes. Stored in a `char`. */
  function Utf8(cp: nat): Bytes {
    if cp <= 127 then [cp]
    else if cp <= 2047 then [192 + (cp / 64) % 64, 128 + cp % 64]
    else [(224 + cp / 4096) % 256, 128 + (cp / 64) % 64, 128 + cp % 64]
  }

  datatype Raw = Text(buf: Bytes, rest: Bytes) | Bad(rest: Bytes) | BadAtEnd | PastEnd

  function Unescaped(c: Byte): Byte {
    match c
    case 98 => 8
    case 102 => 12
    case 110 => 10
    case 114 => 13
    case 116 => 9
    case _ => c
  }

  /** `parse_raw_string` behind its opening quote. Input that ends before the closing quote is accepted. */
  function RawString(t: Bytes, buf: Bytes): (r: Raw)
    ensures r.Text? || r.Bad? ==> |r.rest| <= |t|
    decreases |t|
  {
    if Head(t) == 0 then Text(buf, t)
    else if t[0] == QUOTE then Text(buf, t[1..])
    else if t[0] != BACKSLASH then RawString(t[1..], buf + [t[0]])
    else if |t| == 1 then PastEnd
    else if t[1] != 117 then RawString(t[2..], buf + [Unescaped(t[1])])
    else
      match ParseHex4(t[2..], 4, 0)
      case NotHexAtEnd => BadAtEnd
      case NotHex(rest) => Bad(rest)
      case Code(cp, rest) => RawString(rest, buf + Utf8(cp))
  }

  predicate IsDigit(c: Byte) { 48 <= c <= 57 }

  /** The longest run of digits. */
  function DigitRun(t: Bytes): (n: nat)
    ensures n <= |t|
  {
    if t != [] && IsDigit(t[0]) then 1 + DigitRun(t[1..]) else 0
  }

  /** Where the sign and the integer digits end. */
  function IntegerEnd(t: Bytes): (n: nat)
    ensures n <= |t| && (Head(t) == 45 ==> n >= 1)
  {
    var sign := if Head(t) == 45 then 1 else 0;
    sign + DigitRun(t[sign..])
  }

  function FractionEnd(t: Bytes): (n: nat)
    ensures IntegerEnd(t) <= n <= |t|
  {
    var n := IntegerEnd(t);
    if Head(t[n..]) == 46 then n + 1 + DigitRun(t[n + 1..]) else n
  }

  /** How far `json_parse_number` moves the cursor. */
  function NumberLength(t: Bytes): (n: nat)
    ensures n <= |t|
  {
    var n := FractionEnd(t);
    if Head(t[n..]) == 101 || Head(t[n..]) == 69 then
      var d := if Head(t[n + 1..]) == 43 || Head(t[n + 1..]) == 45 then n + 2 else n + 1;
      d + DigitRun(t[d..])
    else n
  }

  function ValueOfDigits(d: Bytes): (n: int) {
    if d == [] then 0 else ValueOfDigits(d[..|d| - 1]) * 10 + (d[|d| - 1] as int - 48)
  }

  function PowerOfTen(k: nat): (r: nat)
    ensures r > 0
  {
    if k == 0 then 1 else 10 * PowerOfTen(k - 1)
  }

  /** `n` times ten to the `scale`, if that is an integer. */
  function Scaled(n: int, scale: int): Option<int> {
    if scale >= 0 then Some(n * PowerOfTen(scale))
    else if n % PowerOfTen(-scale) == 0 then Some(n / PowerOfTen(-scale))
    else None
  }

  /** The exponent that an `e` and what follows it stand for; without digits it counts for nothing. */
  function ExponentOf(e: Bytes): int {
    if |e| < 2 then 0
    else if e[1] == 45 then -ValueOfDigits(e[2..])
    else if e[1] == 43 then ValueOfDigits(e[2..])
    else ValueOfDigits(e[1..])
  }

  /** An integer of 32 bits, or a number left to `strtod`. */
  function NumberOf(text: Bytes): Value {
    var sign := if Head(text) == 45 then 1 else 0;
    var i, f := IntegerEnd(text), FractionEnd(text);
    var fraction := if f > i then text[i + 1..f] else [];
    var m := Scaled(ValueOfDigits(text[sign..i] + fraction), ExponentOf(text[f..]) - |fraction|);
    if m.None? then Float(text)
    else
      var n := if sign == 1 then -m.value else m.value;
      if -0x8000_0000 <= n < 0x8000_0000 then Int(n) else Float(text)
  }

  function ParseLiteral(t: Bytes, word: Bytes, v: Value, error: Error): (r: Parsed<Option<Value>>)
    ensures r.Ok? ==> |r.rest| <= |t|
  {
    if word <= t then Ok(Some(v), t[|word|..]) else Err(error)
  }

  function ParseNumber(t: Bytes): (r: Parsed<Option<Value>>)
    ensures r.Ok? ==> |r.rest| < |t|
  {
    var n := NumberLength(t);
    if n == 0 then Err(ExpectedNumber)
    else if n >= 64 then Err(NumberTooLong)
    else Ok(Some(NumberOf(t[..n])), t[n..])
  }

  function ParseString(t: Bytes): (r: Parsed<Option<Value>>)
    requires Head(t) == QUOTE
    ensures r.Ok? ==> |r.rest| < |t|
  {
    match RawString(t[1..], [])
    case Text(buf, rest) => Ok(Some(String(CString(buf))), rest)
    case PastEnd => Err(Overrun)
    case _ => Err(InvalidString)
  }

  /** `set:forKey:`: an existing key gets the new value in place, a new one goes to the end. */
  function SetEntry(entries: seq<Entry>, key: Bytes, value: Value): (r: seq<Entry>) {
    if entries == [] then [Entry(key, value)]
    else if entries[0].key == key then [Entry(key, value)] + entries[1..]
    else [entries[0]] + SetEntry(entries[1..], key, value)
  }

  lemma {:induction false} SetNewKey(entries: seq<Entry>, key: Bytes, value: Value)
    requires forall i :: 0 <= i < |entries| ==> entries[i].key != key
    ensures SetEntry(entries, key, value) == entries + [Entry(key, value)]
    decreases |entries|
  {
    if entries != [] {
      SetNewKey(entries[1..], key, value);
    }
  }

  /** `json_parse_value` */
  function ParseValue(t: Bytes): (r: Parsed<Option<Value>>)
    ensures r.Ok? ==> |r.rest| <= |t|
    decreases |t|, 3
  {
    var t := SkipWs(t);
    var c := Head(t);
    if c == 0 then Ok(None, t)
    else if c == 110 then ParseLiteral(t, [110, 117, 108, 108], Null, ExpectedNull)
    else if c == 116 then ParseLiteral(t, [116, 114, 117, 101], Bool(true), ExpectedTrue)
    else if c == 102 then ParseLiteral(t, [102, 97, 108, 115, 101], Bool(false), ExpectedFalse)
    else if c == QUOTE then ParseString(t)
    else if c == 91 then ParseArray(t)
    else if c == 123 then ParseObject(t)
    else if c == 45 || IsDigit(c) then ParseNumber(t)
    else Err(UnexpectedCharacter)
  }

  function ParseArray(t: Bytes): (r: Parsed<Option<Value>>)
    requires Head(t) == 91
    ensures r.Ok? ==> |r.rest| < |t|
    decreases |t|, 2
  {
    var rest := SkipWs(t[1..]);
    if Head(rest) == 93 then Ok(Some(Array([])), rest[1..]) else ParseItems(rest, [])
  }

  function ParseItems(t: Bytes, items: seq<Value>): (r: Parsed<Option<Value>>)
    ensures r.Ok? ==> |r.rest| <= |t|
    decreases |t|, 4
  {
    match ParseValue(SkipWs(t))
    case Err(e) => Err(e)
    case Ok(v, rest) =>
      var rest := SkipWs(rest);
      var items := if v.Some? then items + [v.value] else items;
      if Head(rest) == 44 then ParseItems(SkipWs(rest[1..]), items)
      else if Head(rest) == 93 then Ok(Some(Array(items)), rest[1..])
      else Err(ExpectedArrayEnd)
  }

  function ParseObject(t: Bytes): (r: Parsed<Option<Value>>)
    requires Head(t) == 123
    ensures r.Ok? ==> |r.rest| < |t|
    decreases |t|, 2
  {
    var rest := SkipWs(t[1..]);
    if Head(rest) == 125 then Ok(Some(Object([])), rest[1..]) else ParseEntries(rest, [])
  }

  function ParseEntries(t: Bytes, entries: seq<Entry>): (r: Parsed<Option<Value>>)
    ensures r.Ok? ==> |r.rest| <= |t|
    decreases |t|, 4
  {
    var t := SkipWs(t);
    if Head(t) != QUOTE then Err(ExpectedStringKey)
    else
      match RawString(t[1..], [])
      case PastEnd => Err(Overrun)
      case BadAtEnd => Err(Overrun)
      case Bad(rest) => ParseMember(rest, None, entries)
      case Text(buf, rest) => ParseMember(rest, Some(CString(buf)), entries)
  }

  /** Behind a key: colon, value, and what follows. A key with a bad escape is dropped with its value. */
  function ParseMember(t: Bytes, key: Option<Bytes>, entries: seq<Entry>): (r: Parsed<Option<Value>>)
    ensures r.Ok? ==> |r.rest| <= |t|
    decreases |t|, 5
  {
    var t := SkipWs(t);
    if Head(t) != 58 then Err(ExpectedColon)
    else
      match ParseValue(SkipWs(t[1..]))
      case Err(e) => Err(e)
      case Ok(v, rest) =>
        var rest := SkipWs(rest);
        var entries := if key.Some? && v.Some? then SetEntry(entries, key.value, v.value) else entries;
        if Head(rest) == 44 then ParseEntries(SkipWs(rest[1..]), entries)
        else if Head(rest) == 125 then Ok(Some(Object(entries)), rest[1..])
        else Err(ExpectedObjectEnd)
  }

  /** `parse:` */
  function Parse(input: Bytes): Result<Value, Error> {
    if Head(input) == 0 then Failure(EmptyInput)
    else
      match ParseValue(input)
      case Err(e) => Failure(e)
      case Ok(None, _) => Failure(FailedToParse)
      case Ok(Some(v), rest) => if Head(SkipWs(rest)) != 0 then Failure(TrailingCharacters) else Success(v)
  }
}

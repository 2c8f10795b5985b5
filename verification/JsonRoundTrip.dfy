/** Reading back what the JSON printer wrote. */
module JsonRoundTrip {
  import opened Wrappers
  import opened Json

  // ---------------------------------------------------------------- white space

  lemma {:induction false} SkipIndent(n: nat, t: Bytes)
    ensures SkipWs(Indent(n) + t) == SkipWs(t)
    decreases n
  {
    if n == 0 {
      assert Indent(0) + t == t;
    } else {
      var rest := Indent(n - 1) + t;
      assert Indent(n) + t == [32, 32, 32, 32] + rest;
      SkipSpaces(rest);
      SkipIndent(n - 1, t);
    }
  }

  lemma {:induction false} SkipSpace(b: Byte, t: Bytes)
    requires 0 < b <= 32
    ensures SkipWs([b] + t) == SkipWs(t)
  {
    assert ([b] + t)[1..] == t;
  }

  lemma {:induction false} SkipSpaces(t: Bytes)
    ensures SkipWs([32, 32, 32, 32] + t) == SkipWs(t)
  {
    assert [32, 32, 32, 32] + t == [32] + ([32] + ([32] + ([32] + t)));
    SkipSpace(32, [32] + ([32] + ([32] + t)));
    SkipSpace(32, [32] + ([32] + t));
    SkipSpace(32, [32] + t);
    SkipSpace(32, t);
  }

  lemma {:induction false} SkipNothing(t: Bytes)
    requires Head(t) == 0 || Head(t) > 32
    ensures SkipWs(t) == t
  {
  }

  // ---------------------------------------------------------------- strings

  ghost predicate NulFree(bytes: Bytes) {
    forall i :: 0 <= i < |bytes| ==> bytes[i] != 0
  }

  lemma {:induction false} CStringWhole(bytes: Bytes)
    requires NulFree(bytes)
    ensures CString(bytes) == bytes
    decreases |bytes|
  {
    if bytes != [] {
      CStringWhole(bytes[1..]);
    }
  }

  /** One escaped byte is read as that byte. */
  lemma {:induction false} RawByte(b: Byte, t: Bytes, buf: Bytes)
    requires b != 0
    ensures RawString(EscapeByte(b) + t, buf) == RawString(t, buf + [b])
  {
    var e := EscapeByte(b);
    var s := e + t;
    assert s[|e|..] == t;
    if |e| == 6 {
      assert s[2..] == [48, 48, HexDigit(b / 16), HexDigit(b % 16)] + t;
      ReadHex(b, t);
    } else if |e| == 2 {
      assert s[1] == e[1];
    }
  }

  lemma {:induction false} ReadHex(b: Byte, t: Bytes)
    requires b < 32
    ensures ParseHex4([48, 48, HexDigit(b / 16), HexDigit(b % 16)] + t, 4, 0) == Code(b, t)
  {
    var h, l := HexDigit(b / 16), HexDigit(b % 16);
    var s := [48, 48, h, l] + t;
    assert HexValue(h) == b / 16 && HexValue(l) == b % 16;
    assert s[1..] == [48, h, l] + t && s[1..][1..] == [h, l] + t && s[1..][1..][1..] == [l] + t
        && s[1..][1..][1..][1..] == t;
    assert ParseHex4(s, 4, 0) == ParseHex4(s[1..], 3, 0) == ParseHex4(s[1..][1..], 2, 0)
        == ParseHex4(s[1..][1..][1..], 1, b / 16) == ParseHex4(t, 0, b / 16 * 16 + b % 16);
  }

  lemma {:induction false} RawEnds(t: Bytes, buf: Bytes)
    ensures RawString([QUOTE] + t, buf) == Text(buf, t)
  {
    assert ([QUOTE] + t)[1..] == t;
  }

  /** String escapes as in section 7 of RFC 8259: whatever is escaped is read back. */
  lemma {:induction false} EscapedStringReadBack(bytes: Bytes, t: Bytes, buf: Bytes)
    requires NulFree(bytes)
    ensures RawString(Escape(bytes) + [QUOTE] + t, buf) == Text(buf + bytes, t)
    decreases |bytes|
  {
    hide EscapeByte, RawString;
    if bytes == [] {
      assert Escape(bytes) + [QUOTE] + t == [QUOTE] + t;
      RawEnds(t, buf);
      assert buf + bytes == buf;
    } else {
      var rest := Escape(bytes[1..]) + [QUOTE] + t;
      assert Escape(bytes) + [QUOTE] + t == EscapeByte(bytes[0]) + rest;
      RawByte(bytes[0], rest, buf);
      EscapedStringReadBack(bytes[1..], t, buf + [bytes[0]]);
      assert buf + [bytes[0]] + bytes[1..] == buf + bytes;
    }
  }

  // ---------------------------------------------------------------- keys

  predicate Plain(key: Bytes) {
    forall i :: 0 <= i < |key| ==> key[i] != QUOTE && key[i] != BACKSLASH
  }

  lemma {:induction false} PlainReadBack(key: Bytes, t: Bytes, buf: Bytes)
    requires NulFree(key) && Plain(key)
    ensures RawString(key + [QUOTE] + t, buf) == Text(buf + key, t)
    decreases |key|
  {
    var s := key + [QUOTE] + t;
    if key == [] {
      assert s == [QUOTE] + t && s[1..] == t && buf + key == buf;
    } else {
      assert s[1..] == key[1..] + [QUOTE] + t;
      PlainReadBack(key[1..], t, buf + [key[0]]);
      assert buf + [key[0]] + key[1..] == buf + key;
    }
  }

  /** Reading never yields more bytes than it consumed, and as many only from plain text. */
  lemma {:induction false} RawConsumes(t: Bytes, buf: Bytes)
    ensures var r := RawString(t, buf);
            r.Text? && r.rest != [] && Head(r.rest) != 0 ==>
              && |r.buf| - |buf| <= |t| - |r.rest| - 1
              && (|r.buf| - |buf| == |t| - |r.rest| - 1 ==> Plain(t[..|t| - |r.rest| - 1]))
    decreases |t|
  {
    var r := RawString(t, buf);
    if r.Text? && r.rest != [] && Head(r.rest) != 0 && t[0] != QUOTE {
      if t[0] != BACKSLASH {
        RawConsumes(t[1..], buf + [t[0]]);
        var n := |t| - |r.rest| - 1;
        assert |r.buf| - |buf| == n ==> t[..n] == [t[0]] + t[1..][..n - 1];
      } else if t[1] != 117 {
        RawConsumes(t[2..], buf + [Unescaped(t[1])]);
      } else {
        var h := ParseHex4(t[2..], 4, 0);
        HexConsumes(t[2..], 4, 0);
        RawConsumes(h.rest, buf + Utf8(h.cp));
      }
    }
  }

  lemma {:induction false} HexConsumes(t: Bytes, count: nat, acc: nat)
    ensures ParseHex4(t, count, acc).Code? ==> |ParseHex4(t, count, acc).rest| + count == |t|
    decreases count
  {
    if count > 0 && t != [] && HexValue(t[0]) >= 0 {
      HexConsumes(t[1..], count - 1, acc * 16 + HexValue(t[0]));
    }
  }

  /** Keys are printed raw, so a key comes back exactly if it contains neither a quote nor a backslash. */
  lemma {:induction false} KeyReadBackIff(key: Bytes, t: Bytes)
    requires NulFree(key) && Head(t) != 0
    ensures RawString(key + [QUOTE] + t, []) == Text(key, t) <==> Plain(key)
  {
    var s := key + [QUOTE] + t;
    if Plain(key) {
      PlainReadBack(key, t, []);
    }
    if RawString(s, []) == Text(key, t) {
      RawConsumes(s, []);
      assert s[..|key|] == key;
    }
  }

  // ---------------------------------------------------------------- numbers

  ghost predicate AllDigits(d: Bytes) {
    forall i :: 0 <= i < |d| ==> IsDigit(d[i])
  }

  /** What may follow a number without being read as part of it. */
  predicate EndsNumber(t: Bytes) {
    var c := Head(t);
    !IsDigit(c) && c != 46 && c != 101 && c != 69
  }

  lemma {:induction false} DigitsFacts(n: nat)
    ensures AllDigits(Digits(n)) && ValueOfDigits(Digits(n)) == n
    decreases n
  {
    if n < 10 {
      assert [48 + n][..0] == [];
      assert ValueOfDigits([48 + n]) == ValueOfDigits([]) * 10 + n;
    } else {
      DigitsFacts(n / 10);
      var d := Digits(n / 10) + [48 + n % 10];
      assert d[..|d| - 1] == Digits(n / 10);
    }
  }

  lemma {:induction false} DigitsLength(n: nat, k: nat, bound: nat)
    requires k > 0 && n < bound && bound == PowerOfTen(k)
    ensures |Digits(n)| <= k
    decreases k
  {
    if n >= 10 {
      assert k > 1;
      DigitsLength(n / 10, k - 1, PowerOfTen(k - 1));
    }
  }

  lemma {:induction false} DigitRunWhole(d: Bytes, t: Bytes)
    requires AllDigits(d) && !IsDigit(Head(t))
    ensures DigitRun(d + t) == |d|
    decreases |d|
  {
    if d == [] {
      assert d + t == t;
    } else {
      assert (d + t)[1..] == d[1..] + t;
      DigitRunWhole(d[1..], t);
    }
  }

  /** The cursor passes exactly the digits, after an optional sign. */
  lemma {:induction false} NumberSpan(minus: bool, d: Bytes, t: Bytes)
    requires d != [] && AllDigits(d) && EndsNumber(t)
    ensures var sign := if minus then [45] else []; NumberLength(sign + d + t) == |sign| + |d|
  {
    var sign := if minus then [45] else [];
    var s := sign + d + t;
    assert IsDigit(d[0]);
    assert s[|sign|..] == d + t;
    assert !minus ==> s[0] == d[0];
    DigitRunWhole(d, t);
    assert s[|sign| + |d|..] == t;
  }

  lemma {:induction false} ClassifyInteger(minus: bool, d: Bytes)
    requires d != [] && AllDigits(d)
    ensures var text := (if minus then [45] else []) + d;
            var n := if minus then -ValueOfDigits(d) else ValueOfDigits(d);
            -0x8000_0000 <= n < 0x8000_0000 ==> NumberOf(text) == Int(n)
  {
    hide DigitRun, ValueOfDigits, IntegerEnd, FractionEnd, Scaled, PowerOfTen;
    var sign := if minus then [45] else [];
    var text := sign + d;
    MantissaEnds(minus, d, []);
    ScaledUp(ValueOfDigits(d), 0);
    OneIsNothing();
    assert sign + d + [] == text;
    assert text[|sign|..|text|] + [] == d && text[|text|..] == [];
    assert Head(text) == 45 <==> minus by { assert IsDigit(d[0]); }
  }

  lemma {:induction false} OneIsNothing()
    ensures PowerOfTen(0) == 1
  {
  }

  /** The notation of an integer does not matter: with an exponent of `k` zeros it is the same number. */
  lemma {:induction false} ExponentIsInteger(n: nat, k: nat)
    requires 0 < k && n * PowerOfTen(k) < 0x8000_0000
    ensures NumberOf(Digits(n) + [101] + Digits(k)) == Int(n * PowerOfTen(k))
  {
    hide Digits, PowerOfTen, ValueOfDigits, IntegerEnd, FractionEnd, ExponentOf, Scaled;
    var d, x := Digits(n), Digits(k);
    var e := [101] + x;
    var text := d + e;
    assert d + [101] + x == text;
    DigitsFacts(n);
    DigitsFacts(k);
    assert IsDigit(d[0]) && IsDigit(x[0]);
    MantissaEnds(false, d, e);
    assert [] + d + e == text;
    ExponentDigits(x);
    assert text[|d|..] == e && text[0..|d|] + [] == d;
    assert Scaled(n, k) == Some(n * PowerOfTen(k)) by { ScaledUp(n, k); }
  }

  lemma {:induction false} MantissaEnds(minus: bool, d: Bytes, e: Bytes)
    requires d != [] && AllDigits(d) && !IsDigit(Head(e)) && Head(e) != 46
    ensures var sign := if minus then [45] else [];
            IntegerEnd(sign + d + e) == |sign| + |d| == FractionEnd(sign + d + e)
  {
    hide DigitRun;
    var sign := if minus then [45] else [];
    var text := sign + d + e;
    assert IsDigit(d[0]) && text[|sign|] == d[0];
    DigitRunWhole(d, e);
    assert text[|sign|..] == d + e && text[|sign| + |d|..] == e;
  }

  lemma {:induction false} ExponentDigits(x: Bytes)
    requires x != [] && IsDigit(x[0])
    ensures ExponentOf([101] + x) == ValueOfDigits(x)
  {
    assert ([101] + x)[1..] == x;
  }

  lemma {:induction false} ScaledUp(n: int, k: nat)
    ensures Scaled(n, k) == Some(n * PowerOfTen(k))
  {
  }

  lemma {:induction false} TenDigits(n: nat)
    requires n <= 0x8000_0000
    ensures |Digits(n)| <= 10
  {
    assert PowerOfTen(2) == 100;
    assert PowerOfTen(4) == 10_000;
    assert PowerOfTen(6) == 1_000_000;
    assert PowerOfTen(8) == 100_000_000;
    assert PowerOfTen(10) == 10_000_000_000;
    DigitsLength(n, 10, 10_000_000_000);
  }

  lemma {:induction false} NumberReadBack(n: int, t: Bytes)
    requires -0x8000_0000 <= n < 0x8000_0000 && EndsNumber(t)
    ensures ParseNumber(Decimal(n) + t) == Ok(Some(Int(n)), t)
    ensures IsDigit(Head(Decimal(n) + t)) || Head(Decimal(n) + t) == 45
  {
    hide Digits, NumberLength, NumberOf, DigitRun, ValueOfDigits;
    var m := if n < 0 then -n else n;
    var d, sign, s := Digits(m), if n < 0 then [45] else [], Decimal(n) + t;
    DigitsFacts(m);
    TenDigits(m);
    assert Decimal(n) == sign + d;
    NumberSpan(n < 0, d, t);
    ClassifyInteger(n < 0, d);
    assert s[..|sign + d|] == sign + d && s[|sign + d|..] == t;
    assert IsDigit(d[0]);
  }

  // ---------------------------------------------------------------- values

  ghost predicate DistinctKeys(entries: seq<Entry>) {
    forall i, j :: 0 <= i < j < |entries| ==> entries[i].key != entries[j].key
  }

  /** The values of the round trip: 32-bit numbers, C strings, and objects as `set:forKey:` builds them. */
  ghost predicate Printable(v: Value)
    decreases v
  {
    match v
    case Null => true
    case Bool(_) => true
    case Int(n) => -0x8000_0000 <= n < 0x8000_0000
    case Float(_) => false
    case String(bytes) => NulFree(bytes)
    case Array(items) => forall i :: 0 <= i < |items| ==> Printable(items[i])
    case Object(entries) =>
      && DistinctKeys(entries)
      && forall i :: 0 <= i < |entries| ==>
           NulFree(entries[i].key) && Plain(entries[i].key) && Printable(entries[i].value)
  }

  lemma {:induction false} PrintHead(v: Value, indent: nat, t: Bytes)
    requires Printable(v)
    ensures var p := Print(v, indent) + t; p != [] && p[0] > 32 && p[0] != 93 && p[0] != 125
  {
    hide Digits, PrintItems, PrintEntries, Escape, Indent, NulFree, DistinctKeys, Plain;
    match v
    case Int(n) => DigitsFacts(if n < 0 then -n else n);
      assert IsDigit(Digits(if n < 0 then -n else n)[0]);
    case _ =>
  }

  lemma {:induction false} SkipWsTwice(t: Bytes)
    ensures SkipWs(SkipWs(t)) == SkipWs(t)
  {
    SkipNothing(SkipWs(t));
  }

  /** Behind an element: the newline is skipped, the comma is seen. */
  lemma {:induction false} SkipSeparator(last: bool, t: Bytes)
    ensures last ==> SkipWs(Separator(last) + t) == SkipWs(t)
    ensures !last ==> SkipWs(Separator(last) + t) == [44, NEWLINE] + t
    ensures EndsNumber(Separator(last) + t)
  {
    if last {
      SkipSpace(NEWLINE, t);
    }
  }

  lemma {:induction false} SkipToClose(indent: nat, close: Byte, t: Bytes)
    requires close > 32
    ensures SkipWs(Indent(indent) + [close] + t) == [close] + t
  {
    assert Indent(indent) + [close] + t == Indent(indent) + ([close] + t);
    SkipIndent(indent, [close] + t);
  }

  // How the printed forms are put together, with what follows them.

  lemma {:induction false} ArrayText(items: seq<Value>, indent: nat, t: Bytes)
    requires items != []
    ensures Print(Array(items), indent) + t
         == [91] + ([NEWLINE] + (PrintItems(items, indent) + (Indent(indent) + [93] + t)))
  {
    hide PrintItems, Indent;
  }

  lemma {:induction false} ItemsText(items: seq<Value>, indent: nat, t: Bytes)
    requires items != []
    ensures PrintItems(items, indent) + t
         == Indent(indent + 1) + (Print(items[0], indent + 1)
            + (Separator(|items| == 1) + (PrintItems(items[1..], indent) + t)))
  {
    hide Print, Indent, Separator;
    var a, b, c, d := Indent(indent + 1), Print(items[0], indent + 1), Separator(|items| == 1),
        PrintItems(items[1..], indent);
    assert a + b + c + d + t == a + (b + (c + (d + t)));
  }

  lemma {:induction false} ObjectText(entries: seq<Entry>, indent: nat, t: Bytes)
    requires entries != []
    ensures Print(Object(entries), indent) + t
         == [123] + ([NEWLINE] + (PrintEntries(entries, indent) + (Indent(indent) + [125] + t)))
  {
    hide PrintEntries, Indent;
  }

  /** The rest of an object behind the key of its first entry. */
  function AfterKey(entries: seq<Entry>, indent: nat, t: Bytes): Bytes
    requires entries != []
  {
    [58] + ([SPACE] + (Print(entries[0].value, indent + 1)
                       + (Separator(|entries| == 1) + (PrintEntries(entries[1..], indent) + t))))
  }

  lemma {:induction false} EntriesText(entries: seq<Entry>, indent: nat, t: Bytes)
    requires entries != [] && NulFree(entries[0].key)
    ensures PrintEntries(entries, indent) + t
         == Indent(indent + 1) + ([QUOTE] + (entries[0].key + [QUOTE] + AfterKey(entries, indent, t)))
  {
    hide Print, Indent, Separator, CString;
    CStringWhole(entries[0].key);
    var a, k, b := Indent(indent + 1), entries[0].key, Print(entries[0].value, indent + 1);
    var c, d := Separator(|entries| == 1), PrintEntries(entries[1..], indent);
    assert PrintEntries(entries, indent) == a + [QUOTE] + k + [QUOTE, 58, SPACE] + b + c + d;
    assert [QUOTE, 58, SPACE] == [QUOTE] + ([58] + [SPACE]);
    assert a + [QUOTE] + k + ([QUOTE] + ([58] + [SPACE])) + b + c + d + t
        == a + ([QUOTE] + (k + [QUOTE] + ([58] + ([SPACE] + (b + (c + (d + t)))))));
  }

  // One round of each loop of the parser.

  lemma {:induction false} ItemsRound(t: Bytes, items: seq<Value>, v: Value, rest: Bytes)
    requires ParseValue(SkipWs(t)) == Ok(Some(v), rest)
    ensures var r := SkipWs(rest);
            ParseItems(t, items)
            == if Head(r) == 44 then ParseItems(SkipWs(r[1..]), items + [v])
               else if Head(r) == 93 then Ok(Some(Array(items + [v])), r[1..])
               else Err(ExpectedArrayEnd)
  {
    hide ParseValue, SkipWs;
  }

  lemma {:induction false} ItemsSkip(t: Bytes, items: seq<Value>)
    ensures ParseItems(SkipWs(t), items) == ParseItems(t, items)
  {
    hide ParseValue, SkipWs;
    SkipWsTwice(t);
  }

  lemma {:induction false} MemberRound(t: Bytes, key: Bytes, entries: seq<Entry>, v: Value, rest: Bytes)
    requires Head(SkipWs(t)) == 58 && ParseValue(SkipWs(SkipWs(t)[1..])) == Ok(Some(v), rest)
    ensures var r := SkipWs(rest);
            ParseMember(t, Some(key), entries)
            == if Head(r) == 44 then ParseEntries(SkipWs(r[1..]), SetEntry(entries, key, v))
               else if Head(r) == 125 then Ok(Some(Object(SetEntry(entries, key, v))), r[1..])
               else Err(ExpectedObjectEnd)
  {
    hide ParseValue, SkipWs, SetEntry, ParseEntries;
  }

  lemma {:induction false} EntriesSkip(t: Bytes, entries: seq<Entry>)
    ensures ParseEntries(SkipWs(t), entries) == ParseEntries(t, entries)
  {
    hide ParseMember, SkipWs, RawString;
    SkipWsTwice(t);
  }

  /** Parsing the printed form of a value gives the value, at any indentation, whatever follows. */
  lemma {:induction false} ReadBack(v: Value, indent: nat, t: Bytes)
    requires Printable(v) && EndsNumber(t)
    ensures ParseValue(Print(v, indent) + t) == Ok(Some(v), t)
    decreases v, 1
  {
    hide SkipWs, RawString, Escape, ParseNumber, ParseItems, ParseEntries, PrintItems, PrintEntries, Decimal;
    var s := Print(v, indent) + t;
    PrintHead(v, indent, t);
    SkipNothing(s);
    match v
    case Null => LiteralReadBack([110, 117, 108, 108], t);
    case Bool(b) => LiteralReadBack(if b then [116, 114, 117, 101] else [102, 97, 108, 115, 101], t);
    case Int(n) => NumberReadBack(n, t);
    case String(bytes) => StringReadBack(bytes, indent, t);
    case Array(items) => ReadArray(items, indent, t);
    case Object(entries) => ReadObject(entries, indent, t);
  }

  lemma {:induction false} LiteralReadBack(word: Bytes, t: Bytes)
    ensures word <= word + t && (word + t)[|word|..] == t
  {
  }

  lemma {:induction false} StringReadBack(bytes: Bytes, indent: nat, t: Bytes)
    requires NulFree(bytes)
    ensures var s := Print(String(bytes), indent) + t;
            Head(s) == QUOTE && ParseString(s) == Ok(Some(String(bytes)), t)
  {
    hide RawString, Escape, CString;
    var s := Print(String(bytes), indent) + t;
    assert s[1..] == Escape(bytes) + [QUOTE] + t;
    EscapedStringReadBack(bytes, t, []);
    CStringWhole(bytes);
    assert [] + bytes == bytes;
  }

  lemma {:induction false} ReadArray(items: seq<Value>, indent: nat, t: Bytes)
    requires forall i :: 0 <= i < |items| ==> Printable(items[i])
    ensures var s := Print(Array(items), indent) + t;
            Head(s) == 91 && ParseArray(s) == Ok(Some(Array(items)), t)
    decreases items, 1
  {
    hide SkipWs, ParseItems, PrintItems, Print, Indent;
    var s := Print(Array(items), indent) + t;
    if items == [] {
      assert Print(Array([]), indent) == [91, 93] by { EmptyText(indent); }
      assert s == [91] + ([93] + t) && s[1..] == [93] + t;
      SkipNothing([93] + t);
      assert ([93] + t)[1..] == t;
    } else {
      var tail := Indent(indent) + [93] + t;
      var body := PrintItems(items, indent) + tail;
      ArrayText(items, indent, t);
      assert s[1..] == [NEWLINE] + body;
      SkipSpace(NEWLINE, body);
      FirstItem(items, indent, tail);
      ItemsSkip(body, []);
      ReadItems(items, [], indent, t);
      assert [] + items == items;
    }
  }

  lemma {:induction false} EmptyText(indent: nat)
    ensures Print(Array([]), indent) == [91, 93] && Print(Object([]), indent) == [123, 125]
  {
  }

  lemma {:induction false} FirstItem(items: seq<Value>, indent: nat, t: Bytes)
    requires items != [] && Printable(items[0])
    ensures var s := SkipWs(PrintItems(items, indent) + t);
            && s == Print(items[0], indent + 1) + (Separator(|items| == 1) + (PrintItems(items[1..], indent) + t))
            && Head(s) > 32 && Head(s) != 93
  {
    hide SkipWs, PrintItems, Print, Indent, Separator, Printable;
    var rest := Separator(|items| == 1) + (PrintItems(items[1..], indent) + t);
    var p := Print(items[0], indent + 1);
    ItemsText(items, indent, t);
    PrintHead(items[0], indent + 1, rest);
    SkipIndent(indent + 1, p + rest);
    SkipNothing(p + rest);
  }

  lemma {:induction false} ReadItems(items: seq<Value>, done: seq<Value>, indent: nat, t: Bytes)
    requires items != [] && forall i :: 0 <= i < |items| ==> Printable(items[i])
    ensures ParseItems(PrintItems(items, indent) + (Indent(indent) + [93] + t), done)
        == Ok(Some(Array(done + items)), t)
    decreases items, 0
  {
    hide SkipWs, PrintItems, Print, Indent, Separator, Printable, ParseItems, ParseValue;
    var tail := Indent(indent) + [93] + t;
    var s := PrintItems(items, indent) + tail;
    var more := PrintItems(items[1..], indent) + tail;
    var rest := Separator(|items| == 1) + more;
    FirstItem(items, indent, tail);
    SkipSeparator(|items| == 1, more);
    ReadBack(items[0], indent + 1, rest);
    ItemsRound(s, done, items[0], rest);
    var done' := done + [items[0]];
    assert done' + items[1..] == done + items;
    if |items| == 1 {
      assert more == tail && done' == done + items by { NoItems(items[1..], indent); }
      SkipToClose(indent, 93, t);
      assert ([93] + t)[1..] == t;
    } else {
      assert ([44, NEWLINE] + more)[1..] == [NEWLINE] + more;
      SkipSpace(NEWLINE, more);
      ItemsSkip(more, done');
      ReadItems(items[1..], done', indent, t);
    }
  }

  lemma {:induction false} NoItems(items: seq<Value>, indent: nat)
    requires items == []
    ensures PrintItems(items, indent) == [] && PrintEntries([], indent) == []
  {
  }

  lemma {:induction false} ReadObject(entries: seq<Entry>, indent: nat, t: Bytes)
    requires Printable(Object(entries))
    ensures var s := Print(Object(entries), indent) + t;
            Head(s) == 123 && ParseObject(s) == Ok(Some(Object(entries)), t)
    decreases entries, 1
  {
    hide SkipWs, ParseEntries, PrintEntries, Print, Indent;
    var s := Print(Object(entries), indent) + t;
    if entries == [] {
      assert Print(Object([]), indent) == [123, 125] by { EmptyText(indent); }
      assert s == [123] + ([125] + t) && s[1..] == [125] + t;
      SkipNothing([125] + t);
      assert ([125] + t)[1..] == t;
    } else {
      var tail := Indent(indent) + [125] + t;
      var body := PrintEntries(entries, indent) + tail;
      ObjectText(entries, indent, t);
      assert s[1..] == [NEWLINE] + body;
      SkipSpace(NEWLINE, body);
      FirstEntry(entries, indent, tail);
      EntriesSkip(body, []);
      assert [] + entries == entries;
      ReadEntries(entries, [], indent, t);
    }
  }

  lemma {:induction false} FirstEntry(entries: seq<Entry>, indent: nat, t: Bytes)
    requires entries != [] && NulFree(entries[0].key)
    ensures SkipWs(PrintEntries(entries, indent) + t)
         == [QUOTE] + (entries[0].key + [QUOTE] + AfterKey(entries, indent, t))
  {
    hide SkipWs, PrintEntries, AfterKey, Indent;
    var s := [QUOTE] + (entries[0].key + [QUOTE] + AfterKey(entries, indent, t));
    EntriesText(entries, indent, t);
    SkipIndent(indent + 1, s);
    SkipNothing(s);
  }

  lemma {:induction false} KeyRound(t: Bytes, entries: seq<Entry>, key: Bytes, rest: Bytes)
    requires NulFree(key) && Plain(key) && SkipWs(t) == [QUOTE] + (key + [QUOTE] + rest)
    ensures ParseEntries(t, entries) == ParseMember(rest, Some(key), entries)
  {
    hide SkipWs, ParseMember, RawString, CString;
    PlainReadBack(key, rest, []);
    CStringWhole(key);
    assert [] + key == key;
    assert SkipWs(t)[1..] == key + [QUOTE] + rest;
  }

  lemma {:induction false} ReadEntries(entries: seq<Entry>, done: seq<Entry>, indent: nat, t: Bytes)
    requires entries != [] && DistinctKeys(done + entries)
    requires forall i :: 0 <= i < |entries| ==>
               NulFree(entries[i].key) && Plain(entries[i].key) && Printable(entries[i].value)
    ensures ParseEntries(PrintEntries(entries, indent) + (Indent(indent) + [125] + t), done)
         == Ok(Some(Object(done + entries)), t)
    decreases entries, 0
  {
    hide SkipWs, PrintEntries, Print, Indent, Separator, Printable, ParseEntries, ParseValue, ParseMember, AfterKey,
    Plain, NulFree, SetEntry;
    var tail := Indent(indent) + [125] + t;
    var s := PrintEntries(entries, indent) + tail;
    var Entry(key, value) := entries[0];
    var more := PrintEntries(entries[1..], indent) + tail;
    var rest := Separator(|entries| == 1) + more;
    FirstEntry(entries, indent, tail);
    KeyRound(s, done, key, AfterKey(entries, indent, tail));
    MemberValue(entries, indent, tail);
    ReadBack(value, indent + 1, rest) by { SkipSeparator(|entries| == 1, more); }
    MemberRound(AfterKey(entries, indent, tail), key, done, value, rest);
    NewKey(done, entries);
    SetNewKey(done, key, value);
    SkipSeparator(|entries| == 1, more);
    var done' := done + [Entry(key, value)];
    assert done' + entries[1..] == done + entries;
    if |entries| == 1 {
      assert more == tail && done' == done + entries by { NoItems([], indent); }
      SkipToClose(indent, 125, t);
      assert ([125] + t)[1..] == t;
    } else {
      assert ([44, NEWLINE] + more)[1..] == [NEWLINE] + more;
      SkipSpace(NEWLINE, more);
      EntriesSkip(more, done');
      ReadEntries(entries[1..], done', indent, t);
    }
  }

  lemma {:induction false} NewKey(done: seq<Entry>, entries: seq<Entry>)
    requires entries != [] && DistinctKeys(done + entries)
    ensures forall i :: 0 <= i < |done| ==> done[i].key != entries[0].key
  {
    forall i | 0 <= i < |done|
      ensures done[i].key != entries[0].key
    {
      assert (done + entries)[i].key != (done + entries)[|done|].key;
    }
  }

  /** The cursor behind a key: over the colon and the space, to the value. */
  lemma {:induction false} MemberValue(entries: seq<Entry>, indent: nat, t: Bytes)
    requires entries != [] && Printable(entries[0].value)
    ensures var u := SkipWs(AfterKey(entries, indent, t));
            && Head(u) == 58
            && SkipWs(u[1..]) == Print(entries[0].value, indent + 1)
                                 + (Separator(|entries| == 1) + (PrintEntries(entries[1..], indent) + t))
  {
    hide SkipWs, PrintEntries, Print, Separator, Printable;
    var rest := Separator(|entries| == 1) + (PrintEntries(entries[1..], indent) + t);
    var p := Print(entries[0].value, indent + 1) + rest;
    var s := AfterKey(entries, indent, t);
    assert s[1..] == [SPACE] + p;
    SkipNothing(s);
    PrintHead(entries[0].value, indent + 1, rest);
    SkipSpace(SPACE, p);
    SkipNothing(p);
  }

  /** The round trip through `printOn:` and `parse:`. */
  lemma {:induction false} ParsePrinted(v: Value, indent: nat)
    requires Printable(v)
    ensures Parse(Print(v, indent)) == Success(v)
  {
    hide Print, ParseValue;
    PrintHead(v, indent, []);
    ReadBack(v, indent, []);
    assert Print(v, indent) + [] == Print(v, indent);
  }

  /** A quote in a key ends it early: the printed object is not even JSON, whatever the value. */
  lemma {:induction false} QuotedKeyIsLost(v: Value, indent: nat)
    ensures Parse(Print(Object([Entry([QUOTE], v)]), indent)) == Failure(ExpectedColon)
  {
    hide *;
    var text := Print(Object([Entry([QUOTE], v)]), indent);
    var tail := [58, SPACE] + Print(v, indent + 1) + Separator(true);
    var end := Indent(indent) + [125];
    QuoteEntry(v, indent);
    PrintOneEntry(Entry([QUOTE], v), indent);
    var key := [QUOTE, QUOTE, QUOTE] + (tail + end);
    assert PrintEntries([Entry([QUOTE], v)], indent) + end == Indent(indent + 1) + key;
    assert text == [123, NEWLINE] + (Indent(indent + 1) + key);
    ObjectStops(text, Indent(indent + 1) + key, key, tail + end, indent);
  }

  lemma {:induction false} PrintOneEntry(e: Entry, indent: nat)
    ensures Print(Object([e]), indent) == [123, NEWLINE] + PrintEntries([e], indent) + Indent(indent) + [125]
  {
    hide PrintEntries, Indent;
  }

  lemma {:induction false} QuoteEntry(v: Value, indent: nat)
    ensures PrintEntries([Entry([QUOTE], v)], indent)
         == Indent(indent + 1) + [QUOTE, QUOTE, QUOTE] + ([58, SPACE] + Print(v, indent + 1) + Separator(true))
  {
    hide Print, Indent, Separator;
    assert CString([QUOTE]) == [QUOTE] by {
      assert [QUOTE][1..] == [] && CString([]) == [];
    }
    var entries := [Entry([QUOTE], v)];
    assert PrintEntries(entries[1..], indent) == [];
  }

  lemma {:induction false} ObjectStops(text: Bytes, inner: Bytes, key: Bytes, t: Bytes, indent: nat)
    requires key == [QUOTE, QUOTE, QUOTE] + t && inner == Indent(indent + 1) + key && text == [123, NEWLINE] + inner
    ensures Parse(text) == Failure(ExpectedColon)
  {
    hide Indent;
    SkipNothing(text);
    SkipSpace(NEWLINE, inner);
    SkipIndent(indent + 1, key);
    SkipNothing(key);
    assert text[1..] == [NEWLINE] + inner;
    assert SkipWs(text[1..]) == key;
    var afterKey := [QUOTE] + t;
    assert key[1..] == [QUOTE] + afterKey && ([QUOTE] + afterKey)[1..] == afterKey;
    assert RawString(key[1..], []) == Text([], afterKey);
    SkipNothing(afterKey);
    assert ParseMember(afterKey, Some(CString([])), []) == Err(ExpectedColon);
    assert ParseEntries(key, []) == Err(ExpectedColon);
    assert ParseObject(text) == Err(ExpectedColon);
    assert ParseValue(text) == Err(ExpectedColon);
  }
}

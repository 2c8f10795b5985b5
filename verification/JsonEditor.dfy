/**
 The JSON reader and writer as the example runs them: a cursor that moves over the input, buffers
 that fill up, and objects whose key and value arrays are updated in place
 (examples/01_JSONEditor/json_editor.c:1527-1553, 1693-1841, 2133-2371). Every method is proved
 against the functions of module `Json`.
 */
module JsonEditor {
  import opened Wrappers
  import opened Json

  /** The arrays of a `JSON::Object` under construction. */
  class ObjectArrays {
    var keys: seq<Bytes>
    var values: seq<Value>

    constructor ()
      ensures Valid() && Entries() == []
    {
      keys, values := [], [];
    }

    ghost predicate Valid()
      reads this
    {
      |keys| == |values|
    }

    function Entries(): (e: seq<Entry>)
      requires |keys| == |values|
      reads this
      ensures |e| == |keys|
    {
      seq(|keys|, i requires 0 <= i < |keys| reads this requires |keys| == |values| => Entry(keys[i], values[i]))
    }

    /** `set:forKey:` */
    method Set(value: Value, key: Bytes)
      requires Valid()
      modifies this
      ensures Valid() && Entries() == SetEntry(old(Entries()), key, value)
    {
      ghost var entries := Entries();
      for i := 0 to |keys|
        invariant keys == old(keys) && values == old(values)
        invariant forall k :: 0 <= k < i ==> keys[k] != key
      {
        if keys[i] == key {
          SetAt(entries, key, value, i);
          values := values[i := value];
          return;
        }
      }
      SetNewKey(entries, key, value);
      keys := keys + [key];
      values := values + [value];
    }
  }

  lemma {:induction false} SetAt(entries: seq<Entry>, key: Bytes, value: Value, i: nat)
    requires i < |entries| && entries[i].key == key && forall k :: 0 <= k < i ==> entries[k].key != key
    ensures SetEntry(entries, key, value) == entries[i := Entry(key, value)]
    decreases i
  {
    if i > 0 {
      SetAt(entries[1..], key, value, i - 1);
    }
  }

  lemma {:induction false} RawStep(t: Bytes, buf: Bytes)
    ensures RawString(t, buf)
            == if Head(t) == 0 then Text(buf, t)
               else if t[0] == QUOTE then Text(buf, t[1..])
               else if t[0] != BACKSLASH then RawString(t[1..], buf + [t[0]])
               else if |t| == 1 then PastEnd
               else if t[1] != 117 then RawString(t[2..], buf + [Unescaped(t[1])])
               else
                 match ParseHex4(t[2..], 4, 0)
                 case NotHexAtEnd => BadAtEnd
                 case NotHex(rest) => Bad(rest)
                 case Code(cp, rest) => RawString(rest, buf + Utf8(cp))
  {
  }

  type Outcome = Result<Option<Value>, Error>

  class Reader {
    const input: Bytes
    var p: nat              // the cursor; one past the NUL is the farthest it gets

    constructor (input: Bytes)
      ensures this.input == input && p == 0
    {
      this.input := input;
      p := 0;
    }

    ghost predicate Valid()
      reads this
    {
      p <= |input|
    }

    function Peek(): (c: Byte)
      requires p <= |input|
      reads this
      ensures c == Head(input[p..])
    {
      if p < |input| then input[p] else 0
    }

    ghost function Rest(): Bytes
      requires Valid()
      reads this
    {
      input[p..]
    }

    /** The method returned what the function says, and left the cursor where it says. */
    ghost predicate Returned(r: Outcome, parsed: Parsed<Option<Value>>, start: nat)
      reads this
    {
      match parsed
      case Ok(v, rest) => r == Success(v) && Valid() && Rest() == rest && start <= p
      case Err(e) => r == Failure(e)
    }

    method SkipSpaces()
      requires Valid()
      modifies this
      ensures Valid() && Rest() == SkipWs(old(Rest())) && old(p) <= p
    {
      while p < |input| && 0 < input[p] <= 32
        invariant Valid() && old(p) <= p && SkipWs(Rest()) == SkipWs(old(Rest()))
      {
        assert Rest()[1..] == input[p + 1..];
        p := p + 1;
      }
    }

    method Hex4() returns (value: int)
      requires Valid()
      modifies this
      ensures match ParseHex4(old(Rest()), 4, 0)
              case Code(cp, rest) => value == cp && Valid() && Rest() == rest && old(p) <= p
              case NotHex(rest) => value == -1 && Valid() && Rest() == rest && old(p) <= p
              case NotHexAtEnd => value == -1 && p == |input| + 1
    {
      var val: nat := 0;
      for i := 0 to 4
        invariant Valid() && old(p) <= p
        invariant ParseHex4(old(Rest()), 4, 0) == ParseHex4(Rest(), 4 - i, val)
      {
        var c := Peek();
        ghost var rest := Rest();
        p := p + 1;
        if c == 0 && p > |input| {
          return -1;
        }
        assert rest[1..] == input[p..];
        if 48 <= c <= 57 {
          val := val * 16 + (c - 48);
        } else if 97 <= c <= 102 {
          val := val * 16 + (c - 97 + 10);
        } else if 65 <= c <= 70 {
          val := val * 16 + (c - 65 + 10);
        } else {
          return -1;
        }
      }
      return val;
    }

    /** `parse_raw_string`; `None` is its NULL. `overrun` says that its loop went on past the NUL. */
    method ReadRawString() returns (r: Option<Bytes>, overrun: bool)
      requires Valid() && Peek() == QUOTE
      modifies this
      ensures match RawString(old(Rest())[1..], [])
              case Text(buf, rest) => !overrun && r == Some(buf) && Valid() && Rest() == rest && old(p) < p
              case Bad(rest) => !overrun && r == None && Valid() && Rest() == rest && old(p) < p
              case BadAtEnd => !overrun && r == None && p == |input| + 1
              case PastEnd => overrun && p == |input| + 1
    {
      hide ParseHex4, Utf8, Unescaped, RawString;
      overrun := false;
      p := p + 1;
      var buf: Bytes := [];
      assert Rest() == old(Rest())[1..];
      while Peek() != 0
        invariant Valid() && old(p) < p
        invariant RawString(old(Rest())[1..], []) == RawString(Rest(), buf)
        decreases |input| - p
      {
        var c := Peek();
        ghost var rest := Rest();
        RawStep(rest, buf);
        assert rest[1..] == input[p + 1..];
        if c == QUOTE {
          p := p + 1;
          return Some(buf), false;
        }
        if c == BACKSLASH {
          p := p + 1;
          var d := Peek();
          if d == 117 && p < |input| {
            p := p + 1;
            assert rest[2..] == Rest();
            var cp := Hex4();
            if cp < 0 {
              return None, false;
            }
            buf := buf + Utf8(cp);
            continue;
          }
          if p == |input| {
            p := p + 1;       // the NUL is copied and stepped over, and the loop reads on
            return Some(buf + [0]), true;
          }
          assert rest[2..] == input[p + 1..];
          buf := buf + [Unescaped(d)];
        } else {
          buf := buf + [c];
        }
        p := p + 1;
      }
      RawStep(Rest(), buf);
      return Some(buf), false;
    }

    method ReadLiteral(word: Bytes, v: Value, error: Error) returns (r: Outcome)
      requires Valid()
      modifies this
      ensures Returned(r, ParseLiteral(old(Rest()), word, v, error), old(p))
    {
      if word <= input[p..] {
        assert Rest()[|word|..] == input[p + |word|..];
        p := p + |word|;
        return Success(Some(v));
      }
      return Failure(error);
    }

    method SkipDigits()
      requires Valid()
      modifies this
      ensures Valid() && p == old(p) + DigitRun(old(Rest()))
    {
      while p < |input| && IsDigit(input[p])
        invariant Valid() && p + DigitRun(Rest()) == old(p) + DigitRun(old(Rest()))
      {
        assert Rest()[1..] == input[p + 1..];
        p := p + 1;
      }
    }

    /** The cursor is `n` bytes behind `start`, in input that began with `t` there. */
    ghost predicate At(start: nat, t: Bytes, n: nat)
      reads this
    {
      p == start + n <= |input| && t == input[start..]
    }

    lemma {:induction false} AtRest(start: nat, t: Bytes, n: nat)
      requires At(start, t, n)
      ensures n <= |t| && input[p..] == t[n..] && Peek() == Head(t[n..])
      ensures t[..n] == input[start..p]
    {
    }

    /** `json_parse_number` */
    method ReadNumber() returns (r: Outcome)
      requires Valid()
      modifies this
      ensures Returned(r, ParseNumber(old(Rest())), old(p))
    {
      hide DigitRun, NumberOf;
      var start := p;
      ghost var t := Rest();
      ReadInteger();
      ReadFraction(start, t);
      ReadExponent(start, t);
      AtRest(start, t, NumberLength(t));
      if p == start {
        return Failure(ExpectedNumber);
      }
      if p - start >= 64 {
        return Failure(NumberTooLong);
      }
      return Success(Some(NumberOf(input[start..p])));
    }

    method ReadInteger()
      requires Valid()
      modifies this
      ensures At(old(p), old(Rest()), IntegerEnd(old(Rest())))
    {
      hide DigitRun;
      ghost var start, t := p, Rest();
      AtRest(start, t, 0);
      if Peek() == 45 {
        p := p + 1;
      }
      AtRest(start, t, p - start);
      SkipDigits();
    }

    method ReadFraction(start: nat, ghost t: Bytes)
      requires At(start, t, IntegerEnd(t))
      modifies this
      ensures At(start, t, FractionEnd(t))
    {
      hide DigitRun, IntegerEnd;
      AtRest(start, t, IntegerEnd(t));
      if Peek() == 46 {
        p := p + 1;
        AtRest(start, t, p - start);
        SkipDigits();
      }
    }

    method ReadExponent(start: nat, ghost t: Bytes)
      requires At(start, t, FractionEnd(t))
      modifies this
      ensures At(start, t, NumberLength(t))
    {
      hide DigitRun, FractionEnd;
      AtRest(start, t, FractionEnd(t));
      if Peek() == 101 || Peek() == 69 {
        p := p + 1;
        assert At(start, t, FractionEnd(t) + 1);
        AtRest(start, t, p - start);
        if Peek() == 43 || Peek() == 45 {
          p := p + 1;
          AtRest(start, t, p - start);
        }
        SkipDigits();
      }
    }

    method ReadString() returns (r: Outcome)
      requires Valid() && Peek() == QUOTE
      modifies this
      ensures Returned(r, ParseString(old(Rest())), old(p))
    {
      var raw, overrun := ReadRawString();
      if overrun {
        return Failure(Overrun);
      }
      if raw.None? {
        return Failure(InvalidString);
      }
      return Success(Some(String(CString(raw.value))));
    }

    /** `json_parse_value` */
    method ReadValue() returns (r: Outcome)
      requires Valid()
      modifies this
      ensures Returned(r, ParseValue(old(Rest())), old(p))
      decreases |input| - p, 3
    {
      hide SkipWs, ParseLiteral, ParseString, ParseNumber, ParseArray, ParseObject;
      SkipSpaces();
      var c := Peek();
      if c == 0 {
        r := Success(None);
      } else if c == 110 {
        r := ReadLiteral([110, 117, 108, 108], Null, ExpectedNull);
      } else if c == 116 {
        r := ReadLiteral([116, 114, 117, 101], Bool(true), ExpectedTrue);
      } else if c == 102 {
        r := ReadLiteral([102, 97, 108, 115, 101], Bool(false), ExpectedFalse);
      } else if c == QUOTE {
        r := ReadString();
      } else if c == 91 {
        r := ReadArray();
      } else if c == 123 {
        r := ReadObject();
      } else if c == 45 || IsDigit(c) {
        r := ReadNumber();
      } else {
        r := Failure(UnexpectedCharacter);
      }
    }

    /** One byte on. */
    method Advance()
      requires Valid() && Peek() != 0
      modifies this
      ensures Valid() && p == old(p) + 1 && Rest() == old(Rest())[1..]
    {
      p := p + 1;
    }

    /** `json_parse_array` */
    method ReadArray() returns (r: Outcome)
      requires Valid() && Peek() == 91
      modifies this
      ensures Returned(r, ParseArray(old(Rest())), old(p))
      decreases |input| - p, 2
    {
      hide SkipWs, ParseValue;
      Advance();
      var items: seq<Value> := [];
      SkipSpaces();
      if Peek() == 93 {
        Advance();
        return Success(Some(Array([])));
      }
      while true
        invariant Valid() && old(p) < p
        invariant ParseArray(old(Rest())) == ParseItems(Rest(), items)
        decreases |input| - p
      {
        SkipSpaces();
        var v := ReadValue();
        if v.Failure? {
          return v;
        }
        SkipSpaces();
        if v.value.Some? {
          items := items + [v.value.value];
        }
        if Peek() == 44 {
          Advance();
          SkipSpaces();
        } else if Peek() == 93 {
          Advance();
          return Success(Some(Array(items)));
        } else {
          return Failure(ExpectedArrayEnd);
        }
      }
    }

    /** `json_parse_object` */
    method ReadObject() returns (r: Outcome)
      requires Valid() && Peek() == 123
      modifies this
      ensures Returned(r, ParseObject(old(Rest())), old(p))
      decreases |input| - p, 2
    {
      hide SkipWs, ParseValue, RawString, ParseMember;
      Advance();
      var arrays := new ObjectArrays();
      SkipSpaces();
      if Peek() == 125 {
        Advance();
        return Success(Some(Object([])));
      }
      while true
        invariant Valid() && old(p) < p && arrays.Valid() && fresh(arrays)
        invariant ParseObject(old(Rest())) == ParseEntries(Rest(), arrays.Entries())
        decreases |input| - p
      {
        SkipSpaces();
        if Peek() != QUOTE {
          return Failure(ExpectedStringKey);
        }
        var raw, overrun := ReadRawString();
        if overrun || p > |input| {
          return Failure(Overrun);
        }
        var key: Option<Bytes> := if raw.Some? then Some(CString(raw.value)) else None;
        assert ParseObject(old(Rest())) == ParseMember(Rest(), key, arrays.Entries());
        var end;
        r, end := ReadMember(key, arrays);
        if end {
          return;
        }
      }
    }

    /** The rest of a round of `json_parse_object`, behind the key; `end` if it was the last one. */
    method ReadMember(key: Option<Bytes>, arrays: ObjectArrays) returns (r: Outcome, end: bool)
      requires Valid() && arrays.Valid()
      modifies this, arrays
      ensures arrays.Valid()
      ensures end ==> Returned(r, ParseMember(old(Rest()), key, old(arrays.Entries())), old(p))
      ensures !end ==>
                && Valid() && old(p) < p
                && ParseMember(old(Rest()), key, old(arrays.Entries())) == ParseEntries(Rest(), arrays.Entries())
      decreases |input| - p, 4
    {
      hide SkipWs, ParseValue, RawString, ParseEntries, SetEntry;
      r, end := Failure(ExpectedColon), true;
      SkipSpaces();
      if Peek() != 58 {
        return;
      }
      Advance();
      SkipSpaces();
      r := ReadValue();
      if r.Failure? {
        return;
      }
      if key.Some? && r.value.Some? {
        arrays.Set(r.value.value, key.value);
      }
      SkipSpaces();
      if Peek() == 44 {
        Advance();
        SkipSpaces();
        end := false;
      } else if Peek() == 125 {
        Advance();
        r := Success(Some(Object(arrays.Entries())));
      } else {
        r := Failure(ExpectedObjectEnd);
      }
    }
  }

  /** `parse:` */
  method ParseInput(input: Bytes) returns (r: Result<Value, Error>)
    ensures r == Parse(input)
  {
    if Head(input) == 0 {
      return Failure(EmptyInput);
    }
    var reader := new Reader(input);
    assert input[0..] == input;
    var v := reader.ReadValue();
    if v.Failure? {
      return Failure(v.error);
    }
    if v.value.None? {
      return Failure(FailedToParse);
    }
    reader.SkipSpaces();
    if reader.Peek() != 0 {
      return Failure(TrailingCharacters);
    }
    return Success(v.value.value);
  }

  /** `printOn:`, with the standard output as a growing buffer. */
  class Writer {
    var out: Bytes

    constructor ()
      ensures out == []
    {
      out := [];
    }

    method Put(text: Bytes)
      modifies this
      ensures out == old(out) + text
    {
      out := out + text;
    }

    method PutIndent(n: nat)
      modifies this
      ensures out == old(out) + Indent(n)
    {
      assert Indent(0) == [];
      for j := 0 to n
        invariant out == old(out) + Indent(j)
      {
        IndentNext(j);
        out := out + [32, 32, 32, 32];
      }
    }

    method PutString(bytes: Bytes)
      modifies this
      ensures out == old(out) + [QUOTE] + Escape(bytes) + [QUOTE]
    {
      hide EscapeByte;
      Put([QUOTE]);
      ghost var start := out;
      var i := 0;
      assert bytes[0..] == bytes;
      while i < |bytes| && bytes[i] != 0
        invariant i <= |bytes|
        invariant out + Escape(bytes[i..]) == start + Escape(bytes)
      {
        assert bytes[i..][1..] == bytes[i + 1..];
        assert out + (EscapeByte(bytes[i]) + Escape(bytes[i + 1..]))
            == out + EscapeByte(bytes[i]) + Escape(bytes[i + 1..]);
        Put(EscapeByte(bytes[i]));
        i := i + 1;
      }
      assert Escape(bytes[i..]) == [] && out + [] == out;
      Put([QUOTE]);
    }

    method PrintOn(v: Value, indent: nat)
      modifies this
      ensures out == old(out) + Print(v, indent)
      decreases v
    {
      hide Escape, Decimal, PrintItems, PrintEntries, Indent;
      ghost var start := out;
      match v
      case Null => Put([110, 117, 108, 108]);
      case Bool(b) => Put(if b then [116, 114, 117, 101] else [102, 97, 108, 115, 101]);
      case Int(n) => Put(Decimal(n));
      case Float(text) => Put(text);
      case String(bytes) => PutString(bytes);
      case Array(items) =>
        if items == [] {
          Put([91, 93]);
          return;
        }
        Put([91, NEWLINE]);
        PutItems(items, indent);
        PutIndent(indent);
        Put([93]);
        assert out == start + ([91, NEWLINE] + PrintItems(items, indent) + Indent(indent) + [93]);
      case Object(entries) =>
        if entries == [] {
          Put([123, 125]);
          return;
        }
        Put([123, NEWLINE]);
        PutEntries(entries, indent);
        PutIndent(indent);
        Put([125]);
        assert out == start + ([123, NEWLINE] + PrintEntries(entries, indent) + Indent(indent) + [125]);
    }

    method PutItems(items: seq<Value>, indent: nat)
      modifies this
      ensures out == old(out) + PrintItems(items, indent)
      decreases items
    {
      hide Print, PrintItems, Indent;
      assert items[0..] == items;
      for i := 0 to |items|
        invariant out + PrintItems(items[i..], indent) == old(out) + PrintItems(items, indent)
      {
        NextItem(out, items[i..], indent);
        assert items[i..][1..] == items[i + 1..];
        PutIndent(indent + 1);
        PrintOn(items[i], indent + 1);
        if i < |items| - 1 {
          Put([44]);
        }
        Put([NEWLINE]);
      }
      NoMore(items[|items|..], [], indent);
      assert out + [] == out;
    }

    method PutEntries(entries: seq<Entry>, indent: nat)
      modifies this
      ensures out == old(out) + PrintEntries(entries, indent)
      decreases entries
    {
      hide Print, PrintEntries, Indent, CString;
      assert entries[0..] == entries;
      for i := 0 to |entries|
        invariant out + PrintEntries(entries[i..], indent) == old(out) + PrintEntries(entries, indent)
      {
        NextEntry(out, entries[i..], indent);
        assert entries[i..][1..] == entries[i + 1..];
        PutIndent(indent + 1);
        Put([QUOTE] + CString(entries[i].key) + [QUOTE, 58, SPACE]);
        PrintOn(entries[i].value, indent + 1);
        if i < |entries| - 1 {
          Put([44]);
        }
        Put([NEWLINE]);
      }
      NoMore([], entries[|entries|..], indent);
      assert out + [] == out;
    }
  }

  lemma {:induction false} NextItem(out: Bytes, items: seq<Value>, indent: nat)
    requires items != []
    ensures out + PrintItems(items, indent)
         == (if |items| == 1 then out + Indent(indent + 1) + Print(items[0], indent + 1) + [NEWLINE]
             else out + Indent(indent + 1) + Print(items[0], indent + 1) + [44] + [NEWLINE])
            + PrintItems(items[1..], indent)
  {
    hide Print, Indent;
    var a, b, c, d := Indent(indent + 1), Print(items[0], indent + 1), Separator(|items| == 1),
        PrintItems(items[1..], indent);
    assert out + (a + b + c + d) == out + a + b + c + d;
    assert out + a + b + [44, NEWLINE] == out + a + b + [44] + [NEWLINE];
  }

  lemma {:induction false} NextEntry(out: Bytes, entries: seq<Entry>, indent: nat)
    requires entries != []
    ensures var start := out + Indent(indent + 1) + ([QUOTE] + CString(entries[0].key) + [QUOTE, 58, SPACE]);
            out + PrintEntries(entries, indent)
            == (if |entries| == 1 then start + Print(entries[0].value, indent + 1) + [NEWLINE]
                else start + Print(entries[0].value, indent + 1) + [44] + [NEWLINE])
               + PrintEntries(entries[1..], indent)
  {
    hide Print, Indent, CString;
    var a, k, b := Indent(indent + 1), CString(entries[0].key), Print(entries[0].value, indent + 1);
    var c, d := Separator(|entries| == 1), PrintEntries(entries[1..], indent);
    assert out + (a + [QUOTE] + k + [QUOTE, 58, SPACE] + b + c + d)
        == out + a + ([QUOTE] + k + [QUOTE, 58, SPACE]) + b + c + d;
    var start := out + a + ([QUOTE] + k + [QUOTE, 58, SPACE]);
    assert start + b + [44, NEWLINE] == start + b + [44] + [NEWLINE];
  }

  lemma {:induction false} NoMore(items: seq<Value>, entries: seq<Entry>, indent: nat)
    ensures items == [] ==> PrintItems(items, indent) == []
    ensures entries == [] ==> PrintEntries(entries, indent) == []
  {
  }

  lemma {:induction false} IndentNext(n: nat)
    ensures Indent(n) + [32, 32, 32, 32] == Indent(n + 1)
    decreases n
  {
    if n > 0 {
      IndentNext(n - 1);
    }
  }
}

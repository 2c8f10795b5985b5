/**
 Which texts the JSON parser accepts, and what it makes of them (examples/01_JSONEditor/json_editor.c:1588-1599,
 2133-2371): a grammar of documents with blanks anywhere, strings and numbers in any spelling, duplicate keys, and the
 two forms that the parser lets pass: a string that the end of the input closes, and a key with a bad escape.
 */
module JsonGrammar {
  import opened Wrappers
  import opened Json
  import opened JsonRoundTrip
  import opened JsonSpelling

  // ---------------------------------------------------------------- documents

  datatype Word = NullWord | TrueWord | FalseWord

  /** `EmptyList` and `EmptyRecord` have blanks between their brackets; the others have at least one item. */
  datatype Doc =
    | Literal(word: Word)
    | Number(x: Numeral)
    | Quoted(us: seq<Unit>, closed: bool)
    | EmptyList(blanks: Bytes)
    | List(items: seq<Item>)
    | EmptyRecord(blanks: Bytes)
    | Record(members: seq<Member>)

  datatype Item = Item(before: Bytes, doc: Doc, after: Bytes)

  /** A key in quotes, or one that breaks off at a byte that is no hexadecimal digit. */
  datatype Key = Key(us: seq<Unit>) | Broken(us: seq<Unit>, digits: seq<Nibble>, stray: Byte)

  datatype Member = Member(before: Bytes, key: Key, between: Bytes, item: Item)

  ghost predicate Blank(b: Bytes) {
    forall i :: 0 <= i < |b| ==> 0 < b[i] <= 32
  }

  ghost predicate LegalAll(us: seq<Unit>) {
    forall i :: 0 <= i < |us| ==> Legal(us[i])
  }

  ghost predicate WellFormedKey(k: Key) {
    && LegalAll(k.us)
    && (k.Broken? ==>
          |k.digits| < 4 && (forall i :: 0 <= i < |k.digits| ==> Digit(k.digits[i]))
          && k.stray !in LOWER && k.stray !in UPPER)
  }

  /** Only the outermost value may be a string that is not closed. */
  ghost predicate WellFormed(d: Doc)
    decreases d
  {
    match d
    case Literal(_) => true
    case Number(x) => WellSpelled(x) && |SpelledNumber(x)| < 64
    case Quoted(us, _) => LegalAll(us)
    case EmptyList(b) => Blank(b)
    case List(items) => items != [] && forall i :: 0 <= i < |items| ==> WellFormedItem(items[i])
    case EmptyRecord(b) => Blank(b)
    case Record(ms) =>
      ms != [] && forall i :: 0 <= i < |ms| ==> WellFormedMember(ms[i])
  }

  ghost predicate WellFormedItem(item: Item)
    decreases item
  {
    Blank(item.before) && Blank(item.after) && WellFormed(item.doc) && Closed(item.doc)
  }

  ghost predicate WellFormedMember(m: Member)
    decreases m
  {
    Blank(m.before) && WellFormedKey(m.key) && Blank(m.between) && WellFormedItem(m.item)
  }

  predicate Closed(d: Doc) {
    d.Quoted? ==> d.closed
  }

  function WordText(w: Word): Bytes {
    match w
    case NullWord => [110, 117, 108, 108]
    case TrueWord => [116, 114, 117, 101]
    case FalseWord => [102, 97, 108, 115, 101]
  }

  function NibbleText(ds: seq<Nibble>): Bytes
    requires forall i :: 0 <= i < |ds| ==> Digit(ds[i])
  {
    if ds == [] then [] else [DigitByte(ds[0])] + NibbleText(ds[1..])
  }

  function BrokenEnd(digits: seq<Nibble>, stray: Byte): Bytes
    requires forall i :: 0 <= i < |digits| ==> Digit(digits[i])
  {
    [BACKSLASH, 117] + NibbleText(digits) + [stray]
  }

  ghost function KeyText(k: Key): Bytes
    requires WellFormedKey(k)
  {
    match k
    case Key(us) => [QUOTE] + (SpelledAll(us) + [QUOTE])
    case Broken(us, digits, stray) => [QUOTE] + (SpelledAll(us) + BrokenEnd(digits, stray))
  }

  ghost function Spell(d: Doc): Bytes
    requires WellFormed(d)
    decreases d
  {
    match d
    case Literal(w) => WordText(w)
    case Number(x) => SpelledNumber(x)
    case Quoted(us, closed) => [QUOTE] + (SpelledAll(us) + if closed then [QUOTE] else [])
    case EmptyList(b) => [91] + b + [93]
    case List(items) => [91] + SpellItems(items) + [93]
    case EmptyRecord(b) => [123] + b + [125]
    case Record(ms) => [123] + SpellMembers(ms) + [125]
  }

  ghost function SpellItem(item: Item): Bytes
    requires WellFormedItem(item)
    decreases item
  {
    item.before + Spell(item.doc) + item.after
  }

  ghost function SpellItems(items: seq<Item>): Bytes
    requires forall i :: 0 <= i < |items| ==> WellFormedItem(items[i])
    decreases items
  {
    if items == [] then []
    else if |items| == 1 then SpellItem(items[0])
    else SpellItem(items[0]) + [44] + SpellItems(items[1..])
  }

  ghost function SpellMember(m: Member): Bytes
    requires WellFormedMember(m)
    decreases m
  {
    m.before + KeyText(m.key) + m.between + [58] + SpellItem(m.item)
  }

  ghost function SpellMembers(ms: seq<Member>): Bytes
    requires forall i :: 0 <= i < |ms| ==> WellFormedMember(ms[i])
    decreases ms
  {
    if ms == [] then []
    else if |ms| == 1 then SpellMember(ms[0])
    else SpellMember(ms[0]) + [44] + SpellMembers(ms[1..])
  }

  // ---------------------------------------------------------------- what a document means

  ghost predicate TextMeans(us: seq<Unit>, s: Bytes)
    requires LegalAll(us)
  {
    exists text :: StandsAll(us, text) && s == CString(text)
  }

  ghost predicate NumberMeans(x: Numeral, v: Value)
    requires WellSpelled(x)
  {
    && (forall n :: v == Int(n) <==> Denoted(x) == n as real && Fits(n))
    && ((forall n :: Fits(n) ==> Denoted(x) != n as real) ==> v == Float(SpelledNumber(x)))
  }

  /** A broken key names nothing. */
  ghost predicate KeyMeans(k: Key, name: Option<Bytes>)
    requires WellFormedKey(k)
  {
    if k.Broken? then name == None else name.Some? && TextMeans(k.us, name.value)
  }

  ghost predicate Means(d: Doc, v: Value)
    requires WellFormed(d)
    decreases d
  {
    match d
    case Literal(NullWord) => v == Null
    case Literal(TrueWord) => v == Bool(true)
    case Literal(FalseWord) => v == Bool(false)
    case Number(x) => NumberMeans(x, v)
    case Quoted(us, _) => v.String? && TextMeans(us, v.bytes)
    case EmptyList(_) => v == Array([])
    case List(items) =>
      v.Array? && |v.items| == |items| && forall i :: 0 <= i < |items| ==> ItemMeans(items[i], v.items[i])
    case EmptyRecord(_) => v == Object([])
    case Record(ms) =>
      v.Object? && exists names: seq<Option<Bytes>>, values: seq<Value> ::
        && |names| == |ms| == |values|
        && (forall i :: 0 <= i < |ms| ==> MemberMeans(ms[i], names[i], values[i]))
        && Collected(names, values, v.entries)
  }

  ghost predicate ItemMeans(item: Item, v: Value)
    requires WellFormedItem(item)
    decreases item
  {
    Means(item.doc, v)
  }

  ghost predicate MemberMeans(m: Member, name: Option<Bytes>, v: Value)
    requires WellFormedMember(m)
    decreases m
  {
    KeyMeans(m.key, name) && ItemMeans(m.item, v)
  }

  /** Position `i` is the last one with this name. */
  ghost predicate LastOf(names: seq<Option<Bytes>>, name: Bytes, i: nat) {
    i < |names| && names[i] == Some(name) && forall j :: i < j < |names| ==> names[j] != Some(name)
  }

  /** Position `i` has this name, and none up to it has the other. */
  ghost predicate Earlier(names: seq<Option<Bytes>>, name: Bytes, other: Bytes, i: nat) {
    i < |names| && names[i] == Some(name) && forall j :: 0 <= j <= i ==> names[j] != Some(other)
  }

  ghost predicate Has(entries: seq<Entry>, key: Bytes) {
    exists e :: 0 <= e < |entries| && entries[e].key == key
  }

  ghost predicate Latest(names: seq<Option<Bytes>>, values: seq<Value>, entry: Entry)
    requires |names| == |values|
  {
    exists i: nat :: LastOf(names, entry.key, i) && values[i] == entry.value
  }

  ghost predicate InOrder(names: seq<Option<Bytes>>, name: Bytes, other: Bytes) {
    exists i: nat :: Earlier(names, name, other, i)
  }

  /** Each name once, where it came first, with the value that came last. */
  ghost predicate Collected(names: seq<Option<Bytes>>, values: seq<Value>, entries: seq<Entry>)
    requires |names| == |values|
  {
    && (forall i :: 0 <= i < |names| && names[i].Some? ==> Has(entries, names[i].value))
    && (forall e :: 0 <= e < |entries| ==> Latest(names, values, entries[e]))
    && forall e, f :: 0 <= e < f < |entries| ==> InOrder(names, entries[e].key, entries[f].key)
  }

  // ---------------------------------------------------------------- keys and their values

  lemma {:induction false} SetEntryAt(entries: seq<Entry>, key: Bytes, value: Value) returns (e: nat)
    ensures e <= |entries| && forall k :: 0 <= k < e ==> entries[k].key != key
    ensures e < |entries| ==>
              entries[e].key == key && SetEntry(entries, key, value) == entries[e := Entry(key, value)]
    ensures e == |entries| ==> SetEntry(entries, key, value) == entries + [Entry(key, value)]
    decreases |entries|
  {
    e := 0;
    if entries != [] {
      var first, rest, entry := entries[0], entries[1..], Entry(key, value);
      if first.key == key {
        assert entries[0 := entry] == [entry] + rest;
      } else {
        var e' := SetEntryAt(rest, key, value);
        e := e' + 1;
        assert forall k :: 0 < k < e ==> entries[k] == rest[k - 1];
        if e' < |rest| {
          assert entries[e := entry] == [first] + rest[e' := entry];
        } else {
          assert entries + [entry] == [first] + (rest + [entry]);
        }
      }
    }
  }

  lemma {:induction false} LatestStays(names: seq<Option<Bytes>>, values: seq<Value>, entry: Entry,
                                       name: Option<Bytes>, v: Value)
    requires |names| == |values| && Latest(names, values, entry) && name != Some(entry.key)
    ensures Latest(names + [name], values + [v], entry)
  {
    var i: nat :| LastOf(names, entry.key, i) && values[i] == entry.value;
    assert LastOf(names + [name], entry.key, i) && (values + [v])[i] == entry.value;
  }

  lemma {:induction false} LatestNow(names: seq<Option<Bytes>>, values: seq<Value>, key: Bytes, v: Value)
    requires |names| == |values|
    ensures Latest(names + [Some(key)], values + [v], Entry(key, v))
  {
    assert LastOf(names + [Some(key)], key, |names|) && (values + [v])[|names|] == v;
  }

  lemma {:induction false} InOrderStays(names: seq<Option<Bytes>>, a: Bytes, b: Bytes, name: Option<Bytes>)
    requires InOrder(names, a, b)
    ensures InOrder(names + [name], a, b) && a != b
  {
    var i: nat :| Earlier(names, a, b, i);
    assert Earlier(names + [name], a, b, i);
  }

  lemma {:induction false} InOrderNew(names: seq<Option<Bytes>>, values: seq<Value>, entry: Entry, key: Bytes)
    requires |names| == |values| && Latest(names, values, entry)
    requires forall i :: 0 <= i < |names| ==> names[i] != Some(key)
    ensures InOrder(names + [Some(key)], entry.key, key)
  {
    var i: nat :| LastOf(names, entry.key, i) && values[i] == entry.value;
    assert Earlier(names + [Some(key)], entry.key, key, i);
  }

  lemma {:induction false} HasStays(names: seq<Option<Bytes>>, entries: seq<Entry>, name: Option<Bytes>,
                                    after: seq<Entry>)
    requires forall i :: 0 <= i < |names| && names[i].Some? ==> Has(entries, names[i].value)
    requires |after| >= |entries| && forall e :: 0 <= e < |entries| ==> after[e].key == entries[e].key
    requires name.Some? ==> Has(after, name.value)
    ensures var names' := names + [name];
            forall i :: 0 <= i < |names'| && names'[i].Some? ==> Has(after, names'[i].value)
  {
    var names' := names + [name];
    forall i | 0 <= i < |names'| && names'[i].Some?
      ensures Has(after, names'[i].value)
    {
      if i < |names| {
        assert names'[i] == names[i];
        var e :| 0 <= e < |entries| && entries[e].key == names[i].value;
        assert after[e].key == names[i].value;
      }
    }
  }

  lemma {:induction false} CollectedNone(names: seq<Option<Bytes>>, values: seq<Value>, entries: seq<Entry>, v: Value)
    requires |names| == |values| && Collected(names, values, entries)
    ensures Collected(names + [None], values + [v], entries)
  {
    hide Has, Latest, InOrder;
    HasStays(names, entries, None, entries);
    forall e | 0 <= e < |entries|
      ensures Latest(names + [None], values + [v], entries[e])
    {
      LatestStays(names, values, entries[e], None, v);
    }
    forall e, f | 0 <= e < f < |entries|
      ensures InOrder(names + [None], entries[e].key, entries[f].key)
    {
      InOrderStays(names, entries[e].key, entries[f].key, None);
    }
  }

  /** A key that was there gets the new value in its place. */
  lemma {:induction false} CollectedAgain(names: seq<Option<Bytes>>, values: seq<Value>, entries: seq<Entry>, e: nat,
                                          v: Value)
    requires |names| == |values| && Collected(names, values, entries) && e < |entries|
    ensures Collected(names + [Some(entries[e].key)], values + [v], entries[e := Entry(entries[e].key, v)])
  {
    hide Latest, InOrder;
    var name, after := Some(entries[e].key), entries[e := Entry(entries[e].key, v)];
    assert after[e].key == entries[e].key;
    HasStays(names, entries, name, after);
    forall f, g | 0 <= f < g < |after|
      ensures InOrder(names + [name], after[f].key, after[g].key) && entries[f].key != entries[g].key
    {
      InOrderStays(names, entries[f].key, entries[g].key, name);
    }
    forall f | 0 <= f < |after|
      ensures Latest(names + [name], values + [v], after[f])
    {
      if f == e {
        LatestNow(names, values, entries[e].key, v);
      } else {
        assert entries[f].key != entries[e].key;
        LatestStays(names, values, entries[f], name, v);
      }
    }
  }

  /** A new one goes to the end. */
  lemma {:induction false} CollectedNew(names: seq<Option<Bytes>>, values: seq<Value>, entries: seq<Entry>, key: Bytes,
                                        v: Value)
    requires |names| == |values| && Collected(names, values, entries)
    requires forall e :: 0 <= e < |entries| ==> entries[e].key != key
    ensures Collected(names + [Some(key)], values + [v], entries + [Entry(key, v)])
  {
    hide Latest, InOrder;
    var after := entries + [Entry(key, v)];
    assert after[|entries|].key == key;
    HasStays(names, entries, Some(key), after);
    assert forall i :: 0 <= i < |names| ==> names[i] != Some(key);
    forall f | 0 <= f < |after|
      ensures Latest(names + [Some(key)], values + [v], after[f])
    {
      if f < |entries| {
        LatestStays(names, values, entries[f], Some(key), v);
      } else {
        LatestNow(names, values, key, v);
      }
    }
    forall e, f | 0 <= e < f < |after|
      ensures InOrder(names + [Some(key)], after[e].key, after[f].key)
    {
      if f < |entries| {
        InOrderStays(names, entries[e].key, entries[f].key, Some(key));
      } else {
        InOrderNew(names, values, entries[e], key);
      }
    }
  }

  lemma {:induction false} CollectedNext(names: seq<Option<Bytes>>, values: seq<Value>, entries: seq<Entry>,
                                         name: Option<Bytes>, v: Value)
    requires |names| == |values| && Collected(names, values, entries)
    ensures Collected(names + [name], values + [v],
                      if name.Some? then SetEntry(entries, name.value, v) else entries)
  {
    hide Collected;
    if name.None? {
      CollectedNone(names, values, entries, v);
    } else {
      var e := SetEntryAt(entries, name.value, v);
      if e < |entries| {
        CollectedAgain(names, values, entries, e, v);
      } else {
        CollectedNew(names, values, entries, name.value, v);
      }
    }
  }

  // ---------------------------------------------------------------- documents are accepted

  /** What may follow a value: a blank, the end, a comma or a closing bracket. */
  predicate Stops(t: Bytes) {
    Head(t) <= 32 || Head(t) == 44 || Head(t) == 93 || Head(t) == 125
  }

  lemma {:induction false} SkipBlank(b: Bytes, t: Bytes)
    requires Blank(b)
    ensures SkipWs(b + t) == SkipWs(t)
    decreases b
  {
    if b == [] {
      assert b + t == t;
    } else {
      assert b + t == [b[0]] + (b[1..] + t);
      SkipSpace(b[0], b[1..] + t);
      SkipBlank(b[1..], t);
    }
  }

  lemma {:induction false} SkipTo(b: Bytes, t: Bytes)
    requires Blank(b) && Head(t) > 32
    ensures SkipWs(b + t) == t
  {
    SkipBlank(b, t);
    SkipNothing(t);
  }

  lemma {:induction false} StopsBehind(b: Bytes, t: Bytes)
    requires Blank(b) && Stops(t)
    ensures Stops(b + t)
  {
    if b == [] {
      assert b + t == t;
    }
  }

  lemma {:induction false} StopsNumber(x: Option<Exponent>, t: Bytes)
    requires Stops(t)
    ensures Ends(x, t)
  {
  }

  /** A document begins with a byte that is no blank and closes nothing. */
  lemma {:induction false} SpellHead(d: Doc, t: Bytes)
    requires WellFormed(d)
    ensures var c := Head(Spell(d) + t);
            && c > 32 && c != 93 && c != 125 && c != 44 && c != 58
            && (d.Number? ==> c == 45 || IsDigit(c))
  {
    hide SpellItems, SpellMembers, SpelledAll, WellFormedItem, WellFormedMember;
    if d.Number? {
      NumberHead(d.x, t);
    }
  }

  lemma {:induction false} NumberHead(x: Numeral, t: Bytes)
    requires WellSpelled(x)
    ensures Head(SpelledNumber(x) + t) == 45 || IsDigit(Head(SpelledNumber(x) + t))
  {
    TextIs(x, t);
    if !x.minus {
      assert IsDigit(x.whole[0]);
    }
  }

  lemma {:induction false} ValueRead(d: Doc, t: Bytes) returns (v: Value)
    requires WellFormed(d) && Stops(t) && (Closed(d) || Head(t) == 0)
    ensures ParseValue(Spell(d) + t) == Ok(Some(v), t) && Means(d, v)
    decreases d, 1
  {
    hide ParseValue, Spell, Means, WellFormedItem, WellFormedMember, WellSpelled;
    match d
    case Literal(w) => v := WordRead(w, t);
    case Number(x) => v := NumberReadAs(x, t);
    case Quoted(us, closed) => v := QuotedRead(us, closed, t);
    case EmptyList(b) => v := EmptyRead(b, t, d);
    case List(items) => v := ListRead(items, t);
    case EmptyRecord(b) => v := EmptyRead(b, t, d);
    case Record(ms) => v := RecordRead(ms, t);
  }

  lemma {:induction false} WordRead(w: Word, t: Bytes) returns (v: Value)
    ensures ParseValue(Spell(Literal(w)) + t) == Ok(Some(v), t) && Means(Literal(w), v)
  {
    var s := WordText(w) + t;
    assert s[|WordText(w)|..] == t && WordText(w) <= s;
    SkipNothing(s);
    v := match w case NullWord => Null case TrueWord => Bool(true) case FalseWord => Bool(false);
  }

  lemma {:induction false} NumberReadAs(x: Numeral, t: Bytes) returns (v: Value)
    requires WellFormed(Number(x)) && Stops(t)
    ensures ParseValue(Spell(Number(x)) + t) == Ok(Some(v), t) && Means(Number(x), v)
  {
    hide ParseNumber, NumberOf, SpelledNumber, Denoted, WellSpelled, SkipWs;
    var s := SpelledNumber(x) + t;
    StopsNumber(x.exponent, t);
    SpelledNumberRead(x, t);
    NumberIsDenoted(x);
    NumberHead(x, t);
    SkipNothing(s);
    v := NumberOf(SpelledNumber(x));
  }

  lemma {:induction false} QuotedRead(us: seq<Unit>, closed: bool, t: Bytes) returns (v: Value)
    requires LegalAll(us) && (closed || Head(t) == 0)
    ensures ParseValue(Spell(Quoted(us, closed)) + t) == Ok(Some(v), t) && Means(Quoted(us, closed), v)
  {
    hide RawString, SpelledAll, StandsAll, SkipWs, CString;
    var s := Spell(Quoted(us, closed)) + t;
    var text: Bytes;
    if closed {
      text := SpelledStringRead(us, t, []);
      assert s[1..] == SpelledAll(us) + [QUOTE] + t;
    } else {
      text := UnclosedRead(us, t, []);
      assert s[1..] == SpelledAll(us) + t;
    }
    assert [] + text == text;
    SkipNothing(s);
    v := String(CString(text));
  }

  lemma {:induction false} UnclosedRead(us: seq<Unit>, t: Bytes, buf: Bytes) returns (text: Bytes)
    requires LegalAll(us) && Head(t) == 0
    ensures RawString(SpelledAll(us) + t, buf) == Text(buf + text, t) && StandsAll(us, text)
    decreases |us|
  {
    hide RawString, Spelled, Stands;
    if us == [] {
      text := [];
      assert SpelledAll(us) + t == t && buf + [] == buf;
      RawAtEnd(t, buf);
    } else {
      var rest := SpelledAll(us[1..]) + t;
      assert SpelledAll(us) + t == Spelled(us[0]) + rest;
      var part := UnitRead(us[0], rest, buf);
      var more := UnclosedRead(us[1..], t, buf + part);
      text := part + more;
      assert buf + part + more == buf + text;
      assert text[..|part|] == part && text[|part|..] == more;
    }
  }

  lemma {:induction false} RawAtEnd(t: Bytes, buf: Bytes)
    requires Head(t) == 0
    ensures RawString(t, buf) == Text(buf, t)
  {
  }

  lemma {:induction false} EmptyRead(b: Bytes, t: Bytes, d: Doc) returns (v: Value)
    requires Blank(b) && (d == EmptyList(b) || d == EmptyRecord(b))
    ensures ParseValue(Spell(d) + t) == Ok(Some(v), t) && Means(d, v)
  {
    hide SkipWs;
    var s, end := Spell(d) + t, [if d.EmptyList? then 93 else 125] + t;
    assert s[1..] == b + end && end[1..] == t;
    SkipTo(b, end);
    SkipNothing(s);
    v := if d.EmptyList? then Array([]) else Object([]);
  }

  lemma {:induction false} ListRead(items: seq<Item>, t: Bytes) returns (v: Value)
    requires WellFormed(List(items))
    ensures ParseValue(Spell(List(items)) + t) == Ok(Some(v), t) && Means(List(items), v)
    decreases List(items), 0
  {
    hide SkipWs, SpellItems, ParseItems, WellFormedItem, ItemMeans;
    var s, inner := Spell(List(items)) + t, SpellItems(items) + ([93] + t);
    assert s[1..] == inner && s[0] == 91;
    SkipNothing(s);
    var vs := ItemsRead(items, t, []);
    ItemsSkip(inner, []);
    ItemsHead(items, [93] + t);
    assert [] + vs == vs;
    v := Array(vs);
  }

  lemma {:induction false} ItemsSkip(t: Bytes, items: seq<Value>)
    ensures ParseItems(SkipWs(t), items) == ParseItems(t, items)
  {
    SkipNothing(SkipWs(t));
  }

  lemma {:induction false} ItemsHead(items: seq<Item>, t: Bytes)
    requires items != [] && forall i :: 0 <= i < |items| ==> WellFormedItem(items[i])
    ensures var c := Head(SkipWs(SpellItems(items) + t)); c != 93 && c != 125
  {
    hide Spell, SkipWs, WellFormed;
    var rest := ItemFirst(items, t);
    SpellHead(items[0].doc, items[0].after + rest);
    SkipTo(items[0].before, Spell(items[0].doc) + (items[0].after + rest));
  }

  /** The first item and what is behind it. */
  lemma {:induction false} ItemFirst(items: seq<Item>, t: Bytes) returns (rest: Bytes)
    requires items != [] && forall i :: 0 <= i < |items| ==> WellFormedItem(items[i])
    ensures rest == if |items| == 1 then t else [44] + (SpellItems(items[1..]) + t)
    ensures var item := items[0];
            && WellFormed(item.doc) && Closed(item.doc) && Blank(item.before) && Blank(item.after)
            && SpellItems(items) + t == item.before + (Spell(item.doc) + (item.after + rest))
  {
    hide *;
    rest := if |items| == 1 then t else [44] + (SpellItems(items[1..]) + t);
    ItemsText(items);
    ItemText(items[0]);
    var item, text := items[0], Spell(items[0].doc);
    if |items| > 1 {
      var first, more := SpellItem(item), SpellItems(items[1..]);
      Associates(first + [44], more, t);
      Associates(first, [44], more + t);
    }
    Associates(item.before + text, item.after, rest);
    Associates(item.before, text, item.after + rest);
  }

  lemma {:induction false} ItemsText(items: seq<Item>)
    requires items != [] && forall i :: 0 <= i < |items| ==> WellFormedItem(items[i])
    ensures SpellItems(items)
         == if |items| == 1 then SpellItem(items[0]) else SpellItem(items[0]) + [44] + SpellItems(items[1..])
  {
    hide SpellItem, WellFormedItem;
  }

  lemma {:induction false} ItemText(item: Item)
    requires WellFormedItem(item)
    ensures WellFormed(item.doc) && Closed(item.doc) && Blank(item.before) && Blank(item.after)
    ensures SpellItem(item) == item.before + Spell(item.doc) + item.after
  {
    hide Spell, WellFormed;
  }

  lemma {:induction false} ItemsStep(s: Bytes, acc: seq<Value>, v: Value, r: Bytes)
    requires ParseValue(SkipWs(s)) == Ok(Some(v), r)
    ensures var q := SkipWs(r);
            ParseItems(s, acc)
            == if Head(q) == 44 then ParseItems(SkipWs(q[1..]), acc + [v])
               else if Head(q) == 93 then Ok(Some(Array(acc + [v])), q[1..])
               else Err(ExpectedArrayEnd)
  {
    hide ParseValue, SkipWs;
  }

  lemma {:induction false} ItemRead(item: Item, rest: Bytes, acc: seq<Value>) returns (v: Value)
    requires WellFormed(item.doc) && Closed(item.doc) && Blank(item.before) && Blank(item.after)
    requires Head(rest) == 44 || Head(rest) == 93
    ensures Means(item.doc, v)
    ensures ParseItems(item.before + (Spell(item.doc) + (item.after + rest)), acc)
         == if Head(rest) == 44 then ParseItems(rest[1..], acc + [v]) else Ok(Some(Array(acc + [v])), rest[1..])
    decreases item, 1
  {
    hide SkipWs, Spell, ParseItems, ParseValue, WellFormed, Means, Blank, Closed;
    StopsBehind(item.after, rest);
    v := ValueRead(item.doc, item.after + rest);
    SpellHead(item.doc, item.after + rest);
    SkipTo(item.before, Spell(item.doc) + (item.after + rest));
    SkipTo(item.after, rest);
    ItemsStep(item.before + (Spell(item.doc) + (item.after + rest)), acc, v, item.after + rest);
    ItemsSkip(rest[1..], acc + [v]);
  }

  lemma {:induction false} ItemsRead(items: seq<Item>, t: Bytes, acc: seq<Value>) returns (vs: seq<Value>)
    requires items != [] && forall i :: 0 <= i < |items| ==> WellFormedItem(items[i])
    ensures ParseItems(SpellItems(items) + ([93] + t), acc) == Ok(Some(Array(acc + vs)), t)
    ensures |vs| == |items| && forall i :: 0 <= i < |items| ==> ItemMeans(items[i], vs[i])
    decreases items, 2
  {
    hide *;
    var rest := ItemFirst(items, [93] + t);
    ByteFirst(93, t);
    ByteFirst(44, SpellItems(items[1..]) + ([93] + t));
    var v := ItemRead(items[0], rest, acc);
    ItemMeansIs(items[0], v);
    if |items| == 1 {
      vs := [v];
    } else {
      var more := ItemsRead(items[1..], t, acc + [v]);
      vs := [v] + more;
      Associates(acc, [v], more);
      ItemsMean(items, v, more);
    }
  }

  lemma {:induction false} ItemsMean(items: seq<Item>, v: Value, vs: seq<Value>)
    requires items != [] && |vs| == |items| - 1 && forall i :: 0 <= i < |items| ==> WellFormedItem(items[i])
    requires ItemMeans(items[0], v) && forall i :: 0 <= i < |vs| ==> ItemMeans(items[1..][i], vs[i])
    ensures forall i :: 0 <= i < |items| ==> ItemMeans(items[i], ([v] + vs)[i])
  {
    hide *;
    forall i | 0 <= i < |items|
      ensures ItemMeans(items[i], ([v] + vs)[i])
    {
      if i > 0 {
        assert items[i] == items[1..][i - 1];
      }
    }
  }

  lemma {:induction false} Associates<T>(a: seq<T>, b: seq<T>, c: seq<T>)
    ensures a + b + c == a + (b + c)
  {
  }

  lemma {:induction false} ByteFirst(b: Byte, t: Bytes)
    ensures Head([b] + t) == b && ([b] + t)[1..] == t
  {
  }

  lemma {:induction false} ItemMeansIs(item: Item, v: Value)
    requires WellFormedItem(item) && WellFormed(item.doc) && Means(item.doc, v)
    ensures ItemMeans(item, v)
  {
    hide Means, WellFormed;
  }

  // ---------------------------------------------------------------- members

  /** Where a key leaves the parser, and the name it gives. */
  lemma {:induction false} KeyRead(k: Key, t: Bytes) returns (name: Option<Bytes>)
    requires WellFormedKey(k)
    ensures KeyMeans(k, name) && Head(KeyText(k) + t) == QUOTE > 32
    ensures var raw := RawString((KeyText(k) + t)[1..], []);
            if name.Some? then raw.Text? && raw.rest == t && name.value == CString(raw.buf) else raw == Bad(t)
  {
    hide RawString, SpelledAll, StandsAll, CString, BrokenEnd, Legal;
    if k.Key? {
      name := WholeKeyRead(k, t);
    } else {
      BrokenRead(k.us, k.digits, k.stray, t, []);
      assert (KeyText(k) + t)[1..] == SpelledAll(k.us) + (BrokenEnd(k.digits, k.stray) + t);
      name := None;
    }
  }

  lemma {:induction false} WholeKeyRead(k: Key, t: Bytes) returns (name: Option<Bytes>)
    requires WellFormedKey(k) && k.Key?
    ensures KeyMeans(k, name) && name.Some?
    ensures var raw := RawString((KeyText(k) + t)[1..], []);
            raw.Text? && raw.rest == t && name.value == CString(raw.buf)
  {
    hide RawString, SpelledAll, StandsAll, CString, Legal;
    var text := SpelledStringRead(k.us, t, []);
    assert (KeyText(k) + t)[1..] == SpelledAll(k.us) + [QUOTE] + t;
    assert [] + text == text;
    name := Some(CString(text));
  }

  lemma {:induction false} BrokenRead(us: seq<Unit>, digits: seq<Nibble>, stray: Byte, t: Bytes, buf: Bytes)
    requires WellFormedKey(Broken(us, digits, stray))
    ensures RawString(SpelledAll(us) + (BrokenEnd(digits, stray) + t), buf) == Bad(t)
    decreases |us|
  {
    hide RawString, Spelled, BrokenEnd;
    var end := BrokenEnd(digits, stray) + t;
    if us == [] {
      assert SpelledAll(us) + end == end;
      BrokenAt(digits, stray, t, buf);
    } else {
      var rest := SpelledAll(us[1..]) + end;
      assert SpelledAll(us) + end == Spelled(us[0]) + rest;
      var part := UnitRead(us[0], rest, buf);
      BrokenRead(us[1..], digits, stray, t, buf + part);
    }
  }

  lemma {:induction false} BrokenAt(digits: seq<Nibble>, stray: Byte, t: Bytes, buf: Bytes)
    requires |digits| < 4 && (forall i :: 0 <= i < |digits| ==> Digit(digits[i]))
    requires stray !in LOWER && stray !in UPPER
    ensures RawString(BrokenEnd(digits, stray) + t, buf) == Bad(t)
  {
    hide NibbleText, ParseHex4;
    var s := BrokenEnd(digits, stray) + t;
    assert s[2..] == NibbleText(digits) + ([stray] + t);
    StrayStops(digits, stray, t, 4, 0);
  }

  lemma {:induction false} StrayStops(digits: seq<Nibble>, stray: Byte, t: Bytes, count: nat, acc: nat)
    requires |digits| < count && (forall i :: 0 <= i < |digits| ==> Digit(digits[i]))
    requires stray !in LOWER && stray !in UPPER
    ensures ParseHex4(NibbleText(digits) + ([stray] + t), count, acc) == NotHex(t)
    decreases |digits|
  {
    hide DigitByte, HexValue;
    if digits == [] {
      var s := [stray] + t;
      assert NibbleText(digits) + s == s && s[1..] == t;
      StrayValue(stray);
    } else {
      var rest := NibbleText(digits[1..]) + ([stray] + t);
      assert NibbleText(digits) + ([stray] + t) == [DigitByte(digits[0])] + rest;
      DigitRead(digits[0], rest, count, acc);
      StrayStops(digits[1..], stray, t, count - 1, acc * 16 + digits[0].value);
    }
  }

  lemma {:induction false} StrayValue(c: Byte)
    ensures HexValue(c) < 0 <==> c !in LOWER && c !in UPPER
  {
    if HexValue(c) >= 0 {
      var n := NibbleOf(c);
    } else {
      assert forall i :: 0 <= i < 16 ==> LOWER[i] != c && UPPER[i] != c;
    }
  }

  lemma {:induction false} NibbleOf(c: Byte) returns (n: Nibble)
    requires HexValue(c) >= 0
    ensures Digit(n) && DigitByte(n) == c && n.value == HexValue(c)
    ensures c in LOWER || c in UPPER
  {
    n := Nibble(HexValue(c), c < 97);
  }

  lemma {:induction false} EntriesStep(s: Bytes, entries: seq<Entry>, name: Option<Bytes>, r: Bytes)
    requires Head(SkipWs(s)) == QUOTE
    requires var raw := RawString(SkipWs(s)[1..], []);
             if name.Some? then raw.Text? && raw.rest == r && name.value == CString(raw.buf) else raw == Bad(r)
    ensures ParseEntries(s, entries) == ParseMember(r, name, entries)
  {
    hide RawString, SkipWs, ParseMember;
  }

  lemma {:induction false} MemberStep(s: Bytes, name: Option<Bytes>, entries: seq<Entry>, u: Bytes, v: Value, r: Bytes)
    requires SkipWs(s) == [58] + u && ParseValue(SkipWs(u)) == Ok(Some(v), r)
    ensures var q, now := SkipWs(r), if name.Some? then SetEntry(entries, name.value, v) else entries;
            ParseMember(s, name, entries)
            == if Head(q) == 44 then ParseEntries(SkipWs(q[1..]), now)
               else if Head(q) == 125 then Ok(Some(Object(now)), q[1..])
               else Err(ExpectedObjectEnd)
  {
    hide SkipWs, ParseValue, ParseEntries, SetEntry;
    assert ([58] + u)[1..] == u;
  }

  lemma {:induction false} EntriesSkip(t: Bytes, entries: seq<Entry>)
    ensures ParseEntries(SkipWs(t), entries) == ParseEntries(t, entries)
  {
    SkipNothing(SkipWs(t));
  }

  /** The first member and what is behind it. */
  lemma {:induction false} MemberFirst(ms: seq<Member>, t: Bytes) returns (rest: Bytes)
    requires ms != [] && forall i :: 0 <= i < |ms| ==> WellFormedMember(ms[i])
    ensures rest == if |ms| == 1 then t else [44] + (SpellMembers(ms[1..]) + t)
    ensures SpellMembers(ms) + t == SpellMember(ms[0]) + rest
  {
    hide *;
    rest := if |ms| == 1 then t else [44] + (SpellMembers(ms[1..]) + t);
    MembersText(ms);
    if |ms| > 1 {
      var first, more := SpellMember(ms[0]), SpellMembers(ms[1..]);
      Associates(first + [44], more, t);
      Associates(first, [44], more + t);
    }
  }

  lemma {:induction false} MembersText(ms: seq<Member>)
    requires ms != [] && forall i :: 0 <= i < |ms| ==> WellFormedMember(ms[i])
    ensures SpellMembers(ms)
         == if |ms| == 1 then SpellMember(ms[0]) else SpellMember(ms[0]) + [44] + SpellMembers(ms[1..])
  {
    hide SpellMember, WellFormedMember;
  }

  lemma {:induction false} MemberText(m: Member, rest: Bytes)
    requires WellFormedMember(m)
    ensures var item := m.item;
            && WellFormedKey(m.key) && Blank(m.before) && Blank(m.between) && WellFormedItem(item)
            && WellFormed(item.doc) && Closed(item.doc) && Blank(item.before) && Blank(item.after)
            && SpellMember(m) + rest
               == m.before + (KeyText(m.key)
                              + (m.between + ([58] + (item.before + (Spell(item.doc) + (item.after + rest))))))
  {
    hide Spell, WellFormed, KeyText, WellFormedKey;
  }

  lemma {:induction false} MemberRead(m: Member, rest: Bytes, entries: seq<Entry>)
    returns (name: Option<Bytes>, v: Value)
    requires WellFormedMember(m) && (Head(rest) == 44 || Head(rest) == 125)
    ensures MemberMeans(m, name, v)
    ensures var now := if name.Some? then SetEntry(entries, name.value, v) else entries;
            ParseEntries(SpellMember(m) + rest, entries)
            == if Head(rest) == 44 then ParseEntries(rest[1..], now) else Ok(Some(Object(now)), rest[1..])
    decreases m, 1
  {
    hide *;
    MemberText(m, rest);
    var item := m.item;
    StopsAt(rest);
    StopsBehind(item.after, rest);
    var v' := ValueRead(item.doc, item.after + rest);
    v := v';
    var u := item.before + (Spell(item.doc) + (item.after + rest));
    SpellHead(item.doc, item.after + rest);
    SkipTo(item.before, Spell(item.doc) + (item.after + rest));
    SkipTo(item.after, rest);
    var behind := m.between + ([58] + u);
    ByteFirst(58, u);
    SkipTo(m.between, [58] + u);
    name := KeyRead(m.key, behind);
    SkipTo(m.before, KeyText(m.key) + behind);
    EntriesStep(SpellMember(m) + rest, entries, name, behind);
    MemberStep(behind, name, entries, u, v, item.after + rest);
    var now := if name.Some? then SetEntry(entries, name.value, v) else entries;
    EntriesSkip(rest[1..], now);
    MemberMeansIs(m, name, v);
  }

  lemma {:induction false} StopsAt(t: Bytes)
    requires Head(t) == 44 || Head(t) == 125 || Head(t) == 93
    ensures Stops(t) && t != []
  {
  }

  lemma {:induction false} MemberMeansIs(m: Member, name: Option<Bytes>, v: Value)
    requires WellFormedMember(m) && WellFormedKey(m.key) && KeyMeans(m.key, name)
    requires WellFormedItem(m.item) && WellFormed(m.item.doc) && Means(m.item.doc, v)
    ensures MemberMeans(m, name, v)
  {
    hide Means, WellFormed, WellFormedKey, KeyMeans;
  }

  lemma {:induction false} MembersRead(ms: seq<Member>, t: Bytes, names: seq<Option<Bytes>>, values: seq<Value>,
                                       entries: seq<Entry>)
    returns (names': seq<Option<Bytes>>, values': seq<Value>, entries': seq<Entry>)
    requires ms != [] && forall i :: 0 <= i < |ms| ==> WellFormedMember(ms[i])
    requires |names| == |values| && Collected(names, values, entries)
    ensures ParseEntries(SpellMembers(ms) + ([125] + t), entries) == Ok(Some(Object(entries')), t)
    ensures |names'| == |ms| == |values'| && Collected(names + names', values + values', entries')
    ensures forall i :: 0 <= i < |ms| ==> MemberMeans(ms[i], names'[i], values'[i])
    decreases ms, 2
  {
    hide *;
    var rest := MemberFirst(ms, [125] + t);
    ByteFirst(125, t);
    ByteFirst(44, SpellMembers(ms[1..]) + ([125] + t));
    var name, v := MemberRead(ms[0], rest, entries);
    var now := if name.Some? then SetEntry(entries, name.value, v) else entries;
    CollectedNext(names, values, entries, name, v);
    if |ms| == 1 {
      names', values', entries' := [name], [v], now;
    } else {
      var ns, vs;
      ns, vs, entries' := MembersRead(ms[1..], t, names + [name], values + [v], now);
      names', values' := [name] + ns, [v] + vs;
      Associates(names, [name], ns);
      Associates(values, [v], vs);
      MembersMean(ms, name, v, ns, vs);
    }
  }

  lemma {:induction false} MembersMean(ms: seq<Member>, name: Option<Bytes>, v: Value, ns: seq<Option<Bytes>>,
                                       vs: seq<Value>)
    requires ms != [] && |ns| == |vs| == |ms| - 1 && forall i :: 0 <= i < |ms| ==> WellFormedMember(ms[i])
    requires MemberMeans(ms[0], name, v) && forall i :: 0 <= i < |ns| ==> MemberMeans(ms[1..][i], ns[i], vs[i])
    ensures forall i :: 0 <= i < |ms| ==> MemberMeans(ms[i], ([name] + ns)[i], ([v] + vs)[i])
  {
    hide *;
    forall i | 0 <= i < |ms|
      ensures MemberMeans(ms[i], ([name] + ns)[i], ([v] + vs)[i])
    {
      if i > 0 {
        assert ms[i] == ms[1..][i - 1];
      }
    }
  }

  lemma {:induction false} MembersHead(ms: seq<Member>, t: Bytes)
    requires ms != [] && forall i :: 0 <= i < |ms| ==> WellFormedMember(ms[i])
    ensures Head(SkipWs(SpellMembers(ms) + t)) == QUOTE
  {
    hide Spell, SkipWs, WellFormed, SpellMembers, SpellMember, KeyText;
    var rest := MemberFirst(ms, t);
    var m := ms[0];
    MemberText(m, rest);
    var item := m.item;
    var behind := m.between + ([58] + (item.before + (Spell(item.doc) + (item.after + rest))));
    var name := KeyRead(m.key, behind);
    SkipTo(m.before, KeyText(m.key) + behind);
  }

  lemma {:induction false} RecordRead(ms: seq<Member>, t: Bytes) returns (v: Value)
    requires WellFormed(Record(ms))
    ensures ParseValue(Spell(Record(ms)) + t) == Ok(Some(v), t) && Means(Record(ms), v)
    decreases Record(ms), 0
  {
    hide SkipWs, SpellMembers, ParseEntries, WellFormedMember, MemberMeans, Collected;
    var s, inner := Spell(Record(ms)) + t, SpellMembers(ms) + ([125] + t);
    assert s[1..] == inner && s[0] == 123;
    SkipNothing(s);
    assert Collected([], [], []) by { NothingCollected(); }
    var names, values, entries := MembersRead(ms, t, [], [], []);
    assert [] + names == names && [] + values == values;
    EntriesSkip(inner, []);
    MembersHead(ms, [125] + t);
    v := Object(entries);
  }

  lemma {:induction false} NothingCollected()
    ensures Collected([], [], [])
  {
  }

  // ---------------------------------------------------------------- what is accepted is a document

  lemma {:induction false} NulFreeBehind(a: Bytes, b: Bytes)
    requires NulFree(a + b)
    ensures NulFree(b)
  {
    forall i | 0 <= i < |b|
      ensures b[i] != 0
    {
      assert (a + b)[|a| + i] == b[i];
    }
  }

  lemma {:induction false} BlankBefore(t: Bytes) returns (b: Bytes)
    ensures Blank(b) && t == b + SkipWs(t)
    decreases |t|
  {
    b := [];
    if t != [] && 0 < t[0] <= 32 {
      var more := BlankBefore(t[1..]);
      b := [t[0]] + more;
      assert t == [t[0]] + t[1..];
    } else {
      assert [] + t == t;
    }
  }

  lemma {:induction false} TwoBlanks(a: Bytes, b: Bytes)
    requires Blank(a) && Blank(b)
    ensures Blank(a + b)
  {
  }

  lemma {:induction false} NothingBehind(t: Bytes)
    requires NulFree(t) && Head(SkipWs(t)) == 0
    ensures Blank(t)
  {
    var b := BlankBefore(t);
    NulFreeBehind(b, SkipWs(t));
    assert b + [] == b;
  }

  lemma {:induction false} HexSpelled(t: Bytes, count: nat, acc: nat) returns (ds: seq<Nibble>)
    requires ParseHex4(t, count, acc).Code?
    ensures |ds| == count && forall i :: 0 <= i < |ds| ==> Digit(ds[i])
    ensures t == NibbleText(ds) + ParseHex4(t, count, acc).rest
    decreases count
  {
    hide DigitByte, HexValue, NibbleText;
    if count == 0 {
      ds := [];
      NoNibbles();
      assert [] + t == t;
    } else {
      var n := NibbleOf(t[0]);
      var more := HexSpelled(t[1..], count - 1, acc * 16 + HexValue(t[0]));
      ds := NibblesCons(n, more, t, ParseHex4(t, count, acc).rest);
    }
  }

  lemma {:induction false} NoNibbles()
    ensures NibbleText([]) == []
  {
  }

  lemma {:induction false} NibblesCons(n: Nibble, more: seq<Nibble>, t: Bytes, rest: Bytes) returns (ds: seq<Nibble>)
    requires Digit(n) && forall i :: 0 <= i < |more| ==> Digit(more[i])
    requires t != [] && t[0] == DigitByte(n) && t[1..] == NibbleText(more) + rest
    ensures |ds| == |more| + 1 && (forall i :: 0 <= i < |ds| ==> Digit(ds[i])) && t == NibbleText(ds) + rest
  {
    hide DigitByte, Digit;
    ds := [n] + more;
    assert ds[1..] == more;
    assert t == [t[0]] + t[1..];
  }

  lemma {:induction false} HexBroken(t: Bytes, count: nat, acc: nat) returns (ds: seq<Nibble>, stray: Byte)
    requires ParseHex4(t, count, acc).NotHex?
    ensures |ds| < count && forall i :: 0 <= i < |ds| ==> Digit(ds[i])
    ensures stray !in LOWER && stray !in UPPER
    ensures t == NibbleText(ds) + ([stray] + ParseHex4(t, count, acc).rest)
    decreases count
  {
    hide DigitByte, HexValue, NibbleText;
    StrayValue(t[0]);
    if HexValue(t[0]) < 0 {
      ds, stray := [], t[0];
      NoNibbles();
      assert [] + t == t == [t[0]] + t[1..];
    } else {
      var n := NibbleOf(t[0]);
      var more;
      more, stray := HexBroken(t[1..], count - 1, acc * 16 + HexValue(t[0]));
      ds := NibblesCons(n, more, t, [stray] + ParseHex4(t, count, acc).rest);
    }
  }

  /** The first unit of a string that goes on, and what is behind it. */
  lemma {:induction false} UnitSpelled(t: Bytes, buf: Bytes) returns (u: Unit, t': Bytes, buf': Bytes)
    requires NulFree(t) && t != [] && t[0] != QUOTE && (RawString(t, buf).Text? || RawString(t, buf).Bad?)
    requires !BreaksHere(t)
    ensures Legal(u) && t == Spelled(u) + t' && |t'| < |t| && RawString(t, buf) == RawString(t', buf')
  {
    hide DigitByte, Utf8;
    if t[0] != BACKSLASH {
      u, t', buf' := Itself(t[0]), t[1..], buf + [t[0]];
    } else if t[1] != 117 {
      u, t', buf' := Short(t[1]), t[2..], buf + [Unescaped(t[1])];
      assert t == [t[0], t[1]] + t[2..];
    } else {
      var ds := HexSpelled(t[2..], 4, 0);
      FourNibbles(ds);
      u := Coded(ds[0], ds[1], ds[2], ds[3]);
      t', buf' := ParseHex4(t[2..], 4, 0).rest, buf + Utf8(ParseHex4(t[2..], 4, 0).cp);
      assert t == [BACKSLASH, 117] + t[2..];
      assert Spelled(u) == [BACKSLASH, 117] + NibbleText(ds);
    }
  }

  lemma {:induction false} FourNibbles(ds: seq<Nibble>)
    requires |ds| == 4 && forall i :: 0 <= i < |ds| ==> Digit(ds[i])
    ensures NibbleText(ds) == [DigitByte(ds[0]), DigitByte(ds[1]), DigitByte(ds[2]), DigitByte(ds[3])]
  {
    hide DigitByte;
    var d1, d2, d3 := ds[1..], ds[2..], ds[3..];
    assert d1[1..] == d2 && d2[1..] == d3 && d3[1..] == [];
    assert NibbleText(d3) == [DigitByte(ds[3])] + NibbleText([]);
    assert NibbleText(d2) == [DigitByte(ds[2])] + NibbleText(d3);
    assert NibbleText(d1) == [DigitByte(ds[1])] + NibbleText(d2);
  }

  lemma {:induction false} RawSpelled(t: Bytes, buf: Bytes) returns (us: seq<Unit>, closed: bool)
    requires NulFree(t) && RawString(t, buf).Text?
    ensures LegalAll(us) && (!closed ==> RawString(t, buf).rest == [])
    ensures t == SpelledAll(us) + ((if closed then [QUOTE] else []) + RawString(t, buf).rest)
    decreases |t|
  {
    hide Spelled, Legal;
    if t == [] || t[0] == QUOTE {
      us, closed := [], t != [];
      assert closed ==> t == [QUOTE] + t[1..];
    } else {
      var u, t', buf' := UnitSpelled(t, buf);
      NulFreeBehind(Spelled(u), t');
      us, closed := RawSpelled(t', buf');
      us := UnitsCons(u, us);
    }
  }

  lemma {:induction false} UnitsCons(u: Unit, rest: seq<Unit>) returns (us: seq<Unit>)
    requires Legal(u) && LegalAll(rest)
    ensures us == [u] + rest && LegalAll(us) && SpelledAll(us) == Spelled(u) + SpelledAll(rest)
  {
    us := [u] + rest;
    assert us[1..] == rest;
  }

  lemma {:induction false} RawBroken(t: Bytes, buf: Bytes) returns (k: Key)
    requires NulFree(t) && RawString(t, buf).Bad?
    ensures WellFormedKey(k) && k.Broken?
    ensures t == SpelledAll(k.us) + (BrokenEnd(k.digits, k.stray) + RawString(t, buf).rest)
    decreases |t|
  {
    hide Spelled, Legal, BrokenEnd, ParseHex4, Utf8, NulFree;
    if BreaksHere(t) {
      k := BrokenHere(t, buf);
      var end := BrokenEnd(k.digits, k.stray) + RawString(t, buf).rest;
      assert SpelledAll([]) + end == end;
    } else {
      var u, t', buf' := UnitSpelled(t, buf);
      NulFreeBehind(Spelled(u), t');
      var k' := RawBroken(t', buf');
      var us := UnitsCons(u, k'.us);
      k := Broken(us, k'.digits, k'.stray);
    }
  }

  predicate BreaksHere(t: Bytes) {
    |t| > 1 && t[0] == BACKSLASH && t[1] == 117 && ParseHex4(t[2..], 4, 0).NotHex?
  }

  lemma {:induction false} BrokenHere(t: Bytes, buf: Bytes) returns (k: Key)
    requires BreaksHere(t)
    ensures WellFormedKey(k) && k.Broken? && k.us == []
    ensures RawString(t, buf).Bad? && t == BrokenEnd(k.digits, k.stray) + RawString(t, buf).rest
  {
    hide NibbleText, ParseHex4;
    var ds, stray := HexBroken(t[2..], 4, 0);
    k := Broken([], ds, stray);
    assert t == [BACKSLASH, 117] + t[2..];
  }

  lemma {:induction false} RunOfDigits(t: Bytes)
    ensures AllDigits(t[..DigitRun(t)])
    decreases |t|
  {
    if t != [] && IsDigit(t[0]) {
      RunOfDigits(t[1..]);
      assert t[..DigitRun(t)] == [t[0]] + t[1..][..DigitRun(t[1..])];
    }
  }

  /** Whatever the parser takes for a number is spelled like one. */
  lemma {:induction false} NumberSpelled(t: Bytes) returns (x: Numeral)
    requires Head(t) == 45 || IsDigit(Head(t))
    ensures WellSpelled(x) && SpelledNumber(x) == t[..NumberLength(t)]
  {
    hide DigitRun, IntegerEnd, FractionEnd, NumberLength, SpelledExponent, SpelledNumber;
    var sign := if Head(t) == 45 then 1 else 0;
    var i, f, n := IntegerEnd(t), FractionEnd(t), NumberLength(t);
    IntegerSpelled(t);
    var fraction := FractionSpelled(t);
    var exponent := ExponentSpelled(t);
    x := Numeral(sign == 1, t[sign..i], fraction, exponent);
    assert t[..sign] == Sign(x) && t[i..f] == Point(x) && t[f..n] == Tail(x);
    Joined(t, sign, i, f, n);
    NumberJoined(x);
  }

  lemma {:induction false} Joined(t: Bytes, a: nat, b: nat, c: nat, d: nat)
    requires a <= b <= c <= d <= |t|
    ensures t[..d] == t[..a] + t[a..b] + t[b..c] + t[c..d]
  {
  }

  lemma {:induction false} NumberJoined(x: Numeral)
    ensures SpelledNumber(x) == Sign(x) + x.whole + Point(x) + Tail(x)
  {
    hide Sign, Point, Tail;
  }

  lemma {:induction false} IntegerSpelled(t: Bytes)
    requires Head(t) == 45 || IsDigit(Head(t))
    ensures var (i, sign) := (IntegerEnd(t), if Head(t) == 45 then 1 else 0);
            sign <= i && AllDigits(t[sign..i]) && (sign == 0 ==> t[sign..i] != [])
  {
    hide DigitRun;
    var i, sign := IntegerEnd(t), if Head(t) == 45 then 1 else 0;
    RunOfDigits(t[sign..]);
    assert t[sign..][..i - sign] == t[sign..i];
    if sign == 0 {
      FirstDigitRuns(t);
      assert t[0..] == t;
    }
  }

  lemma {:induction false} FractionSpelled(t: Bytes) returns (fraction: Option<Bytes>)
    ensures fraction.Some? ==> AllDigits(fraction.value)
    ensures t[IntegerEnd(t)..FractionEnd(t)] == if fraction.Some? then [46] + fraction.value else []
  {
    hide DigitRun, IntegerEnd;
    var i, f := IntegerEnd(t), FractionEnd(t);
    fraction := None;
    if f > i {
      RunOfDigits(t[i + 1..]);
      assert t[i + 1..][..f - i - 1] == t[i + 1..f];
      fraction := Some(t[i + 1..f]);
    }
  }

  lemma {:induction false} FirstDigitRuns(t: Bytes)
    requires IsDigit(Head(t))
    ensures DigitRun(t) > 0
  {
  }

  lemma {:induction false} ExponentSpelled(t: Bytes) returns (e: Option<Exponent>)
    ensures var (f, n) := (FractionEnd(t), NumberLength(t));
            && n >= f
            && (e.Some? ==> AllDigits(e.value.digits) && !(e.value.plus && e.value.minus))
            && t[f..n] == if e.Some? then SpelledExponent(e.value) else []
  {
    hide DigitRun, FractionEnd, SpelledExponent;
    var f, n := FractionEnd(t), NumberLength(t);
    e := None;
    if Head(t[f..]) == 101 || Head(t[f..]) == 69 {
      var c := Head(t[f + 1..]);
      var d := if c == 43 || c == 45 then f + 2 else f + 1;
      RunOfDigits(t[d..]);
      assert t[d..][..n - d] == t[d..n];
      var x := Exponent(t[f] == 69, c == 43, c == 45, t[d..n]);
      ExponentIs(x);
      ExponentPieces(t, f, d, n);
      e := Some(x);
    }
  }

  lemma {:induction false} ExponentPieces(t: Bytes, f: nat, d: nat, n: nat)
    requires f < d <= n <= |t| && d <= f + 2
    ensures t[f..n] == [t[f]] + (if d == f + 2 then [t[f + 1]] else []) + t[d..n]
  {
  }

  lemma {:induction false} ExponentIs(e: Exponent)
    ensures SpelledExponent(e)
         == [if e.upper then 69 else 101] + (if e.plus then [43] else if e.minus then [45] else []) + e.digits
  {
  }

  lemma {:induction false} ValueSpelled(t: Bytes) returns (b: Bytes, d: Doc)
    requires NulFree(t) && ParseValue(t).Ok? && ParseValue(t).v.Some?
    ensures Blank(b) && WellFormed(d) && (Closed(d) || ParseValue(t).rest == [])
    ensures t == b + (Spell(d) + ParseValue(t).rest)
    decreases |t|, 3
  {
    hide SkipWs, ParseNumber, ParseString, ParseArray, ParseObject, NulFree, Blank, Spell, WellFormed;
    b := BlankBefore(t);
    var s := SkipWs(t);
    NulFreeBehind(b, s);
    var c := Head(s);
    if c == 110 {
      d := WordSpelled(s, NullWord);
    } else if c == 116 {
      d := WordSpelled(s, TrueWord);
    } else if c == 102 {
      d := WordSpelled(s, FalseWord);
    } else if c == QUOTE {
      d := StringSpelled(s);
    } else if c == 91 {
      d := ArraySpelled(s);
    } else if c == 123 {
      d := ObjectSpelled(s);
    } else {
      d := NumeralSpelled(s);
    }
  }

  lemma {:induction false} WordSpelled(s: Bytes, w: Word) returns (d: Doc)
    requires WordText(w) <= s
    ensures WellFormed(d) && Closed(d) && s == Spell(d) + s[|WordText(w)|..]
  {
    d := Literal(w);
  }

  lemma {:induction false} StringSpelled(s: Bytes) returns (d: Doc)
    requires NulFree(s) && Head(s) == QUOTE && ParseString(s).Ok?
    ensures WellFormed(d) && (Closed(d) || ParseString(s).rest == []) && s == Spell(d) + ParseString(s).rest
  {
    hide RawString, SpelledAll;
    assert s == [QUOTE] + s[1..];
    NulFreeBehind([QUOTE], s[1..]);
    var us, closed := RawSpelled(s[1..], []);
    d := Quoted(us, closed);
  }

  lemma {:induction false} NumeralSpelled(s: Bytes) returns (d: Doc)
    requires (Head(s) == 45 || IsDigit(Head(s))) && ParseNumber(s).Ok?
    ensures WellFormed(d) && Closed(d) && s == Spell(d) + ParseNumber(s).rest
  {
    hide NumberLength, WellSpelled, SpelledNumber;
    var x := NumberSpelled(s);
    d := Number(x);
  }

  lemma {:induction false} ArraySpelled(s: Bytes) returns (d: Doc)
    requires NulFree(s) && Head(s) == 91 && ParseArray(s).Ok?
    ensures WellFormed(d) && Closed(d) && s == Spell(d) + ParseArray(s).rest
    decreases |s|, 2
  {
    hide SkipWs, ParseItems, NulFree, Blank, SpellItems, WellFormedItem;
    assert s == [91] + s[1..];
    NulFreeBehind([91], s[1..]);
    var b := BlankBefore(s[1..]);
    var q := SkipWs(s[1..]);
    if Head(q) == 93 {
      d := EmptyList(b);
      assert q == [93] + q[1..];
    } else {
      ItemsSkip(s[1..], []);
      var items := ItemsSpelled(s[1..], []);
      d := List(items);
    }
  }

  lemma {:induction false} ItemsSpelled(t: Bytes, acc: seq<Value>) returns (items: seq<Item>)
    requires NulFree(t) && ParseItems(t, acc).Ok?
    ensures items != [] && forall i :: 0 <= i < |items| ==> WellFormedItem(items[i])
    ensures t == SpellItems(items) + ([93] + ParseItems(t, acc).rest)
    decreases |t|, 5
  {
    hide SkipWs, ParseItems, ParseValue, NulFree, Blank, Spell, WellFormed, SpellItems, WellFormedItem, SpellItem;
    var v, r := ItemParsed(t, acc);
    ItemsStep(t, acc, v, r);
    var q := SkipWs(r);
    var item := ItemSpelled(t, v, r);
    assert q == [q[0]] + q[1..];
    ItemText(item);
    ItemsText([item]);
    if q[0] == 44 {
      ItemsSkip(q[1..], acc + [v]);
      NulFreeBehind([44], q[1..]);
      var more := ItemsSpelled(q[1..], acc + [v]);
      items := ItemsCons(item, more);
    } else {
      items := [item];
    }
  }

  lemma {:induction false} EndCloses(r: Bytes)
    requires Head(SkipWs(r)) != 0
    ensures r != []
  {
  }

  lemma {:induction false} ItemsCons(item: Item, more: seq<Item>) returns (items: seq<Item>)
    requires WellFormedItem(item) && more != [] && forall i :: 0 <= i < |more| ==> WellFormedItem(more[i])
    ensures items != [] && forall i :: 0 <= i < |items| ==> WellFormedItem(items[i])
    ensures SpellItems(items) == SpellItem(item) + [44] + SpellItems(more)
  {
    hide SpellItem, WellFormedItem;
    items := [item] + more;
    assert items[1..] == more;
    ItemsText(items);
  }

  /** An item that leads to an array is a value, and a comma or the bracket is behind it. */
  lemma {:induction false} ItemParsed(t: Bytes, acc: seq<Value>) returns (v: Value, r: Bytes)
    requires ParseItems(t, acc).Ok?
    ensures ParseValue(SkipWs(t)) == Ok(Some(v), r) && (Head(SkipWs(r)) == 44 || Head(SkipWs(r)) == 93)
    ensures |r| <= |t|
  {
    hide ParseValue, SkipWs;
    var p := ParseValue(SkipWs(t));
    r := p.rest;
    if p.v.None? {
      NoValueNoEnd(SkipWs(t));
    }
    v := p.v.value;
  }

  lemma {:induction false} NoValueNoEnd(t: Bytes)
    requires ParseValue(t).Ok? && ParseValue(t).v.None?
    ensures Head(SkipWs(ParseValue(t).rest)) == 0
  {
    hide ParseLiteral, ParseNumber, ParseString, ParseItems, ParseEntries;
    SkipNothing(SkipWs(t));
    AlwaysSome(SkipWs(t));
  }

  /** Only the end of the input is no value and no error. */
  lemma {:induction false} AlwaysSome(t: Bytes)
    requires ParseValue(t).Ok? && ParseValue(t).v.None?
    ensures Head(SkipWs(t)) == 0
  {
    hide SkipWs, ParseItems, ParseEntries;
    var s := SkipWs(t);
    if Head(s) == 91 {
      ItemsSome(SkipWs(s[1..]), []);
    } else if Head(s) == 123 {
      EntriesSome(SkipWs(s[1..]), []);
    }
  }

  lemma {:induction false} ItemsSome(t: Bytes, items: seq<Value>)
    ensures ParseItems(t, items).Ok? ==> ParseItems(t, items).v.Some?
    decreases |t|
  {
    hide SkipWs, ParseValue;
    var p := ParseValue(SkipWs(t));
    if p.Ok? {
      var rest := SkipWs(p.rest);
      if Head(rest) == 44 {
        ItemsSome(SkipWs(rest[1..]), if p.v.Some? then items + [p.v.value] else items);
      }
    }
  }

  lemma {:induction false} EntriesSome(t: Bytes, entries: seq<Entry>)
    ensures ParseEntries(t, entries).Ok? ==> ParseEntries(t, entries).v.Some?
    decreases |t|, 0
  {
    hide SkipWs, RawString, ParseMember;
    var s := SkipWs(t);
    if Head(s) == QUOTE {
      var raw := RawString(s[1..], []);
      if raw.Bad? {
        MemberSome(raw.rest, None, entries);
      } else if raw.Text? {
        MemberSome(raw.rest, Some(CString(raw.buf)), entries);
      }
    }
  }

  lemma {:induction false} MemberSome(t: Bytes, name: Option<Bytes>, entries: seq<Entry>)
    ensures ParseMember(t, name, entries).Ok? ==> ParseMember(t, name, entries).v.Some?
    decreases |t|, 1
  {
    hide SkipWs, ParseValue, ParseEntries, SetEntry;
    var s := SkipWs(t);
    if Head(s) == 58 {
      var p := ParseValue(SkipWs(s[1..]));
      if p.Ok? {
        var rest := SkipWs(p.rest);
        if Head(rest) == 44 {
          EntriesSome(SkipWs(rest[1..]), if name.Some? && p.v.Some? then SetEntry(entries, name.value, p.v.value)
                                         else entries);
        }
      }
    }
  }

  lemma {:induction false} ObjectSpelled(s: Bytes) returns (d: Doc)
    requires NulFree(s) && Head(s) == 123 && ParseObject(s).Ok?
    ensures WellFormed(d) && Closed(d) && s == Spell(d) + ParseObject(s).rest
    decreases |s|, 2
  {
    hide SkipWs, ParseEntries, NulFree, Blank, SpellMembers, WellFormedMember;
    assert s == [123] + s[1..];
    NulFreeBehind([123], s[1..]);
    var b := BlankBefore(s[1..]);
    var q := SkipWs(s[1..]);
    if Head(q) == 125 {
      d := EmptyRecord(b);
      assert q == [125] + q[1..];
    } else {
      EntriesSkip(s[1..], []);
      var ms := EntriesSpelled(s[1..], []);
      d := Record(ms);
    }
  }

  /** A key that leads to an object. */
  lemma {:induction false} KeyParsed(t: Bytes, entries: seq<Entry>) returns (k: Key, name: Option<Bytes>, r: Bytes)
    requires NulFree(SkipWs(t)) && ParseEntries(t, entries).Ok?
    ensures WellFormedKey(k) && SkipWs(t) == KeyText(k) + r && |r| < |SkipWs(t)|
    ensures ParseEntries(t, entries) == ParseMember(r, name, entries)
  {
    hide RawString, SkipWs, ParseMember, SpelledAll, NulFree, BrokenEnd;
    var s := SkipWs(t);
    assert s == [QUOTE] + s[1..];
    NulFreeBehind([QUOTE], s[1..]);
    var raw := RawString(s[1..], []);
    if raw.Bad? {
      name, r := None, raw.rest;
      k := RawBroken(s[1..], []);
      assert s == KeyText(k) + r;
    } else {
      name, r := Some(CString(raw.buf)), raw.rest;
      var us, closed := RawSpelled(s[1..], []);
      NothingNoMember(name, entries);
      assert closed;
      k := Key(us);
    }
  }

  lemma {:induction false} NothingNoMember(name: Option<Bytes>, entries: seq<Entry>)
    ensures ParseMember([], name, entries) == Err(ExpectedColon)
  {
  }

  /** A colon, a value, and a comma or the bracket behind it. */
  lemma {:induction false} MemberParsed(t: Bytes, name: Option<Bytes>, entries: seq<Entry>)
    returns (u: Bytes, v: Value, r: Bytes)
    requires ParseMember(t, name, entries).Ok?
    ensures SkipWs(t) == [58] + u && ParseValue(SkipWs(u)) == Ok(Some(v), r)
    ensures Head(SkipWs(r)) == 44 || Head(SkipWs(r)) == 125
    ensures |u| < |t| && |r| <= |u|
  {
    hide ParseValue, SkipWs, SetEntry, ParseEntries;
    var s := SkipWs(t);
    u := s[1..];
    assert s == [58] + u;
    var p := ParseValue(SkipWs(u));
    r := p.rest;
    if p.v.None? {
      NoValueNoEnd(SkipWs(u));
    }
    v := p.v.value;
  }

  lemma {:induction false} EntriesSpelled(t: Bytes, entries: seq<Entry>) returns (ms: seq<Member>)
    requires NulFree(t) && ParseEntries(t, entries).Ok?
    ensures ms != [] && forall i :: 0 <= i < |ms| ==> WellFormedMember(ms[i])
    ensures t == SpellMembers(ms) + ([125] + ParseEntries(t, entries).rest)
    decreases |t|, 5
  {
    hide SkipWs, ParseEntries, ParseMember, ParseValue, NulFree, Blank, Spell, WellFormed, SpellMembers, KeyText;
    hide WellFormedKey, SetEntry;
    var b := BlankBefore(t);
    NulFreeBehind(b, SkipWs(t));
    var k, name, p := KeyParsed(t, entries);
    NulFreeBehind(KeyText(k), p);
    var u, v, r := MemberParsed(p, name, entries);
    MemberStep(p, name, entries, u, v, r);
    var between := BlankBefore(p);
    NulFreeBehind(between, [58] + u);
    NulFreeBehind([58], u);
    var item := ItemSpelled(u, v, r);
    var q := SkipWs(r);
    var m := Member(b, k, between, item);
    assert t == b + (KeyText(k) + (between + ([58] + (item.before + (Spell(item.doc) + (item.after + q))))));
    MemberText(m, q);
    assert t == SpellMember(m) + q;
    var now := if name.Some? then SetEntry(entries, name.value, v) else entries;
    if q[0] == 44 {
      EntriesSkip(q[1..], now);
      assert q == [44] + q[1..];
      NulFreeBehind([44], q[1..]);
      var more := EntriesSpelled(q[1..], now);
      ms := MembersCons(m, more);
      assert t == SpellMember(m) + [44] + SpellMembers(more) + ([125] + ParseEntries(t, entries).rest);
    } else {
      ms := [m];
      MembersText(ms);
      assert q == [125] + q[1..];
    }
  }

  lemma {:induction false} ItemSpelled(u: Bytes, v: Value, r: Bytes) returns (item: Item)
    requires NulFree(u) && ParseValue(SkipWs(u)) == Ok(Some(v), r) && Head(SkipWs(r)) != 0
    ensures WellFormedItem(item) && u == item.before + (Spell(item.doc) + (item.after + SkipWs(r)))
    ensures NulFree(SkipWs(r))
    decreases |u|, 4
  {
    hide SkipWs, ParseValue, NulFree, Blank, Spell, WellFormed;
    var b := BlankBefore(u);
    NulFreeBehind(b, SkipWs(u));
    var b', d := ValueSpelled(SkipWs(u));
    assert b' + Spell(d) + r == b' + (Spell(d) + r);
    NulFreeBehind(b' + Spell(d), r);
    TwoBlanks(b, b');
    var a := BlankBefore(r);
    NulFreeBehind(a, SkipWs(r));
    assert Closed(d) by { EndCloses(r); }
    item := Item(b + b', d, a);
    assert u == item.before + (Spell(d) + (a + SkipWs(r)));
  }

  lemma {:induction false} MembersCons(m: Member, more: seq<Member>) returns (ms: seq<Member>)
    requires WellFormedMember(m) && more != [] && forall i :: 0 <= i < |more| ==> WellFormedMember(more[i])
    ensures ms != [] && forall i :: 0 <= i < |ms| ==> WellFormedMember(ms[i])
    ensures SpellMembers(ms) == SpellMember(m) + [44] + SpellMembers(more)
  {
    hide SpellMember, WellFormedMember;
    ms := [m] + more;
    assert ms[1..] == more;
    MembersText(ms);
  }

  // ---------------------------------------------------------------- the whole input

  /** The input is a document between blanks. */
  ghost predicate Document(input: Bytes, b: Bytes, d: Doc, a: Bytes) {
    && Blank(b) && Blank(a) && WellFormed(d) && input == b + (Spell(d) + a)
    && (Closed(d) || a == [])
  }

  lemma {:induction false} DocumentParsed(input: Bytes, b: Bytes, d: Doc, a: Bytes)
    requires Document(input, b, d, a)
    ensures Parse(input).Success? && Means(d, Parse(input).value)
  {
    hide SkipWs, ParseValue, Spell, WellFormed, Means;
    SpellHead(d, a);
    StopsBehind(a, []);
    assert a + [] == a;
    var v := ValueRead(d, a);
    SkipTo(b, Spell(d) + a);
    SkipBlank(a, []);
    ValueSkip(input);
    NoneFirst(b, Spell(d) + a);
    assert SkipWs([]) == [] by { SkipNothing([]); }
  }

  lemma {:induction false} NoneFirst(b: Bytes, t: Bytes)
    requires Blank(b) && Head(t) != 0
    ensures Head(b + t) != 0
  {
    if b == [] {
      assert b + t == t;
    }
  }

  lemma {:induction false} ValueSkip(t: Bytes)
    ensures ParseValue(SkipWs(t)) == ParseValue(t)
  {
    hide ParseLiteral, ParseNumber, ParseString, ParseArray, ParseObject;
    SkipNothing(SkipWs(t));
  }

  /**
   The parser accepts a C string exactly if it is a document between blanks, and makes of it what the document means,
   however it is taken apart.
   */
  lemma {:induction false} Accepted(input: Bytes)
    requires NulFree(input)
    ensures Parse(input).Success? <==> exists b, d, a :: Document(input, b, d, a)
    ensures forall b, d, a :: Document(input, b, d, a) ==> Parse(input).Success? && Means(d, Parse(input).value)
  {
    hide SkipWs, ParseValue, Spell, WellFormed, Means, NulFree, Blank;
    if Parse(input).Success? {
      var b, d := ValueSpelled(input);
      var r := ParseValue(input).rest;
      assert b + Spell(d) + r == b + (Spell(d) + r);
      NulFreeBehind(b + Spell(d), r);
      NothingBehind(r);
      assert Document(input, b, d, r);
    }
    forall b, d, a | Document(input, b, d, a)
      ensures Parse(input).Success? && Means(d, Parse(input).value)
    {
      DocumentParsed(input, b, d, a);
    }
  }

  // ---------------------------------------------------------------- refusals

  /** Nothing, and nothing but blanks. */
  lemma {:induction false} RefusedEmpty(input: Bytes)
    requires Blank(input)
    ensures Parse(input) == Failure(if input == [] then EmptyInput else FailedToParse)
  {
    SkipBlank(input, []);
    assert input + [] == input;
  }

  /** A value that begins wrong, and the start of a word that is not the word. */
  lemma {:induction false} RefusedStart(b: Bytes, t: Bytes)
    requires Blank(b) && Head(t) > 32 && Head(t) != QUOTE && Head(t) != 91 && Head(t) != 123
    requires Head(t) != 45 && !IsDigit(Head(t)) && forall w :: !(WordText(w) <= t)
    ensures Parse(b + t)
         == Failure(if Head(t) == 110 then ExpectedNull else if Head(t) == 116 then ExpectedTrue
                    else if Head(t) == 102 then ExpectedFalse else UnexpectedCharacter)
  {
    SkipTo(b, t);
    NoneFirst(b, t);
    assert !(WordText(NullWord) <= t) && !(WordText(TrueWord) <= t) && !(WordText(FalseWord) <= t);
  }

  /** A string with a broken escape, and one that ends in a backslash, which is read past its end. */
  lemma {:induction false} RefusedString(us: seq<Unit>, digits: seq<Nibble>, stray: Byte, t: Bytes)
    requires WellFormedKey(Broken(us, digits, stray))
    ensures ParseValue([QUOTE] + (SpelledAll(us) + (BrokenEnd(digits, stray) + t))) == Err(InvalidString)
    ensures ParseValue([QUOTE] + (SpelledAll(us) + [BACKSLASH])) == Err(Overrun)
  {
    hide SkipWs, RawString, SpelledAll, BrokenEnd, Legal;
    var s, s' := SpelledAll(us) + (BrokenEnd(digits, stray) + t), SpelledAll(us) + [BACKSLASH];
    BrokenRead(us, digits, stray, t, []);
    EndsInBackslash(us, []);
    SkipNothing([QUOTE] + s);
    SkipNothing([QUOTE] + s');
    assert ([QUOTE] + s)[1..] == s && ([QUOTE] + s')[1..] == s';
  }

  lemma {:induction false} EndsInBackslash(us: seq<Unit>, buf: Bytes)
    requires LegalAll(us)
    ensures RawString(SpelledAll(us) + [BACKSLASH], buf) == PastEnd
    decreases |us|
  {
    hide Spelled;
    if us == [] {
      assert SpelledAll(us) + [BACKSLASH] == [BACKSLASH];
    } else {
      var rest := SpelledAll(us[1..]) + [BACKSLASH];
      assert SpelledAll(us) + [BACKSLASH] == Spelled(us[0]) + rest;
      var part := UnitRead(us[0], rest, buf);
      EndsInBackslash(us[1..], buf + part);
    }
  }

  /** An object whose first key is no string. */
  lemma {:induction false} RefusedKey(b: Bytes, t: Bytes)
    requires Blank(b) && (Head(t) > 32 || t == []) && Head(t) != QUOTE && Head(t) != 125
    ensures ParseValue([123] + (b + t)) == Err(ExpectedStringKey)
  {
    hide SkipWs;
    var s := [123] + (b + t);
    SkipNothing(s);
    assert s[1..] == b + t;
    SkipBlank(b, t);
    SkipNothing(t);
    assert ParseEntries(t, []) == Err(ExpectedStringKey);
    assert ParseObject(s) == Err(ExpectedStringKey);
  }
}

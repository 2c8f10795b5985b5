/**
 What the JSON printer writes (examples/01_JSONEditor/json_editor.c:1708-1841): strings that other parsers accept too,
 and arrays and objects with one line for each item.
 */
module JsonLayout {
  import opened Wrappers
  import opened Json
  import opened JsonRoundTrip
  import opened JsonSpelling
  import opened JsonGrammar

  // ---------------------------------------------------------------- strings

  /** A C string ends at its first NUL. */
  lemma {:induction false} CStringStops(bytes: Bytes)
    ensures NulFree(CString(bytes)) && CString(bytes) <= bytes
    ensures |CString(bytes)| < |bytes| ==> bytes[|CString(bytes)|] == 0
    decreases |bytes|
  {
    if bytes != [] && bytes[0] != 0 {
      CStringStops(bytes[1..]);
    }
  }

  /** What a string may be made of by section 7 of RFC 8259. */
  predicate Standard(u: Unit) {
    match u
    case Itself(b) => b >= 32 && b != QUOTE && b != BACKSLASH
    case Short(c) => c in [QUOTE, BACKSLASH, 47, 98, 102, 110, 114, 116]
    case Coded(_, _, _, _) => true
  }

  /** An escaped string is one by the standard, and stands for the bytes up to the NUL. */
  lemma {:induction false} EscapedIsStandard(bytes: Bytes) returns (us: seq<Unit>)
    ensures LegalAll(us) && Escape(bytes) == SpelledAll(us) && StandsAll(us, CString(bytes))
    ensures forall i :: 0 <= i < |us| ==> Standard(us[i])
    decreases |bytes|
  {
    hide Spelled, Stands, EscapeByte, Standard, Legal;
    us := [];
    if bytes != [] && bytes[0] != 0 {
      var u := EscapedByteIsStandard(bytes[0]);
      var more := EscapedIsStandard(bytes[1..]);
      us := UnitsCons(u, more);
      var text := CString(bytes);
      assert text == [bytes[0]] + CString(bytes[1..]);
      assert text[..1] == [bytes[0]] && text[1..] == CString(bytes[1..]);
      assert us[1..] == more;
    }
  }

  lemma {:induction false} EscapedByteIsStandard(b: Byte) returns (u: Unit)
    requires b != 0
    ensures Legal(u) && Standard(u) && Spelled(u) == EscapeByte(b) && Stands(u, [b])
  {
    if b in CONTROLS {
      var i :| 0 <= i < 5 && CONTROLS[i] == b;
      u := Short(LETTERS[i]);
      assert LETTERS[i] in LETTERS;
    } else if b == QUOTE || b == BACKSLASH {
      u := Short(b);
    } else if b < 32 {
      u := Coded(Nibble(0, false), Nibble(0, false), Nibble(b / 16, false), Nibble(b % 16, false));
      assert Decode([b]) == Some(b);
    } else {
      u := Itself(b);
    }
  }

  /** Control characters with a letter of their own are written with it. */
  lemma {:induction false} ControlsHaveLetters(i: nat)
    requires i < 5
    ensures EscapeByte(CONTROLS[i]) == [BACKSLASH, LETTERS[i]]
  {
    assert CONTROLS[0] == 8 && CONTROLS[1] == 12 && CONTROLS[2] == 10 && CONTROLS[3] == 13 && CONTROLS[4] == 9;
    assert LETTERS[0] == 98 && LETTERS[1] == 102 && LETTERS[2] == 110 && LETTERS[3] == 114 && LETTERS[4] == 116;
  }

  // ---------------------------------------------------------------- lines

  ghost function Spaces(n: nat): Bytes {
    seq(n, _ => SPACE)
  }

  /** Each text on a line of its own behind `n` spaces, with commas between. */
  ghost function Lines(texts: seq<Bytes>, n: nat): Bytes {
    if texts == [] then []
    else [NEWLINE] + (Spaces(n) + (texts[0] + ((if |texts| > 1 then [44] else []) + Lines(texts[1..], n))))
  }

  ghost function ItemTexts(items: seq<Value>, indent: nat): seq<Bytes> {
    seq(|items|, i requires 0 <= i < |items| => Print(items[i], indent))
  }

  ghost function EntryTexts(entries: seq<Entry>, indent: nat): seq<Bytes> {
    seq(|entries|, i requires 0 <= i < |entries| =>
      [QUOTE] + CString(entries[i].key) + [QUOTE, 58, SPACE] + Print(entries[i].value, indent))
  }

  lemma {:induction false} IndentIs(n: nat)
    ensures Indent(n) == Spaces(4 * n)
    decreases n
  {
    if n > 0 {
      IndentIs(n - 1);
      assert Spaces(4 * n) == [SPACE, SPACE, SPACE, SPACE] + Spaces(4 * (n - 1));
    }
  }

  /** One line and what follows it. */
  lemma {:induction false} LineFirst(texts: seq<Bytes>, n: nat, rest: Bytes, after: Bytes)
    requires texts != [] && [NEWLINE] + rest == Lines(texts[1..], n) + [NEWLINE]
    requires after == Spaces(n) + texts[0] + Separator(|texts| == 1) + rest
    requires |texts| == 1 ==> rest == []
    ensures [NEWLINE] + after == Lines(texts, n) + [NEWLINE]
  {
    hide Spaces, Lines;
    LinesText(texts, n);
    if |texts| == 1 {
      assert after == Spaces(n) + texts[0] + [NEWLINE];
    } else {
      MoreLines(Spaces(n) + texts[0], Lines(texts[1..], n), rest);
      Associates(Spaces(n) + texts[0], [44, NEWLINE], rest);
    }
  }

  lemma {:induction false} LinesText(texts: seq<Bytes>, n: nat)
    requires texts != []
    ensures Lines(texts, n)
         == [NEWLINE] + ((Spaces(n) + texts[0]) + if |texts| > 1 then [44] + Lines(texts[1..], n) else [])
  {
    hide Spaces;
    if |texts| == 1 {
      NoLines(n);
      assert texts[1..] == [];
    } else {
      Associates(Spaces(n), texts[0], [44] + Lines(texts[1..], n));
    }
  }

  lemma {:induction false} MoreLines(line: Bytes, more: Bytes, rest: Bytes)
    requires [NEWLINE] + rest == more + [NEWLINE]
    ensures [NEWLINE] + (line + ([44, NEWLINE] + rest)) == [NEWLINE] + (line + ([44] + more)) + [NEWLINE]
  {
    assert [44, NEWLINE] + rest == [44] + ([NEWLINE] + rest);
  }

  lemma {:induction false} ItemsLaidOut(items: seq<Value>, indent: nat)
    requires items != []
    ensures [NEWLINE] + PrintItems(items, indent) == Lines(ItemTexts(items, indent + 1), 4 * (indent + 1)) + [NEWLINE]
    decreases |items|
  {
    hide Print, Indent, Spaces, Separator, Lines;
    var texts, rest := ItemTexts(items, indent + 1), PrintItems(items[1..], indent);
    assert texts[1..] == ItemTexts(items[1..], indent + 1);
    IndentIs(indent + 1);
    if |items| == 1 {
      NoLines(4 * (indent + 1));
      assert texts[1..] == [];
      assert [NEWLINE] + rest == Lines(texts[1..], 4 * (indent + 1)) + [NEWLINE];
    } else {
      ItemsLaidOut(items[1..], indent);
    }
    LineFirst(texts, 4 * (indent + 1), rest, PrintItems(items, indent));
  }

  lemma {:induction false} NoLines(n: nat)
    ensures Lines([], n) == []
  {
  }

  lemma {:induction false} EntriesLaidOut(entries: seq<Entry>, indent: nat)
    requires entries != []
    ensures [NEWLINE] + PrintEntries(entries, indent)
         == Lines(EntryTexts(entries, indent + 1), 4 * (indent + 1)) + [NEWLINE]
    decreases |entries|
  {
    hide Print, Indent, Spaces, Separator, Lines, CString;
    var texts, rest := EntryTexts(entries, indent + 1), PrintEntries(entries[1..], indent);
    assert texts[1..] == EntryTexts(entries[1..], indent + 1);
    IndentIs(indent + 1);
    if |entries| == 1 {
      NoLines(4 * (indent + 1));
      assert texts[1..] == [];
      assert [NEWLINE] + rest == Lines(texts[1..], 4 * (indent + 1)) + [NEWLINE];
    } else {
      EntriesLaidOut(entries[1..], indent);
    }
    EntryFirst(entries, indent, rest);
    LineFirst(texts, 4 * (indent + 1), rest, PrintEntries(entries, indent));
  }

  lemma {:induction false} EntryFirst(entries: seq<Entry>, indent: nat, rest: Bytes)
    requires entries != [] && rest == PrintEntries(entries[1..], indent)
    ensures PrintEntries(entries, indent)
         == Indent(indent + 1) + EntryTexts(entries, indent + 1)[0] + Separator(|entries| == 1) + rest
  {
    hide Print, Indent, Separator, CString;
  }

  /** Arrays and objects are laid out alike: brackets around one line for each item, four spaces for each level. */
  lemma {:induction false} PrintedLayout(v: Value, indent: nat)
    ensures v.Array? && v.items != [] ==>
              Print(v, indent) == [91] + Lines(ItemTexts(v.items, indent + 1), 4 * (indent + 1))
                                  + [NEWLINE] + Spaces(4 * indent) + [93]
    ensures v.Object? && v.entries != [] ==>
              Print(v, indent) == [123] + Lines(EntryTexts(v.entries, indent + 1), 4 * (indent + 1))
                                  + [NEWLINE] + Spaces(4 * indent) + [125]
    ensures v == Array([]) ==> Print(v, indent) == [91, 93]
    ensures v == Object([]) ==> Print(v, indent) == [123, 125]
  {
    hide Indent, Spaces, Lines, ItemTexts, EntryTexts, PrintItems, PrintEntries;
    IndentIs(indent);
    if v.Array? && v.items != [] {
      ItemsLaidOut(v.items, indent);
      Framed(91, PrintItems(v.items, indent), Indent(indent), 93,
             Lines(ItemTexts(v.items, indent + 1), 4 * (indent + 1)));
    } else if v.Object? && v.entries != [] {
      EntriesLaidOut(v.entries, indent);
      Framed(123, PrintEntries(v.entries, indent), Indent(indent), 125,
             Lines(EntryTexts(v.entries, indent + 1), 4 * (indent + 1)));
    }
  }

  lemma {:induction false} Framed(open: Byte, inner: Bytes, indent: Bytes, close: Byte, lines: Bytes)
    requires [NEWLINE] + inner == lines + [NEWLINE]
    ensures [open, NEWLINE] + inner + indent + [close] == [open] + lines + [NEWLINE] + indent + [close]
  {
    assert [open, NEWLINE] + inner == [open] + ([NEWLINE] + inner);
    assert [open] + lines + [NEWLINE] == [open] + (lines + [NEWLINE]);
  }
}

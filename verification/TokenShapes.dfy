/**
 What literals look like (crates/lexer/src/lexer.rs:252-296, 375-427, 467-582): the texts that are strings,
 characters and numbers, each scanned whole where it stands in front of a space.
 */
module TokenShapes {
  import opened Wrappers
  import opened Lexer

  /** The bytes of each class by their ASCII codes. */
  lemma {:induction false} Classes(c: char)
    ensures IsSpace(c) <==> c as int in {9, 10, 13, 32}
    ensures In(Digit, c) <==> 48 <= c as int <= 57
    ensures In(Letter, c) <==> 65 <= c as int <= 90 || c as int == 95 || 97 <= c as int <= 122
    ensures In(Word, c) <==> In(Letter, c) || In(Digit, c)
    ensures In(HexDigit, c) <==> In(Digit, c) || 65 <= c as int <= 70 || 97 <= c as int <= 102
    ensures In(Suffix, c) <==> c in "uUlL"
    ensures In(LineRest, c) <==> c as int != 10
    ensures Sign(Some(c)) <==> c in "+-"
    ensures Exponent(Some(c)) <==> c in "eE"
  {
    assert "uUlL" == ['u', 'U', 'l', 'L'] && "+-" == ['+', '-'] && "eE" == ['e', 'E'];
  }

  ghost predicate All(k: ByteClass, s: string) {
    forall i :: 0 <= i < |s| ==> In(k, s[i])
  }

  /** `text` stands at `p`. */
  ghost predicate At(src: string, p: nat, text: string) {
    p + |text| <= |src| && src[p..p + |text|] == text
  }

  /** `text` stands at `p` and a space follows it. */
  ghost predicate Standing(src: string, p: nat, text: string) {
    p + |text| < |src| && src[p..p + |text|] == text && src[p + |text|] == ' '
  }

  lemma {:induction false} CharsAt(src: string, p: nat, text: string)
    requires At(src, p, text)
    ensures forall i :: 0 <= i < |text| ==> src[p + i] == text[i]
  {
    assert forall i :: 0 <= i < |text| ==> src[p..p + |text|][i] == text[i];
  }

  lemma {:induction false} AtSplit(src: string, p: nat, a: string, b: string)
    requires At(src, p, a + b)
    ensures At(src, p, a) && At(src, p + |a|, b)
  {
    CharsAt(src, p, a + b);
    assert forall i :: 0 <= i < |a| ==> (a + b)[i] == a[i];
    forall i | 0 <= i < |b|
      ensures src[p + |a| + i] == b[i]
    {
      assert (a + b)[|a| + i] == b[i] && src[p + (|a| + i)] == (a + b)[|a| + i];
    }
  }

  lemma {:induction false} RunOver(src: string, p: nat, e: nat, k: ByteClass)
    requires p <= e < |src| && !In(k, src[e]) && forall i :: p <= i < e ==> In(k, src[i])
    ensures Run(src, p, k) == e
  {
    var r := Run(src, p, k);
    assert r <= e;
  }

  lemma {:induction false} RunOfText(src: string, p: nat, text: string, k: ByteClass)
    requires At(src, p, text) && All(k, text) && p + |text| < |src| && !In(k, src[p + |text|])
    ensures Run(src, p, k) == p + |text|
  {
    CharsAt(src, p, text);
    forall i | p <= i < p + |text|
      ensures In(k, src[i])
    {
      assert src[p + (i - p)] == text[i - p];
    }
    RunOver(src, p, p + |text|, k);
  }

  // ---------------------------------------------------------------- strings

  /**
   A sequence of units: a byte that is neither quote nor backslash, or a backslash and any byte. Where the source
   ends, the last backslash may stand alone.
   */
  ghost predicate InUnits(s: string, open: bool)
    decreases |s|
  {
    || s == ""
    || (s[0] != '"' && s[0] != '\\' && InUnits(s[1..], open))
    || (s[0] == '\\' && |s| >= 2 && InUnits(s[2..], open))
    || (open && s == "\\")
  }

  /** The text of a string is a sequence of units, and what stops it is a quote that is in none of them. */
  lemma {:induction false} StringIsUnits(src: string, p: nat)
    requires p <= |src|
    ensures var e := StringEnd(src, p); InUnits(src[p..e], e == |src|)
    decreases |src| - p
  {
    var e := StringEnd(src, p);
    var s := src[p..e];
    if p < |src| && src[p] != '"' {
      if src[p] == '\\' && p + 1 < |src| {
        StringIsUnits(src, p + 2);
        assert s[2..] == src[p + 2..e];
      } else {
        StringIsUnits(src, p + 1);
        assert s[1..] == src[p + 1..e];
        if src[p] == '\\' {
          assert s == "\\";
        }
      }
    }
  }

  /** There is no other place where it could end. */
  lemma {:induction false} StringEndsAt(src: string, p: nat, e: nat)
    requires p <= e <= |src| && InUnits(src[p..e], e == |src|) && (e < |src| ==> src[e] == '"')
    ensures StringEnd(src, p) == e
    decreases e - p
  {
    var s := src[p..e];
    if p < e {
      assert s[0] == src[p];
      if s[0] == '\\' && |s| >= 2 {
        assert s[2..] == src[p + 2..e];
        StringEndsAt(src, p + 2, e);
      } else {
        assert s[1..] == src[p + 1..e];
        StringEndsAt(src, p + 1, e);
      }
    }
  }

  /** A text between quotes is taken whole, behind `"` as behind `@"`. */
  lemma {:induction false} ScanString(src: string, p: nat, at: bool, text: string)
    requires var before := if at then "@\"" else "\""; Standing(src, p, before + text + "\"") && InUnits(text, false)
    ensures var start := if at then p + 2 else p + 1;
            var end := start + |text| + 1;
            p < |src| && Scan(src, p)
            == Lexeme(if at then AtString else String, None, p, start, start + |text|, end, end, 0)
  {
    hide Scan, Run, WordLexeme, InUnits;
    var before := if at then "@\"" else "\"";
    var start := p + |before|;
    AtSplit(src, p, before + text, "\"");
    AtSplit(src, p, before, text);
    CharsAt(src, p, before);
    CharsAt(src, start + |text|, "\"");
    assert src[start + |text| + 0] == '"';
    assert src[p + 0] == before[0];
    StringEndsAt(src, start, start + |text|);
    assert at ==> src[p + 1] == '"';
    QuoteScanned(src, p, at);
  }

  lemma {:induction false} QuoteScanned(src: string, p: nat, at: bool)
    requires p < |src| && if at then src[p] == '@' && Peek(src, p + 1) == Some('"') else src[p] == '"'
    ensures Scan(src, p) == StringLexeme(src, if at then AtString else String, p, if at then p + 2 else p + 1)
  {
    hide Run, WordLexeme, StringLexeme, CharLexeme, NumberLexeme, OperatorLexeme, StartsNumber;
  }

  // ---------------------------------------------------------------- characters

  const ESCAPES: string := "ntr0bfv\\'\""
  const ESCAPED: seq<int> := [10, 9, 13, 0, 8, 12, 11, 92, 39, 34]
  const LOWER: string := "0123456789abcdef"
  const UPPER: string := "0123456789ABCDEF"

  predicate HexIs(c: char, v: int) {
    0 <= v < 16 && (LOWER[v] == c || UPPER[v] == c)
  }

  /** A byte, a backslash with a letter, or `\x` with up to two digits. */
  datatype CharForm = Raw(c: char) | Escape(c: char) | Hex(x: char, digits: string)

  predicate CharShaped(f: CharForm) {
    match f
    case Raw(c) => c != '\\'
    case Escape(c) => c != 'x' && c != 'X'
    case Hex(x, digits) =>
      (x == 'x' || x == 'X') && |digits| <= 2 && forall i :: 0 <= i < |digits| ==> IsHexDigit(digits[i])
  }

  function CharText(f: CharForm): string {
    match f
    case Raw(c) => [c]
    case Escape(c) => ['\\', c]
    case Hex(x, digits) => ['\\', x] + digits
  }

  /** The value of the character; an unknown letter behind a backslash leaves the backslash. */
  ghost predicate CharIs(f: CharForm, v: int) {
    match f
    case Raw(c) => v == c as int
    case Escape(c) => if c in ESCAPES then exists i :: 0 <= i < 10 && ESCAPES[i] == c && ESCAPED[i] == v else v == 92
    case Hex(_, digits) =>
      if digits == "" then v == 0
      else if |digits| == 1 then HexIs(digits[0], v)
      else |digits| == 2 && exists h, l :: HexIs(digits[0], h) && HexIs(digits[1], l) && v == h * 16 + l
  }

  lemma {:induction false} HexDigitIs(c: char)
    requires IsHexDigit(c)
    ensures HexIs(c, HexValue(c))
  {
  }

  lemma {:induction false} HexValueIs(c: char, v: int)
    requires HexIs(c, v)
    ensures IsHexDigit(c) && v == HexValue(c)
  {
  }

  /** A form has one value. */
  lemma {:induction false} OneValue(f: CharForm, v: int, w: int)
    requires CharIs(f, v) && CharIs(f, w)
    ensures v == w
  {
    hide HexIs, HexValue;
    match f
    case Raw(_) =>
    case Escape(c) => OneEscape(c, v, w);
    case Hex(_, digits) =>
      if |digits| == 1 {
        HexValueIs(digits[0], v);
        HexValueIs(digits[0], w);
      } else if |digits| == 2 {
        TwoDigitsAre(digits, v);
        TwoDigitsAre(digits, w);
      }
  }

  lemma {:induction false} TwoDigitsAre(digits: string, v: int)
    requires |digits| == 2 && exists h, l :: HexIs(digits[0], h) && HexIs(digits[1], l) && v == h * 16 + l
    ensures IsHexDigit(digits[0]) && IsHexDigit(digits[1]) && v == HexValue(digits[0]) * 16 + HexValue(digits[1])
  {
    hide HexIs, HexValue;
    var h, l :| HexIs(digits[0], h) && HexIs(digits[1], l) && v == h * 16 + l;
    HexValueIs(digits[0], h);
    HexValueIs(digits[1], l);
  }

  lemma {:induction false} OneEscape(c: char, v: int, w: int)
    requires CharIs(Escape(c), v) && CharIs(Escape(c), w)
    ensures v == w
  {
  }

  lemma {:induction false} EscapeIs(c: char)
    ensures CharIs(Escape(c), EscapeValue(c))
  {
    assert ESCAPES[0] == 'n' && ESCAPES[1] == 't' && ESCAPES[2] == 'r' && ESCAPES[3] == '0' && ESCAPES[4] == 'b'
        && ESCAPES[5] == 'f' && ESCAPES[6] == 'v' && ESCAPES[7] == '\\' && ESCAPES[8] == '\'' && ESCAPES[9] == '"';
  }

  lemma {:induction false} BodyIs(src: string, p: nat, f: CharForm)
    requires At(src, p, CharText(f)) && CharShaped(f) && p + |CharText(f)| < |src|
    requires f.Hex? && |f.digits| < 2 ==> !IsHexDigit(src[p + |CharText(f)|])
    ensures CharBody(src, p).0 == p + |CharText(f)| && CharIs(f, CharBody(src, p).1)
  {
    hide CharIs, EscapeValue, HexValue, HexIs;
    CharsAt(src, p, CharText(f));
    match f
    case Raw(c) =>
      assert src[p + 0] == c;
      RawIs(c);
    case Escape(c) =>
      assert src[p + 0] == '\\' && src[p + 1] == c;
      EscapeIs(c);
    case Hex(x, digits) =>
      assert src[p + 0] == '\\' && src[p + 1] == x;
      if digits != "" {
        assert src[p + 2] == CharText(f)[2] == digits[0];
      }
      if |digits| == 2 {
        assert src[p + 3] == CharText(f)[3] == digits[1];
      }
      HexTextIs(x, digits);
  }

  lemma {:induction false} RawIs(c: char)
    ensures CharIs(Raw(c), c as int)
  {
  }

  lemma {:induction false} HexTextIs(x: char, digits: string)
    requires CharShaped(Hex(x, digits))
    ensures digits == "" ==> CharIs(Hex(x, digits), 0)
    ensures |digits| == 1 ==> CharIs(Hex(x, digits), HexValue(digits[0]))
    ensures |digits| == 2 ==> CharIs(Hex(x, digits), HexValue(digits[0]) * 16 + HexValue(digits[1]))
  {
    hide HexValue, HexIs;
    if digits != "" {
      HexDigitIs(digits[0]);
    }
    if |digits| == 2 {
      HexDigitIs(digits[1]);
    }
  }

  /** A character with or without its closing quote. */
  function Quoted(f: CharForm, closed: bool): string {
    "'" + CharText(f) + if closed then "'" else ""
  }

  lemma {:induction false} ScanChar(src: string, p: nat, f: CharForm, closed: bool)
    requires Standing(src, p, Quoted(f, closed)) && CharShaped(f)
    ensures p < |src| && var l := Scan(src, p);
            && CharIs(f, l.charVal)
            && l == Lexeme(Char, None, p, p, p + |Quoted(f, closed)|, p + |Quoted(f, closed)|, p, l.charVal)
  {
    hide Scan, CharText, CharIs, CharBody;
    var tail := if closed then "'" else "";
    AtSplit(src, p, "'" + CharText(f), tail);
    AtSplit(src, p, "'", CharText(f));
    CharsAt(src, p, "'");
    CharsAt(src, p + 1 + |CharText(f)|, tail);
    assert src[p + 0] == '\'';
    var e := p + 1 + |CharText(f)|;
    assert src[e] == if closed then '\'' else ' ' by {
      if closed { assert src[e + 0] == tail[0]; }
    }
    BodyIs(src, p + 1, f);
    CharScanned(src, p);
  }

  lemma {:induction false} CharScanned(src: string, p: nat)
    requires p < |src| && src[p] == '\''
    ensures Scan(src, p) == CharLexeme(src, p)
  {
    hide Run, WordLexeme, StringLexeme, CharLexeme, NumberLexeme, OperatorLexeme, StartsNumber, AtLexeme;
  }

  // ---------------------------------------------------------------- numbers

  /** A digit, the decimal point, or an exponent's letter with its sign. */
  datatype Part = Cipher(c: char) | Dot | Power(e: char, sign: Option<char>)

  function PartText(x: Part): string {
    match x
    case Cipher(c) => [c]
    case Dot => "."
    case Power(e, sign) => [e] + if sign.Some? then [sign.value] else ""
  }

  function PartsText(xs: seq<Part>): string {
    if xs == [] then "" else PartText(xs[0]) + PartsText(xs[1..])
  }

  predicate PartShaped(x: Part) {
    match x
    case Cipher(c) => IsDigit(c)
    case Dot => true
    case Power(e, sign) => (e == 'e' || e == 'E') && (sign.Some? ==> sign.value == '+' || sign.value == '-')
  }

  /** A point comes at most once, and not behind an exponent. */
  predicate PartsShaped(xs: seq<Part>, float: bool) {
    xs != [] ==>
      PartShaped(xs[0]) && (xs[0].Dot? ==> !float) && PartsShaped(xs[1..], float || !xs[0].Cipher?)
  }

  predicate Floats(xs: seq<Part>) {
    exists i :: 0 <= i < |xs| && !xs[i].Cipher?
  }

  /** A number begins with a digit, or with a point and a digit. */
  predicate NumberShaped(xs: seq<Part>) {
    PartsShaped(xs, false) && xs != [] && (xs[0].Cipher? || (xs[0].Dot? && |xs| > 1 && xs[1].Cipher?))
  }

  lemma {:induction false} FirstOfParts(xs: seq<Part>, float: bool)
    requires xs != [] && PartsShaped(xs, float)
    ensures PartsText(xs) != "" && PartsText(xs)[0] == PartText(xs[0])[0] && PartText(xs[0]) != ""
    ensures var c := PartsText(xs)[0]; (IsDigit(c) || c == '.' || c == 'e' || c == 'E') && (c == '.' ==> xs[0].Dot?)
  {
  }

  lemma {:induction false} PartsSplit(xs: seq<Part>, float: bool)
    requires xs != [] && PartsShaped(xs, float)
    ensures PartsText(xs) == PartText(xs[0]) + PartsText(xs[1..])
    ensures PartShaped(xs[0]) && (xs[0].Dot? ==> !float) && PartsShaped(xs[1..], float || !xs[0].Cipher?)
    ensures PartText(xs[0]) != ""
    ensures xs[0].Power? ==>
              var x := xs[0]; |PartText(x)| == (if x.sign.Some? then 2 else 1)
                              && (x.sign.Some? ==> PartText(x)[1] == x.sign.value)
  {
  }

  lemma {:induction false} OnePart(src: string, first: nat, p: nat, xs: seq<Part>, float: bool)
    requires first <= p && At(src, p, PartsText(xs)) && PartsShaped(xs, float) && xs != []
    requires !Sign(Peek(src, p + |PartsText(xs)|))
    ensures var q := p + |PartText(xs[0])|;
            && q <= |src| && NumberFrom(src, first, p, float) == NumberFrom(src, first, q, float || !xs[0].Cipher?)
            && At(src, q, PartsText(xs[1..])) && q + |PartsText(xs[1..])| == p + |PartsText(xs)|
  {
    hide Run, NumberFrom, IsDigit, PartsText, PartsShaped, PartShaped, PartText, At, Sign;
    var x, rest := xs[0], xs[1..];
    var q := p + |PartText(x)|;
    PartsSplit(xs, float);
    AtSplit(src, p, PartText(x), PartsText(rest));
    AtBounds(src, p, PartText(x));
    CharsAt(src, p, PartText(x));
    assert src[p + 0] == PartText(x)[0];
    NextPart(src, q, rest, float || !x.Cipher?);
    if x.Power? && x.sign.Some? {
      assert src[p + 1] == PartText(x)[1];
    }
    PartTaken(src, first, p, x, float);
  }

  /** The loop takes one part after the other. */
  lemma {:induction false} PartsTaken(src: string, first: nat, p: nat, xs: seq<Part>, float: bool)
    requires first <= p && At(src, p, PartsText(xs)) && PartsShaped(xs, float)
    requires !Sign(Peek(src, p + |PartsText(xs)|))
    ensures NumberFrom(src, first, p, float)
         == NumberFrom(src, first, p + |PartsText(xs)|, float || Floats(xs))
    decreases xs
  {
    hide Run, NumberFrom, IsDigit, At, PartText, Sign, Peek, Floats;
    if xs == [] {
      NoFloat();
      assert p <= |src| by { AtBounds(src, p, PartsText(xs)); }
    } else {
      OnePart(src, first, p, xs, float);
      PartsTaken(src, first, p + |PartText(xs[0])|, xs[1..], float || !xs[0].Cipher?);
      FloatsRest(xs);
    }
  }

  lemma {:induction false} NoFloat()
    ensures !Floats([])
  {
  }

  lemma {:induction false} AtBounds(src: string, p: nat, text: string)
    requires At(src, p, text)
    ensures p + |text| <= |src|
  {
  }

  lemma {:induction false} FloatsRest(xs: seq<Part>)
    requires xs != []
    ensures Floats(xs) <==> !xs[0].Cipher? || Floats(xs[1..])
  {
    if Floats(xs[1..]) {
      var i :| 0 <= i < |xs[1..]| && !xs[1..][i].Cipher?;
      assert !xs[i + 1].Cipher?;
    }
    if i :| 0 <= i < |xs| && !xs[i].Cipher? {
      if i > 0 {
        assert !xs[1..][i - 1].Cipher?;
      }
    }
  }

  /** What follows a part is no sign. */
  lemma {:induction false} NextPart(src: string, q: nat, rest: seq<Part>, float: bool)
    requires At(src, q, PartsText(rest)) && PartsShaped(rest, float) && !Sign(Peek(src, q + |PartsText(rest)|))
    ensures !Sign(Peek(src, q))
  {
    if rest != [] {
      FirstOfParts(rest, float);
      CharsAt(src, q, PartsText(rest));
      assert src[q + 0] == PartsText(rest)[0];
    }
  }

  lemma {:induction false} PartTaken(src: string, first: nat, p: nat, x: Part, float: bool)
    requires first <= p && p + |PartText(x)| <= |src| && PartShaped(x) && (x.Dot? ==> !float)
    requires src[p] == PartText(x)[0]
    requires x.Power? ==> if x.sign.Some? then src[p + 1] == x.sign.value else !Sign(Peek(src, p + 1))
    ensures NumberFrom(src, first, p, float)
         == NumberFrom(src, first, p + |PartText(x)|, float || !x.Cipher?)
  {
    hide Run;
  }

  /** Behind the parts: nothing, a suffix, which makes any number an integer, or the letter of a float. */
  lemma {:induction false} PartsEnd(src: string, first: nat, q: nat, after: string, float: bool)
    requires first <= q && At(src, q, after) && q + |after| < |src| && src[q + |after|] == ' '
    requires All(Suffix, after) || after == "f" || after == "F"
    ensures NumberFrom(src, first, q, float)
         == if after == "" then Plain(if float then Float else Integer, None, first, q)
            else if All(Suffix, after) then Lexeme(Integer, None, first, first, q, q + |after|, q + |after|, 0)
            else Plain(Float, None, first, q + 1)
  {
    CharsAt(src, q, after);
    if after != "" {
      assert src[q + 0] == after[0];
      if All(Suffix, after) {
        RunOfText(src, q, after, Suffix);
        assert In(Suffix, after[0]);
      }
    }
  }

  /** The first byte of a number in decimal notation. */
  lemma {:induction false} NumberStarts(src: string, p: nat, xs: seq<Part>, after: string)
    requires At(src, p, PartsText(xs) + after) && NumberShaped(xs)
    requires p + |PartsText(xs) + after| < |src| && src[p + |PartsText(xs) + after|] == ' '
    requires All(Suffix, after) || after == "f" || after == "F"
    ensures StartsNumber(src, p) && (src[p] == '.' <==> xs[0].Dot?)
    ensures Peek(src, p + 1) != Some('x') && Peek(src, p + 1) != Some('X')
    ensures !Sign(Peek(src, p + |PartsText(xs)|))
  {
    var text := PartsText(xs);
    AtSplit(src, p, text, after);
    CharsAt(src, p, text);
    CharsAt(src, p + |text|, after);
    FirstOfParts(xs, false);
    assert src[p + 0] == text[0];
    if after != "" {
      assert src[p + |text| + 0] == after[0];
      assert All(Suffix, after) ==> In(Suffix, after[0]);
    }
    assert text == PartText(xs[0]) + PartsText(xs[1..]);
    if |xs| > 1 {
      FirstOfParts(xs[1..], !xs[0].Cipher?);
      assert src[p + 1] == text[1] == PartsText(xs[1..])[0];
    } else {
      assert PartsText(xs[1..]) == "";
    }
  }

  lemma {:induction false} ScanDecimal(src: string, p: nat, xs: seq<Part>, after: string)
    requires Standing(src, p, PartsText(xs) + after) && NumberShaped(xs)
    requires All(Suffix, after) || after == "f" || after == "F"
    ensures var q := p + |PartsText(xs)|;
            p < |src| && Scan(src, p)
            == if after == "" then Plain(if Floats(xs) then Float else Integer, None, p, q)
               else if All(Suffix, after) then Lexeme(Integer, None, p, p, q, q + |after|, q + |after|, 0)
               else Plain(Float, None, p, q + 1)
  {
    hide Scan, Run, NumberFrom, PartsShaped, StartsNumber, PartText, All, Sign, Peek, Floats;
    var text := PartsText(xs);
    var q := p + |text|;
    NumberStarts(src, p, xs, after);
    AtSplit(src, p, text, after);
    NumberScanned(src, p);
    PartsEnd(src, p, q, after, Floats(xs));
    if xs[0].Dot? {
      AfterDot(xs);
      AtSplit(src, p, ".", PartsText(xs[1..]));
      PartsTaken(src, p, p + 1, xs[1..], true);
      FloatsRest(xs);
    } else {
      PartsTaken(src, p, p, xs, false);
    }
  }

  lemma {:induction false} AfterDot(xs: seq<Part>)
    requires NumberShaped(xs) && xs[0].Dot?
    ensures PartsShaped(xs[1..], true) && PartsText(xs) == "." + PartsText(xs[1..])
  {
  }

  lemma {:induction false} NumberScanned(src: string, p: nat)
    requires p < |src| && StartsNumber(src, p)
    ensures Scan(src, p) == NumberLexeme(src, p)
  {
    hide Run, WordLexeme, StringLexeme, CharLexeme, NumberLexeme, OperatorLexeme, AtLexeme;
  }

  lemma {:induction false} ScanHex(src: string, p: nat, x: char, digits: string, after: string)
    requires x == 'x' || x == 'X'
    requires Standing(src, p, ['0', x] + digits + after) && All(HexDigit, digits) && All(Suffix, after)
    ensures var q := p + 2 + |digits|;
            p < |src| && Scan(src, p) == Lexeme(Integer, None, p, p, q, q + |after|, q + |after|, 0)
  {
    hide Scan, Run;
    AtSplit(src, p, ['0', x] + digits, after);
    AtSplit(src, p, ['0', x], digits);
    CharsAt(src, p, ['0', x]);
    assert src[p + 0] == '0' && src[p + 1] == x;
    var q := p + 2 + |digits|;
    CharsAt(src, q, after);
    assert src[q] == if after == "" then ' ' else after[0] by {
      if after != "" { assert src[q + 0] == after[0]; }
    }
    assert after != "" ==> In(Suffix, after[0]);
    RunOfText(src, p + 2, digits, HexDigit);
    RunOfText(src, q, after, Suffix);
    NumberScanned(src, p);
  }

  // ---------------------------------------------------------------- boxed numbers

  /** Digits, a point with digits, an exponent with digits: what `@` boxes. */
  datatype Boxed = Boxed(whole: string, fraction: Option<string>, power: Option<Part>, digits: string)

  ghost predicate BoxedShaped(b: Boxed) {
    && b.whole != "" && All(Digit, b.whole)
    && (b.fraction.Some? ==> b.fraction.value != "" && All(Digit, b.fraction.value))
    && (b.power.Some? ==> b.power.value.Power? && PartShaped(b.power.value) && b.digits != "" && All(Digit, b.digits))
    && (b.power.None? ==> b.digits == "")
  }

  function FractionText(b: Boxed): string {
    if b.fraction.Some? then "." + b.fraction.value else ""
  }

  function PowerText(b: Boxed): string {
    (if b.power.Some? then PartText(b.power.value) else "") + b.digits
  }

  function BoxedText(b: Boxed): string {
    b.whole + (FractionText(b) + PowerText(b))
  }

  lemma {:induction false} ScanBoxed(src: string, p: nat, b: Boxed)
    requires Standing(src, p, "@" + BoxedText(b)) && BoxedShaped(b)
    ensures var e := p + 1 + |BoxedText(b)|;
            p < |src| && Scan(src, p) == Lexeme(AtNumber, None, p, p + 1, e, e, p, 0)
  {
    hide Scan, Run, FractionEnd, ExponentEnd, BoxedText, FractionText, PowerText;
    var text := BoxedText(b);
    AtSplit(src, p, "@", text);
    CharsAt(src, p, "@");
    assert src[p + 0] == '@';
    BoxedParts(src, p + 1, b);
    BoxedScanned(src, p);
  }

  lemma {:induction false} BoxedScanned(src: string, p: nat)
    requires p < |src| && src[p] == '@' && Sees(src, p + 1, Digit)
    ensures var e := ExponentEnd(src, FractionEnd(src, Run(src, p + 1, Digit)));
            Scan(src, p) == Lexeme(AtNumber, None, p, p + 1, e, e, p, 0)
  {
    hide Run, WordLexeme, StringLexeme, CharLexeme, NumberLexeme, OperatorLexeme, StartsNumber;
  }

  lemma {:induction false} BoxedParts(src: string, p: nat, b: Boxed)
    requires Standing(src, p, BoxedText(b)) && BoxedShaped(b)
    ensures Sees(src, p, Digit) && ExponentEnd(src, FractionEnd(src, Run(src, p, Digit))) == p + |BoxedText(b)|
  {
    hide Run, FractionEnd, ExponentEnd, FractionText, PowerText, PartShaped;
    var i, f := p + |b.whole|, p + |b.whole| + |FractionText(b)|;
    BoxedAt(src, p, b);
    FirstOfPower(src, f, b);
    FirstOfFraction(src, i, b);
    RunOfText(src, p, b.whole, Digit);
    FractionTaken(src, i, b);
    PowerTaken(src, f, b);
  }

  lemma {:induction false} BoxedAt(src: string, p: nat, b: Boxed)
    requires Standing(src, p, BoxedText(b)) && BoxedShaped(b)
    ensures var (i, f) := (p + |b.whole|, p + |b.whole| + |FractionText(b)|);
            && At(src, p, b.whole) && At(src, i, FractionText(b)) && At(src, f, PowerText(b))
            && f + |PowerText(b)| == p + |BoxedText(b)| && src[f + |PowerText(b)|] == ' ' && Sees(src, p, Digit)
  {
    hide Run, FractionText, PowerText, PartShaped;
    var i := p + |b.whole|;
    AtSplit(src, p, b.whole, FractionText(b) + PowerText(b));
    AtSplit(src, i, FractionText(b), PowerText(b));
    CharsAt(src, p, b.whole);
    assert src[p + 0] == b.whole[0] && In(Digit, b.whole[0]);
  }

  lemma {:induction false} FirstOfPower(src: string, f: nat, b: Boxed)
    requires At(src, f, PowerText(b)) && BoxedShaped(b) && f + |PowerText(b)| < |src|
    requires src[f + |PowerText(b)|] == ' '
    ensures !Sees(src, f, Digit) && Peek(src, f) != Some('.')
  {
    CharsAt(src, f, PowerText(b));
    if b.power.Some? {
      assert src[f + 0] == PowerText(b)[0];
    }
  }

  lemma {:induction false} FirstOfFraction(src: string, i: nat, b: Boxed)
    requires At(src, i, FractionText(b)) && BoxedShaped(b) && i + |FractionText(b)| < |src|
    requires !Sees(src, i + |FractionText(b)|, Digit)
    ensures !Sees(src, i, Digit)
  {
    CharsAt(src, i, FractionText(b));
    if b.fraction.Some? {
      assert src[i + 0] == FractionText(b)[0];
    }
  }

  lemma {:induction false} FractionTaken(src: string, i: nat, b: Boxed)
    requires At(src, i, FractionText(b)) && BoxedShaped(b) && i + |FractionText(b)| < |src|
    requires !Sees(src, i + |FractionText(b)|, Digit) && Peek(src, i + |FractionText(b)|) != Some('.')
    ensures FractionEnd(src, i) == i + |FractionText(b)|
  {
    hide Run;
    if b.fraction.Some? {
      DotTaken(src, i, b.fraction.value);
    }
  }

  lemma {:induction false} DotTaken(src: string, i: nat, digits: string)
    requires At(src, i, "." + digits) && digits != "" && All(Digit, digits) && i + 1 + |digits| < |src|
    requires !Sees(src, i + 1 + |digits|, Digit)
    ensures FractionEnd(src, i) == i + 1 + |digits|
  {
    hide Run, At;
    AtSplit(src, i, ".", digits);
    CharsAt(src, i, ".");
    CharsAt(src, i + 1, digits);
    AtBounds(src, i, ".");
    assert src[i + 0] == '.' && src[i + 1 + 0] == digits[0];
    RunOfText(src, i + 1, digits, Digit);
  }

  lemma {:induction false} PowerTaken(src: string, f: nat, b: Boxed)
    requires At(src, f, PowerText(b)) && BoxedShaped(b) && f + |PowerText(b)| < |src|
    requires src[f + |PowerText(b)|] == ' '
    ensures ExponentEnd(src, f) == f + |PowerText(b)|
  {
    hide Run, PartText, At, ExponentEnd;
    if b.power.Some? {
      ExponentTaken(src, f, b.power.value, b.digits);
    } else {
      NoExponent(src, f);
    }
  }

  lemma {:induction false} NoExponent(src: string, f: nat)
    requires f < |src| && src[f] == ' '
    ensures ExponentEnd(src, f) == f
  {
  }

  lemma {:induction false} ExponentTaken(src: string, f: nat, power: Part, digits: string)
    requires power.Power? && PartShaped(power) && digits != "" && All(Digit, digits)
    requires At(src, f, PartText(power) + digits) && f + |PartText(power) + digits| < |src|
    requires src[f + |PartText(power) + digits|] == ' '
    ensures ExponentEnd(src, f) == f + |PartText(power) + digits|
  {
    hide Run, At, All;
    var x := PartText(power);
    AtSplit(src, f, x, digits);
    CharsAt(src, f, x);
    CharsAt(src, f + |x|, digits);
    AtBounds(src, f + |x|, digits);
    assert src[f + 0] == x[0] && src[f + |x| + 0] == digits[0];
    FirstDigit(digits);
    if power.sign.Some? {
      assert src[f + 1] == x[1];
    }
    RunOfText(src, f + |x|, digits, Digit);
  }

  lemma {:induction false} FirstDigit(digits: string)
    requires digits != "" && All(Digit, digits)
    ensures In(Digit, digits[0])
  {
  }
}

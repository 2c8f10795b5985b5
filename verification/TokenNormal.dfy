/**
 What the scanner makes of any source (crates/lexer/src/lexer.rs:298-682): each token has the shape of its kind, so
 that lexing a source, printing the tokens and lexing again gives the tokens a second time. The exceptions are
 literals that the end of the source cuts off, two dots without a third, and the at sign in front of a parenthesis.
 */
module TokenNormal {
  import opened Wrappers
  import opened Lexer
  import opened TokenShapes
  import opened Relexing
  import Keywords

  /** The token that begins at `p` does not have the shape of its kind. */
  ghost predicate Odd(src: string, p: nat)
    requires p < |src|
  {
    var l := Scan(src, p);
    ScanProgresses(src, p);
    var text := src[l.start..l.stop];
    || ((l.kind == String || l.kind == AtString) && l.end == l.stop)
    || (l.kind == Char && (text == "'" || text == "'\\"))
    || (l.kind == Ellipsis && text != "...")
    || (l.kind == LParen && text == "@")
  }

  lemma {:induction false} RunAll(src: string, p: nat, k: ByteClass)
    requires p <= |src|
    ensures var e := Run(src, p, k); All(k, src[p..e]) && At(src, p, src[p..e])
  {
    var e := Run(src, p, k);
    forall i | 0 <= i < e - p
      ensures In(k, src[p..e][i])
    {
      assert src[p..e][i] == src[p + i];
    }
  }

  // ---------------------------------------------------------------- words

  lemma {:induction false} SpanItem(src: string, kind: TokenKind, keyword: Option<string>, p: nat, e: nat)
    requires p <= e <= |src|
    ensures var l := Plain(kind, keyword, p, e);
            InBounds(l, src) && ItemOf(src, l) == Item(kind, keyword, "", src[p..e], "", 0)
  {
  }

  lemma {:induction false} WordShape(src: string, p: nat)
    requires p < |src| && In(Letter, src[p])
    ensures Printable(ItemOf(src, WordLexeme(src, p, Run(src, p, Word), Identifier)))
  {
    hide Keywords.Keyword, ItemOf, Run;
    var e := Run(src, p, Word);
    RunAll(src, p, Word);
    RunMoves(src, p, Word);
    var keyword := Keywords.Keyword(src[p..e]);
    SpanItem(src, if keyword.Some? then Keyword else Identifier, keyword, p, e);
    assert src[p..e][0] == src[p];
  }

  lemma {:induction false} RunMoves(src: string, p: nat, k: ByteClass)
    requires p < |src| && (In(k, src[p]) || (k == Word && In(Letter, src[p])))
    ensures Run(src, p, k) > p
  {
  }

  lemma {:induction false} AtWordShape(src: string, p: nat)
    requires p < |src| && src[p] == '@' && Sees(src, p + 1, Letter)
    ensures Printable(ItemOf(src, WordLexeme(src, p, Run(src, p + 1, Word), Error)))
  {
    hide Keywords.Keyword, ItemOf, Run;
    var e := Run(src, p + 1, Word);
    RunAll(src, p + 1, Word);
    RunMoves(src, p + 1, Word);
    var keyword := Keywords.Keyword(src[p..e]);
    SpanItem(src, if keyword.Some? then Keyword else Error, keyword, p, e);
    assert src[p..e][0] == '@' && src[p..e][1..] == src[p + 1..e] && src[p + 1..e][0] == src[p + 1];
  }

  lemma {:induction false} HashShape(src: string, p: nat)
    requires p < |src| && src[p] == '#'
    ensures Printable(ItemOf(src, WordLexeme(src, p, Run(src, p + 1, Letter), PpHash)))
  {
    hide Keywords.Keyword, ItemOf, Run;
    var e := Run(src, p + 1, Letter);
    RunAll(src, p + 1, Letter);
    var keyword := Keywords.Keyword(src[p..e]);
    SpanItem(src, if keyword.Some? then Keyword else PpHash, keyword, p, e);
    assert src[p..e][0] == '#' && src[p..e][1..] == src[p + 1..e];
  }

  // ---------------------------------------------------------------- strings and characters

  lemma {:induction false} StringShape(src: string, first: nat, at: bool)
    requires first < |src|
    requires if at then src[first] == '@' && Peek(src, first + 1) == Some('"') else src[first] == '"'
    requires var l := StringLexeme(src, if at then AtString else String, first, if at then first + 2 else first + 1);
             l.end != l.stop
    ensures var l := StringLexeme(src, if at then AtString else String, first, if at then first + 2 else first + 1);
            Printable(ItemOf(src, l))
  {
    hide InUnits;
    var p := if at then first + 2 else first + 1;
    var l := StringLexeme(src, if at then AtString else String, first, p);
    StringIsUnits(src, p);
    assert src[first..p] == if at then [src[first], src[first + 1]] else [src[first]];
    assert src[l.stop] == '"' && l.end == l.stop + 1;
    assert src[l.stop..l.end] == "\"";
  }

  lemma {:induction false} CharShape(src: string, p: nat)
    requires p < |src| && src[p] == '\''
    requires var l := CharLexeme(src, p); src[p..l.stop] != "'" && src[p..l.stop] != "'\\"
    ensures Printable(ItemOf(src, CharLexeme(src, p)))
  {
    hide CharBody, CharIs, CharText, CharShaped;
    var l := CharLexeme(src, p);
    var (e, value) := CharBody(src, p + 1);
    CutOff(src, p);
    var f := FormOf(src, p + 1);
    var closed := Peek(src, e) == Some('\'');
    assert src[p..l.stop] == Quoted(f, closed) by {
      assert src[p..l.stop] == "'" + src[p + 1..e] + if closed then "'" else "";
    }
    assert CharacterShaped(src[p..l.stop], value);
  }

  /** The text is cut off exactly where there is nothing behind the quote, or nothing behind its backslash. */
  lemma {:induction false} CutOff(src: string, p: nat)
    requires p < |src| && src[p] == '\''
    ensures var l := CharLexeme(src, p);
            && (p + 1 == |src| ==> src[p..l.stop] == "'" && l.charVal == 0)
            && (p + 2 == |src| && src[p + 1] == '\\' ==> src[p..l.stop] == "'\\" && l.charVal == 92)
  {
    hide HexValue, EscapeValue;
  }

  /** The form of the bytes behind the quote. */
  lemma {:induction false} FormOf(src: string, p: nat) returns (f: CharForm)
    requires p < |src| && (src[p] == '\\' ==> p + 1 < |src|)
    ensures var (e, value) := CharBody(src, p); CharShaped(f) && src[p..e] == CharText(f) && CharIs(f, value)
  {
    hide HexValue, EscapeValue;
    var e := CharBody(src, p).0;
    if src[p] != '\\' {
      f := Raw(src[p]);
    } else if src[p + 1] != 'x' && src[p + 1] != 'X' {
      f := Escape(src[p + 1]);
      EscapeIs(src[p + 1]);
    } else {
      var digits := src[p + 2..e];
      f := Hex(src[p + 1], digits);
      assert src[p..e] == ['\\', src[p + 1]] + digits;
      HexTextIs(src[p + 1], digits);
    }
  }

  // ---------------------------------------------------------------- numbers

  /** What the loop over a number comes to where it stops. */
  ghost function NumberEnd(src: string, first: nat, q: nat, float: bool): Lexeme
    requires q <= |src|
  {
    if Sees(src, q, Suffix) then
      var end := Run(src, q, Suffix);
      Lexeme(Integer, None, first, first, q, end, end, 0)
    else if Peek(src, q) == Some('f') || Peek(src, q) == Some('F') then Plain(Float, None, first, q + 1)
    else Plain(if float then Float else Integer, None, first, q)
  }

  /** The loop takes parts. */
  lemma {:induction false} PartsOf(src: string, first: nat, p: nat, float: bool) returns (xs: seq<Part>, q: nat)
    requires first <= p <= |src|
    ensures p <= q <= |src| && src[p..q] == PartsText(xs) && PartsShaped(xs, float)
    ensures NumberFrom(src, first, p, float) == NumberEnd(src, first, q, float || Floats(xs))
    ensures (xs == [] <==> q == p) && (xs != [] && Sees(src, p, Digit) ==> xs[0].Cipher?)
    ensures Sees(src, p, Digit) ==> xs != []
    decreases |src| - p
  {
    hide Run, NumberEnd, PartsText, PartsShaped, Floats;
    var x := PartAt(src, p, float);
    if x.None? {
      xs, q := [], p;
      NoParts(float);
      NoFloat();
      NumberStops(src, first, p, float);
    } else {
      var next := p + |PartText(x.value)|;
      PartTaken(src, first, p, x.value, float);
      var more;
      more, q := PartsOf(src, first, next, float || !x.value.Cipher?);
      xs := [x.value] + more;
      assert xs[1..] == more;
      PartsCons(x.value, more, float);
      FloatsRest(xs);
      assert src[p..q] == src[p..next] + src[next..q];
    }
  }

  lemma {:induction false} NoParts(float: bool)
    ensures PartsText([]) == "" && PartsShaped([], float)
  {
  }

  lemma {:induction false} PartsCons(x: Part, more: seq<Part>, float: bool)
    requires PartShaped(x) && (x.Dot? ==> !float) && PartsShaped(more, float || !x.Cipher?)
    ensures PartsShaped([x] + more, float) && PartsText([x] + more) == PartText(x) + PartsText(more)
  {
    assert ([x] + more)[1..] == more;
  }

  lemma {:induction false} NumberStops(src: string, first: nat, p: nat, float: bool)
    requires first <= p <= |src| && !Sees(src, p, Digit) && !(Peek(src, p) == Some('.') && !float)
    requires !Exponent(Peek(src, p))
    ensures NumberFrom(src, first, p, float) == NumberEnd(src, first, p, float)
  {
    hide Run;
  }

  /** The part that stands at `p`, if one does. */
  lemma {:induction false} PartAt(src: string, p: nat, float: bool) returns (x: Option<Part>)
    requires p <= |src|
    ensures x.None? ==> !Sees(src, p, Digit) && !(Peek(src, p) == Some('.') && !float) && !Exponent(Peek(src, p))
    ensures x.Some? ==>
              var n := |PartText(x.value)|;
              && PartShaped(x.value) && (x.value.Dot? ==> !float)
              && n > 0 && p + n <= |src| && src[p..p + n] == PartText(x.value) && src[p] == PartText(x.value)[0]
              && (x.value.Power? ==> if x.value.sign.Some? then src[p + 1] == x.value.sign.value
                                     else !Sign(Peek(src, p + 1)))
    ensures Sees(src, p, Digit) ==> x.Some? && x.value.Cipher?
  {
    if Sees(src, p, Digit) {
      x := Some(Cipher(src[p]));
    } else if Peek(src, p) == Some('.') && !float {
      x := Some(Part.Dot);
    } else if Exponent(Peek(src, p)) {
      x := Some(Power(src[p], if Sign(Peek(src, p + 1)) then Some(src[p + 1]) else None));
    } else {
      x := None;
    }
  }

  lemma {:induction false} DecimalShape(src: string, p: nat)
    requires StartsNumber(src, p)
    ensures Printable(ItemOf(src, NumberFrom(src, p, if src[p] == '.' then p + 1 else p, src[p] == '.')))
  {
    hide Run, NumberFrom, PartsText, PartsShaped, Floats;
    var float := src[p] == '.';
    var from := if float then p + 1 else p;
    var xs, q := PartsOf(src, p, from, float);
    var all := if float then [Part.Dot] + xs else xs;
    if float {
      PartsCons(Part.Dot, xs, false);
      FloatsRest(all);
      assert all[1..] == xs;
      assert src[p..q] == "." + src[p + 1..q];
    }
    assert src[p..q] == PartsText(all) && NumberShaped(all);
    NumberItem(src, p, q, all);
  }

  lemma {:induction false} NumberItem(src: string, p: nat, q: nat, xs: seq<Part>)
    requires p <= q <= |src| && src[p..q] == PartsText(xs) && NumberShaped(xs)
    ensures var l := NumberEnd(src, p, q, Floats(xs)); InBounds(l, src) && Printable(ItemOf(src, l))
  {
    hide Run, NumberShaped, PartsText, Floats;
    if Sees(src, q, Suffix) {
      RunAll(src, q, Suffix);
      var end := Run(src, q, Suffix);
      SuffixMoves(src, q);
      assert IntegerShaped(src[p..q], src[q..end]);
    } else if Peek(src, q) == Some('f') || Peek(src, q) == Some('F') {
      assert src[p..q + 1] == src[p..q] + [src[q]];
      assert FloatShaped(src[p..q + 1]);
    } else if Floats(xs) {
      assert FloatShaped(src[p..q]);
    } else {
      assert IntegerShaped(src[p..q], "");
    }
  }

  lemma {:induction false} SuffixMoves(src: string, q: nat)
    requires Sees(src, q, Suffix)
    ensures src[q..Run(src, q, Suffix)] != ""
  {
    RunMoves(src, q, Suffix);
  }

  lemma {:induction false} NumberShape(src: string, p: nat)
    requires StartsNumber(src, p)
    ensures Printable(ItemOf(src, NumberLexeme(src, p)))
  {
    hide Run, NumberFrom, ItemOf, Printable;
    if src[p] == '0' && (Peek(src, p + 1) == Some('x') || Peek(src, p + 1) == Some('X')) {
      HexShape(src, p);
    } else {
      DecimalShape(src, p);
    }
  }

  lemma {:induction false} HexShape(src: string, p: nat)
    requires StartsNumber(src, p) && src[p] == '0' && (Peek(src, p + 1) == Some('x') || Peek(src, p + 1) == Some('X'))
    ensures Printable(ItemOf(src, NumberLexeme(src, p)))
  {
    hide Run, NumberFrom;
    RunAll(src, p + 2, HexDigit);
    var stop := Run(src, p + 2, HexDigit);
    RunAll(src, stop, Suffix);
    assert src[p..stop][2..] == src[p + 2..stop];
    assert HexShaped(src[p..stop]);
  }

  lemma {:induction false} BoxShape(src: string, p: nat)
    requires p < |src| && src[p] == '@' && Sees(src, p + 1, Digit)
    ensures var e := ExponentEnd(src, FractionEnd(src, Run(src, p + 1, Digit))); BoxShaped(src[p + 1..e])
  {
    hide Run, FractionEnd, ExponentEnd, FractionText, PowerText;
    var i := Run(src, p + 1, Digit);
    var f := FractionEnd(src, i);
    var e := ExponentEnd(src, f);
    RunAll(src, p + 1, Digit);
    RunMoves(src, p + 1, Digit);
    var fraction := FractionAt(src, i);
    var power, digits := PowerAt(src, f);
    var b := Boxed(src[p + 1..i], fraction, power, digits);
    TextsAre(b);
    ThreeSlices(src, p + 1, i, f, e);
    assert BoxedShaped(b);
    assert src[p + 1..e] == BoxedText(b);
  }

  lemma {:induction false} ThreeSlices(src: string, p: nat, i: nat, f: nat, e: nat)
    requires p <= i <= f <= e <= |src|
    ensures src[p..e] == src[p..i] + (src[i..f] + src[f..e])
  {
  }

  lemma {:induction false} TextsAre(b: Boxed)
    ensures FractionText(b) == if b.fraction.Some? then "." + b.fraction.value else ""
    ensures PowerText(b) == (if b.power.Some? then PartText(b.power.value) else "") + b.digits
  {
  }

  lemma {:induction false} FractionAt(src: string, i: nat) returns (fraction: Option<string>)
    requires i <= |src|
    ensures src[i..FractionEnd(src, i)] == if fraction.Some? then "." + fraction.value else ""
    ensures fraction.Some? ==> fraction.value != "" && All(Digit, fraction.value)
  {
    hide Run;
    fraction := None;
    if Peek(src, i) == Some('.') && Sees(src, i + 1, Digit) {
      RunAll(src, i + 1, Digit);
      RunMoves(src, i + 1, Digit);
      fraction := Some(src[i + 1..FractionEnd(src, i)]);
    }
  }

  lemma {:induction false} PowerAt(src: string, f: nat) returns (power: Option<Part>, digits: string)
    requires f <= |src|
    ensures src[f..ExponentEnd(src, f)] == (if power.Some? then PartText(power.value) else "") + digits
    ensures power.Some? ==> power.value.Power? && PartShaped(power.value) && digits != "" && All(Digit, digits)
    ensures power.None? ==> digits == ""
  {
    hide Run, All;
    power, digits := None, "";
    if Exponent(Peek(src, f)) {
      var signed := Sign(Peek(src, f + 1));
      var d := if signed then f + 2 else f + 1;
      if Sees(src, d, Digit) {
        RunAll(src, d, Digit);
        RunMoves(src, d, Digit);
        var e := Run(src, d, Digit);
        power, digits := Some(Power(src[f], if signed then Some(src[f + 1]) else None)), src[d..e];
        assert src[f..e] == src[f..d] + src[d..e];
        assert src[f..d] == PartText(power.value);
      }
    }
  }

  // ---------------------------------------------------------------- operators and the rest

  lemma {:induction false} OperatorShape(src: string, p: nat)
    requires p < |src| && !IsSpace(src[p]) && !In(Letter, src[p]) && !In(Digit, src[p])
    requires src[p] != '@' && src[p] != '#' && src[p] != '"' && src[p] != '\''
    requires var l := OperatorLexeme(src, p); l.kind == Ellipsis ==> src[p..l.stop] == "..."
    ensures Printable(ItemOf(src, OperatorLexeme(src, p)))
  {
    hide *;
    var (kind, n) := Operator(src, p);
    OperatorTaken(src, p);
    OperatorLexemeIs(src, p);
    if kind == Error {
      StrangeByte(src, p);
      assert src[p..p + 1] == [src[p]];
      SpanItem(src, kind, None, p, p + 1);
      AlienItem(src[p]);
    } else {
      OperatorKindIs(src, p);
      var text := OperatorText(kind).value;
      if kind == Ellipsis {
        EllipsisText();
        assert p + n <= |src|;
      } else {
        AtSlice(src, p, text);
      }
      SpanItem(src, kind, None, p, p + n);
      OperatorItem(kind, text);
    }
  }

  lemma {:induction false} AtSlice(src: string, p: nat, text: string)
    requires At(src, p, text)
    ensures p + |text| <= |src| && src[p..p + |text|] == text
  {
  }

  lemma {:induction false} OperatorLexemeIs(src: string, p: nat)
    requires p < |src|
    ensures var (kind, n) := Operator(src, p);
            var l := OperatorLexeme(src, p);
            && l == Plain(kind, None, p, if p + n <= |src| then p + n else |src|)
            && l.kind == kind && l.stop == if p + n <= |src| then p + n else |src|
  {
    hide Operator;
  }

  lemma {:induction false} StrangeByte(src: string, p: nat)
    requires p < |src| && !IsSpace(src[p]) && !In(Letter, src[p]) && !In(Digit, src[p])
    requires src[p] != '@' && src[p] != '#' && src[p] != '"' && src[p] != '\'' && Operator(src, p).0 == Error
    ensures Alien(src[p])
  {
    hide Operator;
    ErrorIsAlien(src, p);
  }

  lemma {:induction false} AlienItem(c: char)
    requires Alien(c)
    ensures Printable(Item(Error, None, "", [c], "", 0))
  {
    hide Alien, Keywords.Keyword;
  }

  lemma {:induction false} OperatorItem(kind: TokenKind, text: string)
    requires OperatorText(kind) == Some(text) && OperatorKind(kind)
    ensures Printable(Item(kind, None, "", text, "", 0))
  {
    hide OperatorText;
  }

  predicate OperatorKind(k: TokenKind) {
    && k != Identifier && k != Keyword && k != Integer && k != Float && k != String && k != AtString
    && k != AtNumber && k != Char && k != AtArray && k != AtDict && k != PpHash && k != Eof && k != Error
  }

  lemma {:induction false} EllipsisText()
    ensures OperatorText(Ellipsis) == Some("...")
  {
  }

  lemma {:induction false} ErrorIsAlien(src: string, p: nat)
    requires p < |src| && Operator(src, p).0 == Error
    ensures src[p] !in "+-*/%&|^~!<>=,.;:?[](){}"
  {
    hide Operator;
    NoOperator(src, p);
    NoneOf(src[p]);
  }

  ghost predicate Strange(c: char) {
    && c != '+' && c != '-' && c != '*' && c != '/' && c != '%' && c != '&' && c != '|' && c != '^'
    && c != '~' && c != '!' && c != '<' && c != '>' && c != '=' && c != ',' && c != '.' && c != ';'
    && c != ':' && c != '?' && c != '[' && c != ']' && c != '(' && c != ')' && c != '{' && c != '}'
  }

  lemma {:induction false} NoOperator(src: string, p: nat)
    requires p < |src| && Operator(src, p).0 == Error
    ensures Strange(src[p])
  {
  }

  lemma {:induction false} NoneOf(c: char)
    requires Strange(c)
    ensures c !in "+-*/%&|^~!<>=,.;:?[](){}"
  {
  }

  lemma {:induction false} OperatorKindIs(src: string, p: nat)
    requires p < |src| && Operator(src, p).0 != Error
    ensures OperatorKind(Operator(src, p).0)
  {
    hide Operator, OperatorText;
    var text := TextOf(src, p);
    TextedKind(Operator(src, p).0);
  }

  lemma {:induction false} TextedKind(k: TokenKind)
    requires OperatorText(k).Some?
    ensures OperatorKind(k)
  {
  }

  // ---------------------------------------------------------------- any source

  /** Every token of every source has the shape of its kind, unless it is one of the odd ones. */
  lemma {:induction false} ScannedShape(src: string, p: nat)
    requires p < |src| && !IsSpace(src[p]) && !Odd(src, p)
    ensures var l := Scan(src, p); InBounds(l, src) && Printable(ItemOf(src, l))
  {
    hide Printable, ItemOf, WordLexeme, StringLexeme, CharLexeme, NumberLexeme, OperatorLexeme, StartsNumber, Run;
    hide IsSpace;
    ScanProgresses(src, p);
    var c, l := src[p], Scan(src, p);
    if In(Letter, c) {
      WordShape(src, p);
    } else if c == '@' {
      AtShape(src, p);
    } else if c == '#' {
      HashShape(src, p);
    } else if c == '"' {
      QuoteScanned(src, p, false);
      QuoteKind(src, String, p, p + 1);
      StringShape(src, p, false);
    } else if c == '\'' {
      CharKind(src, p);
      CharShape(src, p);
    } else if StartsNumber(src, p) {
      NumberShape(src, p);
    } else {
      DigitStarts(src, p);
      OperatorSpan(src, p);
      OperatorShape(src, p);
    }
  }

  lemma {:induction false} QuoteKind(src: string, kind: TokenKind, first: nat, p: nat)
    requires p <= |src|
    ensures StringLexeme(src, kind, first, p).kind == kind
  {
  }

  lemma {:induction false} CharKind(src: string, p: nat)
    requires p < |src|
    ensures var l := CharLexeme(src, p); l.kind == Char && l.start == p
  {
  }

  lemma {:induction false} DigitStarts(src: string, p: nat)
    requires p < |src| && !StartsNumber(src, p)
    ensures !In(Digit, src[p])
  {
  }

  lemma {:induction false} OperatorSpan(src: string, p: nat)
    requires p < |src|
    ensures OperatorLexeme(src, p).start == p
  {
  }

  lemma {:induction false} AtShape(src: string, p: nat)
    requires p < |src| && src[p] == '@' && !Odd(src, p)
    ensures var l := AtLexeme(src, p); InBounds(l, src) && Printable(ItemOf(src, l))
  {
    hide Printable, ItemOf, WordLexeme, StringLexeme, CharLexeme, NumberLexeme, OperatorLexeme, StartsNumber, Run, In;
    hide FractionEnd, ExponentEnd;
    ScanProgresses(src, p);
    var l, next := AtLexeme(src, p), Peek(src, p + 1);
    assert l == Scan(src, p) by { AtIs(src, p); }
    if next == Some('"') {
      QuoteKind(src, AtString, p, p + 2);
      StringShape(src, p, true);
    } else if next == Some('(') {
      ParenIsOdd(src, p);
    } else if next != Some('[') && next != Some('{') && Sees(src, p + 1, Letter) {
      AtWordShape(src, p);
    } else {
      AtOther(src, p);
    }
  }

  /** `@(` gives a parenthesis that is only an at sign, and then the parenthesis itself. */
  lemma {:induction false} ParenIsOdd(src: string, p: nat)
    requires p + 1 < |src| && src[p] == '@' && src[p + 1] == '('
    ensures Odd(src, p) && Scan(src, p) == Plain(LParen, None, p, p + 1).(lineAt := p)
  {
    hide WordLexeme, StringLexeme, CharLexeme, NumberLexeme, OperatorLexeme, StartsNumber, Run;
    AtIs(src, p);
    assert src[p..p + 1] == "@";
  }

  lemma {:induction false} AtIs(src: string, p: nat)
    requires p < |src| && src[p] == '@'
    ensures Scan(src, p) == AtLexeme(src, p)
  {
    hide WordLexeme, StringLexeme, CharLexeme, NumberLexeme, OperatorLexeme, StartsNumber, Run, AtLexeme;
  }

  lemma {:induction false} AtOther(src: string, p: nat)
    requires p < |src| && src[p] == '@'
    requires var next := Peek(src, p + 1);
             && next != Some('"') && next != Some('(')
             && (next == Some('[') || next == Some('{') || !Sees(src, p + 1, Letter))
    ensures var l := AtLexeme(src, p); InBounds(l, src) && Printable(ItemOf(src, l))
  {
    hide WordLexeme, StringLexeme, Run, FractionEnd, ExponentEnd, BoxShaped;
    var next := Peek(src, p + 1);
    if next == Some('[') {
      assert src[p..p + 2] == "@[";
    } else if next == Some('{') {
      assert src[p..p + 2] == "@{";
    } else if Sees(src, p + 1, Digit) {
      BoxShape(src, p);
      assert src[p..p + 1] == "@";
    } else {
      assert src[p..p + 1] == "@";
    }
  }

  /** Nothing odd begins where a token of the source begins. */
  ghost predicate Even(src: string, ls: seq<Lexeme>) {
    forall i :: 0 <= i < |ls| ==> ls[i].kind == Eof || (ls[i].first < |src| && !Odd(src, ls[i].first))
  }

  lemma {:induction false} TokensShape(src: string, p: nat)
    requires p <= |src| && Even(src, Tokens(src, p))
    ensures var ls := Tokens(src, p);
            && ls != [] && (forall i :: 0 <= i < |ls| ==> InBounds(ls[i], src))
            && ItemOf(src, ls[|ls| - 1]) == END
            && forall i :: 0 <= i < |ls| - 1 ==> Printable(ItemOf(src, ls[i]))
    decreases |src| - p
  {
    hide *;
    var l, ls := Next(src, p), Tokens(src, p);
    TokenThen(src, p);
    NextFirst(src, p);
    if l.kind == Eof {
      EofItem(src, p);
    } else {
      NextScanned(src, p);
      EvenSplit(src, l, Tokens(src, l.end));
      ScannedShape(src, l.first);
      TokensShape(src, l.end);
      var more := Tokens(src, l.end);
      assert forall i :: 0 < i < |ls| ==> ls[i] == more[i - 1];
    }
  }

  lemma {:induction false} EvenSplit(src: string, l: Lexeme, more: seq<Lexeme>)
    requires Even(src, [l] + more)
    ensures l.kind == Eof || (l.first < |src| && !Odd(src, l.first))
    ensures Even(src, more)
  {
    hide Odd;
    assert ([l] + more)[0] == l;
    assert forall i :: 0 <= i < |more| ==> ([l] + more)[i + 1] == more[i];
  }

  lemma {:induction false} NextScanned(src: string, p: nat)
    requires p <= |src| && Next(src, p).kind != Eof
    ensures var l := Next(src, p); l.first < |src| && l == Scan(src, l.first) && !IsSpace(src[l.first])
  {
    hide Scan;
    NextFirst(src, p);
    ScanProgresses(src, SkipEnd(src, p));
  }

  lemma {:induction false} EofItem(src: string, p: nat)
    requires p <= |src| && Next(src, p).kind == Eof
    ensures InBounds(Next(src, p), src) && ItemOf(src, Next(src, p)) == END
  {
    hide Scan;
    NextFirst(src, p);
  }

  /** Lexing a source, printing its tokens and lexing again gives the same tokens. */
  lemma {:induction false} LexedTwice(src: string)
    requires Even(src, Tokens(src, 0))
    ensures var ls := Tokens(src, 0);
            && ls != [] && (forall i :: 0 <= i < |ls| ==> InBounds(ls[i], src))
            && var printed := Print(Items(src, ls[..|ls| - 1]));
               var again := Tokens(printed, 0);
               && (forall i :: 0 <= i < |again| ==> InBounds(again[i], printed))
               && Items(printed, again) == Items(src, ls)
  {
    hide Printable, Tokens, ItemOf, Even, InBounds;
    TokensShape(src, 0);
    var ls := Tokens(src, 0);
    var items := Items(src, ls[..|ls| - 1]);
    forall i | 0 <= i < |items|
      ensures Printable(items[i])
    {
      assert items[i] == ItemOf(src, ls[i]);
    }
    Relex(items);
    assert Items(src, ls) == items + [END];
  }
}

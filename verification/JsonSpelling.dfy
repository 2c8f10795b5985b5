/**
 What the JSON parser makes of texts that its own printer does not write: strings with any mixture of escapes
 (examples/01_JSONEditor/json_editor.c:2137-2224), numbers with fractions and exponents (2264-2284), and bytes behind
 the value (2359-2371).
 */
module JsonSpelling {
  import opened Wrappers
  import opened Json
  import opened JsonRoundTrip

  // ---------------------------------------------------------------- UTF-8

  predicate Continuation(b: Byte) {
    128 <= b < 192
  }

  /** The code point that one, two or three bytes encode in their shortest form (section 3 of RFC 3629). */
  function Decode(b: Bytes): Option<nat> {
    if |b| == 1 && b[0] < 128 then Some(b[0])
    else if |b| == 2 && 192 <= b[0] < 224 && Continuation(b[1]) then
      var cp: nat := (b[0] as int - 192) * 64 + (b[1] - 128);
      if cp < 0x80 then None else Some(cp)
    else if |b| == 3 && 224 <= b[0] < 240 && Continuation(b[1]) && Continuation(b[2]) then
      var cp: nat := (b[0] as int - 224) * 4096 + (b[1] as int - 128) * 64 + (b[2] - 128);
      if cp < 0x800 then None else Some(cp)
    else None
  }

  lemma {:induction false} Decoded(cp: nat)
    requires cp < 0x1_0000
    ensures Decode(Utf8(cp)) == Some(cp)
  {
    hide Decode, Utf8;
    if cp <= 127 {
      OneByte(cp);
    } else if cp <= 2047 {
      TwoBytes(cp);
    } else {
      ThreeBytes(cp);
    }
  }

  lemma {:induction false} OneByte(cp: nat)
    requires cp <= 127
    ensures Decode(Utf8(cp)) == Some(cp)
  {
  }

  lemma {:induction false} TwoBytes(cp: nat)
    requires 127 < cp <= 2047
    ensures Decode(Utf8(cp)) == Some(cp)
  {
    var q, r := cp / 64, cp % 64;
    assert cp == q * 64 + r && 0 <= r < 64 && 2 <= q < 32;
    assert q % 64 == q;
    assert Utf8(cp) == [192 + q, 128 + r];
  }

  lemma {:induction false} ThreeBytes(cp: nat)
    requires 2047 < cp < 0x1_0000
    ensures Decode(Utf8(cp)) == Some(cp)
  {
    var q, r := cp / 64, cp % 64;
    var a, b := q / 64, q % 64;
    assert cp == q * 64 + r && 0 <= r < 64 && q == a * 64 + b && 0 <= b < 64 && a < 16;
    assert cp / 4096 == a;
    assert (224 + a) % 256 == 224 + a;
    assert Utf8(cp) == [224 + a, 128 + b, 128 + r];
  }

  // ---------------------------------------------------------------- strings

  const LOWER: Bytes := [48, 49, 50, 51, 52, 53, 54, 55, 56, 57, 97, 98, 99, 100, 101, 102]    // 0-9 a-f
  const UPPER: Bytes := [48, 49, 50, 51, 52, 53, 54, 55, 56, 57, 65, 66, 67, 68, 69, 70]      // 0-9 A-F

  /** A hexadecimal digit in one of its spellings. */
  datatype Nibble = Nibble(value: nat, upper: bool)

  predicate Digit(d: Nibble) {
    d.value < 16
  }

  function DigitByte(d: Nibble): Byte
    requires Digit(d)
  {
    if d.upper then UPPER[d.value] else LOWER[d.value]
  }

  /** A byte for itself, a backslash with a byte, or `\u` with four digits. */
  datatype Unit = Itself(b: Byte) | Short(c: Byte) | Coded(w: Nibble, x: Nibble, y: Nibble, z: Nibble)

  predicate Legal(u: Unit) {
    match u
    case Itself(b) => b != 0 && b != QUOTE && b != BACKSLASH
    case Short(c) => c != 0 && c != 117
    case Coded(w, x, y, z) => Digit(w) && Digit(x) && Digit(y) && Digit(z)
  }

  function Spelled(u: Unit): Bytes
    requires Legal(u)
  {
    match u
    case Itself(b) => [b]
    case Short(c) => [BACKSLASH, c]
    case Coded(w, x, y, z) => [BACKSLASH, 117, DigitByte(w), DigitByte(x), DigitByte(y), DigitByte(z)]
  }

  function SpelledAll(us: seq<Unit>): Bytes
    requires forall i :: 0 <= i < |us| ==> Legal(us[i])
  {
    if us == [] then [] else Spelled(us[0]) + SpelledAll(us[1..])
  }

  const LETTERS: Bytes := [98, 102, 110, 114, 116]     // b f n r t
  const CONTROLS: Bytes := [8, 12, 10, 13, 9]

  /** The bytes that a unit stands for. */
  predicate Stands(u: Unit, part: Bytes)
    requires Legal(u)
  {
    match u
    case Itself(b) => part == [b]
    case Short(c) =>
      && |part| == 1
      && (if c in LETTERS then exists i :: 0 <= i < 5 && LETTERS[i] == c && CONTROLS[i] == part[0] else part[0] == c)
    case Coded(w, x, y, z) => Decode(part) == Some(w.value * 4096 + x.value * 256 + y.value * 16 + z.value)
  }

  ghost predicate StandsAll(us: seq<Unit>, buf: Bytes)
    requires forall i :: 0 <= i < |us| ==> Legal(us[i])
  {
    if us == [] then buf == []
    else exists n: nat :: n <= |buf| && Stands(us[0], buf[..n]) && StandsAll(us[1..], buf[n..])
  }

  lemma {:induction false} DigitRead(d: Nibble, t: Bytes, count: nat, acc: nat)
    requires Digit(d) && count > 0
    ensures ParseHex4([DigitByte(d)] + t, count, acc) == ParseHex4(t, count - 1, acc * 16 + d.value)
  {
    var s := [DigitByte(d)] + t;
    assert s[1..] == t;
    assert HexValue(DigitByte(d)) == d.value;
  }

  lemma {:induction false} FourDigits(w: Nibble, x: Nibble, y: Nibble, z: Nibble, t: Bytes)
    requires Digit(w) && Digit(x) && Digit(y) && Digit(z)
    ensures ParseHex4([DigitByte(w), DigitByte(x), DigitByte(y), DigitByte(z)] + t, 4, 0)
         == Code(((w.value * 16 + x.value) * 16 + y.value) * 16 + z.value, t)
  {
    hide DigitByte, HexValue;
    var t3 := [DigitByte(z)] + t;
    var t2 := [DigitByte(y)] + t3;
    var t1 := [DigitByte(x)] + t2;
    assert [DigitByte(w), DigitByte(x), DigitByte(y), DigitByte(z)] + t == [DigitByte(w)] + t1;
    DigitRead(w, t1, 4, 0);
    DigitRead(x, t2, 3, w.value);
    DigitRead(y, t3, 2, w.value * 16 + x.value);
    DigitRead(z, t, 1, (w.value * 16 + x.value) * 16 + y.value);
  }

  lemma {:induction false} CodeRead(w: Nibble, x: Nibble, y: Nibble, z: Nibble, t: Bytes, buf: Bytes)
    returns (part: Bytes)
    requires Legal(Coded(w, x, y, z))
    ensures Stands(Coded(w, x, y, z), part)
    ensures RawString(Spelled(Coded(w, x, y, z)) + t, buf) == RawString(t, buf + part)
  {
    hide RawString, Utf8, Decode, DigitByte, ParseHex4;
    var s := Spelled(Coded(w, x, y, z)) + t;
    var cp := ((w.value * 16 + x.value) * 16 + y.value) * 16 + z.value;
    assert s[2..] == [DigitByte(w), DigitByte(x), DigitByte(y), DigitByte(z)] + t;
    FourDigits(w, x, y, z, t);
    Decoded(cp);
    part := Utf8(cp);
    CodeStep(s, t, buf, cp);
  }

  lemma {:induction false} CodeStep(s: Bytes, t: Bytes, buf: Bytes, cp: nat)
    requires |s| > 2 && s[0] == BACKSLASH && s[1] == 117 && ParseHex4(s[2..], 4, 0) == Code(cp, t)
    ensures RawString(s, buf) == RawString(t, buf + Utf8(cp))
  {
    hide Utf8, ParseHex4;
  }

  lemma {:induction false} UnitRead(u: Unit, t: Bytes, buf: Bytes) returns (part: Bytes)
    requires Legal(u)
    ensures Stands(u, part) && RawString(Spelled(u) + t, buf) == RawString(t, buf + part)
  {
    var s := Spelled(u) + t;
    match u
    case Itself(b) =>
      assert s[1..] == t;
      part := [b];
    case Short(c) =>
      assert s[2..] == t && s[1] == c;
      part := [Unescaped(c)];
      ShortStands(c);
    case Coded(w, x, y, z) => part := CodeRead(w, x, y, z, t, buf);
  }

  lemma {:induction false} ShortStands(c: Byte)
    requires Legal(Short(c))
    ensures Stands(Short(c), [Unescaped(c)])
  {
    assert LETTERS[0] == 98 && LETTERS[1] == 102 && LETTERS[2] == 110 && LETTERS[3] == 114 && LETTERS[4] == 116;
    assert CONTROLS[0] == 8 && CONTROLS[1] == 12 && CONTROLS[2] == 10 && CONTROLS[3] == 13 && CONTROLS[4] == 9;
  }

  /** However a string is spelled, the parser reads what its units stand for, and stops behind the closing quote. */
  lemma {:induction false} SpelledStringRead(us: seq<Unit>, t: Bytes, buf: Bytes) returns (text: Bytes)
    requires forall i :: 0 <= i < |us| ==> Legal(us[i])
    ensures RawString(SpelledAll(us) + [QUOTE] + t, buf) == Text(buf + text, t) && StandsAll(us, text)
    decreases |us|
  {
    hide RawString, Spelled, Stands;
    if us == [] {
      text := [];
      assert SpelledAll(us) + [QUOTE] + t == [QUOTE] + t;
      RawEnds(t, buf);
      assert buf + [] == buf;
    } else {
      var rest := SpelledAll(us[1..]) + [QUOTE] + t;
      assert SpelledAll(us) + [QUOTE] + t == Spelled(us[0]) + rest;
      var part := UnitRead(us[0], rest, buf);
      var more := SpelledStringRead(us[1..], t, buf + part);
      text := part + more;
      assert buf + part + more == buf + text;
      assert text[..|part|] == part && text[|part|..] == more;
    }
  }

  // ---------------------------------------------------------------- numbers

  datatype Exponent = Exponent(upper: bool, plus: bool, minus: bool, digits: Bytes)

  /** Sign, digits, a point with digits, and an exponent. */
  datatype Numeral = Numeral(minus: bool, whole: Bytes, fraction: Option<Bytes>, exponent: Option<Exponent>)

  ghost predicate WellSpelled(x: Numeral) {
    && AllDigits(x.whole) && (x.whole != [] || x.minus)
    && (x.fraction.Some? ==> AllDigits(x.fraction.value))
    && (x.exponent.Some? ==>
          var e := x.exponent.value; AllDigits(e.digits) && !(e.plus && e.minus))
  }

  /** What may stand behind a number: where the exponent has neither sign nor digits, a sign would be read with it. */
  predicate Ends(x: Option<Exponent>, t: Bytes) {
    && EndsNumber(t)
    && (x.Some? && x.value.digits == [] && !x.value.plus && !x.value.minus ==> Head(t) != 43 && Head(t) != 45)
  }

  function SpelledExponent(e: Exponent): Bytes {
    [if e.upper then 69 else 101] + (if e.plus then [43] else if e.minus then [45] else []) + e.digits
  }

  function Sign(x: Numeral): Bytes {
    if x.minus then [45] else []
  }

  function Point(x: Numeral): Bytes {
    if x.fraction.Some? then [46] + x.fraction.value else []
  }

  function Tail(x: Numeral): Bytes {
    if x.exponent.Some? then SpelledExponent(x.exponent.value) else []
  }

  function SpelledNumber(x: Numeral): Bytes {
    Sign(x) + x.whole + Point(x) + Tail(x)
  }

  lemma {:induction false} NotNegative(d: Bytes)
    requires AllDigits(d)
    ensures ValueOfDigits(d) >= 0
    decreases |d|
  {
    if d != [] {
      NotNegative(d[..|d| - 1]);
    }
  }

  function Ten(k: nat): (r: real)
    ensures r > 0.0
  {
    if k == 0 then 1.0 else 10.0 * Ten(k - 1)
  }

  function Fraction(x: Numeral): Bytes {
    if x.fraction.Some? then x.fraction.value else []
  }

  /** The number that the digits, the point and the exponent denote. */
  ghost function Amount(x: Numeral): real
    requires WellSpelled(x)
  {
    NotNegative(if x.exponent.Some? then x.exponent.value.digits else []);
    var whole, part := ValueOfDigits(x.whole) as real, ValueOfDigits(Fraction(x)) as real / Ten(|Fraction(x)|);
    if x.exponent.None? then whole + part
    else
      var k := ValueOfDigits(x.exponent.value.digits);
      if x.exponent.value.minus then (whole + part) / Ten(k) else (whole + part) * Ten(k)
  }

  /** The power of ten that the digits, read without the point, have to be multiplied by. */
  ghost function Scale(x: Numeral): int
    requires WellSpelled(x)
  {
    var k := if x.exponent.None? then 0 else ValueOfDigits(x.exponent.value.digits);
    (if x.exponent.Some? && x.exponent.value.minus then -k else k) - |Fraction(x)|
  }

  lemma {:induction false} IntegerStops(minus: bool, d: Bytes, t: Bytes)
    requires AllDigits(d) && !IsDigit(Head(t)) && (d != [] || minus)
    ensures var sign := if minus then [45] else []; IntegerEnd(sign + (d + t)) == |sign| + |d|
  {
    hide DigitRun;
    var sign := if minus then [45] else [];
    var s := sign + (d + t);
    assert !minus ==> IsDigit(d[0]) && s[0] == d[0];
    assert s[|sign|..] == d + t;
    DigitRunWhole(d, t);
  }

  lemma {:induction false} FractionStops(s: Bytes, n: nat, d: Option<Bytes>, t: Bytes)
    requires n == IntegerEnd(s) && !IsDigit(Head(t)) && Head(t) != 46 && (d.Some? ==> AllDigits(d.value))
    requires s[n..] == (if d.Some? then [46] + d.value else []) + t
    ensures FractionEnd(s) == n + if d.Some? then 1 + |d.value| else 0
  {
    hide DigitRun, IntegerEnd;
    if d.Some? {
      assert s[n..][0] == 46;
      assert s[n + 1..] == s[n..][1..] == d.value + t;
      DigitRunWhole(d.value, t);
    } else {
      assert s[n..] == t;
    }
  }

  /** The cursor stops at the end of each part. */
  lemma {:induction false} CursorStops(x: Numeral, t: Bytes)
    requires WellSpelled(x) && Ends(x.exponent, t)
    ensures var s := SpelledNumber(x) + t;
            && IntegerEnd(s) == |Sign(x)| + |x.whole| && FractionEnd(s) == |Sign(x)| + |x.whole| + |Point(x)|
            && NumberLength(s) == |SpelledNumber(x)| && (Head(s) == 45 <==> x.minus)
  {
    hide *;
    var s, rest := SpelledNumber(x) + t, Tail(x) + t;
    var i, f := |Sign(x)| + |x.whole|, |Sign(x)| + |x.whole| + |Point(x)|;
    StartsAs(x, t);
    TextIs(x, t);
    Slices(Sign(x), x.whole, Point(x), rest);
    SpellingParts(x);
    IntegerStops(x.minus, x.whole, Point(x) + rest);
    FractionStops(s, i, x.fraction, rest);
    ExponentStops(s, f, x.exponent, t);
  }

  lemma {:induction false} Slices(a: Bytes, b: Bytes, c: Bytes, d: Bytes)
    ensures var s := a + (b + (c + d)); s[|a| + |b|..] == c + d && s[|a| + |b| + |c|..] == d
  {
  }

  lemma {:induction false} TextIs(x: Numeral, t: Bytes)
    ensures SpelledNumber(x) + t == Sign(x) + (x.whole + (Point(x) + (Tail(x) + t)))
    ensures |SpelledNumber(x)| == |Sign(x)| + |x.whole| + |Point(x)| + |Tail(x)|
  {
    hide SpelledExponent;
  }

  /** The parts by their definitions. */
  lemma {:induction false} SpellingParts(x: Numeral)
    requires WellSpelled(x)
    ensures Sign(x) == if x.minus then [45] else []
    ensures Point(x) == if x.fraction.Some? then [46] + x.fraction.value else []
    ensures Tail(x) == if x.exponent.Some? then SpelledExponent(x.exponent.value) else []
    ensures AllDigits(x.whole) && (x.whole != [] || x.minus) && (x.fraction.Some? ==> AllDigits(x.fraction.value))
    ensures x.exponent.Some? ==>
              var e := x.exponent.value; AllDigits(e.digits) && !(e.plus && e.minus)
  {
    hide SpelledExponent;
  }

  lemma {:induction false} StartsAs(x: Numeral, t: Bytes)
    requires WellSpelled(x) && Ends(x.exponent, t)
    ensures Head(SpelledNumber(x) + t) == 45 <==> x.minus
    ensures !IsDigit(Head(Tail(x) + t)) && Head(Tail(x) + t) != 46 && !IsDigit(Head(Point(x) + (Tail(x) + t)))
  {
    assert !x.minus ==> IsDigit(x.whole[0]) && (SpelledNumber(x) + t)[0] == x.whole[0];
  }

  lemma {:induction false} ExponentStops(s: Bytes, f: nat, x: Option<Exponent>, t: Bytes)
    requires Ends(x, t) && f == FractionEnd(s)
    requires x.Some? ==> AllDigits(x.value.digits) && !(x.value.plus && x.value.minus)
    requires s[f..] == (if x.Some? then SpelledExponent(x.value) else []) + t
    ensures NumberLength(s) == f + if x.Some? then |SpelledExponent(x.value)| else 0
  {
    hide FractionEnd, DigitRun, SpelledExponent;
    if x.Some? {
      ExponentBytes(x.value, t);
      var e, r := x.value, s[f..];
      assert s[f + 1..] == r[1..];
      if e.plus || e.minus {
        assert s[f + 2..] == r[2..] == e.digits + t && s[f + 1] == r[1];
      } else {
        assert s[f + 1..] == e.digits + t;
      }
      DigitRunWhole(e.digits, t);
    } else {
      assert s[f..] == t;
    }
  }

  lemma {:induction false} ExponentBytes(e: Exponent, t: Bytes)
    requires AllDigits(e.digits) && !(e.plus && e.minus) && Ends(Some(e), t)
    ensures var s := SpelledExponent(e) + t;
            && (s[0] == 101 || s[0] == 69)
            && (if e.plus || e.minus then
                  && |s| >= 2 && (s[1] == 43 || s[1] == 45) && s[2..] == e.digits + t
                  && |SpelledExponent(e)| == 2 + |e.digits|
                else
                  && Head(s[1..]) != 43 && Head(s[1..]) != 45 && s[1..] == e.digits + t
                  && |SpelledExponent(e)| == 1 + |e.digits|)
  {
    var s := SpelledExponent(e) + t;
    if !e.plus && !e.minus {
      assert s[1..] == e.digits + t;
      if e.digits == [] {
        assert s[1..] == t;
      } else {
        assert IsDigit(e.digits[0]) && Head(s[1..]) == e.digits[0];
      }
    }
  }

  /** The parser finds the parts that were spelled. */
  lemma {:induction false} PartsFound(x: Numeral)
    requires WellSpelled(x)
    ensures var (text, sign) := (SpelledNumber(x), if x.minus then 1 else 0);
            var (i, f) := (IntegerEnd(text), FractionEnd(text));
            && (Head(text) == 45 <==> x.minus) && sign <= i && text[sign..i] == x.whole
            && (if f > i then text[i + 1..f] else []) == Fraction(x)
            && ExponentOf(text[f..]) - |Fraction(x)| == Scale(x)
  {
    hide *;
    var text := SpelledNumber(x);
    NothingEnds();
    CursorStops(x, []);
    assert text + [] == text && Tail(x) + [] == Tail(x);
    TextIs(x, []);
    Slices(Sign(x), x.whole, Point(x), Tail(x));
    SpellingParts(x);
    MiddleSlices(Sign(x), x.whole, Point(x), Tail(x));
    FractionIs(x);
    ExponentRead(x);
  }

  lemma {:induction false} NothingEnds()
    ensures forall x :: Ends(x, [])
  {
  }

  lemma {:induction false} MiddleSlices(a: Bytes, b: Bytes, c: Bytes, d: Bytes)
    ensures var s := a + (b + (c + d)); s[|a|..|a| + |b|] == b
    ensures c != [] ==> (a + (b + (c + d)))[|a| + |b| + 1..|a| + |b| + |c|] == c[1..]
  {
  }

  lemma {:induction false} FractionIs(x: Numeral)
    ensures Fraction(x) == if x.fraction.Some? then x.fraction.value else []
    ensures Point(x) != [] <==> x.fraction.Some?
    ensures x.fraction.Some? ==> Point(x)[1..] == x.fraction.value
  {
  }

  lemma {:induction false} ExponentRead(x: Numeral)
    requires WellSpelled(x)
    ensures ExponentOf(Tail(x)) == Scale(x) + |Fraction(x)|
  {
    if x.exponent.Some? {
      var e := x.exponent.value;
      var t := SpelledExponent(e);
      assert e.digits != [] ==> IsDigit(e.digits[0]);
      assert if e.plus || e.minus then t[2..] == e.digits else t[1..] == e.digits;
    }
  }

  lemma {:induction false} TenIsPower(k: nat)
    ensures Ten(k) == PowerOfTen(k) as real
    decreases k
  {
    if k > 0 {
      TenIsPower(k - 1);
    }
  }

  lemma {:induction false} TenSum(a: nat, b: nat)
    ensures Ten(a + b) == Ten(a) * Ten(b)
    decreases a
  {
    if a > 0 {
      TenSum(a - 1, b);
    }
  }

  lemma {:induction false} PowerSum(k: nat)
    ensures PowerOfTen(k + 1) == PowerOfTen(k) * 10
  {
  }

  lemma {:induction false} DigitsConcat(a: Bytes, b: Bytes)
    ensures ValueOfDigits(a + b) == ValueOfDigits(a) * PowerOfTen(|b|) + ValueOfDigits(b)
    decreases |b|
  {
    hide *;
    if b == [] {
      assert a + b == a;
      NoDigits();
    } else {
      var init := b[..|b| - 1];
      DigitsConcat(a, init);
      assert (a + b)[..|a + b| - 1] == a + init;
      LastDigit(a + b);
      LastDigit(b);
      PowerSum(|init|);
      TimesTen(ValueOfDigits(a), PowerOfTen(|init|), ValueOfDigits(init));
    }
  }

  lemma {:induction false} NoDigits()
    ensures ValueOfDigits([]) == 0 && PowerOfTen(0) == 1
  {
  }

  lemma {:induction false} LastDigit(d: Bytes)
    requires d != []
    ensures ValueOfDigits(d) == ValueOfDigits(d[..|d| - 1]) * 10 + (d[|d| - 1] as int - 48)
  {
  }

  lemma {:induction false} TimesTen(v: int, p: int, d: int)
    ensures (v * p + d) * 10 == v * (10 * p) + d * 10
  {
  }

  /** What the digits without the point come to at a scale. */
  function AtScale(m: int, s: int): real {
    if s >= 0 then m as real * Ten(s) else m as real / Ten(-s)
  }

  lemma {:induction false} Quotient(a: real, b: real, q: real)
    requires b > 0.0
    ensures a / b == q <==> a == q * b
  {
    var r := a / b;
    assert r * b == a;
    if a == q * b && r != q {
      assert (r - q) * b == 0.0;
      assert r - q == 0.0;
    }
  }

  lemma {:induction false} ScaledIs(m: int, s: int, n: int)
    ensures Scaled(m, s) == Some(n) <==> AtScale(m, s) == n as real
  {
    hide PowerOfTen, Ten;
    if s >= 0 {
      TenIsPower(s);
    } else {
      TenIsPower(-s);
      WholeQuotient(m, PowerOfTen(-s), n);
    }
  }

  lemma {:induction false} WholeQuotient(m: int, p: nat, n: int)
    requires p > 0
    ensures m % p == 0 && m / p == n <==> m as real / p as real == n as real
  {
    Quotient(m as real, p as real, n as real);
    assert (n * p) as real == n as real * p as real;
    Divides(m, p, n);
  }

  lemma {:induction false} Divides(m: int, p: int, n: int)
    requires p > 0
    ensures m % p == 0 && m / p == n <==> m == n * p
  {
    var q, r := m / p, m % p;
    assert m == q * p + r;
    if m == n * p {
      assert (n - q) * p == r;
      if n > q {
        AtLeast(n - q, p);
      } else if n < q {
        assert (q - n) * p == -r;
        AtLeast(q - n, p);
      }
    }
  }

  lemma {:induction false} AtLeast(k: int, p: int)
    requires k >= 1 && p > 0
    ensures k * p >= p
  {
  }

  /** The digits in front of the point and behind it. */
  lemma {:induction false} DigitsTogether(x: Numeral)
    ensures ValueOfDigits(x.whole) as real + ValueOfDigits(Fraction(x)) as real / Ten(|Fraction(x)|)
         == ValueOfDigits(x.whole + Fraction(x)) as real / Ten(|Fraction(x)|)
  {
    hide ValueOfDigits, Ten, PowerOfTen, Fraction;
    DigitsConcat(x.whole, Fraction(x));
    TenIsPower(|Fraction(x)|);
    Sum(ValueOfDigits(x.whole), ValueOfDigits(Fraction(x)), PowerOfTen(|Fraction(x)|));
  }

  lemma {:induction false} Sum(a: int, b: int, p: nat)
    requires p > 0
    ensures a as real + b as real / p as real == (a * p + b) as real / p as real
  {
    var t := p as real;
    var q := b as real / t;
    Quotient(b as real, t, q);
    assert (a * p + b) as real == a as real * t + b as real;
    assert (a as real + q) * t == a as real * t + q * t;
    Quotient((a * p + b) as real, t, a as real + q);
  }

  lemma {:induction false} AmountAtScale(x: Numeral)
    requires WellSpelled(x)
    ensures Amount(x) == AtScale(ValueOfDigits(x.whole + Fraction(x)), Scale(x))
  {
    hide ValueOfDigits, Ten, Fraction;
    var f, m := |Fraction(x)|, ValueOfDigits(x.whole + Fraction(x)) as real;
    DigitsTogether(x);
    var k := if x.exponent.None? then 0 else ValueOfDigits(x.exponent.value.digits);
    NotNegative(if x.exponent.Some? then x.exponent.value.digits else []);
    ScaleBy(m, f, k);
    TenZero();
  }

  lemma {:induction false} TenZero()
    ensures Ten(0) == 1.0
  {
  }

  lemma {:induction false} ScaleBy(m: real, f: nat, k: nat)
    ensures (m / Ten(f)) / Ten(k) == m / Ten(f + k)
    ensures (m / Ten(f)) * Ten(k) == if k >= f then m * Ten(k - f) else m / Ten(f - k)
  {
    hide Ten;
    var t, u := Ten(f), Ten(k);
    var q := m / t;
    TenSum(f, k);
    Quotient(q, u, m / Ten(f + k));
    Quotient(m, t, q);
    Quotient(m, t * u, q / u);
    assert q == q / u * u;
    assert m == q * t;
    assert m == q / u * (t * u);
    if k >= f {
      TenSum(k - f, f);
      assert q * u == q * t * Ten(k - f);
    } else {
      TenSum(f - k, k);
      Quotient(m, Ten(f - k), q * u);
    }
  }

  predicate Fits(n: int) {
    -0x8000_0000 <= n < 0x8000_0000
  }

  /** What a numeral denotes. */
  ghost function Denoted(x: Numeral): real
    requires WellSpelled(x)
  {
    if x.minus then -Amount(x) else Amount(x)
  }

  /** What the digits come to, signed and in range or not. */
  ghost function Classified(x: Numeral): Value
    requires WellSpelled(x)
  {
    var m := Scaled(ValueOfDigits(x.whole + Fraction(x)), Scale(x));
    if m.None? then Float(SpelledNumber(x))
    else
      var n := if x.minus then -m.value else m.value;
      if Fits(n) then Int(n) else Float(SpelledNumber(x))
  }

  lemma {:induction false} NumberClassified(x: Numeral)
    requires WellSpelled(x)
    ensures NumberOf(SpelledNumber(x)) == Classified(x)
  {
    hide ValueOfDigits, Scaled, IntegerEnd, FractionEnd, ExponentOf, Fraction, Scale, SpelledNumber, WellSpelled;
    PartsFound(x);
  }

  /** A number in any notation is the 32-bit integer that it denotes, if it denotes one, and else its text. */
  lemma {:induction false} NumberIsDenoted(x: Numeral)
    requires WellSpelled(x)
    ensures forall n :: NumberOf(SpelledNumber(x)) == Int(n) <==> Denoted(x) == n as real && Fits(n)
    ensures (forall n :: Fits(n) ==> Denoted(x) != n as real) ==> NumberOf(SpelledNumber(x)) == Float(SpelledNumber(x))
  {
    hide *;
    NumberClassified(x);
    forall n
      ensures Classified(x) == Int(n) <==> Denoted(x) == n as real && Fits(n)
    {
      ClassifiedIs(x, n);
    }
    if Classified(x) != Float(SpelledNumber(x)) {
      OtherwiseInteger(x);
    }
  }

  lemma {:induction false} OtherwiseInteger(x: Numeral)
    requires WellSpelled(x) && Classified(x) != Float(SpelledNumber(x))
    ensures exists n :: Classified(x) == Int(n) && Fits(n)
  {
    hide Scaled, ValueOfDigits;
  }

  lemma {:induction false} ClassifiedIs(x: Numeral, n: int)
    requires WellSpelled(x)
    ensures Classified(x) == Int(n) <==> Denoted(x) == n as real && Fits(n)
  {
    hide ValueOfDigits, Scaled, Amount, AtScale, Fraction, Scale, SpelledNumber, WellSpelled;
    var m := ValueOfDigits(x.whole + Fraction(x));
    AmountAtScale(x);
    ScaledIs(m, Scale(x), n);
    ScaledIs(m, Scale(x), -n);
  }

  /** The parser takes the whole number and stops behind it. */
  lemma {:induction false} SpelledNumberRead(x: Numeral, t: Bytes)
    requires WellSpelled(x) && Ends(x.exponent, t)
    ensures var text := SpelledNumber(x);
            ParseNumber(text + t) == if |text| >= 64 then Err(NumberTooLong) else Ok(Some(NumberOf(text)), t)
  {
    hide NumberOf, NumberLength;
    var text := SpelledNumber(x);
    CursorStops(x, t);
    assert (text + t)[..|text|] == text && (text + t)[|text|..] == t;
  }

  // ---------------------------------------------------------------- behind the value

  /** Bytes behind a printed value are refused unless they are blanks. */
  lemma {:induction false} NothingFollows(v: Value, indent: nat, t: Bytes)
    requires Printable(v) && EndsNumber(t)
    ensures Parse(Print(v, indent) + t)
         == if Head(SkipWs(t)) == 0 then Success(v) else Failure(TrailingCharacters)
  {
    hide Print, ParseValue, SkipWs;
    PrintHead(v, indent, t);
    ReadBack(v, indent, t);
  }
}

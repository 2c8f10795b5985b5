/**
 What the scanner's tokens mean for the text (crates/lexer/src/lexer.rs:181-226, 298-682): the bytes
 between tokens, their spans and number, and lexing what was printed from tokens.
 */
module Relexing {
  import opened Wrappers
  import opened Lexer
  import opened TokenShapes
  import Keywords

  // ---------------------------------------------------------------- between tokens

  /** A star with a slash behind it. */
  predicate Mark(t: string, k: nat) {
    k + 1 < |t| && t[k] == '*' && t[k + 1] == '/'
  }

  /** One blank, one line comment without its newline, or one block comment, closed at its end or never. */
  ghost predicate Piece(t: string) {
    || (|t| == 1 && t[0] in " \t\n\r")
    || (|t| >= 2 && t[0] == '/' && t[1] == '/' && forall k :: 2 <= k < |t| ==> t[k] != '\n')
    || (|t| >= 2 && t[0] == '/' && t[1] == '*'
        && ((|t| >= 4 && Mark(t, |t| - 2) && forall k :: 2 <= k < |t| - 2 ==> !Mark(t, k))
            || forall k :: 2 <= k < |t| ==> !Mark(t, k)))
  }

  /** Blanks and comments and nothing else. */
  ghost predicate Trivia(s: string)
    decreases |s|
  {
    s == "" || exists k :: 0 < k <= |s| && Piece(s[..k]) && Trivia(s[k..])
  }

  lemma {:induction false} PieceThenTrivia(src: string, p: nat, m: nat, e: nat)
    requires p < m <= e <= |src| && Piece(src[p..m]) && Trivia(src[m..e])
    ensures Trivia(src[p..e])
  {
    var s, k := src[p..e], m - p;
    assert s[..k] == src[p..m] && s[k..] == src[m..e];
  }

  /** Where the skipping goes on, and behind what. */
  ghost predicate Skips(src: string, p: nat, m: nat)
    requires p < |src|
  {
    if IsSpace(src[p]) then m == p + 1
    else if src[p] == '/' && Peek(src, p + 1) == Some('/') then m == Run(src, p + 2, LineRest)
    else src[p] == '/' && Peek(src, p + 1) == Some('*') && m == BlockEnd(src, p + 2)
  }

  lemma {:induction false} SkipStep(src: string, p: nat) returns (m: nat)
    requires p < |src|
    ensures if SkipEnd(src, p) == p then
              && !IsSpace(src[p])
              && (p + 1 < |src| && src[p] == '/' ==> src[p + 1] != '/' && src[p + 1] != '*')
            else
              p < m <= |src| && Skips(src, p, m) && SkipEnd(src, p) == SkipEnd(src, m)
  {
    hide Run, BlockEnd;
    m := if IsSpace(src[p]) then p + 1
         else if src[p] == '/' && Peek(src, p + 1) == Some('/') then Run(src, p + 2, LineRest)
         else if src[p] == '/' && Peek(src, p + 1) == Some('*') then BlockEnd(src, p + 2)
         else p;
  }

  lemma {:induction false} SkippedPiece(src: string, p: nat, m: nat)
    requires p < m <= |src| && Skips(src, p, m)
    ensures Piece(src[p..m])
  {
    hide Piece, Run, BlockEnd;
    if IsSpace(src[p]) {
      SpacePiece(src, p);
    } else if Peek(src, p + 1) == Some('/') {
      LinePiece(src, p, m);
    } else {
      BlockPiece(src, p, m);
    }
  }

  /** Only blanks and comments are skipped, and what stops the skipping is neither. */
  lemma {:induction false} SkipsOnlyTrivia(src: string, p: nat)
    requires p <= |src|
    ensures var e := SkipEnd(src, p);
            && Trivia(src[p..e])
            && (e < |src| ==> !IsSpace(src[e]))
            && (e + 1 < |src| && src[e] == '/' ==> src[e + 1] != '/' && src[e + 1] != '*')
    decreases |src| - p
  {
    hide Trivia, Piece, Skips, SkipEnd, IsSpace;
    var e := SkipEnd(src, p);
    if p == |src| {
      EmptyTrivia(src[p..e]);
    } else {
      var m := SkipStep(src, p);
      if e == p {
        EmptyTrivia(src[p..e]);
      } else {
        SkipsOnlyTrivia(src, m);
        SkippedPiece(src, p, m);
        PieceThenTrivia(src, p, m, e);
      }
    }
  }

  lemma {:induction false} EmptyTrivia(s: string)
    requires s == ""
    ensures Trivia(s)
  {
  }

  lemma {:induction false} SpacePiece(src: string, p: nat)
    requires p < |src| && IsSpace(src[p])
    ensures Piece(src[p..p + 1])
  {
    assert " \t\n\r" == [' ', '\t', '\n', '\r'];
  }

  lemma {:induction false} LinePiece(src: string, p: nat, m: nat)
    requires p + 2 <= |src| && src[p] == '/' == src[p + 1] && m == Run(src, p + 2, LineRest)
    ensures Piece(src[p..m])
  {
    var t := src[p..m];
    forall k | 2 <= k < |t|
      ensures t[k] != '\n'
    {
      assert In(LineRest, src[p + k]);
    }
  }

  lemma {:induction false} BlockPiece(src: string, p: nat, m: nat)
    requires p + 2 <= |src| && src[p] == '/' && src[p + 1] == '*' && m == BlockEnd(src, p + 2)
    ensures Piece(src[p..m])
  {
    var t := src[p..m];
    forall k | 0 <= k < |t|
      ensures Mark(t, k) == (k + 1 < |t| && Closes(src, p + k))
    {
      assert t[k] == src[p + k];
      if k + 1 < |t| {
        assert t[k + 1] == src[p + k + 1];
      }
    }
    if m >= p + 4 && Closes(src, m - 2) {
      assert Mark(t, |t| - 2);
    }
  }

  /** A comment that is never closed leaves the last byte of the file to be scanned. */
  lemma {:induction false} UnclosedCommentKeepsLastByte(src: string, p: nat)
    requires p + 2 < |src| && src[p] == '/' && src[p + 1] == '*'
    requires forall k :: p + 2 <= k < |src| ==> !Closes(src, k)
    requires !IsSpace(src[|src| - 1])
    ensures SkipEnd(src, p) == |src| - 1 && Next(src, p).first == |src| - 1 && Next(src, p).kind != Eof
  {
    hide Scan, WordLexeme, Operator, NumberLexeme;
    var m := BlockEnd(src, p + 2);
    BlockStopsEarly(src, p + 2);
    assert SkipEnd(src, m) == m;
    ScanKinds(src, m);
    ScanProgresses(src, m);
  }

  /** The rest of the file is comment exactly if the comment ends right away or the last byte is a blank. */
  lemma {:induction false} UnclosedCommentSkippedIff(src: string, p: nat)
    requires p + 2 <= |src| && src[p] == '/' && src[p + 1] == '*'
    requires forall k :: p + 2 <= k < |src| ==> !Closes(src, k)
    ensures SkipEnd(src, p) == |src| <==> p + 2 == |src| || IsSpace(src[|src| - 1])
  {
    hide BlockEnd;
    var m := BlockEnd(src, p + 2);
    assert SkipEnd(src, p) == SkipEnd(src, m);
    if p + 2 < |src| {
      BlockStopsEarly(src, p + 2);
      assert SkipEnd(src, m) == if IsSpace(src[m]) then SkipEnd(src, m + 1) else m;
    }
  }

  lemma {:induction false} BlockStopsEarly(src: string, p: nat)
    requires p < |src| && forall k :: p <= k < |src| ==> !Closes(src, k)
    ensures BlockEnd(src, p) == |src| - 1
    decreases |src| - p
  {
    if p + 1 < |src| {
      BlockStopsEarly(src, p + 1);
    }
  }

  /** `Eof` only comes from the end of the source. */
  lemma {:induction false} ScanKinds(src: string, p: nat)
    requires p < |src|
    ensures Scan(src, p).kind != Eof
  {
    hide Run, StringEnd, NumberFrom, CharBody, ExponentEnd, FractionEnd, Operator, In;
    if StartsNumber(src, p) {
      NumberKinds(src, p, if src[p] == '.' then p + 1 else p, src[p] == '.');
    }
    OperatorKinds(src, p);
  }

  lemma {:induction false} OperatorKinds(src: string, p: nat)
    requires p < |src|
    ensures Operator(src, p).0 != Eof
  {
  }

  lemma {:induction false} NumberKinds(src: string, first: nat, p: nat, isFloat: bool)
    requires first <= p <= |src|
    ensures NumberFrom(src, first, p, isFloat).kind == Integer || NumberFrom(src, first, p, isFloat).kind == Float
    decreases |src| - p
  {
    var c := Peek(src, p);
    if Sees(src, p, Digit) {
      NumberKinds(src, first, p + 1, isFloat);
    } else if c == Some('.') && !isFloat {
      NumberKinds(src, first, p + 1, true);
    } else if Exponent(c) {
      NumberKinds(src, first, if Sign(Peek(src, p + 1)) then p + 2 else p + 1, true);
    }
  }

  // ---------------------------------------------------------------- spans

  /** In order, disjoint, inside the source, with only blanks and comments in between. */
  ghost predicate WellSpaced(src: string, p: nat, ls: seq<Lexeme>)
    requires p <= |src|
  {
    && (forall i :: 0 <= i < |ls| ==> InBounds(ls[i], src))
    && (ls != [] ==> p <= ls[0].first && Trivia(src[p..ls[0].first]))
    && (forall i :: 0 <= i < |ls| - 1 ==>
        ls[i].first < ls[i].end <= ls[i + 1].first && Trivia(src[ls[i].end..ls[i + 1].first]))
  }

  /**
   Any source gives at most one token per byte and the final `Eof`; the tokens are in order and disjoint
   and the bytes between them are blanks and comments.
   */
  lemma {:induction false} TokensWellSpaced(src: string, p: nat)
    requires p <= |src|
    ensures var ls := Tokens(src, p);
            && WellSpaced(src, p, ls) && 1 <= |ls| <= |src| - p + 1
            && ls[|ls| - 1].kind == Eof && ls[|ls| - 1].first == |src|
            && forall i :: 0 <= i < |ls| - 1 ==> ls[i].kind != Eof
    decreases |src| - p
  {
    hide *;
    TokensSpaced(src, p);
    EofLastIs(src, Tokens(src, p));
  }

  /** `Eof` is the last token, at the end of the source, and no other one is. */
  ghost predicate EofLast(src: string, ls: seq<Lexeme>) {
    && ls != [] && ls[|ls| - 1].kind == Eof && ls[|ls| - 1].first == |src|
    && forall i :: 0 <= i < |ls| - 1 ==> ls[i].kind != Eof
  }

  lemma {:induction false} EofLastIs(src: string, ls: seq<Lexeme>)
    requires EofLast(src, ls)
    ensures ls != [] && ls[|ls| - 1].kind == Eof && ls[|ls| - 1].first == |src|
    ensures forall i :: 0 <= i < |ls| - 1 ==> ls[i].kind != Eof
  {
  }

  lemma {:induction false} TokensSpaced(src: string, p: nat)
    requires p <= |src|
    ensures var ls := Tokens(src, p); WellSpaced(src, p, ls) && 1 <= |ls| <= |src| - p + 1 && EofLast(src, ls)
    decreases |src| - p
  {
    hide *;
    var l := Next(src, p);
    SkipsOnlyTrivia(src, p);
    NextFirst(src, p);
    TokenThen(src, p);
    if l.kind == Eof {
      OneSpaced(src, p, l);
    } else {
      TokensSpaced(src, l.end);
      SpacedAfter(src, p, l, Tokens(src, l.end));
    }
  }

  lemma {:induction false} TokenThen(src: string, p: nat)
    requires p <= |src|
    ensures var l := Next(src, p);
            && p <= l.first && (l.kind == Eof ==> Tokens(src, p) == [l])
            && (l.kind != Eof ==> p < l.end <= |src| && Tokens(src, p) == [l] + Tokens(src, l.end))
  {
    hide Scan, SkipEnd;
    NextInBounds(src, p);
    NextFirst(src, p);
  }

  lemma {:induction false} OneSpaced(src: string, p: nat, l: Lexeme)
    requires p <= l.first && InBounds(l, src) && l.first == |src| && Trivia(src[p..l.first]) && l.kind == Eof
    ensures WellSpaced(src, p, [l]) && EofLast(src, [l])
  {
    hide Trivia, InBounds;
  }

  lemma {:induction false} NextFirst(src: string, p: nat)
    requires p <= |src|
    ensures var l := Next(src, p); l.first == SkipEnd(src, p) && (l.kind == Eof <==> l.first == |src|)
    ensures var l := Next(src, p); InBounds(l, src) && l.end <= |src| && (l.kind != Eof ==> l.first < l.end)
  {
    hide Scan, SkipEnd;
    var e := SkipEnd(src, p);
    if e < |src| {
      ScanKinds(src, e);
      ScanProgresses(src, e);
    }
  }

  lemma {:induction false} SpacedAfter(src: string, p: nat, l: Lexeme, rest: seq<Lexeme>)
    requires p <= l.first < l.end <= |src| && InBounds(l, src) && Trivia(src[p..l.first])
    requires WellSpaced(src, l.end, rest) && EofLast(src, rest) && l.kind != Eof
    ensures WellSpaced(src, p, [l] + rest) && EofLast(src, [l] + rest)
  {
    hide Trivia, InBounds;
    var all := [l] + rest;
    assert forall i :: 0 < i < |all| ==> all[i] == rest[i - 1];
  }

  // ---------------------------------------------------------------- printing and lexing again

  /** A token with the bytes in front of its text and behind it: quotes, the `@` of a box, a suffix. */
  datatype Item = Item(kind: TokenKind, keyword: Option<string>, before: string, text: string, after: string,
      value: int)

  function Written(item: Item): string {
    item.before + item.text + item.after
  }

  ghost predicate IdentifierShaped(s: string) {
    s != "" && In(Letter, s[0]) && All(Word, s)
  }

  /** What can be looked up in the keyword table: a word, or one with `@` or `#` before it. */
  ghost predicate KeywordShaped(s: string) {
    || IdentifierShaped(s)
    || (s != "" && s[0] == '@' && IdentifierShaped(s[1..]))
    || (s != "" && s[0] == '#' && All(Letter, s[1..]))
  }

  ghost predicate HexShaped(s: string) {
    |s| >= 2 && s[0] == '0' && (s[1] == 'x' || s[1] == 'X') && All(HexDigit, s[2..])
  }

  /** A number without a point or exponent, or in hexadecimal, or any number with a suffix. */
  ghost predicate IntegerShaped(s: string, suffix: string) {
    && All(Suffix, suffix)
    && (HexShaped(s) || exists xs :: NumberShaped(xs) && s == PartsText(xs) && (Floats(xs) ==> suffix != ""))
  }

  /** A number with a point or exponent, or with an `f`. */
  ghost predicate FloatShaped(s: string) {
    exists xs :: NumberShaped(xs) && ((s == PartsText(xs) && Floats(xs)) || s == PartsText(xs) + "f"
                                      || s == PartsText(xs) + "F")
  }

  ghost predicate CharacterShaped(s: string, value: int) {
    exists f, closed :: CharShaped(f) && s == Quoted(f, closed) && CharIs(f, value)
  }

  ghost predicate BoxShaped(s: string) {
    exists b :: BoxedShaped(b) && s == BoxedText(b)
  }

  /** No token begins with this byte. */
  predicate Alien(c: char) {
    !IsLetter(c) && !IsDigit(c) && !IsSpace(c) && c !in "+-*/%&|^~!<>=,.;:?[](){}@#\"'"
  }

  /** A lone `@`, an `@` word that is no keyword, or a byte that begins no token. */
  ghost predicate ErrorShaped(s: string) {
    || s == "@"
    || (s != "" && s[0] == '@' && IdentifierShaped(s[1..]) && Keywords.Keyword(s).None?)
    || (|s| == 1 && Alien(s[0]))
  }

  function OperatorText(k: TokenKind): Option<string> {
    match k
    case Plus => Some("+") case Minus => Some("-") case Star => Some("*") case Slash => Some("/")
    case Percent => Some("%") case Ampersand => Some("&") case Pipe => Some("|") case Caret => Some("^")
    case Tilde => Some("~") case Exclam => Some("!") case Less => Some("<") case Greater => Some(">")
    case Assign => Some("=") case Comma => Some(",") case Dot => Some(".") case Semicolon => Some(";")
    case Colon => Some(":") case ColonColon => Some("::") case LBracket => Some("[") case RBracket => Some("]")
    case LBrace => Some("{") case RBrace => Some("}") case LParen => Some("(") case RParen => Some(")")
    case Arrow => Some("->") case Ellipsis => Some("...") case PlusAssign => Some("+=")
    case MinusAssign => Some("-=") case StarAssign => Some("*=") case SlashAssign => Some("/=")
    case PercentAssign => Some("%=") case AndAssign => Some("&=") case OrAssign => Some("|=")
    case XorAssign => Some("^=") case LShiftAssign => Some("<<=") case RShiftAssign => Some(">>=")
    case Eq => Some("==") case Neq => Some("!=") case Leq => Some("<=") case Geq => Some(">=")
    case LShift => Some("<<") case RShift => Some(">>") case LogicalAnd => Some("&&") case LogicalOr => Some("||")
    case Incr => Some("++") case Decr => Some("--") case ArrowStar => Some("->*") case Question => Some("?")
    case _ => None
  }

  /** The text is all there is. */
  predicate Bare(item: Item) {
    item.before == "" && item.after == "" && item.keyword.None? && item.value == 0
  }

  ghost predicate Printable(item: Item) {
    match item.kind
    case Identifier => Bare(item) && IdentifierShaped(item.text) && Keywords.Keyword(item.text).None?
    case Keyword =>
      && Bare(item.(keyword := None)) && KeywordShaped(item.text)
      && item.keyword.Some? && Keywords.Keyword(item.text) == item.keyword
    case Integer => Bare(item.(after := "")) && IntegerShaped(item.text, item.after)
    case Float => Bare(item) && FloatShaped(item.text)
    case String => item == Item(String, None, "\"", item.text, "\"", 0) && InUnits(item.text, false)
    case AtString => item == Item(AtString, None, "@\"", item.text, "\"", 0) && InUnits(item.text, false)
    case AtNumber => item == Item(AtNumber, None, "@", item.text, "", 0) && BoxShaped(item.text)
    case Char => Bare(item.(value := 0)) && CharacterShaped(item.text, item.value)
    case AtArray => Bare(item) && item.text == "@["
    case AtDict => Bare(item) && item.text == "@{"
    case PpHash =>
      && Bare(item) && item.text != "" && item.text[0] == '#' && All(Letter, item.text[1..])
      && Keywords.Keyword(item.text).None?
    case Error => Bare(item) && ErrorShaped(item.text)
    case _ => Bare(item) && OperatorText(item.kind) == Some(item.text)
  }

  /** Each token as it is written, and a space. */
  function Print(items: seq<Item>): string {
    if items == [] then "" else Written(items[0]) + " " + Print(items[1..])
  }

  ghost function ItemOf(src: string, l: Lexeme): Item
    requires InBounds(l, src)
  {
    Item(l.kind, l.keyword, src[l.first..l.start], src[l.start..l.stop], src[l.stop..l.end], l.charVal)
  }

  ghost function Items(src: string, ls: seq<Lexeme>): seq<Item>
    requires forall i :: 0 <= i < |ls| ==> InBounds(ls[i], src)
  {
    seq(|ls|, i requires 0 <= i < |ls| => ItemOf(src, ls[i]))
  }

  lemma {:induction false} TextAt(src: string, p: nat, text: string)
    requires Standing(src, p, text)
    ensures forall i :: 0 <= i < |text| ==> src[p + i] == text[i]
  {
    CharsAt(src, p, text);
  }

  lemma {:induction false} ScanWord(src: string, p: nat, text: string)
    requires Standing(src, p, text) && IdentifierShaped(text)
    ensures Scan(src, p) == WordLexeme(src, p, p + |text|, Identifier)
  {
    hide WordLexeme, AtLexeme, StringLexeme, CharLexeme, NumberLexeme, OperatorLexeme, Run;
    TextAt(src, p, text);
    forall i | p <= i < p + |text|
      ensures In(Word, src[i])
    {
      assert src[i] == text[i - p];
    }
    RunOver(src, p, p + |text|, Word);
  }

  lemma {:induction false} ScanAtWord(src: string, p: nat, text: string)
    requires Standing(src, p, text) && text != "" && text[0] == '@' && IdentifierShaped(text[1..])
    ensures Scan(src, p) == WordLexeme(src, p, p + |text|, Error)
  {
    hide WordLexeme, StringLexeme, CharLexeme, NumberLexeme, OperatorLexeme, Run;
    TextAt(src, p, text);
    forall i | p + 1 <= i < p + |text|
      ensures In(Word, src[i])
    {
      assert src[i] == text[1..][i - p - 1];
    }
    assert src[p + 1] == text[1..][0];
    RunOver(src, p + 1, p + |text|, Word);
  }

  lemma {:induction false} ScanHashWord(src: string, p: nat, text: string)
    requires Standing(src, p, text) && text != "" && text[0] == '#' && All(Letter, text[1..])
    ensures Scan(src, p) == WordLexeme(src, p, p + |text|, PpHash)
  {
    hide WordLexeme, AtLexeme, StringLexeme, CharLexeme, NumberLexeme, OperatorLexeme, Run;
    TextAt(src, p, text);
    forall i | p + 1 <= i < p + |text|
      ensures In(Letter, src[i])
    {
      assert src[i] == text[1..][i - p - 1];
    }
    RunOver(src, p + 1, p + |text|, Letter);
  }

  lemma {:induction false} ScanInteger(src: string, p: nat, text: string, after: string)
    requires Standing(src, p, text + after) && IntegerShaped(text, after)
    ensures var (q, e) := (p + |text|, p + |text| + |after|);
            p < |src| && Scan(src, p) == Lexeme(Integer, None, p, p, q, e, e, 0)
  {
    hide Scan, NumberShaped, PartsText, Floats, All;
    if HexShaped(text) {
      assert text == ['0', text[1]] + text[2..];
      ScanHex(src, p, text[1], text[2..], after);
    } else {
      var xs :| NumberShaped(xs) && text == PartsText(xs) && (Floats(xs) ==> after != "");
      ScanDecimal(src, p, xs, after);
    }
  }

  lemma {:induction false} ScanFloat(src: string, p: nat, text: string)
    requires Standing(src, p, text) && FloatShaped(text)
    ensures p < |src| && Scan(src, p) == Plain(Float, None, p, p + |text|)
  {
    hide Scan, NumberShaped, PartsText, Floats;
    var xs :| NumberShaped(xs)
        && ((text == PartsText(xs) && Floats(xs)) || text == PartsText(xs) + "f" || text == PartsText(xs) + "F");
    var after := if text == PartsText(xs) then "" else text[|PartsText(xs)|..];
    assert text == PartsText(xs) + after;
    if after != "" {
      assert !In(Suffix, after[0]);
    }
    ScanDecimal(src, p, xs, after);
  }

  lemma {:induction false} ScanCharacter(src: string, p: nat, text: string, value: int)
    requires Standing(src, p, text) && CharacterShaped(text, value)
    ensures p < |src| && Scan(src, p) == Lexeme(Char, None, p, p, p + |text|, p + |text|, p, value)
  {
    hide Scan, Quoted, CharShaped, CharIs;
    var f, closed :| CharShaped(f) && text == Quoted(f, closed) && CharIs(f, value);
    ScanChar(src, p, f, closed);
    OneValue(f, value, Scan(src, p).charVal);
  }

  lemma {:induction false} ScanBox(src: string, p: nat, text: string)
    requires Standing(src, p, "@" + text) && BoxShaped(text)
    ensures var e := p + 1 + |text|; p < |src| && Scan(src, p) == Lexeme(AtNumber, None, p, p + 1, e, e, p, 0)
  {
    hide Scan, BoxedShaped, BoxedText;
    var b :| BoxedShaped(b) && text == BoxedText(b);
    ScanBoxed(src, p, b);
  }

  lemma {:induction false} ScanBracket(src: string, p: nat, list: bool)
    requires Standing(src, p, if list then "@[" else "@{")
    ensures Scan(src, p) == Lexeme(if list then AtArray else AtDict, None, p, p, p + 2, p + 2, p, 0)
  {
    hide WordLexeme, StringLexeme, CharLexeme, NumberLexeme, OperatorLexeme, Run;
    TextAt(src, p, if list then "@[" else "@{");
    assert src[p + 0] == '@' && src[p + 1] == if list then '[' else '{';
  }

  lemma {:induction false} ScanError(src: string, p: nat, text: string)
    requires Standing(src, p, text) && ErrorShaped(text)
    ensures p < |src| && Scan(src, p) == Plain(Error, None, p, p + |text|)
  {
    hide WordLexeme, StringLexeme, CharLexeme, NumberLexeme, Run, Keywords.Keyword;
    TextAt(src, p, text);
    assert src[p + 0] == text[0];
    if text != "@" && text[0] == '@' {
      ScanAtWord(src, p, text);
      WordTextIs(src, p, text, Error);
    }
  }

  lemma {:induction false} WordTextIs(src: string, p: nat, text: string, otherwise: TokenKind)
    requires Standing(src, p, text)
    ensures var k := Keywords.Keyword(text);
            WordLexeme(src, p, p + |text|, otherwise)
            == Plain(if k.Some? then Keyword else otherwise, k, p, p + |text|)
  {
  }

  /** Behind a space no longer operator is possible. */
  lemma {:induction false} OperatorStanding(src: string, p: nat, kind: TokenKind, text: string)
    requires Standing(src, p, text) && OperatorText(kind) == Some(text)
    ensures Operator(src, p) == (kind, |text|)
  {
    hide Operator, OperatorText;
    TextAt(src, p, text);
    OperatorLength(kind, text);
    assert src[p] == text[0];
    if |text| == 1 {
      OneByteOperator(src, p, kind, text);
    } else if |text| == 2 {
      assert src[p + 1] == text[1];
      TwoByteOperator(src, p, kind, text);
    } else {
      assert src[p + 1] == text[1] && src[p + 2] == text[2];
      ThreeByteOperator(src, p, kind, text);
    }
  }

  lemma {:induction false} OperatorLength(kind: TokenKind, text: string)
    requires OperatorText(kind) == Some(text)
    ensures 1 <= |text| <= 3
  {
  }

  lemma {:induction false} OneByteOperator(src: string, p: nat, kind: TokenKind, text: string)
    requires OperatorText(kind) == Some(text) && |text| == 1
    requires p + 1 < |src| && src[p] == text[0] && src[p + 1] == ' '
    ensures Operator(src, p) == (kind, 1)
  {
  }

  lemma {:induction false} TwoByteOperator(src: string, p: nat, kind: TokenKind, text: string)
    requires OperatorText(kind) == Some(text) && |text| == 2
    requires p + 2 < |src| && src[p] == text[0] && src[p + 1] == text[1] && src[p + 2] == ' '
    ensures Operator(src, p) == (kind, 2)
  {
  }

  lemma {:induction false} ThreeByteOperator(src: string, p: nat, kind: TokenKind, text: string)
    requires OperatorText(kind) == Some(text) && |text| == 3
    requires p + 2 < |src| && src[p] == text[0] && src[p + 1] == text[1] && src[p + 2] == text[2]
    ensures Operator(src, p) == (kind, 3)
  {
  }

  /** Wherever an operator text stands, what is taken is that operator or a longer one. */
  lemma {:induction false} LongestOperator(src: string, p: nat, kind: TokenKind, text: string)
    requires p < |src| && OperatorText(kind) == Some(text) && At(src, p, text)
    ensures var (k, n) := Operator(src, p); |text| < n || (kind == k && |text| == n)
  {
    hide Operator, OperatorText;
    CharsAt(src, p, text);
    OperatorLength(kind, text);
    assert src[p] == text[0];
    if |text| == 1 {
      OneByteTaken(src, p, kind, text);
    } else if |text| == 2 {
      assert src[p + 1] == text[1];
      TwoBytesTaken(src, p, kind, text);
    } else {
      assert src[p + 1] == text[1] && src[p + 2] == text[2];
      ThreeByteOperator(src, p, kind, text);
    }
  }

  lemma {:induction false} OneByteTaken(src: string, p: nat, kind: TokenKind, text: string)
    requires OperatorText(kind) == Some(text) && |text| == 1 && p < |src| && src[p] == text[0]
    ensures var (k, n) := Operator(src, p); 1 < n || kind == k
  {
  }

  lemma {:induction false} TwoBytesTaken(src: string, p: nat, kind: TokenKind, text: string)
    requires OperatorText(kind) == Some(text) && |text| == 2
    requires p + 1 < |src| && src[p] == text[0] && src[p + 1] == text[1]
    ensures var (k, n) := Operator(src, p); 2 < n || (kind == k && n == 2)
  {
  }

  /** What is taken is the text of its kind; only the third byte behind two dots may be another. */
  lemma {:induction false} OperatorTaken(src: string, p: nat)
    requires p < |src|
    ensures var (k, n) := Operator(src, p);
            && (k == Error ==> n == 1)
            && (k != Error ==> OperatorText(k).Some? && |OperatorText(k).value| == n)
            && (k != Error && k != Ellipsis ==> At(src, p, OperatorText(k).value))
            && (k == Ellipsis ==> p + 1 < |src| && src[p] == src[p + 1] == '.')
  {
    hide OperatorText;
    var (k, n) := Operator(src, p);
    if k != Error {
      var text := TextOf(src, p);
      if k != Ellipsis {
        assert src[p..p + n][0] == text[0] && (n > 1 ==> src[p..p + n][1] == text[1]);
        assert src[p..p + n] == text;
      }
    }
  }

  /** The text of the operator that is taken. */
  ghost predicate Spells(src: string, p: nat, k: TokenKind, n: nat, text: string) {
    && p < |src| && OperatorText(k) == Some(text) && |text| == n && n > 0 && src[p] == text[0]
    && (n > 1 ==> p + 1 < |src| && src[p + 1] == text[1])
    && (n > 2 && k != Ellipsis ==> p + 2 < |src| && src[p + 2] == text[2])
  }

  predicate Arithmetic(c: char) {
    c == '+' || c == '-' || c == '*' || c == '/' || c == '%'
  }

  predicate Bitwise(c: char) {
    c == '&' || c == '|' || c == '^' || c == '!'
  }

  predicate Comparing(c: char) {
    c == '<' || c == '>' || c == '='
  }

  lemma {:induction false} TextOf(src: string, p: nat) returns (text: string)
    requires p < |src| && Operator(src, p).0 != Error
    ensures var (k, n) := Operator(src, p); Spells(src, p, k, n, text)
  {
    hide Operator, OperatorText;
    if Arithmetic(src[p]) {
      text := ArithmeticText(src, p);
    } else if Bitwise(src[p]) {
      text := BitwiseText(src, p);
    } else if Comparing(src[p]) {
      text := ComparingText(src, p);
    } else {
      text := OtherText(src, p);
    }
  }

  lemma {:induction false} ArithmeticText(src: string, p: nat) returns (text: string)
    requires p < |src| && Arithmetic(src[p])
    ensures var (k, n) := Operator(src, p); Spells(src, p, k, n, text)
  {
    hide Punctuation;
    text := OperatorText(Operator(src, p).0).value;
  }

  lemma {:induction false} BitwiseText(src: string, p: nat) returns (text: string)
    requires p < |src| && Bitwise(src[p])
    ensures var (k, n) := Operator(src, p); Spells(src, p, k, n, text)
  {
    hide Punctuation;
    text := OperatorText(Operator(src, p).0).value;
  }

  lemma {:induction false} ComparingText(src: string, p: nat) returns (text: string)
    requires p < |src| && Comparing(src[p])
    ensures var (k, n) := Operator(src, p); Spells(src, p, k, n, text)
  {
    hide Punctuation;
    text := OperatorText(Operator(src, p).0).value;
  }

  lemma {:induction false} OtherText(src: string, p: nat) returns (text: string)
    requires p < |src| && !Arithmetic(src[p]) && !Bitwise(src[p]) && !Comparing(src[p]) && Operator(src, p).0 != Error
    ensures var (k, n) := Operator(src, p); Spells(src, p, k, n, text)
  {
    text := OperatorText(Operator(src, p).0).value;
  }

  lemma {:induction false} OperatorFirst(kind: TokenKind, text: string)
    requires OperatorText(kind) == Some(text)
    ensures text != "" && !IsLetter(text[0]) && !IsDigit(text[0]) && !IsSpace(text[0])
    ensures text[0] != '@' && text[0] != '#' && text[0] != '"' && text[0] != '\''
    ensures text[0] == '.' ==> |text| == 1 || text[1] == '.'
    ensures text[0] == '/' ==> |text| == 1 || text[1] == '='
  {
  }

  lemma {:induction false} ScanOperator(src: string, p: nat, kind: TokenKind, text: string)
    requires Standing(src, p, text) && OperatorText(kind) == Some(text)
    ensures Scan(src, p) == Plain(kind, None, p, p + |text|)
  {
    hide WordLexeme, AtLexeme, StringLexeme, CharLexeme, NumberLexeme, Operator, OperatorText, Run;
    TextAt(src, p, text);
    OperatorFirst(kind, text);
    OperatorStanding(src, p, kind, text);
    assert src[p] == text[0];
    if |text| > 1 {
      assert src[p + 1] == text[1];
    }
  }

  lemma {:induction false} FirstByte(item: Item)
    requires Printable(item)
    ensures Written(item) != "" && !IsSpace(Written(item)[0])
    ensures Written(item)[0] == '/' ==> |Written(item)| == 1 || Written(item)[1] == '='
  {
    hide OperatorText, Keywords.Keyword, IntegerShaped, FloatShaped, CharacterShaped, BoxShaped, InUnits;
    match item.kind
    case Integer => FirstOfInteger(item.text, item.after);
    case Float => FirstOfFloat(item.text);
    case Char => FirstOfCharacter(item.text, item.value);
    case _ =>
      if OperatorText(item.kind) == Some(item.text) {
        OperatorFirst(item.kind, item.text);
      }
  }

  lemma {:induction false} FirstOfCharacter(text: string, value: int)
    requires CharacterShaped(text, value)
    ensures text != "" && text[0] == '\''
  {
    hide CharShaped, CharIs, CharText;
    var f, closed :| CharShaped(f) && text == Quoted(f, closed) && CharIs(f, value);
  }

  lemma {:induction false} FirstOfNumber(xs: seq<Part>)
    requires NumberShaped(xs)
    ensures PartsText(xs) != "" && (IsDigit(PartsText(xs)[0]) || PartsText(xs)[0] == '.')
  {
    FirstOfParts(xs, false);
  }

  lemma {:induction false} FirstOfInteger(text: string, after: string)
    requires IntegerShaped(text, after)
    ensures text != "" && (IsDigit(text[0]) || text[0] == '.')
  {
    hide PartsText, NumberShaped, Floats;
    if !HexShaped(text) {
      var xs :| NumberShaped(xs) && text == PartsText(xs) && (Floats(xs) ==> after != "");
      FirstOfNumber(xs);
    }
  }

  lemma {:induction false} FirstOfFloat(text: string)
    requires FloatShaped(text)
    ensures text != "" && (IsDigit(text[0]) || text[0] == '.')
  {
    hide PartsText, NumberShaped, Floats;
    var xs :| NumberShaped(xs)
        && ((text == PartsText(xs) && Floats(xs)) || text == PartsText(xs) + "f" || text == PartsText(xs) + "F");
    FirstOfNumber(xs);
  }

  /** The lexeme at `p` is the item. */
  predicate Reads(l: Lexeme, p: nat, item: Item) {
    && l.kind == item.kind && l.keyword == item.keyword && l.charVal == item.value && l.first == p
    && l.start == p + |item.before| && l.stop == l.start + |item.text| && l.end == l.stop + |item.after|
  }

  /** A printed token is scanned as what it was. */
  lemma {:induction false} ScanPrinted(src: string, p: nat, item: Item)
    requires Printable(item) && Standing(src, p, Written(item))
    ensures p < |src| && Reads(Scan(src, p), p, item)
  {
    hide Scan, OperatorText, IdentifierShaped, IntegerShaped, FloatShaped, CharacterShaped, BoxShaped, ErrorShaped,
    InUnits, All, Keywords.Keyword, WordLexeme, Alien, KeywordShaped;
    var text := item.text;
    BareText(item);
    match item.kind
    case Identifier =>
      ScanWord(src, p, text);
      WordTextIs(src, p, text, Identifier);
    case Keyword => ScanKeyword(src, p, text);
    case PpHash =>
      ScanHashWord(src, p, text);
      WordTextIs(src, p, text, PpHash);
    case Integer => ScanInteger(src, p, text, item.after);
    case Float => ScanFloat(src, p, text);
    case String => ScanString(src, p, false, text);
    case AtString => ScanString(src, p, true, text);
    case AtNumber => ScanBox(src, p, text);
    case Char => ScanCharacter(src, p, text, item.value);
    case AtArray => ScanBracket(src, p, true);
    case AtDict => ScanBracket(src, p, false);
    case Error => ScanError(src, p, text);
    case _ => ScanOperator(src, p, item.kind, text);
  }

  lemma {:induction false} ScanKeyword(src: string, p: nat, text: string)
    requires Standing(src, p, text) && KeywordShaped(text) && Keywords.Keyword(text).Some?
    ensures p < |src| && Scan(src, p) == Plain(Keyword, Keywords.Keyword(text), p, p + |text|)
  {
    hide Scan, IdentifierShaped, All, Keywords.Keyword, WordLexeme;
    if IdentifierShaped(text) {
      ScanWord(src, p, text);
      WordTextIs(src, p, text, Identifier);
    } else if text[0] == '@' {
      ScanAtWord(src, p, text);
      WordTextIs(src, p, text, Error);
    } else {
      ScanHashWord(src, p, text);
      WordTextIs(src, p, text, PpHash);
    }
  }

  lemma {:induction false} BareText(item: Item)
    ensures item.before == "" ==> Written(item) == item.text + item.after
    ensures item.after == "" ==> Written(item) == item.before + item.text
    ensures item.before == "" == item.after ==> Written(item) == item.text
  {
  }

  /** After the tokens before it, each printed token comes back, and nothing else. */
  lemma {:induction false} RelexFrom(src: string, p: nat, items: seq<Item>)
    requires p <= |src| && src[p..] == Print(items)
    requires forall i :: 0 <= i < |items| ==> Printable(items[i])
    ensures var ls := Tokens(src, p);
            && (forall i :: 0 <= i < |ls| ==> InBounds(ls[i], src))
            && Items(src, ls) == items + [END]
    decreases |items|
  {
    hide Scan, Printable, Next, Tokens, Items, SkipEnd, Written;
    if items == [] {
      assert |src[p..]| == |src| - p;
      OnlyEof(src, p);
    } else {
      var item, text := items[0], Written(items[0]);
      PrintedFirst(src, p, items);
      ScanPrinted(src, p, item);
      FirstByte(item);
      var e := p + |text|;
      NextPrinted(src, p, text);
      PrintableKind(item);
      BlankBetween(src, p, e, items[1..]);
      RelexFrom(src, e + 1, items[1..]);
      OneMore(src, p, e, item, items[1..]);
      assert items == [item] + items[1..];
      assert [item] + (items[1..] + [END]) == items + [END];
    }
  }

  const END: Item := Item(Eof, None, "", "", "", 0)

  lemma {:induction false} OnlyEof(src: string, p: nat)
    requires p == |src|
    ensures Tokens(src, p) == [Plain(Eof, None, p, p)] && InBounds(Plain(Eof, None, p, p), src)
    ensures Items(src, [Plain(Eof, None, p, p)]) == [] + [END]
  {
    NextAtEnd(src, p);
    assert src[p..p] == "";
  }

  lemma {:induction false} ReadsItem(src: string, p: nat, l: Lexeme, item: Item)
    requires InBounds(l, src) && Reads(l, p, item) && Standing(src, p, Written(item))
    ensures ItemOf(src, l) == item && l.end == p + |Written(item)|
  {
    AtSplit(src, p, item.before + item.text, item.after);
    AtSplit(src, p, item.before, item.text);
  }

  lemma {:induction false} ItemsCons(src: string, l: Lexeme, more: seq<Lexeme>, item: Item, rest: seq<Item>)
    requires InBounds(l, src) && ItemOf(src, l) == item
    requires (forall i :: 0 <= i < |more| ==> InBounds(more[i], src)) && Items(src, more) == rest
    ensures var all := [l] + more;
            (forall i :: 0 <= i < |all| ==> InBounds(all[i], src)) && Items(src, all) == [item] + rest
  {
    hide InBounds, ItemOf;
    var all := [l] + more;
    assert forall i :: 0 < i < |all| ==> all[i] == more[i - 1];
  }

  lemma {:induction false} FirstToken(src: string, p: nat)
    requires p <= |src| && Next(src, p).kind != Eof
    ensures var l := Next(src, p); InBounds(l, src) && Tokens(src, p) == [l] + Tokens(src, l.end)
  {
    hide Next;
    NextInBounds(src, p);
  }

  lemma {:induction false} OneMore(src: string, p: nat, e: nat, item: Item, rest: seq<Item>)
    requires p <= e < |src| && item.kind != Eof && Standing(src, p, Written(item)) && e == p + |Written(item)|
    requires p <= |src| && Reads(Next(src, p), p, item) && Tokens(src, e) == Tokens(src, e + 1)
    requires var more := Tokens(src, e + 1); forall i :: 0 <= i < |more| ==> InBounds(more[i], src)
    requires Items(src, Tokens(src, e + 1)) == rest + [END]
    ensures var all := Tokens(src, p); forall i :: 0 <= i < |all| ==> InBounds(all[i], src)
    ensures Items(src, Tokens(src, p)) == [item] + (rest + [END])
  {
    hide Next, Written, Tokens, Items, InBounds, ItemOf, Standing;
    FirstToken(src, p);
    ReadsItem(src, p, Next(src, p), item);
    ItemsCons(src, Next(src, p), Tokens(src, e), item, rest + [END]);
  }

  lemma {:induction false} PrintableKind(item: Item)
    requires Printable(item)
    ensures item.kind != Eof
  {
  }

  lemma {:induction false} NextAtEnd(src: string, p: nat)
    requires p == |src|
    ensures Next(src, p) == Plain(Eof, None, p, p)
  {
  }

  lemma {:induction false} PrintedFirst(src: string, p: nat, items: seq<Item>)
    requires p <= |src| && items != [] && src[p..] == Print(items)
    ensures var text := Written(items[0]);
            && Standing(src, p, text)
            && p + |text| + 1 <= |src| && src[p + |text| + 1..] == Print(items[1..])
  {
    hide Written;
    var text, s, rest := Written(items[0]), src[p..], Print(items[1..]);
    assert s == text + " " + rest;
    assert |s| == |src| - p;
    assert src[p + |text|] == s[|text|];
    assert src[p..p + |text|] == s[..|text|] == text;
    assert src[p + |text| + 1..] == s[|text| + 1..] == rest;
  }

  lemma {:induction false} NextPrinted(src: string, p: nat, text: string)
    requires Standing(src, p, text) && text != "" && !IsSpace(text[0])
    requires text[0] == '/' ==> |text| == 1 || text[1] == '='
    ensures SkipEnd(src, p) == p && Next(src, p) == Scan(src, p)
  {
    hide Scan;
    TextAt(src, p, text);
    assert src[p] == text[0];
    assert |text| > 1 ==> src[p + 1] == text[1];
  }

  /** The space between two tokens is skipped by the next call. */
  lemma {:induction false} BlankBetween(src: string, p: nat, e: nat, rest: seq<Item>)
    requires p <= e < |src| && src[e] == ' '
    ensures Next(src, e) == Next(src, e + 1) && Tokens(src, e) == Tokens(src, e + 1)
  {
    hide Scan;
  }

  /** Printing tokens of every kind and lexing what was printed gives the same tokens, and then the end. */
  lemma {:induction false} Relex(items: seq<Item>)
    requires forall i :: 0 <= i < |items| ==> Printable(items[i])
    ensures var src := Print(items);
            var ls := Tokens(src, 0);
            && (forall i :: 0 <= i < |ls| ==> InBounds(ls[i], src))
            && Items(src, ls) == items + [END]
  {
    var src := Print(items);
    assert src[0..] == src;
    RelexFrom(src, 0, items);
  }

  /** Two dots are taken for an ellipsis, whatever byte comes third; its text is one only if that is a dot. */
  lemma {:induction false} TwoDotsTakeAThird(src: string, p: nat)
    requires p + 2 < |src| && src[p] == '.' == src[p + 1]
    ensures Scan(src, p) == Plain(Ellipsis, None, p, p + 3)
    ensures OperatorText(Ellipsis) == Some(src[p..p + 3]) <==> src[p + 2] == '.'
  {
    hide AtLexeme, WordLexeme, StringLexeme, CharLexeme, NumberLexeme, Run;
    assert src[p..p + 3] == ['.', '.', src[p + 2]];
  }

  /** Printed, `..` swallows the space behind it. */
  lemma {:induction false} TwoDotsDoNotRelex()
    ensures var src := ".. "; Tokens(src, 0)[0] == Plain(Ellipsis, None, 0, 3)
  {
    var src := ".. ";
    TwoDotsTakeAThird(src, 0);
    assert SkipEnd(src, 0) == 0;
  }
}

/**
 The scanner (crates/lexer/src/lexer.rs:136-682) over the bytes of one source file: what one call of
 `next_token` skips, returns and consumes, and the class that does it with a moving position.
 Columns are not modelled.
 */
module Lexer {
  import opened Wrappers
  import Keywords

  datatype TokenKind =
    | Identifier | Keyword
    | Integer | Float | String | AtString | AtNumber | Char
    | Plus | Minus | Star | Slash | Percent | Ampersand | Pipe | Caret | Tilde | Exclam | Less | Greater
    | Assign | Comma | Dot | Semicolon | Colon | ColonColon | LBracket | RBracket | AtArray | LBrace | RBrace
    | AtDict | LParen | RParen | Arrow | Ellipsis
    | PlusAssign | MinusAssign | StarAssign | SlashAssign | PercentAssign | AndAssign | OrAssign | XorAssign
    | LShiftAssign | RShiftAssign | Eq | Neq | Leq | Geq | LShift | RShift | LogicalAnd | LogicalOr
    | Incr | Decr | ArrowStar | Question
    | PpHash | Eof | Error

  /** `text` of a token is `source[start..start + length]`. */
  datatype Token = Token(kind: TokenKind, keyword: Option<string>, start: nat, length: nat, line: nat, charVal: int)

  // ---------------------------------------------------------------- bytes

  datatype ByteClass = Word | Letter | Digit | HexDigit | Suffix | LineRest

  predicate IsDigit(c: char) { '0' <= c <= '9' }

  predicate IsLetter(c: char) { 'a' <= c <= 'z' || 'A' <= c <= 'Z' || c == '_' }

  predicate IsHexDigit(c: char) { IsDigit(c) || 'a' <= c <= 'f' || 'A' <= c <= 'F' }

  predicate IsSpace(c: char) { c == ' ' || c == '\t' || c == '\n' || c == '\r' }

  predicate In(k: ByteClass, c: char) {
    match k
    case Word => IsLetter(c) || IsDigit(c)
    case Letter => IsLetter(c)
    case Digit => IsDigit(c)
    case HexDigit => IsHexDigit(c)
    case Suffix => c == 'u' || c == 'U' || c == 'l' || c == 'L'
    case LineRest => c != '\n'
  }

  function Peek(src: string, p: nat): Option<char> {
    if p < |src| then Some(src[p]) else None
  }

  predicate Sees(src: string, p: nat, k: ByteClass) {
    p < |src| && In(k, src[p])
  }

  /** The end of the longest stretch of `k` bytes from `p`. */
  function Run(src: string, p: nat, k: ByteClass): (e: nat)
    requires p <= |src|
    ensures p <= e <= |src| && !Sees(src, e, k) && forall i :: p <= i < e ==> In(k, src[i])
    decreases |src| - p
  {
    if Sees(src, p, k) then Run(src, p + 1, k) else p
  }

  /** One plus the newlines before `p`. */
  ghost function LineAt(src: string, p: nat): nat
    requires p <= |src|
  {
    if p == 0 then 1 else LineAt(src, p - 1) + if src[p - 1] == '\n' then 1 else 0
  }

  // ---------------------------------------------------------------- what is skipped

  predicate Closes(src: string, p: nat) {
    p + 1 < |src| && src[p] == '*' && src[p + 1] == '/'
  }

  /** Behind the first closing mark; without one, at the last byte. */
  function BlockEnd(src: string, p: nat): (e: nat)
    requires p <= |src|
    ensures p <= e <= |src|
    ensures (p + 2 <= e && Closes(src, e - 2) && forall k :: p <= k < e - 2 ==> !Closes(src, k))
            || (e + 1 >= |src| && forall k :: p <= k < |src| ==> !Closes(src, k))
    decreases |src| - p
  {
    if p + 1 < |src| then if Closes(src, p) then p + 2 else BlockEnd(src, p + 1) else p
  }

  function SkipEnd(src: string, p: nat): (e: nat)
    requires p <= |src|
    ensures p <= e <= |src| && (e < |src| ==> !IsSpace(src[e]))
    decreases |src| - p
  {
    if p == |src| then p
    else if IsSpace(src[p]) then SkipEnd(src, p + 1)
    else if src[p] == '/' && Peek(src, p + 1) == Some('/') then SkipEnd(src, Run(src, p + 2, LineRest))
    else if src[p] == '/' && Peek(src, p + 1) == Some('*') then SkipEnd(src, BlockEnd(src, p + 2))
    else p
  }

  // ---------------------------------------------------------------- what is scanned

  /**
   A token that begins at `first`: its text is `src[start..stop]`, the position moves to `end`, and its
   line is that of `lineAt`.
   */
  datatype Lexeme = Lexeme(kind: TokenKind, keyword: Option<string>, first: nat, start: nat, stop: nat, end: nat,
      lineAt: nat, charVal: int)

  predicate InBounds(l: Lexeme, src: string) {
    l.first <= l.start <= l.stop <= l.end <= |src| && l.first <= l.lineAt <= l.end
  }

  /** A token whose text is all it consumes, with the line it ends on. */
  function Plain(kind: TokenKind, keyword: Option<string>, p: nat, e: nat): Lexeme {
    Lexeme(kind, keyword, p, p, e, e, e, 0)
  }

  /** A word of the source looked up in the table. */
  ghost function WordLexeme(src: string, p: nat, e: nat, otherwise: TokenKind): Lexeme
    requires p <= e <= |src|
  {
    var keyword := Keywords.Keyword(src[p..e]);
    Plain(if keyword.Some? then Keyword else otherwise, keyword, p, e)
  }

  /** The closing quote, or the end of the source; a backslash takes the next byte with it. */
  function StringEnd(src: string, p: nat): (e: nat)
    requires p <= |src|
    ensures p <= e <= |src| && (e < |src| ==> src[e] == '"')
    decreases |src| - p
  {
    if p == |src| || src[p] == '"' then p
    else if src[p] == '\\' && p + 1 < |src| then StringEnd(src, p + 2)
    else StringEnd(src, p + 1)
  }

  /** A string whose text begins at `p`, behind its opening quote. */
  function StringLexeme(src: string, kind: TokenKind, first: nat, p: nat): Lexeme
    requires p <= |src|
  {
    var stop := StringEnd(src, p);
    var end := if stop < |src| then stop + 1 else stop;
    Lexeme(kind, None, first, p, stop, end, end, 0)
  }

  /** The digits, fraction and exponent of a boxed number. */
  function FractionEnd(src: string, p: nat): (e: nat)
    requires p <= |src|
    ensures p <= e <= |src|
  {
    if Peek(src, p) == Some('.') && Sees(src, p + 1, Digit) then Run(src, p + 1, Digit) else p
  }

  predicate Sign(c: Option<char>) { c == Some('+') || c == Some('-') }

  predicate Exponent(c: Option<char>) { c == Some('e') || c == Some('E') }

  function ExponentEnd(src: string, p: nat): (e: nat)
    requires p <= |src|
    ensures p <= e <= |src|
  {
    if Exponent(Peek(src, p)) then
      var digits := if Sign(Peek(src, p + 1)) then p + 2 else p + 1;
      if Sees(src, digits, Digit) then Run(src, digits, Digit) else p
    else p
  }

  ghost function AtLexeme(src: string, p: nat): Lexeme
    requires p < |src| && src[p] == '@'
  {
    var next := Peek(src, p + 1);
    if next == Some('"') then StringLexeme(src, AtString, p, p + 2)
    else if next == Some('[') then Lexeme(AtArray, None, p, p, p + 2, p + 2, p, 0)
    else if next == Some('{') then Lexeme(AtDict, None, p, p, p + 2, p + 2, p, 0)
    else if next == Some('(') then Lexeme(LParen, None, p, p, p + 1, p + 1, p, 0)
    else if Sees(src, p + 1, Letter) then WordLexeme(src, p, Run(src, p + 1, Word), Error)
    else if Sees(src, p + 1, Digit) then
      var e := ExponentEnd(src, FractionEnd(src, Run(src, p + 1, Digit)));
      Lexeme(AtNumber, None, p, p + 1, e, e, p, 0)
    else Plain(Error, None, p, p + 1)
  }

  function HexValue(c: char): int
    requires IsHexDigit(c)
  {
    if IsDigit(c) then c as int - '0' as int
    else if 'a' <= c then c as int - 'a' as int + 10
    else c as int - 'A' as int + 10
  }

  function EscapeValue(c: char): int {
    if c == 'n' then 10 else if c == 't' then 9 else if c == 'r' then 13 else if c == '0' then 0
    else if c == 'b' then 8 else if c == 'f' then 12 else if c == 'v' then 11
    else if c == '\\' then 92 else if c == '\'' then 39 else if c == '"' then 34
    else 92
  }

  /** The end of a character's bytes, from behind the quote, and its value. */
  function CharBody(src: string, p: nat): (r: (nat, int))
    requires p <= |src|
    ensures p <= r.0 <= |src|
  {
    if p == |src| then (p, 0)
    else if src[p] != '\\' then (p + 1, src[p] as int)
    else if p + 1 == |src| then (p + 1, 92)
    else if src[p + 1] != 'x' && src[p + 1] != 'X' then (p + 2, EscapeValue(src[p + 1]))
    else if !Sees(src, p + 2, HexDigit) then (p + 2, 0)
    else if !Sees(src, p + 3, HexDigit) then (p + 3, HexValue(src[p + 2]))
    else (p + 4, HexValue(src[p + 2]) * 16 + HexValue(src[p + 3]))
  }

  function CharLexeme(src: string, p: nat): Lexeme
    requires p < |src|
  {
    var (e, value) := CharBody(src, p + 1);
    var end := if Peek(src, e) == Some('\'') then e + 1 else e;
    Lexeme(Char, None, p, p, end, end, p, value)
  }

  predicate StartsNumber(src: string, p: nat) {
    Sees(src, p, Digit) || (Peek(src, p) == Some('.') && Sees(src, p + 1, Digit))
  }

  /** The loop over digits, dots and exponents of the number that began at `first`. */
  function NumberFrom(src: string, first: nat, p: nat, isFloat: bool): (l: Lexeme)
    requires first <= p <= |src|
    ensures l.first == first && p <= l.stop && InBounds(l, src)
    decreases |src| - p
  {
    var c := Peek(src, p);
    if Sees(src, p, Digit) then NumberFrom(src, first, p + 1, isFloat)
    else if c == Some('.') && !isFloat then NumberFrom(src, first, p + 1, true)
    else if Exponent(c) then NumberFrom(src, first, if Sign(Peek(src, p + 1)) then p + 2 else p + 1, true)
    else if Sees(src, p, Suffix) then
      var end := Run(src, p, Suffix);
      Lexeme(Integer, None, first, first, p, end, end, 0)
    else if c == Some('f') || c == Some('F') then Plain(Float, None, first, p + 1)
    else Plain(if isFloat then Float else Integer, None, first, p)
  }

  function NumberLexeme(src: string, p: nat): (l: Lexeme)
    requires StartsNumber(src, p)
  {
    if src[p] == '0' && (Peek(src, p + 1) == Some('x') || Peek(src, p + 1) == Some('X')) then
      var stop := Run(src, p + 2, HexDigit);
      var end := Run(src, stop, Suffix);
      Lexeme(Integer, None, p, p, stop, end, end, 0)
    else NumberFrom(src, p, if src[p] == '.' then p + 1 else p, src[p] == '.')
  }

  /** Kinds of the bytes that are tokens by themselves; any other byte is an error token. */
  function Punctuation(c: char): TokenKind {
    match c
    case '~' => Tilde
    case ',' => Comma
    case ';' => Semicolon
    case '?' => Question
    case '[' => LBracket
    case ']' => RBracket
    case '{' => LBrace
    case '}' => RBrace
    case '(' => LParen
    case ')' => RParen
    case _ => Error
  }

  /** Operator kinds and how many bytes each takes, when there are as many. */
  function Operator(src: string, p: nat): (r: (TokenKind, nat))
    requires p < |src|
    ensures 0 < r.1
  {
    var c, n, m := src[p], Peek(src, p + 1), Peek(src, p + 2);
    if c == '+' then if n == Some('+') then (Incr, 2) else if n == Some('=') then (PlusAssign, 2) else (Plus, 1)
    else if c == '-' then
      if n == Some('-') then (Decr, 2)
      else if n == Some('>') then if m == Some('*') then (ArrowStar, 3) else (Arrow, 2)
      else if n == Some('=') then (MinusAssign, 2)
      else (Minus, 1)
    else if c == '*' then if n == Some('=') then (StarAssign, 2) else (Star, 1)
    else if c == '/' then if n == Some('=') then (SlashAssign, 2) else (Slash, 1)
    else if c == '%' then if n == Some('=') then (PercentAssign, 2) else (Percent, 1)
    else if c == '&' then if n == Some('&') then (LogicalAnd, 2) else if n == Some('=') then (AndAssign, 2)
        else (Ampersand, 1)
    else if c == '|' then if n == Some('|') then (LogicalOr, 2) else if n == Some('=') then (OrAssign, 2) else (Pipe, 1)
    else if c == '^' then if n == Some('=') then (XorAssign, 2) else (Caret, 1)
    else if c == '!' then if n == Some('=') then (Neq, 2) else (Exclam, 1)
    else if c == '<' then
      if n == Some('<') then if m == Some('=') then (LShiftAssign, 3) else (LShift, 2)
      else if n == Some('=') then (Leq, 2)
      else (Less, 1)
    else if c == '>' then
      if n == Some('>') then if m == Some('=') then (RShiftAssign, 3) else (RShift, 2)
      else if n == Some('=') then (Geq, 2)
      else (Greater, 1)
    else if c == '=' then if n == Some('=') then (Eq, 2) else (Assign, 1)
    // after one dot the next byte is known to be a dot, and a third byte is taken whatever it is
    else if c == '.' then if n == Some('.') then (Ellipsis, 3) else (Dot, 1)
    else if c == ':' then if n == Some(':') then (ColonColon, 2) else (Colon, 1)
    else (Punctuation(c), 1)
  }

  function OperatorLexeme(src: string, p: nat): (l: Lexeme)
    requires p < |src|
    ensures l.first == p && InBounds(l, src) && l.end > p
  {
    var (kind, n) := Operator(src, p);
    Plain(kind, None, p, if p + n <= |src| then p + n else |src|)
  }

  /** The token that begins at `p`. */
  ghost function Scan(src: string, p: nat): (l: Lexeme)
    requires p < |src|
  {
    var c := src[p];
    if In(Letter, c) then WordLexeme(src, p, Run(src, p, Word), Identifier)
    else if c == '@' then AtLexeme(src, p)
    else if c == '#' then WordLexeme(src, p, Run(src, p + 1, Letter), PpHash)
    else if c == '"' then StringLexeme(src, String, p, p + 1)
    else if c == '\'' then CharLexeme(src, p)
    else if StartsNumber(src, p) then NumberLexeme(src, p)
    else OperatorLexeme(src, p)
  }

  /** Every token lies in the source and takes at least one byte of it. */
  lemma {:induction false} ScanProgresses(src: string, p: nat)
    requires p < |src|
    ensures var l := Scan(src, p); l.first == p && InBounds(l, src) && l.end > p
  {
    hide Operator, NumberFrom, StringEnd, Run, CharBody, NumberLexeme, Keywords.Keyword;
    if src[p] == '@' {
      AtProgresses(src, p);
    } else if StartsNumber(src, p) {
      NumberProgresses(src, p);
    }
  }

  lemma {:induction false} NumberProgresses(src: string, p: nat)
    requires StartsNumber(src, p)
    ensures var l := NumberLexeme(src, p); l.first == p && InBounds(l, src) && l.end > p
  {
    hide Run;
  }

  lemma {:induction false} AtProgresses(src: string, p: nat)
    requires p < |src| && src[p] == '@'
    ensures var l := AtLexeme(src, p); l.first == p && InBounds(l, src) && l.end > p
  {
    hide Run, FractionEnd, ExponentEnd, StringEnd, Keywords.Keyword;
  }

  /** What a call at `p` returns. */
  ghost function Next(src: string, p: nat): (l: Lexeme)
    requires p <= |src|
  {
    var e := SkipEnd(src, p);
    if e == |src| then Plain(Eof, None, e, e) else Scan(src, e)
  }

  ghost function Described(src: string, l: Lexeme): Token
    requires InBounds(l, src)
  {
    Token(l.kind, l.keyword, l.start, l.stop - l.start, LineAt(src, l.lineAt), l.charVal)
  }

  lemma {:induction false} NextInBounds(src: string, p: nat)
    requires p <= |src|
    ensures var l := Next(src, p); p <= l.first && InBounds(l, src) && (l.kind != Eof ==> l.end > p)
  {
    hide Scan, SkipEnd;
    if SkipEnd(src, p) < |src| {
      ScanProgresses(src, SkipEnd(src, p));
    }
  }

  // ---------------------------------------------------------------- the scanner object

  class Scanner {
    const source: string
    var pos: nat
    var line: nat

    /** The line is one plus the newlines before the position, in every reachable state. */
    ghost predicate Valid()
      reads this
    {
      pos <= |source| && line == LineAt(source, pos)
    }

    constructor (text: string)
      ensures Valid() && source == text && pos == 0
    {
      source := text;
      pos := 0;
      line := 1;
    }

    method Advance() returns (c: Option<char>)
      requires Valid()
      modifies this
      ensures Valid() && c == old(Peek(source, pos)) && pos == old(if pos < |source| then pos + 1 else pos)
    {
      if pos >= |source| {
        return None;
      }
      c := Some(source[pos]);
      pos := pos + 1;
      if c == Some('\n') {
        line := line + 1;
      }
    }

    /** `while peek() is a k { advance() }` */
    method AdvanceOver(k: ByteClass)
      requires Valid()
      modifies this
      ensures Valid() && pos == Run(source, old(pos), k)
    {
      hide In, LineAt;
      while Sees(source, pos, k)
        invariant Valid() && Run(source, pos, k) == Run(source, old(pos), k)
        decreases |source| - pos
      {
        var _ := Advance();
      }
    }

    method SkipBlockComment()
      requires Valid()
      modifies this
      ensures Valid() && pos == BlockEnd(source, old(pos))
    {
      hide LineAt;
      while pos + 1 < |source|
        invariant Valid() && BlockEnd(source, pos) == BlockEnd(source, old(pos))
        decreases |source| - pos
      {
        if source[pos] == '*' && source[pos + 1] == '/' {
          var _ := Advance();
          var _ := Advance();
          return;
        }
        var _ := Advance();
      }
    }

    method SkipWhitespace()
      requires Valid()
      modifies this
      ensures Valid() && pos == SkipEnd(source, old(pos))
    {
      hide LineAt, BlockEnd, Run;
      while pos < |source|
        invariant Valid() && SkipEnd(source, pos) == SkipEnd(source, old(pos))
        decreases |source| - pos
      {
        var c := source[pos];
        if IsSpace(c) {
          var _ := Advance();
        } else if c == '/' && Peek(source, pos + 1) == Some('/') {
          var _ := Advance();
          var _ := Advance();
          AdvanceOver(LineRest);
        } else if c == '/' && Peek(source, pos + 1) == Some('*') {
          var _ := Advance();
          var _ := Advance();
          SkipBlockComment();
        } else {
          break;
        }
      }
    }

    /** A token ending here, with the line of its end. */
    method MakeToken(kind: TokenKind, start: nat, length: nat, keyword: Option<string>) returns (t: Token)
      requires Valid()
      ensures t == Token(kind, keyword, start, length, LineAt(source, pos), 0)
    {
      t := Token(kind, keyword, start, length, line, 0);
    }

    method ReadWord(start: nat, otherwise: TokenKind) returns (t: Token)
      requires Valid() && start <= pos
      ensures t == Described(source, WordLexeme(source, start, pos, otherwise))
    {
      hide LineAt, Keywords.Keyword;
      var keyword := Keywords.LookupKeyword(source[start..pos]);
      t := MakeToken(if keyword.Some? then Keyword else otherwise, start, pos - start, keyword);
    }

    /** The rest of a string, from behind its opening quote. */
    method ReadString(kind: TokenKind, ghost first: nat) returns (t: Token)
      requires Valid() && first <= pos
      modifies this
      ensures Valid()
      ensures var l := StringLexeme(source, kind, first, old(pos));
              InBounds(l, source) && t == Described(source, l) && pos == l.end
    {
      hide LineAt;
      var start := pos;
      while pos < |source| && source[pos] != '"'
        invariant Valid() && start <= pos && StringEnd(source, pos) == StringEnd(source, start)
        decreases |source| - pos
      {
        if source[pos] == '\\' {
          var _ := Advance();
        }
        var _ := Advance();
      }
      var end := pos;
      if pos < |source| {
        var _ := Advance();
      }
      t := MakeToken(kind, start, end - start, None);
    }

    /** The number behind an `@`. */
    method ReadAtNumber()
      requires Valid()
      modifies this
      ensures Valid() && pos == ExponentEnd(source, FractionEnd(source, Run(source, old(pos), Digit)))
    {
      hide LineAt, Run, In, ExponentEnd;
      AdvanceOver(Digit);
      if Peek(source, pos) == Some('.') && Sees(source, pos + 1, Digit) {
        var _ := Advance();
        AdvanceOver(Digit);
      }
      ReadExponent();
    }

    /** An exponent without digits is given back; what it took holds no newline. */
    method ReadExponent()
      requires Valid()
      modifies this
      ensures Valid() && pos == ExponentEnd(source, old(pos))
    {
      hide LineAt, Run, In;
      if Exponent(Peek(source, pos)) {
        var save := pos;
        var _ := Advance();
        if Sign(Peek(source, pos)) {
          var _ := Advance();
        }
        if Sees(source, pos, Digit) {
          AdvanceOver(Digit);
        } else {
          SameLine(source, save, pos);
          pos := save;
        }
      }
    }

    method ReadAt() returns (t: Token)
      requires Valid() && pos < |source| && source[pos] == '@'
      modifies this
      ensures Valid()
      ensures var l := AtLexeme(source, old(pos)); InBounds(l, source) && t == Described(source, l) && pos == l.end
    {
      hide LineAt, Run, ExponentEnd, FractionEnd, WordLexeme, StringLexeme, Described;
      var start, at := pos, line;
      AtProgresses(source, start);
      var _ := Advance();
      var next := Peek(source, pos);
      if next == Some('"') {
        var _ := Advance();
        t := ReadString(AtString, start);
      } else if next == Some('[') {
        var _ := Advance();
        t := Token(AtArray, None, start, 2, at, 0);
        DescribedAs(source, AtLexeme(source, start), t);
      } else if next == Some('{') {
        var _ := Advance();
        t := Token(AtDict, None, start, 2, at, 0);
        DescribedAs(source, AtLexeme(source, start), t);
      } else if next == Some('(') {
        t := Token(LParen, None, start, 1, at, 0);
        DescribedAs(source, AtLexeme(source, start), t);
      } else if Sees(source, pos, Letter) {
        AdvanceOver(Word);
        t := ReadWord(start, Error);
        WordEnd(source, start, pos, Error);
      } else if Sees(source, pos, Digit) {
        ReadAtNumber();
        t := Token(AtNumber, None, start + 1, pos - (start + 1), at, 0);
        DescribedAs(source, AtLexeme(source, start), t);
      } else {
        t := MakeToken(Error, start, 1, None);
        DescribedAs(source, AtLexeme(source, start), t);
      }
    }

    /** A character literal; the closing quote is optional. */
    method ReadChar() returns (t: Token)
      requires Valid() && pos < |source|
      modifies this
      ensures Valid()
      ensures var l := CharLexeme(source, old(pos)); InBounds(l, source) && t == Described(source, l) && pos == l.end
    {
      hide LineAt;
      var start, at := pos, line;
      var _ := Advance();
      var c := Advance();
      var value := if c.Some? then c.value as int else 0;
      if c == Some('\\') {
        var escape := Advance();
        if escape == Some('x') || escape == Some('X') {
          value := 0;
          for i := 0 to 2
            invariant Valid() && start + 3 <= pos
            invariant i == 0 ==> pos == start + 3 && value == 0
            invariant i == 1 ==>
                        && Sees(source, start + 3, HexDigit) && pos == start + 4
                        && value == HexValue(source[start + 3])
            invariant i == 2 ==>
                        && Sees(source, start + 3, HexDigit) && Sees(source, start + 4, HexDigit) && pos == start + 5
                        && value == HexValue(source[start + 3]) * 16 + HexValue(source[start + 4])
          {
            if !Sees(source, pos, HexDigit) {
              break;
            }
            value := value * 16 + HexValue(source[pos]);
            var _ := Advance();
          }
        } else if escape.Some? {
          value := EscapeValue(escape.value);
        }
      }
      assert (pos, value) == CharBody(source, start + 1);
      if Peek(source, pos) == Some('\'') {
        var _ := Advance();
      }
      t := Token(Char, None, start, pos - start, at, value);
    }

    method ReadNumber() returns (t: Token)
      requires Valid() && StartsNumber(source, pos)
      modifies this
      ensures Valid()
      ensures var l := NumberLexeme(source, old(pos)); InBounds(l, source) && t == Described(source, l) && pos == l.end
    {
      hide LineAt, Run, In;
      var start := pos;
      var isFloat := source[pos] == '.';
      if source[pos] == '0' && (Peek(source, pos + 1) == Some('x') || Peek(source, pos + 1) == Some('X')) {
        var _ := Advance();
        var _ := Advance();
        AdvanceOver(HexDigit);
        var stop := pos;
        AdvanceOver(Suffix);
        t := MakeToken(Integer, start, stop - start, None);
        return;
      }
      if source[pos] == '.' {
        var _ := Advance();
      }
      t := ReadDecimal(start, isFloat);
    }

    /** The loop over digits, dots and exponents. */
    method ReadDecimal(start: nat, float: bool) returns (t: Token)
      requires Valid() && start <= pos
      modifies this
      ensures Valid()
      ensures var l := NumberFrom(source, start, old(pos), float); t == Described(source, l) && pos == l.end
    {
      hide LineAt, Run, In;
      var isFloat := float;
      while true
        invariant Valid() && start <= pos
        invariant NumberFrom(source, start, pos, isFloat) == NumberFrom(source, start, old(pos), float)
        decreases |source| - pos
      {
        var c := Peek(source, pos);
        if Sees(source, pos, Digit) {
          var _ := Advance();
        } else if c == Some('.') && !isFloat {
          isFloat := true;
          var _ := Advance();
        } else if Exponent(c) {
          isFloat := true;
          var _ := Advance();
          if Sign(Peek(source, pos)) {
            var _ := Advance();
          }
        } else if Sees(source, pos, Suffix) {
          var stop := pos;
          AdvanceOver(Suffix);
          t := MakeToken(Integer, start, stop - start, None);
          return;
        } else if c == Some('f') || c == Some('F') {
          var _ := Advance();
          t := MakeToken(Float, start, pos - start, None);
          return;
        } else {
          break;
        }
      }
      t := MakeToken(if isFloat then Float else Integer, start, pos - start, None);
    }

    /** One byte, or two when the second is `next`. */
    method OneOrTwo(next: char, two: TokenKind, one: TokenKind) returns (kind: TokenKind)
      requires Valid() && pos < |source|
      modifies this
      ensures Valid()
      ensures (kind, pos) ==
              if Peek(source, old(pos) + 1) == Some(next) then (two, old(pos) + 2) else (one, old(pos) + 1)
    {
      hide LineAt;
      if Peek(source, pos + 1) == Some(next) {
        var _ := Advance();
        var _ := Advance();
        kind := two;
      } else {
        var _ := Advance();
        kind := one;
      }
    }

    /** As `OneOrTwo`, with `=` as the other second byte. */
    method OneOrAssign(next: char, two: TokenKind, assign: TokenKind, one: TokenKind) returns (kind: TokenKind)
      requires Valid() && pos < |source|
      modifies this
      ensures Valid()
      ensures (kind, pos) ==
              if Peek(source, old(pos) + 1) == Some(next) then (two, old(pos) + 2)
              else if Peek(source, old(pos) + 1) == Some('=') then (assign, old(pos) + 2)
              else (one, old(pos) + 1)
    {
      hide LineAt;
      if Peek(source, pos + 1) == Some(next) {
        var _ := Advance();
        var _ := Advance();
        kind := two;
      } else {
        kind := OneOrTwo('=', assign, one);
      }
    }

    /** As `OneOrAssign`; after `next`, one more byte when it is `last`. */
    method OneToThree(next: char, last: char, three: TokenKind, two: TokenKind, assign: TokenKind, one: TokenKind)
      returns (kind: TokenKind)
      requires Valid() && pos < |source|
      modifies this
      ensures Valid()
      ensures (kind, pos) ==
              if Peek(source, old(pos) + 1) == Some(next) then
                if Peek(source, old(pos) + 2) == Some(last) then (three, old(pos) + 3) else (two, old(pos) + 2)
              else if Peek(source, old(pos) + 1) == Some('=') then (assign, old(pos) + 2)
              else (one, old(pos) + 1)
    {
      hide LineAt;
      if Peek(source, pos + 1) == Some(next) {
        var _ := Advance();
        var _ := Advance();
        kind := two;
        if Peek(source, pos) == Some(last) {
          var _ := Advance();
          kind := three;
        }
      } else {
        kind := OneOrTwo('=', assign, one);
      }
    }

    /** Behind one dot the byte looked at is the second dot, so the third byte is taken without a look. */
    method Dots() returns (kind: TokenKind)
      requires Valid() && pos < |source| && source[pos] == '.' && !StartsNumber(source, pos)
      modifies this
      ensures Valid()
      ensures if Peek(source, old(pos) + 1) == Some('.') then
                kind == Ellipsis && pos == if old(pos) + 3 <= |source| then old(pos) + 3 else |source|
              else
                kind == Dot && pos == old(pos) + 1
    {
      hide LineAt;
      kind := Error;
      if Peek(source, pos + 1) == Some('.') {
        var _ := Advance();
        if Peek(source, pos) == Some('.') {
          var _ := Advance();
          var _ := Advance();
          kind := Ellipsis;
        } else {
          assert false;
        }
      } else if Sees(source, pos + 1, Digit) {
        assert false;
      } else {
        var _ := Advance();
        kind := Dot;
      }
    }

    /** An operator; a dot before a digit is read as a number before this is tried. */
    method ReadOperator() returns (t: Token)
      requires Valid() && pos < |source| && !StartsNumber(source, pos)
      modifies this
      ensures Valid()
      ensures var l := OperatorLexeme(source, old(pos));
              InBounds(l, source) && t == Described(source, l) && pos == l.end
    {
      hide LineAt, StartsNumber;
      var start := pos;
      var kind := Error;
      match source[pos] {
      case '+' => kind := OneOrAssign('+', Incr, PlusAssign, Plus);
      case '-' =>
        if Peek(source, pos + 1) == Some('-') {
          var _ := Advance();
          var _ := Advance();
          kind := Decr;
        } else {
          kind := OneToThree('>', '*', ArrowStar, Arrow, MinusAssign, Minus);
        }
      case '*' => kind := OneOrTwo('=', StarAssign, Star);
      case '/' => kind := OneOrTwo('=', SlashAssign, Slash);
      case '%' => kind := OneOrTwo('=', PercentAssign, Percent);
      case '&' => kind := OneOrAssign('&', LogicalAnd, AndAssign, Ampersand);
      case '|' => kind := OneOrAssign('|', LogicalOr, OrAssign, Pipe);
      case '^' => kind := OneOrTwo('=', XorAssign, Caret);
      case '!' => kind := OneOrTwo('=', Neq, Exclam);
      case '<' => kind := OneToThree('<', '=', LShiftAssign, LShift, Leq, Less);
      case '>' => kind := OneToThree('>', '=', RShiftAssign, RShift, Geq, Greater);
      case '=' => kind := OneOrTwo('=', Eq, Assign);
      case '.' => kind := Dots();
      case ':' => kind := OneOrTwo(':', ColonColon, Colon);
      case _ =>
        kind := Punctuation(source[pos]);
        var _ := Advance();
      }
      t := MakeToken(kind, start, pos - start, None);
    }

    /** Returns the token after the blanks and comments at the position, and moves behind it. */
    method NextToken() returns (t: Token)
      requires Valid()
      modifies this
      ensures Valid()
      ensures var l := Next(source, old(pos)); InBounds(l, source) && t == Described(source, l) && pos == l.end
    {
      hide LineAt, Run, AtLexeme, WordLexeme, StringLexeme, CharLexeme, NumberLexeme, OperatorLexeme, Described,
      SkipEnd, StartsNumber;
      NextInBounds(source, pos);
      SkipWhitespace();
      var start := pos;
      if pos >= |source| {
        t := Token(Eof, None, pos, 0, line, 0);
        DescribedAs(source, Plain(Eof, None, pos, pos), t);
        return;
      }
      var c := source[pos];
      if In(Letter, c) {
        AdvanceOver(Word);
        t := ReadWord(start, Identifier);
        WordEnd(source, start, pos, Identifier);
      } else if c == '@' {
        t := ReadAt();
      } else if c == '#' {
        var _ := Advance();
        AdvanceOver(Letter);
        t := ReadWord(start, PpHash);
        WordEnd(source, start, pos, PpHash);
      } else if c == '"' {
        var _ := Advance();
        t := ReadString(String, start);
      } else if c == '\'' {
        t := ReadChar();
      } else if StartsNumber(source, pos) {
        t := ReadNumber();
      } else {
        t := ReadOperator();
      }
    }

    /** A saved position carries its line. */
    ghost predicate Restorable(saved: (nat, nat))
      reads this
    {
      saved.0 <= |source| && saved.1 == LineAt(source, saved.0)
    }

    function SavePos(): (saved: (nat, nat))
      requires Valid()
      reads this
      ensures Restorable(saved) && saved.0 == pos
    {
      (pos, line)
    }

    /** Going back to a position saved at any time restores its line too. */
    method RestorePos(saved: (nat, nat))
      requires Restorable(saved)
      modifies this
      ensures Valid() && pos == saved.0
    {
      pos, line := saved.0, saved.1;
    }
  }

  lemma {:induction false} SameLine(src: string, p: nat, q: nat)
    requires p <= q <= |src| && q <= p + 2 && forall k :: p <= k < q ==> src[k] != '\n'
    ensures LineAt(src, q) == LineAt(src, p)
  {
  }

  lemma {:induction false} DescribedAs(src: string, l: Lexeme, t: Token)
    requires InBounds(l, src)
    requires t == Token(l.kind, l.keyword, l.start, l.stop - l.start, LineAt(src, l.lineAt), l.charVal)
    ensures t == Described(src, l)
  {
  }

  lemma {:induction false} WordEnd(src: string, p: nat, e: nat, otherwise: TokenKind)
    requires p <= e <= |src|
    ensures WordLexeme(src, p, e, otherwise).end == e && InBounds(WordLexeme(src, p, e, otherwise), src)
  {
  }

  // ---------------------------------------------------------------- whole sources

  /** All tokens from `p` on, with the final `Eof`. */
  ghost function Tokens(src: string, p: nat): (ls: seq<Lexeme>)
    requires p <= |src|
    decreases |src| - p
  {
    var l := Next(src, p);
    NextInBounds(src, p);
    if l.kind == Eof then [l] else [l] + Tokens(src, l.end)
  }

  method Tokenize(source: string) returns (ts: seq<Token>)
    ensures var ls := Tokens(source, 0);
            |ts| == |ls| && forall i :: 0 <= i < |ls| ==> InBounds(ls[i], source) && ts[i] == Described(source, ls[i])
  {
    hide Next, Described, InBounds, LineAt, Tokens;
    var scanner := new Scanner(source);
    ts := [];
    ghost var done: seq<Lexeme>, all := [], Tokens(source, 0);
    while true
      invariant scanner.Valid() && scanner.source == source
      invariant done + Tokens(source, scanner.pos) == all
      invariant |ts| == |done| && forall i :: 0 <= i < |done| ==>
          InBounds(done[i], source) && ts[i] == Described(source, done[i])
      decreases |source| - scanner.pos
    {
      ghost var l := Next(source, scanner.pos);
      NextInBounds(source, scanner.pos);
      TokensStep(source, scanner.pos, done);
      var t := scanner.NextToken();
      DescribedKind(source, l);
      ts := ts + [t];
      done := done + [l];
      if t.kind == Eof {
        return;
      }
    }
  }

  lemma {:induction false} TokensStep(src: string, p: nat, done: seq<Lexeme>)
    requires p <= |src|
    ensures var l := Next(src, p);
            && (l.kind == Eof ==> done + Tokens(src, p) == done + [l])
            && (l.kind != Eof ==>
                  && l.end <= |src| && l.end > p
                  && done + Tokens(src, p) == done + [l] + Tokens(src, l.end))
  {
    hide Next;
    NextInBounds(src, p);
    var l := Next(src, p);
    if l.kind != Eof {
      assert done + ([l] + Tokens(src, l.end)) == done + [l] + Tokens(src, l.end);
    }
  }

  lemma {:induction false} DescribedKind(src: string, l: Lexeme)
    requires InBounds(l, src)
    ensures Described(src, l).kind == l.kind && l.end <= |src|
  {
  }
}

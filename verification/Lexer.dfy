/** Assembly text to tokens. */
module Lexer {
  import opened Results
  import opened Syntax

  datatype LexError = UnexpectedCharacter(line: nat) | InvalidNumber(line: nat)

  // ---- Characters --------------------------------------------------------------------

  predicate IsDigit(c: char) { '0' <= c <= '9' }

  predicate IsAlpha(c: char) { 'a' <= c <= 'z' || 'A' <= c <= 'Z' }

  predicate IsAlnum(c: char) { IsAlpha(c) || IsDigit(c) }

  predicate IsIdentStart(c: char) { IsAlpha(c) || c == '_' || c == '.' }

  predicate IsIdentChar(c: char) { IsAlnum(c) || c == '_' || c == '.' }

  datatype Class = IdentChars | AlnumChars | CommentChars

  predicate InClass(c: char, cls: Class) {
    match cls
    case IdentChars => IsIdentChar(c)
    case AlnumChars => IsAlnum(c)
    case CommentChars => c != '\n'
  }

  /** The length of the longest prefix of characters of a class. */
  function RunLength(s: string, cls: Class): (n: nat)
    ensures n <= |s|
    ensures forall i :: 0 <= i < n ==> InClass(s[i], cls)
    ensures n < |s| ==> !InClass(s[n], cls)
  {
    if |s| == 0 || !InClass(s[0], cls) then 0 else 1 + RunLength(s[1..], cls)
  }

  // ---- Numbers and register names -------------------------------------------------------

  /** The value of a digit character, or a number no base reaches. */
  function DigitValue(c: char): nat {
    if IsDigit(c) then c as int - '0' as int
    else if 'a' <= c <= 'f' then c as int - 'a' as int + 10
    else if 'A' <= c <= 'F' then c as int - 'A' as int + 10
    else 99
  }

  predicate AllDigits(s: string, base: nat) {
    forall i :: 0 <= i < |s| ==> DigitValue(s[i]) < base
  }

  function DigitsValue(s: string, base: nat): nat {
    if |s| == 0 then 0 else DigitsValue(s[..|s| - 1], base) * base + DigitValue(s[|s| - 1])
  }

  predicate IsHexPrefix(s: string) {
    |s| >= 2 && s[0] == '0' && (s[1] == 'x' || s[1] == 'X')
  }

  /** Conversion of a whole literal by `std::stoll`, in base 16 after an `0x`: fails without digits,
      on a stray character, and outside the 64-bit range. */
  function ParseNumber(text: string): Option<int> {
    var signed := |text| > 0 && (text[0] == '-' || text[0] == '+');
    var body := if signed then text[1..] else text;
    var base := if IsHexPrefix(body) then 16 else 10;
    var digits := if IsHexPrefix(body) then body[2..] else body;
    if |digits| == 0 || !AllDigits(digits, base) then None
    else
      var magnitude: int := DigitsValue(digits, base);
      var v := if signed && text[0] == '-' then -magnitude else magnitude;
      if -0x8000_0000_0000_0000 <= v < 0x8000_0000_0000_0000 then Some(v) else None
  }

  /** N when `text` is the register name rN. */
  function RegisterIndex(text: string): Option<nat> {
    if |text| < 2 || text[0] != 'r' || !AllDigits(text[1..], 10) then None
    else Some(DigitsValue(text[1..], 10))
  }

  /** The loop of `isRegisterName`; the accumulator is not bounded here. */
  method IsRegisterName(text: string) returns (index: Option<nat>)
    ensures index == RegisterIndex(text)
  {
    if |text| < 2 || text[0] != 'r' {
      return None;
    }
    var v: nat := 0;
    for i := 1 to |text|
      invariant AllDigits(text[1..i], 10) && v == DigitsValue(text[1..i], 10)
    {
      if !IsDigit(text[i]) {
        NotAllDigits(text, i);
        return None;
      }
      assert text[1..i + 1][..i - 1] == text[1..i];
      v := v * 10 + (text[i] as int - '0' as int);
    }
    assert text[1..|text|] == text[1..];
    return Some(v);
  }

  lemma NotAllDigits(text: string, i: nat)
    requires 1 <= i < |text| && !IsDigit(text[i])
    ensures !AllDigits(text[1..], 10)
  {
    assert text[1..][i - 1] == text[i];
  }

  // ---- Tokens ------------------------------------------------------------------------------

  /** What stands at the head of the remaining text, and its length. */
  datatype Lexeme =
    | Blank(len: nat)                                  // white space or a comment
    | LineEnd
    | Item(len: nat, kind: TokenKind, value: int)
    | NoNumber
    | NoToken

  function Punctuation(c: char): Option<TokenKind> {
    if c == ',' then Some(Comma) else if c == ':' then Some(Colon)
    else if c == '(' then Some(LParen) else if c == ')' then Some(RParen)
    else None
  }

  /** A digit, or a sign with a digit behind it. */
  predicate StartsNumber(s: string) {
    |s| > 0 && (IsDigit(s[0]) || ((s[0] == '-' || s[0] == '+') && |s| > 1 && IsDigit(s[1])))
  }

  /** The characters a number literal takes: sign, `0x`, and all that is alphanumeric. */
  function NumberLength(s: string): (n: nat)
    requires StartsNumber(s)
    ensures 1 <= n <= |s|
  {
    var sign := if IsDigit(s[0]) then 0 else 1;
    var prefix := if IsHexPrefix(s[sign..]) then sign + 2 else sign;
    prefix + RunLength(s[prefix..], AlnumChars)
  }

  function LexOne(s: string): (x: Lexeme)
    requires |s| > 0
    ensures x.Blank? || x.Item? ==> 1 <= x.len <= |s|
  {
    var c := s[0];
    if c == '\n' then LineEnd
    else if c == ' ' || c == '\t' || c == '\r' then Blank(1)
    else if c == ';' then Blank(RunLength(s, CommentChars))
    else if Punctuation(c).Some? then Item(1, Punctuation(c).value, 0)
    else if StartsNumber(s) then
      var n := NumberLength(s);
      match ParseNumber(s[..n])
      case None => NoNumber
      case Some(v) => Item(n, Number, v)
    else if IsIdentStart(c) then
      var n := RunLength(s, IdentChars);
      match RegisterIndex(s[..n])
      case None => Item(n, Identifier, 0)
      case Some(r) => Item(n, Register, r)
    else NoToken
  }

  /** The tokens of the remaining text `s`, which starts on `line`. */
  function Lex(s: string, line: nat): Result<seq<Token>, LexError>
    decreases |s|
  {
    if |s| == 0 then Success([Token(End, "", 0, line)])
    else
      match LexOne(s)
      case Blank(n) => Lex(s[n..], line)
      case LineEnd => Prepend(Token(Newline, "\\n", 0, line), Lex(s[1..], line + 1))
      case Item(n, kind, value) => Prepend(Token(kind, s[..n], value, line), Lex(s[n..], line))
      case NoNumber => Failure(InvalidNumber(line))
      case NoToken => Failure(UnexpectedCharacter(line))
  }

  function Prepend(t: Token, r: Result<seq<Token>, LexError>): Result<seq<Token>, LexError> {
    match r
    case Failure(e) => Failure(e)
    case Success(ts) => Success([t] + ts)
  }

  /** `done` tokens already emitted, the rest still to come. */
  function Append(done: seq<Token>, r: Result<seq<Token>, LexError>): Result<seq<Token>, LexError> {
    match r
    case Failure(e) => Failure(e)
    case Success(ts) => Success(done + ts)
  }

  lemma AppendNothing(r: Result<seq<Token>, LexError>)
    ensures Append([], r) == r
  {
    if r.Success? { assert [] + r.value == r.value; }
  }

  lemma AppendPrepend(done: seq<Token>, t: Token, r: Result<seq<Token>, LexError>)
    ensures Append(done + [t], r) == Append(done, Prepend(t, r))
  {
    if r.Success? { assert done + [t] + r.value == done + ([t] + r.value); }
  }

  // ---- The scanner -----------------------------------------------------------------------------

  /** Advances past a run of characters of one class. */
  method SkipRun(src: string, from: nat, cls: Class) returns (i: nat)
    requires from <= |src|
    ensures i == from + RunLength(src[from..], cls) && i <= |src|
  {
    i := from;
    while i < |src| && InClass(src[i], cls)
      invariant from <= i <= |src|
      invariant RunLength(src[from..], cls) == (i - from) + RunLength(src[i..], cls)
    {
      assert src[i..][1..] == src[i + 1..];
      i := i + 1;
    }
  }

  /** Scans the number that starts at `i`. */
  method ScanNumber(src: string, from: nat) returns (i: nat)
    requires from < |src| && StartsNumber(src[from..])
    ensures i == from + NumberLength(src[from..]) && i <= |src|
  {
    i := from;
    if src[i] == '-' || src[i] == '+' {
      i := i + 1;
    }
    assert src[from..][i - from..] == src[i..];
    var start := i;
    if i + 1 < |src| && src[i] == '0' && (src[i + 1] == 'x' || src[i + 1] == 'X') {
      i := i + 2;
    }
    assert src[from..][i - from..] == src[i..];
    i := SkipRun(src, i, AlnumChars);
  }

  /** Scans the lexeme that starts at `i`. */
  method ScanOne(src: string, i: nat) returns (x: Lexeme)
    requires i < |src|
    ensures x == LexOne(src[i..])
  {
    hide ParseNumber, RegisterIndex, NumberLength, RunLength;
    var c := src[i];
    if c == '\n' {
      return LineEnd;
    }
    if c == ' ' || c == '\t' || c == '\r' {
      return Blank(1);
    }
    if c == ';' {
      var j := SkipRun(src, i, CommentChars);
      return Blank(j - i);
    }
    if Punctuation(c).Some? {
      return Item(1, Punctuation(c).value, 0);
    }
    var signedNum := (c == '-' || c == '+') && i + 1 < |src| && IsDigit(src[i + 1]);
    if IsDigit(c) || signedNum {
      var j := ScanNumber(src, i);
      assert src[i..][..j - i] == src[i..j];
      var v := ParseNumber(src[i..j]);
      if v.None? {
        return NoNumber;
      }
      return Item(j - i, Number, v.value);
    }
    if IsIdentStart(c) {
      var j := SkipRun(src, i, IdentChars);
      assert src[i..][..j - i] == src[i..j];
      var index := IsRegisterName(src[i..j]);
      if index.Some? {
        return Item(j - i, Register, index.value);
      }
      return Item(j - i, Identifier, 0);
    }
    return NoToken;
  }

  /** Converts source text into tokens ended by `End`. */
  method Tokenize(src: string) returns (r: Result<seq<Token>, LexError>)
    ensures r == Lex(src, 1)
  {
    hide LexOne, Lex, Append, Prepend;
    var tokens: seq<Token> := [];
    var line: nat, i: nat := 1, 0;
    AppendNothing(Lex(src, 1));
    assert src[0..] == src;
    while i < |src|
      invariant i <= |src|
      invariant Lex(src, 1) == Append(tokens, Lex(src[i..], line))
    {
      var x := ScanOne(src, i);
      LexUnfolds(tokens, src, i, line);
      match x {
        case Blank(n) =>
          i := i + n;
        case LineEnd =>
          tokens := tokens + [Token(Newline, "\\n", 0, line)];
          i, line := i + 1, line + 1;
        case Item(n, kind, value) =>
          tokens := tokens + [Token(kind, src[i..i + n], value, line)];
          i := i + n;
        case NoNumber => return Failure(InvalidNumber(line));
        case NoToken => return Failure(UnexpectedCharacter(line));
      }
    }
    LexEnds(tokens, src[i..], line);
    return Success(tokens + [Token(End, "", 0, line)]);
  }

  lemma LexEnds(tokens: seq<Token>, rest: string, line: nat)
    requires |rest| == 0
    ensures Append(tokens, Lex(rest, line)) == Success(tokens + [Token(End, "", 0, line)])
  {
  }

  /** One iteration of the loop. */
  lemma LexUnfolds(tokens: seq<Token>, src: string, i: nat, line: nat)
    requires i < |src|
    ensures Append(tokens, Lex(src[i..], line)) ==
      match LexOne(src[i..])
      case Blank(n) => Append(tokens, Lex(src[i + n..], line))
      case LineEnd => Append(tokens + [Token(Newline, "\\n", 0, line)], Lex(src[i + 1..], line + 1))
      case Item(n, kind, value) =>
        Append(tokens + [Token(kind, src[i..i + n], value, line)], Lex(src[i + n..], line))
      case NoNumber => Failure(InvalidNumber(line))
      case NoToken => Failure(UnexpectedCharacter(line))
  {
    hide LexOne;
    var s := src[i..];
    match LexOne(s)
    case Blank(n) =>
      assert s[n..] == src[i + n..];
    case LineEnd =>
      assert s[1..] == src[i + 1..];
      AppendPrepend(tokens, Token(Newline, "\\n", 0, line), Lex(src[i + 1..], line + 1));
    case Item(n, kind, value) =>
      assert s[n..] == src[i + n..] && s[..n] == src[i..i + n];
      AppendPrepend(tokens, Token(kind, src[i..i + n], value, line), Lex(src[i + n..], line));
    case NoNumber =>
    case NoToken =>
  }
}

/** The texts the lexer accepts, as what can be written; each lexes to its tokens, and nothing else lexes. */
module Spelling {
  import opened Results
  import opened Syntax
  import opened Lexer
  import opened RoundTrip
  import opened Reassembly
  import opened Layout

  // ---- What can be written -------------------------------------------------------------------

  datatype Sign = NoSign | Plus | Minus

  type DigitNumber = n: nat | n < 16

  /** A digit; letters may be written in either case. */
  datatype Digit = Digit(value: DigitNumber, upper: bool)

  datatype Item =
    | Space(c: char)
    | Remark(text: string)                                        // a comment, without its semicolon
    | LineBreak
    | Mark(kind: TokenKind)
    | Name(text: string)
    | RegName(digits: seq<Digit>)                                 // r and a decimal number
    | Literal(sign: Sign, hex: Option<char>, digits: seq<Digit>)  // with the letter of `0x`, if any

  const LOWER_DIGITS: string := "0123456789abcdef"
  const UPPER_DIGITS: string := "0123456789ABCDEF"

  function SpellDigit(d: Digit): char {
    if d.upper then UPPER_DIGITS[d.value] else LOWER_DIGITS[d.value]
  }

  predicate Below(ds: seq<Digit>, base: nat) {
    forall i :: 0 <= i < |ds| ==> ds[i].value < base
  }

  function SpellDigits(ds: seq<Digit>): (s: string)
    ensures |s| == |ds| && forall i :: 0 <= i < |ds| ==> s[i] == SpellDigit(ds[i])
  {
    seq(|ds|, i requires 0 <= i < |ds| => SpellDigit(ds[i]))
  }

  function Power(base: nat, n: nat): nat {
    if n == 0 then 1 else base * Power(base, n - 1)
  }

  /** The number a list of digits denotes, the most significant first. */
  function PlaceValue(ds: seq<Digit>, base: nat): nat {
    if |ds| == 0 then 0 else ds[0].value * Power(base, |ds| - 1) + PlaceValue(ds[1..], base)
  }

  function Base(hex: Option<char>): nat { if hex.Some? then 16 else 10 }

  function LiteralValue(sign: Sign, hex: Option<char>, digits: seq<Digit>): int {
    var magnitude: int := PlaceValue(digits, Base(hex));
    if sign == Minus then -magnitude else magnitude
  }

  /** ASCII letters, digits, and what a name may contain. */
  predicate Letter(c: char) { 0x41 <= c as int <= 0x5A || 0x61 <= c as int <= 0x7A }

  predicate Decimal(c: char) { 0x30 <= c as int <= 0x39 }

  predicate NameStart(c: char) { Letter(c) || c == '_' || c == '.' }

  predicate NameChar(c: char) { NameStart(c) || Decimal(c) }

  predicate RegisterForm(s: string) {
    |s| >= 2 && s[0] == 'r' && forall i :: 1 <= i < |s| ==> Decimal(s[i])
  }

  predicate Legal(x: Item) {
    match x
    case Space(c) => c == ' ' || c == '\t' || c == '\r'
    case Remark(text) => forall i :: 0 <= i < |text| ==> text[i] != '\n'
    case LineBreak => true
    case Mark(k) => k == Comma || k == Colon || k == LParen || k == RParen
    case Name(s) => |s| > 0 && NameStart(s[0]) && !RegisterForm(s) && forall i :: 0 <= i < |s| ==> NameChar(s[i])
    case RegName(ds) => |ds| > 0 && Below(ds, 10)
    case Literal(sign, hex, ds) =>
      && |ds| > 0 && Below(ds, Base(hex)) && (hex.Some? ==> hex.value == 'x' || hex.value == 'X')
      && -0x8000_0000_0000_0000 <= LiteralValue(sign, hex, ds) <= 0x7FFF_FFFF_FFFF_FFFF
  }

  function SpellMark(k: TokenKind): char {
    if k == Comma then ',' else if k == Colon then ':' else if k == LParen then '(' else ')'
  }

  function SpellSign(sign: Sign): string {
    match sign
    case NoSign => ""
    case Plus => "+"
    case Minus => "-"
  }

  function SpellPrefix(hex: Option<char>): string {
    match hex
    case None => ""
    case Some(c) => ['0', c]
  }

  function Spell(x: Item): string {
    match x
    case Space(c) => [c]
    case Remark(text) => ";" + text
    case LineBreak => "\n"
    case Mark(k) => [SpellMark(k)]
    case Name(text) => text
    case RegName(ds) => "r" + SpellDigits(ds)
    case Literal(sign, hex, ds) => SpellSign(sign) + (SpellPrefix(hex) + SpellDigits(ds))
  }

  /** Whether the character `c` behind `x` would belong to it. */
  predicate Continues(x: Item, c: char) {
    match x
    case Remark(_) => c != '\n'
    case Name(_) => NameChar(c)
    case RegName(_) => NameChar(c)
    case Literal(_, _, _) => Letter(c) || Decimal(c)
    case _ => false
  }

  /** The items in front of `rest`. */
  function SpellAll(xs: seq<Item>, rest: string): string {
    if |xs| == 0 then rest else Spell(xs[0]) + SpellAll(xs[1..], rest)
  }

  /** Legal items, none of which runs into the text behind it. */
  predicate Written(xs: seq<Item>, rest: string) {
    |xs| == 0 || (
      && Legal(xs[0]) && Written(xs[1..], rest)
      && var behind := SpellAll(xs[1..], rest);
         |behind| == 0 || !Continues(xs[0], behind[0]))
  }

  /** The token of an item, if it leaves one. */
  function TokenOf(x: Item, line: nat): Option<Token> {
    match x
    case Space(_) => None
    case Remark(_) => None
    case LineBreak => Some(Token(Newline, "\\n", 0, line))
    case Mark(k) => Some(Token(k, Spell(x), 0, line))
    case Name(_) => Some(Token(Identifier, Spell(x), 0, line))
    case RegName(ds) => Some(Token(Register, Spell(x), PlaceValue(ds, 10), line))
    case Literal(sign, hex, ds) => Some(Token(Number, Spell(x), LiteralValue(sign, hex, ds), line))
  }

  function LineBehind(x: Item, line: nat): nat {
    if x.LineBreak? then line + 1 else line
  }

  function TokensOf(xs: seq<Item>, line: nat): seq<Token> {
    if |xs| == 0 then []
    else
      var token := TokenOf(xs[0], line);
      (if token.Some? then [token.value] else []) + TokensOf(xs[1..], LineBehind(xs[0], line))
  }

  function LineBehindAll(xs: seq<Item>, line: nat): nat {
    if |xs| == 0 then line else LineBehindAll(xs[1..], LineBehind(xs[0], line))
  }

  // ---- Digits and characters -------------------------------------------------------------------

  lemma Characters(c: char)
    ensures Letter(c) <==> IsAlpha(c)
    ensures Decimal(c) <==> IsDigit(c)
    ensures NameStart(c) <==> IsIdentStart(c)
    ensures NameChar(c) <==> IsIdentChar(c)
  {
  }

  /** A spelled digit reads as its value. */
  lemma DigitReads(d: Digit)
    ensures DigitValue(SpellDigit(d)) == d.value
    ensures Letter(SpellDigit(d)) || Decimal(SpellDigit(d))
    ensures d.value < 10 <==> Decimal(SpellDigit(d))
  {
  }

  /** Every character that reads as a digit is spelled by one. */
  function DigitOf(c: char): (d: Digit)
    requires DigitValue(c) < 16
    ensures d.value == DigitValue(c)
  {
    Digit(DigitValue(c), Letter(c) && c as int <= 0x5A)
  }

  lemma DigitSpells(c: char)
    requires DigitValue(c) < 16
    ensures SpellDigit(DigitOf(c)) == c
  {
  }

  lemma {:induction false} PlaceValueLast(ds: seq<Digit>, base: nat)
    requires |ds| > 0
    ensures PlaceValue(ds, base) == PlaceValue(ds[..|ds| - 1], base) * base + ds[|ds| - 1].value
  {
    if |ds| == 1 {
      assert ds[..0] == [] && ds[1..] == [];
    } else {
      var front := ds[..|ds| - 1];
      PlaceValueLast(ds[1..], base);
      assert ds[1..][..|ds| - 2] == front[1..] && front[0] == ds[0];
      Shift(ds[0].value, base, Power(base, |ds| - 2), PlaceValue(front[1..], base));
    }
  }

  lemma Shift(v: nat, base: nat, a: nat, b: nat)
    ensures v * (base * a) + b * base == (v * a + b) * base
  {
    assert v * (base * a) == (v * a) * base;
  }

  /** The digits of a literal read from the right, as in positional notation. */
  lemma {:induction false} DigitsRead(ds: seq<Digit>, base: nat)
    ensures DigitsValue(SpellDigits(ds), base) == PlaceValue(ds, base)
  {
    hide SpellDigit, DigitValue;
    var n := |ds|;
    if n == 0 {
    } else {
      DigitsRead(ds[..n - 1], base);
      assert SpellDigits(ds)[..n - 1] == SpellDigits(ds[..n - 1]);
      DigitReads(ds[n - 1]);
      PlaceValueLast(ds, base);
    }
  }

  lemma BelowReads(ds: seq<Digit>, base: nat)
    ensures Below(ds, base) <==> AllDigits(SpellDigits(ds), base)
  {
    hide SpellDigit, DigitValue;
    forall i | 0 <= i < |ds|
      ensures DigitValue(SpellDigits(ds)[i]) == ds[i].value
    {
      DigitReads(ds[i]);
    }
    if AllDigits(SpellDigits(ds), base) {
      forall i | 0 <= i < |ds|
        ensures ds[i].value < base
      {
        assert DigitValue(SpellDigits(ds)[i]) < base;
      }
    }
  }

  function DigitsOf(s: string): (ds: seq<Digit>)
    requires AllDigits(s, 16)
    ensures |ds| == |s| && forall i :: 0 <= i < |s| ==> ds[i] == DigitOf(s[i])
  {
    seq(|s|, i requires 0 <= i < |s| => DigitOf(s[i]))
  }

  lemma DigitsSpell(s: string, base: nat)
    requires AllDigits(s, base) && base <= 16
    ensures SpellDigits(DigitsOf(s)) == s && Below(DigitsOf(s), base)
  {
    hide SpellDigit, DigitValue;
    forall i | 0 <= i < |s|
      ensures SpellDigits(DigitsOf(s))[i] == s[i]
    {
      DigitSpells(s[i]);
    }
  }

  // ---- Names, registers and numbers ---------------------------------------------------------------

  lemma RegisterReads(ds: seq<Digit>)
    requires |ds| > 0 && Below(ds, 10)
    ensures RegisterIndex("r" + SpellDigits(ds)) == Some(PlaceValue(ds, 10))
  {
    hide DigitsValue, PlaceValue, SpellDigit, DigitValue, Below, AllDigits;
    var s := "r" + SpellDigits(ds);
    assert s[1..] == SpellDigits(ds);
    BelowReads(ds, 10);
    DigitsRead(ds, 10);
  }

  lemma DecimalDigit(c: char)
    ensures DigitValue(c) < 10 <==> Decimal(c)
  {
  }

  /** A name is a register exactly when it has that form. */
  lemma RegisterIsForm(s: string)
    ensures RegisterIndex(s).Some? <==> RegisterForm(s)
  {
    hide DigitsValue, Decimal, DigitValue;
    if |s| >= 2 && s[0] == 'r' {
      forall i | 1 <= i < |s|
        ensures DigitValue(s[1..][i - 1]) < 10 <==> Decimal(s[i])
      {
        DecimalDigit(s[i]);
      }
      if AllDigits(s[1..], 10) { DecimalTail(s); }
    }
  }

  lemma DecimalTail(s: string)
    requires |s| >= 2 && AllDigits(s[1..], 10)
    ensures forall i :: 1 <= i < |s| ==> Decimal(s[i])
  {
    hide Decimal, DigitValue;
    forall i | 1 <= i < |s|
      ensures Decimal(s[i])
    {
      assert DigitValue(s[1..][i - 1]) < 10;
      DecimalDigit(s[i]);
    }
  }

  lemma DigitsAlnum(ds: seq<Digit>, base: nat)
    requires Below(ds, base) && base <= 16
    ensures forall i :: 0 <= i < |ds| ==> IsAlnum(SpellDigits(ds)[i])
    ensures base == 10 ==> forall i :: 0 <= i < |ds| ==> IsDigit(SpellDigits(ds)[i])
  {
    hide SpellDigit, DigitValue;
    forall i | 0 <= i < |ds|
      ensures IsAlnum(SpellDigits(ds)[i]) && (base == 10 ==> IsDigit(SpellDigits(ds)[i]))
    {
      DigitReads(ds[i]);
      Characters(SpellDigits(ds)[i]);
    }
  }

  /** A literal without its sign. */
  function Body(hex: Option<char>, ds: seq<Digit>): string {
    SpellPrefix(hex) + SpellDigits(ds)
  }

  predicate HexLetter(hex: Option<char>) { hex.Some? ==> hex.value == 'x' || hex.value == 'X' }

  lemma BodyForm(hex: Option<char>, ds: seq<Digit>)
    requires |ds| > 0 && Below(ds, Base(hex)) && HexLetter(hex)
    ensures
      var body := Body(hex, ds);
      && |body| > 0 && IsDigit(body[0]) && (IsHexPrefix(body) <==> hex.Some?)
      && (if hex.Some? then body[2..] else body) == SpellDigits(ds)
  {
    hide SpellDigit, DigitValue, SpellDigits;
    DigitsAlnum(ds, Base(hex));
  }

  /** A legal literal reads as the number it denotes: decimal or hexadecimal, in either case, with or
      without a sign. */
  lemma LiteralReads(sign: Sign, hex: Option<char>, ds: seq<Digit>)
    requires Legal(Literal(sign, hex, ds))
    ensures ParseNumber(Spell(Literal(sign, hex, ds))) == Some(LiteralValue(sign, hex, ds))
  {
    hide DigitsValue, PlaceValue, SpellDigit, DigitValue, SpellDigits, IsHexPrefix;
    var text, body := Spell(Literal(sign, hex, ds)), Body(hex, ds);
    BodyForm(hex, ds);
    assert text == SpellSign(sign) + body;
    if sign == NoSign { assert text == body; } else { assert text[1..] == body; }
    BelowReads(ds, Base(hex));
    DigitsRead(ds, Base(hex));
  }

  /** Whatever reads as a number is a legal literal of that value. */
  lemma ReadsLiteral(text: string) returns (x: Item)
    requires ParseNumber(text).Some?
    ensures x.Literal? && Legal(x) && Spell(x) == text
  {
    hide DigitsValue, PlaceValue, SpellDigit, DigitValue, SpellDigits, DigitsOf, AllDigits, Below;
    var sign := if text[0] == '-' then Minus else if text[0] == '+' then Plus else NoSign;
    var body := if sign == NoSign then text else text[1..];
    var hex := if IsHexPrefix(body) then Some(body[1]) else None;
    var digits := if IsHexPrefix(body) then body[2..] else body;
    AllDigitsWiden(digits, Base(hex));
    DigitsSpell(digits, Base(hex));
    var ds := DigitsOf(digits);
    DigitsRead(ds, Base(hex));
    x := Literal(sign, hex, ds);
    BodySpells(body, hex, digits);
    assert Spell(x) == SpellSign(sign) + body;
  }

  lemma AllDigitsWiden(s: string, base: nat)
    requires AllDigits(s, base) && base <= 16
    ensures AllDigits(s, 16)
  {
  }

  lemma BodySpells(body: string, hex: Option<char>, digits: string)
    requires hex == if IsHexPrefix(body) then Some(body[1]) else None
    requires digits == if IsHexPrefix(body) then body[2..] else body
    ensures SpellPrefix(hex) + digits == body && HexLetter(hex)
  {
  }

  // ---- One item -----------------------------------------------------------------------------------

  lemma BodyLength(hex: Option<char>, ds: seq<Digit>, rest: string)
    requires |ds| > 0 && Below(ds, Base(hex)) && HexLetter(hex) && (|rest| == 0 || !IsAlnum(rest[0]))
    ensures
      var t, skip := Body(hex, ds) + rest, if hex.Some? then 2 else 0;
      && |t| > 0 && IsDigit(t[0]) && (IsHexPrefix(t) <==> hex.Some?) && |Body(hex, ds)| == skip + |ds|
      && skip <= |t| && RunLength(t[skip..], AlnumChars) == |ds|
  {
    hide SpellDigits, RunLength;
    var body, digits, skip := Body(hex, ds), SpellDigits(ds), if hex.Some? then 2 else 0;
    BodyForm(hex, ds);
    DigitsAlnum(ds, Base(hex));
    RunOfWord(digits, rest, AlnumChars);
    assert (body + rest)[skip..] == digits + rest;
    assert IsHexPrefix(body + rest) <==> IsHexPrefix(body);
  }

  lemma SignedLength(c: char, t: string)
    requires (c == '+' || c == '-') && |t| > 0 && IsDigit(t[0])
    ensures StartsNumber(t) && StartsNumber([c] + t) && NumberLength([c] + t) == 1 + NumberLength(t)
  {
    hide RunLength, IsHexPrefix;
    var s := [c] + t;
    assert s[1..] == t && t[0..] == t && s[1] == t[0];
    if IsHexPrefix(t) { ShortHex(t); assert s[3..] == t[2..]; }
  }

  lemma ShortHex(t: string)
    ensures IsHexPrefix(t) ==> |t| >= 2
  {
  }

  lemma UnsignedLength(t: string)
    requires |t| > 0 && IsDigit(t[0])
    ensures StartsNumber(t)
    ensures NumberLength(t) == if IsHexPrefix(t) then 2 + RunLength(t[2..], AlnumChars) else RunLength(t, AlnumChars)
  {
    hide RunLength;
    assert t[0..] == t;
  }

  lemma LiteralLength(sign: Sign, hex: Option<char>, ds: seq<Digit>, rest: string)
    requires Legal(Literal(sign, hex, ds)) && (|rest| == 0 || !IsAlnum(rest[0]))
    ensures
      var text := Spell(Literal(sign, hex, ds));
      StartsNumber(text + rest) && NumberLength(text + rest) == |text|
  {
    hide PlaceValue, Below, Body, SpellDigits, RunLength, IsHexPrefix, StartsNumber, NumberLength, Spell;
    var t, text := Body(hex, ds) + rest, Spell(Literal(sign, hex, ds));
    BodyLength(hex, ds, rest);
    UnsignedLength(t);
    SpellLiteral(sign, hex, ds);
    match sign
    case NoSign => assert text + rest == t;
    case Plus => SignedLength('+', t); assert text + rest == ['+'] + t;
    case Minus => SignedLength('-', t); assert text + rest == ['-'] + t;
  }

  lemma SpellLiteral(sign: Sign, hex: Option<char>, ds: seq<Digit>)
    ensures Spell(Literal(sign, hex, ds)) == SpellSign(sign) + Body(hex, ds)
  {
  }

  lemma LexLiteral(sign: Sign, hex: Option<char>, ds: seq<Digit>, rest: string, line: nat)
    requires Legal(Literal(sign, hex, ds)) && (|rest| == 0 || !IsAlnum(rest[0]))
    ensures
      var x := Literal(sign, hex, ds);
      Lex(Spell(x) + rest, line) == Prepend(TokenOf(x, line).value, Lex(rest, line))
  {
    hide ParseNumber, RegisterIndex, RunLength, NumberLength, StartsNumber, LiteralValue, Legal, Spell;
    var text := Spell(Literal(sign, hex, ds));
    var s := text + rest;
    LiteralLength(sign, hex, ds, rest);
    LiteralReads(sign, hex, ds);
    NumberHead(s);
    assert s[..|text|] == text && s[|text|..] == rest;
  }

  /** The text behind an item does not continue it. */
  predicate Stops(x: Item, rest: string) {
    |rest| == 0 || !Continues(x, rest[0])
  }

  function Put(t: Option<Token>, r: Result<seq<Token>, LexError>): Result<seq<Token>, LexError> {
    if t.Some? then Prepend(t.value, r) else r
  }

  lemma LexWordItem(x: Item, rest: string, line: nat)
    requires Legal(x) && Stops(x, rest) && (x.Name? || x.RegName?)
    ensures Lex(Spell(x) + rest, line) == Put(TokenOf(x, line), Lex(rest, LineBehind(x, line)))
  {
    hide Lex, Letter, Decimal, PlaceValue, RegisterIndex, RegisterForm, SpellDigits;
    var w := Spell(x);
    WordOfItem(x);
    if |rest| > 0 { Characters(rest[0]); }
    LexWord(w, rest, line);
    RegisterIsForm(w);
    if x.RegName? { RegisterReads(x.digits); }
  }

  lemma WordOfItem(x: Item)
    requires Legal(x) && (x.Name? || x.RegName?)
    ensures IsWord(Spell(x))
  {
    hide SpellDigit, PlaceValue;
    var w := Spell(x);
    if x.RegName? {
      DigitsAlnum(x.digits, 10);
      assert forall i :: 1 <= i < |w| ==> w[i] == SpellDigits(x.digits)[i - 1];
    } else {
      forall i | 0 <= i < |w|
        ensures IsIdentChar(w[i]) && (NameStart(w[0]) <==> IsIdentStart(w[0]))
      {
        Characters(w[i]);
        Characters(w[0]);
      }
    }
  }

  /** One item lexes to its token, and the text behind it on its own. */
  lemma LexItem(x: Item, rest: string, line: nat)
    requires Legal(x) && Stops(x, rest)
    ensures Lex(Spell(x) + rest, line) == Put(TokenOf(x, line), Lex(rest, LineBehind(x, line)))
  {
    hide Lex, Letter, Decimal, LiteralValue, SpellDigits, RegisterForm, Prepend;
    match x
    case Space(c) => LexBlanks([c], rest, line);
    case Remark(text) => LexComment(text, rest, line);
    case LineBreak => LexLineEnd(rest, line);
    case Mark(k) => LexPunctuation(SpellMark(k), rest, line);
    case Name(_) => LexWordItem(x, rest, line);
    case RegName(_) => LexWordItem(x, rest, line);
    case Literal(sign, hex, ds) =>
      if |rest| > 0 { Characters(rest[0]); }
      LexLiteral(sign, hex, ds, rest, line);
  }

  // ---- Whole texts ----------------------------------------------------------------------------------

  /** Written items lex to their tokens, whatever stands behind them. */
  lemma {:induction false} LexWritten(xs: seq<Item>, rest: string, line: nat)
    requires Written(xs, rest)
    ensures Lex(SpellAll(xs, rest), line) == PrependAll(TokensOf(xs, line), Lex(rest, LineBehindAll(xs, line)))
    decreases |xs|
  {
    hide Lex, Legal, Spell, TokenOf, LineBehind, Continues;
    var end := Lex(rest, LineBehindAll(xs, line));
    if |xs| == 0 {
      PrependNone(end);
    } else {
      var behind := LineBehind(xs[0], line);
      LexWritten(xs[1..], rest, behind);
      LexItem(xs[0], SpellAll(xs[1..], rest), line);
      PutAll(TokenOf(xs[0], line), TokensOf(xs[1..], behind), end);
    }
  }

  lemma PrependNone(r: Result<seq<Token>, LexError>)
    ensures PrependAll([], r) == r
  {
    if r.Success? { assert [] + r.value == r.value; }
  }

  lemma PutAll(t: Option<Token>, ts: seq<Token>, r: Result<seq<Token>, LexError>)
    ensures Put(t, PrependAll(ts, r)) == PrependAll((if t.Some? then [t.value] else []) + ts, r)
  {
    if t.Some? { PrependAllIs(t.value, ts, r); } else { assert [] + ts == ts; }
  }

  /** A character no item begins with. */
  predicate Unreadable(rest: string) {
    && |rest| > 0
    && var c := rest[0];
       && c !in " \t\r\n;,:()" && !NameStart(c) && !Decimal(c)
       && !((c == '+' || c == '-') && |rest| > 1 && Decimal(rest[1]))
  }

  /** A digit, after an optional sign, and letters and digits behind it. */
  predicate NumberForm(text: string) {
    var from := if |text| > 0 && (text[0] == '+' || text[0] == '-') then 1 else 0;
    from < |text| && Decimal(text[from]) && forall i :: from <= i < |text| ==> Letter(text[i]) || Decimal(text[i])
  }

  /** The first `n` characters have the form of a number, none more belongs to it, and no literal is
      spelled so. */
  ghost predicate Misnumbered(rest: string, n: nat) {
    && n <= |rest| && NumberForm(rest[..n]) && (n < |rest| ==> !Letter(rest[n]) && !Decimal(rest[n]))
    && forall x: Item :: Legal(x) && x.Literal? ==> Spell(x) != rest[..n]
  }

  lemma LexUnreadable(rest: string, line: nat)
    requires Unreadable(rest)
    ensures Lex(rest, line) == Failure(UnexpectedCharacter(line))
  {
    hide ParseNumber, RegisterIndex, RunLength, NumberLength, Letter, Decimal;
    Characters(rest[0]);
    if |rest| > 1 { Characters(rest[1]); }
    NotListed(rest[0]);
  }

  lemma NotListed(c: char)
    requires c !in " \t\r\n;,:()"
    ensures c != ' ' && c != '\t' && c != '\r' && c != '\n' && c != ';' && Punctuation(c) == None
  {
    var s := " \t\r\n;,:()";
    assert s[0] == ' ' && s[1] == '\t' && s[2] == '\r' && s[3] == '\n' && s[4] == ';' && s[5] == ',';
    assert s[6] == ':' && s[7] == '(' && s[8] == ')';
  }

  lemma UnsignedForm(t: string, m: nat)
    requires 0 < m <= |t| && IsDigit(t[0]) && (forall i :: 0 <= i < m ==> IsAlnum(t[i]))
    requires m < |t| ==> !IsAlnum(t[m])
    ensures StartsNumber(t) && NumberLength(t) == m
  {
    hide RunLength, StartsNumber, NumberLength;
    UnsignedLength(t);
    var skip := if IsHexPrefix(t) then 2 else 0;
    assert t[skip..] == t[skip..m] + t[m..];
    RunOfWord(t[skip..m], t[m..], AlnumChars);
    assert t[0..] == t;
  }

  /** A text of number form is what the scanner takes. */
  lemma FormLength(s: string, n: nat)
    requires n <= |s| && NumberForm(s[..n]) && (n < |s| ==> !Letter(s[n]) && !Decimal(s[n]))
    ensures StartsNumber(s) && NumberLength(s) == n
  {
    hide StartsNumber, NumberLength, Letter, Decimal, IsAlnum;
    var from := if s[..n][0] == '+' || s[..n][0] == '-' then 1 else 0;
    FormAlnum(s, n, from);
    var t := s[from..];
    UnsignedForm(t, n - from);
    if from == 0 {
      assert t == s;
    } else {
      SignedLength(s[0], t);
      assert [s[0]] + t == s;
    }
  }

  lemma FormAlnum(s: string, n: nat, from: nat)
    requires n <= |s| && NumberForm(s[..n]) && (n < |s| ==> !Letter(s[n]) && !Decimal(s[n]))
    requires from == if s[..n][0] == '+' || s[..n][0] == '-' then 1 else 0
    ensures from < n && IsDigit(s[from]) && (forall i :: from <= i < n ==> IsAlnum(s[i]))
    ensures n < |s| ==> !IsAlnum(s[n])
    ensures from == 0 ==> s[0] != '+' && s[0] != '-'
    ensures from == 1 ==> !IsDigit(s[0])
  {
    hide Letter, Decimal;
    var t := s[..n];
    Characters(t[from]);
    if n < |s| { Characters(s[n]); }
    forall i | from <= i < n
      ensures IsAlnum(s[i])
    {
      assert t[i] == s[i];
      Characters(s[i]);
    }
  }

  lemma LexMisnumbered(rest: string, n: nat, line: nat)
    requires Misnumbered(rest, n)
    ensures Lex(rest, line) == Failure(InvalidNumber(line))
  {
    hide ParseNumber, RegisterIndex, RunLength, NumberLength, StartsNumber, Legal, Spell, NumberForm;
    FormLength(rest, n);
    NumberHead(rest);
    if ParseNumber(rest[..n]).Some? {
      var x := ReadsLiteral(rest[..n]);
      assert false;
    }
  }

  // ---- Reading a text as items ------------------------------------------------------------------------

  /** The item the lexer finds at the head of a text. */
  lemma HeadItem(s: string) returns (x: Item, rest: string)
    requires |s| > 0 && (LexOne(s).Blank? || LexOne(s).LineEnd? || LexOne(s).Item?)
    ensures Legal(x) && Stops(x, rest) && Spell(x) + rest == s && |rest| < |s|
  {
    hide ParseNumber, RegisterIndex, RunLength, NumberLength, StartsNumber, Legal, Spell, Continues, IsIdentStart;
    var c := s[0];
    if c == '\n' || c == ' ' || c == '\t' || c == '\r' || Punctuation(c).Some? {
      x := ShortItem(s);
      rest := s[1..];
    } else if c == ';' {
      x, rest := CommentItem(s);
    } else if StartsNumber(s) {
      x, rest := NumberItem(s);
    } else {
      x, rest := WordItem(s);
    }
  }

  lemma ShortItem(s: string) returns (x: Item)
    requires |s| > 0
    requires var c := s[0]; c == '\n' || c == ' ' || c == '\t' || c == '\r' || Punctuation(c).Some?
    ensures Legal(x) && Stops(x, s[1..]) && Spell(x) + s[1..] == s
  {
    var c := s[0];
    x := if c == '\n' then LineBreak
      else if Punctuation(c).Some? then Mark(Punctuation(c).value)
      else Space(c);
    assert [c] + s[1..] == s;
  }

  lemma CommentItem(s: string) returns (x: Item, rest: string)
    requires |s| > 0 && s[0] == ';'
    ensures Legal(x) && Stops(x, rest) && Spell(x) + rest == s && |rest| < |s|
  {
    var n := RunLength(s, CommentChars);
    assert n >= 1;
    x, rest := Remark(s[1..n]), s[n..];
    assert ";" + s[1..n] + s[n..] == s;
  }

  lemma NumberItem(s: string) returns (x: Item, rest: string)
    requires |s| > 0 && StartsNumber(s) && ParseNumber(s[..NumberLength(s)]).Some?
    ensures Legal(x) && Stops(x, rest) && Spell(x) + rest == s && |rest| < |s|
  {
    hide ParseNumber, Legal, Spell, Letter, Decimal, StartsNumber, NumberLength;
    var n := NumberLength(s);
    x := ReadsLiteral(s[..n]);
    rest := s[n..];
    NumberEnds(s);
    if n < |s| { Characters(s[n]); }
  }

  lemma NumberEnds(s: string)
    requires StartsNumber(s)
    ensures NumberLength(s) < |s| ==> !IsAlnum(s[NumberLength(s)])
  {
    var sign := if IsDigit(s[0]) then 0 else 1;
    var prefix := if IsHexPrefix(s[sign..]) then sign + 2 else sign;
    assert NumberLength(s) == prefix + RunLength(s[prefix..], AlnumChars);
  }

  lemma WordItem(s: string) returns (x: Item, rest: string)
    requires |s| > 0 && IsIdentStart(s[0])
    ensures Legal(x) && Stops(x, rest) && Spell(x) + rest == s && |rest| < |s|
  {
    hide RegisterIndex, RegisterForm, Letter, Decimal, SpellDigits;
    var n := RunLength(s, IdentChars);
    WordRun(s, n);
    var w := s[..n];
    rest := s[n..];
    if |rest| > 0 { Characters(rest[0]); }
    RegisterIsForm(w);
    if RegisterForm(w) {
      x := RegisterItem(w);
    } else {
      x := Name(w);
    }
    assert w + rest == s;
  }

  lemma WordRun(s: string, n: nat)
    requires |s| > 0 && IsIdentStart(s[0]) && n == RunLength(s, IdentChars)
    ensures 0 < n <= |s| && NameStart(s[0]) && (forall i :: 0 <= i < n ==> NameChar(s[i]))
    ensures n < |s| ==> !IsIdentChar(s[n])
  {
    hide Letter, Decimal;
    Characters(s[0]);
    forall i | 0 <= i < n
      ensures NameChar(s[i])
    {
      Characters(s[i]);
    }
  }

  lemma RegisterItem(w: string) returns (x: Item)
    requires RegisterForm(w)
    ensures x.RegName? && Legal(x) && Spell(x) == w
  {
    hide DigitsOf, SpellDigits, DigitValue, Decimal;
    var digits := w[1..];
    forall i | 0 <= i < |digits|
      ensures DigitValue(digits[i]) < 10
    {
      assert digits[i] == w[i + 1];
      DecimalDigit(w[i + 1]);
    }
    DigitsSpell(digits, 10);
    x := RegName(DigitsOf(digits));
    assert "r" + digits == w;
  }

  /** Where the lexer stops, no item begins. */
  lemma HeadUnreadable(s: string)
    requires |s| > 0 && LexOne(s).NoToken?
    ensures Unreadable(s)
  {
    hide ParseNumber, RegisterIndex, RunLength, NumberLength, Letter, Decimal;
    Characters(s[0]);
    if |s| > 1 { Characters(s[1]); }
  }

  lemma HeadMisnumbered(s: string)
    requires |s| > 0 && LexOne(s).NoNumber?
    ensures StartsNumber(s) && Misnumbered(s, NumberLength(s))
  {
    hide ParseNumber, RegisterIndex, RunLength, NumberLength, Letter, Decimal, Spell, Legal, StartsNumber, NumberForm;
    assert StartsNumber(s);
    var n := NumberLength(s);
    NumberEnds(s);
    NumberTakes(s);
    if n < |s| { Characters(s[n]); }
    forall x: Item | Legal(x) && x.Literal?
      ensures Spell(x) != s[..n]
    {
      if Spell(x) == s[..n] {
        LiteralReads(x.sign, x.hex, x.digits);
        assert false;
      }
    }
  }

  lemma NumberTakes(s: string)
    requires StartsNumber(s)
    ensures NumberForm(s[..NumberLength(s)])
  {
    hide RunLength, Letter, Decimal;
    var sign := if IsDigit(s[0]) then 0 else 1;
    var hex := IsHexPrefix(s[sign..]);
    var prefix := if hex then sign + 2 else sign;
    var n := NumberLength(s);
    var text := s[..n];
    assert n == prefix + RunLength(s[prefix..], AlnumChars);
    forall i | sign <= i < n
      ensures Letter(text[i]) || Decimal(text[i])
    {
      Characters(s[i]);
      if i >= prefix {
        assert s[i] == s[prefix..][i - prefix];
      } else {
        assert s[i] == s[sign..][i - sign];
      }
    }
    Characters(s[0]);
    Characters(s[sign]);
    if !hex { assert s[prefix..][0] == s[sign]; RunSome(s[prefix..]); }
  }

  lemma RunSome(s: string)
    requires |s| > 0 && IsAlnum(s[0])
    ensures RunLength(s, AlnumChars) > 0
  {
  }

  /** Every text is a list of items, up to its end or to where no item begins. */
  lemma {:induction false} Reads(s: string) returns (xs: seq<Item>, rest: string)
    ensures Written(xs, rest) && SpellAll(xs, rest) == s
    ensures |rest| == 0 || Unreadable(rest) || exists n :: Misnumbered(rest, n)
    decreases |s|
  {
    hide LexOne, Legal, Spell, Unreadable, Misnumbered, StartsNumber;
    if |s| == 0 {
      xs, rest := [], s;
    } else {
      match LexOne(s)
      case NoToken =>
        HeadUnreadable(s);
        xs, rest := [], s;
      case NoNumber =>
        HeadMisnumbered(s);
        xs, rest := [], s;
      case _ =>
        var x, behind := HeadItem(s);
        var ys;
        ys, rest := Reads(behind);
        xs := [x] + ys;
        assert xs[1..] == ys;
    }
  }

  /** The lexer, exactly. A text is accepted when it is written as items, and then gives their tokens and an
      `End`; otherwise some items stand in front of a character that begins none, or of a number that no
      literal is spelled like, and the error is that one, on its line. */
  lemma LexedExactly(s: string, line: nat)
    ensures Lex(s, line).Success? <==> exists xs :: Written(xs, "") && SpellAll(xs, "") == s
    ensures forall xs :: Written(xs, "") && SpellAll(xs, "") == s ==>
      Lex(s, line) == Success(TokensOf(xs, line) + [Token(End, "", 0, LineBehindAll(xs, line))])
    ensures forall xs, rest :: Written(xs, rest) && SpellAll(xs, rest) == s && Unreadable(rest) ==>
      Lex(s, line) == Failure(UnexpectedCharacter(LineBehindAll(xs, line)))
    ensures forall xs, rest, n :: Written(xs, rest) && SpellAll(xs, rest) == s && Misnumbered(rest, n) ==>
      Lex(s, line) == Failure(InvalidNumber(LineBehindAll(xs, line)))
    ensures Lex(s, line).Failure? ==> exists xs, rest ::
      Written(xs, rest) && SpellAll(xs, rest) == s && (Unreadable(rest) || exists n :: Misnumbered(rest, n))
  {
    hide Lex, Written, SpellAll, Unreadable, Misnumbered, TokensOf, LineBehindAll;
    forall xs | Written(xs, "") && SpellAll(xs, "") == s
      ensures Lex(s, line) == Success(TokensOf(xs, line) + [Token(End, "", 0, LineBehindAll(xs, line))])
    {
      LexWritten(xs, "", line);
      LexNothing(LineBehindAll(xs, line));
    }
    forall xs, rest | Written(xs, rest) && SpellAll(xs, rest) == s && Unreadable(rest)
      ensures Lex(s, line) == Failure(UnexpectedCharacter(LineBehindAll(xs, line)))
    {
      LexWritten(xs, rest, line);
      LexUnreadable(rest, LineBehindAll(xs, line));
    }
    forall xs, rest, n | Written(xs, rest) && SpellAll(xs, rest) == s && Misnumbered(rest, n)
      ensures Lex(s, line) == Failure(InvalidNumber(LineBehindAll(xs, line)))
    {
      LexWritten(xs, rest, line);
      LexMisnumbered(rest, n, LineBehindAll(xs, line));
    }
    var xs, rest := Reads(s);
    if |rest| == 0 { assert rest == ""; }
  }

  /** Items without blanks and comments. */
  function Skeleton(xs: seq<Item>): seq<Item> {
    if |xs| == 0 then []
    else if xs[0].Space? || xs[0].Remark? then Skeleton(xs[1..])
    else [xs[0]] + Skeleton(xs[1..])
  }

  lemma {:induction false} SkeletonTokens(xs: seq<Item>, line: nat)
    ensures TokensOf(Skeleton(xs), line) == TokensOf(xs, line)
    ensures LineBehindAll(Skeleton(xs), line) == LineBehindAll(xs, line)
  {
    hide Spell, PlaceValue, LiteralValue;
    if |xs| == 0 {
    } else {
      SkeletonTokens(xs[1..], LineBehind(xs[0], line));
      if xs[0].Space? || xs[0].Remark? {
        assert TokensOf(xs, line) == [] + TokensOf(xs[1..], line);
      } else {
        assert ([xs[0]] + Skeleton(xs[1..]))[1..] == Skeleton(xs[1..]);
      }
    }
  }

  /** Blanks and comments anywhere between the other items change no token. */
  lemma LayoutDoesNotMatter(xs: seq<Item>, ys: seq<Item>, line: nat)
    requires Written(xs, "") && Written(ys, "") && Skeleton(xs) == Skeleton(ys)
    ensures Lex(SpellAll(xs, ""), line) == Lex(SpellAll(ys, ""), line)
  {
    hide Lex, Written, SpellAll, TokensOf, LineBehindAll, Skeleton;
    LexWritten(xs, "", line);
    LexWritten(ys, "", line);
    SkeletonTokens(xs, line);
    SkeletonTokens(ys, line);
    LexNothing(LineBehindAll(xs, line));
  }
}

/** Printing instructions and reading them back. */
module RoundTrip {
  import opened Words
  import opened Isa
  import opened Results
  import opened Encoding
  import opened Disassembly
  import opened Syntax
  import opened Lexer
  import opened Parser
  import opened Assembler

  // ---- Decimal numbers -------------------------------------------------------------------

  lemma {:induction false} PrintedDigits(n: nat)
    ensures forall i :: 0 <= i < |PrintNat(n)| ==> IsDigit(PrintNat(n)[i])
    ensures DigitsValue(PrintNat(n), 10) == n
  {
    if n < 10 {
      assert PrintNat(n)[..0] == [];
    } else {
      PrintedDigits(n / 10);
      var s := PrintNat(n);
      assert s[..|s| - 1] == PrintNat(n / 10);
    }
  }

  lemma DigitsAreDecimal(s: string)
    requires forall i :: 0 <= i < |s| ==> IsDigit(s[i])
    ensures AllDigits(s, 10) && !IsHexPrefix(s)
  {
  }

  /** Reading a printed number gives the number. */
  lemma ParsePrinted(v: int)
    requires -0x8000_0000_0000_0000 <= v < 0x8000_0000_0000_0000
    ensures ParseNumber(PrintInt(v)) == Some(v)
  {
    hide DigitsValue, PrintNat, AllDigits, IsHexPrefix;
    var digits := PrintNat(if v < 0 then -v else v);
    PrintedDigits(if v < 0 then -v else v);
    DigitsAreDecimal(digits);
    if v < 0 { assert PrintInt(v)[1..] == digits; }
  }

  lemma RegisterPrinted(r: UInt8)
    ensures RegisterIndex(PrintReg(r)) == Some(r as nat)
  {
    hide DigitsValue, PrintNat, AllDigits;
    PrintedDigits(r);
    DigitsAreDecimal(PrintNat(r));
    assert PrintReg(r)[1..] == PrintNat(r);
  }

  // ---- Lexing one item in front of the rest ---------------------------------------------------

  /** The rest of the text does not continue a word or a number. */
  predicate Apart(rest: string) {
    |rest| == 0 || !IsIdentChar(rest[0])
  }

  lemma {:induction false} RunOfWord(w: string, rest: string, cls: Class)
    requires forall i :: 0 <= i < |w| ==> InClass(w[i], cls)
    requires |rest| == 0 || !InClass(rest[0], cls)
    ensures RunLength(w + rest, cls) == |w|
  {
    if |w| > 0 {
      assert (w + rest)[1..] == w[1..] + rest;
      RunOfWord(w[1..], rest, cls);
    } else {
      assert w + rest == rest;
    }
  }

  /** A mnemonic or a register name. */
  predicate IsWord(w: string) {
    |w| > 0 && IsIdentStart(w[0]) && forall i :: 0 <= i < |w| ==> IsIdentChar(w[i])
  }

  function WordToken(w: string, line: nat): Token {
    match RegisterIndex(w)
    case None => Token(Identifier, w, 0, line)
    case Some(r) => Token(Register, w, r, line)
  }

  lemma LexWord(w: string, rest: string, line: nat)
    requires IsWord(w) && Apart(rest)
    ensures Lex(w + rest, line) == Prepend(WordToken(w, line), Lex(rest, line))
  {
    hide ParseNumber, RegisterIndex, RunLength, NumberLength;
    var s := w + rest;
    RunOfWord(w, rest, IdentChars);
    assert s[0] == w[0] && s[..|w|] == w && s[|w|..] == rest;
  }

  lemma LexPunctuation(c: char, rest: string, line: nat)
    requires Punctuation(c).Some?
    ensures Lex([c] + rest, line) == Prepend(Token(Punctuation(c).value, [c], 0, line), Lex(rest, line))
  {
    hide ParseNumber, RegisterIndex, RunLength, NumberLength;
    var s := [c] + rest;
    assert s[0] == c && s[..1] == [c] && s[1..] == rest;
  }

  lemma LexSpace(rest: string, line: nat)
    ensures Lex(" " + rest, line) == Lex(rest, line)
  {
    hide ParseNumber, RegisterIndex, RunLength, NumberLength;
    assert (" " + rest)[1..] == rest;
  }

  lemma LexLineEnd(rest: string, line: nat)
    ensures Lex("\n" + rest, line) == Prepend(Token(Newline, "\\n", 0, line), Lex(rest, line + 1))
  {
    hide ParseNumber, RegisterIndex, RunLength, NumberLength;
    assert ("\n" + rest)[1..] == rest;
  }

  function CommaToken(line: nat): Token { Token(Comma, ",", 0, line) }

  lemma LexComma(rest: string, line: nat)
    ensures Lex(COMMA + rest, line) == Prepend(CommaToken(line), Lex(rest, line))
  {
    hide Lex;
    assert COMMA + rest == [','] + (" " + rest);
    LexPunctuation(',', " " + rest, line);
    LexSpace(rest, line);
  }

  function NumberToken(v: int, line: nat): Token { Token(Number, PrintInt(v), v, line) }

  lemma NumberLengthOfPrinted(v: int, rest: string)
    requires Apart(rest)
    ensures StartsNumber(PrintInt(v) + rest) && NumberLength(PrintInt(v) + rest) == |PrintInt(v)|
  {
    hide PrintNat, RunLength, DigitsValue;
    var digits := PrintNat(if v < 0 then -v else v);
    PrintedDigits(if v < 0 then -v else v);
    var s := PrintInt(v) + rest;
    var sign := if v < 0 then 1 else 0;
    assert s[sign..] == digits + rest;
    assert !IsHexPrefix(digits + rest) by {
      if |digits| > 1 { assert IsDigit(digits[1]); }
    }
    RunOfWord(digits, rest, AlnumChars);
  }

  lemma LexPrintedNumber(v: int, rest: string, line: nat)
    requires -0x8000_0000_0000_0000 <= v < 0x8000_0000_0000_0000 && Apart(rest)
    ensures Lex(PrintInt(v) + rest, line) == Prepend(NumberToken(v, line), Lex(rest, line))
  {
    hide ParseNumber, RegisterIndex, RunLength, NumberLength, PrintInt, StartsNumber;
    var w := PrintInt(v);
    var s := w + rest;
    NumberLengthOfPrinted(v, rest);
    ParsePrinted(v);
    NumberHead(s);
    assert s[..|w|] == w && s[|w|..] == rest;
  }

  lemma NumberHead(s: string)
    requires StartsNumber(s)
    ensures s[0] != '\n' && s[0] != ' ' && s[0] != '\t' && s[0] != '\r' && s[0] != ';' && Punctuation(s[0]).None?
  {
  }

  lemma RegisterIsWord(r: UInt8)
    ensures IsWord(PrintReg(r))
  {
    hide PrintNat, DigitsValue;
    PrintedDigits(r);
  }

  function RegToken(r: UInt8, line: nat): Token { Token(Register, PrintReg(r), r, line) }

  lemma LexRegister(r: UInt8, rest: string, line: nat)
    requires Apart(rest)
    ensures Lex(PrintReg(r) + rest, line) == Prepend(RegToken(r, line), Lex(rest, line))
  {
    hide Lex, PrintReg, RegisterIndex;
    RegisterIsWord(r);
    RegisterPrinted(r);
    LexWord(PrintReg(r), rest, line);
  }

  function NameToken(m: string, line: nat): Token { Token(Identifier, m, 0, line) }

  lemma MnemonicIsWord(op: Opcode)
    ensures IsWord(Mnemonic(op)) && RegisterIndex(Mnemonic(op)) == None
  {
    hide DigitsValue;
    if op == RET { assert Mnemonic(op)[1..][0] == 'e'; }
  }

  lemma MnemonicNamesOpcode(op: Opcode)
    ensures LookupOpcode(Mnemonic(op)) == Some(op)
    ensures Mnemonic(op) != "nop" && Mnemonic(op) != "mov" && Mnemonic(op) != "li"
  {
  }

  lemma MnemonicIsLower(op: Opcode)
    ensures ToLower(Mnemonic(op)) == Mnemonic(op)
  {
  }

  lemma LexName(m: string, rest: string, line: nat)
    requires IsWord(m) && RegisterIndex(m) == None && Apart(rest)
    ensures Lex(m + rest, line) == Prepend(NameToken(m, line), Lex(rest, line))
  {
    hide Lex, RegisterIndex;
    LexWord(m, rest, line);
  }

  // ---- Lexing one instruction -------------------------------------------------------------------

  /** What a printed operand list begins with. */
  datatype Part = RegPart(r: UInt8) | NumPart(v: int) | MemPart(disp: int, base: UInt8)

  function PrintPart(x: Part): string {
    match x
    case RegPart(r) => PrintReg(r)
    case NumPart(v) => PrintInt(v)
    case MemPart(d, b) => PrintInt(d) + "(" + PrintReg(b) + ")"
  }

  function PartTokens(x: Part, line: nat): seq<Token> {
    match x
    case RegPart(r) => [RegToken(r, line)]
    case NumPart(v) => [NumberToken(v, line)]
    case MemPart(d, b) => [NumberToken(d, line), Token(LParen, "(", 0, line), RegToken(b, line),
      Token(RParen, ")", 0, line)]
  }

  function PartOperand(x: Part): Operand {
    match x
    case RegPart(r) => RegOperand(r)
    case NumPart(v) => ImmOperand(v)
    case MemPart(d, b) => MemOperand(d, b)
  }

  predicate PartLegal(x: Part) {
    match x
    case RegPart(r) => r < NUM_REGISTERS
    case NumPart(v) => -0x8000_0000 <= v < TWO_32
    case MemPart(d, b) => -0x8000_0000 <= d < TWO_32 && b < NUM_REGISTERS
  }

  function PrependAll(ts: seq<Token>, r: Result<seq<Token>, LexError>): Result<seq<Token>, LexError> {
    if r.Failure? then r else Success(ts + r.value)
  }

  lemma PrependAllIs(t: Token, ts: seq<Token>, r: Result<seq<Token>, LexError>)
    ensures Prepend(t, PrependAll(ts, r)) == PrependAll([t] + ts, r)
    ensures PrependAll([], r) == r
  {
    if r.Success? {
      assert [t] + (ts + r.value) == [t] + ts + r.value;
      assert [] + r.value == r.value;
    }
  }

  lemma PrependAllJoins(ts: seq<Token>, us: seq<Token>, r: Result<seq<Token>, LexError>)
    ensures PrependAll(ts, PrependAll(us, r)) == PrependAll(ts + us, r)
  {
    if r.Success? { assert ts + (us + r.value) == ts + us + r.value; }
  }

  lemma LexMemPart(d: int, b: UInt8, rest: string, line: nat)
    requires PartLegal(MemPart(d, b)) && Apart(rest)
    ensures Lex(PrintPart(MemPart(d, b)) + rest, line) == PrependAll(PartTokens(MemPart(d, b), line), Lex(rest, line))
  {
    hide Lex, PrintInt, PrintReg, PrependAll, Prepend;
    var r := Lex(rest, line);
    var num, open, reg, close := NumberToken(d, line), Token(LParen, "(", 0, line), RegToken(b, line),
      Token(RParen, ")", 0, line);
    assert PrintPart(MemPart(d, b)) + rest == PrintInt(d) + (['('] + (PrintReg(b) + ([')'] + rest)));
    LexPunctuation(')', rest, line);
    LexRegister(b, [')'] + rest, line);
    LexPunctuation('(', PrintReg(b) + ([')'] + rest), line);
    LexPrintedNumber(d, ['('] + (PrintReg(b) + ([')'] + rest)), line);
    PrependAllIs(close, [], r);
    PrependAllIs(reg, [close], r);
    PrependAllIs(open, [reg, close], r);
    PrependAllIs(num, [open, reg, close], r);
    assert [close] + [] == [close] && [reg] + [close] == [reg, close] && [open] + [reg, close] == [open, reg, close];
    assert [num] + [open, reg, close] == PartTokens(MemPart(d, b), line);
  }

  lemma LexPart(x: Part, rest: string, line: nat)
    requires PartLegal(x) && Apart(rest)
    ensures Lex(PrintPart(x) + rest, line) == PrependAll(PartTokens(x, line), Lex(rest, line))
  {
    hide Lex, PrintInt, PrintReg, Prepend;
    match x
    case RegPart(r) => LexRegister(r, rest, line); PrependIsAll(RegToken(r, line), Lex(rest, line));
    case NumPart(v) => LexPrintedNumber(v, rest, line); PrependIsAll(NumberToken(v, line), Lex(rest, line));
    case MemPart(d, b) => LexMemPart(d, b, rest, line);
  }

  lemma PrependIsAll(t: Token, r: Result<seq<Token>, LexError>)
    ensures Prepend(t, r) == PrependAll([t], r)
  {
  }

  /** Operands separated by ", ". */
  function PrintParts(xs: seq<Part>): string {
    if |xs| == 0 then ""
    else if |xs| == 1 then PrintPart(xs[0])
    else PrintPart(xs[0]) + COMMA + PrintParts(xs[1..])
  }

  function PartsTokens(xs: seq<Part>, line: nat): seq<Token> {
    if |xs| == 0 then []
    else if |xs| == 1 then PartTokens(xs[0], line)
    else PartTokens(xs[0], line) + [CommaToken(line)] + PartsTokens(xs[1..], line)
  }

  lemma {:induction false} LexParts(xs: seq<Part>, rest: string, line: nat)
    requires (forall x :: x in xs ==> PartLegal(x)) && Apart(rest)
    ensures Lex(PrintParts(xs) + rest, line) == PrependAll(PartsTokens(xs, line), Lex(rest, line))
  {
    hide Lex, PrintPart, PartTokens, PrependAll, Prepend;
    if |xs| == 0 {
      assert PrintParts(xs) + rest == rest;
      PrependAllIs(CommaToken(line), [], Lex(rest, line));
    } else if |xs| == 1 {
      LexPart(xs[0], rest, line);
    } else {
      var tail := PrintParts(xs[1..]) + rest;
      assert PrintParts(xs) + rest == PrintPart(xs[0]) + (COMMA + tail);
      LexParts(xs[1..], rest, line);
      LexComma(tail, line);
      LexPart(xs[0], COMMA + tail, line);
      PrependAllIs(CommaToken(line), PartsTokens(xs[1..], line), Lex(rest, line));
      PrependAllJoins(PartTokens(xs[0], line), [CommaToken(line)] + PartsTokens(xs[1..], line), Lex(rest, line));
      assert PartsTokens(xs, line) == PartTokens(xs[0], line) + ([CommaToken(line)] + PartsTokens(xs[1..], line));
    }
  }

  /** A printed instruction: its name and its operands. */
  function NameOf(i: Instruction): string {
    if i.op == ADD && i.rd == 0 && i.rs == 0 && i.rt == 0 then "nop" else Mnemonic(i.op)
  }

  function PartsOf(i: Instruction): seq<Part> {
    match FormatOf(i.op)
    case FormatR => if NameOf(i) == "nop" then [] else [RegPart(i.rd), RegPart(i.rs), RegPart(i.rt)]
    case FormatI =>
      if IsLoad(i.op) || IsStore(i.op) then [RegPart(i.rd), MemPart(i.imm, i.rs)]
      else [RegPart(i.rd), RegPart(i.rs), NumPart(i.imm)]
    case FormatB => [RegPart(i.rs), RegPart(i.rt), NumPart(i.imm)]
    case FormatJ => if i.op == RET then [] else [NumPart(i.target)]
  }

  function PrintCommand(name: string, xs: seq<Part>): string {
    if |xs| == 0 then name else name + " " + PrintParts(xs)
  }

  /** What the printer can print and the assembler can read back: every used field in range, every
      unused one zero, and no target on `ret`. */
  predicate Printable(i: Instruction) {
    UsedFieldsInRange(i) && UnusedFieldsZero(i) && (i.op == RET ==> i.target == 0)
  }

  lemma PrintTwo(name: string, x: Part, y: Part)
    ensures PrintCommand(name, [x, y]) == name + " " + PrintPart(x) + COMMA + PrintPart(y)
  {
    hide PrintPart;
    assert [x, y][1..] == [y];
    assert PrintParts([y]) == PrintPart(y);
    assert PrintParts([x, y]) == PrintPart(x) + COMMA + PrintPart(y);
    assert name + " " + (PrintPart(x) + COMMA + PrintPart(y)) == name + " " + PrintPart(x) + COMMA + PrintPart(y);
  }

  lemma PrintThree(name: string, x: Part, y: Part, z: Part)
    ensures PrintCommand(name, [x, y, z]) == name + " " + PrintPart(x) + COMMA + PrintPart(y) + COMMA + PrintPart(z)
  {
    hide PrintPart;
    var a, b, c := PrintPart(x), PrintPart(y), PrintPart(z);
    assert [x, y, z][1..] == [y, z] && [y, z][1..] == [z];
    assert PrintParts([y, z]) == b + COMMA + c;
    assert name + " " + (a + COMMA + (b + COMMA + c)) == name + " " + a + COMMA + b + COMMA + c;
  }

  lemma DisassembleIsCommand(i: Instruction)
    ensures Disassemble(i) == PrintCommand(NameOf(i), PartsOf(i))
  {
    hide PrintReg, PrintInt, PrintCommand, Mnemonic;
    match FormatOf(i.op)
    case FormatR =>
      if i.op == ADD && i.rd == 0 && i.rs == 0 && i.rt == 0 {
        PrintNone(NameOf(i));
      } else {
        MnemonicNamesOpcode(i.op);
        PrintThree(NameOf(i), RegPart(i.rd), RegPart(i.rs), RegPart(i.rt));
      }
    case FormatI =>
      if IsLoad(i.op) || IsStore(i.op) {
        PrintTwo(NameOf(i), RegPart(i.rd), MemPart(i.imm, i.rs));
        PrintMem(NameOf(i) + " " + PrintReg(i.rd) + COMMA, i.imm, i.rs);
      } else {
        PrintThree(NameOf(i), RegPart(i.rd), RegPart(i.rs), NumPart(i.imm));
      }
    case FormatB =>
      PrintThree(NameOf(i), RegPart(i.rs), RegPart(i.rt), NumPart(i.imm));
    case FormatJ =>
      if i.op == RET { PrintNone(NameOf(i)); RetIsRet(); } else { PrintSingle(NameOf(i), NumPart(i.target)); }
  }

  lemma RetIsRet()
    ensures Mnemonic(RET) == "ret"
  {
  }

  lemma PrintNone(name: string)
    ensures PrintCommand(name, []) == name
  {
  }

  lemma PrintSingle(name: string, x: Part)
    ensures PrintCommand(name, [x]) == name + " " + PrintPart(x)
  {
    hide PrintPart;
  }

  lemma PrintMem(head: string, d: int, b: UInt8)
    ensures head + PrintPart(MemPart(d, b)) == head + PrintInt(d) + "(" + PrintReg(b) + ")"
  {
    hide PrintInt, PrintReg;
  }

  function InstTokens(i: Instruction, line: nat): seq<Token> {
    [NameToken(NameOf(i), line)] + PartsTokens(PartsOf(i), line)
  }

  lemma NameIsWord(i: Instruction)
    ensures IsWord(NameOf(i)) && RegisterIndex(NameOf(i)) == None
  {
    hide Mnemonic, DigitsValue;
    MnemonicIsWord(i.op);
  }

  lemma PartsLegal(i: Instruction)
    requires Printable(i)
    ensures forall x :: x in PartsOf(i) ==> PartLegal(x)
  {
    hide Mnemonic;
  }

  /** A printed instruction lexes to its tokens, whatever line end or end of text follows. */
  lemma LexInstruction(i: Instruction, rest: string, line: nat)
    requires Printable(i) && Apart(rest)
    ensures Lex(Disassemble(i) + rest, line) == PrependAll(InstTokens(i, line), Lex(rest, line))
  {
    hide Lex, Disassemble, NameOf, PartsOf, PrependAll, Prepend, PrintParts, PartsTokens, IsWord, RegisterIndex,
      Printable;
    var name, xs := NameOf(i), PartsOf(i);
    var r := Lex(rest, line);
    DisassembleIsCommand(i);
    NameIsWord(i);
    PartsLegal(i);
    PrependAllIs(NameToken(name, line), PartsTokens(xs, line), r);
    if |xs| == 0 {
      NoParts(line);
      LexName(name, rest, line);
      PrependIsAll(NameToken(name, line), r);
      assert xs == [] && [NameToken(name, line)] + [] == [NameToken(name, line)];
    } else {
      var tail := PrintParts(xs) + rest;
      assert Disassemble(i) + rest == name + (" " + tail);
      LexParts(xs, rest, line);
      LexSpace(tail, line);
      LexName(name, " " + tail, line);
    }
  }

  lemma NoParts(line: nat)
    ensures PartsTokens([], line) == []
  {
  }

  // ---- Parsing it back -----------------------------------------------------------------------------

  function Operands(xs: seq<Part>): (ops: seq<Operand>)
    ensures |ops| == |xs|
  {
    if |xs| == 0 then [] else [PartOperand(xs[0])] + Operands(xs[1..])
  }

  /** `ts` stands in the stream at `pos`. */
  predicate StandsAt(toks: seq<Token>, pos: nat, ts: seq<Token>) {
    pos + |ts| <= |toks| && toks[pos..pos + |ts|] == ts
  }

  lemma ParsePart(toks: seq<Token>, pos: nat, x: Part, line: nat)
    requires Terminated(toks) && PartLegal(x) && StandsAt(toks, pos, PartTokens(x, line))
    requires pos + |PartTokens(x, line)| < |toks| && !At(toks, pos + |PartTokens(x, line)|, LParen)
    ensures OperandAt(toks, pos) == Success((PartOperand(x), pos + |PartTokens(x, line)|))
  {
    hide PrintInt, PrintReg;
    var ts := PartTokens(x, line);
    assert forall k :: 0 <= k < |ts| ==> toks[pos + k] == ts[k] by {
      forall k | 0 <= k < |ts|
        ensures toks[pos + k] == ts[k]
      {
        assert toks[pos..pos + |ts|][k] == toks[pos + k];
      }
    }
    assert toks[pos] == ts[0];
    if x.MemPart? { assert toks[pos + 1] == ts[1] && toks[pos + 2] == ts[2] && toks[pos + 3] == ts[3]; }
  }

  lemma StandsSplit(toks: seq<Token>, pos: nat, a: seq<Token>, b: seq<Token>)
    requires StandsAt(toks, pos, a + b)
    ensures StandsAt(toks, pos, a) && StandsAt(toks, pos + |a|, b)
  {
    var s := toks[pos..pos + |a + b|];
    assert s[..|a|] == a && s[|a|..] == b;
    assert toks[pos..pos + |a|] == s[..|a|];
    assert toks[pos + |a|..pos + |a| + |b|] == s[|a|..];
  }

  lemma {:induction false} ParseParts(toks: seq<Token>, pos: nat, xs: seq<Part>, line: nat)
    requires Terminated(toks) && |xs| > 0 && (forall x :: x in xs ==> PartLegal(x))
    requires StandsAt(toks, pos, PartsTokens(xs, line)) && AtLineEnd(toks, pos + |PartsTokens(xs, line)|)
    requires pos < |toks|
    ensures OperandsAt(toks, pos) == Success((Operands(xs), pos + |PartsTokens(xs, line)|))
    decreases |xs|
  {
    hide OperandAt, PartTokens, PartOperand, StandsAt, PartLegal, Terminated;
    if |xs| == 1 {
      ParsePart(toks, pos, xs[0], line);
      assert Operands(xs) == [PartOperand(xs[0])];
    } else {
      var first, comma, others := PartTokens(xs[0], line), [CommaToken(line)], PartsTokens(xs[1..], line);
      assert PartsTokens(xs, line) == first + (comma + others);
      StandsSplit(toks, pos, first, comma + others);
      StandsSplit(toks, pos + |first|, comma, others);
      CommaStands(toks, pos + |first|, line);
      ParsePart(toks, pos, xs[0], line);
      SomeTokens(xs[1..], line);
      ParseParts(toks, pos + |first| + 1, xs[1..], line);
    }
  }

  lemma CommaStands(toks: seq<Token>, pos: nat, line: nat)
    requires StandsAt(toks, pos, [CommaToken(line)])
    ensures At(toks, pos, Comma)
  {
    assert toks[pos..pos + 1][0] == toks[pos];
  }

  lemma SomeTokens(xs: seq<Part>, line: nat)
    requires |xs| > 0
    ensures |PartsTokens(xs, line)| > 0
  {
  }

  function CommandOf(i: Instruction, line: nat): Statement {
    Command(NameOf(i), Operands(PartsOf(i)), line)
  }

  lemma NameIsLower(i: Instruction)
    ensures ToLower(NameOf(i)) == NameOf(i)
  {
    hide Mnemonic;
    MnemonicIsLower(i.op);
  }

  lemma ParseInstruction(toks: seq<Token>, pos: nat, i: Instruction, line: nat)
    requires Terminated(toks) && Printable(i) && pos < |toks|
    requires StandsAt(toks, pos, InstTokens(i, line)) && AtLineEnd(toks, pos + |InstTokens(i, line)|)
    ensures StatementAt(toks, pos) == Success((CommandOf(i, line), pos + |InstTokens(i, line)|))
  {
    hide NameOf, PartsOf, Operands, PartsTokens, StandsAt, ToLower, Printable, OperandsAt;
    var name, xs := NameOf(i), PartsOf(i);
    NameIsLower(i);
    PartsLegal(i);
    StandsSplit(toks, pos, [NameToken(name, line)], PartsTokens(xs, line));
    NameStands(toks, pos, name, line);
    if |xs| == 0 {
      NoParts(line);
      assert xs == [];
      NoOperands();
    } else {
      SomeTokens(xs, line);
      FirstToken(toks, pos + 1, xs, line);
      ParseParts(toks, pos + 1, xs, line);
    }
  }

  lemma NameStands(toks: seq<Token>, pos: nat, name: string, line: nat)
    requires StandsAt(toks, pos, [NameToken(name, line)])
    ensures pos < |toks| && toks[pos] == NameToken(name, line)
  {
    assert toks[pos..pos + 1][0] == toks[pos];
  }

  lemma NoOperands()
    ensures Operands([]) == []
  {
  }

  /** An operand list begins with a register or a number. */
  lemma FirstToken(toks: seq<Token>, pos: nat, xs: seq<Part>, line: nat)
    requires |xs| > 0 && StandsAt(toks, pos, PartsTokens(xs, line))
    ensures At(toks, pos, Register) || At(toks, pos, Number)
  {
    hide PrintInt, PrintReg;
    var ts := PartsTokens(xs, line);
    assert ts[0] == PartTokens(xs[0], line)[0];
    assert toks[pos..pos + |ts|][0] == toks[pos];
  }
}

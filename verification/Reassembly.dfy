/** A program's listing, lexed, parsed and assembled again. */
module Reassembly {
  import opened Words
  import opened Isa
  import opened Results
  import opened Encoding
  import opened Programs
  import opened Disassembly
  import opened Syntax
  import opened Lexer
  import opened Parser
  import opened FrontEnd
  import opened Assembler
  import opened TwoPass
  import opened RoundTrip

  /** One printed instruction per line. */
  function Text(insts: seq<Instruction>): string {
    if |insts| == 0 then ""
    else if |insts| == 1 then Disassemble(insts[0])
    else Disassemble(insts[0]) + "\n" + Text(insts[1..])
  }

  predicate AllPrintable(insts: seq<Instruction>) {
    forall k :: 0 <= k < |insts| ==> Printable(insts[k])
  }

  function NewlineToken(line: nat): Token { Token(Newline, "\\n", 0, line) }

  function EndToken(line: nat): Token { Token(End, "", 0, line) }

  function TextTokens(insts: seq<Instruction>, line: nat): seq<Token> {
    if |insts| == 0 then [EndToken(line)]
    else if |insts| == 1 then InstTokens(insts[0], line) + [EndToken(line)]
    else InstTokens(insts[0], line) + [NewlineToken(line)] + TextTokens(insts[1..], line + 1)
  }

  // ---- Lexing the listing ------------------------------------------------------------------

  lemma LexNothing(line: nat)
    ensures Lex("", line) == Success([EndToken(line)])
  {
  }

  lemma PrependAllTo(ts: seq<Token>, us: seq<Token>)
    ensures PrependAll(ts, Success(us)) == Success(ts + us)
  {
  }

  lemma PrependTo(t: Token, us: seq<Token>)
    ensures Prepend(t, Success(us)) == Success([t] + us)
  {
  }

  lemma {:induction false} LexText(insts: seq<Instruction>, line: nat)
    requires AllPrintable(insts)
    ensures Lex(Text(insts), line) == Success(TextTokens(insts, line))
    decreases |insts|
  {
    hide Lex, Disassemble, InstTokens, PrependAll, Prepend, Printable;
    LexNothing(line);
    if |insts| == 1 {
      assert Text(insts) == Disassemble(insts[0]) + "";
      LexInstruction(insts[0], "", line);
      PrependAllTo(InstTokens(insts[0], line), [EndToken(line)]);
    } else if |insts| > 1 {
      var tail, tokens := Text(insts[1..]), TextTokens(insts[1..], line + 1);
      LexText(insts[1..], line + 1);
      LexLineEnd(tail, line);
      PrependTo(NewlineToken(line), tokens);
      assert Text(insts) == Disassemble(insts[0]) + ("\n" + tail);
      LexInstruction(insts[0], "\n" + tail, line);
      PrependAllTo(InstTokens(insts[0], line), [NewlineToken(line)] + tokens);
      assert TextTokens(insts, line) == InstTokens(insts[0], line) + ([NewlineToken(line)] + tokens);
    }
  }

  // ---- Parsing it --------------------------------------------------------------------------

  function Commands(insts: seq<Instruction>, line: nat): (stmts: seq<Statement>)
    ensures |stmts| == |insts|
    ensures forall k :: 0 <= k < |insts| ==> stmts[k] == CommandOf(insts[k], line + k)
  {
    seq(|insts|, k requires 0 <= k < |insts| => CommandOf(insts[k], line + k))
  }

  lemma TokenStands(toks: seq<Token>, pos: nat, t: Token, ts: seq<Token>)
    requires StandsAt(toks, pos, [t] + ts)
    ensures pos < |toks| && toks[pos] == t
  {
    assert toks[pos..pos + |[t] + ts|][0] == toks[pos];
  }

  lemma StandsGrouped(toks: seq<Token>, pos: nat, a: seq<Token>, b: seq<Token>, c: seq<Token>)
    requires StandsAt(toks, pos, a + b + c)
    ensures StandsAt(toks, pos, a) && StandsAt(toks, pos + |a|, b + c) && StandsAt(toks, pos + |a| + |b|, c)
  {
    assert a + b + c == a + (b + c);
    StandsSplit(toks, pos, a, b + c);
    StandsSplit(toks, pos + |a|, b, c);
  }

  /** A statement at `pos`, with a line end behind it, comes first. */
  lemma StatementFirst(toks: seq<Token>, pos: nat, s: Statement, next: nat)
    requires Terminated(toks) && pos < |toks| && toks[pos].kind == Identifier
    requires StatementAt(toks, pos) == Success((s, next)) && next < |toks|
    ensures StatementsFrom(toks, pos) == Joined([s], StatementsFrom(toks, next))
  {
    hide StatementAt;
  }

  lemma InstTokensBegin(i: Instruction, line: nat)
    ensures InstTokens(i, line) == [NameToken(NameOf(i), line)] + InstTokens(i, line)[1..]
  {
    hide NameOf, PartsTokens, PartsOf;
  }

  lemma {:induction false} ParseText(toks: seq<Token>, pos: nat, insts: seq<Instruction>, line: nat)
    requires Terminated(toks) && AllPrintable(insts) && StandsAt(toks, pos, TextTokens(insts, line))
    requires pos < |toks|
    ensures StatementsFrom(toks, pos) == Success(Commands(insts, line))
    decreases |insts|
  {
    hide StatementAt, InstTokens, StandsAt, Printable, CommandOf, StatementsFrom, Terminated;
    if |insts| == 0 {
      assert TextTokens(insts, line) == [EndToken(line)] + [];
      TokenStands(toks, pos, EndToken(line), []);
      EndParses(toks, pos);
      assert Commands(insts, line) == [];
    } else {
      var i, ts := insts[0], InstTokens(insts[0], line);
      var next := pos + |ts|;
      if |insts| == 1 {
        StandsSplit(toks, pos, ts, [EndToken(line)]);
        assert [EndToken(line)] == [EndToken(line)] + [];
        TokenStands(toks, next, EndToken(line), []);
        EndParses(toks, next);
      } else {
        StandsGrouped(toks, pos, ts, [NewlineToken(line)], TextTokens(insts[1..], line + 1));
        TokenStands(toks, next, NewlineToken(line), TextTokens(insts[1..], line + 1));
        TextTokensSome(insts[1..], line + 1);
        StandsInside(toks, next + 1, TextTokens(insts[1..], line + 1));
        ParseText(toks, next + 1, insts[1..], line + 1);
        NewlineParses(toks, next);
      }
      InstTokensBegin(i, line);
      TokenStands(toks, pos, NameToken(NameOf(i), line), ts[1..]);
      ParseInstruction(toks, pos, i, line);
      StatementFirst(toks, pos, CommandOf(i, line), next);
      assert Commands(insts, line) == [CommandOf(i, line)] + Commands(insts[1..], line + 1);
      JoinedOne(CommandOf(i, line), Commands(insts[1..], line + 1));
    }
  }

  lemma JoinedOne(s: Statement, rest: seq<Statement>)
    ensures Joined([s], Success(rest)) == Success([s] + rest)
  {
  }

  lemma EndParses(toks: seq<Token>, pos: nat)
    requires Terminated(toks) && At(toks, pos, End)
    ensures StatementsFrom(toks, pos) == Success([])
  {
    hide StatementAt;
  }

  lemma NewlineParses(toks: seq<Token>, pos: nat)
    requires Terminated(toks) && At(toks, pos, Newline) && pos + 1 < |toks|
    ensures StatementsFrom(toks, pos) == StatementsFrom(toks, pos + 1)
  {
    hide StatementAt;
  }

  lemma TextTokensSome(insts: seq<Instruction>, line: nat)
    ensures |TextTokens(insts, line)| > 0
  {
    hide InstTokens;
  }

  lemma StandsInside(toks: seq<Token>, pos: nat, ts: seq<Token>)
    requires StandsAt(toks, pos, ts) && |ts| > 0
    ensures pos < |toks|
  {
  }

  // ---- Assembling it -----------------------------------------------------------------------

  lemma OperandsOne(x: Part)
    ensures Operands([x]) == [PartOperand(x)]
  {
    hide PartOperand;
  }

  lemma OperandsTwo(x: Part, y: Part)
    ensures Operands([x, y]) == [PartOperand(x), PartOperand(y)]
  {
    hide PartOperand;
    OperandsOne(y);
    assert [x, y][1..] == [y];
  }

  lemma OperandsThree(x: Part, y: Part, z: Part)
    ensures Operands([x, y, z]) == [PartOperand(x), PartOperand(y), PartOperand(z)]
  {
    hide PartOperand;
    OperandsTwo(y, z);
    assert [x, y, z][1..] == [y, z];
  }

  /** The translator rebuilds a printed instruction, at any address and under any symbols. */
  lemma TranslatePrinted(symbols: Symbols, i: Instruction, address: UInt32)
    requires Printable(i)
    ensures Translate(symbols, NameOf(i), Operands(PartsOf(i)), address) == Success(i)
  {
    hide Mnemonic, LookupOpcode, Operands;
    MnemonicNamesOpcode(i.op);
    match FormatOf(i.op)
    case FormatR => OperandsThree(RegPart(i.rd), RegPart(i.rs), RegPart(i.rt));
    case FormatI =>
      OperandsTwo(RegPart(i.rd), MemPart(i.imm, i.rs));
      OperandsThree(RegPart(i.rd), RegPart(i.rs), NumPart(i.imm));
    case FormatB => OperandsThree(RegPart(i.rs), RegPart(i.rt), NumPart(i.imm));
    case FormatJ =>
      NoOperands();
      OperandsOne(NumPart(i.target));
  }

  lemma {:induction false} NoSymbols(insts: seq<Instruction>, line: nat, n: nat)
    requires n <= |insts|
    ensures Collect(Commands(insts, line), n) == Success(map[])
  {
    if n == 0 {
    } else {
      NoSymbols(insts, line, n - 1);
    }
  }

  /** The image of a list of instructions. */
  ghost predicate ImageOfList(p: Program, insts: seq<Instruction>, line: nat, n: nat)
    requires n <= |insts|
  {
    && p.instructions == insts[..n] && |p.words| == |p.sourceLines| == n && p.symbols == map[]
    && forall k :: 0 <= k < n ==> Encode(insts[k]) == Success(p.words[k]) && p.sourceLines[k] == line + k
  }

  lemma {:induction false} EmitText(insts: seq<Instruction>, line: nat, n: nat)
    requires n <= |insts| && AllPrintable(insts)
    ensures Emit(Commands(insts, line), map[], n).Success?
    ensures ImageOfList(Emit(Commands(insts, line), map[], n).value, insts, line, n)
  {
    hide Translate, Encode, Printable, NameOf, Operands, PartsOf, AddressAfter;
    if n == 0 {
    } else {
      EmitText(insts, line, n - 1);
      var i := insts[n - 1];
      TranslatePrinted(map[], i, AddressAfter(Commands(insts, line), n - 1));
      PrintableEncodes(i);
      assert insts[..n] == insts[..n - 1] + [i];
    }
  }

  lemma PrintableEncodes(i: Instruction)
    requires Printable(i)
    ensures Encode(i).Success?
  {
    hide Encode;
    EncodeFailsExactly(i);
  }

  /** A source text assembles to these instructions and their words, one per source line. */
  ghost predicate Reassembles(src: string, insts: seq<Instruction>) {
    var toks := Lex(src, 1);
    && toks.Success? && Terminated(toks.value)
    && var stmts := StatementsFrom(toks.value, 0);
       && stmts.Success?
       && var r := AssembleStatements(stmts.value);
          r.Success? && ImageOfList(r.value, insts, 1, |insts|)
  }

  /** The tokens of a listing decide. */
  lemma TokensReassemble(src: string, insts: seq<Instruction>)
    requires AllPrintable(insts) && Lex(src, 1) == Success(TextTokens(insts, 1))
    ensures Reassembles(src, insts)
  {
    hide Lex, TextTokens, StatementsFrom, ImageOfList, Stream, AllPrintable, Terminated, Emit, Collect, Commands;
    LexedStream(src, 1);
    var toks := TextTokens(insts, 1);
    StreamEnds(toks, NewlinesIn(src));
    WholeStands(toks);
    ParseText(toks, 0, insts, 1);
    NoSymbols(insts, 1, |insts|);
    EmitText(insts, 1, |insts|);
  }

  /** The text round trip: the listing of any list of printable instructions lexes, parses and
      assembles to those instructions and their words, one per source line. */
  lemma TextRoundTrip(insts: seq<Instruction>)
    requires AllPrintable(insts)
    ensures Reassembles(Text(insts), insts)
  {
    hide Lex, Text, TextTokens, Reassembles;
    LexText(insts, 1);
    TokensReassemble(Text(insts), insts);
  }

  lemma StreamEnds(toks: seq<Token>, newlines: nat)
    requires Stream(toks, 1, newlines)
    ensures Terminated(toks) && |toks| > 0
  {
  }

  lemma WholeStands(toks: seq<Token>)
    ensures StandsAt(toks, 0, toks)
  {
    assert toks[0..0 + |toks|] == toks;
  }

  /** Everything the assembler emits can be printed. */
  lemma TranslatedPrintable(symbols: Symbols, s: Statement, address: UInt32)
    requires s.Command? && Assembled(symbols, s, address).Success?
    ensures Printable(Assembled(symbols, s, address).value.0)
  {
    hide Encode, Translate;
    var i := Assembled(symbols, s, address).value.0;
    TranslatedFieldsZero(symbols, s.name, s.operands, address);
    EncodeFailsExactly(i);
    TranslatedRet(symbols, s.name, s.operands, address);
  }

  lemma TranslatedRet(symbols: Symbols, name: string, ops: seq<Operand>, address: UInt32)
    requires Translate(symbols, name, ops, address).Success?
    ensures Translate(symbols, name, ops, address).value.op == RET ==>
      Translate(symbols, name, ops, address).value.target == 0
  {
    hide BranchOffset;
  }

  /** Listing an assembled program and assembling the listing gives back its instructions and its
      words, whatever labels and pseudo-instructions the original used. */
  lemma ListingReassembles(stmts: seq<Statement>)
    requires AssembleStatements(stmts).Success?
    ensures var p := AssembleStatements(stmts).value;
      var toks := Lex(Text(p.instructions), 1);
      && toks.Success? && Terminated(toks.value)
      && var listed := StatementsFrom(toks.value, 0);
      && listed.Success?
      && var r := AssembleStatements(listed.value);
      && r.Success? && r.value.instructions == p.instructions && r.value.words == p.words
  {
    hide Lex, Text, StatementsFrom, AssembleStatements, TableRight, Decode, Encode, Printable, Terminated, Assembled,
      AddressAfter;
    var p := AssembleStatements(stmts).value;
    AssemblyIsFaithful(stmts);
    forall k | 0 <= k < |p.instructions|
      ensures Printable(p.instructions[k]) && Encode(p.instructions[k]) == Success(p.words[k])
    {
      var i := CommandOfWord(stmts, k, |stmts|);
      assert EmittedRight(stmts, p, i);
      TranslatedPrintable(p.symbols, stmts[i], AddressAfter(stmts, i));
      AssembledDecodes(p.symbols, stmts[i], AddressAfter(stmts, i));
    }
    TextRoundTrip(p.instructions);
  }
}

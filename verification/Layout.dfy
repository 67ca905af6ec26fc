/** Blanks and comments do not matter to the assembler. */
module Layout {
  import opened Isa
  import opened Results
  import opened Disassembly
  import opened Lexer
  import opened RoundTrip
  import opened Reassembly

  /** Spaces, tabs and carriage returns. */
  predicate AllBlank(s: string) {
    forall i :: 0 <= i < |s| ==> s[i] == ' ' || s[i] == '\t' || s[i] == '\r'
  }

  predicate OneLine(s: string) {
    forall i :: 0 <= i < |s| ==> s[i] != '\n'
  }

  predicate EndsLine(rest: string) {
    |rest| == 0 || rest[0] == '\n'
  }

  /** A comment reaches to the end of its line, whatever it contains, and leaves no token. */
  lemma LexComment(c: string, rest: string, line: nat)
    requires OneLine(c) && EndsLine(rest)
    ensures Lex(";" + c + rest, line) == Lex(rest, line)
  {
    hide ParseNumber, RegisterIndex, RunLength, NumberLength;
    var s := ";" + c + rest;
    RunOfWord(";" + c, rest, CommentChars);
    assert s[0] == ';' && s[1 + |c|..] == rest;
  }

  lemma {:induction false} LexBlanks(b: string, rest: string, line: nat)
    requires AllBlank(b)
    ensures Lex(b + rest, line) == Lex(rest, line)
  {
    hide ParseNumber, RegisterIndex, RunLength, NumberLength;
    if |b| == 0 {
      assert b + rest == rest;
    } else {
      assert (b + rest)[1..] == b[1..] + rest;
      LexBlanks(b[1..], rest, line);
    }
  }

  /** What stands around an instruction on its line; the comment is empty or begins with a semicolon. */
  datatype Margin = Margin(indent: string, trail: string, comment: string)

  predicate LegalMargin(m: Margin) {
    && AllBlank(m.indent) && AllBlank(m.trail)
    && (|m.comment| == 0 || (m.comment[0] == ';' && OneLine(m.comment)))
  }

  predicate AllLegal(ms: seq<Margin>) {
    forall i :: 0 <= i < |ms| ==> LegalMargin(ms[i])
  }

  function PrintLine(m: Margin, i: Instruction): string {
    m.indent + Disassemble(i) + m.trail + m.comment
  }

  /** A listing with margins. */
  function PaddedText(insts: seq<Instruction>, ms: seq<Margin>): string
    requires |ms| == |insts|
  {
    if |insts| == 0 then ""
    else if |insts| == 1 then PrintLine(ms[0], insts[0])
    else PrintLine(ms[0], insts[0]) + "\n" + PaddedText(insts[1..], ms[1..])
  }

  lemma LexTail(m: Margin, rest: string, line: nat)
    requires LegalMargin(m) && EndsLine(rest)
    ensures Lex(m.trail + m.comment + rest, line) == Lex(rest, line) && Apart(m.trail + m.comment + rest)
  {
    hide Lex, AllBlank, OneLine;
    assert m.trail + m.comment + rest == m.trail + (m.comment + rest);
    LexBlanks(m.trail, m.comment + rest, line);
    TailApart(m, rest);
    if |m.comment| == 0 {
      assert m.comment + rest == rest;
    } else {
      assert m.comment == ";" + m.comment[1..];
      Shorter(m.comment);
      LexComment(m.comment[1..], rest, line);
    }
  }

  lemma Shorter(s: string)
    requires OneLine(s) && |s| > 0
    ensures OneLine(s[1..])
  {
  }

  lemma TailApart(m: Margin, rest: string)
    requires LegalMargin(m) && EndsLine(rest)
    ensures Apart(m.trail + m.comment + rest)
  {
  }

  /** A padded line lexes like the bare instruction. */
  lemma LexPaddedLine(m: Margin, i: Instruction, rest: string, line: nat)
    requires LegalMargin(m) && Printable(i) && EndsLine(rest)
    ensures Lex(PrintLine(m, i) + rest, line) == PrependAll(InstTokens(i, line), Lex(rest, line))
  {
    hide Lex, Disassemble, InstTokens, Printable, PrependAll, AllBlank, OneLine, Apart;
    var tail := m.trail + m.comment + rest;
    assert PrintLine(m, i) + rest == m.indent + (Disassemble(i) + tail);
    LexBlanks(m.indent, Disassemble(i) + tail, line);
    LexTail(m, rest, line);
    LexInstruction(i, tail, line);
  }

  lemma {:induction false} LexPadded(insts: seq<Instruction>, ms: seq<Margin>, line: nat)
    requires AllPrintable(insts) && |ms| == |insts| && AllLegal(ms)
    ensures Lex(PaddedText(insts, ms), line) == Success(TextTokens(insts, line))
    decreases |insts|
  {
    hide Lex, PrintLine, InstTokens, PrependAll, Prepend, Printable, LegalMargin;
    LexNothing(line);
    if |insts| == 0 {
    } else if |insts| == 1 {
      assert PaddedText(insts, ms) == PrintLine(ms[0], insts[0]) + "";
      LexPaddedLine(ms[0], insts[0], "", line);
      PrependAllTo(InstTokens(insts[0], line), [EndToken(line)]);
    } else {
      var tail, tokens := PaddedText(insts[1..], ms[1..]), TextTokens(insts[1..], line + 1);
      LexPadded(insts[1..], ms[1..], line + 1);
      LexLineEnd(tail, line);
      PrependTo(NewlineToken(line), tokens);
      assert PaddedText(insts, ms) == PrintLine(ms[0], insts[0]) + ("\n" + tail);
      LexPaddedLine(ms[0], insts[0], "\n" + tail, line);
      PrependAllTo(InstTokens(insts[0], line), [NewlineToken(line)] + tokens);
      assert TextTokens(insts, line) == InstTokens(insts[0], line) + ([NewlineToken(line)] + tokens);
    }
  }

  /** A listing with any blanks around its instructions and any comment behind each assembles to the
      same instructions and words, on the same lines. */
  lemma PaddedListing(insts: seq<Instruction>, ms: seq<Margin>)
    requires AllPrintable(insts) && |ms| == |insts| && AllLegal(ms)
    ensures Reassembles(PaddedText(insts, ms), insts)
  {
    hide Lex, PaddedText, TextTokens, Reassembles;
    LexPadded(insts, ms, 1);
    TokensReassemble(PaddedText(insts, ms), insts);
  }
}

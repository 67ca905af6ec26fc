/** The statements a token stream spells, and that the parser finds exactly these. */
module Grammar {
  import opened Words
  import opened Isa
  import opened Results
  import opened Syntax
  import opened Lexer
  import opened Parser
  import opened FrontEnd

  // ---- Upper and lower case -----------------------------------------------------------------

  const UPPER_CASE: string := "ABCDEFGHIJKLMNOPQRSTUVWXYZ"
  const LOWER_CASE: string := "abcdefghijklmnopqrstuvwxyz"

  /** `a` is the `k`-th capital and `b` the `k`-th small letter. */
  predicate LetterPair(a: char, b: char, k: nat) {
    k < 26 && a == UPPER_CASE[k] && b == LOWER_CASE[k]
  }

  /** `b` is the lower-case form of `a`. */
  ghost predicate LowerForm(a: char, b: char) {
    (exists k :: LetterPair(a, b, k)) || (b == a && forall k :: 0 <= k < 26 ==> a != UPPER_CASE[k])
  }

  lemma Alphabet(k: nat)
    requires k < 26
    ensures UPPER_CASE[k] as int == 'A' as int + k && LOWER_CASE[k] as int == 'a' as int + k
  {
  }

  lemma LowerFormExactly(a: char, b: char)
    ensures LowerForm(a, b) <==> b == LowerChar(a)
  {
    if 'A' <= a <= 'Z' {
      var k := a as int - 'A' as int;
      Alphabet(k);
      assert LetterPair(a, LowerChar(a), k);
      forall j | LetterPair(a, b, j)
        ensures b == LowerChar(a)
      {
        Alphabet(j);
      }
    } else {
      forall k | 0 <= k < 26
        ensures a != UPPER_CASE[k]
      {
        Alphabet(k);
      }
    }
  }

  /** `name` is `text` in lower case. */
  ghost predicate Lowered(text: string, name: string) {
    |name| == |text| && forall i :: 0 <= i < |text| ==> LowerForm(text[i], name[i])
  }

  lemma LoweredExactly(text: string, name: string)
    ensures Lowered(text, name) <==> name == ToLower(text)
  {
    hide LowerForm, LowerChar;
    forall i | 0 <= i < |text|
      ensures |name| == |text| ==> (LowerForm(text[i], name[i]) <==> name[i] == ToLower(text)[i])
    {
      if |name| == |text| { LowerFormExactly(text[i], name[i]); }
    }
    if Lowered(text, name) {
      forall i | 0 <= i < |text|
        ensures name[i] == ToLower(text)[i]
      {
        assert LowerForm(text[i], name[i]);
      }
    }
  }

  // ---- The grammar ------------------------------------------------------------------------------

  predicate RegisterStands(toks: seq<Token>, pos: nat, r: UInt8) {
    At(toks, pos, Register) && toks[pos].value == r && r < NUM_REGISTERS
  }

  /** A base register in parentheses. */
  predicate BaseStands(toks: seq<Token>, pos: nat, r: UInt8) {
    At(toks, pos, LParen) && RegisterStands(toks, pos + 1, r) && At(toks, pos + 2, RParen)
  }

  /** The tokens from `pos` to `end` spell an operand; a missing displacement is zero. */
  predicate OperandSpelled(toks: seq<Token>, pos: nat, end: nat, o: Operand) {
    match o
    case RegOperand(r) => RegisterStands(toks, pos, r) && end == pos + 1
    case LabelOperand(l) => At(toks, pos, Identifier) && toks[pos].text == l && end == pos + 1
    case ImmOperand(v) => At(toks, pos, Number) && toks[pos].value == v && end == pos + 1
    case MemOperand(d, b) =>
      || (d == 0 && BaseStands(toks, pos, b) && end == pos + 3)
      || (At(toks, pos, Number) && toks[pos].value == d && BaseStands(toks, pos + 1, b) && end == pos + 4)
  }

  /** One or more operands with commas between them. */
  ghost predicate OperandsSpelled(toks: seq<Token>, pos: nat, end: nat, ops: seq<Operand>)
    decreases |ops|
  {
    && |ops| > 0
    && exists mid: nat :: OperandSpelled(toks, pos, mid, ops[0]) &&
         if |ops| == 1 then end == mid else At(toks, mid, Comma) && OperandsSpelled(toks, mid + 1, end, ops[1..])
  }

  /** A label definition, or a mnemonic in either case with its operands and a line end behind them. */
  ghost predicate StatementSpelled(toks: seq<Token>, pos: nat, end: nat, s: Statement) {
    && At(toks, pos, Identifier) && s.line == toks[pos].line
    && match s
       case LabelDef(l, _) => toks[pos].text == l && At(toks, pos + 1, Colon) && end == pos + 2
       case Command(name, ops, _) =>
         && Lowered(toks[pos].text, name) && AtLineEnd(toks, end)
         && (if ops == [] then end == pos + 1 else OperandsSpelled(toks, pos + 1, end, ops))
  }

  /** The tokens from `pos` to `end` spell the statements, with line ends anywhere between them. */
  ghost predicate StatementsSpelled(toks: seq<Token>, pos: nat, end: nat, stmts: seq<Statement>)
    decreases |toks| - pos
  {
    || (end == pos && stmts == [])
    || (At(toks, pos, Newline) && StatementsSpelled(toks, pos + 1, end, stmts))
    || (|stmts| > 0 && pos < |toks| &&
          exists mid: nat :: mid > pos && StatementSpelled(toks, pos, mid, stmts[0]) &&
            StatementsSpelled(toks, mid, end, stmts[1..]))
  }

  // ---- Operands ------------------------------------------------------------------------------------

  lemma BaseExactly(toks: seq<Token>, pos: nat, b: UInt8, end: nat)
    requires Terminated(toks) && At(toks, pos, LParen) && pos + 1 < |toks|
    ensures BaseAt(toks, pos + 1) == Success((b, end)) <==> BaseStands(toks, pos, b) && end == pos + 3
  {
  }

  /** An operand is parsed exactly when it is spelled, and nothing continues it. */
  lemma OperandExactly(toks: seq<Token>, pos: nat, o: Operand, end: nat)
    requires Terminated(toks) && pos < |toks|
    ensures OperandAt(toks, pos) == Success((o, end)) <==>
      OperandSpelled(toks, pos, end, o) && (o.ImmOperand? ==> !At(toks, end, LParen))
  {
  }

  lemma {:induction false} OperandsParse(toks: seq<Token>, pos: nat, end: nat, ops: seq<Operand>)
    requires Terminated(toks) && pos < |toks| && OperandsSpelled(toks, pos, end, ops) && AtLineEnd(toks, end)
    ensures OperandsAt(toks, pos) == Success((ops, end))
    decreases |ops|
  {
    hide OperandAt, OperandSpelled, Terminated;
    if |ops| == 1 {
      OperandExactly(toks, pos, ops[0], end);
      assert ops == [ops[0]];
    } else {
      var mid: nat :| OperandSpelled(toks, pos, mid, ops[0]) && At(toks, mid, Comma) &&
        OperandsSpelled(toks, mid + 1, end, ops[1..]);
      OperandExactly(toks, pos, ops[0], mid);
      CommaNotLast(toks, mid);
      OperandsParse(toks, mid + 1, end, ops[1..]);
      assert ops == [ops[0]] + ops[1..];
    }
  }

  lemma CommaNotLast(toks: seq<Token>, pos: nat)
    requires Terminated(toks) && At(toks, pos, Comma)
    ensures pos + 1 < |toks|
  {
  }

  lemma {:induction false} OperandsSpell(toks: seq<Token>, pos: nat)
    requires Terminated(toks) && pos < |toks| && OperandsAt(toks, pos).Success?
    ensures OperandsSpelled(toks, pos, OperandsAt(toks, pos).value.1, OperandsAt(toks, pos).value.0)
    decreases |toks| - pos
  {
    hide OperandAt, OperandSpelled, Terminated;
    var (o, mid) := OperandAt(toks, pos).value;
    OperandExactly(toks, pos, o, mid);
    if At(toks, mid, Comma) {
      OperandsSpell(toks, mid + 1);
      var (os, end) := OperandsAt(toks, mid + 1).value;
      assert ([o] + os)[1..] == os;
    }
  }

  // ---- Statements ------------------------------------------------------------------------------------

  /** A statement is parsed exactly when it is spelled. */
  lemma StatementExactly(toks: seq<Token>, pos: nat, s: Statement, end: nat)
    requires Terminated(toks) && pos < |toks|
    ensures StatementAt(toks, pos) == Success((s, end)) <==> StatementSpelled(toks, pos, end, s)
  {
    hide OperandsAt, OperandsSpelled, Lowered, ToLower, Terminated;
    if StatementSpelled(toks, pos, end, s) {
      SpelledParses(toks, pos, s, end);
    }
    if StatementAt(toks, pos) == Success((s, end)) {
      ParsedSpells(toks, pos, s, end);
    }
  }

  lemma NotLast(toks: seq<Token>, pos: nat)
    requires Terminated(toks) && At(toks, pos, Identifier)
    ensures pos + 1 < |toks|
  {
  }

  lemma SpelledParses(toks: seq<Token>, pos: nat, s: Statement, end: nat)
    requires Terminated(toks) && pos < |toks| && StatementSpelled(toks, pos, end, s)
    ensures StatementAt(toks, pos) == Success((s, end))
  {
    hide OperandsAt, Lowered, ToLower, Terminated, OperandSpelled;
    NotLast(toks, pos);
    if s.Command? {
      LoweredExactly(toks[pos].text, s.name);
      if s.operands != [] {
        OperandsParse(toks, pos + 1, end, s.operands);
        OperandsHead(toks, pos + 1, end, s.operands);
      }
    }
  }

  lemma OperandsHead(toks: seq<Token>, pos: nat, end: nat, ops: seq<Operand>)
    requires OperandsSpelled(toks, pos, end, ops)
    ensures pos < |toks| && !AtLineEnd(toks, pos) && !At(toks, pos, Colon)
  {
  }

  lemma ParsedSpells(toks: seq<Token>, pos: nat, s: Statement, end: nat)
    requires Terminated(toks) && pos < |toks| && StatementAt(toks, pos) == Success((s, end))
    ensures StatementSpelled(toks, pos, end, s)
  {
    hide OperandsAt, OperandsSpelled, Lowered, ToLower, Terminated;
    NotLast(toks, pos);
    if s.Command? {
      LoweredExactly(toks[pos].text, s.name);
      if !AtLineEnd(toks, pos + 1) {
        OperandsSpell(toks, pos + 1);
        OperandsSome(toks, pos + 1);
      }
    }
  }

  lemma OperandsSome(toks: seq<Token>, pos: nat)
    requires Terminated(toks) && pos < |toks| && OperandsAt(toks, pos).Success?
    ensures OperandsAt(toks, pos).value.0 != []
  {
  }

  // ---- Lines ------------------------------------------------------------------------------------------

  /** Within a line every token has its number. */
  predicate Lined(toks: seq<Token>) {
    forall k :: 0 <= k < |toks| - 1 && toks[k].kind != Newline ==> toks[k + 1].line == toks[k].line
  }

  lemma {:induction false} NewlinesAppend(toks: seq<Token>, t: Token)
    ensures NewlineTokens(toks + [t]) == NewlineTokens(toks) + if t.kind == Newline then 1 else 0
  {
    if |toks| == 0 {
      assert (toks + [t])[1..] == [];
    } else {
      NewlinesAppend(toks[1..], t);
      assert (toks + [t])[1..] == toks[1..] + [t];
    }
  }

  lemma StreamIsLined(toks: seq<Token>, line: nat, newlines: nat)
    requires Stream(toks, line, newlines)
    ensures Lined(toks)
  {
    hide NewlineTokens;
    forall k | 0 <= k < |toks| - 1 && toks[k].kind != Newline
      ensures toks[k + 1].line == toks[k].line
    {
      NewlinesAppend(toks[..k], toks[k]);
      assert toks[..k + 1] == toks[..k] + [toks[k]];
    }
  }

  lemma OperandLine(toks: seq<Token>, pos: nat)
    requires Terminated(toks) && Lined(toks) && pos < |toks|
    ensures
      match OperandAt(toks, pos)
      case Failure(e) => e.line == toks[pos].line
      case Success((_, end)) => toks[end].line == toks[pos].line
  {
  }

  lemma {:induction false} OperandsLine(toks: seq<Token>, pos: nat)
    requires Terminated(toks) && Lined(toks) && pos < |toks|
    ensures
      match OperandsAt(toks, pos)
      case Failure(e) => e.line == toks[pos].line
      case Success((_, end)) => toks[end].line == toks[pos].line
    decreases |toks| - pos
  {
    hide OperandAt, Terminated;
    OperandLine(toks, pos);
    var first := OperandAt(toks, pos);
    if first.Success? && At(toks, first.value.1, Comma) {
      CommaNotLast(toks, first.value.1);
      OperandsLine(toks, first.value.1 + 1);
    }
  }

  /** A statement that does not parse is reported on its own line. */
  lemma StatementLine(toks: seq<Token>, pos: nat)
    requires Terminated(toks) && Lined(toks) && pos < |toks| && StatementAt(toks, pos).Failure?
    ensures StatementAt(toks, pos).error == ParseError(toks[pos].line)
  {
    hide OperandsAt, ToLower, Terminated;
    if toks[pos].kind == Identifier {
      NotLast(toks, pos);
      OperandsLine(toks, pos + 1);
    }
  }

  // ---- Whole streams --------------------------------------------------------------------------------

  /** Parsing goes on behind spelled statements. */
  lemma {:induction false} SpelledThen(toks: seq<Token>, pos: nat, end: nat, stmts: seq<Statement>)
    requires Terminated(toks) && pos < |toks| && end < |toks| && StatementsSpelled(toks, pos, end, stmts)
    ensures StatementsFrom(toks, pos) == Joined(stmts, StatementsFrom(toks, end))
    decreases |toks| - pos
  {
    hide StatementAt, StatementSpelled;
    if end == pos && stmts == [] {
      JoinedNothing(StatementsFrom(toks, end));
    } else if At(toks, pos, Newline) && StatementsSpelled(toks, pos + 1, end, stmts) {
      SpelledThen(toks, pos + 1, end, stmts);
    } else {
      var mid: nat :| mid > pos && StatementSpelled(toks, pos, mid, stmts[0]) &&
        StatementsSpelled(toks, mid, end, stmts[1..]);
      StatementExactly(toks, pos, stmts[0], mid);
      StatementHead(toks, pos, mid, stmts[0]);
      SpelledThen(toks, mid, end, stmts[1..]);
      JoinedUnfolds([], stmts[0], Joined(stmts[1..], StatementsFrom(toks, end)));
      var r := StatementsFrom(toks, end);
      if r.Success? { assert [stmts[0]] + (stmts[1..] + r.value) == stmts + r.value; }
    }
  }

  lemma StatementHead(toks: seq<Token>, pos: nat, end: nat, s: Statement)
    requires StatementSpelled(toks, pos, end, s)
    ensures At(toks, pos, Identifier)
  {
  }

  /** A statement should begin at `pos`, and none is spelled there. */
  ghost predicate Stuck(toks: seq<Token>, pos: nat) {
    && pos < |toks| && toks[pos].kind != End && toks[pos].kind != Newline
    && forall s, end: nat :: !StatementSpelled(toks, pos, end, s)
  }

  lemma StuckFails(toks: seq<Token>, pos: nat)
    requires Terminated(toks) && Lined(toks) && pos < |toks|
    ensures StatementAt(toks, pos).Failure? && toks[pos].kind != End && toks[pos].kind != Newline ==> Stuck(toks, pos)
    ensures Stuck(toks, pos) ==> StatementsFrom(toks, pos) == Failure(ParseError(toks[pos].line))
  {
    hide StatementAt, StatementSpelled, Terminated, Lined;
    var r := StatementAt(toks, pos);
    forall s, end: nat
      ensures StatementAt(toks, pos) == Success((s, end)) <==> StatementSpelled(toks, pos, end, s)
    {
      StatementExactly(toks, pos, s, end);
    }
    if r.Success? {
      assert StatementSpelled(toks, pos, r.value.1, r.value.0);
    } else {
      StatementLine(toks, pos);
    }
  }

  /** Where the parser gets to: the end of the stream, or a place where it is stuck. */
  lemma {:induction false} Reaches(toks: seq<Token>, pos: nat) returns (end: nat, stmts: seq<Statement>)
    requires Terminated(toks) && Lined(toks) && pos < |toks|
    ensures StatementsSpelled(toks, pos, end, stmts) && (end == |toks| - 1 || Stuck(toks, end))
    decreases |toks| - pos
  {
    hide StatementAt, StatementSpelled, Stuck, Lined;
    if At(toks, pos, End) {
      end, stmts := pos, [];
    } else if At(toks, pos, Newline) {
      end, stmts := Reaches(toks, pos + 1);
    } else {
      var r := StatementAt(toks, pos);
      match r
      case Failure(_) =>
        StuckFails(toks, pos);
        end, stmts := pos, [];
      case Success((s, next)) =>
        StatementExactly(toks, pos, s, next);
        var rest;
        end, rest := Reaches(toks, next);
        stmts := [s] + rest;
        assert stmts[1..] == rest;
    }
  }

  lemma EndIsEmpty(toks: seq<Token>)
    requires Terminated(toks)
    ensures StatementsFrom(toks, |toks| - 1) == Success([])
  {
  }

  /** The parser, exactly, on the tokens of any accepted text: it accepts when the whole stream is spelled by
      statements, and then finds these; otherwise some statements are spelled in front of a place where
      none is, and the error names the line of that place. */
  lemma ParsedExactly(src: string)
    requires Lex(src, 1).Success?
    ensures
      var toks := Lex(src, 1).value;
      && Terminated(toks)
      && (forall stmts :: StatementsFrom(toks, 0) == Success(stmts) <==>
            StatementsSpelled(toks, 0, |toks| - 1, stmts))
      && (forall pos: nat, stmts :: StatementsSpelled(toks, 0, pos, stmts) && Stuck(toks, pos) ==>
            StatementsFrom(toks, 0) == Failure(ParseError(toks[pos].line)))
      && (StatementsFrom(toks, 0).Failure? ==>
            exists pos: nat, stmts :: StatementsSpelled(toks, 0, pos, stmts) && Stuck(toks, pos))
  {
    hide Lex, Stream, StatementsFrom, StatementsSpelled, StatementSpelled, Lined;
    LexedStream(src, 1);
    var toks := Lex(src, 1).value;
    StreamTerminated(toks, NewlinesIn(src));
    StreamIsLined(toks, 1, NewlinesIn(src));
    EndIsEmpty(toks);
    forall stmts | StatementsSpelled(toks, 0, |toks| - 1, stmts)
      ensures StatementsFrom(toks, 0) == Success(stmts)
    {
      SpelledThen(toks, 0, |toks| - 1, stmts);
      assert stmts + [] == stmts;
    }
    forall pos: nat, stmts | StatementsSpelled(toks, 0, pos, stmts) && Stuck(toks, pos)
      ensures StatementsFrom(toks, 0) == Failure(ParseError(toks[pos].line))
    {
      SpelledThen(toks, 0, pos, stmts);
      StuckFails(toks, pos);
    }
    var end, stmts := Reaches(toks, 0);
    if end == |toks| - 1 {
      assert StatementsFrom(toks, 0) == Success(stmts);
    } else {
      assert Stuck(toks, end);
    }
  }

  lemma StreamTerminated(toks: seq<Token>, newlines: nat)
    requires Stream(toks, 1, newlines)
    ensures Terminated(toks)
  {
  }
}

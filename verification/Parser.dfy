/** Tokens to statements. */
module Parser {
  import opened Words
  import opened Isa
  import opened Results
  import opened Syntax

  datatype ParseError = ParseError(line: nat)

  /** A token stream with exactly one `End`, in last place. */
  predicate Terminated(toks: seq<Token>) {
    && |toks| > 0 && toks[|toks| - 1].kind == End
    && forall i :: 0 <= i < |toks| - 1 ==> toks[i].kind != End
  }

  function LowerChar(c: char): char {
    if 'A' <= c <= 'Z' then (c as int + 32) as char else c
  }

  function ToLower(s: string): (r: string)
    ensures |r| == |s|
  {
    seq(|s|, i requires 0 <= i < |s| => LowerChar(s[i]))
  }

  // ---- The grammar -----------------------------------------------------------------------

  predicate At(toks: seq<Token>, pos: nat, k: TokenKind) {
    pos < |toks| && toks[pos].kind == k
  }

  predicate AtLineEnd(toks: seq<Token>, pos: nat) {
    At(toks, pos, Newline) || At(toks, pos, End)
  }

  /** `base)` behind an opening parenthesis. */
  function BaseAt(toks: seq<Token>, pos: nat): (r: Result<(UInt8, nat), ParseError>)
    requires Terminated(toks) && pos < |toks|
    ensures r.Success? ==> r.value.0 < NUM_REGISTERS && pos < r.value.1 < |toks|
  {
    if !At(toks, pos, Register) then Failure(ParseError(toks[pos].line))
    else if !At(toks, pos + 1, RParen) then Failure(ParseError(toks[pos + 1].line))
    else if toks[pos].value < 0 || toks[pos].value >= NUM_REGISTERS then Failure(ParseError(toks[pos].line))
    else Success((toks[pos].value, pos + 2))
  }

  predicate RegisterLegal(o: Operand) {
    match o
    case RegOperand(r) => r < NUM_REGISTERS
    case MemOperand(_, b) => b < NUM_REGISTERS
    case _ => true
  }

  /** One operand and the position behind it. Accepted operands name registers below 16. */
  function OperandAt(toks: seq<Token>, pos: nat): (r: Result<(Operand, nat), ParseError>)
    requires Terminated(toks) && pos < |toks|
    ensures r.Success? ==> pos < r.value.1 < |toks| && RegisterLegal(r.value.0)
  {
    var tok := toks[pos];
    match tok.kind
    case Register =>
      if tok.value < 0 || tok.value >= NUM_REGISTERS then Failure(ParseError(tok.line))
      else Success((RegOperand(tok.value), pos + 1))
    case Identifier => Success((LabelOperand(tok.text), pos + 1))
    case LParen =>
      (match BaseAt(toks, pos + 1)
       case Failure(e) => Failure(e)
       case Success((base, next)) => Success((MemOperand(0, base), next)))
    case Number =>
      if At(toks, pos + 1, LParen) then
        match BaseAt(toks, pos + 2)
        case Failure(e) => Failure(e)
        case Success((base, next)) => Success((MemOperand(tok.value, base), next))
      else Success((ImmOperand(tok.value), pos + 1))
    case _ => Failure(ParseError(tok.line))
  }

  /** A comma-separated operand list, and the position behind it. */
  function OperandsAt(toks: seq<Token>, pos: nat): (r: Result<(seq<Operand>, nat), ParseError>)
    requires Terminated(toks) && pos < |toks|
    ensures r.Success? ==> pos < r.value.1 < |toks| && forall o :: o in r.value.0 ==> RegisterLegal(o)
    decreases |toks| - pos
  {
    match OperandAt(toks, pos)
    case Failure(e) => Failure(e)
    case Success((o, next)) =>
      if !At(toks, next, Comma) then Success(([o], next))
      else
        match OperandsAt(toks, next + 1)
        case Failure(e) => Failure(e)
        case Success((os, end)) => Success(([o] + os, end))
  }

  /** The operands of an instruction whose mnemonic ends before `pos`. */
  function OptionalOperandsAt(toks: seq<Token>, pos: nat): (r: Result<(seq<Operand>, nat), ParseError>)
    requires Terminated(toks) && pos < |toks|
    ensures r.Success? ==> pos <= r.value.1 < |toks| && forall o :: o in r.value.0 ==> RegisterLegal(o)
  {
    if AtLineEnd(toks, pos) then Success(([], pos)) else OperandsAt(toks, pos)
  }

  /** The statement whose head identifier is at `pos`, and the position behind it. */
  function StatementAt(toks: seq<Token>, pos: nat): (r: Result<(Statement, nat), ParseError>)
    requires Terminated(toks) && pos < |toks|
    ensures r.Success? ==> pos < r.value.1 < |toks| && StatementLegal(r.value.0)
  {
    var head := toks[pos];
    if head.kind != Identifier then Failure(ParseError(head.line))
    else if At(toks, pos + 1, Colon) then Success((LabelDef(head.text, head.line), pos + 2))
    else
      match OptionalOperandsAt(toks, pos + 1)
      case Failure(e) => Failure(e)
      case Success((ops, next)) =>
        if AtLineEnd(toks, next) then Success((Command(ToLower(head.text), ops, head.line), next))
        else Failure(ParseError(toks[next].line))
  }

  predicate StatementLegal(s: Statement) {
    s.Command? ==> forall o :: o in s.operands ==> RegisterLegal(o)
  }

  /** The statements from `pos` to the end of the stream. */
  function StatementsFrom(toks: seq<Token>, pos: nat): (r: Result<seq<Statement>, ParseError>)
    requires Terminated(toks) && pos < |toks|
    ensures r.Success? ==> forall s :: s in r.value ==> StatementLegal(s)
    decreases |toks| - pos
  {
    if At(toks, pos, End) then Success([])
    else if At(toks, pos, Newline) then StatementsFrom(toks, pos + 1)
    else
      match StatementAt(toks, pos)
      case Failure(e) => Failure(e)
      case Success((s, next)) =>
        match StatementsFrom(toks, next)
        case Failure(e) => Failure(e)
        case Success(rest) => Success([s] + rest)
  }

  // ---- The recursive-descent parser -----------------------------------------------------------

  class Parser {
    const toks: seq<Token>
    var pos: nat

    ghost predicate Valid()
      reads this
    {
      Terminated(toks) && pos < |toks|
    }

    constructor (toks: seq<Token>)
      requires Terminated(toks)
      ensures Valid() && this.toks == toks && pos == 0
    {
      this.toks := toks;
      pos := 0;
    }

    predicate Check(k: TokenKind)
      requires Valid()
      reads this
    {
      toks[pos].kind == k
    }

    /** Moves past a token other than `End`. */
    method Advance() returns (t: Token)
      requires Valid() && !Check(End)
      modifies this
      ensures Valid() && pos == old(pos) + 1 && t == toks[old(pos)]
    {
      t := toks[pos];
      pos := pos + 1;
    }

    method Expect(k: TokenKind) returns (r: Result<Token, ParseError>)
      requires Valid() && k != End
      modifies this
      ensures Valid()
      ensures if At(toks, old(pos), k) then r == Success(toks[old(pos)]) && pos == old(pos) + 1
              else r == Failure(ParseError(toks[old(pos)].line)) && pos == old(pos)
    {
      if !Check(k) {
        return Failure(ParseError(toks[pos].line));
      }
      var t := Advance();
      return Success(t);
    }

    /** `base)` behind an opening parenthesis. */
    method ParseBase() returns (r: Result<UInt8, ParseError>)
      requires Valid()
      modifies this
      ensures Valid()
      ensures BaseAt(toks, old(pos)) == if r.Success? then Success((r.value, pos)) else Failure(r.error)
    {
      var base := Expect(Register);
      if base.Failure? {
        return Failure(base.error);
      }
      var close := Expect(RParen);
      if close.Failure? {
        return Failure(close.error);
      }
      if base.value.value < 0 || base.value.value >= NUM_REGISTERS {
        return Failure(ParseError(base.value.line));
      }
      return Success(base.value.value);
    }

    method ParseOperand() returns (r: Result<Operand, ParseError>)
      requires Valid()
      modifies this
      ensures Valid()
      ensures OperandAt(toks, old(pos)) == if r.Success? then Success((r.value, pos)) else Failure(r.error)
    {
      var tok := toks[pos];
      match tok.kind {
        case Register =>
          var _ := Advance();
          if tok.value < 0 || tok.value >= NUM_REGISTERS {
            return Failure(ParseError(tok.line));
          }
          return Success(RegOperand(tok.value));
        case Identifier =>
          var _ := Advance();
          return Success(LabelOperand(tok.text));
        case LParen =>
          var _ := Advance();
          var base := ParseBase();
          if base.Failure? {
            return Failure(base.error);
          }
          return Success(MemOperand(0, base.value));
        case Number =>
          var _ := Advance();
          if Check(LParen) {
            var _ := Advance();
            var base := ParseBase();
            if base.Failure? {
              return Failure(base.error);
            }
            return Success(MemOperand(tok.value, base.value));
          }
          return Success(ImmOperand(tok.value));
        case _ =>
          return Failure(ParseError(tok.line));
      }
    }

    /** The operand list of an instruction. */
    method ParseOperands() returns (r: Result<seq<Operand>, ParseError>)
      requires Valid()
      modifies this
      ensures Valid()
      ensures OptionalOperandsAt(toks, old(pos)) == if r.Success? then Success((r.value, pos)) else Failure(r.error)
    {
      if Check(Newline) || Check(End) {
        return Success([]);
      }
      ghost var start := pos;
      var operands: seq<Operand> := [];
      var first := ParseOperand();
      if first.Failure? {
        return Failure(first.error);
      }
      operands := [first.value];
      while Check(Comma)
        invariant Valid() && pos > start
        invariant OperandsAt(toks, start) == Continued(operands, toks, pos)
        decreases |toks| - pos
      {
        var _ := Advance();
        ghost var here := pos;
        var next := ParseOperand();
        ContinuedUnfolds(operands, toks, here);
        if next.Failure? {
          return Failure(next.error);
        }
        operands := operands + [next.value];
      }
      return Success(operands);
    }

    method Parse() returns (r: Result<seq<Statement>, ParseError>)
      requires Valid()
      modifies this
      ensures Valid()
      ensures r == StatementsFrom(toks, old(pos))
    {
      ghost var start := pos;
      var stmts: seq<Statement> := [];
      JoinedNothing(StatementsFrom(toks, pos));
      while !Check(End)
        invariant Valid()
        invariant StatementsFrom(toks, start) == Joined(stmts, StatementsFrom(toks, pos))
        decreases |toks| - pos
      {
        if Check(Newline) {
          var _ := Advance();
          continue;
        }
        ghost var here := pos;
        var s := ParseStatement();
        if s.Failure? {
          return Failure(s.error);
        }
        JoinedUnfolds(stmts, s.value, StatementsFrom(toks, pos));
        stmts := stmts + [s.value];
      }
      assert stmts + [] == stmts;
      return Success(stmts);
    }

    /** A label definition, or a mnemonic with its operands up to the end of the line. */
    method ParseStatement() returns (r: Result<Statement, ParseError>)
      requires Valid() && !Check(End)
      modifies this
      ensures Valid()
      ensures StatementAt(toks, old(pos)) == if r.Success? then Success((r.value, pos)) else Failure(r.error)
    {
      var head := Expect(Identifier);
      if head.Failure? {
        return Failure(head.error);
      }
      if Check(Colon) {
        var _ := Advance();
        return Success(LabelDef(head.value.text, head.value.line));
      }
      var operands := ParseOperands();
      if operands.Failure? {
        return Failure(operands.error);
      }
      if !Check(Newline) && !Check(End) {
        return Failure(ParseError(toks[pos].line));
      }
      return Success(Command(ToLower(head.value.text), operands.value, head.value.line));
    }
  }

  /** The operand list that begins with `done` and is at `pos`, behind an operand. */
  ghost function Continued(done: seq<Operand>, toks: seq<Token>, pos: nat): Result<(seq<Operand>, nat), ParseError>
    requires Terminated(toks) && pos < |toks|
  {
    if !At(toks, pos, Comma) then Success((done, pos))
    else
      match OperandsAt(toks, pos + 1)
      case Failure(e) => Failure(e)
      case Success((os, end)) => Success((done + os, end))
  }

  lemma ContinuedUnfolds(done: seq<Operand>, toks: seq<Token>, pos: nat)
    requires Terminated(toks) && 0 < pos < |toks| && At(toks, pos - 1, Comma)
    ensures Continued(done, toks, pos - 1) ==
      match OperandAt(toks, pos)
      case Failure(e) => Failure(e)
      case Success((o, next)) => Continued(done + [o], toks, next)
  {
    hide OperandAt;
    var r := OperandAt(toks, pos);
    if r.Success? && At(toks, r.value.1, Comma) {
      var rest := OperandsAt(toks, r.value.1 + 1);
      if rest.Success? { assert done + [r.value.0] + rest.value.0 == done + ([r.value.0] + rest.value.0); }
    }
  }

  ghost function Joined(done: seq<Statement>, r: Result<seq<Statement>, ParseError>): Result<seq<Statement>,
      ParseError> {
    match r
    case Failure(e) => Failure(e)
    case Success(ss) => Success(done + ss)
  }

  lemma JoinedNothing(r: Result<seq<Statement>, ParseError>)
    ensures Joined([], r) == r
  {
    if r.Success? { assert [] + r.value == r.value; }
  }

  lemma JoinedUnfolds(done: seq<Statement>, s: Statement, r: Result<seq<Statement>, ParseError>)
    ensures r.Success? ==> Joined(done, Success([s] + r.value)) == Joined(done + [s], r)
    ensures r.Failure? ==> Joined(done + [s], r) == Failure(r.error)
  {
    if r.Success? { assert done + [s] + r.value == done + ([s] + r.value); }
  }
}

/** The two-pass assembler. */
module Assembler {
  import opened Words
  import opened Isa
  import opened Results
  import opened Encoding
  import opened Programs
  import opened Syntax

  datatype Fault =
    | UnknownInstruction | OperandCount | ExpectedRegister | ExpectedImmediate | ImmediateTooLarge
    | UndefinedLabel | DuplicateLabel | ExpectedMemory | BadTarget | NegativeTarget | BranchTooFar
    | CannotEncode

  datatype AssembleError = AssembleError(fault: Fault, line: nat)

  type Symbols = map<string, UInt32>

  function LookupOpcode(m: string): Option<Opcode> {
    if m == "add" then Some(ADD) else if m == "sub" then Some(SUB) else if m == "and" then Some(AND)
    else if m == "or" then Some(OR) else if m == "xor" then Some(XOR) else if m == "sll" then Some(SLL)
    else if m == "srl" then Some(SRL) else if m == "slt" then Some(SLT) else if m == "addi" then Some(ADDI)
    else if m == "andi" then Some(ANDI) else if m == "ori" then Some(ORI) else if m == "xori" then Some(XORI)
    else if m == "slti" then Some(SLTI) else if m == "lw" then Some(LW) else if m == "sw" then Some(SW)
    else if m == "beq" then Some(BEQ) else if m == "bne" then Some(BNE) else if m == "blt" then Some(BLT)
    else if m == "j" then Some(J) else if m == "jal" then Some(JAL) else if m == "ret" then Some(RET)
    else if m == "halt" then Some(RET)
    else None
  }

  // ---- Translation of one statement -----------------------------------------------------

  function MakeMov(ops: seq<Operand>): Result<Instruction, Fault> {
    if |ops| != 2 then Failure(OperandCount)
    else if !ops[0].RegOperand? || !ops[1].RegOperand? then Failure(ExpectedRegister)
    else Success(Instruction(ADD, ops[0].reg, ops[1].reg, 0, 0, 0))
  }

  function MakeLi(ops: seq<Operand>): Result<Instruction, Fault> {
    if |ops| != 2 then Failure(OperandCount)
    else if !ops[0].RegOperand? then Failure(ExpectedRegister)
    else if !ops[1].ImmOperand? then Failure(ExpectedImmediate)
    else if !ImmInRange(ops[1].imm) then Failure(ImmediateTooLarge)
    else Success(Instruction(ADDI, ops[0].reg, 0, 0, ops[1].imm, 0))
  }

  function MakeR(op: Opcode, ops: seq<Operand>): Result<Instruction, Fault> {
    if |ops| != 3 then Failure(OperandCount)
    else if !ops[0].RegOperand? || !ops[1].RegOperand? || !ops[2].RegOperand? then Failure(ExpectedRegister)
    else Success(Instruction(op, ops[0].reg, ops[1].reg, ops[2].reg, 0, 0))
  }

  function MakeIAlu(op: Opcode, ops: seq<Operand>): Result<Instruction, Fault> {
    if |ops| != 3 then Failure(OperandCount)
    else if !ops[0].RegOperand? || !ops[1].RegOperand? then Failure(ExpectedRegister)
    else if !ops[2].ImmOperand? then Failure(ExpectedImmediate)
    else if !ImmInRange(ops[2].imm) then Failure(ImmediateTooLarge)
    else Success(Instruction(op, ops[0].reg, ops[1].reg, 0, ops[2].imm, 0))
  }

  function MakeMem(op: Opcode, ops: seq<Operand>): Result<Instruction, Fault> {
    if |ops| != 2 then Failure(OperandCount)
    else if !ops[0].RegOperand? then Failure(ExpectedRegister)
    else if !ops[1].MemOperand? then Failure(ExpectedMemory)
    else if !ImmInRange(ops[1].disp) then Failure(ImmediateTooLarge)
    else Success(Instruction(op, ops[0].reg, ops[1].base, 0, ops[1].disp, 0))
  }

  function BranchOffset(symbols: Symbols, target: Operand, address: UInt32): Result<int, Fault> {
    match target
    case LabelOperand(l) => if l !in symbols then Failure(UndefinedLabel) else Success(symbols[l] - address)
    case ImmOperand(i) => Success(i)
    case _ => Failure(BadTarget)
  }

  function MakeBranch(symbols: Symbols, op: Opcode, ops: seq<Operand>, address: UInt32): Result<Instruction, Fault> {
    if |ops| != 3 then Failure(OperandCount)
    else if !ops[0].RegOperand? || !ops[1].RegOperand? then Failure(ExpectedRegister)
    else
      match BranchOffset(symbols, ops[2], address)
      case Failure(f) => Failure(f)
      case Success(offset) =>
        if !ImmInRange(offset) then Failure(BranchTooFar)
        else Success(Instruction(op, 0, ops[0].reg, ops[1].reg, offset, 0))
  }

  function MakeJump(symbols: Symbols, op: Opcode, ops: seq<Operand>): Result<Instruction, Fault> {
    if op == RET then
      if |ops| != 0 then Failure(OperandCount) else Success(Instruction(op, 0, 0, 0, 0, 0))
    else if |ops| != 1 then Failure(OperandCount)
    else
      match ops[0]
      case LabelOperand(l) =>
        if l !in symbols then Failure(UndefinedLabel) else Success(Instruction(op, 0, 0, 0, 0, symbols[l]))
      case ImmOperand(i) =>
        if i < 0 then Failure(NegativeTarget) else Success(Instruction(op, 0, 0, 0, 0, U32(i)))
      case _ => Failure(BadTarget)
  }

  /** Turns the instruction statement at byte `address` into an instruction. */
  function Translate(symbols: Symbols, name: string, ops: seq<Operand>, address: UInt32): Result<Instruction, Fault> {
    if name == "nop" then Success(Instruction(ADD, 0, 0, 0, 0, 0))
    else if name == "mov" then MakeMov(ops)
    else if name == "li" then MakeLi(ops)
    else
      match LookupOpcode(name)
      case None => Failure(UnknownInstruction)
      case Some(op) =>
        match FormatOf(op)
        case FormatR => MakeR(op, ops)
        case FormatI => if IsLoad(op) || IsStore(op) then MakeMem(op, ops) else MakeIAlu(op, ops)
        case FormatB => MakeBranch(symbols, op, ops, address)
        case FormatJ => MakeJump(symbols, op, ops)
  }

  // ---- The two passes ---------------------------------------------------------------------

  /** The address after the first `n` statements: four bytes per instruction, in 32 bits. */
  function AddressAfter(stmts: seq<Statement>, n: nat): UInt32
    requires n <= |stmts|
  {
    if n == 0 then 0
    else if stmts[n - 1].LabelDef? then AddressAfter(stmts, n - 1)
    else U32(AddressAfter(stmts, n - 1) + INSTRUCTION_BYTES)
  }

  /** The symbol table after the first `n` statements. */
  function Collect(stmts: seq<Statement>, n: nat): Result<Symbols, AssembleError>
    requires n <= |stmts|
  {
    if n == 0 then Success(map[])
    else
      var before, s := Collect(stmts, n - 1), stmts[n - 1];
      if before.Failure? || s.Command? then before
      else if s.name in before.value then Failure(AssembleError(DuplicateLabel, s.line))
      else Success(before.value[s.name := AddressAfter(stmts, n - 1)])
  }

  /** One statement of the second pass: its instruction and its word. */
  function Assembled(symbols: Symbols, s: Statement, address: UInt32): Result<(Instruction, UInt32), AssembleError>
    requires s.Command?
  {
    match Translate(symbols, s.name, s.operands, address)
    case Failure(f) => Failure(AssembleError(f, s.line))
    case Success(i) =>
      match Encode(i)
      case Failure(_) => Failure(AssembleError(CannotEncode, s.line))
      case Success(w) => Success((i, w))
  }

  /** The program image after the first `n` statements of the second pass. */
  function Emit(stmts: seq<Statement>, symbols: Symbols, n: nat): Result<Program, AssembleError>
    requires n <= |stmts|
  {
    if n == 0 then Success(Program([], [], [], symbols))
    else
      var before, s := Emit(stmts, symbols, n - 1), stmts[n - 1];
      if before.Failure? || s.LabelDef? then before
      else
        match Assembled(symbols, s, AddressAfter(stmts, n - 1))
        case Failure(e) => Failure(e)
        case Success((i, w)) =>
          Success(Program(before.value.words + [w], before.value.instructions + [i],
                          before.value.sourceLines + [s.line], symbols))
  }

  function AssembleStatements(stmts: seq<Statement>): Result<Program, AssembleError> {
    match Collect(stmts, |stmts|)
    case Failure(e) => Failure(e)
    case Success(symbols) => Emit(stmts, symbols, |stmts|)
  }

  lemma {:induction false} CollectFailureStays(stmts: seq<Statement>, n: nat, m: nat)
    requires n <= m <= |stmts| && Collect(stmts, n).Failure?
    ensures Collect(stmts, m) == Collect(stmts, n)
    decreases m
  {
    if n == m {
    } else {
      CollectFailureStays(stmts, n, m - 1);
    }
  }

  lemma {:induction false} EmitFailureStays(stmts: seq<Statement>, symbols: Symbols, n: nat, m: nat)
    requires n <= m <= |stmts| && Emit(stmts, symbols, n).Failure?
    ensures Emit(stmts, symbols, m) == Emit(stmts, symbols, n)
    decreases m
  {
    hide Assembled;
    if n == m {
    } else {
      EmitFailureStays(stmts, symbols, n, m - 1);
    }
  }

  /** Pass 1 assigns addresses and builds the symbol table; pass 2 translates and encodes. */
  method Assemble(stmts: seq<Statement>) returns (r: Result<Program, AssembleError>)
    ensures r == AssembleStatements(stmts)
  {
    hide Assembled;
    var symbols: Symbols := map[];
    var address: UInt32 := 0;
    for n := 0 to |stmts|
      invariant Collect(stmts, n) == Success(symbols) && address == AddressAfter(stmts, n)
    {
      var s := stmts[n];
      if s.LabelDef? {
        if s.name in symbols {
          CollectFailureStays(stmts, n + 1, |stmts|);
          return Failure(AssembleError(DuplicateLabel, s.line));
        }
        symbols := symbols[s.name := address];
      } else {
        address := U32(address + INSTRUCTION_BYTES);
      }
    }

    var words: seq<UInt32>, instructions: seq<Instruction>, sourceLines: seq<int> := [], [], [];
    address := 0;
    for n := 0 to |stmts|
      invariant Emit(stmts, symbols, n) == Success(Program(words, instructions, sourceLines, symbols))
      invariant address == AddressAfter(stmts, n)
    {
      var s := stmts[n];
      if s.Command? {
        var emitted := Assembled(symbols, s, address);
        if emitted.Failure? {
          EmitFailureStays(stmts, symbols, n + 1, |stmts|);
          return Failure(emitted.error);
        }
        words := words + [emitted.value.1];
        instructions := instructions + [emitted.value.0];
        sourceLines := sourceLines + [s.line];
        address := U32(address + INSTRUCTION_BYTES);
      }
    }
    return Success(Program(words, instructions, sourceLines, symbols));
  }
}

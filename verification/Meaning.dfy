/** What assembly source means, and that assembling preserves it. */
module Meaning {
  import opened Words
  import opened Isa
  import opened Results
  import opened Encoding
  import opened Alu
  import opened Programs
  import opened Storage
  import opened Interpreting
  import opened Tracing
  import opened Syntax
  import opened Assembler
  import opened TwoPass

  // ---- A symbolic interpreter of statements ------------------------------------------------

  /** `pos` is a statement position; labels are positions too. `skew` is how many bytes past its
      statement control stands: a numeric target need not be aligned, nor inside the code. */
  datatype SourceState = SourceState(regs: Registers, mem: Memory, pos: nat, skew: nat, retired: nat)

  datatype SourceProgress =
    | Going(s: SourceState)
    | Stopped(s: SourceState)    // ret or halt
    | Trapped(s: SourceState)    // illegal data access
    | OffTheEnd(s: SourceState)
    | Meaningless(s: SourceState)

  /** The first instruction statement at or after `pos`. */
  function SkipLabels(stmts: seq<Statement>, pos: nat): (r: nat)
    requires pos <= |stmts|
    ensures pos <= r <= |stmts| && (r < |stmts| ==> stmts[r].Command?)
    decreases |stmts| - pos
  {
    if pos < |stmts| && stmts[pos].LabelDef? then SkipLabels(stmts, pos + 1) else pos
  }

  /** The position of the definition of `target`, searching from `i`; the end if there is none. */
  function FindLabel(stmts: seq<Statement>, target: string, i: nat): (r: nat)
    requires i <= |stmts|
    ensures i <= r <= |stmts|
    ensures r < |stmts| ==> stmts[r].LabelDef? && stmts[r].name == target
    ensures forall j :: i <= j < r ==> !(stmts[j].LabelDef? && stmts[j].name == target)
    decreases |stmts| - i
  {
    if i == |stmts| || (stmts[i].LabelDef? && stmts[i].name == target) then i else FindLabel(stmts, target, i + 1)
  }

  /** The `k`-th instruction statement from position `i` on; the end if there are fewer. */
  function Locate(stmts: seq<Statement>, k: nat, i: nat): (r: nat)
    requires i <= |stmts|
    ensures i <= r <= |stmts|
    decreases |stmts| - i
  {
    if i == |stmts| then i
    else if stmts[i].LabelDef? then Locate(stmts, k, i + 1)
    else if k == 0 then i
    else Locate(stmts, k - 1, i + 1)
  }

  /** The byte address at which control stands. */
  function Here(stmts: seq<Statement>, s: SourceState): nat
    requires s.pos <= |stmts|
  {
    INSTRUCTION_BYTES * CommandsBefore(stmts, s.pos) + s.skew
  }

  predicate IsReg(ops: seq<Operand>, i: nat) {
    i < |ops| && ops[i].RegOperand? && ops[i].reg < NUM_REGISTERS
  }

  predicate IsLabel(stmts: seq<Statement>, ops: seq<Operand>, i: nat) {
    i < |ops| && ops[i].LabelOperand? && FindLabel(stmts, ops[i].name, 0) < |stmts|
  }

  predicate IsImm(ops: seq<Operand>, i: nat) {
    i < |ops| && ops[i].ImmOperand? && ImmInRange(ops[i].imm)
  }

  predicate IsMem(ops: seq<Operand>, i: nat) {
    i < |ops| && ops[i].MemOperand? && ops[i].base < NUM_REGISTERS && ImmInRange(ops[i].disp)
  }

  function Assign(s: SourceState, rd: UInt8, v: Int32): SourceProgress
    requires rd < NUM_REGISTERS
  {
    Going(s.(regs := WriteReg(s.regs, rd, v), pos := s.pos + 1))
  }

  /** To byte address `addr`: into the statement that covers it, or past the end. */
  function GoToAddress(stmts: seq<Statement>, s: SourceState, addr: UInt32): SourceProgress {
    var k, count := addr / INSTRUCTION_BYTES, CommandsBefore(stmts, |stmts|);
    if k < count then Going(s.(pos := Locate(stmts, k, 0), skew := addr % INSTRUCTION_BYTES))
    else Going(s.(pos := |stmts|, skew := addr - INSTRUCTION_BYTES * count))
  }

  /** A branch is relative: to a label it keeps the skew, to a number it adds a byte offset. */
  function Branch(stmts: seq<Statement>, s: SourceState, target: Operand): SourceProgress
    requires s.pos <= |stmts|
  {
    match target
    case LabelOperand(l) => Going(s.(pos := FindLabel(stmts, l, 0)))
    case ImmOperand(offset) => GoToAddress(stmts, s, U32(Here(stmts, s) + offset))
    case _ => Meaningless(s)
  }

  /** A jump is absolute. */
  function Jump(stmts: seq<Statement>, s: SourceState, target: Operand): SourceProgress {
    match target
    case LabelOperand(l) => Going(s.(pos := FindLabel(stmts, l, 0), skew := 0))
    case ImmOperand(addr) => GoToAddress(stmts, s, U32(addr))
    case _ => Meaningless(s)
  }

  /** The documented meaning of the machine mnemonics, operand by operand. */
  function Machine(stmts: seq<Statement>, op: Opcode, ops: seq<Operand>, s: SourceState): SourceProgress
    requires s.pos < |stmts|
  {
    match FormatOf(op)
    case FormatR =>
      if |ops| == 3 && IsReg(ops, 0) && IsReg(ops, 1) && IsReg(ops, 2) then
        Assign(s, ops[0].reg, AluResult(op, s.regs[ops[1].reg], s.regs[ops[2].reg]))
      else Meaningless(s)
    case FormatI =>
      if IsLoad(op) || IsStore(op) then
        if |ops| == 2 && IsReg(ops, 0) && IsMem(ops, 1) then
          var addr := U32(s.regs[ops[1].base] + ops[1].disp);
          if !Accessible(s.mem, addr) then Trapped(s)
          else if IsLoad(op) then Assign(s, ops[0].reg, LoadWord(s.mem, addr))
          else Going(s.(mem := StoreWord(s.mem, addr, s.regs[ops[0].reg]), pos := s.pos + 1))
        else Meaningless(s)
      else if |ops| == 3 && IsReg(ops, 0) && IsReg(ops, 1) && IsImm(ops, 2) then
        Assign(s, ops[0].reg, AluResult(op, s.regs[ops[1].reg], ops[2].imm))
      else Meaningless(s)
    case FormatB =>
      if |ops| == 3 && IsReg(ops, 0) && IsReg(ops, 1) && (IsLabel(stmts, ops, 2) || IsImm(ops, 2)) then
        if BranchTaken(op, s.regs[ops[0].reg], s.regs[ops[1].reg]) then Branch(stmts, s, ops[2])
        else Going(s.(pos := s.pos + 1))
      else Meaningless(s)
    case FormatJ =>
      if op == RET then if |ops| == 0 then Stopped(s) else Meaningless(s)
      else if |ops| == 1 && (IsLabel(stmts, ops, 0) || (ops[0].ImmOperand? && ops[0].imm >= 0)) then
        var link := Here(stmts, s) + INSTRUCTION_BYTES;
        var regs := if op == JAL then WriteReg(s.regs, RETURN_ADDR_REG, S32(link)) else s.regs;
        Jump(stmts, s.(regs := regs), ops[0])
      else Meaningless(s)
  }

  /** One instruction statement; `nop`, `mov` and `li` have their documented meaning. */
  function Obey(stmts: seq<Statement>, name: string, ops: seq<Operand>, s: SourceState): SourceProgress
    requires s.pos < |stmts|
  {
    if name == "nop" then Going(s.(pos := s.pos + 1))
    else if name == "mov" then
      if |ops| == 2 && IsReg(ops, 0) && IsReg(ops, 1) then Assign(s, ops[0].reg, s.regs[ops[1].reg]) else Meaningless(s)
    else if name == "li" then
      if |ops| == 2 && IsReg(ops, 0) && IsImm(ops, 1) then Assign(s, ops[0].reg, ops[1].imm) else Meaningless(s)
    else
      match LookupOpcode(name)
      case None => Meaningless(s)
      case Some(op) => Machine(stmts, op, ops, s)
  }

  function SourceStep(stmts: seq<Statement>, s: SourceState): SourceProgress {
    if s.pos > |stmts| then Meaningless(s)
    else
      var pos := SkipLabels(stmts, s.pos);
      if pos == |stmts| then OffTheEnd(s)
      else Obey(stmts, stmts[pos].name, stmts[pos].operands, s.(pos := pos, retired := s.retired + 1))
  }

  /** The source program after at most `n` statements. */
  function SourceRun(stmts: seq<Statement>, s: SourceState, n: nat): SourceProgress {
    if n == 0 then Going(s)
    else
      var before := SourceRun(stmts, s, n - 1);
      if before.Going? then SourceStep(stmts, before.s) else before
  }

  // ---- Correspondence --------------------------------------------------------------------------

  /** A source position stands for the address of the instructions before it. */
  predicate SameState(stmts: seq<Statement>, s: SourceState, a: ArchState) {
    && s.pos <= |stmts| && s.regs == a.regs && s.mem == a.mem && s.retired == a.retired
    && a.pc == Here(stmts, s) && (s.pos < |stmts| ==> s.skew < INSTRUCTION_BYTES) && s.regs[0] == 0
  }

  predicate SameProgress(stmts: seq<Statement>, x: SourceProgress, y: Progress) {
    && SameState(stmts, x.s, y.s)
    && match x
       case Going(_) => y.Running?
       case Stopped(_) => y.Halted?
       case Trapped(_) => y.MemoryFault?
       case OffTheEnd(_) => y.PcFault?
       case Meaningless(_) => false
  }

  lemma SkipKeepsCount(stmts: seq<Statement>, pos: nat)
    requires pos <= |stmts|
    ensures CommandsBefore(stmts, SkipLabels(stmts, pos)) == CommandsBefore(stmts, pos)
    decreases |stmts| - pos
  {
    if pos < |stmts| && stmts[pos].LabelDef? { SkipKeepsCount(stmts, pos + 1); }
  }

  /** A label's symbol is the address of its position. */
  lemma SymbolOfLabel(stmts: seq<Statement>, symbols: Symbols, l: string)
    requires TableRight(stmts, |stmts|, symbols) && FitsAddresses(stmts) && l in symbols
    ensures var pos := FindLabel(stmts, l, 0);
      pos < |stmts| && symbols[l] == INSTRUCTION_BYTES * CommandsBefore(stmts, pos)
  {
    hide AddressAfter, CommandsBefore, FitsAddresses;
    var i :| 0 <= i < |stmts| && stmts[i] == LabelDef(l, stmts[i].line);
    var pos := FindLabel(stmts, l, 0);
    assert pos <= i;
    assert stmts[pos].LabelDef?;
    ExactAddress(stmts, pos);
  }

  lemma AluIdentities(v: Int32)
    ensures AluResult(ADD, v, 0) == v && AluResult(ADDI, 0, v) == v && AluResult(ADD, 0, 0) == 0
  {
    hide BitAnd, BitOr, BitXor, Pow2;
  }

  /** What the translator and the encoder have established about a statement's operands. */
  ghost predicate Translated(stmts: seq<Statement>, symbols: Symbols, name: string, ops: seq<Operand>, k: nat,
      inst: Instruction) {
    && TableRight(stmts, |stmts|, symbols) && FitsAddresses(stmts)
    && INSTRUCTION_BYTES * k < TWO_32
    && Translate(symbols, name, ops, INSTRUCTION_BYTES * k) == Success(inst) && RegistersInRange(inst) &&
      UsedFieldsInRange(inst)
  }

  lemma PseudoPreserved(stmts: seq<Statement>, symbols: Symbols, name: string, ops: seq<Operand>, inst: Instruction,
      s: SourceState, a: ArchState)
    requires s.pos < |stmts| && stmts[s.pos].Command? && SameState(stmts, s, a)
    requires Translated(stmts, symbols, name, ops, CommandsBefore(stmts, s.pos), inst)
    requires name == "nop" || name == "mov" || name == "li"
    requires NextPc(a.pc) == INSTRUCTION_BYTES * CommandsBefore(stmts, s.pos + 1) + s.skew
    ensures SameProgress(stmts, Obey(stmts, name, ops, s), Perform(inst, a))
  {
    hide AluResult, CommandsBefore, TableRight, FitsAddresses, LookupOpcode, MakeR, MakeIAlu, MakeMem, MakeBranch,
      MakeJump, LoadWord, StoreWord, CheckAccess, BranchTaken, Machine;
    AluIdentities(0);
    if name == "mov" { AluIdentities(a.regs[ops[1].reg]); }
    if name == "li" { AluIdentities(ops[1].imm); }
  }

  lemma AluPreserved(stmts: seq<Statement>, symbols: Symbols, name: string, op: Opcode, ops: seq<Operand>,
      inst: Instruction, s: SourceState, a: ArchState)
    requires s.pos < |stmts| && stmts[s.pos].Command? && SameState(stmts, s, a)
    requires Translated(stmts, symbols, name, ops, CommandsBefore(stmts, s.pos), inst)
    requires name != "nop" && name != "mov" && name != "li" && LookupOpcode(name) == Some(op)
    requires FormatOf(op) == FormatR || (FormatOf(op) == FormatI && !IsLoad(op) && !IsStore(op))
    requires NextPc(a.pc) == INSTRUCTION_BYTES * CommandsBefore(stmts, s.pos + 1) + s.skew
    ensures SameProgress(stmts, Machine(stmts, op, ops, s), Perform(inst, a))
  {
    hide AluResult, CommandsBefore, TableRight, FitsAddresses, LookupOpcode, CheckAccess;
  }

  lemma AccessPreserved(stmts: seq<Statement>, symbols: Symbols, name: string, op: Opcode, ops: seq<Operand>,
      inst: Instruction, s: SourceState, a: ArchState)
    requires s.pos < |stmts| && stmts[s.pos].Command? && SameState(stmts, s, a)
    requires Translated(stmts, symbols, name, ops, CommandsBefore(stmts, s.pos), inst)
    requires name != "nop" && name != "mov" && name != "li" && LookupOpcode(name) == Some(op)
    requires IsLoad(op) || IsStore(op)
    requires NextPc(a.pc) == INSTRUCTION_BYTES * CommandsBefore(stmts, s.pos + 1) + s.skew
    ensures SameProgress(stmts, Machine(stmts, op, ops, s), Perform(inst, a))
  {
    hide AluResult, U32, CommandsBefore, TableRight, FitsAddresses, LookupOpcode, CheckAccess;
    WrappedAddress(a.regs[inst.rs], inst.imm);
  }

  lemma WrappedAddress(base: Int32, offset: Int32)
    ensures AddOffset(U32(base), offset) == U32(base + offset)
  {
    AddressArithmetic(base, offset);
    U32OfS32(base + offset);
  }

  lemma {:induction false} LocateCounts(stmts: seq<Statement>, k: nat, i: nat)
    requires i <= |stmts| && CommandsBefore(stmts, i) + k < CommandsBefore(stmts, |stmts|)
    ensures var r := Locate(stmts, k, i);
      r < |stmts| && stmts[r].Command? && CommandsBefore(stmts, r) == CommandsBefore(stmts, i) + k
    decreases |stmts| - i
  {
    assert i < |stmts|;
    if stmts[i].LabelDef? {
      LocateCounts(stmts, k, i + 1);
    } else if k > 0 {
      LocateCounts(stmts, k - 1, i + 1);
    }
  }

  /** Going to an address is going to that address. */
  lemma AddressReached(stmts: seq<Statement>, s: SourceState, a: ArchState, addr: UInt32)
    requires SameState(stmts, s, a)
    ensures var r := GoToAddress(stmts, s, addr); r.Going? && SameState(stmts, r.s, a.(pc := addr))
  {
    hide Locate, CommandsBefore;
    var k := addr / INSTRUCTION_BYTES;
    NothingBeforeFirst(stmts);
    if k < CommandsBefore(stmts, |stmts|) { LocateCounts(stmts, k, 0); }
  }

  lemma NothingBeforeFirst(stmts: seq<Statement>)
    ensures CommandsBefore(stmts, 0) == 0
  {
  }

  lemma BranchPreserved(stmts: seq<Statement>, symbols: Symbols, name: string, op: Opcode, ops: seq<Operand>,
      inst: Instruction,
      s: SourceState, a: ArchState)
    requires s.pos < |stmts| && stmts[s.pos].Command? && SameState(stmts, s, a)
    requires Translated(stmts, symbols, name, ops, CommandsBefore(stmts, s.pos), inst)
    requires name != "nop" && name != "mov" && name != "li" && LookupOpcode(name) == Some(op)
    requires FormatOf(op) == FormatB
    requires NextPc(a.pc) == INSTRUCTION_BYTES * CommandsBefore(stmts, s.pos + 1) + s.skew
    ensures SameProgress(stmts, Machine(stmts, op, ops, s), Perform(inst, a))
  {
    hide CommandsBefore, TableRight, FitsAddresses, LookupOpcode, AddOffset, BranchTaken, U32, GoToAddress;
    if ops[2].LabelOperand? {
      SymbolOfLabel(stmts, symbols, ops[2].name);
      OffsetReaches(INSTRUCTION_BYTES * CommandsBefore(stmts, s.pos), s.skew, symbols[ops[2].name]);
    } else {
      AddressReached(stmts, s, a, U32(Here(stmts, s) + ops[2].imm));
      OffsetAdds(a.pc, ops[2].imm);
    }
  }

  lemma OffsetReaches(address: UInt32, skew: nat, target: UInt32)
    requires ImmInRange(target - address) && address + skew < TWO_32 && target + skew < TWO_32
    ensures AddOffset(address + skew, target - address) == target + skew
  {
  }

  lemma OffsetAdds(pc: UInt32, offset: Int32)
    ensures AddOffset(pc, offset) == U32(pc + offset)
  {
  }

  lemma RetPreserved(stmts: seq<Statement>, symbols: Symbols, name: string, ops: seq<Operand>, inst: Instruction,
      s: SourceState, a: ArchState)
    requires s.pos < |stmts| && stmts[s.pos].Command? && SameState(stmts, s, a)
    requires Translated(stmts, symbols, name, ops, CommandsBefore(stmts, s.pos), inst)
    requires name != "nop" && name != "mov" && name != "li" && LookupOpcode(name) == Some(RET)
    ensures SameProgress(stmts, Machine(stmts, RET, ops, s), Perform(inst, a))
  {
    hide CommandsBefore, TableRight, FitsAddresses, LookupOpcode, LoadWord, StoreWord, AluResult, BranchTaken,
      MakeR, MakeIAlu, MakeMem, MakeBranch, MakeMov, MakeLi;
  }

  lemma PlainJumpPreserved(stmts: seq<Statement>, symbols: Symbols, name: string, ops: seq<Operand>, inst: Instruction,
      s: SourceState, a: ArchState)
    requires s.pos < |stmts| && stmts[s.pos].Command? && SameState(stmts, s, a)
    requires Translated(stmts, symbols, name, ops, CommandsBefore(stmts, s.pos), inst)
    requires name != "nop" && name != "mov" && name != "li" && LookupOpcode(name) == Some(J)
    ensures SameProgress(stmts, Machine(stmts, J, ops, s), Perform(inst, a))
  {
    hide CommandsBefore, TableRight, FitsAddresses, LookupOpcode, LoadWord, StoreWord, AluResult, BranchTaken, U32,
      GoToAddress,
      MakeR, MakeIAlu, MakeMem, MakeBranch, MakeMov, MakeLi;
    if ops[0].LabelOperand? {
      SymbolOfLabel(stmts, symbols, ops[0].name);
    } else {
      AddressReached(stmts, s, a, U32(ops[0].imm));
    }
  }

  lemma LinkPreserved(stmts: seq<Statement>, symbols: Symbols, name: string, ops: seq<Operand>, inst: Instruction,
      s: SourceState, a: ArchState)
    requires s.pos < |stmts| && stmts[s.pos].Command? && SameState(stmts, s, a)
    requires Translated(stmts, symbols, name, ops, CommandsBefore(stmts, s.pos), inst)
    requires name != "nop" && name != "mov" && name != "li" && LookupOpcode(name) == Some(JAL)
    requires NextPc(a.pc) == INSTRUCTION_BYTES * CommandsBefore(stmts, s.pos + 1) + s.skew
    ensures SameProgress(stmts, Machine(stmts, JAL, ops, s), Perform(inst, a))
  {
    hide CommandsBefore, TableRight, FitsAddresses, LookupOpcode, LoadWord, StoreWord, AluResult, BranchTaken, U32,
      GoToAddress,
      MakeR, MakeIAlu, MakeMem, MakeBranch, MakeMov, MakeLi;
    assert NextPc(a.pc) == Here(stmts, s) + INSTRUCTION_BYTES by { OneMore(stmts, s.pos); }
    var regs := WriteReg(s.regs, RETURN_ADDR_REG, S32(NextPc(a.pc)));
    if ops[0].LabelOperand? {
      SymbolOfLabel(stmts, symbols, ops[0].name);
    } else {
      AddressReached(stmts, s.(regs := regs), a.(regs := regs), U32(ops[0].imm));
    }
  }

  lemma OneMore(stmts: seq<Statement>, pos: nat)
    requires pos < |stmts| && stmts[pos].Command?
    ensures CommandsBefore(stmts, pos + 1) == CommandsBefore(stmts, pos) + 1
  {
  }

  /** One instruction statement does what its word does. */
  lemma ObeyPreserved(stmts: seq<Statement>, symbols: Symbols, name: string, ops: seq<Operand>, inst: Instruction,
      s: SourceState, a: ArchState)
    requires s.pos < |stmts| && stmts[s.pos].Command? && SameState(stmts, s, a)
    requires Translated(stmts, symbols, name, ops, CommandsBefore(stmts, s.pos), inst)
    requires NextPc(a.pc) == INSTRUCTION_BYTES * CommandsBefore(stmts, s.pos + 1) + s.skew
    ensures SameProgress(stmts, Obey(stmts, name, ops, s), Perform(inst, a))
  {
    hide Perform, Machine, SameState, SameProgress, CommandsBefore, LookupOpcode, TableRight, FitsAddresses,
      MakeR, MakeIAlu, MakeMem, MakeBranch, MakeJump;
    if name == "nop" || name == "mov" || name == "li" {
      PseudoPreserved(stmts, symbols, name, ops, inst, s, a);
    } else {
      var op := LookupOpcode(name).value;
      match FormatOf(op)
      case FormatR => AluPreserved(stmts, symbols, name, op, ops, inst, s, a);
      case FormatI =>
        if IsLoad(op) || IsStore(op) {
          AccessPreserved(stmts, symbols, name, op, ops, inst, s, a);
        } else {
          AluPreserved(stmts, symbols, name, op, ops, inst, s, a);
        }
      case FormatB => BranchPreserved(stmts, symbols, name, op, ops, inst, s, a);
      case FormatJ =>
        if op == RET {
          RetPreserved(stmts, symbols, name, ops, inst, s, a);
        } else if op == J {
          PlainJumpPreserved(stmts, symbols, name, ops, inst, s, a);
        } else {
          LinkPreserved(stmts, symbols, name, ops, inst, s, a);
        }
    }
  }

  /** The image of a source program. */
  ghost predicate ImageOf(stmts: seq<Statement>, p: Program) {
    Faithful(stmts, p) && FitsAddresses(stmts)
  }

  lemma CodeSize(stmts: seq<Statement>, p: Program)
    requires ImageOf(stmts, p)
    ensures CodeBytes(p) == INSTRUCTION_BYTES * CommandsBefore(stmts, |stmts|)
  {
    hide TableRight, EmittedRight, Decode;
    NoWrap(|p.words|);
  }

  lemma NoWrap(n: nat)
    requires n < 0x4000_0000
    ensures U32(U32(n) * INSTRUCTION_BYTES) == INSTRUCTION_BYTES * n
  {
    assert U32(n) == n;
  }

  /** The word at a statement's address, or up to three bytes past it, is its translation. */
  lemma WordOfStatement(stmts: seq<Statement>, p: Program, pos: nat, skew: nat) returns (inst: Instruction)
    requires ImageOf(stmts, p) && pos < |stmts| && stmts[pos].Command? && skew < INSTRUCTION_BYTES
    ensures var pc := INSTRUCTION_BYTES * CommandsBefore(stmts, pos) + skew;
      && pc < CodeBytes(p) && Decode(WordAt(p, pc)) == Success(inst)
      && NextPc(pc) == INSTRUCTION_BYTES * CommandsBefore(stmts, pos + 1) + skew
      && Translated(stmts, p.symbols, stmts[pos].name, stmts[pos].operands, CommandsBefore(stmts, pos), inst)
  {
    hide Decode, Encode, CommandsBefore, TableRight, CodeBytes, Translate, AddressAfter, Assembled;
    var k := CommandsBefore(stmts, pos);
    CodeSize(stmts, p);
    OneMore(stmts, pos);
    CommandsMonotone(stmts, pos, |stmts|);
    ExactAddress(stmts, pos);
    assert EmittedRight(stmts, p, pos);
    AssembledDecodes(p.symbols, stmts[pos], AddressAfter(stmts, pos));
    inst := p.instructions[k];
    EncodeFailsExactly(inst);
    assert (INSTRUCTION_BYTES * k + skew) / INSTRUCTION_BYTES == k;
  }

  lemma StepPreserved(stmts: seq<Statement>, p: Program, s: SourceState, a: ArchState)
    requires ImageOf(stmts, p) && SameState(stmts, s, a)
    ensures SameProgress(stmts, SourceStep(stmts, s), Step(p, a))
  {
    hide Decode, CommandsBefore, CodeBytes, WordAt, ImageOf, Obey, Perform, Translated, NextPc;
    var pos := SkipLabels(stmts, s.pos);
    SkipKeepsCount(stmts, s.pos);
    CodeSize(stmts, p);
    if pos < |stmts| {
      var inst := WordOfStatement(stmts, p, pos, s.skew);
      var s' := s.(pos := pos, retired := s.retired + 1);
      ObeyPreserved(stmts, p.symbols, stmts[pos].name, stmts[pos].operands, inst, s', a.(retired := a.retired + 1));
    }
  }

  /** Assembly preserves meaning: step for step, running the words is running the source, whether its
      transfers are written with labels or with numbers. */
  lemma {:induction false} AssemblyPreservesMeaning(stmts: seq<Statement>, regs: Registers, mem: Memory, n: nat)
    requires AssembleStatements(stmts).Success? && FitsAddresses(stmts) && regs[0] == 0
    ensures SameProgress(stmts, SourceRun(stmts, SourceState(regs, mem, 0, 0, 0), n),
                         AfterSteps(AssembleStatements(stmts).value, ArchState(regs, mem, 0, 0), n))
  {
    hide Step, SourceStep, Faithful, FitsAddresses, AssembleStatements, AllDecode, Parallel;
    var p := AssembleStatements(stmts).value;
    AssemblyIsFaithful(stmts);
    if n == 0 {
    } else {
      AssemblyPreservesMeaning(stmts, regs, mem, n - 1);
      var x, y := SourceRun(stmts, SourceState(regs, mem, 0, 0, 0), n - 1),
        AfterSteps(p, ArchState(regs, mem, 0, 0), n - 1);
      if x.Going? { StepPreserved(stmts, p, x.s, y.s); }
    }
  }
}

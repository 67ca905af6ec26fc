/** Exactly which statement lists assemble, and which fault is reported for the others. */
module Acceptance {
  import opened Words
  import opened Isa
  import opened Results
  import opened Encoding
  import opened Syntax
  import opened Assembler
  import opened TwoPass
  import opened Meaning

  // ---- The documented form of a statement --------------------------------------------------

  /** What an instruction takes in an operand position. */
  datatype Slot = RegSlot | ImmSlot | MemSlot | BranchSlot | JumpSlot

  /** The documented operands of a mnemonic, left to right. `nop` is not listed: it takes any. */
  function Signature(name: string): Option<seq<Slot>> {
    if name == "add" || name == "sub" || name == "and" || name == "or" then Some([RegSlot, RegSlot, RegSlot])
    else if name == "xor" || name == "sll" || name == "srl" || name == "slt" then Some([RegSlot, RegSlot, RegSlot])
    else if name == "addi" || name == "andi" || name == "ori" then Some([RegSlot, RegSlot, ImmSlot])
    else if name == "xori" || name == "slti" then Some([RegSlot, RegSlot, ImmSlot])
    else if name == "lw" || name == "sw" then Some([RegSlot, MemSlot])
    else if name == "beq" || name == "bne" || name == "blt" then Some([RegSlot, RegSlot, BranchSlot])
    else if name == "j" || name == "jal" then Some([JumpSlot])
    else if name == "ret" || name == "halt" then Some([])
    else if name == "mov" then Some([RegSlot, RegSlot])
    else if name == "li" then Some([RegSlot, ImmSlot])
    else None
  }

  /** The byte address of a position: four times the instructions before it. */
  function Address(stmts: seq<Statement>, pos: nat): UInt32
    requires pos <= |stmts|
  {
    U32(4 * CommandsBefore(stmts, pos))
  }

  predicate Fits18(v: int) { -131072 <= v <= 131071 }

  predicate Fits26(v: int) { 0 <= v <= 0x3FF_FFFF }

  /** What is wrong with operand `o` of the statement at `pos`. */
  function SlotFault(stmts: seq<Statement>, pos: nat, slot: Slot, o: Operand): Option<Fault>
    requires pos < |stmts|
  {
    match slot
    case RegSlot => if o.RegOperand? then None else Some(ExpectedRegister)
    case ImmSlot =>
      if !o.ImmOperand? then Some(ExpectedImmediate)
      else if !Fits18(o.imm) then Some(ImmediateTooLarge)
      else None
    case MemSlot =>
      if !o.MemOperand? then Some(ExpectedMemory)
      else if !Fits18(o.disp) then Some(ImmediateTooLarge)
      else None
    case BranchSlot =>
      if o.ImmOperand? then if Fits18(o.imm) then None else Some(BranchTooFar)
      else if !o.LabelOperand? then Some(BadTarget)
      else
        var target := FindLabel(stmts, o.name, 0);
        if target == |stmts| then Some(UndefinedLabel)
        else if !Fits18(Address(stmts, target) - Address(stmts, pos)) then Some(BranchTooFar)
        else None
    case JumpSlot =>
      if o.ImmOperand? then if o.imm < 0 then Some(NegativeTarget) else None
      else if !o.LabelOperand? then Some(BadTarget)
      else if FindLabel(stmts, o.name, 0) == |stmts| then Some(UndefinedLabel)
      else None
  }

  /** The first faulty operand decides. */
  function FirstSlotFault(stmts: seq<Statement>, pos: nat, slots: seq<Slot>, ops: seq<Operand>): Option<Fault>
    requires pos < |stmts| && |ops| == |slots|
  {
    if |slots| == 0 then None
    else if SlotFault(stmts, pos, slots[0], ops[0]).Some? then SlotFault(stmts, pos, slots[0], ops[0])
    else FirstSlotFault(stmts, pos, slots[1..], ops[1..])
  }

  /** An operand that its field cannot hold: a register above 15, or a jump target beyond 26 bits. */
  predicate TooWide(stmts: seq<Statement>, slot: Slot, o: Operand) {
    match slot
    case RegSlot => o.RegOperand? && o.reg >= 16
    case MemSlot => o.MemOperand? && o.base >= 16
    case JumpSlot =>
      || (o.ImmOperand? && !Fits26(U32(o.imm)))
      || (o.LabelOperand? && !Fits26(Address(stmts, FindLabel(stmts, o.name, 0))))
    case _ => false
  }

  predicate SomeTooWide(stmts: seq<Statement>, slots: seq<Slot>, ops: seq<Operand>)
    requires |ops| == |slots|
  {
    |slots| > 0 && (TooWide(stmts, slots[0], ops[0]) || SomeTooWide(stmts, slots[1..], ops[1..]))
  }

  /** What is wrong with the instruction statement at `pos`, if anything. */
  function CommandFault(stmts: seq<Statement>, pos: nat): Option<Fault>
    requires pos < |stmts| && stmts[pos].Command?
  {
    var name, ops := stmts[pos].name, stmts[pos].operands;
    if name == "nop" then None
    else
      match Signature(name)
      case None => Some(UnknownInstruction)
      case Some(slots) =>
        if |ops| != |slots| then Some(OperandCount)
        else if FirstSlotFault(stmts, pos, slots, ops).Some? then FirstSlotFault(stmts, pos, slots, ops)
        else if SomeTooWide(stmts, slots, ops) then Some(CannotEncode)
        else None
  }

  // ---- One statement ---------------------------------------------------------------------------

  /** The symbol table holds exactly the defined labels, at their addresses. */
  lemma SymbolsAreLabels(stmts: seq<Statement>, symbols: Symbols, l: string)
    requires TableRight(stmts, |stmts|, symbols)
    ensures l in symbols <==> FindLabel(stmts, l, 0) < |stmts|
    ensures l in symbols ==> symbols[l] == Address(stmts, FindLabel(stmts, l, 0))
  {
    hide AddressAfter, CommandsBefore;
    var pos := FindLabel(stmts, l, 0);
    if pos < |stmts| { AddressIsCount(stmts, pos); }
  }

  /** Slots and operands, unrolled. */
  lemma FaultOfOne(stmts: seq<Statement>, pos: nat, a: Slot, ops: seq<Operand>)
    requires pos < |stmts| && |ops| == 1
    ensures FirstSlotFault(stmts, pos, [a], ops) == SlotFault(stmts, pos, a, ops[0])
    ensures SomeTooWide(stmts, [a], ops) <==> TooWide(stmts, a, ops[0])
  {
    hide SlotFault, TooWide;
    assert [a][1..] == [] && ops[1..] == [];
  }

  lemma FaultOfTwo(stmts: seq<Statement>, pos: nat, a: Slot, b: Slot, ops: seq<Operand>)
    requires pos < |stmts| && |ops| == 2
    ensures FirstSlotFault(stmts, pos, [a, b], ops) ==
      if SlotFault(stmts, pos, a, ops[0]).Some? then SlotFault(stmts, pos, a, ops[0])
      else SlotFault(stmts, pos, b, ops[1])
    ensures SomeTooWide(stmts, [a, b], ops) <==> TooWide(stmts, a, ops[0]) || TooWide(stmts, b, ops[1])
  {
    hide SlotFault, TooWide;
    assert [a, b][1..] == [b];
    FaultOfOne(stmts, pos, b, ops[1..]);
  }

  lemma FaultOfThree(stmts: seq<Statement>, pos: nat, a: Slot, b: Slot, c: Slot, ops: seq<Operand>)
    requires pos < |stmts| && |ops| == 3
    ensures FirstSlotFault(stmts, pos, [a, b, c], ops) ==
      if SlotFault(stmts, pos, a, ops[0]).Some? then SlotFault(stmts, pos, a, ops[0])
      else if SlotFault(stmts, pos, b, ops[1]).Some? then SlotFault(stmts, pos, b, ops[1])
      else SlotFault(stmts, pos, c, ops[2])
    ensures SomeTooWide(stmts, [a, b, c], ops) <==>
      TooWide(stmts, a, ops[0]) || TooWide(stmts, b, ops[1]) || TooWide(stmts, c, ops[2])
  {
    hide SlotFault, TooWide;
    assert [a, b, c][1..] == [b, c];
    FaultOfTwo(stmts, pos, b, c, ops[1..]);
  }

  /** Translating and encoding succeed, or report exactly fault `f`. */
  predicate Reports(symbols: Symbols, name: string, ops: seq<Operand>, address: UInt32, f: Option<Fault>) {
    match Translate(symbols, name, ops, address)
    case Failure(g) => f == Some(g)
    case Success(i) => f == if UsedFieldsInRange(i) then None else Some(CannotEncode)
  }

  /** The operands of an opcode's assembly form. */
  function OpcodeSignature(op: Opcode): seq<Slot> {
    match op
    case ADD | SUB | AND | OR | XOR | SLL | SRL | SLT => [RegSlot, RegSlot, RegSlot]
    case ADDI | ANDI | ORI | XORI | SLTI => [RegSlot, RegSlot, ImmSlot]
    case LW | SW => [RegSlot, MemSlot]
    case BEQ | BNE | BLT => [RegSlot, RegSlot, BranchSlot]
    case J | JAL => [JumpSlot]
    case RET => []
  }

  /** What the documented form of a mnemonic is, by its opcode. */
  lemma SignatureOfOpcode(name: string)
    requires name != "nop" && name != "mov" && name != "li"
    ensures LookupOpcode(name) == None ==> Signature(name) == None
    ensures forall op :: LookupOpcode(name) == Some(op) ==> Signature(name) == Some(OpcodeSignature(op))
  {
  }

  lemma PseudoSignatures()
    ensures Signature("mov") == Some([RegSlot, RegSlot]) && Signature("li") == Some([RegSlot, ImmSlot])
  {
  }

  lemma PseudoReports(stmts: seq<Statement>, symbols: Symbols, pos: nat)
    requires pos < |stmts| && stmts[pos].Command?
    requires stmts[pos].name == "nop" || stmts[pos].name == "mov" || stmts[pos].name == "li"
    ensures Reports(symbols, stmts[pos].name, stmts[pos].operands, AddressAfter(stmts, pos), CommandFault(stmts, pos))
  {
    hide Signature, AddressAfter, FirstSlotFault, SomeTooWide, MakeR, MakeIAlu, MakeMem, MakeBranch, MakeJump,
      LookupOpcode, Address;
    var ops := stmts[pos].operands;
    PseudoSignatures();
    if |ops| == 2 {
      FaultOfTwo(stmts, pos, RegSlot, RegSlot, ops);
      FaultOfTwo(stmts, pos, RegSlot, ImmSlot, ops);
    }
  }

  lemma AluReports(stmts: seq<Statement>, symbols: Symbols, pos: nat, op: Opcode)
    requires pos < |stmts| && stmts[pos].Command? && LookupOpcode(stmts[pos].name) == Some(op)
    requires stmts[pos].name != "nop" && stmts[pos].name != "mov" && stmts[pos].name != "li"
    requires FormatOf(op) == FormatR || FormatOf(op) == FormatI
    ensures Reports(symbols, stmts[pos].name, stmts[pos].operands, AddressAfter(stmts, pos), CommandFault(stmts, pos))
  {
    hide Signature, AddressAfter, FirstSlotFault, SomeTooWide, MakeMov, MakeLi, MakeBranch, MakeJump, LookupOpcode,
      Address;
    var ops := stmts[pos].operands;
    SignatureOfOpcode(stmts[pos].name);
    if |ops| == 2 {
      FaultOfTwo(stmts, pos, RegSlot, MemSlot, ops);
    } else if |ops| == 3 {
      FaultOfThree(stmts, pos, RegSlot, RegSlot, RegSlot, ops);
      FaultOfThree(stmts, pos, RegSlot, RegSlot, ImmSlot, ops);
    }
  }

  lemma TransferReports(stmts: seq<Statement>, symbols: Symbols, pos: nat, op: Opcode)
    requires pos < |stmts| && stmts[pos].Command? && LookupOpcode(stmts[pos].name) == Some(op)
    requires stmts[pos].name != "nop" && stmts[pos].name != "mov" && stmts[pos].name != "li"
    requires FormatOf(op) == FormatB || FormatOf(op) == FormatJ
    requires TableRight(stmts, |stmts|, symbols)
    ensures Reports(symbols, stmts[pos].name, stmts[pos].operands, AddressAfter(stmts, pos), CommandFault(stmts, pos))
  {
    hide Signature, AddressAfter, FirstSlotFault, SomeTooWide, MakeMov, MakeLi, MakeR, MakeIAlu, MakeMem,
      LookupOpcode, Address, TableRight;
    var ops := stmts[pos].operands;
    SignatureOfOpcode(stmts[pos].name);
    AddressIs(stmts, pos);
    if |ops| == 0 {
      FaultOfNone(stmts, pos, ops);
    } else if |ops| == 1 {
      FaultOfOne(stmts, pos, JumpSlot, ops);
      if ops[0].LabelOperand? { SymbolsAreLabels(stmts, symbols, ops[0].name); }
    } else if |ops| == 3 {
      FaultOfThree(stmts, pos, RegSlot, RegSlot, BranchSlot, ops);
      if ops[2].LabelOperand? { SymbolsAreLabels(stmts, symbols, ops[2].name); }
    }
  }

  lemma FaultOfNone(stmts: seq<Statement>, pos: nat, ops: seq<Operand>)
    requires pos < |stmts| && |ops| == 0
    ensures FirstSlotFault(stmts, pos, [], ops) == None && !SomeTooWide(stmts, [], ops)
  {
  }

  lemma AddressIs(stmts: seq<Statement>, pos: nat)
    requires pos <= |stmts|
    ensures AddressAfter(stmts, pos) == Address(stmts, pos)
  {
    AddressIsCount(stmts, pos);
  }

  /** An instruction statement assembles exactly when nothing is wrong with it, and otherwise reports
      what is wrong, with its line. */
  lemma AssembledExactly(stmts: seq<Statement>, symbols: Symbols, pos: nat)
    requires pos < |stmts| && stmts[pos].Command? && TableRight(stmts, |stmts|, symbols)
    ensures
      var r, f := Assembled(symbols, stmts[pos], AddressAfter(stmts, pos)), CommandFault(stmts, pos);
      && (r.Success? <==> f.None?)
      && (r.Failure? ==> f.Some? && r.error == AssembleError(f.value, stmts[pos].line))
  {
    hide Signature, AddressAfter, CommandFault, Translate, Encode, LookupOpcode, TableRight;
    var name, ops := stmts[pos].name, stmts[pos].operands;
    if name == "nop" || name == "mov" || name == "li" {
      PseudoReports(stmts, symbols, pos);
    } else if LookupOpcode(name).None? {
      UnknownReports(stmts, symbols, pos);
    } else {
      var op := LookupOpcode(name).value;
      if FormatOf(op) == FormatR || FormatOf(op) == FormatI {
        AluReports(stmts, symbols, pos, op);
      } else {
        TransferReports(stmts, symbols, pos, op);
      }
    }
    var t := Translate(symbols, name, ops, AddressAfter(stmts, pos));
    if t.Success? { EncodeFailsExactly(t.value); }
  }

  lemma UnknownReports(stmts: seq<Statement>, symbols: Symbols, pos: nat)
    requires pos < |stmts| && stmts[pos].Command? && LookupOpcode(stmts[pos].name).None?
    requires stmts[pos].name != "nop" && stmts[pos].name != "mov" && stmts[pos].name != "li"
    ensures Reports(symbols, stmts[pos].name, stmts[pos].operands, AddressAfter(stmts, pos), CommandFault(stmts, pos))
  {
    hide Signature, AddressAfter, FirstSlotFault, SomeTooWide, LookupOpcode;
    SignatureOfOpcode(stmts[pos].name);
  }

  /** A jump to a written number is truncated to 32 bits before its range is checked: it assembles exactly
      when the remainder fits the field, and goes where it says exactly when nothing was truncated. */
  lemma NumericJumpExactly(symbols: Symbols, target: nat, address: UInt32, line: nat)
    ensures
      var r := Assembled(symbols, Command("j", [ImmOperand(target)], line), address);
      && (r.Success? <==> Fits26(target % TWO_32))
      && (r.Success? ==> (r.value.0.target == target <==> Fits26(target)))
  {
    hide Encode, LookupOpcode;
    JumpIsKnown();
    EncodeFailsExactly(Instruction(J, 0, 0, 0, 0, U32(target)));
  }

  lemma JumpIsKnown()
    ensures LookupOpcode("j") == Some(J)
  {
  }

  /** `j 4294967296` assembles, to a jump to the start of the program. */
  lemma WideJumpWitness(symbols: Symbols, address: UInt32, line: nat)
    ensures
      var r := Assembled(symbols, Command("j", [ImmOperand(TWO_32)], line), address);
      r.Success? && r.value.0 == Instruction(J, 0, 0, 0, 0, 0)
  {
    hide Encode, LookupOpcode;
    JumpIsKnown();
    NumericJumpExactly(symbols, TWO_32, address, line);
  }

  // ---- The whole list ----------------------------------------------------------------------------

  /** A label that an earlier statement has defined. */
  predicate Duplicate(stmts: seq<Statement>, i: nat) {
    && i < |stmts| && stmts[i].LabelDef?
    && exists j :: 0 <= j < i && stmts[j].LabelDef? && stmts[j].name == stmts[i].name
  }

  predicate Faulty(stmts: seq<Statement>, i: nat) {
    i < |stmts| && stmts[i].Command? && CommandFault(stmts, i).Some?
  }

  predicate NoDuplicates(stmts: seq<Statement>, n: nat) {
    forall i :: 0 <= i < n ==> !Duplicate(stmts, i)
  }

  predicate NoFaults(stmts: seq<Statement>, n: nat) {
    forall i :: 0 <= i < n ==> !Faulty(stmts, i)
  }

  lemma {:induction false} CollectSucceeds(stmts: seq<Statement>, n: nat)
    requires n <= |stmts| && NoDuplicates(stmts, n)
    ensures Collect(stmts, n).Success?
  {
    hide AddressAfter, Duplicate;
    if n == 0 {
    } else {
      CollectSucceeds(stmts, n - 1);
      PassOneRight(stmts, n - 1);
      var symbols := Collect(stmts, n - 1).value;
      if stmts[n - 1].LabelDef? && stmts[n - 1].name in symbols { DefinedBefore(stmts, n - 1, symbols); }
    }
  }

  lemma DefinedBefore(stmts: seq<Statement>, n: nat, symbols: Symbols)
    requires n < |stmts| && TableRight(stmts, n, symbols) && stmts[n].LabelDef? && stmts[n].name in symbols
    ensures Duplicate(stmts, n)
  {
    hide AddressAfter;
    var l := stmts[n].name;
    var i :| 0 <= i < n && stmts[i] == LabelDef(l, stmts[i].line);
    assert stmts[i].LabelDef? && stmts[i].name == stmts[n].name;
  }

  lemma CollectRejects(stmts: seq<Statement>, i: nat)
    requires Duplicate(stmts, i) && NoDuplicates(stmts, i)
    ensures Collect(stmts, |stmts|) == Failure(AssembleError(DuplicateLabel, stmts[i].line))
  {
    hide AddressAfter;
    CollectSucceeds(stmts, i);
    PassOneRight(stmts, i);
    CollectFailureStays(stmts, i + 1, |stmts|);
  }

  lemma {:induction false} EmitSucceeds(stmts: seq<Statement>, symbols: Symbols, n: nat)
    requires n <= |stmts| && TableRight(stmts, |stmts|, symbols) && NoFaults(stmts, n)
    ensures Emit(stmts, symbols, n).Success?
  {
    hide Assembled, AddressAfter, TableRight, CommandFault;
    if n == 0 {
    } else {
      EmitSucceeds(stmts, symbols, n - 1);
      assert !Faulty(stmts, n - 1);
      if stmts[n - 1].Command? { AssembledExactly(stmts, symbols, n - 1); }
    }
  }

  lemma EmitRejects(stmts: seq<Statement>, symbols: Symbols, i: nat)
    requires Faulty(stmts, i) && NoFaults(stmts, i) && TableRight(stmts, |stmts|, symbols)
    ensures Emit(stmts, symbols, |stmts|) == Failure(AssembleError(CommandFault(stmts, i).value, stmts[i].line))
  {
    hide Assembled, AddressAfter, TableRight, CommandFault;
    EmitSucceeds(stmts, symbols, i);
    AssembledExactly(stmts, symbols, i);
    EmitFailureStays(stmts, symbols, i + 1, |stmts|);
  }

  /** Assembly succeeds exactly when no label is defined twice and every instruction statement has the
      documented form; otherwise it reports the first label defined twice, or else the first faulty
      statement, with what is wrong and its line. */
  lemma AssemblesExactly(stmts: seq<Statement>)
    ensures AssembleStatements(stmts).Success? <==> NoDuplicates(stmts, |stmts|) && NoFaults(stmts, |stmts|)
    ensures forall i: nat :: Duplicate(stmts, i) && NoDuplicates(stmts, i) ==>
      AssembleStatements(stmts) == Failure(AssembleError(DuplicateLabel, stmts[i].line))
    ensures forall i: nat :: NoDuplicates(stmts, |stmts|) && Faulty(stmts, i) && NoFaults(stmts, i) ==>
      AssembleStatements(stmts) == Failure(AssembleError(CommandFault(stmts, i).value, stmts[i].line))
  {
    hide Collect, Emit, TableRight, CommandFault, NoFaults, NoDuplicates;
    forall i: nat | Duplicate(stmts, i) && NoDuplicates(stmts, i)
      ensures AssembleStatements(stmts) == Failure(AssembleError(DuplicateLabel, stmts[i].line))
    {
      CollectRejects(stmts, i);
    }
    if NoDuplicates(stmts, |stmts|) {
      CollectSucceeds(stmts, |stmts|);
      PassOneRight(stmts, |stmts|);
      var symbols := Collect(stmts, |stmts|).value;
      forall i: nat | Faulty(stmts, i) && NoFaults(stmts, i)
        ensures AssembleStatements(stmts) == Failure(AssembleError(CommandFault(stmts, i).value, stmts[i].line))
      {
        EmitRejects(stmts, symbols, i);
      }
      if NoFaults(stmts, |stmts|) {
        EmitSucceeds(stmts, symbols, |stmts|);
      } else {
        var i := FirstFaulty(stmts, |stmts|);
      }
    } else {
      var i := FirstDuplicate(stmts, |stmts|);
    }
  }

  lemma {:induction false} FirstFaulty(stmts: seq<Statement>, n: nat) returns (i: nat)
    requires !NoFaults(stmts, n)
    ensures i < n && Faulty(stmts, i) && NoFaults(stmts, i)
  {
    hide Faulty;
    if NoFaults(stmts, n - 1) {
      i := n - 1;
    } else {
      i := FirstFaulty(stmts, n - 1);
    }
  }

  lemma {:induction false} FirstDuplicate(stmts: seq<Statement>, n: nat) returns (i: nat)
    requires !NoDuplicates(stmts, n)
    ensures i < n && Duplicate(stmts, i) && NoDuplicates(stmts, i)
  {
    hide Duplicate;
    if NoDuplicates(stmts, n - 1) {
      i := n - 1;
    } else {
      i := FirstDuplicate(stmts, n - 1);
    }
  }
}

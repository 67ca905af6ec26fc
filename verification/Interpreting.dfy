/** The sequential reference interpreter: one instruction to completion per step. */
module Interpreting {
  import opened Words
  import opened Isa
  import opened Encoding
  import opened Alu
  import opened Programs
  import opened Storage

  /** The architectural state; `retired` counts the instructions begun. */
  datatype ArchState = ArchState(regs: Registers, mem: Memory, pc: UInt32, retired: nat)

  /** How far a run has got. Every constructor but `Running` is final. */
  datatype Progress =
    | Running(s: ArchState)
    | Halted(s: ArchState)
    | MemoryFault(s: ArchState)
    | PcFault(s: ArchState)
    | DecodeFault(s: ArchState)

  /** `pc + offset` wrapped to 32 bits. */
  function AddOffset(pc: UInt32, offset: Int32): UInt32 {
    U32(pc + offset)
  }

  /** The effect of `inst` on a state that has already counted it. */
  function Perform(inst: Instruction, s: ArchState): Progress
    requires RegistersInRange(inst)
  {
    match FormatOf(inst.op)
    case FormatR =>
      Running(s.(regs := WriteReg(s.regs, inst.rd, AluResult(inst.op, s.regs[inst.rs], s.regs[inst.rt])),
                 pc := NextPc(s.pc)))
    case FormatI =>
      var addr := AddOffset(U32(s.regs[inst.rs]), inst.imm);
      if IsLoad(inst.op) then
        if !Accessible(s.mem, addr) then MemoryFault(s)
        else Running(s.(regs := WriteReg(s.regs, inst.rd, LoadWord(s.mem, addr)), pc := NextPc(s.pc)))
      else if IsStore(inst.op) then
        if !Accessible(s.mem, addr) then MemoryFault(s)
        else Running(s.(mem := StoreWord(s.mem, addr, s.regs[inst.rd]), pc := NextPc(s.pc)))
      else
        Running(s.(regs := WriteReg(s.regs, inst.rd, AluResult(inst.op, s.regs[inst.rs], inst.imm)),
                   pc := NextPc(s.pc)))
    case FormatB =>
      if BranchTaken(inst.op, s.regs[inst.rs], s.regs[inst.rt]) then
        Running(s.(pc := AddOffset(s.pc, inst.imm)))
      else
        Running(s.(pc := NextPc(s.pc)))
    case FormatJ =>
      if inst.op == RET then Halted(s)
      else
        var regs := if inst.op == JAL then WriteReg(s.regs, RETURN_ADDR_REG, S32(NextPc(s.pc))) else s.regs;
        Running(s.(regs := regs, pc := inst.target))
  }

  function Step(p: Program, s: ArchState): Progress {
    if s.pc >= CodeBytes(p) then PcFault(s)
    else
      match Decode(WordAt(p, s.pc))
      case Failure(_) => DecodeFault(s)
      case Success(inst) => Perform(inst, s.(retired := s.retired + 1))
  }

  lemma StepPerforms(p: Program, s: ArchState)
    requires Decodes(p, s.pc)
    ensures Step(p, s) == Perform(InstAt(p, s.pc), s.(retired := s.retired + 1))
  {
    hide Perform;
  }

  /** The outcome of at most `n` steps from `s`; a run that has ended stays ended. */
  function AfterSteps(p: Program, s: ArchState, n: nat): Progress {
    if n == 0 then Running(s)
    else
      var before := AfterSteps(p, s, n - 1);
      if before.Running? then Step(p, before.s) else before
  }

  /** How `Run` returned or threw. */
  datatype Ending = Returned | StepLimit | BadPc | BadAccess | BadWord

  function Reported(e: Ending, s: ArchState): Progress {
    match e
    case Returned => Halted(s)
    case StepLimit => Running(s)
    case BadPc => PcFault(s)
    case BadAccess => MemoryFault(s)
    case BadWord => DecodeFault(s)
  }

  class Interpreter {
    const program: Program
    const regs: RegisterFile
    const mem: DataMemory
    var pc: UInt32
    var retired: nat

    ghost predicate Valid()
      reads this, regs, mem
    {
      regs.Valid() && mem.Valid() && regs.regs != mem.words
    }

    ghost function State(): ArchState
      requires Valid()
      reads this, regs, mem, regs.regs, mem.words
    {
      ArchState(regs.Contents(), mem.Contents(), pc, retired)
    }

    constructor (program: Program, dataBytes: UInt32)
      ensures Valid() && this.program == program && fresh(regs.regs) && fresh(mem.words)
      ensures State() == ArchState(seq(NUM_REGISTERS, _ => 0), seq(dataBytes / 4, _ => 0), 0, 0)
    {
      this.program := program;
      regs := new RegisterFile();
      mem := new DataMemory(dataBytes);
      pc := 0;
      retired := 0;
    }

    /** Executes one decoded instruction whose retirement has been counted. */
    method Execute(inst: Instruction) returns (ending: Ending, stop: bool)
      requires Valid() && RegistersInRange(inst)
      modifies this, regs.regs, mem.words
      ensures Valid()
      ensures stop <==> !Perform(inst, old(State())).Running?
      ensures stop ==> Reported(ending, State()) == Perform(inst, old(State()))
      ensures !stop ==> Running(State()) == Perform(inst, old(State()))
    {
      ending, stop := StepLimit, false;
      match FormatOf(inst.op) {
        case FormatR =>
          var a := regs.Read(inst.rs);
          var b := regs.Read(inst.rt);
          regs.Write(inst.rd, AluResult(inst.op, a, b));
          pc := NextPc(pc);
        case FormatI =>
          var a := regs.Read(inst.rs);
          if inst.op == LW {
            var v := mem.Load(AddOffset(U32(a), inst.imm));
            if v.Failure? {
              return BadAccess, true;
            }
            regs.Write(inst.rd, v.value);
          } else if inst.op == SW {
            var v := regs.Read(inst.rd);
            var error := mem.Store(AddOffset(U32(a), inst.imm), v);
            if error.Some? {
              return BadAccess, true;
            }
          } else {
            regs.Write(inst.rd, AluResult(inst.op, a, inst.imm));
          }
          pc := NextPc(pc);
        case FormatB =>
          var a := regs.Read(inst.rs);
          var b := regs.Read(inst.rt);
          pc := if BranchTaken(inst.op, a, b) then AddOffset(pc, inst.imm) else NextPc(pc);
        case FormatJ =>
          if inst.op == RET {
            return Returned, true;
          }
          if inst.op == JAL {
            regs.Write(RETURN_ADDR_REG, S32(NextPc(pc)));
          }
          pc := inst.target;
      }
    }

    /** The loop body: fetch, count, execute. */
    method Advance() returns (ending: Ending, stop: bool)
      requires Valid()
      modifies this, regs.regs, mem.words
      ensures Valid()
      ensures stop <==> !Step(program, old(State())).Running?
      ensures stop ==> Reported(ending, State()) == Step(program, old(State()))
      ensures !stop ==> Running(State()) == Step(program, old(State()))
    {
      if pc >= CodeBytes(program) {
        return BadPc, true;
      }
      var decoded := Decode(WordAt(program, pc));
      if decoded.Failure? {
        return BadWord, true;
      }
      retired := retired + 1;
      ending, stop := Execute(decoded.value);
    }

    /** Runs until `RET`, a fault, or `maxSteps` steps. */
    method Run(maxSteps: nat) returns (ending: Ending)
      requires Valid()
      modifies this, regs.regs, mem.words
      ensures Valid()
      ensures Reported(ending, State()) == AfterSteps(program, old(State()), maxSteps)
    {
      ghost var start := State();
      for step := 0 to maxSteps
        invariant Valid()
        invariant AfterSteps(program, start, step) == Running(State())
      {
        ghost var s := State();
        var how, stop := Advance();
        assert AfterSteps(program, start, step + 1) == Step(program, s);
        if stop {
          EndedStaysEnded(program, start, step + 1, maxSteps);
          return how;
        }
      }
      return StepLimit;
    }
  }

  lemma {:induction false} EndedStaysEnded(p: Program, s: ArchState, n: nat, m: nat)
    requires n <= m && !AfterSteps(p, s, n).Running?
    ensures AfterSteps(p, s, m) == AfterSteps(p, s, n)
    decreases m
  {
    if n == m {
    } else {
      EndedStaysEnded(p, s, n, m - 1);
    }
  }
}

/** The pipeline refines the sequential interpreter. */
module Refinement {
  import opened Words
  import opened Isa
  import opened Encoding
  import opened Alu
  import opened Programs
  import opened Storage
  import opened Interpreting
  import opened Stages

  // ---- The abstraction -------------------------------------------------------------

  /** The effect of finishing the accesses and writes already past EX. */
  datatype Completion = Complete(regs: Registers, mem: Memory) | Pending(regs: Registers, mem: Memory)

  /** MEM/WB completed, then EX/MEM completed on top of it. `Pending` when the access in
      EX/MEM is going to fault: then only the older instructions have taken effect. */
  function Completed(regs: Registers, mem: Memory, exmem: Latch, memwb: Latch): Completion
    requires Sane(exmem) && Sane(memwb)
  {
    var older := WriteBack(regs, memwb);
    match MemoryStage(mem, exmem)
    case Refused(_) => Pending(older, mem)
    case Accessed(next, mem') => Complete(WriteBack(older, next), mem')
  }

  /** The address of the oldest instruction that has not executed. */
  function AbstractPc(m: Machine): UInt32 {
    if !m.idex.bubble then m.idex.pc else if !m.ifid.bubble then m.ifid.pc else m.pc
  }

  /** The cycle-boundary state `m` stands for the interpreter state after `retired` steps. */
  predicate Refines(p: Program, s0: ArchState, m: Machine)
    requires Legal(m)
  {
    var n := m.stats.retired;
    match Completed(m.regs, m.mem, m.exmem, m.memwb)
    case Pending(regs, mem) =>
      AfterSteps(p, s0, n) == MemoryFault(ArchState(regs, mem, m.exmem.pc, n))
    case Complete(regs, mem) =>
      if m.fetchStopped then
        AfterSteps(p, s0, n).Halted? && AfterSteps(p, s0, n).s.(pc := 0) == ArchState(regs, mem, 0, n)
      else
        AfterSteps(p, s0, n) == Running(ArchState(regs, mem, AbstractPc(m), n))
  }

  // ---- The inductive invariant -----------------------------------------------------

  /** A latch holding a fetched instruction. */
  predicate FromCode(p: Program, l: Latch) {
    !l.bubble ==> Decodes(p, l.pc) && l.inst == InstAt(p, l.pc)
  }

  /** PCs are contiguous along ID/EX, IF/ID and the fetch PC; once fetching has stopped
      nothing is in flight before EX. */
  predicate Contiguous(m: Machine) {
    && (m.fetchStopped ==> m.ifid.bubble && m.idex.bubble)
    && (!m.ifid.bubble ==> m.pc == NextPc(m.ifid.pc))
    && (!m.idex.bubble && !m.ifid.bubble ==> m.ifid.pc == NextPc(m.idex.pc))
    && (!m.idex.bubble && m.ifid.bubble ==> m.pc == NextPc(m.idex.pc))
  }

  /** ID/EX carries the register values of the cycle boundary. */
  predicate OperandsCurrent(m: Machine)
    requires Legal(m)
  {
    !m.idex.bubble ==>
      && m.idex.aVal == ReadPort(m.regs, m.idex.ctrl.aReg)
      && m.idex.bVal == ReadPort(m.regs, m.idex.ctrl.bReg)
  }

  /** What the hazard unit guarantees for the instruction about to execute: with forwarding,
      no load directly ahead feeds it; without, no write it reads is in flight. */
  predicate HazardFree(forwarding: bool, m: Machine) {
    !m.idex.bubble ==>
      if forwarding then !(m.exmem.ctrl.memRead && Conflicts(m.idex.ctrl, m.exmem))
      else !Conflicts(m.idex.ctrl, m.exmem) && !Conflicts(m.idex.ctrl, m.memwb)
  }

  predicate Structure(p: Program, cfg: Config, m: Machine) {
    && Legal(m)
    && m.regs[0] == 0
    && FromCode(p, m.ifid) && FromCode(p, m.idex) && FromCode(p, m.exmem)
    && Contiguous(m)
    && OperandsCurrent(m)
    && HazardFree(cfg.forwarding, m)
  }

  predicate Inv(p: Program, cfg: Config, s0: ArchState, m: Machine) {
    Structure(p, cfg, m) && Refines(p, s0, m)
  }

  // ---- Operands --------------------------------------------------------------------

  /** The registers the instruction in EX must see. */
  function RegsForEx(m: Machine): Registers
    requires Legal(m)
  {
    Completed(m.regs, m.mem, m.exmem, m.memwb).regs
  }

  /** Forwarding, or its absence with a clear pipeline, delivers the sequential machine's
      register value for any port the instruction in EX reads. */
  lemma ForwardedValue(forwarding: bool, m: Machine, r: UInt8, fallback: Int32)
    requires Legal(m) && m.regs[0] == 0
    requires MemoryStage(m.mem, m.exmem).Accessed?
    requires r == NO_REG || r < NUM_REGISTERS
    requires fallback == ReadPort(m.regs, r)
    requires forwarding ==> !(m.exmem.ctrl.memRead && ReadsReg(r) && Writes(m.exmem, r))
    requires !forwarding ==> !(ReadsReg(r) && Writes(m.exmem, r)) && !(ReadsReg(r) && Writes(m.memwb, r))
    ensures ForwardValue(forwarding, r, fallback, m.exmem, m.memwb).0 == ReadPort(RegsForEx(m), r)
  {
  }

  lemma OperandCorrect(p: Program, cfg: Config, m: Machine)
    requires Structure(p, cfg, m) && !m.idex.bubble
    requires MemoryStage(m.mem, m.exmem).Accessed?
    ensures OperandA(cfg.forwarding, m).0 == ReadPort(RegsForEx(m), m.idex.ctrl.aReg)
    ensures OperandB(cfg.forwarding, m).0 == ReadPort(RegsForEx(m), m.idex.ctrl.bReg)
  {
    hide Decode;
    ForwardedValue(cfg.forwarding, m, m.idex.ctrl.aReg, m.idex.aVal);
    ForwardedValue(cfg.forwarding, m, m.idex.ctrl.bReg, m.idex.bVal);
  }

  // ---- EX simulates one step ---------------------------------------------------------

  /** `ex` is what one interpreter step does to (`regs`, `mem`), once it completes. */
  predicate SimulatesStep(ex: Executed, l: Latch, regs: Registers, mem: Memory, n: nat)
    requires RegistersInRange(l.inst)
  {
    && Sane(ex.next) && !ex.next.bubble && ex.next.inst == l.inst && ex.next.pc == l.pc
    && var s := ArchState(regs, mem, l.pc, n);
       var after := Completed(regs, mem, ex.next, BUBBLE);
       match Perform(l.inst, s)
       case MemoryFault(s') => s' == s && after == Pending(regs, mem) && !ex.flushYounger
       case Halted(s') => s' == s && after == Complete(regs, mem) && ex.flushYounger && ex.stopFetch
       case Running(s') =>
         && after == Complete(s'.regs, s'.mem) && s'.retired == n && !ex.stopFetch
         && s'.pc == if ex.flushYounger then ex.newPc else NextPc(l.pc)
       case _ => false
  }

  lemma AccessSimulates(l: Latch, regs: Registers, mem: Memory, n: nat)
    requires !l.bubble && Sane(l) && regs[0] == 0 && (IsLoad(l.inst.op) || IsStore(l.inst.op))
    ensures SimulatesStep(ExecuteWith(l, ReadPort(regs, l.ctrl.aReg), ReadPort(regs, l.ctrl.bReg)), l, regs, mem, n)
  {
    hide AluResult, BranchTaken, LoadWord, StoreWord;
    AddressArithmetic(regs[l.inst.rs], l.inst.imm);
  }

  lemma ArithmeticSimulates(l: Latch, regs: Registers, mem: Memory, n: nat)
    requires !l.bubble && Sane(l) && regs[0] == 0 && !IsLoad(l.inst.op) && !IsStore(l.inst.op)
    requires FormatOf(l.inst.op) == FormatR || FormatOf(l.inst.op) == FormatI
    ensures SimulatesStep(ExecuteWith(l, ReadPort(regs, l.ctrl.aReg), ReadPort(regs, l.ctrl.bReg)), l, regs, mem, n)
  {
    hide AluResult, BranchTaken, LoadWord, StoreWord, Accessible;
  }

  lemma TransferSimulates(l: Latch, regs: Registers, mem: Memory, n: nat)
    requires !l.bubble && Sane(l) && regs[0] == 0
    requires FormatOf(l.inst.op) == FormatB || FormatOf(l.inst.op) == FormatJ
    ensures SimulatesStep(ExecuteWith(l, ReadPort(regs, l.ctrl.aReg), ReadPort(regs, l.ctrl.bReg)), l, regs, mem, n)
  {
    hide AluResult, BranchTaken, LoadWord, StoreWord, Accessible;
  }

  /** Executing an instruction on the sequential machine's operand values and completing it
      is one interpreter step. */
  lemma ExecuteSimulates(l: Latch, regs: Registers, mem: Memory, n: nat)
    requires !l.bubble && Sane(l) && regs[0] == 0
    ensures SimulatesStep(ExecuteWith(l, ReadPort(regs, l.ctrl.aReg), ReadPort(regs, l.ctrl.bReg)), l, regs, mem, n)
  {
    hide SimulatesStep, ExecuteWith, ReadPort, Sane;
    if IsLoad(l.inst.op) || IsStore(l.inst.op) {
      AccessSimulates(l, regs, mem, n);
    } else if FormatOf(l.inst.op) == FormatR || FormatOf(l.inst.op) == FormatI {
      ArithmeticSimulates(l, regs, mem, n);
    } else {
      TransferSimulates(l, regs, mem, n);
    }
  }

  // ---- One cycle ---------------------------------------------------------------------

  /** A stall and a control transfer in the same cycle. */
  predicate Coincide(cfg: Config, m: Machine)
    requires Legal(m)
  {
    Stalls(cfg, m) && Execute(cfg.forwarding, m).flushYounger
  }

  /** The stall wins, and the transfer it discards was not to the next instruction. */
  predicate LosesRedirect(cfg: Config, m: Machine)
    requires Legal(m)
  {
    var ex := Execute(cfg.forwarding, m);
    Coincide(cfg, m) && !cfg.flushWins && (ex.stopFetch || ex.newPc != NextPc(m.idex.pc))
  }

  /** With forwarding a stall and a transfer never coincide: the stall needs a load in EX. */
  lemma ForwardingNeverCoincides(cfg: Config, m: Machine)
    requires Legal(m) && cfg.forwarding
    ensures !Coincide(cfg, m)
  {
  }

  /** EX fills in results; it keeps the instruction it executes. */
  lemma ExecuteKeepsInstruction(l: Latch, a: Int32, b: Int32)
    ensures var next := ExecuteWith(l, a, b).next;
      && next.bubble == l.bubble
      && (l.bubble ==> next == BUBBLE && !ExecuteWith(l, a, b).flushYounger)
      && (!l.bubble ==> next.inst == l.inst && next.pc == l.pc && next.ctrl == l.ctrl)
  {
  }

  lemma CodeStaysFetched(p: Program, cfg: Config, m: Machine)
    requires Structure(p, cfg, m) && Cycle(p, cfg, m).Next?
    ensures var m' := Cycle(p, cfg, m).m;
      FromCode(p, m'.ifid) && FromCode(p, m'.idex) && FromCode(p, m'.exmem) && Contiguous(m') && m'.regs[0] == 0
  {
    hide ExecuteWith, ForwardValue, DetectStall, Decode;
    ExecuteKeepsInstruction(m.idex, OperandA(cfg.forwarding, m).0, OperandB(cfg.forwarding, m).0);
  }

  lemma OperandsStayCurrent(p: Program, cfg: Config, m: Machine)
    requires Structure(p, cfg, m) && Cycle(p, cfg, m).Next?
    requires Legal(Cycle(p, cfg, m).m)
    ensures OperandsCurrent(Cycle(p, cfg, m).m)
  {
  }

  lemma HazardsStayResolved(p: Program, cfg: Config, m: Machine)
    requires Structure(p, cfg, m) && Cycle(p, cfg, m).Next?
    ensures HazardFree(cfg.forwarding, Cycle(p, cfg, m).m)
  {
    hide ForwardValue, ExecuteWith, Decode;
    ExecuteKeepsInstruction(m.idex, OperandA(cfg.forwarding, m).0, OperandB(cfg.forwarding, m).0);
  }

  /** Every cycle of every configuration keeps the structural invariant. */
  lemma StructurePreserved(p: Program, cfg: Config, m: Machine)
    requires Structure(p, cfg, m) && Cycle(p, cfg, m).Next?
    ensures Structure(p, cfg, Cycle(p, cfg, m).m)
  {
    CycleKeepsLegal(p, cfg, m);
    CodeStaysFetched(p, cfg, m);
    OperandsStayCurrent(p, cfg, m);
    HazardsStayResolved(p, cfg, m);
  }

  /** A cycle moves the completed state from EX/MEM and MEM/WB into the register file. */
  lemma CompletionShifts(p: Program, cfg: Config, m: Machine)
    requires Legal(m) && Cycle(p, cfg, m).Next?
    ensures var m' := Cycle(p, cfg, m).m;
      var now := Completed(m.regs, m.mem, m.exmem, m.memwb);
      now.Complete? && Legal(m') &&
      m'.exmem == Execute(cfg.forwarding, m).next &&
      Completed(m'.regs, m'.mem, m'.exmem, m'.memwb) == Completed(now.regs, now.mem, m'.exmem, BUBBLE)
  {
    hide ExecuteWith, ForwardValue, Decode, DetectStall;
    CycleKeepsLegal(p, cfg, m);
  }

  lemma RefinesWithoutExecute(p: Program, cfg: Config, s0: ArchState, m: Machine)
    requires Inv(p, cfg, s0, m) && Cycle(p, cfg, m).Next? && m.idex.bubble
    ensures Legal(Cycle(p, cfg, m).m) && Refines(p, s0, Cycle(p, cfg, m).m)
  {
    hide ExecuteWith, ForwardValue, Decode, Step;
    ExecuteKeepsInstruction(m.idex, OperandA(cfg.forwarding, m).0, OperandB(cfg.forwarding, m).0);
    CompletionShifts(p, cfg, m);
  }

  /** Where control goes after the instruction in EX, and how a lost redirect shows. */
  lemma ControlAfterExecute(p: Program, cfg: Config, m: Machine)
    requires Structure(p, cfg, m) && Cycle(p, cfg, m).Next? && !m.idex.bubble
    ensures
      var m' := Cycle(p, cfg, m).m;
      var ex := Execute(cfg.forwarding, m);
      var taken := ex.flushYounger && !(Coincide(cfg, m) && !cfg.flushWins);
      && m'.stats.retired == m.stats.retired + 1
      && m'.fetchStopped == (taken && ex.stopFetch)
      && (!m'.fetchStopped ==> AbstractPc(m') == if taken then ex.newPc else NextPc(m.idex.pc))
  {
  }

  /** The interpreter's step on the instruction in EX. */
  lemma StepOfExecuting(p: Program, s0: ArchState, m: Machine)
    requires Legal(m) && FromCode(p, m.idex) && !m.idex.bubble && Contiguous(m)
    requires Refines(p, s0, m)
    requires Completed(m.regs, m.mem, m.exmem, m.memwb).Complete?
    ensures
      var now := Completed(m.regs, m.mem, m.exmem, m.memwb);
      var n := m.stats.retired;
      && AfterSteps(p, s0, n) == Running(ArchState(now.regs, now.mem, m.idex.pc, n))
      && AfterSteps(p, s0, n + 1) == Perform(m.idex.inst, ArchState(now.regs, now.mem, m.idex.pc, n + 1))
  {
    hide Perform, Decode, Conflicts;
  }

  lemma RegsForExKeepZero(m: Machine)
    requires Legal(m) && m.regs[0] == 0
    ensures RegsForEx(m)[0] == 0
  {
  }

  lemma RefinesAfterExecute(p: Program, cfg: Config, s0: ArchState, m: Machine)
    requires Inv(p, cfg, s0, m) && Cycle(p, cfg, m).Next? && !m.idex.bubble
    ensures Legal(Cycle(p, cfg, m).m)
    ensures Refines(p, s0, Cycle(p, cfg, m).m) <==> !LosesRedirect(cfg, m)
  {
    var m', now := Cycle(p, cfg, m).m, Completed(m.regs, m.mem, m.exmem, m.memwb);
    CompletionShifts(p, cfg, m);
    ControlAfterExecute(p, cfg, m);
    StepOfExecuting(p, s0, m);
    ExecuteOnMachine(p, cfg, m);
    RefinementFromParts(p, s0, m', now, m.idex, m.stats.retired + 1, Execute(cfg.forwarding, m),
                        Execute(cfg.forwarding, m).flushYounger && !(Coincide(cfg, m) && !cfg.flushWins));
  }

  /** `ExecuteSimulates` for the instruction in EX of a machine. */
  lemma ExecuteOnMachine(p: Program, cfg: Config, m: Machine)
    requires Structure(p, cfg, m) && !m.idex.bubble
    requires MemoryStage(m.mem, m.exmem).Accessed?
    ensures
      var now := Completed(m.regs, m.mem, m.exmem, m.memwb);
      SimulatesStep(Execute(cfg.forwarding, m), m.idex, now.regs, now.mem, m.stats.retired + 1)
  {
    OperandCorrect(p, cfg, m);
    RegsForExKeepZero(m);
    ExecuteSimulates(m.idex, RegsForEx(m), Completed(m.regs, m.mem, m.exmem, m.memwb).mem, m.stats.retired + 1);
  }

  /** Combining the data and the control half of a step. */
  lemma RefinementFromParts(p: Program, s0: ArchState, m': Machine, now: Completion, l: Latch, n: nat, ex: Executed,
      taken: bool)
    requires Legal(m') && !l.bubble && RegistersInRange(l.inst)
    requires SimulatesStep(ex, l, now.regs, now.mem, n)
    requires m'.exmem == ex.next && m'.stats.retired == n
    requires Completed(m'.regs, m'.mem, m'.exmem, m'.memwb) == Completed(now.regs, now.mem, m'.exmem, BUBBLE)
    requires AfterSteps(p, s0, n) == Perform(l.inst, ArchState(now.regs, now.mem, l.pc, n))
    requires taken ==> ex.flushYounger
    requires m'.fetchStopped == (taken && ex.stopFetch)
    requires !m'.fetchStopped ==> AbstractPc(m') == if taken then ex.newPc else NextPc(l.pc)
    ensures Refines(p, s0, m') <==> (ex.flushYounger && !taken ==> !ex.stopFetch && ex.newPc == NextPc(l.pc))
  {
  }

  /** One cycle keeps the refinement, except exactly when it loses a redirect. */
  lemma CyclePreserves(p: Program, cfg: Config, s0: ArchState, m: Machine)
    requires Inv(p, cfg, s0, m) && Cycle(p, cfg, m).Next?
    ensures Structure(p, cfg, Cycle(p, cfg, m).m)
    ensures Inv(p, cfg, s0, Cycle(p, cfg, m).m) <==> !LosesRedirect(cfg, m)
  {
    StructurePreserved(p, cfg, m);
    if m.idex.bubble {
      RefinesWithoutExecute(p, cfg, s0, m);
    } else {
      RefinesAfterExecute(p, cfg, s0, m);
    }
  }
}

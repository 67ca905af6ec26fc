/** How many operands the forwarding unit delivers, from the interpreter's trace alone. */
module Forwarding {
  import opened Words
  import opened Isa
  import opened Encoding
  import opened Programs
  import opened Storage
  import opened Interpreting
  import opened Stages
  import opened Refinement
  import opened Runs
  import opened Timing
  import opened Schedule
  import opened Outcomes

  /** The register of the first and of the second operand port; r0 when the port reads none. */
  function FirstSource(i: Instruction): UInt8 {
    if FormatOf(i.op) == FormatJ then 0 else i.rs
  }

  function SecondSource(i: Instruction): UInt8 {
    match FormatOf(i.op)
    case FormatR => i.rt
    case FormatI => if IsStore(i.op) then i.rd else 0
    case FormatB => i.rt
    case FormatJ => 0
  }

  /** The `j`-th instruction leaves its result in `r`, and was in EX at most two cycles before the
      `n`-th is: the result is not in the register file yet when the `n`-th reads it. */
  predicate Supplies(cfg: Config, p: Program, regs: Registers, mem: Memory, j: int, n: nat, r: UInt8) {
    && j >= 1 && Executes(p, regs, mem, j) && Destination(Traced(p, regs, mem, j)) == r != 0
    && ExTime(cfg, p, regs, mem, n) - ExTime(cfg, p, regs, mem, j) <= 2
  }

  predicate Forwarded(cfg: Config, p: Program, regs: Registers, mem: Memory, n: nat, r: UInt8) {
    Supplies(cfg, p, regs, mem, n - 1, n, r) || Supplies(cfg, p, regs, mem, n - 2, n, r)
  }

  /** The forwarded operands of the first `n` instructions. */
  function ForwardTotal(cfg: Config, p: Program, regs: Registers, mem: Memory, n: nat): nat {
    if n == 0 then 0
    else
      ForwardTotal(cfg, p, regs, mem, n - 1) +
      if !Executes(p, regs, mem, n) then 0
      else
        Count(Forwarded(cfg, p, regs, mem, n, FirstSource(Traced(p, regs, mem, n)))) +
        Count(Forwarded(cfg, p, regs, mem, n, SecondSource(Traced(p, regs, mem, n))))
  }

  // ---- The two producing latches ---------------------------------------------------------------

  /** The latch holds the `n`-th instruction of the trace. */
  predicate Holds(p: Program, regs: Registers, mem: Memory, l: Latch, n: nat) {
    !l.bubble && Executes(p, regs, mem, n) && l.inst == Traced(p, regs, mem, n)
  }

  /** MEM/WB holds the instruction that was in EX one cycle before the boundary. */
  predicate OldestHeld(cfg: Config, p: Program, regs: Registers, mem: Memory, m: Machine) {
    var n, k := m.stats.retired, m.cycle;
    if n >= 1 && ExTime(cfg, p, regs, mem, n) == k - 1 then Holds(p, regs, mem, m.memwb, n)
    else if n >= 2 && ExTime(cfg, p, regs, mem, n - 1) == k - 1 then Holds(p, regs, mem, m.memwb, n - 1)
    else m.memwb.bubble
  }

  lemma WritesDestination(l: Latch, r: UInt8)
    requires !l.bubble && Sane(l) && r != 0
    ensures Writes(l, r) <==> Destination(l.inst) == r
  {
  }

  lemma PortsAreSources(i: Instruction, r: UInt8)
    requires RegistersInRange(i)
    ensures var c := MakeControl(i);
      && (ReadsReg(c.aReg) <==> FirstSource(i) != 0) && (ReadsReg(c.aReg) ==> c.aReg == FirstSource(i))
      && (ReadsReg(c.bReg) <==> SecondSource(i) != 0) && (ReadsReg(c.bReg) ==> c.bReg == SecondSource(i))
  {
  }

  /** With no load in EX/MEM that feeds the port, the unit delivers exactly when a write is in flight. */
  lemma DeliversIffInFlight(m: Machine, r: UInt8, fallback: Int32)
    requires ReadsReg(r) && Writes(m.exmem, r) ==> !m.exmem.ctrl.memRead
    ensures ForwardValue(true, r, fallback, m.exmem, m.memwb).1 <==>
      ReadsReg(r) && (Writes(m.exmem, r) || Writes(m.memwb, r))
  {
  }

  lemma PortsHazardFree(m: Machine)
    requires Legal(m) && HazardFree(true, m) && !m.idex.bubble
    ensures var c := m.idex.ctrl;
      && (ReadsReg(c.aReg) && Writes(m.exmem, c.aReg) ==> !m.exmem.ctrl.memRead)
      && (ReadsReg(c.bReg) && Writes(m.exmem, c.bReg) ==> !m.exmem.ctrl.memRead)
  {
  }

  /** A write is in flight exactly when the trace has it executed at most two cycles ago. */
  lemma InFlightIsForwarded(p: Program, cfg: Config, regs: Registers, mem: Memory, m: Machine, r: UInt8)
    requires Legal(m) && OldestHeld(cfg, p, regs, mem, m) && r != 0
    requires HoldsTraced(p, regs, mem, m.exmem, m.stats.retired)
    requires !m.exmem.bubble <==> m.stats.retired >= 1 && ExTime(cfg, p, regs, mem, m.stats.retired) == m.cycle
    requires m.stats.retired >= 1 ==> ExTime(cfg, p, regs, mem, m.stats.retired) <= m.cycle
    requires m.stats.retired >= 2 ==> Executes(p, regs, mem, m.stats.retired - 1)
    requires m.stats.retired >= 1 ==> Executes(p, regs, mem, m.stats.retired)
    requires ExTime(cfg, p, regs, mem, m.stats.retired + 1) == m.cycle + 1
    ensures Writes(m.exmem, r) || Writes(m.memwb, r) <==> Forwarded(cfg, p, regs, mem, m.stats.retired + 1, r)
  {
    hide ExTime, Executes, Traced, Writes, Destination, Sane;
    var n := m.stats.retired;
    if n >= 2 { ExTimeIncreases(cfg, p, regs, mem, n); }
    if !m.exmem.bubble { WritesDestination(m.exmem, r); } else { BubbleWritesNothing(m.exmem, r); }
    if !m.memwb.bubble { WritesDestination(m.memwb, r); } else { BubbleWritesNothing(m.memwb, r); }
  }

  lemma BubbleWritesNothing(l: Latch, r: UInt8)
    requires l.bubble
    ensures !Writes(l, r)
  {
  }

  // ---- One cycle -----------------------------------------------------------------------------------

  /** Everything executed so far is in the trace. */
  lemma ExecutedSoFar(p: Program, regs: Registers, mem: Memory, i: nat, n: nat)
    requires 1 <= i <= n && Oracle(p, regs, mem, n).Running?
    ensures Executes(p, regs, mem, i)
  {
    hide Perform;
    RunningBefore(p, regs, mem, i, n);
    RunningBefore(p, regs, mem, i - 1, n);
  }

  lemma OldestStaysHeld(p: Program, cfg: Config, regs: Registers, mem: Memory, m: Machine, m': Machine)
    requires Legal(m) && cfg.forwarding
    requires OnSchedule(p, cfg, regs, mem, m) && !(m.fetchStopped && !m.idex.bubble)
    requires !m.idex.bubble ==> ExTime(cfg, p, regs, mem, m.stats.retired + 1) == m.cycle + 1
    requires m'.memwb.bubble == m.exmem.bubble && (!m.exmem.bubble ==> m'.memwb.inst == m.exmem.inst)
    requires m'.cycle == m.cycle + 1 && m'.stats.retired == m.stats.retired + Count(!m.idex.bubble)
    ensures OldestHeld(cfg, p, regs, mem, m')
  {
    hide ExTime, Executes, Traced, Stalls, MemoryStage, CodeBytes;
    if m.stats.retired >= 1 { ExTimeIncreases(cfg, p, regs, mem, m.stats.retired); }
  }

  lemma MemwbFollows(p: Program, cfg: Config, m: Machine)
    requires Legal(m) && Cycle(p, cfg, m).Next?
    ensures var m' := Cycle(p, cfg, m).m;
      && m'.memwb.bubble == m.exmem.bubble && (!m.exmem.bubble ==> m'.memwb.inst == m.exmem.inst)
      && m'.cycle == m.cycle + 1 && m'.stats.retired == m.stats.retired + Count(!m.idex.bubble)
      && m'.stats.forwards == m.stats.forwards +
           if m.idex.bubble then 0 else Count(OperandA(cfg.forwarding, m).1) + Count(OperandB(cfg.forwarding, m).1)
  {
    hide ExecuteWith, OperandA, OperandB, DetectStall, WriteBack, DecodeStage, FetchStage, Decode;
  }

  predicate ForwardsExact(p: Program, cfg: Config, regs: Registers, mem: Memory, m: Machine) {
    m.stats.forwards == if cfg.forwarding then ForwardTotal(cfg, p, regs, mem, m.stats.retired) else 0
  }

  lemma NothingForwarded(cfg: Config, m: Machine)
    requires !cfg.forwarding
    ensures !OperandA(cfg.forwarding, m).1 && !OperandB(cfg.forwarding, m).1
  {
  }

  /** The forwarding unit delivers exactly the operands the trace says. */
  lemma DeliveriesOfCycle(p: Program, regs: Registers, mem: Memory, cfg: Config, m: Machine)
    requires cfg.forwarding && Inv(p, cfg, StartState(regs, mem), m) && OnSchedule(p, cfg, regs, mem, m)
    requires OldestHeld(cfg, p, regs, mem, m) && !m.idex.bubble && MemoryStage(m.mem, m.exmem).Accessed?
    ensures
      var n := m.stats.retired + 1;
      && Executes(p, regs, mem, n) && Traced(p, regs, mem, n) == m.idex.inst &&
        ExTime(cfg, p, regs, mem, n) == m.cycle + 1
      && (OperandA(true, m).1 <==> Forwarded(cfg, p, regs, mem, n, FirstSource(m.idex.inst)))
      && (OperandB(true, m).1 <==> Forwarded(cfg, p, regs, mem, n, SecondSource(m.idex.inst)))
  {
    hide ExTime, Executes, Traced, Refines, Forwarded, OldestHeld, Writes, Destination, MakeControl, ForwardValue,
      Execute, Conflicts,
      FirstSource, SecondSource, MemoryStage, CodeBytes, OperandsCurrent, Transfers, Stalls, FromCode, Completed,
      Oracle;
    var n, c := m.stats.retired, m.idex.ctrl;
    FlushIsTransfer(p, cfg, regs, mem, m);
    CompleteIffAccessed(m);
    NextTraced(p, regs, mem, m);
    if n >= 1 { ExecutedSoFar(p, regs, mem, n, n); }
    if n >= 2 { ExecutedSoFar(p, regs, mem, n - 1, n); }
    PortsHazardFree(m);
    PortsAreSources(m.idex.inst, c.aReg);
    DeliversIffInFlight(m, c.aReg, m.idex.aVal);
    DeliversIffInFlight(m, c.bReg, m.idex.bVal);
    if ReadsReg(c.aReg) {
      InFlightIsForwarded(p, cfg, regs, mem, m, c.aReg);
    } else {
      ZeroNeverForwarded(cfg, p, regs, mem, n + 1);
    }
    if ReadsReg(c.bReg) {
      InFlightIsForwarded(p, cfg, regs, mem, m, c.bReg);
    } else {
      ZeroNeverForwarded(cfg, p, regs, mem, n + 1);
    }
  }

  lemma ZeroNeverForwarded(cfg: Config, p: Program, regs: Registers, mem: Memory, n: nat)
    ensures !Forwarded(cfg, p, regs, mem, n, 0)
  {
  }

  lemma CycleForwards(p: Program, cfg: Config, regs: Registers, mem: Memory, m: Machine)
    requires Inv(p, cfg, StartState(regs, mem), m) && OnSchedule(p, cfg, regs, mem, m)
    requires Cycle(p, cfg, m).Next?
    requires ForwardsExact(p, cfg, regs, mem, m) && (cfg.forwarding ==> OldestHeld(cfg, p, regs, mem, m))
    ensures var m' := Cycle(p, cfg, m).m;
      ForwardsExact(p, cfg, regs, mem, m') && (cfg.forwarding ==> OldestHeld(cfg, p, regs, mem, m'))
  {
    hide Cycle, ExTime, Executes, Traced, Refines, Forwarded, OldestHeld, OperandA, OperandB, OnSchedule, FromCode,
      OperandsCurrent,
      HazardFree, FirstSource, SecondSource;
    MemwbFollows(p, cfg, m);
    NextKeepsAccess(p, cfg, m);
    if cfg.forwarding {
      if !m.idex.bubble { DeliveriesOfCycle(p, regs, mem, cfg, m); }
      OldestStaysHeld(p, cfg, regs, mem, m, Cycle(p, cfg, m).m);
    } else {
      NothingForwarded(cfg, m);
    }
  }

  // ---- Whole runs -----------------------------------------------------------------------------------

  /** Nothing is said of a run that threw on an undecodable word. */
  predicate ForwardsKnown(p: Program, cfg: Config, regs: Registers, mem: Memory, b: Boundary) {
    b.BadFetch? || (
      && ForwardsExact(p, cfg, regs, mem, b.m)
      && (b.Alive? && cfg.forwarding ==> OldestHeld(cfg, p, regs, mem, b.m)))
  }

  lemma AfterCycleForwards(p: Program, cfg: Config, regs: Registers, mem: Memory, m: Machine)
    requires Inv(p, cfg, StartState(regs, mem), m) && OnSchedule(p, cfg, regs, mem, m)
    requires ForwardsKnown(p, cfg, regs, mem, Alive(m))
    ensures ForwardsKnown(p, cfg, regs, mem, AfterCycle(p, cfg, m))
  {
    hide Structure, Refines, OnSchedule, OldestHeld, ForwardTotal, Commit, Drained, MemoryStage, WriteBack, Stalls,
      Decode;
    StructureIsLegal(p, cfg, m);
    if Cycle(p, cfg, m).Next? { CycleForwards(p, cfg, regs, mem, m); }
  }

  /** The `forwards` counter of any run that loses no redirect: with forwarding it is the number of operands of the
      executed instructions whose producer was in EX at most two cycles earlier; without, zero. */
  lemma {:induction false} ForwardsCounted(p: Program, cfg: Config, regs: Registers, mem: Memory, k: nat)
    requires regs[0] == 0 && NeverLoses(p, cfg, regs, mem, k)
    ensures ForwardsKnown(p, cfg, regs, mem, Run(p, cfg, regs, mem, k))
  {
    hide ForwardsKnown, AfterCycle, Structure, Refines, NeverLoses, OnSchedule, CountersExact, ExTime, Agrees;
    if k == 0 {
      StartForwards(p, cfg, regs, mem);
    } else {
      NeverLosesBefore(p, cfg, regs, mem, k - 1, k);
      ForwardsCounted(p, cfg, regs, mem, k - 1);
      OrderlyBoundary(p, cfg, regs, mem, k - 1);
      var before := Run(p, cfg, regs, mem, k - 1);
      if before.Alive? {
        AgreesIsRefines(p, regs, mem, before);
        AfterCycleForwards(p, cfg, regs, mem, before.m);
      }
    }
  }

  lemma StartForwards(p: Program, cfg: Config, regs: Registers, mem: Memory)
    requires regs[0] == 0
    ensures ForwardsKnown(p, cfg, regs, mem, Run(p, cfg, regs, mem, 0))
  {
    hide ExTime;
    assert Run(p, cfg, regs, mem, 0) == Alive(Start(regs, mem));
  }
}

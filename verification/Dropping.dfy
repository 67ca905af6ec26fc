/** What the pipeline computes in every configuration, lost redirects included: a sequential interpreter
    that drops a redirect whenever the instruction behind it stalls. */
module Dropping {
  import opened Words
  import opened Isa
  import opened Results
  import opened Programs
  import opened Storage
  import opened Interpreting
  import opened Stages
  import opened Refinement
  import opened Runs
  import opened Timing
  import opened Schedule

  // ---- The dropping interpreter ------------------------------------------------------------------

  /** A run of it: besides the outcome it keeps `ahead`, the instruction before the next one if the next
      one follows it without a gap, so that its result is still on the way. */
  datatype Paced = Paced(r: Progress, ahead: Option<Instruction>)

  /** The instruction behind address `pc` stalls while `inst`, at `pc`, is in EX. */
  predicate StallsBehind(cfg: Config, p: Program, inst: Instruction, pc: UInt32, ahead: Option<Instruction>) {
    && Decodes(p, NextPc(pc))
    && var behind := InstAt(p, NextPc(pc));
       if cfg.forwarding then IsLoad(inst.op) && Feeds(inst, behind)
       else Feeds(inst, behind) || (ahead.Some? && Feeds(ahead.value, behind))
  }

  /** The instruction sends control elsewhere, or ends the program. */
  predicate Requests(inst: Instruction, regs: Registers)
    requires RegistersInRange(inst)
  {
    inst.op == RET || Redirects(inst, regs)
  }

  /** One step: the interpreter's, except that a stall drops a request unless the flush wins. */
  function PacedStep(cfg: Config, p: Program, s: ArchState, ahead: Option<Instruction>): Paced {
    var r := Step(p, s);
    if !Decodes(p, s.pc) then Paced(r, None)
    else
      var inst := InstAt(p, s.pc);
      var stalls, requests := StallsBehind(cfg, p, inst, s.pc, ahead), Requests(inst, s.regs);
      Paced(if requests && stalls && !cfg.flushWins then Running(r.s.(pc := NextPc(s.pc))) else r,
            if stalls || requests || !Decodes(p, NextPc(s.pc)) then None else Some(inst))
  }

  function AfterPaced(cfg: Config, p: Program, s0: ArchState, n: nat): Paced {
    if n == 0 then Paced(Running(s0), None)
    else
      var before := AfterPaced(cfg, p, s0, n - 1);
      if before.r.Running? then PacedStep(cfg, p, before.r.s, before.ahead) else before
  }

  lemma LoadRequestsNothing(inst: Instruction, regs: Registers)
    requires RegistersInRange(inst) && IsLoad(inst.op)
    ensures !Requests(inst, regs)
  {
  }

  /** In a sound configuration it is the interpreter. */
  lemma {:induction false} PacedIsOracle(cfg: Config, p: Program, regs: Registers, mem: Memory, n: nat)
    requires Sound(cfg)
    ensures AfterPaced(cfg, p, StartState(regs, mem), n).r == Oracle(p, regs, mem, n)
  {
    hide Step, Requests, Decodes;
    if n == 0 {
    } else {
      PacedIsOracle(cfg, p, regs, mem, n - 1);
      var s := Oracle(p, regs, mem, n - 1).s;
      if Decodes(p, s.pc) && IsLoad(InstAt(p, s.pc).op) { LoadRequestsNothing(InstAt(p, s.pc), s.regs); }
    }
  }

  // ---- The refinement -------------------------------------------------------------------------------

  /** The instruction in EX/MEM, if the one in ID/EX follows it without a gap. */
  function AheadOf(m: Machine): Option<Instruction> {
    if m.idex.bubble || m.exmem.bubble then None else Some(m.exmem.inst)
  }

  /** The boundary state stands for the dropping interpreter after `retired` steps. */
  predicate PacedRefines(cfg: Config, p: Program, s0: ArchState, m: Machine)
    requires Legal(m)
  {
    var n := m.stats.retired;
    var d := AfterPaced(cfg, p, s0, n);
    match Completed(m.regs, m.mem, m.exmem, m.memwb)
    case Pending(regs, mem) => d.r == MemoryFault(ArchState(regs, mem, m.exmem.pc, n))
    case Complete(regs, mem) =>
      if m.fetchStopped then d.r.Halted? && d.r.s.(pc := 0) == ArchState(regs, mem, 0, n)
      else d == Paced(Running(ArchState(regs, mem, AbstractPc(m), n)), AheadOf(m))
  }

  /** Nothing is missing from IF/ID behind an instruction in EX but the end of the code. */
  predicate FetchedBehind(p: Program, m: Machine) {
    !m.idex.bubble && m.ifid.bubble ==> m.pc >= CodeBytes(p)
  }

  /** The hazard unit stalls as the dropping interpreter says. */
  lemma StallsAreBehind(p: Program, cfg: Config, m: Machine)
    requires Structure(p, cfg, m) && FetchedBehind(p, m) && !m.idex.bubble
    ensures Stalls(cfg, m) <==> StallsBehind(cfg, p, m.idex.inst, m.idex.pc, AheadOf(m))
  {
    hide Feeds, Conflicts, MakeControl, OperandsCurrent, HazardFree;
    if !m.ifid.bubble {
      ConflictsIsFeeds(m.idex, m.ifid.inst);
      if m.exmem.bubble {
        NothingInFlight(MakeControl(m.ifid.inst), m.exmem);
      } else {
        ConflictsIsFeeds(m.exmem, m.ifid.inst);
      }
    }
  }

  lemma RequestIsFlush(p: Program, cfg: Config, m: Machine)
    requires Structure(p, cfg, m) && !m.idex.bubble && MemoryStage(m.mem, m.exmem).Accessed?
    ensures var ex := Execute(cfg.forwarding, m);
      && (ex.flushYounger <==> Requests(m.idex.inst, RegsForEx(m)))
      && (ex.stopFetch <==> m.idex.inst.op == RET)
  {
    hide ExecuteWith, Redirects, MemoryStage, RegsForEx, HazardFree, OperandsCurrent;
    OperandCorrect(p, cfg, m);
    FlushIsRedirect(m.idex, RegsForEx(m));
  }

  lemma PacedWithoutExecute(p: Program, cfg: Config, s0: ArchState, m: Machine)
    requires Structure(p, cfg, m) && PacedRefines(cfg, p, s0, m) && Cycle(p, cfg, m).Next? && m.idex.bubble
    ensures Legal(Cycle(p, cfg, m).m) && PacedRefines(cfg, p, s0, Cycle(p, cfg, m).m)
  {
    hide ExecuteWith, ForwardValue, AfterPaced;
    ExecuteKeepsInstruction(m.idex, OperandA(cfg.forwarding, m).0, OperandB(cfg.forwarding, m).0);
    CompletionShifts(p, cfg, m);
  }

  /** The dropping interpreter's step on the instruction in EX. */
  lemma PacedExecuting(p: Program, cfg: Config, s0: ArchState, m: Machine)
    requires Structure(p, cfg, m) && PacedRefines(cfg, p, s0, m) && !m.idex.bubble
    requires Completed(m.regs, m.mem, m.exmem, m.memwb).Complete?
    ensures
      var now, n := Completed(m.regs, m.mem, m.exmem, m.memwb), m.stats.retired;
      var s := ArchState(now.regs, now.mem, m.idex.pc, n);
      && AfterPaced(cfg, p, s0, n + 1) == PacedStep(cfg, p, s, AheadOf(m))
      && Step(p, s) == Perform(m.idex.inst, s.(retired := n + 1))
      && Decodes(p, s.pc) && InstAt(p, s.pc) == m.idex.inst
  {
    hide Step, Perform, PacedStep, HazardFree, OperandsCurrent, Completed, AfterPaced, Decodes;
    var now := Completed(m.regs, m.mem, m.exmem, m.memwb);
    AfterPacedSteps(cfg, p, s0, m.stats.retired);
    StepPerforms(p, ArchState(now.regs, now.mem, m.idex.pc, m.stats.retired));
  }

  lemma AfterPacedSteps(cfg: Config, p: Program, s0: ArchState, n: nat)
    requires AfterPaced(cfg, p, s0, n).r.Running?
    ensures var d := AfterPaced(cfg, p, s0, n); AfterPaced(cfg, p, s0, n + 1) == PacedStep(cfg, p, d.r.s, d.ahead)
  {
    hide PacedStep;
  }

  /** What a cycle with an instruction in EX leaves in ID/EX and EX/MEM. */
  lemma AheadAfter(p: Program, cfg: Config, m: Machine)
    requires Structure(p, cfg, m) && FetchedBehind(p, m) && Cycle(p, cfg, m).Next? && !m.idex.bubble
    ensures
      var m', ex := Cycle(p, cfg, m).m, Execute(cfg.forwarding, m);
      AheadOf(m') == if Stalls(cfg, m) || ex.flushYounger || !Decodes(p, NextPc(m.idex.pc)) then None
                     else Some(m.idex.inst)
  {
    hide OperandA, OperandB, Conflicts, MemoryStage, WriteBack, MakeControl, OperandsCurrent, HazardFree;
    ExecuteKeepsInstruction(m.idex, OperandA(cfg.forwarding, m).0, OperandB(cfg.forwarding, m).0);
    ExecuteIs(cfg.forwarding, m);
  }

  /** Combining the data and the control half of a step. */
  lemma PacedFromParts(cfg: Config, p: Program, s0: ArchState, m': Machine, now: Completion, l: Latch, n: nat,
      ex: Executed,
      ahead: Option<Instruction>, stalls: bool)
    requires Legal(m') && !l.bubble && RegistersInRange(l.inst)
    requires SimulatesStep(ex, l, now.regs, now.mem, n + 1)
    requires m'.exmem == ex.next && m'.stats.retired == n + 1
    requires Completed(m'.regs, m'.mem, m'.exmem, m'.memwb) == Completed(now.regs, now.mem, m'.exmem, BUBBLE)
    requires
      var s := ArchState(now.regs, now.mem, l.pc, n);
      && Step(p, s) == Perform(l.inst, s.(retired := n + 1)) && Decodes(p, l.pc) && InstAt(p, l.pc) == l.inst
      && AfterPaced(cfg, p, s0, n + 1) == PacedStep(cfg, p, s, ahead)
    requires stalls == StallsBehind(cfg, p, l.inst, l.pc, ahead)
    requires ex.flushYounger <==> Requests(l.inst, now.regs)
    requires var taken := ex.flushYounger && !(stalls && !cfg.flushWins);
      && m'.fetchStopped == (taken && ex.stopFetch)
      && (!m'.fetchStopped ==> AbstractPc(m') == if taken then ex.newPc else NextPc(l.pc))
    requires AheadOf(m') == if stalls || ex.flushYounger || !Decodes(p, NextPc(l.pc)) then None else Some(l.inst)
    ensures PacedRefines(cfg, p, s0, m')
  {
    hide Perform, Step, StallsBehind, Decodes, AfterPaced, AheadOf, AbstractPc, Requests, Completed;
  }

  lemma PacedAfterExecute(p: Program, cfg: Config, s0: ArchState, m: Machine)
    requires Structure(p, cfg, m) && FetchedBehind(p, m) && PacedRefines(cfg, p, s0, m)
    requires Cycle(p, cfg, m).Next? && !m.idex.bubble
    ensures Legal(Cycle(p, cfg, m).m) && PacedRefines(cfg, p, s0, Cycle(p, cfg, m).m)
  {
    hide Execute, Structure, PacedRefines, Stalls, Perform, Step, PacedStep, AfterPaced, SimulatesStep, AheadOf,
      AbstractPc,
      StallsBehind, Requests, Cycle, WriteBack, MemoryStage;
    StructureIsLegal(p, cfg, m);
    var m', now := Cycle(p, cfg, m).m, Completed(m.regs, m.mem, m.exmem, m.memwb);
    InstructionLegal(p, cfg, m);
    NextKeepsAccess(p, cfg, m);
    CompletionShifts(p, cfg, m);
    ControlAfterExecute(p, cfg, m);
    PacedExecuting(p, cfg, s0, m);
    ExecuteOnMachine(p, cfg, m);
    StallsAreBehind(p, cfg, m);
    RequestIsFlush(p, cfg, m);
    AheadAfter(p, cfg, m);
    PacedFromParts(cfg, p, s0, m', now, m.idex, m.stats.retired, Execute(cfg.forwarding, m), AheadOf(m),
      Stalls(cfg, m));
  }

  lemma InstructionLegal(p: Program, cfg: Config, m: Machine)
    requires Structure(p, cfg, m) && !m.idex.bubble
    ensures RegistersInRange(m.idex.inst)
  {
  }

  // ---- Whole runs --------------------------------------------------------------------------------------

  /** Agreement of a boundary with the dropping interpreter. */
  predicate PacedAgrees(cfg: Config, p: Program, regs: Registers, mem: Memory, b: Boundary) {
    var n := b.m.stats.retired;
    var r := AfterPaced(cfg, p, StartState(regs, mem), n).r;
    match b
    case Alive(m) => Legal(m) && PacedRefines(cfg, p, StartState(regs, mem), m)
    case Finished(m) => r.Halted? && r.s.(pc := 0) == ArchState(m.regs, m.mem, 0, n)
    case Faulted(m) => r == MemoryFault(ArchState(m.regs, m.mem, m.exmem.pc, n))
    case BadFetch(_) => false
  }

  lemma PacedFault(p: Program, cfg: Config, regs: Registers, mem: Memory, m: Machine)
    requires Structure(p, cfg, m) && PacedRefines(cfg, p, StartState(regs, mem), m) && Cycle(p, cfg, m).Refusing?
    ensures PacedAgrees(cfg, p, regs, mem, AfterCycle(p, cfg, m))
  {
    hide Execute, DetectStall, DecodeStage, FetchStage, FromCode, Contiguous, HazardFree, AfterPaced;
  }

  lemma PacedSettles(p: Program, cfg: Config, regs: Registers, mem: Memory, m: Machine)
    requires Legal(m) && PacedRefines(cfg, p, StartState(regs, mem), m)
    ensures PacedAgrees(cfg, p, regs, mem, Settle(m))
  {
    hide AfterPaced;
  }

  lemma CyclePaced(p: Program, cfg: Config, regs: Registers, mem: Memory, m: Machine)
    requires Structure(p, cfg, m) && FetchedBehind(p, m) && PacedRefines(cfg, p, StartState(regs, mem), m)
    ensures var b := AfterCycle(p, cfg, m); b.BadFetch? || PacedAgrees(cfg, p, regs, mem, b)
  {
    hide Cycle, Structure, PacedRefines, PacedAgrees, Settle;
    StructureIsLegal(p, cfg, m);
    match Cycle(p, cfg, m)
    case Next(m') =>
      if m.idex.bubble {
        PacedWithoutExecute(p, cfg, StartState(regs, mem), m);
      } else {
        PacedAfterExecute(p, cfg, StartState(regs, mem), m);
      }
      PacedSettles(p, cfg, regs, mem, m');
    case Refusing(_) => PacedFault(p, cfg, regs, mem, m);
    case Undecodable(_) =>
  }

  lemma PacedStart(p: Program, cfg: Config, regs: Registers, mem: Memory)
    ensures PacedAgrees(cfg, p, regs, mem, Run(p, cfg, regs, mem, 0))
  {
  }

  lemma AccountedBehind(p: Program, m: Machine)
    requires Accounted(p, m)
    ensures FetchedBehind(p, m)
  {
  }

  lemma PacedAlive(cfg: Config, p: Program, regs: Registers, mem: Memory, b: Boundary)
    requires PacedAgrees(cfg, p, regs, mem, b) && b.Alive?
    ensures Legal(b.m) && PacedRefines(cfg, p, StartState(regs, mem), b.m)
  {
    hide PacedRefines;
  }

  /** The meaning of the code as written, in both modes and for every program: at every boundary the
      pipeline stands for the dropping interpreter after `retired` steps, unless the fetch has thrown on
      an undecodable word. No redirect need be kept for this. */
  lemma {:induction false} PipelineRefinesDropping(p: Program, cfg: Config, regs: Registers, mem: Memory, k: nat)
    requires regs[0] == 0
    ensures var b := Run(p, cfg, regs, mem, k); PacedAgrees(cfg, p, regs, mem, b) <==> !b.BadFetch?
  {
    hide PacedAgrees, AfterCycle, Structure, Accounted, PacedRefines, FetchedBehind;
    var b := Run(p, cfg, regs, mem, k);
    if k == 0 {
      PacedStart(p, cfg, regs, mem);
    } else {
      PipelineRefinesDropping(p, cfg, regs, mem, k - 1);
      CyclesBalance(p, cfg, regs, mem, k - 1);
      var before := Run(p, cfg, regs, mem, k - 1);
      if before.Alive? {
        AccountedBehind(p, before.m);
        PacedAlive(cfg, p, regs, mem, before);
        CyclePaced(p, cfg, regs, mem, before.m);
      }
    }
    if b.BadFetch? { ThrowsNeverAgree(cfg, p, regs, mem, b); }
  }

  lemma ThrowsNeverAgree(cfg: Config, p: Program, regs: Registers, mem: Memory, b: Boundary)
    requires b.BadFetch?
    ensures !PacedAgrees(cfg, p, regs, mem, b)
  {
  }
}

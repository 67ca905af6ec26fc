/** Timing of whole runs: when a run drains, faults or goes on, to the cycle. */
module Schedule {
  import opened Encoding
  import opened Alu
  import opened Programs
  import opened Storage
  import opened Stages
  import opened Refinement
  import opened Runs
  import opened Timing

  // ---- Cycle accounting, in every configuration -------------------------------------------

  /** Cycles spent against instructions executed, stalls and flush penalties. What is left over is
      the fill of the pipeline, or its drain after `ret`. */
  predicate Accounted(p: Program, m: Machine) {
    var slack := m.cycle - m.stats.retired - m.stats.stallCycles - m.stats.flushBubbles;
    && m.stats.cycles == m.cycle
    && (!m.idex.bubble && m.ifid.bubble ==> m.pc >= CodeBytes(p))
    && (m.fetchStopped ==> m.ifid.bubble && m.idex.bubble)
    && if m.fetchStopped then slack == if !m.exmem.bubble then 2 else if !m.memwb.bubble then 3 else 4
       else if !m.idex.bubble then slack == 2
       else if !m.ifid.bubble then slack == 1
       else m.pc < CodeBytes(p) ==> slack == 0
  }

  lemma CycleAccounted(p: Program, cfg: Config, m: Machine)
    requires Structure(p, cfg, m) && Accounted(p, m) && !Drained(m)
    requires Cycle(p, cfg, m).Next?
    ensures Accounted(p, Cycle(p, cfg, m).m)
  {
    hide Execute, Commit, FromCode, HazardFree, OperandsCurrent, Decode, Conflicts;
    CycleSteps(p, cfg, m);
    FlushShape(cfg, m);
  }

  /** A transfer is either a counted redirect or a `ret`. */
  lemma FlushShape(cfg: Config, m: Machine)
    requires Legal(m)
    ensures var ex := Execute(cfg.forwarding, m);
      (ex.flushYounger <==> ex.countFlush || ex.stopFetch) && !(ex.countFlush && ex.stopFetch)
      && ex.next.bubble == m.idex.bubble
  {
    hide AluResult, BranchTaken, ForwardValue;
  }

  /** The books balance whenever a run is alive, whatever the configuration; a run that has
      finished spent exactly four cycles beyond its instructions, stalls and penalties. */
  predicate Balanced(p: Program, b: Boundary) {
    match b
    case Alive(m) => Accounted(p, m)
    case Finished(m) =>
      m.stats.cycles == m.cycle == m.stats.retired + m.stats.stallCycles + m.stats.flushBubbles + 4
    case _ => true
  }

  predicate Sturdy(p: Program, cfg: Config, b: Boundary) {
    b.Alive? ==> Structure(p, cfg, b.m) && !Drained(b.m)
  }

  lemma StartBalanced(p: Program, cfg: Config, regs: Registers, mem: Memory)
    requires regs[0] == 0
    ensures Sturdy(p, cfg, Run(p, cfg, regs, mem, 0)) && Balanced(p, Run(p, cfg, regs, mem, 0))
  {
  }

  lemma NextBalanced(p: Program, cfg: Config, m: Machine)
    requires Structure(p, cfg, m) && Accounted(p, m) && !Drained(m)
    ensures Sturdy(p, cfg, AfterCycle(p, cfg, m)) && Balanced(p, AfterCycle(p, cfg, m))
  {
    hide Cycle, Contiguous, HazardFree, OperandsCurrent, FromCode;
    if Cycle(p, cfg, m).Next? {
      StructurePreserved(p, cfg, m);
      CycleAccounted(p, cfg, m);
    }
  }

  /** Closed-form timing: `cycles == retired + stallCycles + flushBubbles + 4` for every run that
      drains, with or without forwarding, under either arbitration. */
  lemma {:induction false} CyclesBalance(p: Program, cfg: Config, regs: Registers, mem: Memory, k: nat)
    requires regs[0] == 0
    ensures Sturdy(p, cfg, Run(p, cfg, regs, mem, k)) && Balanced(p, Run(p, cfg, regs, mem, k))
  {
    hide Accounted, Structure, AfterCycle, Drained;
    if k == 0 {
      StartBalanced(p, cfg, regs, mem);
    } else {
      CyclesBalance(p, cfg, regs, mem, k - 1);
      var before := Run(p, cfg, regs, mem, k - 1);
      if before.Alive? { NextBalanced(p, cfg, before.m); }
    }
  }

  // ---- The schedule of a run ---------------------------------------------------------------

  /** What the boundary shows of the schedule, unless the run threw on an undecodable word. */
  predicate Timed(p: Program, cfg: Config, regs: Registers, mem: Memory, b: Boundary) {
    var last := ExTime(cfg, p, regs, mem, b.m.stats.retired);
    b.BadFetch? || (
      && CountersExact(p, cfg, regs, mem, b.m)
      && match b
         case Alive(m) => Legal(m) && OnSchedule(p, cfg, regs, mem, m)
         case Finished(m) => m.cycle == last + 2
         case Faulted(m) => m.cycle == last + 1
         case BadFetch(_) => false)
  }

  lemma StartTimed(p: Program, cfg: Config, regs: Registers, mem: Memory)
    requires regs[0] == 0
    ensures Timed(p, cfg, regs, mem, Run(p, cfg, regs, mem, 0))
  {
    hide LoadUse, Depends;
    assert !Transfers(p, regs, mem, 0);
    var m := Start(regs, mem);
    assert Run(p, cfg, regs, mem, 0) == Alive(m);
    FirstExTime(cfg, p, regs, mem);
  }

  lemma FirstExTime(cfg: Config, p: Program, regs: Registers, mem: Memory)
    ensures ExTime(cfg, p, regs, mem, 1) == 3
  {
  }

  lemma SettleTimed(p: Program, cfg: Config, regs: Registers, mem: Memory, m: Machine)
    requires Legal(m) && OnSchedule(p, cfg, regs, mem, m) && CountersExact(p, cfg, regs, mem, m)
    ensures Timed(p, cfg, regs, mem, Settle(m))
  {
    hide ExTime, HoldsTraced, CountersExact;
  }

  lemma FaultTimed(p: Program, cfg: Config, regs: Registers, mem: Memory, m: Machine)
    requires Legal(m) && OnSchedule(p, cfg, regs, mem, m) && CountersExact(p, cfg, regs, mem, m)
    requires Cycle(p, cfg, m).Refusing?
    ensures Timed(p, cfg, regs, mem, Faulted(Cycle(p, cfg, m).m))
  {
    hide ExTime, HoldsTraced, Commit, Stalls, Decode, DivertCount;
  }

  lemma CycleTimed(p: Program, cfg: Config, regs: Registers, mem: Memory, m: Machine)
    requires Inv(p, cfg, StartState(regs, mem), m) && Timed(p, cfg, regs, mem, Alive(m)) && !Drained(m)
    requires Cycle(p, cfg, m).Next? ==> !LosesRedirect(cfg, m)
    ensures Timed(p, cfg, regs, mem, AfterCycle(p, cfg, m))
  {
    hide Cycle, Contiguous, HazardFree, OperandsCurrent, FromCode, Refines, OnSchedule, CountersExact, Settle,
      LosesRedirect;
    if Cycle(p, cfg, m).Next? {
      var m' := Cycle(p, cfg, m).m;
      CycleOnSchedule(p, cfg, regs, mem, m);
      CycleSteps(p, cfg, m);
      NextKeepsAccess(p, cfg, m);
      StoppedIsIdle(p, cfg, m);
      CountersStayExact(p, cfg, regs, mem, m, m');
      SettleTimed(p, cfg, regs, mem, m');
    } else if Cycle(p, cfg, m).Refusing? {
      FaultTimed(p, cfg, regs, mem, m);
    }
  }

  lemma NextKeepsAccess(p: Program, cfg: Config, m: Machine)
    requires Legal(m) && Cycle(p, cfg, m).Next?
    ensures MemoryStage(m.mem, m.exmem).Accessed?
  {
  }

  lemma StoppedIsIdle(p: Program, cfg: Config, m: Machine)
    requires Structure(p, cfg, m)
    ensures m.fetchStopped ==> m.idex.bubble
  {
  }

  /** A program whose words all decode never makes the fetch throw. */
  lemma DecodableNeverBad(p: Program, cfg: Config, m: Machine)
    requires AllDecode(p) && Legal(m)
    ensures !Cycle(p, cfg, m).Undecodable?
  {
  }

  lemma {:induction false} DecodableRun(p: Program, cfg: Config, regs: Registers, mem: Memory, k: nat)
    requires AllDecode(p)
    ensures !Run(p, cfg, regs, mem, k).BadFetch?
  {
    hide Cycle, AllDecode;
    if k == 0 {
    } else {
      DecodableRun(p, cfg, regs, mem, k - 1);
      var before := Run(p, cfg, regs, mem, k - 1);
      if before.Alive? { DecodableNeverBad(p, cfg, before.m); }
    }
  }

  /** Every boundary of a run that loses no redirect is on schedule. */
  lemma {:induction false} RunTimed(p: Program, cfg: Config, regs: Registers, mem: Memory, k: nat)
    requires regs[0] == 0 && NeverLoses(p, cfg, regs, mem, k)
    ensures Timed(p, cfg, regs, mem, Run(p, cfg, regs, mem, k))
  {
    hide Timed, AfterCycle, Structure, Refines, Agrees, Cycle, LosesRedirect;
    if k == 0 {
      StartTimed(p, cfg, regs, mem);
    } else {
      RunTimed(p, cfg, regs, mem, k - 1);
      RunAgrees(p, cfg, regs, mem, k - 1);
      var before := Run(p, cfg, regs, mem, k - 1);
      assert !Loses(p, cfg, before);
      if before.Alive? {
        AgreesIsRefines(p, regs, mem, before);
        CycleTimed(p, cfg, regs, mem, before.m);
      } else {
        StaysEnded(p, cfg, regs, mem, k);
      }
    }
  }

  lemma StaysEnded(p: Program, cfg: Config, regs: Registers, mem: Memory, k: nat)
    requires k > 0 && !Run(p, cfg, regs, mem, k - 1).Alive?
    ensures Run(p, cfg, regs, mem, k) == Run(p, cfg, regs, mem, k - 1)
  {
    hide AfterCycle;
  }

  lemma AgreesIsRefines(p: Program, regs: Registers, mem: Memory, b: Boundary)
    requires b.Alive? && Agrees(p, regs, mem, b)
    ensures Legal(b.m) && Refines(p, StartState(regs, mem), b.m)
  {
    hide Refines;
  }
}

/** How every run ends, and in which cycle, in terms of the interpreter alone. */
module Outcomes {
  import opened Words
  import opened Programs
  import opened Storage
  import opened Interpreting
  import opened Stages
  import opened Refinement
  import opened Runs
  import opened Timing
  import opened Schedule

  /** The interpreter's `n`-th step is the one that ends its run. */
  predicate EndsAt(p: Program, regs: Registers, mem: Memory, n: nat) {
    n >= 1 && Oracle(p, regs, mem, n - 1).Running? && !Oracle(p, regs, mem, n).Running?
  }

  /** The `n`-th step executes `RET`. */
  predicate HaltsAt(p: Program, regs: Registers, mem: Memory, n: nat) {
    EndsAt(p, regs, mem, n) && Oracle(p, regs, mem, n).Halted?
  }

  /** The `n`-th step makes an illegal data access. */
  predicate FaultsAt(p: Program, regs: Registers, mem: Memory, n: nat) {
    EndsAt(p, regs, mem, n) && Oracle(p, regs, mem, n).MemoryFault?
  }

  lemma {:induction false} RunningBefore(p: Program, regs: Registers, mem: Memory, i: nat, n: nat)
    requires i <= n && Oracle(p, regs, mem, n).Running?
    ensures Oracle(p, regs, mem, i).Running?
  {
    hide Step;
    if i == n {
    } else {
      RunningBefore(p, regs, mem, i, n - 1);
    }
  }

  lemma {:induction false} RunningCounts(p: Program, regs: Registers, mem: Memory, n: nat)
    requires Oracle(p, regs, mem, n).Running?
    ensures Oracle(p, regs, mem, n).s.retired == n
  {
    hide Step, AfterSteps;
    if n == 0 {
      OracleStarts(p, regs, mem);
    } else {
      RunningBefore(p, regs, mem, n - 1, n);
      RunningCounts(p, regs, mem, n - 1);
      OracleSteps(p, regs, mem, n);
      StepCounts(p, Oracle(p, regs, mem, n - 1).s);
    }
  }

  lemma OracleStarts(p: Program, regs: Registers, mem: Memory)
    ensures Oracle(p, regs, mem, 0) == Running(StartState(regs, mem))
  {
  }

  lemma OracleSteps(p: Program, regs: Registers, mem: Memory, n: nat)
    requires n >= 1 && Oracle(p, regs, mem, n - 1).Running?
    ensures Oracle(p, regs, mem, n) == Step(p, Oracle(p, regs, mem, n - 1).s)
  {
    hide Step;
  }

  lemma StepCounts(p: Program, s: ArchState)
    ensures var r := Step(p, s);
      r.s.retired == s.retired + (if r.PcFault? || r.DecodeFault? then 0 else 1)
  {
  }

  /** A run that ends has one ending step: before it the interpreter is running, after it the
      outcome no longer changes. */
  lemma AroundTheEnd(p: Program, regs: Registers, mem: Memory, n: nat, i: nat)
    requires EndsAt(p, regs, mem, n)
    ensures i < n ==> Oracle(p, regs, mem, i).Running?
    ensures i >= n ==> Oracle(p, regs, mem, i) == Oracle(p, regs, mem, n)
  {
    if i < n { RunningBefore(p, regs, mem, i, n - 1); } else { EndedStaysEnded(p, StartState(regs, mem), n, i); }
  }

  lemma {:induction false} ExTimeMonotone(cfg: Config, p: Program, regs: Registers, mem: Memory, i: nat, n: nat)
    requires i <= n
    ensures ExTime(cfg, p, regs, mem, i) <= ExTime(cfg, p, regs, mem, n)
  {
    hide ExTime;
    if i == n {
    } else {
      ExTimeMonotone(cfg, p, regs, mem, i, n - 1);
      ExTimeIncreases(cfg, p, regs, mem, n);
    }
  }

  // ---- Where a live machine can be when the interpreter is known to end -------------------

  /** A machine that is still running has not passed the interpreter's last step. */
  lemma AliveIsEarly(p: Program, cfg: Config, regs: Registers, mem: Memory, m: Machine, n: nat)
    requires Inv(p, cfg, StartState(regs, mem), m) && OnSchedule(p, cfg, regs, mem, m)
    requires !Drained(m) && EndsAt(p, regs, mem, n) && !Oracle(p, regs, mem, n).PcFault?
    requires !Oracle(p, regs, mem, n).DecodeFault?
    ensures m.cycle <= ExTime(cfg, p, regs, mem, n) + 1
    ensures Oracle(p, regs, mem, n).MemoryFault? ==> m.cycle <= ExTime(cfg, p, regs, mem, n)
  {
    hide ExTime, HoldsTraced, HazardFree, OperandsCurrent, Perform, FromCode, Stalls, AfterSteps;
    var r := m.stats.retired;
    AroundTheEnd(p, regs, mem, n, r);
    if m.fetchStopped || MemoryStage(m.mem, m.exmem).Refused? {
      EndingCount(p, regs, mem, n, r);
      CompleteIffAccessed(m);
    } else {
      CompleteIffAccessed(m);
      assert Oracle(p, regs, mem, r).Running?;
      ExTimeMonotone(cfg, p, regs, mem, r + 1, n);
      NotOffTheEnd(p, regs, mem, r, n);
      PcWhenEmpty(p, regs, mem, m);
    }
  }

  lemma EndingCount(p: Program, regs: Registers, mem: Memory, n: nat, r: nat)
    requires EndsAt(p, regs, mem, n) && r >= n
    requires !Oracle(p, regs, mem, n).PcFault? && !Oracle(p, regs, mem, n).DecodeFault?
    requires Oracle(p, regs, mem, r).s.retired == r
    ensures r == n
  {
    hide Step;
    AroundTheEnd(p, regs, mem, n, r);
    RunningCounts(p, regs, mem, n - 1);
    StepCounts(p, Oracle(p, regs, mem, n - 1).s);
  }

  lemma NotOffTheEnd(p: Program, regs: Registers, mem: Memory, r: nat, n: nat)
    requires EndsAt(p, regs, mem, n) && r < n && !Oracle(p, regs, mem, n).PcFault?
    requires Oracle(p, regs, mem, r).Running?
    ensures Oracle(p, regs, mem, r).s.pc < CodeBytes(p)
  {
    hide Step, CodeBytes;
    AroundTheEnd(p, regs, mem, n, r + 1);
    StepOffTheEnd(p, Oracle(p, regs, mem, r).s);
  }

  lemma StepOffTheEnd(p: Program, s: ArchState)
    ensures s.pc >= CodeBytes(p) ==> Step(p, s).PcFault?
  {
    hide Perform, CodeBytes;
  }

  lemma PcWhenEmpty(p: Program, regs: Registers, mem: Memory, m: Machine)
    requires Legal(m) && Refines(p, StartState(regs, mem), m) && !m.fetchStopped
    requires Completed(m.regs, m.mem, m.exmem, m.memwb).Complete?
    ensures Oracle(p, regs, mem, m.stats.retired).Running?
    ensures Oracle(p, regs, mem, m.stats.retired).s.pc == AbstractPc(m)
  {
  }

  // ---- How a run ends -----------------------------------------------------------------------

  /** The whole boundary invariant of a run that loses no redirect. */
  lemma OrderlyBoundary(p: Program, cfg: Config, regs: Registers, mem: Memory, k: nat)
    requires regs[0] == 0 && NeverLoses(p, cfg, regs, mem, k)
    ensures BoundaryInv(p, cfg, regs, mem, Run(p, cfg, regs, mem, k), k)
    ensures Timed(p, cfg, regs, mem, Run(p, cfg, regs, mem, k))
  {
    RunAgrees(p, cfg, regs, mem, k);
    RunTimed(p, cfg, regs, mem, k);
  }

  lemma AliveBoundaryIsEarly(p: Program, cfg: Config, regs: Registers, mem: Memory, b: Boundary, k: nat, n: nat)
    requires BoundaryInv(p, cfg, regs, mem, b, k) && Timed(p, cfg, regs, mem, b) && b.Alive?
    requires EndsAt(p, regs, mem, n) && !Oracle(p, regs, mem, n).PcFault? && !Oracle(p, regs, mem, n).DecodeFault?
    ensures k <= ExTime(cfg, p, regs, mem, n) + 1
    ensures Oracle(p, regs, mem, n).MemoryFault? ==> k <= ExTime(cfg, p, regs, mem, n)
  {
    hide ExTime, OnSchedule, Structure, Refines, Oracle, CountersExact, EndsAt;
    AliveIsEarly(p, cfg, regs, mem, b.m, n);
  }

  lemma EndedBoundary(p: Program, cfg: Config, regs: Registers, mem: Memory, b: Boundary, k: nat, n: nat)
    requires BoundaryInv(p, cfg, regs, mem, b, k) && Timed(p, cfg, regs, mem, b) && !b.Alive? && !b.BadFetch?
    requires EndsAt(p, regs, mem, n)
    ensures b.m.stats.retired == n
    ensures b.Finished? ==> Oracle(p, regs, mem, n).Halted? && k >= b.m.cycle == ExTime(cfg, p, regs, mem, n) + 2
    ensures b.Faulted? ==> Oracle(p, regs, mem, n).MemoryFault? && k >= b.m.cycle == ExTime(cfg, p, regs, mem, n) + 1
  {
    hide ExTime, AfterSteps, CountersExact;
    var r := b.m.stats.retired;
    AroundTheEnd(p, regs, mem, n, r);
    EndingCount(p, regs, mem, n, r);
  }

  /** If the interpreter halts at its `n`-th step, the pipeline drains, exactly from the cycle in
      which that step has passed WB, with the interpreter's registers, memory and count - unless the
      fetch has thrown on an undecodable word by then. */
  lemma DrainsWhenHalted(p: Program, cfg: Config, regs: Registers, mem: Memory, n: nat, k: nat)
    requires regs[0] == 0 && NeverLoses(p, cfg, regs, mem, k) && HaltsAt(p, regs, mem, n)
    ensures
      var b, final := Run(p, cfg, regs, mem, k), Oracle(p, regs, mem, n).s;
      var drained := ExTime(cfg, p, regs, mem, n) + 2;
      b.BadFetch? || (
        && (b.Finished? <==> k >= drained) && (b.Alive? <==> k < drained)
        && (b.Finished? ==>
              && b.m.regs == final.regs && b.m.mem == final.mem && b.m.stats.retired == final.retired == n
              && b.m.stats.cycles == drained))
  {
    hide ExTime, AfterSteps, AfterCycles, NeverLoses, Timed, Accounted;
    OrderlyBoundary(p, cfg, regs, mem, k);
    CyclesBalance(p, cfg, regs, mem, k);
    var b := Run(p, cfg, regs, mem, k);
    if b.Alive? {
      AliveBoundaryIsEarly(p, cfg, regs, mem, b, k, n);
    } else if !b.BadFetch? {
      EndedBoundary(p, cfg, regs, mem, b, k, n);
    }
  }

  /** If the interpreter's `n`-th step is an illegal access, the pipeline faults, exactly from the
      cycle after that step was in EX, in the interpreter's precise state: every older
      instruction has taken effect and no younger one has. */
  lemma FaultsPrecisely(p: Program, cfg: Config, regs: Registers, mem: Memory, n: nat, k: nat)
    requires regs[0] == 0 && NeverLoses(p, cfg, regs, mem, k) && FaultsAt(p, regs, mem, n)
    ensures
      var b, fault := Run(p, cfg, regs, mem, k), Oracle(p, regs, mem, n).s;
      var refused := ExTime(cfg, p, regs, mem, n) + 1;
      b.BadFetch? || (
        && (b.Faulted? <==> k >= refused) && (b.Alive? <==> k < refused)
        && (b.Faulted? ==>
              && b.m.regs == fault.regs && b.m.mem == fault.mem && b.m.stats.retired == fault.retired == n
              && b.m.exmem.pc == fault.pc && b.m.cycle == refused))
  {
    hide ExTime, AfterSteps, AfterCycles, NeverLoses, Timed;
    OrderlyBoundary(p, cfg, regs, mem, k);
    var b := Run(p, cfg, regs, mem, k);
    if b.Alive? {
      AliveBoundaryIsEarly(p, cfg, regs, mem, b, k, n);
    } else if !b.BadFetch? {
      EndedBoundary(p, cfg, regs, mem, b, k, n);
    }
  }

  /** If the interpreter neither halts nor makes an illegal access - it loops, or it leaves the
      code - then no budget makes the pipeline drain or fault: every run reports its cycle limit,
      or an undecodable word. */
  lemma NeverEndsOtherwise(p: Program, cfg: Config, regs: Registers, mem: Memory, k: nat)
    requires regs[0] == 0 && NeverLoses(p, cfg, regs, mem, k)
    requires forall n :: !Oracle(p, regs, mem, n).Halted? && !Oracle(p, regs, mem, n).MemoryFault?
    ensures Run(p, cfg, regs, mem, k).Alive? || Run(p, cfg, regs, mem, k).BadFetch?
  {
    hide Oracle, AfterCycles, NeverLoses, Timed;
    OrderlyBoundary(p, cfg, regs, mem, k);
  }

  lemma {:induction false} EndingStep(p: Program, regs: Registers, mem: Memory, n: nat) returns (e: nat)
    requires !Oracle(p, regs, mem, n).Running?
    ensures e <= n && EndsAt(p, regs, mem, e) && Oracle(p, regs, mem, n) == Oracle(p, regs, mem, e)
  {
    hide Step;
    if n >= 1 && Oracle(p, regs, mem, n - 1).Running? {
      e := n;
    } else {
      e := EndingStep(p, regs, mem, n - 1);
      EndedStaysEnded(p, StartState(regs, mem), n - 1, n);
    }
  }

  /** No boundary of any run loses a redirect. */
  ghost predicate NothingEverLost(p: Program, cfg: Config, regs: Registers, mem: Memory) {
    forall k :: NeverLoses(p, cfg, regs, mem, k)
  }

  /** The run throws on an undecodable word, sooner or later. */
  ghost predicate EverBadFetch(p: Program, cfg: Config, regs: Registers, mem: Memory) {
    exists k :: Run(p, cfg, regs, mem, k).BadFetch?
  }

  ghost predicate EverFinished(p: Program, cfg: Config, regs: Registers, mem: Memory) {
    exists k :: Run(p, cfg, regs, mem, k).Finished?
  }

  ghost predicate EverFaulted(p: Program, cfg: Config, regs: Registers, mem: Memory) {
    exists k :: Run(p, cfg, regs, mem, k).Faulted?
  }

  lemma {:induction false} EndedRunStays(p: Program, cfg: Config, regs: Registers, mem: Memory, j: nat, k: nat)
    requires j <= k && !Run(p, cfg, regs, mem, j).Alive?
    ensures Run(p, cfg, regs, mem, k) == Run(p, cfg, regs, mem, j)
  {
    hide AfterCycle;
    if j == k {
    } else {
      EndedRunStays(p, cfg, regs, mem, j, k - 1);
    }
  }

  /** A run has at most one ending. */
  lemma OneEnding(p: Program, cfg: Config, regs: Registers, mem: Memory, j: nat, k: nat)
    requires !Run(p, cfg, regs, mem, j).Alive? && !Run(p, cfg, regs, mem, k).Alive?
    ensures Run(p, cfg, regs, mem, j) == Run(p, cfg, regs, mem, k)
  {
    hide Run;
    if j <= k { EndedRunStays(p, cfg, regs, mem, j, k); } else { EndedRunStays(p, cfg, regs, mem, k, j); }
  }

  /** What the ending of a run says about the interpreter. */
  lemma EndingIsOracles(p: Program, cfg: Config, regs: Registers, mem: Memory, k: nat)
    requires regs[0] == 0 && NeverLoses(p, cfg, regs, mem, k)
    ensures Run(p, cfg, regs, mem, k).Finished? ==> exists n :: HaltsAt(p, regs, mem, n)
    ensures Run(p, cfg, regs, mem, k).Faulted? ==> exists n :: FaultsAt(p, regs, mem, n)
  {
    hide Run, NeverLoses, AfterSteps;
    RunAgrees(p, cfg, regs, mem, k);
    var b := Run(p, cfg, regs, mem, k);
    if b.Finished? || b.Faulted? {
      var n := EndingStep(p, regs, mem, b.m.stats.retired);
      assert b.Finished? ==> HaltsAt(p, regs, mem, n);
      assert b.Faulted? ==> FaultsAt(p, regs, mem, n);
    }
  }

  /** A run that loses no redirect drains exactly for the programs the interpreter halts, and faults
      exactly for those whose data access faults, except where it throws on an undecodable word. A
      program that runs off its end does neither. */
  lemma EndsExactly(p: Program, cfg: Config, regs: Registers, mem: Memory)
    requires regs[0] == 0 && NothingEverLost(p, cfg, regs, mem)
    ensures EverFinished(p, cfg, regs, mem) <==>
      (exists n :: HaltsAt(p, regs, mem, n)) && !EverBadFetch(p, cfg, regs, mem)
    ensures EverFaulted(p, cfg, regs, mem) <==>
      (exists n :: FaultsAt(p, regs, mem, n)) && !EverBadFetch(p, cfg, regs, mem)
  {
    hide Run, NeverLoses, HaltsAt, FaultsAt, ExTime, Oracle;
    forall k | !Run(p, cfg, regs, mem, k).Alive? && !Run(p, cfg, regs, mem, k).BadFetch?
      ensures !EverBadFetch(p, cfg, regs, mem)
    {
      forall j ensures !Run(p, cfg, regs, mem, j).BadFetch? {
        if Run(p, cfg, regs, mem, j).BadFetch? { OneEnding(p, cfg, regs, mem, j, k); }
      }
    }
    forall k
      ensures Run(p, cfg, regs, mem, k).Finished? ==> exists n :: HaltsAt(p, regs, mem, n)
      ensures Run(p, cfg, regs, mem, k).Faulted? ==> exists n :: FaultsAt(p, regs, mem, n)
    {
      assert NeverLoses(p, cfg, regs, mem, k);
      EndingIsOracles(p, cfg, regs, mem, k);
    }
    forall n | HaltsAt(p, regs, mem, n) && !EverBadFetch(p, cfg, regs, mem)
      ensures EverFinished(p, cfg, regs, mem)
    {
      ReachesHalt(p, cfg, regs, mem, n);
    }
    forall n | FaultsAt(p, regs, mem, n) && !EverBadFetch(p, cfg, regs, mem)
      ensures EverFaulted(p, cfg, regs, mem)
    {
      ReachesFault(p, cfg, regs, mem, n);
    }
  }

  lemma ReachesHalt(p: Program, cfg: Config, regs: Registers, mem: Memory, n: nat)
    requires regs[0] == 0 && NothingEverLost(p, cfg, regs, mem) && HaltsAt(p, regs, mem, n)
    requires !EverBadFetch(p, cfg, regs, mem)
    ensures EverFinished(p, cfg, regs, mem)
  {
    hide Run, NeverLoses, HaltsAt, ExTime, Oracle;
    ExTimeMonotone(cfg, p, regs, mem, 0, n);
    ExTimeStarts(cfg, p, regs, mem);
    var k: nat := ExTime(cfg, p, regs, mem, n) + 2;
    assert NeverLoses(p, cfg, regs, mem, k);
    DrainsWhenHalted(p, cfg, regs, mem, n, k);
    assert Run(p, cfg, regs, mem, k).Finished?;
  }

  lemma ReachesFault(p: Program, cfg: Config, regs: Registers, mem: Memory, n: nat)
    requires regs[0] == 0 && NothingEverLost(p, cfg, regs, mem) && FaultsAt(p, regs, mem, n)
    requires !EverBadFetch(p, cfg, regs, mem)
    ensures EverFaulted(p, cfg, regs, mem)
  {
    hide Run, NeverLoses, FaultsAt, ExTime, Oracle;
    ExTimeMonotone(cfg, p, regs, mem, 0, n);
    ExTimeStarts(cfg, p, regs, mem);
    var k: nat := ExTime(cfg, p, regs, mem, n) + 1;
    assert NeverLoses(p, cfg, regs, mem, k);
    FaultsPrecisely(p, cfg, regs, mem, n, k);
    assert Run(p, cfg, regs, mem, k).Faulted?;
  }

  lemma ExTimeStarts(cfg: Config, p: Program, regs: Registers, mem: Memory)
    ensures ExTime(cfg, p, regs, mem, 0) == 2
  {
  }

  // ---- The time it takes ----------------------------------------------------------------------

  lemma ExTimeGap(cfg: Config, p: Program, regs: Registers, mem: Memory, n: nat)
    requires n >= 1
    ensures ExTime(cfg, p, regs, mem, n) <= ExTime(cfg, p, regs, mem, n - 1) + 3
  {
    hide LoadUse, Diverts, Depends;
    if n >= 2 { ExTimeIncreases(cfg, p, regs, mem, n - 1); }
  }

  lemma {:induction false} ExTimeBound(cfg: Config, p: Program, regs: Registers, mem: Memory, n: nat)
    requires n >= 1
    ensures ExTime(cfg, p, regs, mem, n) <= 3 * n
  {
    hide ExTime;
    if n == 1 {
      FirstExTime(cfg, p, regs, mem);
    } else {
      ExTimeBound(cfg, p, regs, mem, n - 1);
      ExTimeGap(cfg, p, regs, mem, n);
    }
  }

  /** A program of `n` executed instructions drains within `3n + 2` cycles, in every configuration. */
  lemma DrainsWithin(p: Program, cfg: Config, regs: Registers, mem: Memory, n: nat)
    requires regs[0] == 0 && NeverLoses(p, cfg, regs, mem, 3 * n + 2) && HaltsAt(p, regs, mem, n)
    ensures var b := Run(p, cfg, regs, mem, 3 * n + 2); b.Finished? || b.BadFetch?
  {
    hide ExTime, Oracle, AfterCycles, NeverLoses, Run;
    ExTimeBound(cfg, p, regs, mem, n);
    DrainsWhenHalted(p, cfg, regs, mem, n, 3 * n + 2);
  }

  // ---- No wrong-path effect ---------------------------------------------------------------------

  /** The PCs of the instructions that have gone through EX, oldest first. */
  function PcsExecuted(p: Program, cfg: Config, regs: Registers, mem: Memory, k: nat): seq<UInt32> {
    if k == 0 then []
    else
      var earlier := PcsExecuted(p, cfg, regs, mem, k - 1);
      var b := Run(p, cfg, regs, mem, k - 1);
      if b.Alive? && !Cycle(p, cfg, b.m).Refusing? && !b.m.idex.bubble then earlier + [b.m.idex.pc] else earlier
  }

  /** The PCs of the interpreter's first `n` steps. */
  function OraclePcs(p: Program, regs: Registers, mem: Memory, n: nat): seq<UInt32> {
    if n == 0 then [] else OraclePcs(p, regs, mem, n - 1) + [Oracle(p, regs, mem, n - 1).s.pc]
  }

  lemma CycleRetires(p: Program, cfg: Config, m: Machine)
    requires Structure(p, cfg, m)
    ensures AfterCycle(p, cfg, m).m.stats.retired ==
      m.stats.retired + Count(!Cycle(p, cfg, m).Refusing? && !m.idex.bubble)
  {
    hide Execute, MemoryStage, WriteBack, OperandA, OperandB;
  }

  lemma UnrefusedAccess(p: Program, cfg: Config, m: Machine)
    requires Legal(m) && !Cycle(p, cfg, m).Refusing?
    ensures MemoryStage(m.mem, m.exmem).Accessed?
  {
  }

  /** The instruction a cycle executes is the one the interpreter is at. */
  lemma ExecutedPc(p: Program, cfg: Config, regs: Registers, mem: Memory, m: Machine)
    requires Inv(p, cfg, StartState(regs, mem), m) && !Cycle(p, cfg, m).Refusing? && !m.idex.bubble
    ensures Oracle(p, regs, mem, m.stats.retired).s.pc == m.idex.pc
  {
    hide Oracle, Cycle, Refines, MemoryStage, Completed;
    UnrefusedAccess(p, cfg, m);
    CompleteIffAccessed(m);
    StoppedIsIdle(p, cfg, m);
    PcWhenEmpty(p, regs, mem, m);
  }

  /** The instructions that enter EX are exactly the interpreter's, in order: a squashed one never
      executes, so it never writes, stores, or supplies a forwarded value. */
  lemma {:induction false} NoWrongPathExecutes(p: Program, cfg: Config, regs: Registers, mem: Memory, k: nat)
    requires regs[0] == 0 && NeverLoses(p, cfg, regs, mem, k)
    ensures PcsExecuted(p, cfg, regs, mem, k) == OraclePcs(p, regs, mem, Run(p, cfg, regs, mem, k).m.stats.retired)
  {
    hide Oracle, Cycle, Refines, Agrees, Structure, AfterCycle, NeverLoses;
    if k == 0 {
    } else {
      NeverLosesBefore(p, cfg, regs, mem, k - 1, k);
      NoWrongPathExecutes(p, cfg, regs, mem, k - 1);
      var b := Run(p, cfg, regs, mem, k - 1);
      if b.Alive? {
        RunAgrees(p, cfg, regs, mem, k - 1);
        AgreesIsRefines(p, regs, mem, b);
        CycleRetires(p, cfg, b.m);
        if !Cycle(p, cfg, b.m).Refusing? && !b.m.idex.bubble { ExecutedPc(p, cfg, regs, mem, b.m); }
      }
    }
  }

  lemma NeverLosesBefore(p: Program, cfg: Config, regs: Registers, mem: Memory, j: nat, k: nat)
    requires j <= k && NeverLoses(p, cfg, regs, mem, k)
    ensures NeverLoses(p, cfg, regs, mem, j)
  {
    hide Loses, Run;
  }
}

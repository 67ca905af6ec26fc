/** Exactly when a run agrees with the interpreter, read off the interpreter's trace: in which cycle
    a redirect is lost, and which words the fetch stage throws on. */
module Exactness {
  import opened Words
  import opened Isa
  import opened Encoding
  import opened Programs
  import opened Storage
  import opened Interpreting
  import opened Stages
  import opened Refinement
  import opened Runs
  import opened Timing
  import opened Schedule
  import opened Outcomes

  // ---- Where an executed instruction is ------------------------------------------------------

  /** The interpreter comes to an `i`-th instruction, decodable or not. */
  predicate Reaches(p: Program, regs: Registers, mem: Memory, i: nat) {
    i >= 1 && Oracle(p, regs, mem, i - 1).Running? && Oracle(p, regs, mem, i - 1).s.pc < CodeBytes(p)
  }

  /** The machine is about to execute the `i`-th instruction. */
  predicate AboutTo(m: Machine, i: nat) {
    !m.idex.bubble && m.stats.retired + 1 == i && MemoryStage(m.mem, m.exmem).Accessed?
  }

  lemma {:induction false} ExTimeStrict(cfg: Config, p: Program, regs: Registers, mem: Memory, i: nat, j: nat)
    requires i < j
    ensures ExTime(cfg, p, regs, mem, i) < ExTime(cfg, p, regs, mem, j)
  {
    hide ExTime;
    ExTimeIncreases(cfg, p, regs, mem, i + 1);
    ExTimeMonotone(cfg, p, regs, mem, i + 1, j);
  }

  /** Before the `i`-th instruction is in EX, the machine has neither stopped nor is about to fault. */
  lemma StillRunning(p: Program, regs: Registers, mem: Memory, m: Machine, i: nat)
    requires Legal(m) && Refines(p, StartState(regs, mem), m) && Reaches(p, regs, mem, i) && m.stats.retired < i
    ensures !m.fetchStopped && MemoryStage(m.mem, m.exmem).Accessed?
    ensures Oracle(p, regs, mem, m.stats.retired).Running?
    ensures Oracle(p, regs, mem, m.stats.retired).s.pc == AbstractPc(m) < CodeBytes(p)
  {
    hide Step, MemoryStage, CodeBytes;
    var n := m.stats.retired;
    RunningBefore(p, regs, mem, n, i - 1);
    CompleteIffAccessed(m);
    if n < i - 1 {
      RunningBefore(p, regs, mem, n + 1, i - 1);
      RunningInCode(p, regs, mem, n);
    }
  }

  lemma RunningInCode(p: Program, regs: Registers, mem: Memory, n: nat)
    requires Oracle(p, regs, mem, n).Running? && Oracle(p, regs, mem, n + 1).Running?
    ensures Oracle(p, regs, mem, n).s.pc < CodeBytes(p)
  {
    hide Perform;
  }

  /** One cycle before its time, a machine on schedule is about to execute the instruction. */
  lemma OnTime(p: Program, cfg: Config, regs: Registers, mem: Memory, m: Machine, i: nat)
    requires Inv(p, cfg, StartState(regs, mem), m) && OnSchedule(p, cfg, regs, mem, m)
    requires Reaches(p, regs, mem, i) && m.cycle + 1 == ExTime(cfg, p, regs, mem, i)
    ensures AboutTo(m, i)
  {
    hide ExTime, MemoryStage, Refines, Stalls, HoldsTraced, CodeBytes, FromCode, HazardFree, OperandsCurrent, Oracle;
    var n := m.stats.retired;
    if n >= i { ExTimeMonotone(cfg, p, regs, mem, i, n); }
    StillRunning(p, regs, mem, m, i);
    if n + 1 < i { ExTimeStrict(cfg, p, regs, mem, n + 1, i); }
  }

  /** A run that loses no redirect has the `i`-th instruction in EX in cycle `ExTime(i)`, unless it
      threw on an undecodable word before. */
  lemma InExOnTime(p: Program, cfg: Config, regs: Registers, mem: Memory, i: nat, k: nat)
    requires regs[0] == 0 && Reaches(p, regs, mem, i) && k + 1 == ExTime(cfg, p, regs, mem, i)
    requires NeverLoses(p, cfg, regs, mem, k)
    ensures var b := Run(p, cfg, regs, mem, k);
      b.BadFetch? ||
      (b.Alive? && Inv(p, cfg, StartState(regs, mem), b.m) && OnSchedule(p, cfg, regs, mem, b.m) && b.m.cycle == k &&
        AboutTo(b.m, i))
  {
    hide ExTime, Run, NeverLoses, Refines, OnSchedule, Oracle, Structure, AboutTo, CountersExact;
    OrderlyBoundary(p, cfg, regs, mem, k);
    var b := Run(p, cfg, regs, mem, k);
    if b.Alive? {
      OnTime(p, cfg, regs, mem, b.m, i);
    } else if !b.BadFetch? {
      var n := b.m.stats.retired;
      if n < i { RunningBefore(p, regs, mem, n, i - 1); } else { ExTimeMonotone(cfg, p, regs, mem, i, n); }
    }
  }

  // ---- Lost redirects --------------------------------------------------------------------------

  /** The `i`-th instruction is not followed by the one behind it. */
  predicate Departs(p: Program, regs: Registers, mem: Memory, i: nat) {
    && Executes(p, regs, mem, i)
    && var after := Oracle(p, regs, mem, i);
       !(after.Running? && after.s.pc == NextPc(Oracle(p, regs, mem, i - 1).s.pc))
  }

  /** The `i`-th instruction is a `ret`, or goes elsewhere than to the next address, while the
      instruction behind it stalls: the stall wins and the redirect is lost. */
  predicate LosesAt(cfg: Config, p: Program, regs: Registers, mem: Memory, i: nat) {
    && !cfg.flushWins && Departs(p, regs, mem, i) && !Oracle(p, regs, mem, i).MemoryFault?
    && BehindStalls(cfg, p, regs, mem, i)
  }

  /** What EX asks for, in terms of the interpreter's step. */
  lemma RequestIsStep(p: Program, cfg: Config, regs: Registers, mem: Memory, m: Machine)
    requires Inv(p, cfg, StartState(regs, mem), m) && !m.idex.bubble && MemoryStage(m.mem, m.exmem).Accessed?
    ensures
      var n, ex := m.stats.retired, Execute(cfg.forwarding, m);
      && Executes(p, regs, mem, n + 1) && Oracle(p, regs, mem, n).s.pc == m.idex.pc
      && (ex.flushYounger && (ex.stopFetch || ex.newPc != NextPc(m.idex.pc)) <==>
            Departs(p, regs, mem, n + 1) && !Oracle(p, regs, mem, n + 1).MemoryFault?)
  {
    hide Execute, Perform, MemoryStage, Refines, Step, FromCode, HazardFree, OperandsCurrent, Completed, Decode;
    CompleteIffAccessed(m);
    NextTraced(p, regs, mem, m) by { NotStoppedInEx(p, cfg, m); }
    FlushIsTransfer(p, cfg, regs, mem, m);
    StepOfExecuting(p, StartState(regs, mem), m);
    ExecuteOnMachine(p, cfg, m);
  }

  lemma NotStoppedInEx(p: Program, cfg: Config, m: Machine)
    requires Structure(p, cfg, m) && !m.idex.bubble
    ensures !m.fetchStopped && AbstractPc(m) == m.idex.pc
  {
  }

  /** A cycle loses a redirect exactly when the trace does at that instruction. */
  lemma LossIsOnTrace(p: Program, cfg: Config, regs: Registers, mem: Memory, m: Machine, i: nat)
    requires Inv(p, cfg, StartState(regs, mem), m) && OnSchedule(p, cfg, regs, mem, m) && AboutTo(m, i)
    ensures LosesRedirect(cfg, m) <==> LosesAt(cfg, p, regs, mem, i)
    ensures ExTime(cfg, p, regs, mem, i) == m.cycle + 1
  {
    hide Execute, Structure, Refines, OnSchedule, Departs, BehindStalls, Stalls, MemoryStage, Oracle, ExTime;
    StructureIsLegal(p, cfg, m);
    RequestIsStep(p, cfg, regs, mem, m);
    StallIsBehindStall(p, cfg, regs, mem, m);
    TimeInEx(p, cfg, regs, mem, m);
  }

  lemma TimeInEx(p: Program, cfg: Config, regs: Registers, mem: Memory, m: Machine)
    requires Structure(p, cfg, m) && OnSchedule(p, cfg, regs, mem, m) && !m.idex.bubble
    requires MemoryStage(m.mem, m.exmem).Accessed?
    ensures ExTime(cfg, p, regs, mem, m.stats.retired + 1) == m.cycle + 1
  {
    hide ExTime, MemoryStage, HoldsTraced;
  }

  /** The trace loses nothing up to cycle `k`. */
  ghost predicate NoLossBy(cfg: Config, p: Program, regs: Registers, mem: Memory, k: nat) {
    forall i :: LosesAt(cfg, p, regs, mem, i) ==> ExTime(cfg, p, regs, mem, i) > k
  }

  lemma LossHasTime(p: Program, cfg: Config, regs: Registers, mem: Memory, j: nat) returns (i: nat)
    requires regs[0] == 0 && NeverLoses(p, cfg, regs, mem, j) && Loses(p, cfg, Run(p, cfg, regs, mem, j))
    ensures LosesAt(cfg, p, regs, mem, i) && ExTime(cfg, p, regs, mem, i) == j + 1
  {
    hide Run, NeverLoses, Refines, OnSchedule, LosesAt, ExTime, Structure, Execute, Stalls;
    OrderlyBoundary(p, cfg, regs, mem, j);
    var m := Run(p, cfg, regs, mem, j).m;
    i := m.stats.retired + 1;
    RedirectInEx(cfg, m);
    NextKeepsAccess(p, cfg, m);
    LossIsOnTrace(p, cfg, regs, mem, m, i);
  }

  lemma RedirectInEx(cfg: Config, m: Machine)
    requires Legal(m) && Execute(cfg.forwarding, m).flushYounger
    ensures !m.idex.bubble
  {
    hide OperandA, OperandB;
  }

  lemma TimedLossHappens(p: Program, cfg: Config, regs: Registers, mem: Memory, i: nat, k: nat)
    requires regs[0] == 0 && LosesAt(cfg, p, regs, mem, i) && k + 1 == ExTime(cfg, p, regs, mem, i)
    requires NeverLoses(p, cfg, regs, mem, k) && !Run(p, cfg, regs, mem, k).BadFetch?
    ensures Loses(p, cfg, Run(p, cfg, regs, mem, k))
  {
    hide Run, NeverLoses, Refines, OnSchedule, BehindStalls, ExTime, Structure, Oracle;
    InExOnTime(p, cfg, regs, mem, i, k);
    var m := Run(p, cfg, regs, mem, k).m;
    StructureIsLegal(p, cfg, m);
    LossIsOnTrace(p, cfg, regs, mem, m, i);
    StalledCycleGoesOn(p, cfg, m);
  }

  lemma StalledCycleGoesOn(p: Program, cfg: Config, m: Machine)
    requires Legal(m) && MemoryStage(m.mem, m.exmem).Accessed? && LosesRedirect(cfg, m)
    ensures Cycle(p, cfg, m).Next?
  {
    hide MemoryStage, Execute, Commit, DetectStall;
  }

  lemma ExTimeAtLeast(cfg: Config, p: Program, regs: Registers, mem: Memory, i: nat)
    ensures ExTime(cfg, p, regs, mem, i) >= 2
  {
    hide ExTime;
    ExTimeStarts(cfg, p, regs, mem);
    ExTimeMonotone(cfg, p, regs, mem, 0, i);
  }

  /** When a run loses its first redirect, from the trace: a run loses none in its first `k` cycles if
      the trace loses none by cycle `k`, and only if, unless it threw on an undecodable word before. */
  lemma LossesOnTrace(p: Program, cfg: Config, regs: Registers, mem: Memory, k: nat)
    requires regs[0] == 0
    ensures NoLossBy(cfg, p, regs, mem, k) ==> NeverLoses(p, cfg, regs, mem, k)
    ensures NeverLoses(p, cfg, regs, mem, k) && !Run(p, cfg, regs, mem, k).BadFetch? ==> NoLossBy(cfg, p, regs, mem, k)
  {
    hide Run, Loses, LosesAt, ExTime;
    if !NeverLoses(p, cfg, regs, mem, k) {
      var j := FirstLoss(p, cfg, regs, mem, k);
      var i := LossHasTime(p, cfg, regs, mem, j);
    } else if !Run(p, cfg, regs, mem, k).BadFetch? {
      forall i | LosesAt(cfg, p, regs, mem, i)
        ensures ExTime(cfg, p, regs, mem, i) > k
      {
        if ExTime(cfg, p, regs, mem, i) <= k {
          ExTimeAtLeast(cfg, p, regs, mem, i);
          var j: nat := ExTime(cfg, p, regs, mem, i) - 1;
          if Run(p, cfg, regs, mem, j).BadFetch? { BadFetchStays(p, cfg, regs, mem, j, k); }
          TimedLossHappens(p, cfg, regs, mem, i, j);
        }
      }
    }
  }

  /** Agreement up to the `k`-th boundary, in any configuration, from the interpreter's trace. */
  lemma AgreesIffTraceLosesNothing(p: Program, cfg: Config, regs: Registers, mem: Memory, k: nat)
    requires regs[0] == 0
    ensures AgreesThroughout(p, cfg, regs, mem, k) <==>
      NoLossBy(cfg, p, regs, mem, k) && !Run(p, cfg, regs, mem, k).BadFetch?
  {
    hide Run, NeverLoses, NoLossBy, AgreesThroughout;
    AgreesIffNothingLost(p, cfg, regs, mem, k);
    LossesOnTrace(p, cfg, regs, mem, k);
  }

  // ---- Speculative fetches ------------------------------------------------------------------------

  /** `pc` is in the code and its word does not decode. */
  predicate Junk(p: Program, pc: UInt32) {
    pc < CodeBytes(p) && !Decodes(p, pc)
  }

  /** The fetch stage has gone past the `i`-th instruction and met an undecodable word: one behind
      it, or two behind it when the first does not stall. */
  predicate JunkBehind(cfg: Config, p: Program, regs: Registers, mem: Memory, i: nat) {
    && Departs(p, regs, mem, i)
    && var next := NextPc(Oracle(p, regs, mem, i - 1).s.pc);
       Junk(p, next) || (Decodes(p, next) && !BehindStalls(cfg, p, regs, mem, i) && Junk(p, NextPc(next)))
  }

  /** The interpreter comes to an undecodable word. */
  ghost predicate OracleMeetsJunk(p: Program, regs: Registers, mem: Memory) {
    exists n :: Oracle(p, regs, mem, n).DecodeFault?
  }

  ghost predicate SpeculationMeetsJunk(cfg: Config, p: Program, regs: Registers, mem: Memory) {
    exists i :: JunkBehind(cfg, p, regs, mem, i)
  }

  lemma ThrowsShape(p: Program, cfg: Config, m: Machine)
    requires Legal(m)
    ensures Cycle(p, cfg, m).Undecodable? <==>
      MemoryStage(m.mem, m.exmem).Accessed? && !Stalls(cfg, m) && !m.fetchStopped && Junk(p, m.pc)
  {
    hide MemoryStage, Stalls, Commit, Decode;
  }

  lemma {:induction false} FirstBadFetch(p: Program, cfg: Config, regs: Registers, mem: Memory, k: nat) returns (j: nat)
    requires Run(p, cfg, regs, mem, k).BadFetch?
    ensures j < k && Run(p, cfg, regs, mem, j).Alive? && Cycle(p, cfg, Run(p, cfg, regs, mem, j).m).Undecodable?
  {
    hide Cycle;
    if Run(p, cfg, regs, mem, k - 1).Alive? {
      j := k - 1;
    } else {
      j := FirstBadFetch(p, cfg, regs, mem, k - 1);
    }
  }

  /** The interpreter at an undecodable word. */
  lemma AtJunk(p: Program, regs: Registers, mem: Memory, n: nat)
    requires Oracle(p, regs, mem, n).Running? && Junk(p, Oracle(p, regs, mem, n).s.pc)
    ensures OracleMeetsJunk(p, regs, mem)
  {
    assert Oracle(p, regs, mem, n + 1).DecodeFault?;
  }

  /** An instruction with an undecodable word right behind it departs, or the interpreter meets it. */
  lemma JunkRightBehind(p: Program, cfg: Config, regs: Registers, mem: Memory, i: nat)
    requires Executes(p, regs, mem, i) && Junk(p, NextPc(Oracle(p, regs, mem, i - 1).s.pc))
    ensures SpeculationMeetsJunk(cfg, p, regs, mem) || OracleMeetsJunk(p, regs, mem)
  {
    hide Oracle, BehindStalls, CodeBytes, Decodes;
    if Departs(p, regs, mem, i) {
      assert JunkBehind(cfg, p, regs, mem, i);
    } else {
      AtJunk(p, regs, mem, i);
    }
  }

  /** Every way in which a machine on schedule can throw shows on the trace. */
  lemma ThrowIsOnTrace(p: Program, cfg: Config, regs: Registers, mem: Memory, m: Machine)
    requires Inv(p, cfg, StartState(regs, mem), m) && OnSchedule(p, cfg, regs, mem, m) && Legal(m)
    requires MemoryStage(m.mem, m.exmem).Accessed? && !Stalls(cfg, m) && !m.fetchStopped && Junk(p, m.pc)
    ensures SpeculationMeetsJunk(cfg, p, regs, mem) || OracleMeetsJunk(p, regs, mem)
  {
    hide Oracle, BehindStalls, Refines, MemoryStage, Stalls, OnSchedule, Junk, SpeculationMeetsJunk, OracleMeetsJunk,
      HazardFree,
      OperandsCurrent, Completed, Executes, Departs, CodeBytes;
    var n := m.stats.retired;
    CompleteIffAccessed(m);
    NextTraced(p, regs, mem, m);
    if m.idex.bubble && m.ifid.bubble {
      AtJunk(p, regs, mem, n);
    } else if m.idex.bubble {
      JunkRightBehind(p, cfg, regs, mem, n + 1);
    } else {
      TwoBehind(p, cfg, regs, mem, m);
    }
  }

  /** An undecodable word two behind the instruction in EX. */
  lemma TwoBehind(p: Program, cfg: Config, regs: Registers, mem: Memory, m: Machine)
    requires Inv(p, cfg, StartState(regs, mem), m) && OnSchedule(p, cfg, regs, mem, m) && Legal(m) && !m.idex.bubble
    requires MemoryStage(m.mem, m.exmem).Accessed? && !Stalls(cfg, m) && !m.fetchStopped && Junk(p, m.pc)
    ensures SpeculationMeetsJunk(cfg, p, regs, mem) || OracleMeetsJunk(p, regs, mem)
  {
    hide Oracle, BehindStalls, Refines, MemoryStage, Stalls, OracleMeetsJunk, HazardFree, OperandsCurrent, CodeBytes,
      Decode,
      HoldsTraced, ExTime, Completed, Execute;
    var i := m.stats.retired + 1;
    RequestIsStep(p, cfg, regs, mem, m);
    StallIsBehindStall(p, cfg, regs, mem, m);
    assert !m.ifid.bubble;
    if Departs(p, regs, mem, i) {
      assert JunkBehind(cfg, p, regs, mem, i);
    } else {
      assert Executes(p, regs, mem, i + 1);
      JunkRightBehind(p, cfg, regs, mem, i + 1);
    }
  }

  /** A word right behind an instruction about to execute has been fetched. */
  lemma BehindIsFetched(p: Program, cfg: Config, regs: Registers, mem: Memory, m: Machine, i: nat)
    requires Inv(p, cfg, StartState(regs, mem), m) && OnSchedule(p, cfg, regs, mem, m) && AboutTo(m, i)
    ensures Executes(p, regs, mem, i) && !m.fetchStopped
    ensures var next := NextPc(Oracle(p, regs, mem, i - 1).s.pc);
      && !Junk(p, next)
      && (Decodes(p, next) ==> m.pc == NextPc(next))
  {
    hide Oracle, Refines, MemoryStage, Stalls, HazardFree, OperandsCurrent, CodeBytes, Decode, HoldsTraced, ExTime,
      Completed, Execute;
    RequestIsStep(p, cfg, regs, mem, m);
  }

  /** Fetches behind the `i`-th instruction that meet an undecodable word throw. */
  lemma JunkBehindThrows(p: Program, cfg: Config, regs: Registers, mem: Memory, i: nat)
    requires regs[0] == 0 && NothingEverLost(p, cfg, regs, mem) && JunkBehind(cfg, p, regs, mem, i)
    ensures EverBadFetch(p, cfg, regs, mem)
  {
    hide Run, NeverLoses, Refines, OnSchedule, BehindStalls, ExTime, Structure, Oracle, Cycle, Stalls, Junk,
      MemoryStage, CodeBytes;
    ExTimeAtLeast(cfg, p, regs, mem, i);
    var k: nat := ExTime(cfg, p, regs, mem, i) - 1;
    assert NeverLoses(p, cfg, regs, mem, k);
    InExOnTime(p, cfg, regs, mem, i, k);
    var b := Run(p, cfg, regs, mem, k);
    if !b.BadFetch? {
      StructureIsLegal(p, cfg, b.m);
      BehindIsFetched(p, cfg, regs, mem, b.m, i);
      StallIsBehindStall(p, cfg, regs, mem, b.m);
      ThrowsShape(p, cfg, b.m);
      ThrowEnds(p, cfg, regs, mem, k);
    }
  }

  lemma ThrowEnds(p: Program, cfg: Config, regs: Registers, mem: Memory, k: nat)
    requires Run(p, cfg, regs, mem, k).Alive? && Cycle(p, cfg, Run(p, cfg, regs, mem, k).m).Undecodable?
    ensures EverBadFetch(p, cfg, regs, mem)
  {
    hide Cycle;
    assert Run(p, cfg, regs, mem, k + 1).BadFetch?;
  }

  /** A run whose interpreter comes to an undecodable word throws. */
  lemma OracleJunkThrows(p: Program, cfg: Config, regs: Registers, mem: Memory, n: nat)
    requires regs[0] == 0 && NothingEverLost(p, cfg, regs, mem) && Oracle(p, regs, mem, n).DecodeFault?
    ensures EverBadFetch(p, cfg, regs, mem)
  {
    hide Run, NeverLoses, Refines, OnSchedule, ExTime, Structure, Oracle, MemoryStage;
    var e := EndingStep(p, regs, mem, n);
    JunkReached(p, regs, mem, e);
    ExTimeAtLeast(cfg, p, regs, mem, e);
    var k: nat := ExTime(cfg, p, regs, mem, e) - 1;
    assert NeverLoses(p, cfg, regs, mem, k);
    InExOnTime(p, cfg, regs, mem, e, k);
    if !Run(p, cfg, regs, mem, k).BadFetch? { RequestIsStep(p, cfg, regs, mem, Run(p, cfg, regs, mem, k).m); }
  }

  lemma JunkReached(p: Program, regs: Registers, mem: Memory, e: nat)
    requires EndsAt(p, regs, mem, e) && Oracle(p, regs, mem, e).DecodeFault?
    ensures Reaches(p, regs, mem, e) && !Executes(p, regs, mem, e)
  {
    hide Step;
    FaultingDecode(p, Oracle(p, regs, mem, e - 1).s);
  }

  lemma FaultingDecode(p: Program, s: ArchState)
    requires Step(p, s).DecodeFault?
    ensures Junk(p, s.pc)
  {
    hide LoadWord, StoreWord, CheckAccess;
  }

  /** Exactly when the fetch stage throws, from the interpreter's trace: when the interpreter itself
      comes to an undecodable word, or when one stands in the shadow of an executed instruction that
      the next one in the code does not follow. */
  lemma BadFetchExactly(p: Program, cfg: Config, regs: Registers, mem: Memory)
    requires regs[0] == 0 && NothingEverLost(p, cfg, regs, mem)
    ensures EverBadFetch(p, cfg, regs, mem) <==>
      OracleMeetsJunk(p, regs, mem) || SpeculationMeetsJunk(cfg, p, regs, mem)
  {
    hide Run, NeverLoses, JunkBehind, Oracle, Cycle;
    forall k | Run(p, cfg, regs, mem, k).BadFetch?
      ensures OracleMeetsJunk(p, regs, mem) || SpeculationMeetsJunk(cfg, p, regs, mem)
    {
      BadFetchOnTrace(p, cfg, regs, mem, k);
    }
    forall n | Oracle(p, regs, mem, n).DecodeFault?
      ensures EverBadFetch(p, cfg, regs, mem)
    {
      OracleJunkThrows(p, cfg, regs, mem, n);
    }
    forall i | JunkBehind(cfg, p, regs, mem, i)
      ensures EverBadFetch(p, cfg, regs, mem)
    {
      JunkBehindThrows(p, cfg, regs, mem, i);
    }
  }

  lemma BadFetchOnTrace(p: Program, cfg: Config, regs: Registers, mem: Memory, k: nat)
    requires regs[0] == 0 && NothingEverLost(p, cfg, regs, mem) && Run(p, cfg, regs, mem, k).BadFetch?
    ensures OracleMeetsJunk(p, regs, mem) || SpeculationMeetsJunk(cfg, p, regs, mem)
  {
    hide Run, NeverLoses, Refines, OnSchedule, Structure, Cycle, MemoryStage, Stalls, OracleMeetsJunk,
      SpeculationMeetsJunk,
      CountersExact;
    var j := FirstBadFetch(p, cfg, regs, mem, k);
    assert NeverLoses(p, cfg, regs, mem, j);
    OrderlyBoundary(p, cfg, regs, mem, j);
    var m := Run(p, cfg, regs, mem, j).m;
    ThrowsShape(p, cfg, m);
    ThrowIsOnTrace(p, cfg, regs, mem, m);
  }

  /** From `m`, a cycle has finished WB and MEM and counted the instruction in EX, no more. */
  predicate HalfCycle(m: Machine, after: Machine)
    requires Legal(m)
  {
    && MemoryStage(m.mem, m.exmem).Accessed?
    && after.regs == WriteBack(m.regs, m.memwb) && after.mem == MemoryStage(m.mem, m.exmem).mem
    && after.stats.retired == m.stats.retired + Count(!m.idex.bubble)
  }

  /** What a throw leaves behind: the boundary before it still stands for the interpreter, and the
      throwing cycle has finished WB and MEM and counted the instruction in EX, whose result is gone. */
  lemma ThrowsAfterAgreement(p: Program, cfg: Config, regs: Registers, mem: Memory, k: nat) returns (j: nat)
    requires regs[0] == 0 && NeverLoses(p, cfg, regs, mem, k) && Run(p, cfg, regs, mem, k).BadFetch?
    ensures j < k && Run(p, cfg, regs, mem, j).Alive? && Agrees(p, regs, mem, Run(p, cfg, regs, mem, j))
    ensures HalfCycle(Run(p, cfg, regs, mem, j).m, Run(p, cfg, regs, mem, k).m)
  {
    hide Run, NeverLoses, Refines, Structure, Cycle, HalfCycle;
    j := FirstBadFetch(p, cfg, regs, mem, k);
    NeverLosesBefore(p, cfg, regs, mem, j, k);
    RunAgrees(p, cfg, regs, mem, j);
    var before := Run(p, cfg, regs, mem, j).m;
    RunNext(p, cfg, regs, mem, j);
    BadFetchStays(p, cfg, regs, mem, j + 1, k);
    ThrownState(p, cfg, before);
  }

  lemma RunNext(p: Program, cfg: Config, regs: Registers, mem: Memory, j: nat)
    requires Run(p, cfg, regs, mem, j).Alive?
    ensures Run(p, cfg, regs, mem, j + 1) == AfterCycle(p, cfg, Run(p, cfg, regs, mem, j).m)
  {
    hide AfterCycle;
  }

  lemma ThrownState(p: Program, cfg: Config, m: Machine)
    requires Legal(m) && Cycle(p, cfg, m).Undecodable?
    ensures HalfCycle(m, Cycle(p, cfg, m).m)
  {
    hide WriteBack, MemoryStage, Stalls, Commit, Decode, OperandA, OperandB;
  }

  // ---- The exact condition ---------------------------------------------------------------------------

  /** The interpreter's trace loses no redirect. */
  ghost predicate TraceLosesNothing(cfg: Config, p: Program, regs: Registers, mem: Memory) {
    forall i :: !LosesAt(cfg, p, regs, mem, i)
  }

  lemma TraceLosesNothingExactly(p: Program, cfg: Config, regs: Registers, mem: Memory)
    requires regs[0] == 0
    ensures TraceLosesNothing(cfg, p, regs, mem) ==> NothingEverLost(p, cfg, regs, mem)
    ensures NothingEverLost(p, cfg, regs, mem) && !EverBadFetch(p, cfg, regs, mem) ==>
      TraceLosesNothing(cfg, p, regs, mem)
  {
    hide Run, NeverLoses, LosesAt, ExTime;
    if TraceLosesNothing(cfg, p, regs, mem) {
      forall k ensures NeverLoses(p, cfg, regs, mem, k) { LossesOnTrace(p, cfg, regs, mem, k); }
    } else if !EverBadFetch(p, cfg, regs, mem) && NothingEverLost(p, cfg, regs, mem) {
      var i :| LosesAt(cfg, p, regs, mem, i);
      ExTimeAtLeast(cfg, p, regs, mem, i);
      var k: nat := ExTime(cfg, p, regs, mem, i);
      assert NeverLoses(p, cfg, regs, mem, k);
      assert !Run(p, cfg, regs, mem, k).BadFetch?;
      LossesOnTrace(p, cfg, regs, mem, k);
    }
  }

  /** The exact condition, for every program and every configuration, on the interpreter's trace
      alone: the pipeline agrees with the interpreter at every boundary for ever if and only if the
      trace loses no redirect, the interpreter never comes to an undecodable word, and none stands
      in the shadow of an instruction that departs from its successor. */
  lemma AgreesExactlyWhen(p: Program, cfg: Config, regs: Registers, mem: Memory)
    requires regs[0] == 0
    ensures (forall k :: AgreesThroughout(p, cfg, regs, mem, k)) <==>
      && TraceLosesNothing(cfg, p, regs, mem)
      && !OracleMeetsJunk(p, regs, mem) && !SpeculationMeetsJunk(cfg, p, regs, mem)
  {
    hide Run, NeverLoses, AgreesThroughout, TraceLosesNothing, OracleMeetsJunk, SpeculationMeetsJunk;
    TraceLosesNothingExactly(p, cfg, regs, mem);
    if NothingEverLost(p, cfg, regs, mem) { BadFetchExactly(p, cfg, regs, mem); }
    forall k
      ensures AgreesThroughout(p, cfg, regs, mem, k) <==>
        NeverLoses(p, cfg, regs, mem, k) && !Run(p, cfg, regs, mem, k).BadFetch?
    {
      AgreesIffNothingLost(p, cfg, regs, mem, k);
    }
  }

  // ---- Programs that halt, with forwarding --------------------------------------------------------------

  /** The up to two words of the code behind `pc` decode. */
  predicate CleanBehind(p: Program, pc: UInt32) {
    !Junk(p, NextPc(pc)) && (Decodes(p, NextPc(pc)) ==> !Junk(p, NextPc(NextPc(pc))))
  }

  /** With forwarding, a program the interpreter halts at its `n`-th step drains if and only if the
      words behind each of its jumps, taken branches and its `ret` decode. */
  lemma HaltingDrainsExactly(p: Program, cfg: Config, regs: Registers, mem: Memory, n: nat)
    requires regs[0] == 0 && cfg.forwarding && HaltsAt(p, regs, mem, n)
    ensures EverFinished(p, cfg, regs, mem) <==>
      forall i :: 1 <= i <= n && Departs(p, regs, mem, i) ==> CleanBehind(p, Oracle(p, regs, mem, i - 1).s.pc)
  {
    hide Run, NeverLoses, Oracle, EverFinished, EverBadFetch, Junk, Departs, HaltsAt, BehindStalls, Decodes;
    SoundNothingLost(p, cfg, regs, mem);
    EndsExactly(p, cfg, regs, mem);
    BadFetchExactly(p, cfg, regs, mem);
    HaltMeetsNoJunk(p, regs, mem, n);
    forall i: nat
      ensures JunkBehind(cfg, p, regs, mem, i) <==>
        1 <= i <= n && Departs(p, regs, mem, i) && !CleanBehind(p, Oracle(p, regs, mem, i - 1).s.pc)
    {
      if Departs(p, regs, mem, i) { DepartsBeforeHalt(p, cfg, regs, mem, n, i); }
    }
  }

  lemma SoundNothingLost(p: Program, cfg: Config, regs: Registers, mem: Memory)
    requires Sound(cfg)
    ensures NothingEverLost(p, cfg, regs, mem)
  {
    hide NeverLoses;
    forall k ensures NeverLoses(p, cfg, regs, mem, k) { SoundNeverLoses(p, cfg, regs, mem, k); }
  }

  lemma HaltMeetsNoJunk(p: Program, regs: Registers, mem: Memory, n: nat)
    requires HaltsAt(p, regs, mem, n)
    ensures !OracleMeetsJunk(p, regs, mem)
  {
    hide Oracle;
    forall k ensures !Oracle(p, regs, mem, k).DecodeFault? { AroundTheEnd(p, regs, mem, n, k); }
  }

  lemma DepartsBeforeHalt(p: Program, cfg: Config, regs: Registers, mem: Memory, n: nat, i: nat)
    requires HaltsAt(p, regs, mem, n) && Departs(p, regs, mem, i) && cfg.forwarding
    ensures 1 <= i <= n && !BehindStalls(cfg, p, regs, mem, i)
  {
    hide Step, AfterSteps;
    AroundTheEnd(p, regs, mem, n, i - 1);
    AroundTheEnd(p, regs, mem, n, i);
    if BehindStalls(cfg, p, regs, mem, i) { LoadGoesOn(p, regs, mem, i); }
  }

  lemma LoadGoesOn(p: Program, regs: Registers, mem: Memory, i: nat)
    requires Executes(p, regs, mem, i) && IsLoad(Traced(p, regs, mem, i).op) && !Oracle(p, regs, mem, i).MemoryFault?
    ensures !Departs(p, regs, mem, i)
  {
  }
}

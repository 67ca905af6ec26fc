/** Refinement over whole runs, for every program, every budget and every configuration. */
module Runs {
  import opened Encoding
  import opened Programs
  import opened Storage
  import opened Interpreting
  import opened Stages
  import opened Refinement

  /** The interpreter's start state over the same contents as `Start`. */
  function StartState(regs: Registers, mem: Memory): ArchState {
    ArchState(regs, mem, 0, 0)
  }

  /** The pipeline after `k` cycles from power-on. */
  function Run(p: Program, cfg: Config, regs: Registers, mem: Memory, k: nat): (b: Boundary)
    ensures b.Alive? ==> Legal(b.m)
  {
    AfterCycles(p, cfg, Start(regs, mem), k)
  }

  /** The interpreter after `n` steps from the same contents. */
  function Oracle(p: Program, regs: Registers, mem: Memory, n: nat): Progress {
    AfterSteps(p, StartState(regs, mem), n)
  }

  /** Agreement of a run with the interpreter at a boundary: the state stands for the
      interpreter's after `retired` steps; at a fault, registers, memory and count are the
      interpreter's at the same fault. */
  predicate Agrees(p: Program, regs: Registers, mem: Memory, b: Boundary) {
    var n := b.m.stats.retired;
    match b
    case Alive(m) => Legal(m) && Refines(p, StartState(regs, mem), m)
    case Finished(m) =>
      Oracle(p, regs, mem, n).Halted? && Oracle(p, regs, mem, n).s.(pc := 0) == ArchState(m.regs, m.mem, 0, n)
    case Faulted(m) =>
      Oracle(p, regs, mem, n) == MemoryFault(ArchState(m.regs, m.mem, m.exmem.pc, n))
    case BadFetch(_) => false
  }

  /** The cycle that starts at boundary `b` discards a redirect that mattered. */
  predicate Loses(p: Program, cfg: Config, b: Boundary)
    requires b.Alive? ==> Legal(b.m)
  {
    b.Alive? && Cycle(p, cfg, b.m).Next? && LosesRedirect(cfg, b.m)
  }

  predicate NeverLoses(p: Program, cfg: Config, regs: Registers, mem: Memory, k: nat) {
    forall j :: 0 <= j < k ==> !Loses(p, cfg, Run(p, cfg, regs, mem, j))
  }

  /** Agreement together with what the next cycle needs to know. Nothing is said of a run that threw
      on an undecodable word. */
  predicate BoundaryInv(p: Program, cfg: Config, regs: Registers, mem: Memory, b: Boundary, k: nat) {
    b.BadFetch? || (
      && Agrees(p, regs, mem, b)
      && b.m.cycle <= k
      && (b.Alive? ==> b.m.cycle == k && !Drained(b.m) && Structure(p, cfg, b.m))
      && (b.Finished? ==> Drained(b.m)))
  }

  lemma StartAgrees(p: Program, cfg: Config, regs: Registers, mem: Memory)
    requires regs[0] == 0
    ensures BoundaryInv(p, cfg, regs, mem, Run(p, cfg, regs, mem, 0), 0)
  {
  }

  lemma FaultAgrees(p: Program, cfg: Config, regs: Registers, mem: Memory, m: Machine)
    requires Inv(p, cfg, StartState(regs, mem), m) && Cycle(p, cfg, m).Refusing?
    ensures AfterCycle(p, cfg, m) == Faulted(Cycle(p, cfg, m).m)
    ensures Agrees(p, regs, mem, AfterCycle(p, cfg, m)) && Cycle(p, cfg, m).m.cycle == m.cycle + 1
  {
    hide Execute, DetectStall, Decode, ExecuteWith, DecodeStage, FetchStage, FromCode, Contiguous, HazardFree;
  }

  lemma DrainAgrees(p: Program, regs: Registers, mem: Memory, m: Machine)
    requires Legal(m) && Refines(p, StartState(regs, mem), m)
    ensures Agrees(p, regs, mem, Settle(m))
  {
  }

  lemma NextAgrees(p: Program, cfg: Config, regs: Registers, mem: Memory, m: Machine, k: nat)
    requires BoundaryInv(p, cfg, regs, mem, Alive(m), k)
    requires Cycle(p, cfg, m).Next? && !LosesRedirect(cfg, m)
    ensures BoundaryInv(p, cfg, regs, mem, AfterCycle(p, cfg, m), k + 1)
  {
    hide Execute, DetectStall, Decode, ExecuteWith, DecodeStage, FetchStage, MemoryStage, WriteBack;
    var m' := Cycle(p, cfg, m).m;
    CyclePreserves(p, cfg, StartState(regs, mem), m);
    DrainAgrees(p, regs, mem, m');
    assert m'.cycle == m.cycle + 1;
  }

  /** One more cycle, whatever it ends in. */
  lemma CycleAgrees(p: Program, cfg: Config, regs: Registers, mem: Memory, m: Machine, k: nat)
    requires BoundaryInv(p, cfg, regs, mem, Alive(m), k) && Legal(m)
    requires Cycle(p, cfg, m).Next? ==> !LosesRedirect(cfg, m)
    ensures BoundaryInv(p, cfg, regs, mem, AfterCycle(p, cfg, m), k + 1)
  {
    hide Cycle, Refines, Structure, LosesRedirect;
    match Cycle(p, cfg, m)
    case Next(_) => NextAgrees(p, cfg, regs, mem, m, k);
    case Refusing(_) => FaultAgrees(p, cfg, regs, mem, m);
    case Undecodable(_) =>
  }

  lemma StructureIsLegal(p: Program, cfg: Config, m: Machine)
    requires Structure(p, cfg, m)
    ensures Legal(m)
  {
  }

  /** Every boundary of a run that loses no redirect agrees with the interpreter, unless the run
      threw on an undecodable word. */
  lemma {:induction false} RunAgrees(p: Program, cfg: Config, regs: Registers, mem: Memory, k: nat)
    requires regs[0] == 0 && NeverLoses(p, cfg, regs, mem, k)
    ensures BoundaryInv(p, cfg, regs, mem, Run(p, cfg, regs, mem, k), k)
  {
    hide Agrees, Structure, LosesRedirect, AfterCycle, Cycle;
    if k == 0 {
      StartAgrees(p, cfg, regs, mem);
    } else {
      RunAgrees(p, cfg, regs, mem, k - 1);
      var before := Run(p, cfg, regs, mem, k - 1);
      assert !Loses(p, cfg, before);
      if before.Alive? { CycleAgrees(p, cfg, regs, mem, before.m, k - 1); }
    }
  }

  /** The configurations in which a redirect cannot be lost: forwarding on (as the source is
      written), or the arbitration that lets the flush win. */
  predicate Sound(cfg: Config) {
    cfg.forwarding || cfg.flushWins
  }

  lemma SoundNeverLoses(p: Program, cfg: Config, regs: Registers, mem: Memory, k: nat)
    requires Sound(cfg)
    ensures NeverLoses(p, cfg, regs, mem, k)
  {
    hide Run, Cycle, Stalls, Execute;
    forall j | 0 <= j < k
      ensures !Loses(p, cfg, Run(p, cfg, regs, mem, j))
    {
      var b := Run(p, cfg, regs, mem, j);
      if b.Alive? && cfg.forwarding {
        ForwardingNeverCoincides(cfg, b.m);
      }
    }
  }

  /** The central theorem: at every cycle boundary of every run of every program, the pipeline stands
      for the interpreter after exactly `retired` steps, unless the fetch stage has thrown on an
      undecodable word. */
  lemma PipelineRefinesInterpreter(p: Program, cfg: Config, regs: Registers, mem: Memory, k: nat)
    requires regs[0] == 0 && Sound(cfg)
    ensures Agrees(p, regs, mem, Run(p, cfg, regs, mem, k)) <==> !Run(p, cfg, regs, mem, k).BadFetch?
  {
    hide Run, NeverLoses, Refines;
    SoundNeverLoses(p, cfg, regs, mem, k);
    RunAgrees(p, cfg, regs, mem, k);
  }

  // ---- Any configuration ---------------------------------------------------------------

  lemma LossDisagrees(p: Program, cfg: Config, regs: Registers, mem: Memory, j: nat)
    requires regs[0] == 0
    requires BoundaryInv(p, cfg, regs, mem, Run(p, cfg, regs, mem, j), j)
    requires Loses(p, cfg, Run(p, cfg, regs, mem, j))
    ensures !Agrees(p, regs, mem, Run(p, cfg, regs, mem, j + 1))
  {
    hide ExecuteWith, ForwardValue, Decode, DetectStall, MemoryStage, WriteBack, FromCode, Contiguous, HazardFree,
      OperandsCurrent;
    var m := Run(p, cfg, regs, mem, j).m;
    CyclePreserves(p, cfg, StartState(regs, mem), m);
    ExecuteKeepsInstruction(m.idex, OperandA(cfg.forwarding, m).0, OperandB(cfg.forwarding, m).0);
    assert !Drained(Cycle(p, cfg, m).m);
  }

  lemma {:induction false} FirstLoss(p: Program, cfg: Config, regs: Registers, mem: Memory, k: nat) returns (j: nat)
    requires !NeverLoses(p, cfg, regs, mem, k)
    ensures j < k && NeverLoses(p, cfg, regs, mem, j) && Loses(p, cfg, Run(p, cfg, regs, mem, j))
  {
    hide Loses, Run;
    if NeverLoses(p, cfg, regs, mem, k - 1) {
      j := k - 1;
    } else {
      j := FirstLoss(p, cfg, regs, mem, k - 1);
    }
  }

  lemma {:induction false} BadFetchStays(p: Program, cfg: Config, regs: Registers, mem: Memory, j: nat, k: nat)
    requires j <= k && Run(p, cfg, regs, mem, j).BadFetch?
    ensures Run(p, cfg, regs, mem, k) == Run(p, cfg, regs, mem, j)
  {
    hide AfterCycle;
    if j == k {
    } else {
      BadFetchStays(p, cfg, regs, mem, j, k - 1);
    }
  }

  /** Agreement at every boundary up to the `k`-th. */
  predicate AgreesThroughout(p: Program, cfg: Config, regs: Registers, mem: Memory, k: nat) {
    forall j :: 0 <= j <= k ==> Agrees(p, regs, mem, Run(p, cfg, regs, mem, j))
  }

  /** The exact condition on a run, in any configuration: it agrees with the interpreter at every
      boundary if and only if no cycle of it loses a redirect or fetches an undecodable word. */
  lemma AgreesIffNothingLost(p: Program, cfg: Config, regs: Registers, mem: Memory, k: nat)
    requires regs[0] == 0
    ensures AgreesThroughout(p, cfg, regs, mem, k) <==>
      NeverLoses(p, cfg, regs, mem, k) && !Run(p, cfg, regs, mem, k).BadFetch?
  {
    hide Run, Loses, Refines, Structure;
    if NeverLoses(p, cfg, regs, mem, k) {
      forall j | 0 <= j <= k && !Run(p, cfg, regs, mem, k).BadFetch?
        ensures Agrees(p, regs, mem, Run(p, cfg, regs, mem, j))
      {
        RunAgrees(p, cfg, regs, mem, j);
        if Run(p, cfg, regs, mem, j).BadFetch? { BadFetchStays(p, cfg, regs, mem, j, k); }
      }
      assert Run(p, cfg, regs, mem, k).BadFetch? ==> !Agrees(p, regs, mem, Run(p, cfg, regs, mem, k));
    } else {
      var j := FirstLoss(p, cfg, regs, mem, k);
      RunAgrees(p, cfg, regs, mem, j);
      LossDisagrees(p, cfg, regs, mem, j);
    }
  }

  /** No cycle before the `k`-th has a stall and a transfer at once. */
  predicate NeverCoincides(p: Program, cfg: Config, regs: Registers, mem: Memory, k: nat) {
    forall j :: 0 <= j < k ==> !Collides(p, cfg, Run(p, cfg, regs, mem, j))
  }

  predicate Collides(p: Program, cfg: Config, b: Boundary)
    requires b.Alive? ==> Legal(b.m)
  {
    b.Alive? && Cycle(p, cfg, b.m).Next? && Coincide(cfg, b.m)
  }

  lemma SameCycle(p: Program, forwarding: bool, b: Boundary)
    requires b.Alive? && Legal(b.m) && !Collides(p, Config(forwarding, false), b)
    ensures AfterCycle(p, Config(forwarding, false), b.m) == AfterCycle(p, Config(forwarding, true), b.m)
  {
    hide ExecuteWith, ForwardValue, DetectStall, Decode, MemoryStage, WriteBack;
    assert Cycle(p, Config(forwarding, false), b.m) == Cycle(p, Config(forwarding, true), b.m);
  }

  /** As long as stalls and transfers do not coincide, the arbitration does not matter. */
  lemma {:induction false} ArbitrationIrrelevant(p: Program, forwarding: bool, regs: Registers, mem: Memory, k: nat)
    requires NeverCoincides(p, Config(forwarding, false), regs, mem, k)
    ensures Run(p, Config(forwarding, false), regs, mem, k) == Run(p, Config(forwarding, true), regs, mem, k)
  {
    hide Coincide, AfterCycle;
    if k == 0 {
    } else {
      ArbitrationIrrelevant(p, forwarding, regs, mem, k - 1);
      var b := Run(p, Config(forwarding, false), regs, mem, k - 1);
      assert !Collides(p, Config(forwarding, false), b);
      if b.Alive? {
        SameCycle(p, forwarding, b);
      }
    }
  }
}

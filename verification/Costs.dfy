/** What stalls and flushes cost, and what forwarding is worth, pair by pair of the interpreter's trace. */
module Costs {
  import opened Programs
  import opened Storage
  import opened Interpreting
  import opened Stages
  import opened Runs
  import opened Timing
  import opened Schedule
  import opened Outcomes
  import opened Exactness

  // ---- Without forwarding ----------------------------------------------------------------------

  /** The `n`-th instruction reads the result of the one before it, which lets it follow. */
  predicate NearPair(cfg: Config, p: Program, regs: Registers, mem: Memory, n: nat) {
    n >= 1 && !Diverts(cfg, p, regs, mem, n - 1) && Depends(p, regs, mem, n - 1, n)
  }

  /** The `n`-th instruction reads the result of the one two before it, and no other delay has
      come between the three. */
  predicate FarPair(cfg: Config, p: Program, regs: Registers, mem: Memory, n: nat)
    decreases n, 0
  {
    && n >= 3 && !Diverts(cfg, p, regs, mem, n - 1) && !Depends(p, regs, mem, n - 1, n)
    && Depends(p, regs, mem, n - 2, n) && Follows(cfg, p, regs, mem, n - 1)
  }

  /** Nothing delays the `n`-th instruction behind the one before it. */
  predicate Follows(cfg: Config, p: Program, regs: Registers, mem: Memory, n: nat)
    requires n >= 1
    decreases n, 1
  {
    && !Diverts(cfg, p, regs, mem, n - 1) && !Depends(p, regs, mem, n - 1, n)
    && !FarPair(cfg, p, regs, mem, n)
  }

  /** The distance between consecutive instructions in EX, without forwarding. */
  lemma {:induction false} SlowGap(cfg: Config, p: Program, regs: Registers, mem: Memory, n: nat)
    requires !cfg.forwarding && n >= 1
    ensures
      ExTime(cfg, p, regs, mem, n) - ExTime(cfg, p, regs, mem, n - 1) ==
        if Diverts(cfg, p, regs, mem, n - 1) || Depends(p, regs, mem, n - 1, n) then 3
        else if FarPair(cfg, p, regs, mem, n) then 2
        else 1
    ensures Follows(cfg, p, regs, mem, n) <==> ExTime(cfg, p, regs, mem, n) == ExTime(cfg, p, regs, mem, n - 1) + 1
  {
    hide Depends, Diverts;
    if n == 1 {
      FirstGap(cfg, p, regs, mem);
    } else {
      SlowGap(cfg, p, regs, mem, n - 1);
      NothingBeforeFirst(p, regs, mem, n);
    }
  }

  lemma FirstGap(cfg: Config, p: Program, regs: Registers, mem: Memory)
    ensures ExTime(cfg, p, regs, mem, 0) == 2 && ExTime(cfg, p, regs, mem, 1) == 3
    ensures !Diverts(cfg, p, regs, mem, 0) && !Depends(p, regs, mem, 0, 1)
  {
    FirstExTime(cfg, p, regs, mem);
  }

  // ---- With forwarding ---------------------------------------------------------------------------

  lemma LoadsDoNotTransfer(p: Program, regs: Registers, mem: Memory, i: nat, j: nat)
    ensures LoadUse(p, regs, mem, i, j) ==> !Transfers(p, regs, mem, i) && Depends(p, regs, mem, i, j)
  {
    hide Executes;
  }

  /** The distance between consecutive instructions in EX, with forwarding. */
  lemma FastGap(cfg: Config, p: Program, regs: Registers, mem: Memory, n: nat)
    requires cfg.forwarding && n >= 1
    ensures
      ExTime(cfg, p, regs, mem, n) - ExTime(cfg, p, regs, mem, n - 1) ==
        if Transfers(p, regs, mem, n - 1) then 3 else if LoadUse(p, regs, mem, n - 1, n) then 2 else 1
  {
    hide LoadUse, Diverts, Transfers;
    SoundDiverts(cfg, p, regs, mem, n - 1);
    LoadsDoNotTransfer(p, regs, mem, n - 1, n);
  }

  // ---- Stalls -------------------------------------------------------------------------------------

  /** The stalls an instruction spends in ID: with forwarding one behind a load it reads and none
      otherwise; without, two behind any adjacent producer and one behind a producer two before. */
  function PairStalls(cfg: Config, p: Program, regs: Registers, mem: Memory, n: nat): nat
    requires n >= 1
  {
    if cfg.forwarding then Count(LoadUse(p, regs, mem, n - 1, n))
    else 2 * Count(NearPair(cfg, p, regs, mem, n)) + Count(FarPair(cfg, p, regs, mem, n))
  }

  /** An instruction is in EX one cycle behind its predecessor, plus its stalls, or three behind one
      that diverts the fetch. An adjacent load-use pair costs one stall with forwarding and two
      without; any other adjacent dependence costs none with forwarding and two without. */
  lemma StallsOfPair(cfg: Config, p: Program, regs: Registers, mem: Memory, n: nat)
    requires n >= 1
    ensures
      ExTime(cfg, p, regs, mem, n) == ExTime(cfg, p, regs, mem, n - 1) + PairStalls(cfg, p, regs, mem, n) +
        if Diverts(cfg, p, regs, mem, n - 1) then 3 else 1
    ensures Depends(p, regs, mem, n - 1, n) && !Diverts(cfg, p, regs, mem, n - 1) ==>
      PairStalls(cfg, p, regs, mem, n) ==
        if !cfg.forwarding then 2 else if LoadUse(p, regs, mem, n - 1, n) then 1 else 0
  {
    hide LoadUse, Diverts, Transfers, Depends, ExTime, Follows;
    if cfg.forwarding {
      FastGap(cfg, p, regs, mem, n);
      SoundDiverts(cfg, p, regs, mem, n - 1);
      LoadsDoNotTransfer(p, regs, mem, n - 1, n);
    } else {
      SlowGap(cfg, p, regs, mem, n);
    }
  }

  /** The adjacent load-use pairs among the first `n` instructions. */
  function LoadUseCount(p: Program, regs: Registers, mem: Memory, n: nat): nat {
    if n == 0 then 0 else LoadUseCount(p, regs, mem, n - 1) + Count(LoadUse(p, regs, mem, n - 1, n))
  }

  function NearCount(cfg: Config, p: Program, regs: Registers, mem: Memory, n: nat): nat {
    if n == 0 then 0 else NearCount(cfg, p, regs, mem, n - 1) + Count(NearPair(cfg, p, regs, mem, n))
  }

  function FarCount(cfg: Config, p: Program, regs: Registers, mem: Memory, n: nat): nat {
    if n == 0 then 0 else FarCount(cfg, p, regs, mem, n - 1) + Count(FarPair(cfg, p, regs, mem, n))
  }

  /** The taken branches and jumps among the first `n` instructions. */
  function TransferCount(p: Program, regs: Registers, mem: Memory, n: nat): nat {
    if n == 0 then 0 else TransferCount(p, regs, mem, n - 1) + Count(Transfers(p, regs, mem, n))
  }

  /** All the stalls up to the `n`-th instruction. */
  function StallCount(cfg: Config, p: Program, regs: Registers, mem: Memory, n: nat): nat {
    if cfg.forwarding then LoadUseCount(p, regs, mem, n)
    else 2 * NearCount(cfg, p, regs, mem, n) + FarCount(cfg, p, regs, mem, n)
  }

  lemma {:induction false} SoundDivertCount(cfg: Config, p: Program, regs: Registers, mem: Memory, n: nat)
    requires Sound(cfg)
    ensures DivertCount(cfg, p, regs, mem, n) == TransferCount(p, regs, mem, n)
  {
    hide Diverts, Transfers;
    if n == 0 {
    } else {
      SoundDivertCount(cfg, p, regs, mem, n - 1);
      SoundDiverts(cfg, p, regs, mem, n);
    }
  }

  lemma {:induction false} ExTimeSum(cfg: Config, p: Program, regs: Registers, mem: Memory, n: nat)
    requires n >= 1
    ensures ExTime(cfg, p, regs, mem, n) ==
      n + 2 + StallCount(cfg, p, regs, mem, n) + 2 * DivertCount(cfg, p, regs, mem, n - 1)
  {
    hide ExTime, Diverts, NearPair, FarPair, LoadUse, Depends;
    StallsOfPair(cfg, p, regs, mem, n);
    if n == 1 {
      FirstGap(cfg, p, regs, mem);
      assert StallCount(cfg, p, regs, mem, 0) == 0;
    } else {
      ExTimeSum(cfg, p, regs, mem, n - 1);
    }
  }

  lemma HaltIsNoTransfer(cfg: Config, p: Program, regs: Registers, mem: Memory, n: nat)
    requires HaltsAt(p, regs, mem, n)
    ensures !Diverts(cfg, p, regs, mem, n)
  {
    hide BehindStalls;
  }

  /** Every counter of a drained run, from the interpreter's trace. `flushes` is the number of
      redirects carried out - in a sound configuration, of taken branches and jumps - each costing two
      cycles. `stallCycles` is the number of adjacent load-use pairs with forwarding; without, twice the
      adjacent dependent pairs plus the dependent pairs at distance two that nothing else delays. */
  lemma CountersOfDrainedRun(p: Program, cfg: Config, regs: Registers, mem: Memory, n: nat, k: nat)
    requires regs[0] == 0 && NeverLoses(p, cfg, regs, mem, k)
    requires HaltsAt(p, regs, mem, n) && Run(p, cfg, regs, mem, k).Finished?
    ensures
      var stats := Run(p, cfg, regs, mem, k).m.stats;
      && stats.flushes == DivertCount(cfg, p, regs, mem, n) && stats.flushBubbles == 2 * stats.flushes
      && (Sound(cfg) ==> stats.flushes == TransferCount(p, regs, mem, n))
      && (cfg.forwarding ==> stats.stallCycles == LoadUseCount(p, regs, mem, n))
      && (!cfg.forwarding ==>
            stats.stallCycles == 2 * NearCount(cfg, p, regs, mem, n) + FarCount(cfg, p, regs, mem, n))
      && stats.cycles == stats.retired + stats.stallCycles + stats.flushBubbles + 4
  {
    hide ExTime, AfterSteps, AfterCycles, NeverLoses, Accounted, Diverts, TransferCount, LoadUseCount, NearCount,
      FarCount;
    DrainsWhenHalted(p, cfg, regs, mem, n, k);
    CyclesBalance(p, cfg, regs, mem, k);
    RunTimed(p, cfg, regs, mem, k);
    ExTimeSum(cfg, p, regs, mem, n);
    HaltIsNoTransfer(cfg, p, regs, mem, n);
    if Sound(cfg) { SoundDivertCount(cfg, p, regs, mem, n); }
  }

  // ---- What forwarding is worth ----------------------------------------------------------------------

  /** The redirect before the `n`-th instruction was dropped although that instruction does not wait
      for it: only forwarding pays for the flush. */
  predicate FreeDrop(slow: Config, p: Program, regs: Registers, mem: Memory, n: nat) {
    && n >= 1 && Transfers(p, regs, mem, n - 1) && !Diverts(slow, p, regs, mem, n - 1)
    && !Depends(p, regs, mem, n - 1, n)
  }

  function FreeDropCount(slow: Config, p: Program, regs: Registers, mem: Memory, n: nat): nat {
    if n == 0 then 0 else FreeDropCount(slow, p, regs, mem, n - 1) + Count(FreeDrop(slow, p, regs, mem, n))
  }

  /** The stalls forwarding saves before the `n`-th instruction: one of the two behind a load, both
      behind any other adjacent producer, and the one behind a producer two before. */
  function Saved(slow: Config, p: Program, regs: Registers, mem: Memory, n: nat): nat
    requires n >= 1
  {
    if Transfers(p, regs, mem, n - 1) then 0
    else if LoadUse(p, regs, mem, n - 1, n) then 1
    else if Depends(p, regs, mem, n - 1, n) then 2
    else Count(FarPair(slow, p, regs, mem, n))
  }

  function SavedCount(slow: Config, p: Program, regs: Registers, mem: Memory, n: nat): nat {
    if n == 0 then 0 else SavedCount(slow, p, regs, mem, n - 1) + Saved(slow, p, regs, mem, n)
  }

  lemma OnlyTransfersDivert(cfg: Config, p: Program, regs: Registers, mem: Memory, n: nat)
    ensures Diverts(cfg, p, regs, mem, n) ==> Transfers(p, regs, mem, n)
  {
    hide Transfers, BehindStalls;
  }

  /** The gap before an instruction shrinks by the stalls forwarding saves; it grows only at a free drop. */
  lemma GapsCompared(fast: Config, slow: Config, p: Program, regs: Registers, mem: Memory, n: nat)
    requires fast.forwarding && !slow.forwarding && n >= 1 && !FreeDrop(slow, p, regs, mem, n)
    ensures
      ExTime(fast, p, regs, mem, n) - ExTime(fast, p, regs, mem, n - 1) + Saved(slow, p, regs, mem, n)
      == ExTime(slow, p, regs, mem, n) - ExTime(slow, p, regs, mem, n - 1)
  {
    hide ExTime, Transfers, Diverts, Depends, LoadUse, FarPair, Follows;
    FastGap(fast, p, regs, mem, n);
    SlowGap(slow, p, regs, mem, n);
    OnlyTransfersDivert(slow, p, regs, mem, n - 1);
    LoadsDoNotTransfer(p, regs, mem, n - 1, n);
    FarPairIsPlain(slow, p, regs, mem, n);
  }

  lemma FarPairIsPlain(cfg: Config, p: Program, regs: Registers, mem: Memory, n: nat)
    ensures FarPair(cfg, p, regs, mem, n) ==> n >= 1 && !Depends(p, regs, mem, n - 1, n)
  {
    hide Depends, Follows, Diverts;
  }

  /** A dropped redirect that loses nothing goes to the next address, where the stall that dropped it
      is for a producer two before: the flush is saved and one stall is paid. */
  lemma FreeDropIsFar(slow: Config, p: Program, regs: Registers, mem: Memory, n: nat)
    requires !slow.forwarding && FreeDrop(slow, p, regs, mem, n)
    requires Executes(p, regs, mem, n) && !LosesAt(slow, p, regs, mem, n - 1)
    ensures FarPair(slow, p, regs, mem, n)
  {
    hide ExTime, Oracle, Feeds, Follows, Redirects, Decodes;
    assert !Departs(p, regs, mem, n - 1);
    assert BehindStalls(slow, p, regs, mem, n - 1);
    assert !FeedsBehind(p, regs, mem, n - 1, n - 1);
    assert n >= 3;
    assert FeedsBehind(p, regs, mem, n - 2, n - 1);
    assert Depends(p, regs, mem, n - 2, n);
    SlowGap(slow, p, regs, mem, n - 1);
  }

  lemma DropCompared(fast: Config, slow: Config, p: Program, regs: Registers, mem: Memory, n: nat)
    requires fast.forwarding && !slow.forwarding && FreeDrop(slow, p, regs, mem, n)
    requires Executes(p, regs, mem, n) && !LosesAt(slow, p, regs, mem, n - 1)
    ensures ExTime(fast, p, regs, mem, n) - ExTime(fast, p, regs, mem, n - 1) == 3
    ensures ExTime(slow, p, regs, mem, n) - ExTime(slow, p, regs, mem, n - 1) == 2
    ensures Saved(slow, p, regs, mem, n) == 0
  {
    hide ExTime, Transfers, Diverts, Depends, LoadUse, FarPair, Follows, Executes, LosesAt;
    FastGap(fast, p, regs, mem, n);
    SlowGap(slow, p, regs, mem, n);
    FreeDropIsFar(slow, p, regs, mem, n);
  }

  /** The first `n` instructions execute, and no redirect among those before the last is lost. */
  ghost predicate OnPath(slow: Config, p: Program, regs: Registers, mem: Memory, n: nat) {
    forall i :: 1 <= i <= n ==> Executes(p, regs, mem, i) && (i < n ==> !LosesAt(slow, p, regs, mem, i))
  }

  /** The difference between the two schedules: the stalls saved against the free drops. */
  lemma {:induction false} ForwardingBalance(fast: Config, slow: Config, p: Program, regs: Registers, mem: Memory,
      n: nat)
    requires fast.forwarding && !slow.forwarding && OnPath(slow, p, regs, mem, n)
    ensures ExTime(fast, p, regs, mem, n) + SavedCount(slow, p, regs, mem, n) ==
      ExTime(slow, p, regs, mem, n) + FreeDropCount(slow, p, regs, mem, n)
  {
    hide ExTime, Saved, FreeDrop, Executes, LosesAt;
    if n == 0 {
      ExTimeStarts(fast, p, regs, mem);
      ExTimeStarts(slow, p, regs, mem);
    } else {
      ForwardingBalance(fast, slow, p, regs, mem, n - 1);
      if FreeDrop(slow, p, regs, mem, n) {
        FreeDropLater(slow, p, regs, mem, n);
        DropCompared(fast, slow, p, regs, mem, n);
      } else {
        GapsCompared(fast, slow, p, regs, mem, n);
      }
    }
  }

  lemma FreeDropLater(slow: Config, p: Program, regs: Registers, mem: Memory, n: nat)
    requires FreeDrop(slow, p, regs, mem, n)
    ensures n >= 2
  {
    hide Oracle, Diverts, Depends;
  }

  /** No redirect among the first `n` instructions was dropped for free. */
  predicate NoFreeDrop(slow: Config, p: Program, regs: Registers, mem: Memory, n: nat) {
    forall i :: 0 <= i <= n ==> !FreeDrop(slow, p, regs, mem, i)
  }

  /** Instruction for instruction, forwarding is never later than a machine that drops no redirect
      for free. */
  lemma {:induction false} ForwardingNeverLater(fast: Config, slow: Config, p: Program, regs: Registers, mem: Memory,
      n: nat)
    requires fast.forwarding && !slow.forwarding && NoFreeDrop(slow, p, regs, mem, n)
    ensures ExTime(fast, p, regs, mem, n) <= ExTime(slow, p, regs, mem, n)
  {
    hide ExTime, FreeDrop, Saved;
    if n == 0 {
      ExTimeStarts(fast, p, regs, mem);
      ExTimeStarts(slow, p, regs, mem);
    } else {
      ForwardingNeverLater(fast, slow, p, regs, mem, n - 1);
      GapsCompared(fast, slow, p, regs, mem, n);
    }
  }

  lemma DrainedIsOnPath(p: Program, slow: Config, regs: Registers, mem: Memory, n: nat, l: nat)
    requires regs[0] == 0 && HaltsAt(p, regs, mem, n)
    requires NeverLoses(p, slow, regs, mem, l) && Run(p, slow, regs, mem, l).Finished?
    ensures OnPath(slow, p, regs, mem, n)
  {
    hide Run, NeverLoses, ExTime, LosesAt, Executes, HaltsAt, Oracle;
    DrainsWhenHalted(p, slow, regs, mem, n, l);
    LossesOnTrace(p, slow, regs, mem, l);
    forall i: nat | 1 <= i <= n
      ensures Executes(p, regs, mem, i) && !LosesAt(slow, p, regs, mem, i)
    {
      HaltingExecutes(p, regs, mem, n, i);
      ExTimeMonotone(slow, p, regs, mem, i, n);
    }
  }

  /** Every step up to the halting one executes an instruction. */
  lemma HaltingExecutes(p: Program, regs: Registers, mem: Memory, n: nat, i: nat)
    requires HaltsAt(p, regs, mem, n) && 1 <= i <= n
    ensures Executes(p, regs, mem, i)
  {
    hide Perform;
    AroundTheEnd(p, regs, mem, n, i);
    AroundTheEnd(p, regs, mem, n, i - 1);
  }

  /** What forwarding is worth, exactly. The two modes end in the same state; the difference in cycles
      is the stalls forwarding saves against the redirects that a stall dropped for free without it. So
      forwarding takes no more cycles if and only if it saves at least that many, and always if none
      was dropped for free - in particular when the flush wins. */
  lemma ForwardingNeverCosts(p: Program, fast: Config, slow: Config, regs: Registers, mem: Memory, n: nat, k: nat,
      l: nat)
    requires regs[0] == 0 && HaltsAt(p, regs, mem, n)
    requires fast.forwarding && !slow.forwarding && NeverLoses(p, slow, regs, mem, l)
    requires Run(p, fast, regs, mem, k).Finished? && Run(p, slow, regs, mem, l).Finished?
    ensures
      var a, b := Run(p, fast, regs, mem, k).m, Run(p, slow, regs, mem, l).m;
      var saved, dropped := SavedCount(slow, p, regs, mem, n), FreeDropCount(slow, p, regs, mem, n);
      && a.regs == b.regs && a.mem == b.mem && a.stats.retired == b.stats.retired
      && a.stats.cycles + saved == b.stats.cycles + dropped
      && (a.stats.cycles <= b.stats.cycles <==> dropped <= saved)
      && (NoFreeDrop(slow, p, regs, mem, n) ==> a.stats.cycles <= b.stats.cycles)
      && (slow.flushWins ==> NoFreeDrop(slow, p, regs, mem, n) && a.stats.flushes == b.stats.flushes)
  {
    hide ExTime, Oracle, AfterCycles, NeverLoses, Run, HaltsAt, SavedCount, FreeDropCount, OnPath, DivertCount,
      TransferCount,
      NoFreeDrop, NearCount, FarCount, LoadUseCount;
    SoundNeverLoses(p, fast, regs, mem, k);
    DrainsWhenHalted(p, fast, regs, mem, n, k);
    DrainsWhenHalted(p, slow, regs, mem, n, l);
    DrainedIsOnPath(p, slow, regs, mem, n, l);
    ForwardingBalance(fast, slow, p, regs, mem, n);
    if NoFreeDrop(slow, p, regs, mem, n) { ForwardingNeverLater(fast, slow, p, regs, mem, n); }
    if slow.flushWins {
      FlushWinsDropsNone(slow, p, regs, mem, n);
      CountersOfDrainedRun(p, fast, regs, mem, n, k);
      CountersOfDrainedRun(p, slow, regs, mem, n, l);
    }
  }

  lemma FlushWinsDropsNone(cfg: Config, p: Program, regs: Registers, mem: Memory, n: nat)
    requires cfg.flushWins
    ensures NoFreeDrop(cfg, p, regs, mem, n)
  {
    hide Transfers, Depends, BehindStalls;
  }
}

/** When each instruction executes, as a function of the interpreter's trace alone. */
module Timing {
  import opened Words
  import opened Isa
  import opened Encoding
  import opened Alu
  import opened Programs
  import opened Storage
  import opened Stages
  import opened Refinement
  import opened Runs

  // ---- Dependences between instructions ------------------------------------------------

  /** The register an instruction leaves a result in, or r0 for none. */
  function Destination(i: Instruction): UInt8 {
    match FormatOf(i.op)
    case FormatR => i.rd
    case FormatI => if IsStore(i.op) then 0 else i.rd
    case FormatB => 0
    case FormatJ => if i.op == JAL then RETURN_ADDR_REG else 0
  }

  predicate Reads(i: Instruction, r: UInt8) {
    match FormatOf(i.op)
    case FormatR => r == i.rs || r == i.rt
    case FormatI => r == i.rs || (IsStore(i.op) && r == i.rd)
    case FormatB => r == i.rs || r == i.rt
    case FormatJ => false
  }

  predicate Feeds(producer: Instruction, consumer: Instruction) {
    Destination(producer) != 0 && Reads(consumer, Destination(producer))
  }

  /** The instruction sends control elsewhere than to its successor. */
  predicate Redirects(i: Instruction, regs: Registers)
    requires RegistersInRange(i)
  {
    i.op == J || i.op == JAL || (FormatOf(i.op) == FormatB && BranchTaken(i.op, regs[i.rs], regs[i.rt]))
  }

  lemma ConflictsIsFeeds(l: Latch, consumer: Instruction)
    requires !l.bubble && Sane(l) && RegistersInRange(consumer)
    ensures Conflicts(MakeControl(consumer), l) <==> Feeds(l.inst, consumer)
    ensures l.ctrl.memRead <==> IsLoad(l.inst.op)
  {
  }

  // ---- The interpreter's trace ----------------------------------------------------------

  /** The interpreter executes an `n`-th instruction. */
  predicate Executes(p: Program, regs: Registers, mem: Memory, n: nat) {
    n >= 1 && Oracle(p, regs, mem, n - 1).Running? && Decodes(p, Oracle(p, regs, mem, n - 1).s.pc)
  }

  function Traced(p: Program, regs: Registers, mem: Memory, n: nat): Instruction
    requires Executes(p, regs, mem, n)
  {
    InstAt(p, Oracle(p, regs, mem, n - 1).s.pc)
  }

  /** The `n`-th instruction is a jump or a taken branch. */
  predicate Transfers(p: Program, regs: Registers, mem: Memory, n: nat) {
    Executes(p, regs, mem, n) && Redirects(Traced(p, regs, mem, n), Oracle(p, regs, mem, n - 1).s.regs)
  }

  predicate Depends(p: Program, regs: Registers, mem: Memory, i: nat, j: nat) {
    && Executes(p, regs, mem, i) && Executes(p, regs, mem, j)
    && Feeds(Traced(p, regs, mem, i), Traced(p, regs, mem, j))
  }

  /** The `i`-th instruction is a load that the `j`-th one reads. */
  predicate LoadUse(p: Program, regs: Registers, mem: Memory, i: nat, j: nat) {
    Depends(p, regs, mem, i, j) && IsLoad(Traced(p, regs, mem, i).op)
  }

  function Max(a: int, b: int): int { if a >= b then a else b }

  /** A lower bound that applies only under a condition. */
  function AtLeast(bound: bool, time: int, otherwise: int): int {
    if bound then Max(time, otherwise) else otherwise
  }

  /** The code goes on behind the `n`-th executed instruction. */
  predicate HasBehind(p: Program, regs: Registers, mem: Memory, n: nat) {
    Executes(p, regs, mem, n) && Decodes(p, NextPc(Oracle(p, regs, mem, n - 1).s.pc))
  }

  /** The `i`-th instruction feeds the one that stands behind the `n`-th in the code. */
  predicate FeedsBehind(p: Program, regs: Registers, mem: Memory, i: nat, n: nat) {
    && HasBehind(p, regs, mem, n) && Executes(p, regs, mem, i)
    && Feeds(Traced(p, regs, mem, i), InstAt(p, NextPc(Oracle(p, regs, mem, n - 1).s.pc)))
  }

  /** The instruction behind the `n`-th one in the code stalls while the `n`-th is in EX: with
      forwarding behind a load that feeds it, without behind any producer still in EX or MEM. */
  predicate BehindStalls(cfg: Config, p: Program, regs: Registers, mem: Memory, n: nat)
    decreases n, 1
  {
    if cfg.forwarding then FeedsBehind(p, regs, mem, n, n) && IsLoad(Traced(p, regs, mem, n).op)
    else
      FeedsBehind(p, regs, mem, n, n) ||
      (n >= 2 && ExTime(cfg, p, regs, mem, n) == ExTime(cfg, p, regs, mem, n - 1) + 1 &&
        FeedsBehind(p, regs, mem, n - 1, n))
  }

  /** The `n`-th instruction redirects control, and no stall discards the redirect. */
  predicate Diverts(cfg: Config, p: Program, regs: Registers, mem: Memory, n: nat)
    decreases n, 2
  {
    Transfers(p, regs, mem, n) && (cfg.flushWins || !BehindStalls(cfg, p, regs, mem, n))
  }

  /** The cycle in which the `n`-th instruction is in EX. It follows its predecessor by one
      cycle, or by three when the predecessor diverts the fetch. With forwarding it trails a
      load that feeds it by two; without, it trails every producer it reads by three. */
  function ExTime(cfg: Config, p: Program, regs: Registers, mem: Memory, n: nat): int
    decreases n, 0
  {
    if n == 0 then 2
    else
      var last := ExTime(cfg, p, regs, mem, n - 1);
      var next := last + (if Diverts(cfg, p, regs, mem, n - 1) then 3 else 1);
      if cfg.forwarding then AtLeast(LoadUse(p, regs, mem, n - 1, n), last + 2, next)
      else
        var trailing := AtLeast(Depends(p, regs, mem, n - 1, n), last + 3, next);
        if n == 1 then trailing
        else AtLeast(Depends(p, regs, mem, n - 2, n), ExTime(cfg, p, regs, mem, n - 2) + 3, trailing)
  }

  /** The number of carried-out redirects among the first `n` instructions. */
  function DivertCount(cfg: Config, p: Program, regs: Registers, mem: Memory, n: nat): nat {
    if n == 0 then 0 else DivertCount(cfg, p, regs, mem, n - 1) + Count(Diverts(cfg, p, regs, mem, n))
  }

  /** In a sound configuration every redirect is carried out. */
  lemma SoundDiverts(cfg: Config, p: Program, regs: Registers, mem: Memory, n: nat)
    requires Sound(cfg)
    ensures Diverts(cfg, p, regs, mem, n) <==> Transfers(p, regs, mem, n)
  {
    hide Executes, ExTime;
  }

  lemma ExTimeIncreases(cfg: Config, p: Program, regs: Registers, mem: Memory, n: nat)
    requires n >= 1
    ensures ExTime(cfg, p, regs, mem, n - 1) < ExTime(cfg, p, regs, mem, n)
  {
  }

  // ---- The invariant --------------------------------------------------------------------

  /** How the latches show the times `last` and `next` of the latest executed instruction and
      of the one after it. (If the access in EX/MEM faults there is no next instruction.) */
  predicate Slots(p: Program, cfg: Config, m: Machine, last: int, next: int)
    requires Legal(m)
  {
    var n, k := m.stats.retired, m.cycle;
    && (n >= 1 ==> last <= k)
    && (!m.exmem.bubble <==> n >= 1 && last == k)
    && (!m.idex.bubble && m.ifid.bubble ==> m.pc >= CodeBytes(p))
    && (if m.fetchStopped then
          n >= 1 && k == last + (if !m.exmem.bubble then 0 else if !m.memwb.bubble then 1 else 2)
        else if MemoryStage(m.mem, m.exmem).Refused? then true
        else if !m.idex.bubble then next == k + 1
        else if !m.ifid.bubble then next == k + 2 + Count(Stalls(cfg, m))
        else m.pc < CodeBytes(p) ==> next == k + 3)
  }

  /** EX/MEM holds the latest instruction of the trace. */
  predicate HoldsTraced(p: Program, regs: Registers, mem: Memory, exmem: Latch, n: nat) {
    !exmem.bubble ==> Executes(p, regs, mem, n) && exmem.inst == Traced(p, regs, mem, n)
  }

  /** Where the machine is on the schedule. */
  predicate OnSchedule(p: Program, cfg: Config, regs: Registers, mem: Memory, m: Machine)
    requires Legal(m)
  {
    var n := m.stats.retired;
    && Slots(p, cfg, m, ExTime(cfg, p, regs, mem, n), ExTime(cfg, p, regs, mem, n + 1))
    && HoldsTraced(p, regs, mem, m.exmem, n)
  }

  /** The counters agree with the trace. */
  predicate CountersExact(p: Program, cfg: Config, regs: Registers, mem: Memory, m: Machine) {
    m.stats.flushes == DivertCount(cfg, p, regs, mem, m.stats.retired) && m.stats.flushBubbles == 2 * m.stats.flushes
  }

  /** The next instruction of the trace is the one at the abstract PC. */
  lemma NextTraced(p: Program, regs: Registers, mem: Memory, m: Machine)
    requires Legal(m) && Refines(p, StartState(regs, mem), m)
    requires Completed(m.regs, m.mem, m.exmem, m.memwb).Complete? && !m.fetchStopped
    ensures
      var n := m.stats.retired + 1;
      && Oracle(p, regs, mem, n - 1).Running? && Oracle(p, regs, mem, n - 1).s.regs == RegsForEx(m)
      && Oracle(p, regs, mem, n - 1).s.pc == AbstractPc(m)
      && (Decodes(p, AbstractPc(m)) ==>
            Executes(p, regs, mem, n) && Traced(p, regs, mem, n) == InstAt(p, AbstractPc(m)))
  {
  }

  lemma FlushIsRedirect(l: Latch, regs: Registers)
    requires !l.bubble && Sane(l)
    ensures
      var ex := ExecuteWith(l, ReadPort(regs, l.ctrl.aReg), ReadPort(regs, l.ctrl.bReg));
      && (ex.countFlush <==> Redirects(l.inst, regs))
      && (ex.stopFetch <==> l.inst.op == RET)
      && (ex.flushYounger <==> ex.countFlush || ex.stopFetch)
      && !(ex.countFlush && ex.stopFetch)
      && ex.next.inst == l.inst && !ex.next.bubble
  {
  }

  /** EX requests a counted flush exactly for the trace's redirects. */
  lemma FlushIsTransfer(p: Program, cfg: Config, regs: Registers, mem: Memory, m: Machine)
    requires Inv(p, cfg, StartState(regs, mem), m) && !m.idex.bubble
    requires MemoryStage(m.mem, m.exmem).Accessed?
    ensures
      var n := m.stats.retired + 1;
      var ex := Execute(cfg.forwarding, m);
      && Executes(p, regs, mem, n) && Traced(p, regs, mem, n) == m.idex.inst
      && (ex.countFlush <==> Transfers(p, regs, mem, n))
      && (ex.flushYounger <==> ex.countFlush || ex.stopFetch)
      && !(ex.countFlush && ex.stopFetch)
      && ex.next.inst == m.idex.inst && !ex.next.bubble
  {
    NextTraced(p, regs, mem, m);
    OperandCorrect(p, cfg, m);
    FlushIsRedirect(m.idex, RegsForEx(m));
  }

  // ---- One cycle on the schedule ----------------------------------------------------------

  /** EX redirects control and the redirect is carried out. */
  predicate Diverting(cfg: Config, m: Machine) {
    Execute(cfg.forwarding, m).flushYounger && (cfg.flushWins || !Stalls(cfg, m))
  }

  /** What is fetched decodes. */
  predicate FetchDecodes(p: Program, cfg: Config, m: Machine) {
    !Stalls(cfg, m) && CanFetch(p, m) ==> Decode(WordAt(p, m.pc)).Success?
  }

  /** What a cycle does to the latches and counters when EX is idle. */
  predicate IdleStep(p: Program, cfg: Config, m: Machine, m': Machine) {
    && FetchDecodes(p, cfg, m)
    && m'.exmem.bubble && m'.cycle == m'.stats.cycles == m.cycle + 1 && m'.fetchStopped == m.fetchStopped
    && m'.memwb.bubble == m.exmem.bubble
    && m'.stats.retired == m.stats.retired
    && m'.stats.flushes == m.stats.flushes && m'.stats.flushBubbles == m.stats.flushBubbles
    && if Stalls(cfg, m) then
         m'.idex.bubble && m'.ifid == m.ifid && m'.stats.stallCycles == m.stats.stallCycles + 1 && m'.pc == m.pc
       else
         && m'.idex.bubble == m.ifid.bubble && m'.ifid == FetchStage(p, m)
         && m'.stats.stallCycles == m.stats.stallCycles
         && m'.pc == if CanFetch(p, m) then NextPc(m.pc) else m.pc
  }

  /** What a cycle does to the latches and counters when an instruction is in EX. */
  predicate BusyStep(p: Program, cfg: Config, m: Machine, m': Machine) {
    var ex := Execute(cfg.forwarding, m);
    && FetchDecodes(p, cfg, m)
    && m'.exmem == ex.next && m'.cycle == m'.stats.cycles == m.cycle + 1
    && m'.memwb.bubble == m.exmem.bubble
    && m'.stats.retired == m.stats.retired + 1
    && if Stalls(cfg, m) && !(cfg.flushWins && ex.flushYounger) then
         && m'.idex.bubble && m'.ifid == m.ifid && !m'.fetchStopped && m'.pc == m.pc
         && m'.stats.stallCycles == m.stats.stallCycles + 1
         && m'.stats.flushes == m.stats.flushes && m'.stats.flushBubbles == m.stats.flushBubbles
       else
         && m'.stats.stallCycles == m.stats.stallCycles
         && m'.stats.flushes == m.stats.flushes + Count(ex.flushYounger && ex.countFlush)
         && m'.stats.flushBubbles == m.stats.flushBubbles + 2 * Count(ex.flushYounger && ex.countFlush)
         && if ex.flushYounger then
              m'.idex.bubble && m'.ifid.bubble && m'.fetchStopped == ex.stopFetch
            else
              && m'.idex.bubble == m.ifid.bubble && m'.ifid == FetchStage(p, m) && !m'.fetchStopped
              && m'.pc == if CanFetch(p, m) then NextPc(m.pc) else m.pc
  }

  lemma CycleSteps(p: Program, cfg: Config, m: Machine)
    requires Legal(m) && Cycle(p, cfg, m).Next?
    ensures m.idex.bubble ==> IdleStep(p, cfg, m, Cycle(p, cfg, m).m)
    ensures !m.idex.bubble && !m.fetchStopped ==> BusyStep(p, cfg, m, Cycle(p, cfg, m).m)
  {
  }

  lemma SlotsIdle(p: Program, cfg: Config, m: Machine, m': Machine, last: int, next: int)
    requires Legal(m) && Legal(m') && Contiguous(m) && Slots(p, cfg, m, last, next)
    requires m.idex.bubble && IdleStep(p, cfg, m, m') && !Drained(m) && MemoryStage(m.mem, m.exmem).Accessed?
    ensures Slots(p, cfg, m', last, next)
  {
  }

  /** ID/EX and IF/ID hold the next two instructions of the trace. */
  predicate HoldsNextTwo(p: Program, regs: Registers, mem: Memory, m: Machine) {
    var n := m.stats.retired;
    && !m.idex.bubble && !m.ifid.bubble
    && Executes(p, regs, mem, n + 1) && Traced(p, regs, mem, n + 1) == m.idex.inst
    && Executes(p, regs, mem, n + 2) && Traced(p, regs, mem, n + 2) == m.ifid.inst
  }

  /** The hazard unit sees exactly the dependences of the trace. */
  lemma StallIsDependence(p: Program, cfg: Config, regs: Registers, mem: Memory, m: Machine)
    requires Legal(m) && HoldsTraced(p, regs, mem, m.exmem, m.stats.retired)
    requires HoldsNextTwo(p, regs, mem, m)
    ensures var n := m.stats.retired;
      var near, far := Depends(p, regs, mem, n + 1, n + 2), !m.exmem.bubble && Depends(p, regs, mem, n, n + 2);
      && Conflicts(MakeControl(m.ifid.inst), m.idex) == near
      && Stalls(cfg, m) == if cfg.forwarding then LoadUse(p, regs, mem, n + 1, n + 2) else near || far
  {
    ConflictsIsFeeds(m.idex, m.ifid.inst);
    if !m.exmem.bubble { ConflictsIsFeeds(m.exmem, m.ifid.inst); }
  }

  /** While an instruction is in EX, the hazard unit stalls exactly when the trace says so. */
  lemma StallIsBehindStall(p: Program, cfg: Config, regs: Registers, mem: Memory, m: Machine)
    requires Inv(p, cfg, StartState(regs, mem), m) && OnSchedule(p, cfg, regs, mem, m)
    requires !m.idex.bubble && MemoryStage(m.mem, m.exmem).Accessed?
    ensures Stalls(cfg, m) <==> BehindStalls(cfg, p, regs, mem, m.stats.retired + 1)
  {
    hide ExTime, MemoryStage, Refines, Feeds, Conflicts, MakeControl, Execute, CodeBytes, Decode, WordAt,
      OperandsCurrent, HazardFree,
      Oracle, Transfers, Completed;
    FlushIsTransfer(p, cfg, regs, mem, m);
    CompleteIffAccessed(m);
    NextTraced(p, regs, mem, m);
    if !m.ifid.bubble {
      ConflictsIsFeeds(m.idex, m.ifid.inst);
      if !m.exmem.bubble {
        ConflictsIsFeeds(m.exmem, m.ifid.inst);
      } else {
        NothingInFlight(MakeControl(m.ifid.inst), m.exmem);
      }
    }
  }

  lemma NothingInFlight(c: Control, l: Latch)
    requires l.bubble
    ensures !Conflicts(c, l)
  {
  }

  /** EX's redirect is carried out exactly when the trace diverts. */
  lemma DivertingIsDiverts(p: Program, cfg: Config, regs: Registers, mem: Memory, m: Machine)
    requires Inv(p, cfg, StartState(regs, mem), m) && OnSchedule(p, cfg, regs, mem, m)
    requires !m.idex.bubble && MemoryStage(m.mem, m.exmem).Accessed?
    ensures Diverting(cfg, m) && Execute(cfg.forwarding, m).countFlush <==>
      Diverts(cfg, p, regs, mem, m.stats.retired + 1)
  {
    hide ExTime, MemoryStage, Refines, Execute, Stalls, OnSchedule, BehindStalls, Transfers, Structure, Traced,
      Executes;
    FlushIsTransfer(p, cfg, regs, mem, m);
    StallIsBehindStall(p, cfg, regs, mem, m);
  }

  /** What the schedule says about the instruction behind one that does not redirect control. */
  lemma NextExTime(p: Program, cfg: Config, regs: Registers, mem: Memory, m: Machine)
    requires Legal(m) && OnSchedule(p, cfg, regs, mem, m) && !m.fetchStopped
    requires MemoryStage(m.mem, m.exmem).Accessed?
    requires HoldsNextTwo(p, regs, mem, m) && !Diverts(cfg, p, regs, mem, m.stats.retired + 1)
    ensures ExTime(cfg, p, regs, mem, m.stats.retired + 2) == m.cycle + 2 +
      if !Stalls(cfg, m) then 0
      else if !cfg.forwarding && Conflicts(MakeControl(m.ifid.inst), m.idex) then 2 else 1
  {
    hide ExTime, Depends, LoadUse, Diverts, Conflicts, Traced, Executes, DetectStall;
    StallIsDependence(p, cfg, regs, mem, m);
    NextExTimeArithmetic(p, cfg, regs, mem, m.stats.retired, m.cycle, m.exmem.bubble);
  }

  lemma NextExTimeArithmetic(p: Program, cfg: Config, regs: Registers, mem: Memory, n: nat, k: nat, clear: bool)
    requires !Diverts(cfg, p, regs, mem, n + 1)
    requires n >= 1 ==> ExTime(cfg, p, regs, mem, n) <= k
    requires !clear <==> n >= 1 && ExTime(cfg, p, regs, mem, n) == k
    requires ExTime(cfg, p, regs, mem, n + 1) == k + 1
    ensures ExTime(cfg, p, regs, mem, n + 2) == k + 2 +
      if cfg.forwarding then Count(LoadUse(p, regs, mem, n + 1, n + 2))
      else if Depends(p, regs, mem, n + 1, n + 2) then 2
      else Count(!clear && Depends(p, regs, mem, n, n + 2))
  {
    hide ExTime, Depends, LoadUse, Diverts;
    ExTimeIncreases(cfg, p, regs, mem, n + 1);
    ExTimeUnfolds(cfg, p, regs, mem, n + 2);
  }

  lemma ExTimeUnfolds(cfg: Config, p: Program, regs: Registers, mem: Memory, n: nat)
    requires n >= 2 && !Diverts(cfg, p, regs, mem, n - 1)
    ensures
      var last := ExTime(cfg, p, regs, mem, n - 1);
      ExTime(cfg, p, regs, mem, n) ==
        if cfg.forwarding then (if LoadUse(p, regs, mem, n - 1, n) then last + 2 else last + 1)
        else if Depends(p, regs, mem, n - 1, n) then Max(last + 3, ExTime(cfg, p, regs, mem, n - 2) + 3)
        else if n >= 3 && Depends(p, regs, mem, n - 2, n) then Max(last + 1, ExTime(cfg, p, regs, mem, n - 2) + 3)
        else last + 1
  {
    hide Depends, LoadUse, Diverts;
    if n == 2 { NothingBeforeFirst(p, regs, mem, n); }
    ExTimeIncreases(cfg, p, regs, mem, n - 1);
  }

  lemma NothingBeforeFirst(p: Program, regs: Registers, mem: Memory, n: nat)
    ensures !Depends(p, regs, mem, 0, n)
  {
  }

  lemma ExTimeAfterTransfer(cfg: Config, p: Program, regs: Registers, mem: Memory, n: nat)
    requires n >= 2 && Diverts(cfg, p, regs, mem, n - 1)
    ensures ExTime(cfg, p, regs, mem, n) == ExTime(cfg, p, regs, mem, n - 1) + 3
  {
    hide Depends, Diverts;
    ExTimeIncreases(cfg, p, regs, mem, n - 1);
  }

  /** The instruction in IF/ID is next in the trace when EX does not redirect control. */
  lemma BehindExecuting(p: Program, regs: Registers, mem: Memory, l: Latch, m': Machine)
    requires FromCode(p, l) && !l.bubble
    requires Legal(m') && Refines(p, StartState(regs, mem), m') && !m'.fetchStopped && AbstractPc(m') == l.pc
    requires Completed(m'.regs, m'.mem, m'.exmem, m'.memwb).Complete?
    ensures Executes(p, regs, mem, m'.stats.retired + 1) && Traced(p, regs, mem, m'.stats.retired + 1) == l.inst
  {
    hide Refines, Completed, Executes, Traced;
    NextTraced(p, regs, mem, m');
  }

  lemma CompleteIffAccessed(m: Machine)
    requires Legal(m)
    ensures Completed(m.regs, m.mem, m.exmem, m.memwb).Complete? <==> MemoryStage(m.mem, m.exmem).Accessed?
  {
    hide MemoryStage, WriteBack;
  }

  /** Once the producer in ID/EX has moved to EX/MEM, only a machine without forwarding still stalls on it. */
  lemma StallBehindBubble(p: Program, cfg: Config, m: Machine, m': Machine)
    requires Legal(m) && Legal(m') && !m.idex.bubble && !m.ifid.bubble
    requires m'.idex.bubble && m'.ifid == m.ifid && !m'.exmem.bubble && m'.exmem.ctrl == m.idex.ctrl
    ensures Stalls(cfg, m') <==> !cfg.forwarding && Conflicts(MakeControl(m.ifid.inst), m.idex)
  {
  }

  /** The schedule after a cycle in which EX stays on the predicted path. */
  lemma ScheduleStraight(p: Program, cfg: Config, regs: Registers, mem: Memory, m: Machine, m': Machine)
    requires Inv(p, cfg, StartState(regs, mem), m) && Inv(p, cfg, StartState(regs, mem), m')
    requires OnSchedule(p, cfg, regs, mem, m) && !m.idex.bubble && !m.fetchStopped
    requires BusyStep(p, cfg, m, m') && !Diverting(cfg, m)
    requires MemoryStage(m.mem, m.exmem).Accessed?
    requires !m.ifid.bubble ==> AbstractPc(m') == m.ifid.pc
    ensures OnSchedule(p, cfg, regs, mem, m')
  {
    hide Execute, MemoryStage, Diverts, Traced, Executes, Refines, ExTime, Slots, BusyStep, Stalls, FromCode,
      HazardFree, OperandsCurrent, Contiguous, AbstractPc, Completed, Diverting, Transfers;
    var n := m.stats.retired;
    FlushIsTransfer(p, cfg, regs, mem, m);
    NotDiverting(p, cfg, regs, mem, m);
    BusyRetires(p, cfg, m, m');
    if !m.ifid.bubble && MemoryStage(m'.mem, m'.exmem).Accessed? {
      CompleteIffAccessed(m');
      BehindExecuting(p, regs, mem, m.ifid, m');
      NextExTime(p, cfg, regs, mem, m);
    }
    SlotsStraight(p, cfg, m, m', ExTime(cfg, p, regs, mem, n), ExTime(cfg, p, regs, mem, n + 1),
                  ExTime(cfg, p, regs, mem, n + 2));
  }

  lemma NotDiverting(p: Program, cfg: Config, regs: Registers, mem: Memory, m: Machine)
    requires Inv(p, cfg, StartState(regs, mem), m) && OnSchedule(p, cfg, regs, mem, m)
    requires !m.idex.bubble && MemoryStage(m.mem, m.exmem).Accessed? && !Diverting(cfg, m)
    ensures !Diverts(cfg, p, regs, mem, m.stats.retired + 1)
  {
    hide Diverts, OnSchedule, Structure, Refines, MemoryStage, Diverting;
    DivertingIsDiverts(p, cfg, regs, mem, m);
  }

  lemma BusyRetires(p: Program, cfg: Config, m: Machine, m': Machine)
    requires BusyStep(p, cfg, m, m') && !m.fetchStopped && !Diverting(cfg, m)
    ensures m'.stats.retired == m.stats.retired + 1 && !m'.fetchStopped && m'.exmem == Execute(cfg.forwarding, m).next
  {
    hide Execute, Stalls, FetchStage, CanFetch;
  }

  lemma SlotsStraight(p: Program, cfg: Config, m: Machine, m': Machine, last: int, next: int, after: int)
    requires Legal(m) && Legal(m') && Slots(p, cfg, m, last, next)
    requires !m.idex.bubble && !m.fetchStopped && BusyStep(p, cfg, m, m') && !Diverting(cfg, m)
    requires MemoryStage(m.mem, m.exmem).Accessed?
    requires !m.ifid.bubble && MemoryStage(m'.mem, m'.exmem).Accessed? ==>
      after == m.cycle + 2 + if !Stalls(cfg, m) then 0
        else if !cfg.forwarding && Conflicts(MakeControl(m.ifid.inst), m.idex) then 2 else 1
    ensures Slots(p, cfg, m', next, after)
  {
    hide Execute, MemoryStage, Conflicts, Stalls, Decode, CodeBytes;
    ExecuteKeepsInstruction(m.idex, OperandA(cfg.forwarding, m).0, OperandB(cfg.forwarding, m).0);
    ExecuteIs(cfg.forwarding, m);
    if !m.ifid.bubble && Stalls(cfg, m) { StallBehindBubble(p, cfg, m, m'); }
    if m.ifid.bubble { NoStallOnBubble(cfg, m); }
  }

  lemma ExecuteIs(forwarding: bool, m: Machine)
    ensures Execute(forwarding, m) == ExecuteWith(m.idex, OperandA(forwarding, m).0, OperandB(forwarding, m).0)
  {
    hide ExecuteWith, OperandA, OperandB;
  }

  lemma NoStallOnBubble(cfg: Config, m: Machine)
    requires m.ifid.bubble
    ensures !Stalls(cfg, m)
  {
  }

  /** The schedule after a redirect or a `ret`. */
  lemma ScheduleRedirect(p: Program, cfg: Config, regs: Registers, mem: Memory, m: Machine, m': Machine)
    requires Inv(p, cfg, StartState(regs, mem), m) && Inv(p, cfg, StartState(regs, mem), m')
    requires OnSchedule(p, cfg, regs, mem, m) && !m.idex.bubble && !m.fetchStopped
    requires BusyStep(p, cfg, m, m') && Diverting(cfg, m)
    requires MemoryStage(m.mem, m.exmem).Accessed?
    ensures OnSchedule(p, cfg, regs, mem, m')
  {
    hide Execute, MemoryStage, Diverts, Traced, Executes, Refines, ExTime, Stalls, FromCode, HazardFree,
      OperandsCurrent, CodeBytes, FetchStage, Decode, FetchDecodes, Transfers;
    FlushIsTransfer(p, cfg, regs, mem, m);
    DivertingIsDiverts(p, cfg, regs, mem, m);
    if Execute(cfg.forwarding, m).countFlush {
      ExTimeAfterTransfer(cfg, p, regs, mem, m.stats.retired + 2);
    }
  }

  /** `AbstractPc` after a cycle whose instruction in EX lets its successor follow. */
  lemma StraightPc(p: Program, cfg: Config, m: Machine, m': Machine)
    requires Structure(p, cfg, m) && Legal(m')
    requires !m.idex.bubble && !m.fetchStopped && !m.ifid.bubble
    requires BusyStep(p, cfg, m, m') && !Diverting(cfg, m)
    requires Cycle(p, cfg, m) == Next(m')
    ensures AbstractPc(m') == m.ifid.pc
  {
    hide ExecuteWith, MemoryStage, Conflicts, Stalls, Decode;
  }

  /** Every orderly cycle keeps the machine on schedule. */
  lemma CycleOnSchedule(p: Program, cfg: Config, regs: Registers, mem: Memory, m: Machine)
    requires Inv(p, cfg, StartState(regs, mem), m) && OnSchedule(p, cfg, regs, mem, m)
    requires Cycle(p, cfg, m).Next? && !Drained(m) && !LosesRedirect(cfg, m)
    ensures Inv(p, cfg, StartState(regs, mem), Cycle(p, cfg, m).m)
    ensures OnSchedule(p, cfg, regs, mem, Cycle(p, cfg, m).m)
  {
    hide ExTime, Slots, HoldsTraced, Commit, Refines, IdleStep, BusyStep, ExecuteWith, FromCode, Diverting,
      LosesRedirect;
    var m' := Cycle(p, cfg, m).m;
    CyclePreserves(p, cfg, StartState(regs, mem), m);
    CycleSteps(p, cfg, m);
    if m.idex.bubble {
      ScheduleIdle(p, cfg, regs, mem, m, m');
    } else if Diverting(cfg, m) {
      ScheduleRedirect(p, cfg, regs, mem, m, m');
    } else {
      if !m.ifid.bubble { StraightPc(p, cfg, m, m'); }
      ScheduleStraight(p, cfg, regs, mem, m, m');
    }
  }

  lemma ScheduleIdle(p: Program, cfg: Config, regs: Registers, mem: Memory, m: Machine, m': Machine)
    requires Legal(m) && Legal(m') && Contiguous(m) && OnSchedule(p, cfg, regs, mem, m)
    requires m.idex.bubble && IdleStep(p, cfg, m, m') && !Drained(m) && MemoryStage(m.mem, m.exmem).Accessed?
    ensures OnSchedule(p, cfg, regs, mem, m')
  {
    hide ExTime, MemoryStage, Traced, Executes, Stalls;
    var n := m.stats.retired;
    SlotsIdle(p, cfg, m, m', ExTime(cfg, p, regs, mem, n), ExTime(cfg, p, regs, mem, n + 1));
  }

  lemma CountersStayExact(p: Program, cfg: Config, regs: Registers, mem: Memory, m: Machine, m': Machine)
    requires Inv(p, cfg, StartState(regs, mem), m) && OnSchedule(p, cfg, regs, mem, m)
    requires CountersExact(p, cfg, regs, mem, m)
    requires MemoryStage(m.mem, m.exmem).Accessed?
    requires m.idex.bubble ==> IdleStep(p, cfg, m, m')
    requires !m.idex.bubble ==> BusyStep(p, cfg, m, m')
    ensures CountersExact(p, cfg, regs, mem, m')
  {
    hide Execute, Diverts, Refines, MemoryStage, Stalls, Structure, FetchStage, OnSchedule, FetchDecodes;
    if !m.idex.bubble { DivertingIsDiverts(p, cfg, regs, mem, m); }
  }
}

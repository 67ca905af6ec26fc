/** Concrete programs on which the code departs from its interpreter, and a static test that
    excludes the departure. */
module Witnesses {
  import opened Words
  import opened Isa
  import opened Results
  import opened Encoding
  import opened Alu
  import opened Programs
  import opened Storage
  import opened Interpreting
  import opened Stages
  import opened Refinement
  import opened Runs
  import opened Timing
  import opened Schedule
  import opened Outcomes
  import opened Exactness
  import opened Disassembly
  import opened Lexer
  import opened Parser
  import opened Assembler
  import opened TwoPass
  import opened Reassembly
  import opened EndToEnd

  function WordOf(i: Instruction): UInt32
    requires UsedFieldsInRange(i)
  {
    Encode(i).value
  }

  const LI := Instruction(ADDI, 1, 0, 0, 1, 0)      // li r1, 1
  const JUMP := Instruction(J, 0, 0, 0, 0, 12)      // j L
  const DOUBLE := Instruction(ADD, 2, 1, 1, 0, 0)   // add r2, r1, r1
  const STOP := Instruction(RET, 0, 0, 0, 0, 0)     // L: ret

  predicate Stands(p: Program, pc: UInt32, i: Instruction) {
    Decodes(p, pc) && InstAt(p, pc) == i
  }

  /** The image of `li r1, 1; j L; add r2, r1, r1; L: ret`. */
  predicate IsJumpOver(p: Program) {
    CodeBytes(p) == 16 && Stands(p, 0, LI) && Stands(p, 4, JUMP) && Stands(p, 8, DOUBLE) && Stands(p, 12, STOP)
  }

  const IMAGE := [LI, JUMP, DOUBLE, STOP]

  const SOURCE: string := "addi r1, r0, 1" + "\n" + ("j 12" + "\n" + ("add r2, r1, r1" + "\n" + "ret"))

  lemma SourceIsListing()
    ensures Text(IMAGE) == SOURCE
  {
    hide Disassemble;
    Listed();
    assert [DOUBLE, STOP][1..] == [STOP] && Text([DOUBLE, STOP]) == "add r2, r1, r1" + "\n" + "ret";
    assert [JUMP, DOUBLE, STOP][1..] == [DOUBLE, STOP];
    assert Text([JUMP, DOUBLE, STOP]) == "j 12" + "\n" + ("add r2, r1, r1" + "\n" + "ret");
    assert IMAGE[1..] == [JUMP, DOUBLE, STOP];
  }

  lemma Listed()
    ensures Disassemble(LI) == "addi r1, r0, 1" && Disassemble(JUMP) == "j 12"
    ensures Disassemble(DOUBLE) == "add r2, r1, r1" && Disassemble(STOP) == "ret"
  {
    hide PrintNat;
    Digits();
  }

  lemma Digits()
    ensures PrintNat(0) == "0" && PrintNat(1) == "1" && PrintNat(2) == "2" && PrintNat(12) == "12"
  {
    assert PrintNat(12) == PrintNat(1) + "2";
  }

  /** The text lexes, parses and assembles to such an image. */
  lemma JumpOverTyped() returns (p: Program)
    ensures Statements(SOURCE).Success? && AssembleStatements(Statements(SOURCE).value) == Success(p)
    ensures IsJumpOver(p) && AllDecode(p)
  {
    hide Lex, StatementsFrom, AssembleStatements, Text, Decode, TableRight, EmittedRight, Encode;
    SourceIsListing();
    TextRoundTrip(IMAGE);
    var stmts := Statements(SOURCE).value;
    p := AssembleStatements(stmts).value;
    AssemblyIsFaithful(stmts);
  }

  lemma Sums()
    ensures AluResult(ADDI, 0, 1) == 1 && AluResult(ADD, 1, 1) == 2
  {
  }

  /** The interpreter jumps over the `add`. */
  lemma JumpOverInterpreted(p: Program, regs: Registers, mem: Memory)
    requires IsJumpOver(p) && regs[0] == 0
    ensures Oracle(p, regs, mem, 2).Running?
    ensures Oracle(p, regs, mem, 3) == Halted(ArchState(regs[1 := 1], mem, 12, 3))
  {
    hide Decode, CodeBytes, AluResult;
    Sums();
    var s0 := StartState(regs, mem);
    assert AfterSteps(p, s0, 1) == Running(ArchState(regs[1 := 1], mem, 4, 1));
    assert AfterSteps(p, s0, 2) == Running(ArchState(regs[1 := 1], mem, 12, 2));
  }

  /** The source as written, with forwarding off. */
  const PLAIN := Config(false, false)

  function InIfid(i: Instruction, id: nat, pc: UInt32): Latch {
    BUBBLE.(bubble := false, id := id, inst := i, pc := pc)
  }

  function InIdex(i: Instruction, id: nat, pc: UInt32, v: Int32): Latch {
    InIfid(i, id, pc).(ctrl := MakeControl(i), aVal := v, bVal := if MakeControl(i).bReg == NO_REG then 0 else v)
  }

  // The boundaries of the run. In the fourth cycle the `add` behind the jump stalls on `li` while
  // the jump resolves, and the redirect is dropped.

  /** The state after `k` cycles. */
  function Boundary(regs: Registers, mem: Memory, k: nat): Machine
    requires k <= 9
  {
    var li, jump := InIdex(LI, 0, 0, 0), InIdex(JUMP, 1, 4, 0);
    var double, stop := InIdex(DOUBLE, 2, 8, 1), InIdex(STOP, 3, 12, 0);
    var done := regs[1 := 1];
    if k == 0 then Start(regs, mem)
    else if k == 1 then
      Machine(regs, mem, InIfid(LI, 0, 0), BUBBLE, BUBBLE, BUBBLE, 4, false, 1, 1, Stats(1, 0, 0, 0, 0, 0))
    else if k == 2 then
      Machine(regs, mem, InIfid(JUMP, 1, 4), li, BUBBLE, BUBBLE, 8, false, 2, 2, Stats(2, 0, 0, 0, 0, 0))
    else if k == 3 then
      Machine(regs, mem, InIfid(DOUBLE, 2, 8), jump, li.(aluResult := 1), BUBBLE, 12, false, 3, 3,
        Stats(3, 1, 0, 0, 0, 0))
    else if k == 4 then
      Machine(regs, mem, InIfid(DOUBLE, 2, 8), BUBBLE, jump, li.(aluResult := 1, writeData := 1), 12, false, 3, 4,
              Stats(4, 2, 1, 0, 0, 0))
    else if k == 5 then
      Machine(done, mem, InIfid(STOP, 3, 12), double, BUBBLE, jump, 16, false, 4, 5, Stats(5, 2, 1, 0, 0, 0))
    else if k == 6 then
      Machine(done, mem, BUBBLE, stop, double.(aluResult := 2), BUBBLE, 16, false, 4, 6, Stats(6, 3, 1, 0, 0, 0))
    else if k == 7 then
      Machine(done, mem, BUBBLE, BUBBLE, stop, double.(aluResult := 2, writeData := 2), 16, true, 4, 7,
              Stats(7, 4, 1, 0, 0, 0))
    else if k == 8 then
      Machine(done[2 := 2], mem, BUBBLE, BUBBLE, BUBBLE, stop, 16, true, 4, 8, Stats(8, 4, 1, 0, 0, 0))
    else
      Machine(done[2 := 2], mem, BUBBLE, BUBBLE, BUBBLE, BUBBLE, 16, true, 4, 9, Stats(9, 4, 1, 0, 0, 0))
  }

  lemma Controls()
    ensures MakeControl(LI) == NO_CONTROL.(aluUsesImm := true, aReg := 0, regWrite := true, destReg := 1)
    ensures MakeControl(JUMP) == NO_CONTROL.(isJump := true)
    ensures MakeControl(DOUBLE) == NO_CONTROL.(regWrite := true, destReg := 2, aReg := 1, bReg := 1)
    ensures MakeControl(STOP) == NO_CONTROL.(isRet := true)
  {
  }

  /** WB and MEM in the cycle after the `k`-th boundary. */
  lemma JumpOverBack(regs: Registers, mem: Memory, k: nat)
    requires regs[0] == 0 && k < 9
    ensures var m, m' := Boundary(regs, mem, k), Boundary(regs, mem, k + 1);
      && WritesLegally(m.memwb) && WriteBack(m.regs, m.memwb) == m'.regs
      && MemoryStage(m.mem, m.exmem) == Accessed(m'.memwb, mem)
  {
    hide CheckAccess, MakeControl, Start;
    Controls();
    StartIs(regs, mem);
  }

  lemma StartIs(regs: Registers, mem: Memory)
    ensures Start(regs, mem) == Machine(regs, mem, BUBBLE, BUBBLE, BUBBLE, BUBBLE, 0, false, 0, 0, NO_STATS)
  {
  }

  /** EX in that cycle: the jump asks for a redirect in the fourth, the `ret` in the seventh. */
  lemma JumpOverExecute(regs: Registers, mem: Memory, k: nat)
    requires regs[0] == 0 && k < 9
    ensures var m, m' := Boundary(regs, mem, k), Boundary(regs, mem, k + 1);
      var ex := Execute(false, m);
      && ex.next == m'.exmem && (ex.flushYounger <==> k == 3 || k == 6) && (ex.stopFetch <==> k == 6)
      && (ex.countFlush <==> k == 3)
      && CountExecute(false, m) == m.stats.(retired := m'.stats.retired)
  {
    hide AluResult, BranchTaken, MakeControl;
    Sums();
    Controls();
  }

  /** ID and IF in that cycle: the `add` stalls in the fourth. */
  lemma JumpOverFront(p: Program, regs: Registers, mem: Memory, k: nat)
    requires IsJumpOver(p) && regs[0] == 0 && k < 9
    ensures var m, m' := Boundary(regs, mem, k), Boundary(regs, mem, k + 1);
      && Legal(m) && (Stalls(PLAIN, m) <==> k == 3)
      && (CanFetch(p, m) <==> k <= 4) && (CanFetch(p, m) ==> Decode(WordAt(p, m.pc)).Success?)
      && (k != 3 && k != 6 ==> DecodeStage(m.ifid, m'.regs) == m'.idex && FetchStage(p, m) == m'.ifid)
  {
    hide Decode, CodeBytes, MakeControl;
    Controls();
  }

  lemma JumpOverCycle(p: Program, regs: Registers, mem: Memory, k: nat)
    requires IsJumpOver(p) && regs[0] == 0 && k < 9
    ensures Legal(Boundary(regs, mem, k))
    ensures Cycle(p, PLAIN, Boundary(regs, mem, k)) == Next(Boundary(regs, mem, k + 1))
  {
    hide Decode, CodeBytes, WriteBack, MemoryStage, Execute, CountExecute, DecodeStage, FetchStage, Stalls, CanFetch,
      Legal,
      IsJumpOver, WordAt, MakeControl;
    JumpOverBack(regs, mem, k);
    JumpOverExecute(regs, mem, k);
    JumpOverFront(p, regs, mem, k);
  }

  lemma {:induction false} JumpOverRun(p: Program, regs: Registers, mem: Memory, k: nat)
    requires IsJumpOver(p) && regs[0] == 0 && k <= 9
    ensures Run(p, PLAIN, regs, mem, k) == Settle(Boundary(regs, mem, k))
  {
    hide Cycle, IsJumpOver, Boundary;
    if k == 0 {
      BoundaryZero(regs, mem);
    } else {
      JumpOverRun(p, regs, mem, k - 1);
      JumpOverCycle(p, regs, mem, k - 1);
      NotDrainedBefore(regs, mem, k - 1);
    }
  }

  lemma BoundaryZero(regs: Registers, mem: Memory)
    ensures Boundary(regs, mem, 0) == Start(regs, mem)
  {
  }

  lemma NotDrainedBefore(regs: Registers, mem: Memory, k: nat)
    requires k < 9
    ensures !Drained(Boundary(regs, mem, k))
  {
    hide MakeControl, Start;
    StartIs(regs, mem);
  }

  /** Without forwarding, as written, the run executes the `add` the interpreter jumps over: it
      drains after four instructions with r2 = 2, where the interpreter halts after three with r2
      untouched. On the interpreter's trace the loss is at the jump. */
  lemma LostRedirectWitness(p: Program, regs: Registers, mem: Memory)
    requires IsJumpOver(p) && regs[0] == 0
    ensures Run(p, PLAIN, regs, mem, 9).Finished?
    ensures var m := Run(p, PLAIN, regs, mem, 9).m; m.stats.retired == 4 && m.regs == regs[1 := 1][2 := 2]
    ensures Oracle(p, regs, mem, 3) == Halted(ArchState(regs[1 := 1], mem, 12, 3))
    ensures Loses(p, PLAIN, Run(p, PLAIN, regs, mem, 3)) && LosesAt(PLAIN, p, regs, mem, 2)
  {
    hide Cycle, IsJumpOver, AfterSteps, Run, LosesRedirect, LosesAt;
    JumpOverInterpreted(p, regs, mem);
    JumpOverRun(p, regs, mem, 3);
    JumpOverRun(p, regs, mem, 9);
    JumpOverCycle(p, regs, mem, 3);
    JumpOverCollides(regs, mem);
    JumpOverLossTraced(p, regs, mem);
  }

  /** The comparison of the two simulators on that program fails: under any sufficient budgets both end,
      with different registers. */
  lemma JumpOverMismatch(p: Program, dataBytes: UInt32, maxSteps: nat, maxCycles: nat)
    requires IsJumpOver(p) && maxSteps >= 3 && maxCycles >= 9
    ensures
      var r := Oracle(p, ZeroRegs(), ZeroMem(dataBytes), maxSteps);
      var b := Run(p, PLAIN, ZeroRegs(), ZeroMem(dataBytes), maxCycles);
      r.Halted? && b.Finished? && !SameOutcome(r.s, b.m)
  {
    hide IsJumpOver, AfterSteps, Run, Loses, LosesAt;
    var regs, mem := ZeroRegs(), ZeroMem(dataBytes);
    LostRedirectWitness(p, regs, mem);
    EndedStaysEnded(p, StartState(regs, mem), 3, maxSteps);
    EndedRunStays(p, PLAIN, regs, mem, 9, maxCycles);
    assert regs[1 := 1][2 := 2][2] != regs[1 := 1][2];
  }

  lemma JumpOverLossTraced(p: Program, regs: Registers, mem: Memory)
    requires IsJumpOver(p) && regs[0] == 0
    ensures LosesAt(PLAIN, p, regs, mem, 2)
  {
    hide Cycle, IsJumpOver, AfterSteps, Run, LosesAt, LosesRedirect, Boundary, NeverLoses;
    JumpOverRun(p, regs, mem, 3);
    JumpOverCycle(p, regs, mem, 3);
    NotDrainedBefore(regs, mem, 3);
    JumpOverCollides(regs, mem);
    assert Loses(p, PLAIN, Run(p, PLAIN, regs, mem, 3));
    FirstThree(p, regs, mem);
    OrderlyBoundary(p, PLAIN, regs, mem, 3);
    JumpOverAboutTo(regs, mem);
    LossIsOnTrace(p, PLAIN, regs, mem, Boundary(regs, mem, 3), 2);
  }

  lemma JumpOverAboutTo(regs: Registers, mem: Memory)
    ensures AboutTo(Boundary(regs, mem, 3), 2)
  {
    hide MakeControl;
    Controls();
  }

  lemma FirstThree(p: Program, regs: Registers, mem: Memory)
    requires IsJumpOver(p) && regs[0] == 0
    ensures NeverLoses(p, PLAIN, regs, mem, 3)
  {
    hide Cycle, IsJumpOver, Run, Boundary;
    forall j | 0 <= j < 3
      ensures !Loses(p, PLAIN, Run(p, PLAIN, regs, mem, j))
    {
      JumpOverRun(p, regs, mem, j);
      NotDrainedBefore(regs, mem, j);
      JumpOverCycle(p, regs, mem, j);
      NoCollisionYet(p, regs, mem, j);
    }
  }

  lemma NoCollisionYet(p: Program, regs: Registers, mem: Memory, j: nat)
    requires IsJumpOver(p) && regs[0] == 0 && j < 3
    ensures Legal(Boundary(regs, mem, j)) && !LosesRedirect(PLAIN, Boundary(regs, mem, j))
  {
    hide Boundary, IsJumpOver, Execute, Stalls;
    JumpOverFront(p, regs, mem, j);
  }

  lemma JumpOverCollides(regs: Registers, mem: Memory)
    ensures Legal(Boundary(regs, mem, 3)) && LosesRedirect(PLAIN, Boundary(regs, mem, 3))
  {
    hide MakeControl, AluResult, BranchTaken;
    Controls();
  }

  /** With forwarding the same program keeps its redirect: it drains in the interpreter's state. */
  lemma JumpOverWithForwarding(p: Program, regs: Registers, mem: Memory)
    requires IsJumpOver(p) && AllDecode(p) && regs[0] == 0
    ensures HaltsAt(p, regs, mem, 3)
    ensures var b := Run(p, Config(true, false), regs, mem, 11);
      b.Finished? && b.m.regs == regs[1 := 1] && b.m.mem == mem && b.m.stats.retired == 3
  {
    hide Run, AfterSteps, IsJumpOver, ExTime, NeverLoses, AllDecode;
    JumpOverInterpreted(p, regs, mem);
    DecodableRun(p, Config(true, false), regs, mem, 11);
    SoundNeverLoses(p, Config(true, false), regs, mem, 11);
    DrainsWithin(p, Config(true, false), regs, mem, 3);
    DrainsWhenHalted(p, Config(true, false), regs, mem, 3, 11);
  }

  // ---- A static test -----------------------------------------------------------------------

  /** No instruction right behind a control transfer reads the result of the transfer or of the
      instruction right before it. */
  predicate QuietBehindTransfers(p: Program) {
    forall pc: UInt32 :: Decodes(p, pc) && Decodes(p, NextPc(pc)) && IsTransfer(InstAt(p, pc)) ==>
      && !Feeds(InstAt(p, pc), InstAt(p, NextPc(pc)))
      && forall before: UInt32 :: Decodes(p, before) && NextPc(before) == pc ==>
           !Feeds(InstAt(p, before), InstAt(p, NextPc(pc)))
  }

  predicate IsTransfer(i: Instruction) {
    FormatOf(i.op) == FormatB || FormatOf(i.op) == FormatJ
  }

  lemma QuietNear(p: Program, pc: UInt32)
    requires QuietBehindTransfers(p) && Decodes(p, pc) && Decodes(p, NextPc(pc)) && IsTransfer(InstAt(p, pc))
    ensures !Feeds(InstAt(p, pc), InstAt(p, NextPc(pc)))
  {
    hide IsTransfer, Feeds, Decodes;
  }

  lemma QuietFar(p: Program, before: UInt32, pc: UInt32)
    requires QuietBehindTransfers(p) && Decodes(p, pc) && Decodes(p, NextPc(pc)) && IsTransfer(InstAt(p, pc))
    requires Decodes(p, before) && NextPc(before) == pc
    ensures !Feeds(InstAt(p, before), InstAt(p, NextPc(pc)))
  {
    hide IsTransfer, Feeds, Decodes;
  }

  /** On the trace of such a program nothing stalls behind a transfer. */
  lemma {:induction false} QuietTrace(p: Program, regs: Registers, mem: Memory, i: nat)
    requires QuietBehindTransfers(p) && Executes(p, regs, mem, i) && IsTransfer(Traced(p, regs, mem, i))
    ensures !BehindStalls(PLAIN, p, regs, mem, i)
  {
    hide Oracle, Feeds, ExTime, Diverts, IsTransfer, Transfers, QuietBehindTransfers, Decodes, BehindStalls;
    BehindStallsPlain(p, regs, mem, i);
    if HasBehind(p, regs, mem, i) {
      QuietNear(p, Oracle(p, regs, mem, i - 1).s.pc);
      if i >= 2 && Executes(p, regs, mem, i - 1) &&
        ExTime(PLAIN, p, regs, mem, i) == ExTime(PLAIN, p, regs, mem, i - 1) + 1 {
        NotDiverted(p, regs, mem, i - 1);
        if Transfers(p, regs, mem, i - 1) { QuietTrace(p, regs, mem, i - 1); }
        StraightOn(p, regs, mem, i - 1);
        QuietFar(p, Oracle(p, regs, mem, i - 2).s.pc, Oracle(p, regs, mem, i - 1).s.pc);
      }
    }
  }

  lemma BehindStallsPlain(p: Program, regs: Registers, mem: Memory, i: nat)
    ensures BehindStalls(PLAIN, p, regs, mem, i) <==>
      FeedsBehind(p, regs, mem, i, i) ||
      (i >= 2 && ExTime(PLAIN, p, regs, mem, i) == ExTime(PLAIN, p, regs, mem, i - 1) + 1 &&
        FeedsBehind(p, regs, mem, i - 1, i))
  {
    hide ExTime, FeedsBehind;
  }

  lemma NotDiverted(p: Program, regs: Registers, mem: Memory, j: nat)
    requires j >= 1 && ExTime(PLAIN, p, regs, mem, j + 1) == ExTime(PLAIN, p, regs, mem, j) + 1
    ensures Transfers(p, regs, mem, j) ==> BehindStalls(PLAIN, p, regs, mem, j) && IsTransfer(Traced(p, regs, mem, j))
  {
    hide Depends, Executes, BehindStalls;
  }

  /** An instruction that is no taken transfer is followed by the one behind it. */
  lemma StraightOn(p: Program, regs: Registers, mem: Memory, j: nat)
    requires Executes(p, regs, mem, j) && Executes(p, regs, mem, j + 1) && !Transfers(p, regs, mem, j)
    ensures NextPc(Oracle(p, regs, mem, j - 1).s.pc) == Oracle(p, regs, mem, j).s.pc
  {
    hide LoadWord, StoreWord, AluResult, BranchTaken, CheckAccess, Decodes;
    var s := Oracle(p, regs, mem, j - 1).s;
    assert Oracle(p, regs, mem, j) == Step(p, s);
    StepPerforms(p, s);
  }

  lemma DepartingIsTransfer(p: Program, regs: Registers, mem: Memory, i: nat)
    requires Departs(p, regs, mem, i) && !Oracle(p, regs, mem, i).MemoryFault?
    ensures IsTransfer(Traced(p, regs, mem, i))
  {
    hide LoadWord, StoreWord, AluResult, BranchTaken, CheckAccess, Decodes;
    var s := Oracle(p, regs, mem, i - 1).s;
    assert Oracle(p, regs, mem, i) == Step(p, s);
    StepPerforms(p, s);
  }

  lemma QuietLosesNothing(p: Program, regs: Registers, mem: Memory)
    requires QuietBehindTransfers(p)
    ensures TraceLosesNothing(PLAIN, p, regs, mem)
  {
    hide QuietBehindTransfers, IsTransfer, Oracle, BehindStalls;
    forall i: nat | LosesAt(PLAIN, p, regs, mem, i)
      ensures false
    {
      DepartingIsTransfer(p, regs, mem, i);
      QuietTrace(p, regs, mem, i);
    }
  }

  lemma QuietCycle(p: Program, regs: Registers, mem: Memory, m: Machine)
    requires QuietBehindTransfers(p) && Inv(p, PLAIN, StartState(regs, mem), m) && OnSchedule(p, PLAIN, regs, mem, m)
    requires Cycle(p, PLAIN, m).Next?
    ensures !Coincide(PLAIN, m)
  {
    hide QuietBehindTransfers, IsTransfer, BehindStalls, OnSchedule, Refines, Cycle, Execute, Stalls, Structure;
    StructureIsLegal(p, PLAIN, m);
    if Coincide(PLAIN, m) {
      RedirectInEx(PLAIN, m);
      NextKeepsAccess(p, PLAIN, m);
      FlushIsTransfer(p, PLAIN, regs, mem, m);
      TransferFlushes(p, PLAIN, m);
      StallIsBehindStall(p, PLAIN, regs, mem, m);
      QuietTrace(p, regs, mem, m.stats.retired + 1);
    }
  }

  lemma QuietNeverCoincides(p: Program, regs: Registers, mem: Memory, k: nat)
    requires QuietBehindTransfers(p) && regs[0] == 0 && NothingEverLost(p, PLAIN, regs, mem)
    ensures NeverCoincides(p, PLAIN, regs, mem, k)
  {
    hide QuietBehindTransfers, Run, Structure, OnSchedule, Refines, Cycle, Coincide, NeverLoses, CountersExact;
    forall j | 0 <= j < k
      ensures !Collides(p, PLAIN, Run(p, PLAIN, regs, mem, j))
    {
      var b := Run(p, PLAIN, regs, mem, j);
      if b.Alive? && Cycle(p, PLAIN, b.m).Next? {
        assert NeverLoses(p, PLAIN, regs, mem, j);
        OrderlyBoundary(p, PLAIN, regs, mem, j);
        QuietCycle(p, regs, mem, b.m);
      }
    }
  }

  lemma TransferFlushes(p: Program, cfg: Config, m: Machine)
    requires Structure(p, cfg, m) && !m.idex.bubble && Execute(cfg.forwarding, m).flushYounger
    ensures IsTransfer(m.idex.inst)
  {
    hide OperandA, OperandB, FromCode, HazardFree, OperandsCurrent, Contiguous;
  }

  /** The static test suffices: such a program loses nothing on any trace, so it runs as written,
      without forwarding, exactly as under the arbitration that lets the flush win, in agreement with
      the interpreter unless it throws on an undecodable word. */
  lemma QuietProgramsAreSafe(p: Program, regs: Registers, mem: Memory, k: nat)
    requires QuietBehindTransfers(p) && regs[0] == 0
    ensures TraceLosesNothing(PLAIN, p, regs, mem)
    ensures Run(p, PLAIN, regs, mem, k) == Run(p, Config(false, true), regs, mem, k)
    ensures Agrees(p, regs, mem, Run(p, PLAIN, regs, mem, k)) <==> !Run(p, PLAIN, regs, mem, k).BadFetch?
  {
    hide Run, QuietBehindTransfers, Agrees, NeverLoses, NeverCoincides, TraceLosesNothing;
    QuietLosesNothing(p, regs, mem);
    TraceLosesNothingExactly(p, PLAIN, regs, mem);
    QuietNeverCoincides(p, regs, mem, k);
    ArbitrationIrrelevant(p, false, regs, mem, k);
    PipelineRefinesInterpreter(p, Config(false, true), regs, mem, k);
  }

  // ---- Speculative decoding -------------------------------------------------------------------

  /** A `ret` followed by a word that does not decode. */
  predicate IsRetThenJunk(p: Program) {
    && |p.words| == 2 && CodeBytes(p) == 8
    && Decode(p.words[0]) == Success(STOP) && Decode(p.words[1]).Failure?
  }

  lemma RetThenJunkExists() returns (p: Program)
    ensures IsRetThenJunk(p)
  {
    hide Encode, Decode;
    DecodeEncode(STOP);
    EncodeFailsExactly(STOP);
    DecodeFailsExactly(63 * UNIT_26);
    p := Program([WordOf(STOP), 63 * UNIT_26], [STOP, STOP], [1, 2], map[]);
  }

  /** A throw the interpreter does not report: it halts before the undecodable word, which the pipeline
      has already fetched. */
  lemma SpeculativeFetchWitness(p: Program, cfg: Config, regs: Registers, mem: Memory)
    requires IsRetThenJunk(p) && regs[0] == 0
    ensures Oracle(p, regs, mem, 1).Halted?
    ensures Run(p, cfg, regs, mem, 2).BadFetch?
  {
    hide Decode, CodeBytes;
    var m1 := Start(regs, mem).(ifid := InIfid(STOP, 0, 0), pc := 4, nextId := 1, cycle := 1,
      stats := Stats(1, 0, 0, 0, 0, 0));
    assert Oracle(p, regs, mem, 0) == Running(StartState(regs, mem));
    assert AfterCycles(p, cfg, Start(regs, mem), 0) == Alive(Start(regs, mem));
    assert AfterCycles(p, cfg, Start(regs, mem), 1) == Alive(m1);
  }

  // ---- A redirect dropped without harm ---------------------------------------------------------

  const JUMP_NEXT := Instruction(J, 0, 0, 0, 0, 8)   // j to the next address

  /** The image of `li r1, 1; j L; L: add r2, r1, r1; ret`. */
  predicate IsJumpNext(p: Program) {
    CodeBytes(p) == 16 && Stands(p, 0, LI) && Stands(p, 4, JUMP_NEXT) && Stands(p, 8, DOUBLE) && Stands(p, 12, STOP)
  }

  lemma JumpNextExists() returns (p: Program)
    ensures IsJumpNext(p) && AllDecode(p)
  {
    hide Encode, Decode;
    DecodeEncode(LI);
    DecodeEncode(JUMP_NEXT);
    DecodeEncode(DOUBLE);
    DecodeEncode(STOP);
    EncodeFailsExactly(LI);
    EncodeFailsExactly(JUMP_NEXT);
    EncodeFailsExactly(DOUBLE);
    EncodeFailsExactly(STOP);
    p := Program([WordOf(LI), WordOf(JUMP_NEXT), WordOf(DOUBLE), WordOf(STOP)], [LI, JUMP_NEXT, DOUBLE, STOP],
      [1, 2, 3, 4], map[]);
  }

  lemma JumpNextInterpreted(p: Program, regs: Registers, mem: Memory)
    requires IsJumpNext(p) && regs[0] == 0
    ensures Oracle(p, regs, mem, 0) == Running(StartState(regs, mem))
    ensures Oracle(p, regs, mem, 1) == Running(ArchState(regs[1 := 1], mem, 4, 1))
    ensures Oracle(p, regs, mem, 2) == Running(ArchState(regs[1 := 1], mem, 8, 2))
    ensures Oracle(p, regs, mem, 3) == Running(ArchState(regs[1 := 1][2 := 2], mem, 12, 3))
    ensures Oracle(p, regs, mem, 4).Halted?
  {
    hide Step, AluResult, Decodes;
    Sums();
    var s0, s1 := StartState(regs, mem), ArchState(regs[1 := 1], mem, 4, 1);
    var s2, s3 := ArchState(regs[1 := 1], mem, 8, 2), ArchState(regs[1 := 1][2 := 2], mem, 12, 3);
    StepPerforms(p, s0);
    StepPerforms(p, s1);
    StepPerforms(p, s2);
    StepPerforms(p, s3);
    assert Oracle(p, regs, mem, 0) == Running(s0);
    assert Oracle(p, regs, mem, 1) == Running(s1);
    assert Oracle(p, regs, mem, 2) == Running(s2);
    assert Oracle(p, regs, mem, 3) == Running(s3);
  }

  lemma JumpNextTrace(p: Program, regs: Registers, mem: Memory)
    requires IsJumpNext(p) && regs[0] == 0
    ensures Executes(p, regs, mem, 1) && Traced(p, regs, mem, 1) == LI
    ensures Executes(p, regs, mem, 2) && Traced(p, regs, mem, 2) == JUMP_NEXT
    ensures Executes(p, regs, mem, 3) && Traced(p, regs, mem, 3) == DOUBLE
    ensures Executes(p, regs, mem, 4) && Traced(p, regs, mem, 4) == STOP
    ensures FeedsBehind(p, regs, mem, 1, 2)
    ensures !Transfers(p, regs, mem, 1) && Transfers(p, regs, mem, 2) && !Transfers(p, regs, mem, 3)
  {
    hide Oracle, Decodes;
    JumpNextInterpreted(p, regs, mem);
  }

  lemma JumpNextTimes(p: Program, cfg: Config, regs: Registers, mem: Memory)
    requires IsJumpNext(p) && regs[0] == 0 && !cfg.flushWins
    ensures ExTime(cfg, p, regs, mem, 4) == if cfg.forwarding then 8 else 7
  {
    hide IsJumpNext, Oracle, Executes, Traced, FeedsBehind, Transfers;
    JumpNextTrace(p, regs, mem);
    FirstExTime(cfg, p, regs, mem);
    assert ExTime(cfg, p, regs, mem, 1) == 3;
    assert ExTime(cfg, p, regs, mem, 2) == 4;
    assert BehindStalls(cfg, p, regs, mem, 2) <==> !cfg.forwarding;
    assert ExTime(cfg, p, regs, mem, 3) == if cfg.forwarding then 7 else 6;
  }

  /** As written, a stall that drops a jump to the next address saves the flush: without forwarding
      this program drains a cycle earlier than with it. */
  lemma DroppedJumpSaves(p: Program, regs: Registers, mem: Memory, k: nat)
    requires IsJumpNext(p) && AllDecode(p) && regs[0] == 0
    ensures HaltsAt(p, regs, mem, 4)
    ensures Run(p, PLAIN, regs, mem, k).Finished? <==> k >= 9
    ensures Run(p, AS_WRITTEN, regs, mem, k).Finished? <==> k >= 10
  {
    hide IsJumpNext, AfterSteps, Run, NeverLoses, AllDecode, ExTime, TraceLosesNothing;
    JumpNextInterpreted(p, regs, mem);
    JumpNextTimes(p, PLAIN, regs, mem);
    JumpNextTimes(p, AS_WRITTEN, regs, mem);
    SoundNeverLoses(p, AS_WRITTEN, regs, mem, k);
    DecodableRun(p, AS_WRITTEN, regs, mem, k);
    DecodableRun(p, PLAIN, regs, mem, k);
    DrainsWhenHalted(p, AS_WRITTEN, regs, mem, 4, k);
    JumpNextLosesNothing(p, regs, mem);
    TraceLosesNothingExactly(p, PLAIN, regs, mem);
    assert NeverLoses(p, PLAIN, regs, mem, k);
    DrainsWhenHalted(p, PLAIN, regs, mem, 4, k);
  }

  lemma JumpNextLosesNothing(p: Program, regs: Registers, mem: Memory)
    requires IsJumpNext(p) && regs[0] == 0
    ensures TraceLosesNothing(PLAIN, p, regs, mem)
  {
    hide BehindStalls, IsJumpNext, Departs, Oracle;
    NothingBehindStop(p, regs, mem);
    forall i: nat
      ensures !LosesAt(PLAIN, p, regs, mem, i)
    {
      JumpNextDeparts(p, regs, mem, i);
    }
  }

  lemma JumpNextDeparts(p: Program, regs: Registers, mem: Memory, i: nat)
    requires IsJumpNext(p) && regs[0] == 0
    ensures Departs(p, regs, mem, i) ==> i == 4
  {
    hide IsJumpNext, Decodes, AfterSteps;
    JumpNextInterpreted(p, regs, mem);
    if i >= 5 { EndedStaysEnded(p, StartState(regs, mem), 4, i - 1); }
  }

  lemma NothingBehindStop(p: Program, regs: Registers, mem: Memory)
    requires IsJumpNext(p) && regs[0] == 0
    ensures !BehindStalls(PLAIN, p, regs, mem, 4)
  {
    hide AfterSteps, ExTime;
    JumpNextInterpreted(p, regs, mem);
  }

  // ---- An imprecise throw ---------------------------------------------------------------------------

  /** `li r1, 1` followed by a word that does not decode. */
  predicate IsLiThenJunk(p: Program) {
    CodeBytes(p) == 8 && Stands(p, 0, LI) && Junk(p, 4)
  }

  lemma LiThenJunkExists() returns (p: Program)
    ensures IsLiThenJunk(p)
  {
    hide Encode, Decode;
    DecodeEncode(LI);
    EncodeFailsExactly(LI);
    DecodeFailsExactly(63 * UNIT_26);
    p := Program([WordOf(LI), 63 * UNIT_26], [LI, LI], [1, 2], map[]);
  }

  /** Where both report the undecodable word, the pipeline's throw is not precise: the interpreter has
      executed the `li`, the pipeline has not. */
  lemma ImpreciseThrowWitness(p: Program, cfg: Config, regs: Registers, mem: Memory)
    requires IsLiThenJunk(p) && regs[0] == 0
    ensures var r := Oracle(p, regs, mem, 2); r.DecodeFault? && r.s.retired == 1 && r.s.regs == regs[1 := 1]
    ensures var b := Run(p, cfg, regs, mem, 2); b.BadFetch? && b.m.stats.retired == 0 && b.m.regs == regs
  {
    hide CodeBytes, AluResult, Decode;
    Sums();
    assert Oracle(p, regs, mem, 0) == Running(StartState(regs, mem));
    StepPerforms(p, StartState(regs, mem));
    assert Oracle(p, regs, mem, 1) == Running(ArchState(regs[1 := 1], mem, 4, 1));
    var m1 := Start(regs, mem).(ifid := InIfid(LI, 0, 0), pc := 4, nextId := 1, cycle := 1,
                                stats := Stats(1, 0, 0, 0, 0, 0));
    assert AfterCycles(p, cfg, Start(regs, mem), 0) == Alive(Start(regs, mem));
    assert AfterCycles(p, cfg, Start(regs, mem), 1) == Alive(m1);
  }

  // ---- Running off the end -----------------------------------------------------------------------

  /** The image of a single `nop`. */
  predicate IsNopAlone(p: Program) {
    |p.words| == 1 && Stands(p, 0, NO_INSTRUCTION)
  }

  lemma NopAloneExists() returns (p: Program)
    ensures IsNopAlone(p)
  {
    hide Encode, Decode;
    DecodeEncode(NO_INSTRUCTION);
    EncodeFailsExactly(NO_INSTRUCTION);
    p := Program([WordOf(NO_INSTRUCTION)], [NO_INSTRUCTION], [1], map[]);
  }

  lemma NopAloneInterpreted(p: Program, regs: Registers, mem: Memory)
    requires IsNopAlone(p)
    ensures AllDecode(p) && CodeBytes(p) == 4
    ensures Oracle(p, regs, mem, 1) == Running(ArchState(regs, mem, 4, 1))
    ensures Oracle(p, regs, mem, 2).PcFault?
  {
    hide AluResult, Decode;
    assert Oracle(p, regs, mem, 0) == Running(StartState(regs, mem));
  }

  lemma NopAloneLosesNothing(p: Program, cfg: Config, regs: Registers, mem: Memory)
    requires IsNopAlone(p)
    ensures TraceLosesNothing(cfg, p, regs, mem)
  {
    hide AfterSteps, IsNopAlone, BehindStalls, AllDecode;
    NopAloneInterpreted(p, regs, mem);
    OracleStarts(p, regs, mem);
    forall i: nat
      ensures !Departs(p, regs, mem, i)
    {
      if i >= 3 { EndedStaysEnded(p, StartState(regs, mem), 2, i - 1); }
    }
  }

  /** A program without a `ret` runs off its end: the interpreter reports the PC, and the pipeline
      never drains, whatever the budget and the configuration. */
  lemma OffTheEndWitness(p: Program, cfg: Config, regs: Registers, mem: Memory, k: nat)
    requires IsNopAlone(p) && regs[0] == 0
    ensures Oracle(p, regs, mem, 2).PcFault? && Run(p, cfg, regs, mem, k).Alive?
  {
    hide Run, AfterSteps, IsNopAlone, NeverLoses, TraceLosesNothing, AllDecode;
    NopAloneInterpreted(p, regs, mem);
    NopAloneLosesNothing(p, cfg, regs, mem);
    TraceLosesNothingExactly(p, cfg, regs, mem);
    assert NeverLoses(p, cfg, regs, mem, k);
    NopAloneNeverEnds(p, regs, mem);
    NeverEndsOtherwise(p, cfg, regs, mem, k);
    DecodableRun(p, cfg, regs, mem, k);
  }

  lemma NopAloneNeverEnds(p: Program, regs: Registers, mem: Memory)
    requires IsNopAlone(p)
    ensures forall n :: !Oracle(p, regs, mem, n).Halted? && !Oracle(p, regs, mem, n).MemoryFault?
  {
    hide AfterSteps, IsNopAlone;
    NopAloneInterpreted(p, regs, mem);
    forall n: nat
      ensures !Oracle(p, regs, mem, n).Halted? && !Oracle(p, regs, mem, n).MemoryFault?
    {
      if n >= 2 { EndedStaysEnded(p, StartState(regs, mem), 2, n); }
      OracleStarts(p, regs, mem);
    }
  }

  // ---- The top word of the address space ------------------------------------------------------------

  /** The instruction accesses the top word. */
  predicate TouchesTop(i: Instruction, regs: Registers)
    requires RegistersInRange(i)
  {
    (IsLoad(i.op) || IsStore(i.op)) && AddOffset(U32(regs[i.rs]), i.imm) == TOP_WORD
  }

  predicate WrittenFaults(i: Instruction, s: ArchState)
    requires RegistersInRange(i)
  {
    (IsLoad(i.op) || IsStore(i.op)) && WrittenRefuses(s.mem, AddOffset(U32(s.regs[i.rs]), i.imm))
  }

  /** A step faults as the test is written exactly when it does not access the top word. */
  lemma FaultsAsWrittenExactly(i: Instruction, s: ArchState)
    requires RegistersInRange(i) && 4 * |s.mem| < TWO_32
    ensures (Perform(i, s).MemoryFault? <==> WrittenFaults(i, s)) <==> !TouchesTop(i, s.regs)
  {
    hide WrittenRefuses, Accessible, AluResult, BranchTaken;
    WrittenTestExactly(s.mem, AddOffset(U32(s.regs[i.rs]), i.imm));
  }

  /** In the pipeline too, a latch that accesses memory is refused as the test is written exactly when
      it does not access the top word. */
  lemma RefusedAsWrittenExactly(mem: Memory, l: Latch)
    requires !l.bubble && (l.ctrl.memRead || l.ctrl.memWrite) && 4 * |mem| < TWO_32
    ensures (MemoryStage(mem, l).Refused? <==> WrittenRefuses(mem, U32(l.aluResult))) <==> U32(l.aluResult) != TOP_WORD
  {
    hide WrittenRefuses, LoadWord, StoreWord;
    WrittenTestExactly(mem, U32(l.aluResult));
  }

  const BELOW_ZERO := Instruction(ADDI, 1, 0, 0, -4, 0)   // addi r1, r0, -4
  const LOAD_TOP := Instruction(LW, 2, 1, 0, 0, 0)        // lw r2, 0(r1)

  lemma MinusFour()
    ensures AluResult(ADDI, 0, -4) == -4 && AddOffset(U32(-4), 0) == TOP_WORD
  {
    hide BitAnd;
  }

  /** A two-instruction program reaches the top word: the second step is the documented fault, which
      the test as written lets through. */
  lemma TopWordWitness(p: Program, regs: Registers, mem: Memory)
    requires Stands(p, 0, BELOW_ZERO) && Stands(p, 4, LOAD_TOP) && regs[0] == 0 && 4 * |mem| < TWO_32
    ensures FaultsAt(p, regs, mem, 2)
    ensures var s := Oracle(p, regs, mem, 1).s; TouchesTop(LOAD_TOP, s.regs) && !WrittenFaults(LOAD_TOP, s)
  {
    hide Decode, CodeBytes, AluResult, AddOffset, WrittenRefuses, Accessible, Step, Decodes;
    MinusFour();
    WrittenTestExactly(mem, TOP_WORD);
    var s := ArchState(regs[1 := -4], mem, 4, 1);
    StepPerforms(p, StartState(regs, mem));
    StepPerforms(p, s);
    assert Oracle(p, regs, mem, 0) == Running(StartState(regs, mem));
    assert Oracle(p, regs, mem, 1) == Running(s);
  }

  lemma TopWordProgramExists() returns (p: Program)
    ensures Stands(p, 0, BELOW_ZERO) && Stands(p, 4, LOAD_TOP)
  {
    hide Encode, Decode;
    DecodeEncode(BELOW_ZERO);
    DecodeEncode(LOAD_TOP);
    EncodeFailsExactly(BELOW_ZERO);
    EncodeFailsExactly(LOAD_TOP);
    p := Program([WordOf(BELOW_ZERO), WordOf(LOAD_TOP)], [BELOW_ZERO, LOAD_TOP], [1, 2], map[]);
  }
}

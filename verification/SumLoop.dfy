/** The countdown loop of `examples/sum_loop.asm`: it adds the numbers from n down to 1, for every n that
    `li` can load. */
module SumLoop {
  import opened Words
  import opened Isa
  import opened Results
  import opened Encoding
  import opened Alu
  import opened Programs
  import opened Storage
  import opened Interpreting
  import opened Stages
  import opened Runs
  import opened Timing
  import opened Outcomes
  import opened Schedule
  import opened Costs
  import opened Forwarding
  import opened Syntax
  import opened Assembler
  import opened TwoPass
  import Meaning
  import opened Acceptance
  import opened Witnesses

  predicate Loadable(n: int) { 1 <= n <= 131071 }

  // ---- The program ---------------------------------------------------------------------------

  const CLEAR := Instruction(ADDI, 1, 0, 0, 0, 0)        // li r1, 0
  const ACCUMULATE := Instruction(ADD, 1, 1, 2, 0, 0)    // loop: add r1, r1, r2
  const DECREMENT := Instruction(ADDI, 2, 2, 0, -1, 0)   // addi r2, r2, -1
  const AGAIN := Instruction(BNE, 0, 2, 0, -8, 0)        // bne r2, r0, loop

  function Load(n: int): Instruction                     // li r2, n
    requires Loadable(n)
  {
    Instruction(ADDI, 2, 0, 0, n, 0)
  }

  function Source(n: int): seq<Statement> {
    [Command("li", [RegOperand(1), ImmOperand(0)], 4),
     Command("li", [RegOperand(2), ImmOperand(n)], 5),
     LabelDef("loop", 6),
     Command("add", [RegOperand(1), RegOperand(1), RegOperand(2)], 6),
     Command("addi", [RegOperand(2), RegOperand(2), ImmOperand(-1)], 7),
     Command("bne", [RegOperand(2), RegOperand(0), LabelOperand("loop")], 8),
     Command("ret", [], 9)]
  }

  predicate IsSumLoop(p: Program, n: int)
    requires Loadable(n)
  {
    && CodeBytes(p) == 24 && Stands(p, 0, CLEAR) && Stands(p, 4, Load(n)) && Stands(p, 8, ACCUMULATE)
    && Stands(p, 12, DECREMENT) && Stands(p, 16, AGAIN) && Stands(p, 20, STOP)
  }

  /** The statement at `i` is the `k`-th instruction. */
  lemma Placed(n: int)
    ensures var s := Source(n);
      && CommandsBefore(s, 0) == 0 && CommandsBefore(s, 1) == 1 && CommandsBefore(s, 2) == CommandsBefore(s, 3) == 2
      && CommandsBefore(s, 4) == 3 && CommandsBefore(s, 5) == 4 && CommandsBefore(s, 6) == 5
      && CommandsBefore(s, 7) == 6
  {
    var s := Source(n);
    assert CommandsBefore(s, 1) == 1 && CommandsBefore(s, 2) == 2 && CommandsBefore(s, 3) == 2;
    assert CommandsBefore(s, 4) == 3 && CommandsBefore(s, 5) == 4;
  }

  lemma LoopDefined(n: int)
    ensures Meaning.FindLabel(Source(n), "loop", 0) == 2
  {
    var s := Source(n);
    assert s[2].LabelDef? && s[2].name == "loop";
  }

  /** Nothing is wrong with any statement. */
  lemma NothingWrong(n: int)
    requires Loadable(n)
    ensures NoDuplicates(Source(n), 7) && NoFaults(Source(n), 7)
  {
    hide CommandFault;
    var s := Source(n);
    forall i: nat | i < 7
      ensures !Faulty(s, i)
    {
      if i != 2 { NoFaultAt(n, i); }
    }
  }

  lemma NoFaultAt(n: int, i: nat)
    requires Loadable(n) && i < 7 && i != 2
    ensures CommandFault(Source(n), i) == None
  {
    hide FirstSlotFault, SomeTooWide, Signature, Address;
    var s := Source(n);
    var ops := s[i].operands;
    Signatures();
    BranchInReach(n);
    LoopDefined(n);
    if i <= 1 {
      FaultOfTwo(s, i, RegSlot, ImmSlot, ops);
    } else if i == 3 {
      FaultOfThree(s, i, RegSlot, RegSlot, RegSlot, ops);
    } else if i == 4 {
      FaultOfThree(s, i, RegSlot, RegSlot, ImmSlot, ops);
    } else if i == 5 {
      FaultOfThree(s, i, RegSlot, RegSlot, BranchSlot, ops);
    } else {
      FaultOfNone(s, i, ops);
    }
  }

  lemma BranchInReach(n: int)
    ensures Address(Source(n), 2) == 8 && Address(Source(n), 5) == 16
  {
    hide CommandsBefore;
    Placed(n);
  }

  lemma Signatures()
    ensures Signature("li") == Some([RegSlot, ImmSlot]) && Signature("add") == Some([RegSlot, RegSlot, RegSlot])
    ensures Signature("addi") == Some([RegSlot, RegSlot, ImmSlot])
    ensures Signature("bne") == Some([RegSlot, RegSlot, BranchSlot]) && Signature("ret") == Some([])
  {
  }

  lemma Lookups()
    ensures LookupOpcode("add") == Some(ADD) && LookupOpcode("addi") == Some(ADDI)
    ensures LookupOpcode("bne") == Some(BNE) && LookupOpcode("ret") == Some(RET)
  {
  }

  /** The instruction of the statement at `i`. */
  function Expected(n: int, i: nat): Instruction
    requires Loadable(n)
  {
    if i == 0 then CLEAR else if i == 1 then Load(n) else if i == 3 then ACCUMULATE
    else if i == 4 then DECREMENT else if i == 5 then AGAIN else STOP
  }

  lemma Translated(n: int, symbols: Symbols, i: nat, address: UInt32)
    requires Loadable(n) && i < 7 && i != 2 && "loop" in symbols && symbols["loop"] == 8 && (i == 5 ==> address == 16)
    ensures Translate(symbols, Source(n)[i].name, Source(n)[i].operands, address) == Success(Expected(n, i))
  {
    hide LookupOpcode;
    Lookups();
  }

  /** Its word decodes to that instruction. */
  lemma WordDecodes(n: int, p: Program, i: nat)
    requires Loadable(n) && i < 7 && i != 2 && Faithful(Source(n), p)
    ensures var k := CommandsBefore(Source(n), i);
      k < |p.words| && Decode(p.words[k]) == Success(Expected(n, i))
  {
    hide Decode, CommandsBefore, AddressAfter, Translate, Encode, Expected;
    var s := Source(n);
    Placed(n);
    AddressIsCount(s, i);
    AddressIsCount(s, 2);
    assert s[2].LabelDef? && s[2].name in p.symbols;
    assert EmittedRight(s, p, i);
    Translated(n, p.symbols, i, AddressAfter(s, i));
    AssembledDecodes(p.symbols, s[i], AddressAfter(s, i));
  }

  /** The program assembles, and its image is the loop. */
  lemma SumLoopAssembles(n: int) returns (p: Program)
    requires Loadable(n)
    ensures AssembleStatements(Source(n)) == Success(p) && IsSumLoop(p, n) && AllDecode(p)
  {
    hide AssembleStatements, Decode, AddressAfter, CommandsBefore, AllDecode, Source, TableRight, EmittedRight;
    var s := Source(n);
    NothingWrong(n);
    SevenStatements(n);
    AssemblesExactly(s);
    p := AssembleStatements(s).value;
    AssemblyIsFaithful(s);
    Placed(n);
    WordDecodes(n, p, 0);
    WordDecodes(n, p, 1);
    WordDecodes(n, p, 3);
    WordDecodes(n, p, 4);
    WordDecodes(n, p, 5);
    WordDecodes(n, p, 6);
  }

  lemma SevenStatements(n: int)
    ensures |Source(n)| == 7
  {
  }

  // ---- The interpreter ------------------------------------------------------------------------

  /** n + (n - 1) + ..., `i` terms. */
  function SumDown(n: int, i: nat): int {
    if i == 0 then 0 else SumDown(n, i - 1) + (n - (i - 1))
  }

  lemma {:induction false} SumDownClosed(n: int, i: nat)
    ensures 2 * SumDown(n, i) == i * (2 * n - i + 1)
  {
    if i == 0 {
    } else {
      SumDownClosed(n, i - 1);
      assert (i - 1) * (2 * n - (i - 1) + 1) + 2 * (n - (i - 1)) == i * (2 * n - i + 1);
    }
  }

  /** The state after `k` instructions of the iteration behind `i` complete ones. */
  function Inside(regs: Registers, mem: Memory, n: int, i: nat, k: nat): ArchState
    requires Loadable(n) && i < n && k <= 3
  {
    var sum := S32(SumDown(n, if k == 0 then i else i + 1));
    var left := if k <= 1 then n - i else n - i - 1;
    var pc := if k == 3 then if left == 0 then 20 else 8 else 8 + 4 * k;
    ArchState(regs[1 := sum][2 := left], mem, pc, 3 * i + 2 + k)
  }

  lemma Arithmetic(sum: int, left: int)
    requires 1 <= left <= 131071
    ensures AluResult(ADD, S32(sum), left) == S32(sum + left)
    ensures AluResult(ADDI, left, -1) == left - 1
    ensures AluResult(ADDI, 0, left) == left && AluResult(ADDI, 0, 0) == 0
    ensures AddOffset(16, -8) == 8
  {
    hide BitAnd, BitOr, BitXor;
    U32OfS32(sum);
    assert AluResult(ADD, S32(sum), left) == S32(U32(sum) + left);
    WordSums(sum, left);
  }

  lemma WordSums(x: int, y: int)
    ensures S32(U32(x) + y) == S32(x + y)
  {
  }

  /** One instruction of the loop body. */
  lemma BodyStep(p: Program, regs: Registers, mem: Memory, n: int, i: nat, k: nat)
    requires Loadable(n) && IsSumLoop(p, n) && regs[0] == 0 && i < n && k < 3
    ensures Step(p, Inside(regs, mem, n, i, k)) == Running(Inside(regs, mem, n, i, k + 1))
  {
    hide Decode, CodeBytes, AluResult, S32;
    StepPerforms(p, Inside(regs, mem, n, i, k));
    Arithmetic(SumDown(n, i), n - i);
  }

  lemma Entered(p: Program, regs: Registers, mem: Memory, n: int)
    requires Loadable(n) && IsSumLoop(p, n) && regs[0] == 0
    ensures Oracle(p, regs, mem, 1) == Running(ArchState(regs[1 := 0], mem, 4, 1))
    ensures Oracle(p, regs, mem, 2) == Running(Inside(regs, mem, n, 0, 0))
  {
    hide Decode, CodeBytes, AluResult;
    Arithmetic(0, n);
    var s0 := StartState(regs, mem);
    StepPerforms(p, s0);
    assert AfterSteps(p, s0, 1) == Running(ArchState(regs[1 := 0], mem, 4, 1));
    StepPerforms(p, AfterSteps(p, s0, 1).s);
  }

  /** The interpreter inside the iteration behind `i` complete ones. */
  lemma {:induction false} AtBody(p: Program, regs: Registers, mem: Memory, n: int, i: nat, k: nat)
    requires Loadable(n) && IsSumLoop(p, n) && regs[0] == 0 && i < n && k <= 3
    ensures Oracle(p, regs, mem, 3 * i + 2 + k) == Running(Inside(regs, mem, n, i, k))
    decreases i, k
  {
    hide Step, IsSumLoop, S32, SumDown;
    if k > 0 {
      AtBody(p, regs, mem, n, i, k - 1);
      BodyStep(p, regs, mem, n, i, k - 1);
    } else if i > 0 {
      AtBody(p, regs, mem, n, i - 1, 3);
    } else {
      Entered(p, regs, mem, n);
    }
  }

  /** 1 + 2 + ... + n. */
  function SumTo(n: int): int {
    n * (n + 1) / 2
  }

  lemma SumDownIsSumTo(n: nat)
    ensures SumDown(n, n) == SumTo(n)
  {
    SumDownClosed(n, n);
    assert n * (2 * n - n + 1) == n * (n + 1);
  }

  lemma SmallSum(n: int)
    requires 1 <= n <= 65535
    ensures S32(SumTo(n)) == SumTo(n)
  {
    Products(n, n + 1, 65535, 65536);
    HalfFits(n * (n + 1));
  }

  lemma Products(a: nat, b: nat, c: nat, d: nat)
    requires a <= c && b <= d
    ensures 0 <= a * b <= c * d
  {
    assert a * b <= a * d;
    assert (c - a) * d >= 0;
  }

  lemma HalfFits(x: nat)
    requires x <= 65535 * 65536
    ensures S32(x / 2) == x / 2
  {
  }

  /** The loop halts after 3n + 3 instructions with the sum of the numbers 1 to n in r1 and r2 at zero, in
      32-bit arithmetic; up to 65535 the sum does not wrap. */
  lemma SumLoopHalts(p: Program, regs: Registers, mem: Memory, n: int)
    requires Loadable(n) && IsSumLoop(p, n) && regs[0] == 0
    ensures HaltsAt(p, regs, mem, 3 * n + 3)
    ensures Oracle(p, regs, mem, 3 * n + 3) ==
      Halted(ArchState(regs[1 := S32(SumTo(n))][2 := 0], mem, 20, 3 * n + 3))
    ensures n <= 65535 ==> S32(SumTo(n)) == SumTo(n)
  {
    hide IsSumLoop, S32, SumDown, SumTo, Step;
    AtBody(p, regs, mem, n, n - 1, 3);
    SumDownIsSumTo(n);
    LastStep(p, regs, mem, n);
    if n <= 65535 { SmallSum(n); }
  }

  lemma LastStep(p: Program, regs: Registers, mem: Memory, n: int)
    requires Loadable(n) && IsSumLoop(p, n)
    ensures Step(p, Inside(regs, mem, n, n - 1, 3)) == Halted(Inside(regs, mem, n, n - 1, 3).(retired := 3 * n + 3))
  {
    hide Decode, CodeBytes, S32, SumDown;
    StepPerforms(p, Inside(regs, mem, n, n - 1, 3));
  }

  // ---- The pipeline ------------------------------------------------------------------------------

  predicate Performs(p: Program, regs: Registers, mem: Memory, j: nat, i: Instruction) {
    Executes(p, regs, mem, j) && Traced(p, regs, mem, j) == i
  }

  /** The instruction executed as the `k`-th of the iteration behind `i` complete ones. */
  lemma TracedBody(p: Program, regs: Registers, mem: Memory, n: int, i: nat, k: nat)
    requires Loadable(n) && IsSumLoop(p, n) && regs[0] == 0 && i < n && k < 3
    ensures Performs(p, regs, mem, 3 * i + 3 + k, if k == 0 then ACCUMULATE else if k == 1 then DECREMENT else AGAIN)
    ensures Transfers(p, regs, mem, 3 * i + 3 + k) <==> k == 2 && i < n - 1
  {
    hide Decode, CodeBytes, S32, SumDown, AfterSteps, AluResult;
    AtBody(p, regs, mem, n, i, k);
  }

  lemma TracedClear(p: Program, regs: Registers, mem: Memory, n: int)
    requires Loadable(n) && IsSumLoop(p, n) && regs[0] == 0
    ensures Performs(p, regs, mem, 1, CLEAR) && !Transfers(p, regs, mem, 1)
  {
    hide Decode, CodeBytes, AluResult;
    assert AfterSteps(p, StartState(regs, mem), 0) == Running(StartState(regs, mem));
  }

  lemma TracedLoad(p: Program, regs: Registers, mem: Memory, n: int)
    requires Loadable(n) && IsSumLoop(p, n) && regs[0] == 0
    ensures Performs(p, regs, mem, 2, Load(n)) && !Transfers(p, regs, mem, 2)
  {
    hide Decode, CodeBytes, AfterSteps, AluResult;
    Entered(p, regs, mem, n);
  }

  lemma TracedStop(p: Program, regs: Registers, mem: Memory, n: int)
    requires Loadable(n) && IsSumLoop(p, n) && regs[0] == 0
    ensures Performs(p, regs, mem, 3 * n + 3, STOP) && !Transfers(p, regs, mem, 3 * n + 3)
  {
    hide Decode, CodeBytes, AfterSteps, AluResult, S32, SumDown;
    AtBody(p, regs, mem, n, n - 1, 3);
  }

  /** The `j`-th instruction of the run. */
  function Nth(n: int, j: nat): Instruction
    requires Loadable(n) && 1 <= j <= 3 * n + 3
  {
    if j == 1 then CLEAR else if j == 2 then Load(n) else if j == 3 * n + 3 then STOP
    else if j % 3 == 0 then ACCUMULATE else if j % 3 == 1 then DECREMENT else AGAIN
  }

  lemma TracedNth(p: Program, regs: Registers, mem: Memory, n: int, j: nat)
    requires Loadable(n) && IsSumLoop(p, n) && regs[0] == 0 && 1 <= j <= 3 * n + 3
    ensures Performs(p, regs, mem, j, Nth(n, j))
    ensures Transfers(p, regs, mem, j) <==> 3 < j < 3 * n + 2 && j % 3 == 2
  {
    hide IsSumLoop, Performs, Transfers;
    if j == 1 {
      TracedClear(p, regs, mem, n);
    } else if j == 2 {
      TracedLoad(p, regs, mem, n);
    } else if j == 3 * n + 3 {
      TracedStop(p, regs, mem, n);
    } else {
      TracedBody(p, regs, mem, n, (j - 3) / 3, (j - 3) % 3);
    }
  }

  /** How many times the first `j` instructions have branched back. */
  function BranchesBack(n: int, j: nat): nat
    requires Loadable(n) && j <= 3 * n + 3
  {
    if j <= 4 then 0 else if j >= 3 * n + 2 then n - 1 else (j - 2) / 3
  }

  /** With forwarding nothing stalls. */
  lemma {:induction false} NothingStalls(p: Program, regs: Registers, mem: Memory, n: int, j: nat)
    requires Loadable(n) && IsSumLoop(p, n) && regs[0] == 0 && j <= 3 * n + 3
    ensures LoadUseCount(p, regs, mem, j) == 0 && TransferCount(p, regs, mem, j) == BranchesBack(n, j)
  {
    hide IsSumLoop, LoadUse, Transfers, Performs;
    if j == 0 {
    } else {
      NothingStalls(p, regs, mem, n, j - 1);
      TracedNth(p, regs, mem, n, j);
      NoLoadBefore(p, regs, mem, n, j);
    }
  }

  lemma NoLoadBefore(p: Program, regs: Registers, mem: Memory, n: int, j: nat)
    requires Loadable(n) && IsSumLoop(p, n) && regs[0] == 0 && 1 <= j <= 3 * n + 3
    ensures !LoadUse(p, regs, mem, j - 1, j)
  {
    hide IsSumLoop, Transfers, Oracle, Decodes, Feeds;
    if j > 1 { TracedNth(p, regs, mem, n, j - 1); }
  }

  /** The cycle in which the `j`-th instruction is in EX. */
  lemma TimeOf(p: Program, cfg: Config, regs: Registers, mem: Memory, n: int, j: nat)
    requires Loadable(n) && IsSumLoop(p, n) && regs[0] == 0 && 1 <= j <= 3 * n + 3 && cfg.forwarding
    ensures ExTime(cfg, p, regs, mem, j) == j + 2 + 2 * BranchesBack(n, j - 1)
  {
    hide IsSumLoop, LoadUseCount, TransferCount, DivertCount, ExTime, BranchesBack;
    NothingStalls(p, regs, mem, n, j);
    NothingStalls(p, regs, mem, n, j - 1);
    SoundDivertCount(cfg, p, regs, mem, j - 1);
    ExTimeSum(cfg, p, regs, mem, j);
  }

  /** The operands forwarded to the first `j` instructions. */
  function ForwardsOf(n: int, j: nat): nat
    requires Loadable(n) && j <= 3 * n + 3
  {
    if j <= 2 then 0 else if j == 3 then 2 else 3 + (j - 2) / 3
  }

  /** The `i`-th instruction leaves its result in `r`, at most two cycles before the `j`-th is in EX. */
  predicate InTime(n: int, i: int, j: nat, r: UInt8)
    requires Loadable(n) && i < j <= 3 * n + 3
  {
    && i >= 1 && Destination(Nth(n, i)) == r != 0
    && j - i + 2 * (BranchesBack(n, j - 1) - BranchesBack(n, i - 1)) <= 2
  }

  lemma SuppliesNth(p: Program, cfg: Config, regs: Registers, mem: Memory, n: int, i: int, j: nat, r: UInt8)
    requires Loadable(n) && IsSumLoop(p, n) && regs[0] == 0 && i < j && 1 <= j <= 3 * n + 3 && cfg.forwarding
    ensures Supplies(cfg, p, regs, mem, i, j, r) <==> InTime(n, i, j, r)
  {
    hide IsSumLoop, Executes, Traced, ExTime, Transfers, Nth, BranchesBack, Destination;
    if i >= 1 {
      TracedNth(p, regs, mem, n, i);
      TimeOf(p, cfg, regs, mem, n, i);
      TimeOf(p, cfg, regs, mem, n, j);
    }
  }

  lemma InTimeNth(n: int, j: nat, r: UInt8)
    requires Loadable(n) && 1 <= j <= 3 * n + 3 && r <= 2
    ensures InTime(n, j - 1, j, r) <==>
      r != 0 && ((j == 2 && r == 1) || (j == 3 && r == 2) || (3 < j && j % 3 == 1 && r == 1) ||
        (3 < j && j % 3 == 2 && r == 2))
    ensures InTime(n, j - 2, j, r) <==>
      r != 0 && ((j == 3 && r == 1) || (j == 4 && r == 2) || (4 < j && j % 3 == 2 && r == 1) ||
        (j == 3 * n + 3 && r == 2))
  {
  }

  /** Only the first iteration takes operands from the two loads; every branch takes r2 from the `addi`. */
  lemma ForwardsOfNth(p: Program, cfg: Config, regs: Registers, mem: Memory, n: int, j: nat)
    requires Loadable(n) && IsSumLoop(p, n) && regs[0] == 0 && 1 <= j <= 3 * n + 3 && cfg.forwarding
    ensures Forwarded(cfg, p, regs, mem, j, FirstSource(Nth(n, j))) <==>
      j == 3 || j == 4 || (5 <= j <= 3 * n + 2 && j % 3 == 2)
    ensures Forwarded(cfg, p, regs, mem, j, SecondSource(Nth(n, j))) <==> j == 3
  {
    hide IsSumLoop, Supplies, InTime;
    var first, second := FirstSource(Nth(n, j)), SecondSource(Nth(n, j));
    SuppliesNth(p, cfg, regs, mem, n, j - 1, j, first);
    SuppliesNth(p, cfg, regs, mem, n, j - 1, j, second);
    SuppliesNth(p, cfg, regs, mem, n, j - 2, j, first);
    SuppliesNth(p, cfg, regs, mem, n, j - 2, j, second);
    InTimeNth(n, j, first);
    InTimeNth(n, j, second);
  }

  lemma {:induction false} ForwardsCountedOut(p: Program, cfg: Config, regs: Registers, mem: Memory, n: int, j: nat)
    requires Loadable(n) && IsSumLoop(p, n) && regs[0] == 0 && j <= 3 * n + 3 && cfg.forwarding
    ensures ForwardTotal(cfg, p, regs, mem, j) == ForwardsOf(n, j)
  {
    hide IsSumLoop, Executes, Traced, Forwarded, FirstSource, SecondSource, Transfers, Nth;
    if j == 0 {
    } else {
      ForwardsCountedOut(p, cfg, regs, mem, n, j - 1);
      TracedNth(p, regs, mem, n, j);
      ForwardsOfNth(p, cfg, regs, mem, n, j);
    }
  }

  lemma SumLoopDrains(p: Program, cfg: Config, regs: Registers, mem: Memory, n: int, k: nat)
    requires Loadable(n) && IsSumLoop(p, n) && AllDecode(p) && regs[0] == 0 && cfg.forwarding
    ensures
      var b := Run(p, cfg, regs, mem, k);
      && (b.Finished? <==> k >= 5 * n + 5) && (b.Alive? <==> k < 5 * n + 5)
      && (b.Finished? ==>
            && b.m.regs == regs[1 := S32(SumTo(n))][2 := 0] && b.m.mem == mem
            && b.m.stats.cycles == 5 * n + 5 && b.m.stats.retired == 3 * n + 3)
  {
    hide IsSumLoop, AllDecode, Oracle, ExTime, NeverLoses, SumTo, Run, S32, HaltsAt;
    var e := 3 * n + 3;
    SumLoopHalts(p, regs, mem, n);
    TimeOf(p, cfg, regs, mem, n, e);
    SoundNeverLoses(p, cfg, regs, mem, k);
    DecodableRun(p, cfg, regs, mem, k);
    DrainsWhenHalted(p, cfg, regs, mem, e, k);
  }

  /** With forwarding the pipeline drains in cycle 5n + 5 exactly, with the sum in r1: 3n + 3 instructions,
      no stall, n - 1 flushes of two cycles, n + 3 forwarded operands. The printed report of the
      example is the case n = 5. */
  lemma SumLoopReport(p: Program, cfg: Config, regs: Registers, mem: Memory, n: int, k: nat)
    requires Loadable(n) && IsSumLoop(p, n) && AllDecode(p) && regs[0] == 0 && cfg.forwarding
    ensures
      var b := Run(p, cfg, regs, mem, k);
      && (b.Finished? <==> k >= 5 * n + 5) && (b.Alive? <==> k < 5 * n + 5)
      && (b.Finished? ==>
            && b.m.regs == regs[1 := S32(SumTo(n))][2 := 0] && b.m.mem == mem
            && b.m.stats == Stats(5 * n + 5, 3 * n + 3, 0, n - 1, 2 * (n - 1), n + 3))
  {
    hide IsSumLoop, AllDecode, Oracle, ExTime, NeverLoses, SumTo, ForwardTotal, LoadUseCount, TransferCount, Run, S32,
      HaltsAt, ForwardsExact, OldestHeld;
    var e := 3 * n + 3;
    SumLoopDrains(p, cfg, regs, mem, n, k);
    if Run(p, cfg, regs, mem, k).Finished? {
      SumLoopHalts(p, regs, mem, n);
      SoundNeverLoses(p, cfg, regs, mem, k);
      CountersOfDrainedRun(p, cfg, regs, mem, e, k);
      NothingStalls(p, regs, mem, n, e);
      SumLoopForwards(p, cfg, regs, mem, n, k);
    }
  }

  lemma SumLoopForwards(p: Program, cfg: Config, regs: Registers, mem: Memory, n: int, k: nat)
    requires Loadable(n) && IsSumLoop(p, n) && regs[0] == 0 && cfg.forwarding
    requires Run(p, cfg, regs, mem, k).Finished? && Run(p, cfg, regs, mem, k).m.stats.retired == 3 * n + 3
    ensures Run(p, cfg, regs, mem, k).m.stats.forwards == n + 3
  {
    hide IsSumLoop, NeverLoses, ForwardTotal, Run, OldestHeld;
    SoundNeverLoses(p, cfg, regs, mem, k);
    ForwardsCounted(p, cfg, regs, mem, k);
    ForwardsCountedOut(p, cfg, regs, mem, n, 3 * n + 3);
  }
}

/** From source text to the end of a pipeline run. */
module EndToEnd {
  import opened Words
  import opened Isa
  import opened Results
  import opened Programs
  import opened Storage
  import opened Interpreting
  import opened Stages
  import opened Runs
  import opened Timing
  import opened Schedule
  import opened Outcomes
  import opened Exactness
  import opened Tracing
  import opened Syntax
  import opened Lexer
  import opened Parser
  import opened FrontEnd
  import opened Assembler
  import opened TwoPass
  import opened Meaning
  import Pipelining

  // ---- The front door of the assembler -------------------------------------------------------

  datatype SourceError = LexFault(lex: LexError) | ParseFault(parse: ParseError) | AsmFault(asm: AssembleError)

  /** The statements of a source text. */
  ghost function Statements(src: string): Result<seq<Statement>, SourceError> {
    LexedStream(src, 1);
    match Lex(src, 1)
    case Failure(e) => Failure(LexFault(e))
    case Success(toks) =>
      match StatementsFrom(toks, 0)
      case Failure(e) => Failure(ParseFault(e))
      case Success(stmts) => Success(stmts)
  }

  /** Lexes, parses and assembles; the first error of the three wins. */
  method AssembleSource(src: string) returns (r: Result<Program, SourceError>)
    ensures Statements(src).Failure? ==> r == Failure(Statements(src).error)
    ensures Statements(src).Success? ==>
      var image := AssembleStatements(Statements(src).value);
      r == if image.Success? then Success(image.value) else Failure(AsmFault(image.error))
  {
    hide Lex, StatementsFrom, AssembleStatements;
    LexedStream(src, 1);
    var toks := Tokenize(src);
    if toks.Failure? {
      return Failure(LexFault(toks.error));
    }
    var parser := new Parser(toks.value);
    var stmts := parser.Parse();
    if stmts.Failure? {
      return Failure(ParseFault(stmts.error));
    }
    var image := Assemble(stmts.value);
    if image.Failure? {
      return Failure(AsmFault(image.error));
    }
    return Success(image.value);
  }

  // ---- Source to pipeline ----------------------------------------------------------------------

  /** The pipeline as the source builds it by default: forwarding on, a stall before a flush. */
  const AS_WRITTEN := Config(true, false)

  /** The ending step is the count of the state it ends in. */
  lemma EndingRetired(p: Program, regs: Registers, mem: Memory, e: nat)
    requires EndsAt(p, regs, mem, e) && (Oracle(p, regs, mem, e).Halted? || Oracle(p, regs, mem, e).MemoryFault?)
    ensures Oracle(p, regs, mem, e).s.retired == e
  {
    hide Step;
    RunningCounts(p, regs, mem, e - 1);
    StepCounts(p, Oracle(p, regs, mem, e - 1).s);
  }

  /** What a pipeline run does, given what the interpreter has done after `n` steps. */
  ghost predicate RunFollows(p: Program, regs: Registers, mem: Memory, r: Progress) {
    match r
    case Halted(s) =>
      var b := Run(p, AS_WRITTEN, regs, mem, 3 * s.retired + 2);
      b.Finished? && b.m.regs == s.regs && b.m.mem == s.mem && b.m.stats.retired == s.retired
    case MemoryFault(s) =>
      var b := Run(p, AS_WRITTEN, regs, mem, 3 * s.retired + 1);
      b.Faulted? && b.m.regs == s.regs && b.m.mem == s.mem && b.m.stats.retired == s.retired
    case PcFault(_) => forall k :: Run(p, AS_WRITTEN, regs, mem, k).Alive?
    case _ => true
  }

  lemma RunFollowsOracle(p: Program, regs: Registers, mem: Memory, n: nat)
    requires AllDecode(p) && regs[0] == 0
    ensures RunFollows(p, regs, mem, Oracle(p, regs, mem, n))
  {
    hide Run, Oracle;
    var r := Oracle(p, regs, mem, n);
    if !r.Running? {
      var e := EndingStep(p, regs, mem, n);
      match r
      case Halted(s) => HaltFollows(p, regs, mem, e);
      case MemoryFault(s) => FaultFollows(p, regs, mem, e);
      case PcFault(s) => PcFaultFollows(p, regs, mem, e);
      case _ =>
    }
  }

  lemma HaltFollows(p: Program, regs: Registers, mem: Memory, e: nat)
    requires AllDecode(p) && regs[0] == 0 && HaltsAt(p, regs, mem, e)
    ensures RunFollows(p, regs, mem, Oracle(p, regs, mem, e))
  {
    hide Run, Oracle, NeverLoses, ExTime;
    EndingRetired(p, regs, mem, e);
    ExTimeBound(AS_WRITTEN, p, regs, mem, e);
    SoundNeverLoses(p, AS_WRITTEN, regs, mem, 3 * e + 2);
    DecodableRun(p, AS_WRITTEN, regs, mem, 3 * e + 2);
    DrainsWhenHalted(p, AS_WRITTEN, regs, mem, e, 3 * e + 2);
  }

  lemma FaultFollows(p: Program, regs: Registers, mem: Memory, e: nat)
    requires AllDecode(p) && regs[0] == 0 && FaultsAt(p, regs, mem, e)
    ensures RunFollows(p, regs, mem, Oracle(p, regs, mem, e))
  {
    hide Run, Oracle, NeverLoses, ExTime;
    EndingRetired(p, regs, mem, e);
    ExTimeBound(AS_WRITTEN, p, regs, mem, e);
    SoundNeverLoses(p, AS_WRITTEN, regs, mem, 3 * e + 1);
    DecodableRun(p, AS_WRITTEN, regs, mem, 3 * e + 1);
    FaultsPrecisely(p, AS_WRITTEN, regs, mem, e, 3 * e + 1);
  }

  lemma PcFaultFollows(p: Program, regs: Registers, mem: Memory, e: nat)
    requires AllDecode(p) && regs[0] == 0 && EndsAt(p, regs, mem, e) && Oracle(p, regs, mem, e).PcFault?
    ensures RunFollows(p, regs, mem, Oracle(p, regs, mem, e))
  {
    hide Run, Oracle, NeverLoses, EndsAt;
    forall n
      ensures !Oracle(p, regs, mem, n).Halted? && !Oracle(p, regs, mem, n).MemoryFault?
    {
      AroundTheEnd(p, regs, mem, e, n);
    }
    forall k
      ensures Run(p, AS_WRITTEN, regs, mem, k).Alive?
    {
      SoundNeverLoses(p, AS_WRITTEN, regs, mem, k);
      DecodableRun(p, AS_WRITTEN, regs, mem, k);
      NeverEndsOtherwise(p, AS_WRITTEN, regs, mem, k);
    }
  }

  /** Source to pipeline: what the statements mean is what the pipelined machine does with their
      words. A source run that stops is a pipeline that drains, within three cycles a statement and
      two, with the same registers, memory and count; a source run that traps is a precise fault; one
      that leaves the code never ends. */
  lemma SourceToPipeline(stmts: seq<Statement>, regs: Registers, mem: Memory, n: nat)
    requires AssembleStatements(stmts).Success? && FitsAddresses(stmts) && regs[0] == 0
    ensures
      var p := AssembleStatements(stmts).value;
      match SourceRun(stmts, SourceState(regs, mem, 0, 0, 0), n)
      case Going(_) => true
      case Stopped(s) =>
        var b := Run(p, AS_WRITTEN, regs, mem, 3 * s.retired + 2);
        b.Finished? && b.m.regs == s.regs && b.m.mem == s.mem && b.m.stats.retired == s.retired
      case Trapped(s) =>
        var b := Run(p, AS_WRITTEN, regs, mem, 3 * s.retired + 1);
        b.Faulted? && b.m.regs == s.regs && b.m.mem == s.mem && b.m.stats.retired == s.retired
      case OffTheEnd(_) => forall k :: Run(p, AS_WRITTEN, regs, mem, k).Alive?
      case Meaningless(_) => false
  {
    hide Run, SourceRun, AssembleStatements, FitsAddresses, AllDecode, Parallel, Faithful, AfterSteps;
    AssemblyIsFaithful(stmts);
    AssemblyPreservesMeaning(stmts, regs, mem, n);
    RunFollowsOracle(AssembleStatements(stmts).value, regs, mem, n);
  }

  /** A source program that runs for ever keeps the pipeline running for ever. */
  lemma SourceLoops(stmts: seq<Statement>, regs: Registers, mem: Memory, k: nat)
    requires AssembleStatements(stmts).Success? && FitsAddresses(stmts) && regs[0] == 0
    requires forall n :: SourceRun(stmts, SourceState(regs, mem, 0, 0, 0), n).Going?
    ensures Run(AssembleStatements(stmts).value, AS_WRITTEN, regs, mem, k).Alive?
  {
    hide Run, SourceRun, AssembleStatements, FitsAddresses, AllDecode, Parallel, Faithful, AfterSteps,
      NeverLoses;
    var p := AssembleStatements(stmts).value;
    AssemblyIsFaithful(stmts);
    forall n
      ensures !Oracle(p, regs, mem, n).Halted? && !Oracle(p, regs, mem, n).MemoryFault?
    {
      assert SourceRun(stmts, SourceState(regs, mem, 0, 0, 0), n).Going?;
      AssemblyPreservesMeaning(stmts, regs, mem, n);
    }
    SoundNeverLoses(p, AS_WRITTEN, regs, mem, k);
    DecodableRun(p, AS_WRITTEN, regs, mem, k);
    NeverEndsOtherwise(p, AS_WRITTEN, regs, mem, k);
  }

  // ---- Comparing the two simulators ---------------------------------------------------------------

  /** Register and memory contents at power-on. */
  ghost function ZeroRegs(): Registers {
    seq(NUM_REGISTERS, _ => 0)
  }

  ghost function ZeroMem(dataBytes: UInt32): Memory {
    seq(dataBytes / 4, _ => 0)
  }

  /** When both runs end normally and no redirect is lost, they end alike. */
  lemma SameAtTheEnd(p: Program, cfg: Config, regs: Registers, mem: Memory, steps: nat, cycles: nat, s: ArchState,
      m: Machine)
    requires regs[0] == 0 && NeverLoses(p, cfg, regs, mem, cycles)
    requires Oracle(p, regs, mem, steps) == Halted(s) && Run(p, cfg, regs, mem, cycles) == Finished(m)
    ensures m.regs == s.regs && m.mem == s.mem && m.stats.retired == s.retired
  {
    hide Run, AfterSteps, NeverLoses;
    RunAgrees(p, cfg, regs, mem, cycles);
    var n := m.stats.retired;
    if n <= steps {
      EndedStaysEnded(p, StartState(regs, mem), n, steps);
    } else {
      EndedStaysEnded(p, StartState(regs, mem), steps, n);
    }
  }

  /** Budgets that cover `n` executed instructions on either simulator. */
  predicate Affords(maxSteps: nat, maxCycles: nat, n: nat) {
    n <= maxSteps && 3 * n + 2 <= maxCycles
  }

  /** The program halts in the interpreter within these budgets. */
  ghost predicate HaltsWithin(p: Program, regs: Registers, mem: Memory, maxSteps: nat, maxCycles: nat) {
    exists n :: HaltsAt(p, regs, mem, n) && Affords(maxSteps, maxCycles, n)
  }

  lemma BothEnd(p: Program, cfg: Config, regs: Registers, mem: Memory, steps: nat, cycles: nat)
    requires AllDecode(p) && regs[0] == 0 && NeverLoses(p, cfg, regs, mem, cycles)
    requires HaltsWithin(p, regs, mem, steps, cycles)
    ensures Oracle(p, regs, mem, steps).Halted? && Run(p, cfg, regs, mem, cycles).Finished?
  {
    hide Run, AfterSteps, NeverLoses, ExTime, AllDecode;
    var n :| HaltsAt(p, regs, mem, n) && Affords(steps, cycles, n);
    AroundTheEnd(p, regs, mem, n, steps);
    ExTimeBound(cfg, p, regs, mem, n);
    DecodableRun(p, cfg, regs, mem, cycles);
    DrainsWhenHalted(p, cfg, regs, mem, n, cycles);
  }

  /** The comparison cannot be spoilt: forwarding is on, or the interpreter's trace loses no redirect in
      time. */
  ghost predicate KeepsRedirects(p: Program, forwarding: bool, regs: Registers, mem: Memory, maxCycles: nat) {
    forwarding || NoLossBy(Config(false, false), p, regs, mem, maxCycles)
  }

  lemma KeptIsNeverLost(p: Program, forwarding: bool, regs: Registers, mem: Memory, k: nat)
    requires regs[0] == 0 && KeepsRedirects(p, forwarding, regs, mem, k)
    ensures NeverLoses(p, Config(forwarding, false), regs, mem, k)
  {
    hide NeverLoses, NoLossBy;
    if forwarding {
      SoundNeverLoses(p, Config(true, false), regs, mem, k);
    } else {
      LossesOnTrace(p, Config(false, false), regs, mem, k);
    }
  }

  /** The two final states hold the same registers, memory and retired count. */
  ghost predicate SameOutcome(s: ArchState, m: Machine) {
    m.regs == s.regs && m.mem == s.mem && m.stats.retired == s.retired
  }

  /** Runs a program on both simulators and compares registers, memory and retired counts; `None`
      exactly when either does not end normally within its budget. Unless a redirect is lost the
      comparison never fails, and it is made whenever the budgets suffice and every word decodes. */
  method MatchesOracle(program: Program, dataBytes: UInt32, forwarding: bool, maxSteps: nat, maxCycles: nat)
    returns (matches: Option<bool>)
    requires Parallel(program)
    ensures
      var r := Oracle(program, ZeroRegs(), ZeroMem(dataBytes), maxSteps);
      var b := Run(program, Config(forwarding, false), ZeroRegs(), ZeroMem(dataBytes), maxCycles);
      && (matches.Some? <==> r.Halted? && b.Finished?)
      && (matches.Some? ==> (matches.value <==> SameOutcome(r.s, b.m)))
    ensures KeepsRedirects(program, forwarding, ZeroRegs(), ZeroMem(dataBytes), maxCycles) ==>
      && matches != Some(false)
      && (AllDecode(program) && HaltsWithin(program, ZeroRegs(), ZeroMem(dataBytes), maxSteps, maxCycles) ==>
            matches == Some(true))
  {
    hide Run, Oracle, AfterSteps, AfterCycles, NeverLoses, KeepsRedirects, AllDecode, HaltsWithin, Start;
    ghost var cfg, regs, mem := Config(forwarding, false), ZeroRegs(), ZeroMem(dataBytes);
    var interp := new Interpreter(program, dataBytes);
    var how := interp.Run(maxSteps);
    ghost var s := interp.State();
    InterpreterReports(program, regs, mem, maxSteps);
    assert Interpreting.Reported(how, s) == Oracle(program, regs, mem, maxSteps);

    var pipe := new Pipelining.Pipeline(program, dataBytes, forwarding);
    var ended := pipe.Run(maxCycles);
    ghost var m := pipe.State();
    PipelineReports(program, cfg, regs, mem, maxCycles);
    assert Pipelining.Reported(ended, m) == Run(program, cfg, regs, mem, maxCycles);

    ghost var keeps := KeepsRedirects(program, forwarding, regs, mem, maxCycles);
    if keeps {
      KeptIsNeverLost(program, forwarding, regs, mem, maxCycles);
      if AllDecode(program) && HaltsWithin(program, regs, mem, maxSteps, maxCycles) {
        BothEnd(program, cfg, regs, mem, maxSteps, maxCycles);
      }
    }
    if how != Returned || ended != Pipelining.Completed {
      return None;
    }
    if keeps {
      SameAtTheEnd(program, cfg, regs, mem, maxSteps, maxCycles, s, m);
    }
    var sameRegs := pipe.regs.regs[..] == interp.regs.regs[..];
    var sameMem := pipe.mem.words[..] == interp.mem.words[..];
    return Some(sameRegs && sameMem && pipe.stats.retired == interp.retired);
  }

  lemma InterpreterReports(p: Program, regs: Registers, mem: Memory, n: nat)
    ensures AfterSteps(p, ArchState(regs, mem, 0, 0), n) == Oracle(p, regs, mem, n)
  {
  }

  lemma PipelineReports(p: Program, cfg: Config, regs: Registers, mem: Memory, k: nat)
    ensures AfterCycles(p, cfg, Start(regs, mem), k) == Run(p, cfg, regs, mem, k)
    ensures Start(regs, mem).cycle == 0
  {
  }
}

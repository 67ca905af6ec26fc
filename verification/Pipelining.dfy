/** The pipeline simulator: an object that steps its latches through clock cycles. */
module Pipelining {
  import opened Words
  import opened Isa
  import opened Encoding
  import opened Alu
  import opened Programs
  import opened Storage
  import opened Stages
  import opened Disassembly
  import opened Tracing

  /** How `Run` returned or threw. */
  datatype Ending = Completed | CycleLimit | BadAccess | BadWord

  function Reported(e: Ending, m: Machine): Boundary {
    match e
    case Completed => Finished(m)
    case CycleLimit => Alive(m)
    case BadAccess => Faulted(m)
    case BadWord => BadFetch(m)
  }

  /** The effect of resolving a cycle's stall and flush, and of committing its latches. */
  function Resolved(m: Machine, stall: bool, willFetch: bool, ex: Executed, nIdex: Latch, nIfid: Latch,
      nMemwb: Latch): Machine {
    var base := m.(exmem := ex.next, memwb := nMemwb);
    var advanced := if willFetch then NextPc(m.pc) else m.pc;
    if stall then base.(idex := BUBBLE, stats := m.stats.(stallCycles := m.stats.stallCycles + 1))
    else if ex.flushYounger then
      base.(idex := BUBBLE, ifid := BUBBLE,
            fetchStopped := m.fetchStopped || ex.stopFetch,
            pc := if ex.stopFetch then advanced else ex.newPc,
            stats := if ex.countFlush
              then m.stats.(flushes := m.stats.flushes + 1, flushBubbles := m.stats.flushBubbles + 2) else m.stats)
    else base.(idex := nIdex, ifid := nIfid, pc := advanced)
  }

  class Pipeline {
    const program: Program
    const regs: RegisterFile
    const mem: DataMemory
    const forwarding: bool

    var ifid: Latch
    var idex: Latch
    var exmem: Latch
    var memwb: Latch
    var pc: UInt32
    var fetchStopped: bool
    var nextId: nat
    var cycle: nat

    var stats: Stats
    var trace: seq<TraceEvent>
    var traced: seq<TracedInstr>

    ghost predicate Owns()
      reads this, regs, mem
    {
      regs.Valid() && mem.Valid() && regs.regs != mem.words && Parallel(program)
    }

    ghost function State(): Machine
      requires Owns()
      reads this, regs, mem, regs.regs, mem.words
    {
      Machine(regs.Contents(), mem.Contents(), ifid, idex, exmem, memwb, pc, fetchStopped, nextId, cycle, stats)
    }

    ghost predicate Valid()
      reads this, regs, mem, regs.regs, mem.words
    {
      Owns() && Legal(State())
    }

    /** The source has no arbitration parameter: a stall takes precedence over a flush. */
    ghost function Configuration(): Config
      reads this
    {
      Config(forwarding, false)
    }

    constructor (program: Program, dataBytes: UInt32, enableForwarding: bool)
      requires Parallel(program)
      ensures Valid() && this.program == program && this.forwarding == enableForwarding
      ensures fresh(regs.regs) && fresh(mem.words)
      ensures State() == Start(seq(NUM_REGISTERS, _ => 0), seq(dataBytes / 4, _ => 0))
      ensures trace == [] && traced == []
    {
      this.program := program;
      regs := new RegisterFile();
      mem := new DataMemory(dataBytes);
      forwarding := enableForwarding;
      ifid, idex, exmem, memwb := BUBBLE, BUBBLE, BUBBLE, BUBBLE;
      pc, fetchStopped, nextId, cycle := 0, false, 0, 0;
      stats, trace, traced := NO_STATS, [], [];
    }

    method ForwardedOperand(reg: UInt8, fallback: Int32) returns (v: Int32)
      modifies this`stats
      ensures v == ForwardValue(forwarding, reg, fallback, exmem, memwb).0
      ensures stats == old(stats).(forwards :=
        old(stats).forwards + Count(ForwardValue(forwarding, reg, fallback, exmem, memwb).1))
    {
      if !forwarding || !ReadsReg(reg) {
        return fallback;
      }
      if !exmem.bubble && exmem.ctrl.regWrite && exmem.ctrl.destReg != 0 && !exmem.ctrl.memRead &&
        exmem.ctrl.destReg == reg {
        stats := stats.(forwards := stats.forwards + 1);
        return exmem.aluResult;
      }
      if !memwb.bubble && memwb.ctrl.regWrite && memwb.ctrl.destReg != 0 && memwb.ctrl.destReg == reg {
        stats := stats.(forwards := stats.forwards + 1);
        return memwb.writeData;
      }
      return fallback;
    }

    method WriteBackStage()
      requires Valid()
      modifies regs.regs
      ensures Owns()
      ensures State() == old(State()).(regs := WriteBack(old(regs.Contents()), memwb))
    {
      if !memwb.bubble && memwb.ctrl.regWrite {
        regs.Write(memwb.ctrl.destReg, memwb.writeData);
      }
    }

    method AccessMemory() returns (next: Latch, refused: bool)
      requires Owns()
      modifies mem.words
      ensures Owns()
      ensures refused <==> MemoryStage(old(mem.Contents()), exmem).Refused?
      ensures refused ==> State() == old(State())
      ensures !refused ==>
        && MemoryStage(old(mem.Contents()), exmem) == Accessed(next, mem.Contents())
        && State() == old(State()).(mem := mem.Contents())
    {
      if exmem.bubble {
        return BUBBLE, false;
      }
      next := exmem;
      var addr := U32(exmem.aluResult);
      if exmem.ctrl.memRead {
        var v := mem.Load(addr);
        if v.Failure? {
          return next, true;
        }
        next := next.(writeData := v.value);
      } else {
        next := next.(writeData := exmem.aluResult);
      }
      if exmem.ctrl.memWrite {
        var error := mem.Store(addr, exmem.storeData);
        if error.Some? {
          return next, true;
        }
      }
      refused := false;
    }

    /** What EX makes of its operand values. */
    method Compute(aVal: Int32, bVal: Int32) returns (ex: Executed)
      requires !idex.bubble
      ensures ex == ExecuteWith(idex, aVal, bVal)
    {
      hide AluResult, BranchTaken;
      var next := idex;
      var flushYounger, countFlush, stopFetch, newPc := false, false, false, 0;
      if idex.ctrl.isRet {
        flushYounger, stopFetch := true, true;
      } else if idex.ctrl.isJump {
        flushYounger, countFlush, newPc := true, true, idex.inst.target;
        if idex.ctrl.isJal {
          next := next.(aluResult := S32(NextPc(idex.pc)));
        }
      } else if idex.ctrl.isBranch {
        if BranchTaken(idex.inst.op, aVal, bVal) {
          flushYounger, countFlush, newPc := true, true, U32(idex.pc + idex.inst.imm);
        }
      } else if idex.ctrl.memRead || idex.ctrl.memWrite {
        next := next.(aluResult := S32(aVal + idex.inst.imm), storeData := bVal);
      } else {
        next := next.(aluResult := AluResult(idex.inst.op, aVal, if idex.ctrl.aluUsesImm then idex.inst.imm else bVal));
      }
      return Executed(next, flushYounger, countFlush, stopFetch, newPc);
    }

    method ExecuteStage() returns (ex: Executed)
      requires Owns()
      modifies this`stats
      ensures Owns()
      ensures ex == Execute(forwarding, old(State()))
      ensures State() == old(State()).(stats := CountExecute(forwarding, old(State())))
    {
      hide ForwardValue, Sane;
      if idex.bubble {
        return Executed(BUBBLE, false, false, false, 0);
      }
      stats := stats.(retired := stats.retired + 1);
      var aVal := ForwardedOperand(idex.ctrl.aReg, idex.aVal);
      var bVal := ForwardedOperand(idex.ctrl.bReg, idex.bVal);
      ex := Compute(aVal, bVal);
    }

    method ReadOperand(r: UInt8) returns (v: Int32)
      requires Owns() && (r == NO_REG || r < NUM_REGISTERS)
      ensures v == ReadPort(regs.Contents(), r)
    {
      if r == NO_REG {
        return 0;
      }
      v := regs.Read(r);
    }

    method DecodeInto() returns (next: Latch)
      requires Owns() && (!ifid.bubble ==> RegistersInRange(ifid.inst))
      ensures next == DecodeStage(ifid, regs.Contents())
    {
      if ifid.bubble {
        return BUBBLE;
      }
      var c := MakeControl(ifid.inst);
      next := BUBBLE.(bubble := false, id := ifid.id, inst := ifid.inst, pc := ifid.pc, ctrl := c);
      var a := ReadOperand(c.aReg);
      var b := ReadOperand(c.bReg);
      next := next.(aVal := a, bVal := b);
    }

    method FetchInto() returns (next: Latch, undecodable: bool)
      requires Owns()
      modifies this`traced, this`nextId
      ensures Owns()
      ensures undecodable <==> CanFetch(program, old(State())) && Decode(WordAt(program, pc)).Failure?
      ensures undecodable ==> State() == old(State()) && traced == old(traced)
      ensures !undecodable ==>
        && next == FetchStage(program, old(State()))
        && State() == old(State()).(nextId := old(nextId) + Count(CanFetch(program, old(State()))))
        && traced == old(traced) + if CanFetch(program, old(State()))
             then [Describe(program, pc)] else []
    {
      if fetchStopped || pc >= CodeBytes(program) {
        return BUBBLE, false;
      }
      var decoded := Decode(WordAt(program, pc));
      if decoded.Failure? {
        return BUBBLE, true;
      }
      next := BUBBLE.(bubble := false, id := nextId, inst := decoded.value, pc := pc);
      traced := traced + [TracedInstr(pc, program.sourceLines[pc / INSTRUCTION_BYTES], Disassemble(decoded.value))];
      nextId := nextId + 1;
      undecodable := false;
    }

    method RecordStages(fetching: bool, fetchId: int)
      modifies this`trace
      ensures trace == old(trace) +
        ((if fetching then [TraceEvent(fetchId, cycle, IF)] else []) + Occupies(ifid, cycle, ID) +
         Occupies(idex, cycle, EX) + Occupies(exmem, cycle, MEM) + Occupies(memwb, cycle, WB))
    {
      hide Occupies;
      ghost var before, c := trace, cycle;
      if fetching { trace := trace + [TraceEvent(fetchId, cycle, IF)]; }
      Record(ifid, ID);
      Record(idex, EX);
      Record(exmem, MEM);
      Record(memwb, WB);
      Regroup(before, if fetching then [TraceEvent(fetchId, c, IF)] else [], Occupies(ifid, c, ID),
        Occupies(idex, c, EX),
              Occupies(exmem, c, MEM), Occupies(memwb, c, WB));
    }

    method Record(l: Latch, stage: Stage)
      modifies this`trace
      ensures trace == old(trace) + Occupies(l, cycle, stage)
    {
      if !l.bubble { trace := trace + [TraceEvent(l.id, cycle, stage)]; }
    }

    /** Resolves stall and flush and commits the new latches. */
    method Resolve(stall: bool, willFetch: bool, ex: Executed, nIdex: Latch, nIfid: Latch, nMemwb: Latch)
      requires Owns()
      modifies this`ifid, this`idex, this`exmem, this`memwb, this`pc, this`fetchStopped, this`stats
      ensures Owns() && State() == Resolved(old(State()), stall, willFetch, ex, nIdex, nIfid, nMemwb)
    {
      var idex', ifid' := nIdex, nIfid;
      if stall {
        stats := stats.(stallCycles := stats.stallCycles + 1);
        idex' := BUBBLE;
        ifid' := ifid;
      } else {
        if willFetch {
          pc := NextPc(pc);
        }
        if ex.flushYounger {
          idex', ifid' := BUBBLE, BUBBLE;
          if ex.stopFetch {
            fetchStopped := true;
          } else {
            pc := ex.newPc;
          }
          if ex.countFlush {
            stats := stats.(flushes := stats.flushes + 1, flushBubbles := stats.flushBubbles + 2);
          }
        }
      }
      ifid, idex, exmem, memwb := ifid', idex', ex.next, nMemwb;
    }

    /** The second half of a cycle: EX, ID and IF on the current latches, then the new latches. */
    method Issue(stall: bool, willFetch: bool, nMemwb: Latch, ghost m: Machine) returns (undecodable: bool)
      requires Valid() && Legal(m)
      requires State() == m.(regs := regs.Contents(), mem := mem.Contents(), cycle := m.cycle + 1,
                             stats := m.stats.(cycles := m.cycle + 1))
      requires stall == Stalls(Configuration(), m) && willFetch == WillFetch(program, Configuration(), m)
      modifies this
      ensures Owns() && trace == old(trace)
      ensures undecodable <==> willFetch && Decode(WordAt(program, m.pc)).Failure?
      ensures undecodable ==>
        && State() == old(State()).(stats := CountExecute(forwarding, m).(cycles := m.cycle + 1))
        && traced == old(traced)
      ensures !undecodable ==>
        && State() == Commit(program, Configuration(), m, old(regs.Contents()), old(mem.Contents()), nMemwb)
        && traced == old(traced) + (if willFetch then [Describe(program, m.pc)] else [])
    {
      hide Execute, MemoryStage, DecodeStage, FetchStage, CountExecute, Stalls, Decode, Resolved, WriteBack, CodeBytes,
        Disassemble, WordAt, Sane, Commit;
      ghost var cfg := Configuration();
      CountingCommutes(forwarding, m, State());
      var ex := ExecuteStage();
      var nIdex := DecodeInto();
      var nIfid := BUBBLE;
      if !stall {
        FetchCommutes(program, m, State());
        nIfid, undecodable := FetchInto();
        if undecodable {
          return true;
        }
      }
      ghost var base := State();
      Resolve(stall, willFetch, ex, nIdex, nIfid, nMemwb);
      CommitIsResolved(program, cfg, m, base, nMemwb);
      return false;
    }

    /** The first part of a cycle: counts it, looks for a stall, and records what the stages hold. */
    method Begin() returns (stall: bool, willFetch: bool)
      requires Valid()
      modifies this`cycle, this`stats, this`trace
      ensures Valid()
      ensures State() == old(State()).(cycle := old(cycle) + 1, stats := old(stats).(cycles := old(cycle) + 1))
      ensures stall == Stalls(Configuration(), old(State()))
      ensures willFetch == WillFetch(program, Configuration(), old(State()))
      ensures trace == old(trace) + CycleEvents(program, Configuration(), old(State()))
    {
      hide DetectStall, CodeBytes, Sane, Occupies;
      cycle := cycle + 1;
      stats := stats.(cycles := cycle);
      stall := DetectStall(forwarding, ifid, idex, exmem);
      willFetch := !stall && !fetchStopped && pc < CodeBytes(program);
      RecordStages(willFetch, if willFetch then nextId else -1);
    }

    /** One iteration of the run loop: counts and records the cycle, then runs the stages. */
    method Tick() returns (ending: Ending, stop: bool)
      requires Valid()
      modifies this, regs.regs, mem.words
      ensures Owns()
      ensures var c := Cycle(program, Configuration(), old(State()));
        && (stop <==> !c.Next?)
        && State() == c.m
        && (stop ==> ending == if c.Refusing? then BadAccess else BadWord)
      ensures trace == old(trace) + CycleEvents(program, Configuration(), old(State()))
      ensures traced == old(traced) + CycleFetch(program, Configuration(), old(State()))
    {
      hide Execute, MemoryStage, DecodeStage, FetchStage, CountExecute, DetectStall, Decode, Resolved, WriteBack,
        CodeBytes,
        Disassemble, WordAt, Sane, Occupies, Commit;
      ghost var m := State();
      var stall, willFetch := Begin();
      WriteBackStage();
      var nMemwb, refused := AccessMemory();
      if refused {
        return BadAccess, true;
      }
      var undecodable := Issue(stall, willFetch, nMemwb, m);
      return BadWord, undecodable;
    }

    /** Runs until the pipeline drains, a fault, or `maxCycles` cycles in all. */
    method Run(maxCycles: nat) returns (ending: Ending)
      requires Valid()
      modifies this, regs.regs, mem.words
      ensures Owns()
      ensures
        var budget := if maxCycles >= old(cycle) then maxCycles - old(cycle) else 0;
        && Reported(ending, State()) == AfterCycles(program, Configuration(), old(State()), budget)
        && trace == old(trace) + History(program, Configuration(), old(State()), budget)
        && traced == old(traced) + Fetched(program, Configuration(), old(State()), budget)
    {
      hide Cycle, CycleEvents, CycleFetch, Legal, Parallel;
      ghost var start := State();
      ghost var cfg := Configuration();
      ghost var k := 0;
      ghost var budget := if maxCycles >= cycle then maxCycles - cycle else 0;
      while true
        invariant Valid() && k <= budget && cycle == start.cycle + k
        invariant AfterCycles(program, cfg, start, k) == Settle(State())
        invariant trace == old(trace) + History(program, cfg, start, k)
        invariant traced == old(traced) + Fetched(program, cfg, start, k)
        decreases budget - k
      {
        if fetchStopped && ifid.bubble && idex.bubble && exmem.bubble && memwb.bubble {
          FinishedStays(program, cfg, start, k, budget);
          return Completed;
        }
        if cycle >= maxCycles {
          return CycleLimit;
        }
        ghost var m := State();
        assert AfterCycles(program, cfg, start, k + 1) == AfterCycle(program, cfg, m);
        var how, stop := Tick();
        CycleKeepsLegal(program, cfg, m);
        CycleCounts(program, cfg, m);
        k := k + 1;
        if stop {
          FinishedStays(program, cfg, start, k, budget);
          return how;
        }
      }
    }
  }

  /** A run that has ended records nothing more. */
  lemma {:induction false} FinishedStays(p: Program, cfg: Config, m: Machine, j: nat, k: nat)
    requires Legal(m) && Parallel(p) && j <= k && !AfterCycles(p, cfg, m, j).Alive?
    ensures AfterCycles(p, cfg, m, k) == AfterCycles(p, cfg, m, j)
    ensures History(p, cfg, m, k) == History(p, cfg, m, j)
    ensures Fetched(p, cfg, m, k) == Fetched(p, cfg, m, j)
    decreases k
  {
    hide AfterCycle, CycleEvents, CycleFetch;
    if j == k {
    } else {
      FinishedStays(p, cfg, m, j, k - 1);
    }
  }

  lemma Regroup<T>(s: seq<T>, a: seq<T>, b: seq<T>, c: seq<T>, d: seq<T>, e: seq<T>)
    ensures s + a + b + c + d + e == s + (a + b + c + d + e)
  {
  }

  lemma CycleCounts(p: Program, cfg: Config, m: Machine)
    requires Legal(m)
    ensures Cycle(p, cfg, m).m.cycle == m.cycle + 1
  {
    hide Execute, MemoryStage, WriteBack, Stalls, CountExecute, Decode, DecodeStage;
  }

  /** EX does not look at what the cycle has changed before it runs. */
  lemma CountingCommutes(forwarding: bool, m: Machine, now: Machine)
    requires now.idex == m.idex && now.exmem == m.exmem && now.memwb == m.memwb
    requires now.stats == m.stats.(cycles := now.stats.cycles)
    ensures Execute(forwarding, now) == Execute(forwarding, m)
    ensures CountExecute(forwarding, now) == CountExecute(forwarding, m).(cycles := now.stats.cycles)
  {
    hide ForwardValue, ExecuteWith;
  }

  lemma FetchCommutes(p: Program, m: Machine, now: Machine)
    requires now.pc == m.pc && now.fetchStopped == m.fetchStopped && now.nextId == m.nextId
    ensures CanFetch(p, now) == CanFetch(p, m)
    ensures (CanFetch(p, m) ==> Decode(WordAt(p, m.pc)).Success?) ==> FetchStage(p, now) == FetchStage(p, m)
  {
    hide Decode;
  }

  lemma CommitIsResolved(p: Program, cfg: Config, m: Machine, base: Machine, nMemwb: Latch)
    requires Legal(m) && !cfg.flushWins
    requires WillFetch(p, cfg, m) ==> Decode(WordAt(p, m.pc)).Success?
    requires base == m.(regs := base.regs, mem := base.mem, cycle := m.cycle + 1,
                        stats := CountExecute(cfg.forwarding, m).(cycles := m.cycle + 1),
                        nextId := m.nextId + Count(WillFetch(p, cfg, m)))
    ensures Commit(p, cfg, m, base.regs, base.mem, nMemwb) ==
      Resolved(base, Stalls(cfg, m), WillFetch(p, cfg, m), Execute(cfg.forwarding, m), DecodeStage(m.ifid, base.regs),
               if Stalls(cfg, m) then BUBBLE else FetchStage(p, m), nMemwb)
  {
    hide Execute, CountExecute, DecodeStage, FetchStage, DetectStall, Decode;
  }
}

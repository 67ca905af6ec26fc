/** The five pipeline stages as functions of the latches, and one clock cycle. */
module Stages {
  import opened Words
  import opened Isa
  import opened Encoding
  import opened Alu
  import opened Programs
  import opened Storage

  /** "This operand port reads no register." */
  const NO_REG: UInt8 := 0xFF

  datatype Control = Control(
    regWrite: bool, destReg: UInt8,
    memRead: bool, memWrite: bool,
    aluUsesImm: bool,
    isBranch: bool, isJump: bool, isJal: bool, isRet: bool,
    aReg: UInt8, bReg: UInt8)

  const NO_CONTROL := Control(false, 0, false, false, false, false, false, false, false, NO_REG, NO_REG)

  function MakeControl(inst: Instruction): Control {
    match FormatOf(inst.op)
    case FormatR =>
      NO_CONTROL.(regWrite := true, destReg := inst.rd, aReg := inst.rs, bReg := inst.rt)
    case FormatI =>
      var c := NO_CONTROL.(aluUsesImm := true, aReg := inst.rs);
      if IsLoad(inst.op) then c.(memRead := true, regWrite := true, destReg := inst.rd)
      else if IsStore(inst.op) then c.(memWrite := true, bReg := inst.rd)
      else c.(regWrite := true, destReg := inst.rd)
    case FormatB =>
      NO_CONTROL.(isBranch := true, aReg := inst.rs, bReg := inst.rt)
    case FormatJ =>
      if inst.op == RET then NO_CONTROL.(isRet := true)
      else if inst.op == JAL then
        NO_CONTROL.(isJump := true, isJal := true, regWrite := true, destReg := RETURN_ADDR_REG)
      else NO_CONTROL.(isJump := true)
  }

  const NO_INSTRUCTION := Instruction(ADD, 0, 0, 0, 0, 0)

  /** The state carried between two stages; a bubble does nothing. */
  datatype Latch = Latch(
    bubble: bool, id: int, inst: Instruction, pc: UInt32, ctrl: Control,
    aVal: Int32, bVal: Int32, aluResult: Int32, storeData: Int32, writeData: Int32)

  const BUBBLE := Latch(true, -1, NO_INSTRUCTION, 0, NO_CONTROL, 0, 0, 0, 0, 0)

  datatype Stats = Stats(
    cycles: nat, retired: nat, stallCycles: nat, flushes: nat, flushBubbles: nat, forwards: nat)

  const NO_STATS := Stats(0, 0, 0, 0, 0, 0)

  /** Everything `run` carries from one cycle to the next, bar the trace it records. */
  datatype Machine = Machine(
    regs: Registers, mem: Memory,
    ifid: Latch, idex: Latch, exmem: Latch, memwb: Latch,
    pc: UInt32, fetchStopped: bool, nextId: nat, cycle: nat, stats: Stats)

  /** The source has `forwarding` only; `flushWins` is the alternative arbitration in which
      a control transfer overrides a stall of the same cycle. */
  datatype Config = Config(forwarding: bool, flushWins: bool)

  // ---- Hazards -------------------------------------------------------------------

  predicate ReadsReg(r: UInt8) { r != NO_REG && r != 0 }

  /** A register whose write is still in flight in `l`. */
  predicate Writes(l: Latch, r: UInt8) {
    !l.bubble && l.ctrl.regWrite && l.ctrl.destReg != 0 && l.ctrl.destReg == r
  }

  predicate Conflicts(c: Control, producer: Latch) {
    (ReadsReg(c.aReg) && Writes(producer, c.aReg)) || (ReadsReg(c.bReg) && Writes(producer, c.bReg))
  }

  predicate DetectStall(forwarding: bool, ifid: Latch, idex: Latch, exmem: Latch) {
    if ifid.bubble then false
    else
      var c := MakeControl(ifid.inst);
      if forwarding then !idex.bubble && idex.ctrl.memRead && Conflicts(c, idex)
      else Conflicts(c, idex) || Conflicts(c, exmem)
  }

  /** The operand value EX uses, and whether the forwarding unit delivered it. */
  function ForwardValue(forwarding: bool, reg: UInt8, fallback: Int32, exmem: Latch, memwb: Latch): (Int32, bool) {
    if !forwarding || !ReadsReg(reg) then (fallback, false)
    else if Writes(exmem, reg) && !exmem.ctrl.memRead then (exmem.aluResult, true)
    else if Writes(memwb, reg) then (memwb.writeData, true)
    else (fallback, false)
  }

  // ---- Stages --------------------------------------------------------------------

  /** A latch that names only architectural registers, with its control signals derived. */
  predicate Sane(l: Latch) {
    !l.bubble ==> RegistersInRange(l.inst) && l.ctrl == MakeControl(l.inst)
  }

  predicate WritesLegally(l: Latch) {
    !l.bubble && l.ctrl.regWrite ==> l.ctrl.destReg < NUM_REGISTERS
  }

  function WriteBack(regs: Registers, memwb: Latch): Registers
    requires WritesLegally(memwb)
  {
    if !memwb.bubble && memwb.ctrl.regWrite then WriteReg(regs, memwb.ctrl.destReg, memwb.writeData) else regs
  }

  datatype MemoryResult = Accessed(next: Latch, mem: Memory) | Refused(error: MemoryError)

  function MemoryStage(mem: Memory, exmem: Latch): MemoryResult {
    if exmem.bubble then Accessed(BUBBLE, mem)
    else
      var addr := U32(exmem.aluResult);
      if (exmem.ctrl.memRead || exmem.ctrl.memWrite) && !Accessible(mem, addr) then
        Refused(CheckAccess(mem, addr).value)
      else
        var written := if exmem.ctrl.memRead then LoadWord(mem, addr) else exmem.aluResult;
        Accessed(exmem.(writeData := written),
                 if exmem.ctrl.memWrite then StoreWord(mem, addr, exmem.storeData) else mem)
  }

  datatype Executed = Executed(
    next: Latch, flushYounger: bool, countFlush: bool, stopFetch: bool, newPc: UInt32)

  /** EX on operand values that forwarding has already chosen. */
  function ExecuteWith(idex: Latch, aVal: Int32, bVal: Int32): Executed {
    var quiet := Executed(idex, false, false, false, 0);
    if idex.bubble then quiet.(next := BUBBLE)
    else if idex.ctrl.isRet then quiet.(flushYounger := true, stopFetch := true)
    else if idex.ctrl.isJump then
      Executed(if idex.ctrl.isJal then idex.(aluResult := S32(NextPc(idex.pc))) else idex,
               true, true, false, idex.inst.target)
    else if idex.ctrl.isBranch then
      if BranchTaken(idex.inst.op, aVal, bVal) then
        Executed(idex, true, true, false, U32(idex.pc + idex.inst.imm))
      else quiet
    else if idex.ctrl.memRead || idex.ctrl.memWrite then
      quiet.(next := idex.(aluResult := S32(aVal + idex.inst.imm), storeData := bVal))
    else
      quiet.(next := idex.(aluResult :=
        AluResult(idex.inst.op, aVal, if idex.ctrl.aluUsesImm then idex.inst.imm else bVal)))
  }

  function OperandA(forwarding: bool, m: Machine): (Int32, bool) {
    ForwardValue(forwarding, m.idex.ctrl.aReg, m.idex.aVal, m.exmem, m.memwb)
  }

  function OperandB(forwarding: bool, m: Machine): (Int32, bool) {
    ForwardValue(forwarding, m.idex.ctrl.bReg, m.idex.bVal, m.exmem, m.memwb)
  }

  function Execute(forwarding: bool, m: Machine): Executed {
    ExecuteWith(m.idex, OperandA(forwarding, m).0, OperandB(forwarding, m).0)
  }

  function Count(b: bool): nat { if b then 1 else 0 }

  /** What EX adds to the counters. */
  function CountExecute(forwarding: bool, m: Machine): Stats {
    if m.idex.bubble then m.stats
    else m.stats.(retired := m.stats.retired + 1,
                  forwards := m.stats.forwards + Count(OperandA(forwarding, m).1) + Count(OperandB(forwarding, m).1))
  }

  /** A port's register as read in ID. */
  function ReadPort(regs: Registers, r: UInt8): Int32
    requires r == NO_REG || r < NUM_REGISTERS
  {
    if r == NO_REG then 0 else regs[r]
  }

  function DecodeStage(ifid: Latch, regs: Registers): Latch
    requires !ifid.bubble ==> RegistersInRange(ifid.inst)
  {
    if ifid.bubble then BUBBLE
    else
      var c := MakeControl(ifid.inst);
      BUBBLE.(bubble := false, id := ifid.id, inst := ifid.inst, pc := ifid.pc, ctrl := c,
              aVal := ReadPort(regs, c.aReg), bVal := ReadPort(regs, c.bReg))
  }

  predicate CanFetch(p: Program, m: Machine) {
    !m.fetchStopped && m.pc < CodeBytes(p)
  }

  /** The latch IF fills; a bubble when there is nothing to fetch. */
  function FetchStage(p: Program, m: Machine): Latch
    requires CanFetch(p, m) ==> Decode(WordAt(p, m.pc)).Success?
  {
    if CanFetch(p, m) then
      BUBBLE.(bubble := false, id := m.nextId, inst := Decode(WordAt(p, m.pc)).value, pc := m.pc)
    else BUBBLE
  }

  // ---- A clock cycle ---------------------------------------------------------------

  datatype CycleResult =
    | Next(m: Machine)
    | Refusing(m: Machine)     // MemoryError thrown by MEM
    | Undecodable(m: Machine)  // DecodingError thrown by the speculative fetch

  predicate Stalls(cfg: Config, m: Machine) {
    DetectStall(cfg.forwarding, m.ifid, m.idex, m.exmem)
  }

  /** What the stages rely on: the fetched and in-flight instructions are legal. */
  predicate Legal(m: Machine) {
    && (!m.ifid.bubble ==> RegistersInRange(m.ifid.inst))
    && Sane(m.idex) && Sane(m.exmem) && Sane(m.memwb)
  }

  /** The latches, PC and counters after the stages have run. */
  function Commit(p: Program, cfg: Config, m: Machine, regs: Registers, mem: Memory, nMemwb: Latch): Machine
    requires Legal(m)
    requires !Stalls(cfg, m) && CanFetch(p, m) ==> Decode(WordAt(p, m.pc)).Success?
  {
    var stall := Stalls(cfg, m);
    var ex := Execute(cfg.forwarding, m);
    var stats := CountExecute(cfg.forwarding, m).(cycles := m.cycle + 1);
    var fetching := !stall && CanFetch(p, m);
    var base := m.(regs := regs, mem := mem, exmem := ex.next, memwb := nMemwb, cycle := m.cycle + 1,
                   nextId := m.nextId + Count(fetching));
    if stall && !(cfg.flushWins && ex.flushYounger) then
      base.(idex := BUBBLE, stats := stats.(stallCycles := stats.stallCycles + 1))
    else if ex.flushYounger then
      var counted := if ex.countFlush
        then stats.(flushes := stats.flushes + 1, flushBubbles := stats.flushBubbles + 2)
        else stats;
      base.(idex := BUBBLE, ifid := BUBBLE, stats := counted,
            fetchStopped := m.fetchStopped || ex.stopFetch,
            pc := if ex.stopFetch then (if fetching then NextPc(m.pc) else m.pc) else ex.newPc)
    else
      base.(idex := DecodeStage(m.ifid, regs), ifid := FetchStage(p, m), stats := stats,
            pc := if fetching then NextPc(m.pc) else m.pc)
  }

  /** One iteration of the run loop, from a state that has not drained. */
  function Cycle(p: Program, cfg: Config, m: Machine): CycleResult
    requires Legal(m)
  {
    var regs := WriteBack(m.regs, m.memwb);
    var begun := m.(regs := regs, cycle := m.cycle + 1, stats := m.stats.(cycles := m.cycle + 1));
    var access := MemoryStage(m.mem, m.exmem);
    if access.Refused? then Refusing(begun)
    else if !Stalls(cfg, m) && CanFetch(p, m) && Decode(WordAt(p, m.pc)).Failure? then
      Undecodable(begun.(mem := access.mem,
                         stats := CountExecute(cfg.forwarding, m).(cycles := m.cycle + 1)))
    else Next(Commit(p, cfg, m, regs, access.mem, access.next))
  }

  /** Nothing left to fetch and every stage empty. */
  predicate Drained(m: Machine) {
    m.fetchStopped && m.ifid.bubble && m.idex.bubble && m.exmem.bubble && m.memwb.bubble
  }

  /** A run at a cycle boundary. Every constructor but `Alive` is final. */
  datatype Boundary =
    | Alive(m: Machine)
    | Finished(m: Machine)
    | Faulted(m: Machine)
    | BadFetch(m: Machine)

  function Settle(m: Machine): Boundary {
    if Drained(m) then Finished(m) else Alive(m)
  }

  lemma CycleKeepsLegal(p: Program, cfg: Config, m: Machine)
    requires Legal(m)
    ensures Cycle(p, cfg, m).Next? ==> Legal(Cycle(p, cfg, m).m)
  {
    hide ForwardValue, AluResult, BranchTaken, DetectStall, U32, S32;
  }

  function AfterCycle(p: Program, cfg: Config, m: Machine): (b: Boundary)
    requires Legal(m)
    ensures b.Alive? ==> Legal(b.m)
  {
    CycleKeepsLegal(p, cfg, m);
    match Cycle(p, cfg, m)
    case Next(m') => Settle(m')
    case Refusing(m') => Faulted(m')
    case Undecodable(m') => BadFetch(m')
  }

  /** The run after at most `k` cycles from `m`; a run that has ended stays ended. */
  function AfterCycles(p: Program, cfg: Config, m: Machine, k: nat): (b: Boundary)
    requires Legal(m)
    ensures b.Alive? ==> Legal(b.m)
  {
    if k == 0 then Settle(m)
    else
      var before := AfterCycles(p, cfg, m, k - 1);
      if before.Alive? then AfterCycle(p, cfg, before.m) else before
  }

  /** The power-on state over given register and memory contents. */
  function Start(regs: Registers, mem: Memory): Machine {
    Machine(regs, mem, BUBBLE, BUBBLE, BUBBLE, BUBBLE, 0, false, 0, 0, NO_STATS)
  }
}

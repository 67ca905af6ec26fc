/** What the pipeline records of each cycle. */
module Tracing {
  import opened Words
  import opened Isa
  import opened Encoding
  import opened Programs
  import opened Stages
  import opened Disassembly

  datatype Stage = IF | ID | EX | MEM | WB

  /** Instruction `id` occupied `stage` during `cycle` (counted from 1). */
  datatype TraceEvent = TraceEvent(id: int, cycle: nat, stage: Stage)

  /** Description of a fetched instruction, indexed by its id. */
  datatype TracedInstr = TracedInstr(pc: UInt32, sourceLine: int, text: string)

  /** An image whose source lines are parallel to its words. */
  predicate Parallel(p: Program) {
    |p.sourceLines| == |p.words|
  }

  function Occupies(l: Latch, cycle: nat, stage: Stage): seq<TraceEvent> {
    if l.bubble then [] else [TraceEvent(l.id, cycle, stage)]
  }

  /** IF is busy in the cycle that starts at `m`. */
  predicate WillFetch(p: Program, cfg: Config, m: Machine) {
    !Stalls(cfg, m) && CanFetch(p, m)
  }

  /** The events of the cycle that starts at `m`, with or without a fetch. */
  function Cells(m: Machine, fetches: bool): seq<TraceEvent> {
    var c := m.cycle + 1;
    (if fetches then [TraceEvent(m.nextId, c, IF)] else []) +
    Occupies(m.ifid, c, ID) + Occupies(m.idex, c, EX) + Occupies(m.exmem, c, MEM) + Occupies(m.memwb, c, WB)
  }

  function CycleEvents(p: Program, cfg: Config, m: Machine): seq<TraceEvent> {
    Cells(m, WillFetch(p, cfg, m))
  }

  /** The description of the instruction at `pc`. */
  function Describe(p: Program, pc: UInt32): TracedInstr
    requires Parallel(p) && Decodes(p, pc)
  {
    TracedInstr(pc, p.sourceLines[pc / INSTRUCTION_BYTES], Disassemble(Decode(WordAt(p, pc)).value))
  }

  /** The instruction fetched in that cycle, if any; a cycle that throws fetches none. */
  function CycleFetch(p: Program, cfg: Config, m: Machine): seq<TracedInstr>
    requires Legal(m) && Parallel(p)
  {
    if Cycle(p, cfg, m).Next? && WillFetch(p, cfg, m) then
      [Describe(p, m.pc)]
    else []
  }

  /** Everything recorded by a run of at most `k` cycles from `m`. */
  function History(p: Program, cfg: Config, m: Machine, k: nat): seq<TraceEvent>
    requires Legal(m)
  {
    if k == 0 then []
    else
      var before := AfterCycles(p, cfg, m, k - 1);
      History(p, cfg, m, k - 1) + (if before.Alive? then CycleEvents(p, cfg, before.m) else [])
  }

  function Fetched(p: Program, cfg: Config, m: Machine, k: nat): seq<TracedInstr>
    requires Legal(m) && Parallel(p)
  {
    if k == 0 then []
    else
      var before := AfterCycles(p, cfg, m, k - 1);
      Fetched(p, cfg, m, k - 1) + (if before.Alive? then CycleFetch(p, cfg, before.m) else [])
  }
}

/** The shape of the recorded trace: one lifecycle per fetched instruction, no cell written twice. */
module TraceShape {
  import opened Words
  import opened Isa
  import opened Encoding
  import opened Programs
  import opened Storage
  import opened Stages
  import opened Refinement
  import opened Runs
  import opened Schedule
  import opened Tracing
  import opened Disassembly

  // ---- Lifecycles ------------------------------------------------------------------------

  /** Where an instruction's row of the diagram stands, with the cycle of its latest cell.
      `Broken` is a row that is not a prefix of IF, ID (once or more), EX, MEM, WB in
      consecutive cycles. */
  datatype Row =
    | Absent
    | InIF(cycle: nat)
    | InID(cycle: nat, times: nat)
    | InEX(cycle: nat)
    | InMEM(cycle: nat)
    | InWB(cycle: nat)
    | Broken

  /** The row after one more cell. */
  function Extend(row: Row, cycle: nat, stage: Stage): Row {
    match (row, stage)
    case (Absent, IF) => InIF(cycle)
    case (InIF(c), ID) => if cycle == c + 1 then InID(cycle, 1) else Broken
    case (InID(c, n), ID) => if cycle == c + 1 then InID(cycle, n + 1) else Broken
    case (InID(c, _), EX) => if cycle == c + 1 then InEX(cycle) else Broken
    case (InEX(c), MEM) => if cycle == c + 1 then InMEM(cycle) else Broken
    case (InMEM(c), WB) => if cycle == c + 1 then InWB(cycle) else Broken
    case _ => Broken
  }

  /** The row of instruction `id` in a trace. */
  function RowOf(t: seq<TraceEvent>, id: int): Row {
    if |t| == 0 then Absent
    else
      var e, row := t[|t| - 1], RowOf(t[..|t| - 1], id);
      if e.id == id then Extend(row, e.cycle, e.stage) else row
  }

  /** A row that will not grow: it reached WB, or was squashed after IF or after a single ID. */
  predicate Closed(row: Row) {
    row.InWB? || row.InIF? || (row.InID? && row.times == 1)
  }

  /** No two events fall in one (id, cycle) cell, or in one stage in one cycle. */
  predicate CellsDistinct(t: seq<TraceEvent>) {
    forall i, j :: 0 <= i < j < |t| && t[i].cycle == t[j].cycle ==> t[i].id != t[j].id && t[i].stage != t[j].stage
  }

  // ---- Identifiers ---------------------------------------------------------------------------

  /** The identifier a latch holds, or -1. */
  function IdIn(l: Latch): int {
    if l.bubble then -1 else l.id
  }

  predicate Below(id: int, bound: int) {
    id == -1 || 0 <= id < bound
  }

  /** Fetch order: older instructions have smaller identifiers. */
  predicate IdsOrdered(ifid: int, idex: int, exmem: int, memwb: int, next: int) {
    && Below(ifid, next) && Below(idex, next) && Below(exmem, next) && Below(memwb, next)
    && (ifid != -1 ==> Below(idex, ifid) && Below(exmem, ifid) && Below(memwb, ifid))
    && (idex != -1 ==> Below(exmem, idex) && Below(memwb, idex))
    && (exmem != -1 ==> Below(memwb, exmem))
  }

  predicate Ordered(m: Machine) {
    && IdsOrdered(IdIn(m.ifid), IdIn(m.idex), IdIn(m.exmem), IdIn(m.memwb), m.nextId)
    && (IdIn(m.ifid) == -1 <==> m.ifid.bubble) && (IdIn(m.idex) == -1 <==> m.idex.bubble)
    && (IdIn(m.exmem) == -1 <==> m.exmem.bubble) && (IdIn(m.memwb) == -1 <==> m.memwb.bubble)
  }

  datatype Motion = Held | Squashed | Advanced

  /** Where a cycle moves the instructions in flight: the two oldest always move on; the two
      youngest are held in place, squashed, or move on behind them. */
  predicate Moves(m: Machine, m': Machine, fetches: bool, how: Motion) {
    && m'.cycle == m.cycle + 1
    && m'.nextId == m.nextId + Count(fetches)
    && IdIn(m'.memwb) == IdIn(m.exmem) && m'.memwb.bubble == m.exmem.bubble
    && IdIn(m'.exmem) == IdIn(m.idex) && m'.exmem.bubble == m.idex.bubble
    && match how
       case Held => !fetches && m'.idex.bubble && m'.ifid == m.ifid && !m.ifid.bubble
       case Squashed => m'.idex.bubble && m'.ifid.bubble && !m.idex.bubble
       case Advanced =>
         && IdIn(m'.idex) == IdIn(m.ifid) && m'.idex.bubble == m.ifid.bubble
         && IdIn(m'.ifid) == (if fetches then m.nextId else -1) && m'.ifid.bubble == !fetches
  }

  function MotionOf(p: Program, cfg: Config, m: Machine): Motion
    requires Legal(m)
  {
    var ex := Execute(cfg.forwarding, m);
    if Stalls(cfg, m) && !(cfg.flushWins && ex.flushYounger) then Held
    else if ex.flushYounger then Squashed
    else Advanced
  }

  lemma CycleMoves(p: Program, cfg: Config, m: Machine)
    requires Structure(p, cfg, m) && Cycle(p, cfg, m).Next?
    ensures Moves(m, Cycle(p, cfg, m).m, WillFetch(p, cfg, m), MotionOf(p, cfg, m))
    ensures Cycle(p, cfg, m).m.stats.stallCycles == m.stats.stallCycles + Count(MotionOf(p, cfg, m) == Held)
    ensures Cycle(p, cfg, m).m.stats.retired == m.stats.retired + Count(!m.idex.bubble)
  {
    hide OperandA, OperandB, Conflicts, Decode, ExecuteWith, WriteBack, MakeControl, WordAt, CodeBytes, Contiguous,
      FromCode, HazardFree,
      OperandsCurrent, Sane;
    ExecuteIds(m.idex, OperandA(cfg.forwarding, m).0, OperandB(cfg.forwarding, m).0);
  }

  lemma ExecuteIds(l: Latch, a: Int32, b: Int32)
    ensures var ex := ExecuteWith(l, a, b);
      && ex.next.bubble == l.bubble && IdIn(ex.next) == IdIn(l) && (ex.flushYounger ==> !l.bubble)
  {
  }

  lemma MovesKeepOrder(m: Machine, m': Machine, fetches: bool, how: Motion)
    requires Moves(m, m', fetches, how) && Ordered(m)
    ensures Ordered(m')
  {
  }

  // ---- One cycle of the trace --------------------------------------------------------------------

  lemma {:induction false} RowOfAppend(t: seq<TraceEvent>, u: seq<TraceEvent>, id: int)
    requires |u| <= 1
    ensures RowOf(t + u, id) ==
      if |u| == 1 && u[0].id == id then Extend(RowOf(t, id), u[0].cycle, u[0].stage) else RowOf(t, id)
  {
    hide Extend;
    if |u| == 1 {
      assert (t + u)[..|t + u| - 1] == t;
    } else {
      assert t + u == t;
    }
  }

  lemma RowOfOccupies(t: seq<TraceEvent>, l: Latch, c: nat, stage: Stage, id: int)
    ensures RowOf(t + Occupies(l, c, stage), id) ==
      if !l.bubble && l.id == id then Extend(RowOf(t, id), c, stage) else RowOf(t, id)
  {
    hide RowOf, Extend;
    RowOfAppend(t, Occupies(l, c, stage), id);
  }

  /** The cells of a cycle, appended one by one. */
  lemma CellsInOrder(t: seq<TraceEvent>, m: Machine, fetches: bool)
    ensures
      var c := m.cycle + 1;
      t + Cells(m, fetches) ==
        t + (if fetches then [TraceEvent(m.nextId, c, IF)] else []) +
        Occupies(m.ifid, c, ID) + Occupies(m.idex, c, EX) + Occupies(m.exmem, c, MEM) + Occupies(m.memwb, c, WB)
  {
    hide Occupies;
  }

  /** The cells of one cycle extend each row at most once. */
  lemma RowOfCells(t: seq<TraceEvent>, m: Machine, fetches: bool, id: int)
    requires Ordered(m)
    ensures
      var row, now := RowOf(t, id), RowOf(t + Cells(m, fetches), id);
      var c := m.cycle + 1;
      now == if fetches && id == m.nextId then Extend(row, c, IF)
             else if !m.ifid.bubble && id == m.ifid.id then Extend(row, c, ID)
             else if !m.idex.bubble && id == m.idex.id then Extend(row, c, EX)
             else if !m.exmem.bubble && id == m.exmem.id then Extend(row, c, MEM)
             else if !m.memwb.bubble && id == m.memwb.id then Extend(row, c, WB)
             else row
  {
    hide RowOf, Extend, Cells, Occupies;
    var c := m.cycle + 1;
    var a := if fetches then [TraceEvent(m.nextId, c, IF)] else [];
    var t1 := t + a;
    var t2 := t1 + Occupies(m.ifid, c, ID);
    var t3 := t2 + Occupies(m.idex, c, EX);
    var t4 := t3 + Occupies(m.exmem, c, MEM);
    CellsInOrder(t, m, fetches);
    RowOfAppend(t, a, id);
    RowOfOccupies(t1, m.ifid, c, ID, id);
    RowOfOccupies(t2, m.idex, c, EX, id);
    RowOfOccupies(t3, m.exmem, c, MEM, id);
    RowOfOccupies(t4, m.memwb, c, WB, id);
  }

  /** What every row is at a boundary. */
  predicate RowRight(m: Machine, row: Row, id: int) {
    var k := m.cycle;
    if id < 0 || id >= m.nextId then row == Absent
    else if id == IdIn(m.ifid) then row == InIF(k) || (row.InID? && row.cycle == k && m.idex.bubble)
    else if id == IdIn(m.idex) then row.InID? && row.cycle == k
    else if id == IdIn(m.exmem) then row == InEX(k)
    else if id == IdIn(m.memwb) then row == InMEM(k)
    else Closed(row)
  }

  lemma RowStaysRight(t: seq<TraceEvent>, m: Machine, m': Machine, fetches: bool, how: Motion, id: int)
    requires Ordered(m) && Moves(m, m', fetches, how)
    requires RowRight(m, RowOf(t, id), id)
    ensures RowRight(m', RowOf(t + Cells(m, fetches), id), id)
  {
    hide RowOf;
    RowOfCells(t, m, fetches, id);
  }

  /** No event is later than cycle `k`. */
  predicate Until(t: seq<TraceEvent>, k: nat) {
    forall i :: 0 <= i < |t| ==> t[i].cycle <= k
  }

  /** The instruction a stage holds in a cycle, or -1. */
  function IdAt(m: Machine, fetches: bool, stage: Stage): int {
    match stage
    case IF => if fetches then m.nextId else -1
    case ID => IdIn(m.ifid)
    case EX => IdIn(m.idex)
    case MEM => IdIn(m.exmem)
    case WB => IdIn(m.memwb)
  }

  function Depth(stage: Stage): nat {
    match stage case IF => 0 case ID => 1 case EX => 2 case MEM => 3 case WB => 4
  }

  /** Cells of this cycle, in stages before `depth`, each once. */
  predicate Column(t: seq<TraceEvent>, m: Machine, fetches: bool, depth: nat) {
    && (forall i :: 0 <= i < |t| ==>
          t[i].cycle == m.cycle + 1 && t[i].id == IdAt(m, fetches, t[i].stage) != -1 && Depth(t[i].stage) < depth)
    && (forall i, j :: 0 <= i < j < |t| ==> t[i].stage != t[j].stage)
  }

  lemma ColumnGrows(t: seq<TraceEvent>, m: Machine, fetches: bool, l: Latch, stage: Stage)
    requires Column(t, m, fetches, Depth(stage)) && IdAt(m, fetches, stage) == IdIn(l)
    requires IdIn(l) == -1 <==> l.bubble
    ensures Column(t + Occupies(l, m.cycle + 1, stage), m, fetches, Depth(stage) + 1)
  {
    hide IdAt;
  }

  lemma ColumnDistinct(t: seq<TraceEvent>, m: Machine, fetches: bool)
    requires Ordered(m) && Column(t, m, fetches, 5)
    ensures CellsDistinct(t)
  {
    forall i, j | 0 <= i < j < |t|
      ensures t[i].id != t[j].id
    {
      IdsDiffer(m, fetches, t[i].stage, t[j].stage);
    }
  }

  lemma IdsDiffer(m: Machine, fetches: bool, a: Stage, b: Stage)
    requires Ordered(m) && a != b && IdAt(m, fetches, a) != -1
    ensures IdAt(m, fetches, a) != IdAt(m, fetches, b)
  {
  }

  lemma CellsOfCycleDistinct(m: Machine, fetches: bool)
    requires Ordered(m)
    ensures CellsDistinct(Cells(m, fetches))
    ensures forall i :: 0 <= i < |Cells(m, fetches)| ==> Cells(m, fetches)[i].cycle == m.cycle + 1
  {
    hide Occupies, CellsDistinct, IdsOrdered;
    var c := m.cycle + 1;
    var t0 := if fetches then [TraceEvent(m.nextId, c, IF)] else [];
    assert Column(t0, m, fetches, Depth(ID));
    hide Column;
    var t1 := t0 + Occupies(m.ifid, c, ID);
    var t2 := t1 + Occupies(m.idex, c, EX);
    var t3 := t2 + Occupies(m.exmem, c, MEM);
    var t4 := t3 + Occupies(m.memwb, c, WB);
    ColumnGrows(t0, m, fetches, m.ifid, ID);
    ColumnGrows(t1, m, fetches, m.idex, EX);
    ColumnGrows(t2, m, fetches, m.exmem, MEM);
    ColumnGrows(t3, m, fetches, m.memwb, WB);
    ColumnDistinct(t4, m, fetches);
    ColumnCycle(t4, m, fetches);
  }

  lemma ColumnCycle(t: seq<TraceEvent>, m: Machine, fetches: bool)
    requires Column(t, m, fetches, 5)
    ensures forall i :: 0 <= i < |t| ==> t[i].cycle == m.cycle + 1
  {
  }

  lemma CellsStayDistinct(t: seq<TraceEvent>, u: seq<TraceEvent>, k: nat)
    requires CellsDistinct(t) && Until(t, k)
    requires CellsDistinct(u) && forall i :: 0 <= i < |u| ==> u[i].cycle == k + 1
    ensures CellsDistinct(t + u) && Until(t + u, k + 1)
  {
  }

  /** Adding a cycle's events to the diagram overwrites no cell, in its row or in its column. */
  lemma CycleOverwritesNothing(t: seq<TraceEvent>, m: Machine, fetches: bool)
    requires Ordered(m) && CellsDistinct(t) && Until(t, m.cycle)
    ensures CellsDistinct(t + Cells(m, fetches)) && Until(t + Cells(m, fetches), m.cycle + 1)
  {
    hide Ordered, CellsDistinct, Until, Cells;
    CellsOfCycleDistinct(m, fetches);
    CellsStayDistinct(t, Cells(m, fetches), m.cycle);
  }

  // ---- Counting ---------------------------------------------------------------------------------

  function StageCount(t: seq<TraceEvent>, stage: Stage): nat {
    if |t| == 0 then 0 else StageCount(t[..|t| - 1], stage) + Count(t[|t| - 1].stage == stage)
  }

  /** The ID cells of instructions that were already in ID. */
  function RepeatedIds(t: seq<TraceEvent>): nat {
    if |t| == 0 then 0
    else
      var e, earlier := t[|t| - 1], t[..|t| - 1];
      RepeatedIds(earlier) + Count(e.stage == ID && RowOf(earlier, e.id).InID?)
  }

  /** A stall still to be repaid by a repeated ID cell. */
  predicate Waiting(t: seq<TraceEvent>, m: Machine) {
    !m.ifid.bubble && RowOf(t, m.ifid.id).InID?
  }

  lemma StageCountOfAppend(t: seq<TraceEvent>, u: seq<TraceEvent>)
    requires |u| <= 1
    ensures StageCount(t + u, EX) == StageCount(t, EX) + Count(|u| == 1 && u[0].stage == EX)
  {
    assert t + u == if |u| == 1 then t + [u[0]] else t;
    assert |u| == 1 ==> (t + u)[..|t + u| - 1] == t;
  }

  lemma RepeatedIdsOfAppend(t: seq<TraceEvent>, u: seq<TraceEvent>)
    requires |u| <= 1
    ensures RepeatedIds(t + u) == RepeatedIds(t) + Count(|u| == 1 && u[0].stage == ID && RowOf(t, u[0].id).InID?)
  {
    hide RowOf;
    assert t + u == if |u| == 1 then t + [u[0]] else t;
    assert |u| == 1 ==> (t + u)[..|t + u| - 1] == t;
  }

  lemma StageCountOfOccupies(t: seq<TraceEvent>, l: Latch, c: nat, stage: Stage)
    ensures StageCount(t + Occupies(l, c, stage), EX) == StageCount(t, EX) + Count(!l.bubble && stage == EX)
  {
    hide StageCount;
    StageCountOfAppend(t, Occupies(l, c, stage));
  }

  lemma RepeatedIdsOfOccupies(t: seq<TraceEvent>, l: Latch, c: nat, stage: Stage)
    ensures RepeatedIds(t + Occupies(l, c, stage)) ==
      RepeatedIds(t) + Count(!l.bubble && stage == ID && RowOf(t, l.id).InID?)
  {
    hide RepeatedIds, RowOf;
    RepeatedIdsOfAppend(t, Occupies(l, c, stage));
  }

  lemma ExecutionsOfCells(t: seq<TraceEvent>, m: Machine, fetches: bool)
    ensures StageCount(t + Cells(m, fetches), EX) == StageCount(t, EX) + Count(!m.idex.bubble)
  {
    hide StageCount, Cells, Occupies;
    var c := m.cycle + 1;
    var a := if fetches then [TraceEvent(m.nextId, c, IF)] else [];
    var t1 := t + a;
    var t2 := t1 + Occupies(m.ifid, c, ID);
    var t3 := t2 + Occupies(m.idex, c, EX);
    CellsInOrder(t, m, fetches);
    StageCountOfAppend(t, a);
    StageCountOfOccupies(t1, m.ifid, c, ID);
    StageCountOfOccupies(t2, m.idex, c, EX);
    StageCountOfOccupies(t3, m.exmem, c, MEM);
    StageCountOfOccupies(t3 + Occupies(m.exmem, c, MEM), m.memwb, c, WB);
  }

  lemma RepeatsOfCells(t: seq<TraceEvent>, m: Machine, fetches: bool)
    requires Ordered(m)
    ensures RepeatedIds(t + Cells(m, fetches)) == RepeatedIds(t) + Count(Waiting(t, m))
  {
    hide RowOf, RepeatedIds, Cells, Occupies;
    var c := m.cycle + 1;
    var a := if fetches then [TraceEvent(m.nextId, c, IF)] else [];
    var t1 := t + a;
    var t2 := t1 + Occupies(m.ifid, c, ID);
    var t3 := t2 + Occupies(m.idex, c, EX);
    CellsInOrder(t, m, fetches);
    RepeatedIdsOfAppend(t, a);
    RepeatedIdsOfOccupies(t1, m.ifid, c, ID);
    RepeatedIdsOfOccupies(t2, m.idex, c, EX);
    RepeatedIdsOfOccupies(t3, m.exmem, c, MEM);
    RepeatedIdsOfOccupies(t3 + Occupies(m.exmem, c, MEM), m.memwb, c, WB);
    if !m.ifid.bubble { RowOfAppend(t, a, m.ifid.id); }
  }

  /** A held instruction is the only one that waits. */
  lemma WaitingIsHeld(t: seq<TraceEvent>, m: Machine, m': Machine, fetches: bool, how: Motion)
    requires Ordered(m) && Ordered(m') && Moves(m, m', fetches, how)
    requires forall id :: RowRight(m, RowOf(t, id), id)
    ensures Waiting(t + Cells(m, fetches), m') <==> how == Held
  {
    hide RowOf;
    if !m'.ifid.bubble {
      var id := m'.ifid.id;
      RowOfCells(t, m, fetches, id);
      assert RowRight(m, RowOf(t, id), id);
    }
  }

  // ---- Whole runs ----------------------------------------------------------------------------------

  /** The trace `t` recorded up to the boundary state `m`. */
  ghost predicate TraceInv(t: seq<TraceEvent>, m: Machine) {
    && Ordered(m)
    && CellsDistinct(t) && Until(t, m.cycle)
    && (forall id :: RowRight(m, RowOf(t, id), id))
    && StageCount(t, EX) == m.stats.retired
    && RepeatedIds(t) + Count(Waiting(t, m)) == m.stats.stallCycles
  }

  lemma CycleTraced(p: Program, cfg: Config, t: seq<TraceEvent>, m: Machine)
    requires Structure(p, cfg, m) && TraceInv(t, m) && Cycle(p, cfg, m).Next?
    ensures TraceInv(t + CycleEvents(p, cfg, m), Cycle(p, cfg, m).m)
  {
    hide Cycle, WillFetch, Cells, Contiguous, OperandsCurrent, HazardFree, FromCode, Ordered, RowOf,
      StageCount, RepeatedIds, RowRight, CellsDistinct, Until,
      MotionOf, Waiting;
    var m', fetches, how := Cycle(p, cfg, m).m, WillFetch(p, cfg, m), MotionOf(p, cfg, m);
    CycleMoves(p, cfg, m);
    MovesKeepOrder(m, m', fetches, how);
    CycleOverwritesNothing(t, m, fetches);
    ExecutionsOfCells(t, m, fetches);
    RepeatsOfCells(t, m, fetches);
    WaitingIsHeld(t, m, m', fetches, how);
    forall id
      ensures RowRight(m', RowOf(t + Cells(m, fetches), id), id)
    {
      RowStaysRight(t, m, m', fetches, how, id);
    }
  }

  /** Only the last cycle of a faulting run moves no latch; its cells still extend their rows. */
  lemma LastCells(t: seq<TraceEvent>, m: Machine, fetches: bool, id: int)
    requires Ordered(m) && RowRight(m, RowOf(t, id), id)
    ensures RowOf(t + Cells(m, fetches), id) != Broken
  {
    hide RowOf;
    RowOfCells(t, m, fetches, id);
  }

  /** The trace of any run. Its rows are prefixes of IF, ID (once or more), EX, MEM, WB in
      consecutive cycles, and no cell of the diagram is written twice. */
  ghost predicate Diagram(t: seq<TraceEvent>, b: Boundary) {
    && CellsDistinct(t)
    && (forall id :: RowOf(t, id) != Broken)
    && (b.Alive? ==> TraceInv(t, b.m))
    && (b.Finished? ==>
          && (forall id :: 0 <= id < b.m.nextId ==> Closed(RowOf(t, id)))
          && (forall id :: id < 0 || id >= b.m.nextId ==> RowOf(t, id) == Absent)
          && StageCount(t, EX) == b.m.stats.retired
          && RepeatedIds(t) == b.m.stats.stallCycles)
  }

  lemma DiagramAtStart(p: Program, cfg: Config, regs: Registers, mem: Memory)
    ensures Diagram([], Settle(Start(regs, mem)))
  {
  }

  lemma DiagramOfInv(t: seq<TraceEvent>, m: Machine)
    requires TraceInv(t, m)
    ensures Diagram(t, Settle(m))
  {
    hide RowOf, CellsDistinct, StageCount, RepeatedIds;
    forall id
      ensures RowOf(t, id) != Broken
      ensures Drained(m) && 0 <= id < m.nextId ==> Closed(RowOf(t, id))
      ensures id < 0 || id >= m.nextId ==> RowOf(t, id) == Absent
    {
      assert RowRight(m, RowOf(t, id), id);
    }
  }

  lemma DiagramOfFault(p: Program, cfg: Config, t: seq<TraceEvent>, m: Machine, b: Boundary)
    requires TraceInv(t, m) && (b.Faulted? || b.BadFetch?)
    ensures Diagram(t + CycleEvents(p, cfg, m), b)
  {
    hide RowOf, Cells, RowRight, CellsDistinct, Until, Ordered;
    var fetches := WillFetch(p, cfg, m);
    CycleOverwritesNothing(t, m, fetches);
    forall id
      ensures RowOf(t + Cells(m, fetches), id) != Broken
    {
      assert RowRight(m, RowOf(t, id), id);
      LastCells(t, m, fetches, id);
    }
  }

  lemma CycleDiagram(p: Program, cfg: Config, t: seq<TraceEvent>, m: Machine)
    requires Structure(p, cfg, m) && TraceInv(t, m)
    ensures Diagram(t + CycleEvents(p, cfg, m), AfterCycle(p, cfg, m))
  {
    hide Cycle, TraceInv, CycleEvents, Diagram, Settle, Contiguous, OperandsCurrent, HazardFree, FromCode;
    if Cycle(p, cfg, m).Next? {
      CycleTraced(p, cfg, t, m);
      DiagramOfInv(t + CycleEvents(p, cfg, m), Cycle(p, cfg, m).m);
    } else {
      DiagramOfFault(p, cfg, t, m, AfterCycle(p, cfg, m));
    }
  }

  /** The trace of every run, in every configuration, is such a diagram; when the run has
      drained every row is closed, the EX cells number `retired` and the repeated ID cells number
      `stallCycles`. */
  lemma {:induction false} TraceIsDiagram(p: Program, cfg: Config, regs: Registers, mem: Memory, k: nat)
    requires regs[0] == 0
    ensures Diagram(History(p, cfg, Start(regs, mem), k), Run(p, cfg, regs, mem, k))
  {
    hide Diagram, CycleEvents, AfterCycle, Settle, Structure, Balanced;
    if k == 0 {
      DiagramAtStart(p, cfg, regs, mem);
    } else {
      TraceIsDiagram(p, cfg, regs, mem, k - 1);
      CyclesBalance(p, cfg, regs, mem, k - 1);
      var t, before := History(p, cfg, Start(regs, mem), k - 1), Run(p, cfg, regs, mem, k - 1);
      if before.Alive? {
        DiagramAlive(t, before);
        CycleDiagram(p, cfg, t, before.m);
      } else {
        assert t + [] == t;
      }
    }
  }

  lemma DiagramAlive(t: seq<TraceEvent>, b: Boundary)
    requires Diagram(t, b) && b.Alive?
    ensures TraceInv(t, b.m)
  {
    hide TraceInv;
  }

  // ---- What the rows are labelled with ---------------------------------------------------------------

  /** The instruction in `l` is the one described under its identifier. */
  predicate Labelled(traced: seq<TracedInstr>, l: Latch) {
    !l.bubble ==> 0 <= l.id < |traced| && traced[l.id].pc == l.pc
  }

  predicate AllLabelled(traced: seq<TracedInstr>, m: Machine) {
    && |traced| == m.nextId
    && Labelled(traced, m.ifid) && Labelled(traced, m.idex) && Labelled(traced, m.exmem) && Labelled(traced, m.memwb)
  }

  lemma LabelsKept(traced: seq<TracedInstr>, more: seq<TracedInstr>, l: Latch)
    requires Labelled(traced, l)
    ensures Labelled(traced + more, l)
  {
  }

  lemma ExecuteKeepsLabel(l: Latch, a: Int32, b: Int32)
    ensures var next := ExecuteWith(l, a, b).next;
      next.bubble == l.bubble && (!l.bubble ==> next.id == l.id && next.pc == l.pc)
  {
  }

  lemma MemoryKeepsLabel(mem: Memory, l: Latch)
    requires MemoryStage(mem, l).Accessed?
    ensures var next := MemoryStage(mem, l).next;
      next.bubble == l.bubble && (!l.bubble ==> next.id == l.id && next.pc == l.pc)
  {
  }

  lemma CycleLabels(p: Program, cfg: Config, traced: seq<TracedInstr>, m: Machine)
    requires Legal(m) && Parallel(p) && AllLabelled(traced, m) && Cycle(p, cfg, m).Next?
    ensures AllLabelled(traced + CycleFetch(p, cfg, m), Cycle(p, cfg, m).m)
  {
    hide OperandA, OperandB, DetectStall, Decode, ExecuteWith, MemoryStage, WriteBack, MakeControl, Disassemble,
      WordAt, CodeBytes,
      Labelled, Sane, ReadPort, CountExecute;
    ExecuteKeepsLabel(m.idex, OperandA(cfg.forwarding, m).0, OperandB(cfg.forwarding, m).0);
    MemoryKeepsLabel(m.mem, m.exmem);
    var more := CycleFetch(p, cfg, m);
    LabelsKept(traced, more, m.ifid);
    LabelsKept(traced, more, m.idex);
    LabelsKept(traced, more, m.exmem);
    var m' := Cycle(p, cfg, m).m;
    SameLabel(traced + more, m.ifid, m'.idex);
    SameLabel(traced + more, m.idex, m'.exmem);
    SameLabel(traced + more, m.exmem, m'.memwb);
    if m'.ifid != m.ifid { FreshLabel(traced, more, m'.ifid); }
  }

  /** A latch that is empty, or holds the same instruction, has the same label. */
  lemma SameLabel(traced: seq<TracedInstr>, l: Latch, l': Latch)
    requires Labelled(traced, l) && (l'.bubble || (!l.bubble && l'.id == l.id && l'.pc == l.pc))
    ensures Labelled(traced, l')
  {
  }

  lemma FreshLabel(traced: seq<TracedInstr>, more: seq<TracedInstr>, l: Latch)
    requires l.bubble || (|more| == 1 && l.id == |traced| && more[0].pc == l.pc)
    ensures Labelled(traced + more, l)
  {
  }

  /** The description of the instruction at a PC: its address, its line in the source, and the text of
      the instruction its word decodes to. */
  predicate Describes(p: Program, t: TracedInstr)
    requires Parallel(p)
  {
    && t.pc < CodeBytes(p)
    && t.sourceLine == p.sourceLines[t.pc / INSTRUCTION_BYTES]
    && Decode(p.words[t.pc / INSTRUCTION_BYTES]).Success?
    && t.text == Disassemble(Decode(p.words[t.pc / INSTRUCTION_BYTES]).value)
  }

  /** The description a row is labelled with: each identifier below `nextId` has one, of the
      instruction in the code at its PC, and a latch's identifier describes what it holds. */
  lemma {:induction false} RowsDescribed(p: Program, cfg: Config, regs: Registers, mem: Memory, k: nat)
    requires Parallel(p)
    ensures
      var traced, b := Fetched(p, cfg, Start(regs, mem), k), Run(p, cfg, regs, mem, k);
      && |traced| == b.m.nextId
      && (forall i :: 0 <= i < |traced| ==> Describes(p, traced[i]))
      && (b.Alive? ==> AllLabelled(traced, b.m))
  {
    hide AfterCycle, Describes, AllLabelled, CodeBytes;
    if k == 0 {
      NothingLabelled(regs, mem);
    } else {
      RowsDescribed(p, cfg, regs, mem, k - 1);
      var before := Run(p, cfg, regs, mem, k - 1);
      if before.Alive? { AfterCycleLabels(p, cfg, Fetched(p, cfg, Start(regs, mem), k - 1), before.m); }
    }
  }

  lemma NothingLabelled(regs: Registers, mem: Memory)
    ensures AllLabelled([], Start(regs, mem))
  {
  }

  lemma AfterCycleLabels(p: Program, cfg: Config, traced: seq<TracedInstr>, m: Machine)
    requires Legal(m) && Parallel(p) && AllLabelled(traced, m)
    ensures
      var more, b := CycleFetch(p, cfg, m), AfterCycle(p, cfg, m);
      && |traced + more| == b.m.nextId
      && (forall i :: 0 <= i < |more| ==> Describes(p, more[i]))
      && (b.Alive? ==> AllLabelled(traced + more, b.m))
  {
    hide AllLabelled, Commit, MemoryStage, WriteBack, Stalls, Decode, Disassemble, CountExecute;
    if Cycle(p, cfg, m).Next? {
      CycleLabels(p, cfg, traced, m);
      LabelsCounted(traced + CycleFetch(p, cfg, m), Cycle(p, cfg, m).m);
    } else {
      LabelsCounted(traced, m);
      assert traced + CycleFetch(p, cfg, m) == traced;
    }
  }

  lemma LabelsCounted(traced: seq<TracedInstr>, m: Machine)
    requires AllLabelled(traced, m)
    ensures |traced| == m.nextId
  {
  }
}

# Pipeline Lab, verified

A Dafny model of Pipeline Lab: a 16-register, 32-bit instruction set with an assembler, a sequential
interpreter, and a cycle-accurate simulator of a five-stage pipeline (IF, ID, EX, MEM, WB) with hazard
detection, forwarding and flushing. The repository calls the interpreter the source of truth and checks
the pipeline against it on a handful of programs; here the agreement is proved for every program, every
number of cycles and every configuration in which it holds, and the configurations in which it fails are
delimited exactly.

Run `dafny verify dfyconfig.toml` to check the project.

## How it is organised

| files | content |
|---|---|
| `Words`, `Results` | 32-bit arithmetic written out over integers; results for thrown errors |
| `Isa`, `Encoding`, `Alu`, `AluBits` | instructions, their 32-bit words, the ALU and its bit-level reading |
| `Storage`, `Programs`, `Interpreting` | register file and data memory objects, program images, class `Interpreter` |
| `Stages` | one clock cycle as a function of the latches: the specification of class `Pipeline` |
| `Refinement`, `Runs` | the pipeline stands for the interpreter: one cycle, then whole runs |
| `Timing`, `Schedule`, `Outcomes`, `Forwarding` | when each instruction executes, how runs end, what the counters count |
| `Exactness` | exactly when a run agrees with the interpreter, read off the interpreter's trace |
| `Dropping` | what a run computes when it does not: a sequential interpreter that drops redirects |
| `Costs` | stalls pair by pair, and what forwarding is worth |
| `Witnesses` | concrete programs on which the code departs from its interpreter or its documentation; a static test |
| `Tracing`, `TraceShape` | the recorded trace and the diagram drawn from it |
| `Pipelining` | class `Pipeline` with its mutable latches, proved equal to `Stages` and `Tracing` |
| `Syntax`, `Lexer`, `Parser`, `Assembler` | the assembler as the loops and cursor of the source, proved against functions |
| `FrontEnd`, `TwoPass`, `Meaning` | properties of the assembler; a symbolic interpreter of source statements |
| `Tables` | the documented opcode numbers, mnemonics and formats |
| `Disassembly`, `RoundTrip`, `Reassembly`, `Layout` | printing instructions and reading the listing back, with any margins and comments |
| `Spelling`, `Grammar`, `Acceptance` | exactly which texts lex, which token streams parse and which statements assemble, and the error of the others |
| `EndToEnd` | source text to drained pipeline |
| `SumLoop` | the repository's countdown loop for every start value: result, cycles and counters in closed form |

A machine state is compared with the interpreter at the end of EX, where `retired` is counted: the
writes pending in MEM/WB and EX/MEM are completed on top of the registers and memory, and the program
counter is that of the oldest instruction that has not executed. A thrown error is a result value that
carries the state at the throw. The constructors start from zeroed registers and memory; the theorems
hold from any contents with `r0 == 0`.

The theorems about runs and programs are about functions. Each class of the source is a class here, and each method is
proved to compute its function on the whole state, so the theorems are about the methods too:
`Pipelining.Pipeline.Run` equals `Stages.AfterCycles`, `Interpreting.Interpreter.Run` equals
`Interpreting.AfterSteps`, and likewise for the lexer, the parser and the assembler.

The theorems about runs do not ask that the words of the program decode: a run that throws on an undecodable
word is a `BadFetch`, and `Exactness.BadFetchExactly` says when that happens. Only a promise that a run does not
throw asks for it, as in `EndToEnd.MatchesOracle` and in the draining of the witness programs.

## Where the code and its documentation disagree

1. **A stall wins over a flush** (`src/sim/pipeline.cpp:253-272`). When both happen in one cycle the
   redirect, or the `ret`, is dropped. With forwarding on this cannot happen
   (`Refinement.ForwardingNeverCoincides`). With forwarding off it can, and `docs/pipeline.md:93-99` and
   `docs/architecture.md:47-54`, which promise equal results in both modes, are then wrong:
   `li r1, 1; j L; add r2, r1, r1; L: ret` executes the `add` it should jump over
   (`Witnesses.LostRedirectWitness`; `Witnesses.JumpOverTyped` assembles it from text).
   `Exactness.AgreesIffTraceLosesNothing` gives the exact condition on the interpreter's trace, cycle by
   cycle: an executed `ret` or departing transfer whose successor in the code stalls behind it.
   `Witnesses.QuietProgramsAreSafe` gives a test on the program text that suffices. `flushWins` in
   `Stages.Config` is not in the source: it is the other arbitration, under which both modes agree with
   the interpreter; a squashed cycle is then not counted as a stall. A dropped jump to the very next
   address does no harm, and even saves the flush (`Witnesses.DroppedJumpSaves`), so forwarding can cost a
   cycle; `Costs.ForwardingNeverCosts` says exactly when. `Dropping.PipelineRefinesDropping` says what the
   code computes as written in every mode, lost redirects included: a sequential interpreter that falls
   through at the transfers and `ret`s behind which the next instruction stalls.
2. **Running off the end of the code does not drain** (`src/sim/pipeline.cpp:225-232`). The comment at
   `include/plab/sim/pipeline.hpp:94` says it does; a single `nop` never drains
   (`Witnesses.OffTheEndWitness`). `Outcomes.EndsExactly`: a run that loses no redirect drains if and only if
   the interpreter executes a `ret`, undecodable words aside.
3. **Fetch decodes speculatively** (`src/sim/pipeline.cpp:201`). An undecodable word behind a `ret` makes
   the pipeline throw where the interpreter halts (`Witnesses.SpeculativeFetchWitness`).
   `Runs.PipelineRefinesInterpreter` holds at every boundary that is not such a throw, and
   `Exactness.BadFetchExactly` says on the interpreter's trace when one comes: when the interpreter itself
   meets an undecodable word, or one stands within two words behind an executed instruction that departs
   from its successor. Even where both report the word the throw is not precise
   (`Witnesses.ImpreciseThrowWitness`, `Exactness.ThrowsAfterAgreement`). Assembled images have no such
   word (`TwoPass.AssemblyIsFaithful`).
   `Exactness.AgreesExactlyWhen` puts this condition and that of item 1 together, for every program and
   every configuration.
4. **The bounds test wraps at address 0xFFFFFFFC** (`include/plab/sim/memory.hpp:44`): the 32-bit sum is
   zero there and the test passes, so the access goes outside the vector. The model takes the sum over the
   integers, so that it is the documented fault. `Storage.WrittenTestExactly`,
   `Witnesses.FaultsAsWrittenExactly` and `Witnesses.RefusedAsWrittenExactly` show that the two tests
   differ at that address only, and `Witnesses.TopWordWitness` that a program reaches it.
5. **A written jump target is truncated before it is checked** (`src/asm/assembler.cpp:166-168`).
   `docs/isa.md:46` makes it a 26-bit address, but `j 4294967296` assembles, to `j 0`
   (`Acceptance.WideJumpWitness`). `Acceptance.NumericJumpExactly`: such a jump assembles exactly when the
   remainder modulo 2^32 fits 26 bits, and goes where it says exactly when the number itself does.
6. **`nop` takes any operands** (`src/asm/assembler.cpp:45,92-94`): `nop r1, 5` assembles. The other
   documented operand lists are enforced (`Acceptance.AssembledExactly`).

## Model

| member | source | states |
|---|---|---|
| Refinement.ForwardedValue | src/sim/pipeline.cpp:70-86 | The forwarding unit, with no load directly ahead, delivers for any port the register value of the sequential machine; so does reading ID's value when nothing is in flight |
| Refinement.OperandCorrect | src/sim/pipeline.cpp:139-144 | Under the invariant, both operand values EX uses are the sequential machine's, with and without forwarding |
| Refinement.ExecuteSimulates | src/sim/pipeline.cpp:133-176 | Executing an instruction in EX and completing it in MEM and WB is one step of the interpreter, including faults, `ret`, links and redirects, for all values |
| Refinement.StructurePreserved | src/sim/pipeline.cpp:219-281 | Every cycle of every configuration keeps the structural invariant: legal latches fetched from the code, contiguous PCs, current operands, `r0 == 0`, and no hazard left for EX: with forwarding EX/MEM never holds a load that feeds ID/EX, without it no write ID/EX reads is in flight |
| Refinement.CompletionShifts | src/sim/pipeline.cpp:110-131 | A cycle moves exactly the completed effect of MEM/WB and EX/MEM into registers and memory |
| Refinement.ForwardingNeverCoincides | src/sim/pipeline.cpp:101-107 | With forwarding a stall and a control transfer never fall in one cycle |
| Refinement.CyclePreserves | src/sim/pipeline.cpp:233-278 | One cycle keeps the refinement if and only if it does not lose a redirect |
| Runs.PipelineRefinesInterpreter | src/sim/pipeline.cpp:219-281 | With forwarding, or when the flush wins, every boundary of every run of every program stands for the interpreter after exactly `retired` steps, if and only if the fetch has not thrown on an undecodable word; a drained run has the interpreter's registers, memory and count |
| Runs.AgreesIffNothingLost | src/sim/pipeline.cpp:253-272 | In any configuration, a run agrees with the interpreter at every boundary if and only if no cycle has the stall discard a `ret` or a transfer to other than the next instruction, and no fetch throws |
| Exactness.InExOnTime | src/sim/pipeline.cpp:233-278 | The i-th instruction the interpreter comes to is in EX in the cycle its trace says, unless the run threw before |
| Exactness.LossIsOnTrace | src/sim/pipeline.cpp:253-256 | A cycle loses a redirect exactly when the trace has the executing instruction depart from its successor while that one stalls |
| Exactness.LossesOnTrace | src/sim/pipeline.cpp:253-256 | A run loses no redirect in its first k cycles if the trace has no such instruction by cycle k, and only if, unless it threw |
| Exactness.AgreesIffTraceLosesNothing | src/sim/pipeline.cpp:219-281 | In any configuration, agreement up to any boundary is equivalent to that condition on the interpreter's trace, together with no throw so far |
| Exactness.BadFetchExactly | src/sim/pipeline.cpp:193-201 | The fetch throws, sooner or later, if and only if the interpreter meets an undecodable word or one stands behind an executed instruction that departs: one behind, or two behind if the first does not stall |
| Exactness.ThrowsAfterAgreement | src/sim/pipeline.cpp:233-251 | Before a throw the boundary stands for the interpreter; the throwing cycle has finished WB and MEM and counted the instruction in EX, no more |
| Exactness.AgreesExactlyWhen | src/sim/pipeline.cpp:219-281 | For every program and configuration, the pipeline agrees with the interpreter for ever if and only if the interpreter's trace loses no redirect and meets no undecodable word, on its path or behind it |
| Exactness.HaltingDrainsExactly | src/sim/pipeline.cpp:223-232 | With forwarding, a program that halts in the interpreter drains if and only if the up to two words behind each of its taken transfers and its `ret` decode |
| Dropping.PipelineRefinesDropping | src/sim/pipeline.cpp:219-281 | In both modes as written, and for every program, every boundary that is not a throw stands for a sequential interpreter that drops a redirect or `ret` exactly when the instruction behind it stalls |
| Dropping.PacedIsOracle | src/sim/pipeline.cpp:101-107 | With forwarding, or when the flush wins, that interpreter is the reference interpreter |
| Runs.ArbitrationIrrelevant | src/sim/pipeline.cpp:253-272 | While stalls and transfers do not coincide, the code as written and the flush-wins machine run identically |
| Schedule.CyclesBalance | src/sim/pipeline.cpp:233-280 | `cycles == retired + stallCycles + flushBubbles + 4` for every drained run, in every configuration |
| Timing.CycleOnSchedule | src/sim/pipeline.cpp:233-278 | Every cycle that loses no redirect keeps the machine on a schedule computed from the interpreter's trace alone, in which instruction n is in EX at `ExTime(n)` |
| Schedule.RunTimed | src/sim/pipeline.cpp:219-281 | Whole runs that lose no redirect stay on that schedule, with exact flush counters, until they drain at `ExTime + 2` or fault at `ExTime + 1` |
| Timing.StallIsDependence | src/sim/pipeline.cpp:88-108 | The hazard unit stalls exactly on the trace's dependences: load-use with forwarding, any producer in EX or MEM without |
| Timing.StallIsBehindStall | src/sim/pipeline.cpp:88-108 | While an instruction is in EX, the hazard unit stalls exactly when the trace says the one behind it in the code does, executed or not |
| Outcomes.DrainsWhenHalted | src/sim/pipeline.cpp:223-232 | If the interpreter halts at step n, a run that loses no redirect and does not throw drains, exactly from a given cycle on, with the interpreter's registers, memory and count |
| Outcomes.DrainsWithin | src/sim/pipeline.cpp:223-232 | In every configuration, a program of n executed instructions whose run loses no redirect drains within 3n + 2 cycles, unless the fetch throws |
| Outcomes.FaultsPrecisely | src/sim/pipeline.cpp:243-248 | If the interpreter's n-th step is an illegal access, a run that loses no redirect and does not throw faults in a known cycle with exactly the interpreter's registers, memory and count |
| Outcomes.NeverEndsOtherwise | src/sim/pipeline.cpp:225-232 | If the interpreter neither halts nor faults on data, no cycle budget makes the pipeline drain or fault |
| Outcomes.EndsExactly | src/sim/pipeline.cpp:223-232 | Some budget drains a run that loses no redirect if and only if the interpreter executes a `ret`, and some budget faults it if and only if the interpreter makes an illegal access, where no fetch throws |
| Costs.SlowGap | src/sim/pipeline.cpp:105-107 | Without forwarding an instruction is in EX three cycles behind one that diverts the fetch or that it reads, two behind when it reads the one before that and nothing else has delayed the three, else one |
| Costs.StallsOfPair | src/sim/pipeline.cpp:101-107 | An adjacent load-use pair costs one stall with forwarding and two without; any other adjacent dependence none with forwarding and two without (`docs/pipeline.md:56-60`); the gap in EX is those stalls plus one, or three behind a redirect |
| Costs.CountersOfDrainedRun | src/sim/pipeline.cpp:253-271 | `flushes` is the number of carried-out redirects of the interpreter's trace, which with forwarding is its taken branches and jumps; `stallCycles` is with forwarding the number of adjacent load-use pairs, without twice the adjacent dependent pairs plus the undelayed ones at distance two |
| Costs.ForwardingNeverLater | src/sim/pipeline.cpp:101-107 | Instruction by instruction, the forwarding machine is never later than one without forwarding that drops no redirect for free |
| Costs.ForwardingBalance | src/sim/pipeline.cpp:101-107 | On a trace that loses nothing the two schedules differ by the stalls forwarding saves, counted pair by pair, against the redirects a stall dropped although the next instruction did not wait for them |
| Costs.ForwardingNeverCosts | src/sim/pipeline.cpp:101-107 | For every halting program the two modes end in equal states with equal retired counts, and forwarding takes no more cycles if and only if those saved stalls are at least those free drops; always, if there are none, as when the flush wins, with equal flush counts then |
| Outcomes.NoWrongPathExecutes | src/sim/pipeline.cpp:149-168 | The PCs that pass through EX are exactly the interpreter's first `retired` PCs: a squashed instruction never executes |
| Forwarding.DeliveriesOfCycle | src/sim/pipeline.cpp:70-86 | In any cycle the unit delivers an operand exactly when the trace has its producer in EX at most two cycles earlier |
| Forwarding.ForwardsCounted | src/sim/pipeline.cpp:70-86 | The `forwards` counter of any run that loses no redirect is the number of such operands among the executed instructions; without forwarding it is zero |
| Witnesses.LostRedirectWitness | src/sim/pipeline.cpp:253-256 | Without forwarding, as written, a four-instruction program drains with `r2 == 2` after four instructions where the interpreter halts after three |
| Witnesses.JumpOverWithForwarding | src/sim/pipeline.cpp:101-104 | With forwarding the same program drains in the interpreter's state, after three instructions |
| Witnesses.JumpOverMismatch | tests/test_pipeline_correctness.cpp:86-104 | On that program, without forwarding, both simulators end under any sufficient budgets and the comparison finds them different |
| Witnesses.JumpOverTyped | src/asm/assembler.cpp:218-222 | A four-line text lexes, parses and assembles to that program's image |
| Witnesses.DroppedJumpSaves | src/sim/pipeline.cpp:253-256 | A jump to the next address that a stall drops saves the flush: the program drains a cycle earlier without forwarding than with it |
| Witnesses.OffTheEndWitness | src/sim/pipeline.cpp:225-232 | A single `nop` runs off its end: the interpreter reports the PC and no budget drains the pipeline, in any configuration |
| Witnesses.TopWordWitness | include/plab/sim/memory.hpp:40-47 | A two-instruction program accesses address 0xFFFFFFFC, where the test as written lets the access through |
| Witnesses.FaultsAsWrittenExactly | src/sim/interpreter.cpp:40-51 | A step of the interpreter faults as the test is written exactly when it does not access that address |
| Witnesses.RefusedAsWrittenExactly | src/sim/pipeline.cpp:116-131 | The memory stage refuses an access as the test is written exactly when it is not to that address |
| Witnesses.QuietProgramsAreSafe | src/sim/pipeline.cpp:101-107 | A program in which no instruction right behind a transfer reads the transfer's result or its predecessor's loses nothing on any trace; as written without forwarding it runs as if the flush won, in agreement with the interpreter unless a fetch throws |
| Witnesses.SpeculativeFetchWitness | src/sim/pipeline.cpp:201 | A `ret` followed by an undecodable word halts the interpreter and makes the pipeline throw, in every configuration |
| Witnesses.ImpreciseThrowWitness | src/sim/pipeline.cpp:193-201 | On `li r1, 1` and an undecodable word both simulators report the word, the interpreter after executing the `li`, the pipeline before |
| Pipelining.Pipeline.constructor | include/plab/sim/pipeline.hpp:90-92 | Zeroed registers and memory, empty latches, PC 0, empty trace |
| Pipelining.Pipeline.ForwardedOperand | src/sim/pipeline.cpp:70-86 | The value and the counter of the forwarding specification |
| Pipelining.Pipeline.WriteBackStage | src/sim/pipeline.cpp:110-114 | Only the register file changes, by the write of MEM/WB |
| Pipelining.Pipeline.AccessMemory | src/sim/pipeline.cpp:116-131 | The next MEM/WB and the memory of the specification, or a fault that changes nothing |
| Pipelining.Pipeline.Compute | src/sim/pipeline.cpp:146-175 | The result and the flush request of the specification, from the operand values |
| Pipelining.Pipeline.ExecuteStage | src/sim/pipeline.cpp:133-176 | The result, the flush request and the counters of the specification; nothing else changes |
| Pipelining.Pipeline.DecodeInto | src/sim/pipeline.cpp:178-191 | The next ID/EX, read from the registers after write-back |
| Pipelining.Pipeline.FetchInto | src/sim/pipeline.cpp:193-209 | The next IF/ID, a fresh identifier and its description, or a decoding error that changes nothing |
| Pipelining.Pipeline.RecordStages | src/sim/pipeline.cpp:211-217 | Exactly one event per occupied stage is appended, in stage order |
| Pipelining.Pipeline.Resolve | src/sim/pipeline.cpp:253-277 | The whole state after resolving stall and flush and committing the latches |
| Pipelining.Pipeline.Begin | src/sim/pipeline.cpp:233-239 | The cycle is counted, stall and fetch are decided, and exactly the cycle's events are appended |
| Pipelining.Pipeline.Tick | src/sim/pipeline.cpp:233-277 | One iteration of the loop is one `Cycle` of the specification, with its trace events and fetch record, and throws exactly when it does |
| Pipelining.Pipeline.Run | src/sim/pipeline.cpp:219-281 | The run ends as `AfterCycles` does within the budget: drained, cycle limit, memory fault or decoding error, with the whole state and trace |
| TraceShape.TraceIsDiagram | src/sim/pipeline.cpp:193-217 | Each row of the trace is a prefix of IF, ID (repeated), EX, MEM, WB in consecutive cycles; when drained it ends in WB or after IF or a single ID; no (id, cycle) or (stage, cycle) cell repeats; EX cells number `retired`, repeated IDs `stallCycles` |
| TraceShape.CycleOverwritesNothing | src/viz/trace.cpp:37-44 | Adding a cycle's events to the grid overwrites no cell of a row or a column |
| TraceShape.RowsDescribed | src/sim/pipeline.cpp:201-208 | Every identifier below `nextId`, and no other, has a description: its PC, the source line recorded for the word there, and the text of the instruction the word decodes to; a latch's identifier describes what it holds |
| Interpreting.Interpreter.Execute | src/sim/interpreter.cpp:34-73 | One instruction's effect on the whole state, or the fault it ends in |
| Interpreting.Interpreter.Advance | src/sim/interpreter.cpp:26-74 | One loop iteration is one `Step` |
| Interpreting.Interpreter.Run | src/sim/interpreter.cpp:22-78 | The run is `AfterSteps` within the step limit: halted, PC fault, memory fault, decoding error or limit |
| Interpreting.EndedStaysEnded | src/sim/interpreter.cpp:26-77 | A larger step limit does not change the outcome of a run that has ended |
| Words.AddressArithmetic | src/sim/interpreter.cpp:16-18 | The effective address computed in signed 64 bits and truncated (`src/sim/pipeline.cpp:169-172`) is the interpreter's wrapped unsigned address, for all values |
| AluBits.BranchConditions | src/sim/alu.cpp:46-53 | `beq` is taken exactly on a zero difference, `bne` otherwise, `blt` exactly when set-less-than gives one, and no other opcode is taken |
| SumLoop.SumLoopAssembles | examples/sum_loop.asm:4-9 | The source statements, with `li n` for any n from 1 to 131071, assemble, and every word is the documented instruction, the branch offset being -8 |
| SumLoop.SumLoopHalts | src/sim/interpreter.cpp:22-78 | For each such n the interpreter halts after exactly 3n + 3 instructions with n(n+1)/2 in r1, in 32-bit arithmetic, and 0 in r2; up to 65535 the sum does not wrap |
| SumLoop.SumLoopReport | src/sim/pipeline.cpp:219-281 | With forwarding the pipeline drains exactly in cycle 5n + 5 with that sum: 3n + 3 instructions, no stall, n - 1 flushes, 2(n - 1) penalty cycles, n + 3 forwarded operands; the report in the repository's `README.md:103-109` is the case n = 5 |
| AluBits.LogicByBits | src/sim/alu.cpp:23-37 | Logic and shift results bit by bit: shifts move bits by the low five bits of the second operand, right shift is logical |
| AluBits.ArithmeticByWords | src/sim/alu.cpp:19-40 | Addition and subtraction are exact modulo 2^32; set-less-than compares as signed |
| Storage.ReadOverWrite | include/plab/sim/register_file.hpp:15-19 | A register holds what was last written to it, and r0 and the others are untouched |
| Storage.RegisterFile.Write | include/plab/sim/register_file.hpp:17-19 | The new register contents, register by register; a write to r0 is discarded |
| Storage.WrittenTestExactly | include/plab/sim/memory.hpp:40-47 | The bounds test as written is the documented one exactly at every address but 0xFFFFFFFC |
| Storage.AccessExactly | include/plab/sim/memory.hpp:40-47 | An access is legal exactly at the first byte of a word of the memory; a misaligned address is always reported as misaligned |
| Storage.LoadReads | include/plab/sim/memory.hpp:24-27 | A load reads the word whose four bytes start at the address |
| Storage.LoadOverStore | include/plab/sim/memory.hpp:24-32 | A load after a store gives the stored value at the same address and the old one at any other; the size and the legal addresses stay |
| Storage.DataMemory.Load | include/plab/sim/memory.hpp:24-27 | The element of the contents whose four bytes start at the address, else the error of the bounds test |
| Storage.DataMemory.Store | include/plab/sim/memory.hpp:29-32 | Exactly the element whose four bytes start at the address changes, or none and the error is reported |
| Encoding.DecodeEncode | src/isa/encoding.cpp:37-114 | `decode(encode(i)) == i` for every instruction whose unused fields are zero |
| Encoding.EncodeDecode | src/isa/encoding.cpp:37-114 | `encode(decode(w)) == w` for every decodable word, except that R-type words lose their low 14 bits |
| Encoding.EncodeFailsExactly | src/isa/encoding.cpp:26-80 | Encoding fails exactly when a used field is out of range |
| Encoding.DecodeFailsExactly | src/isa/encoding.cpp:84-88 | Decoding fails exactly on opcode fields above 20 |
| Encoding.EncodedFormR | src/isa/encoding.cpp:42-49 | The R-type word as a number: its fields are digits at 26, 22, 18 and 14 bits |
| Encoding.EncodedFormI | src/isa/encoding.cpp:51-60 | The I-type word as a number, the immediate taken modulo 2^18 |
| Encoding.EncodedFormB | src/isa/encoding.cpp:62-72 | The B-type word as a number, with `rs` and `rt` in the two upper slots |
| Encoding.EncodedFormJ | src/isa/encoding.cpp:74-79 | The J-type word as a number, with a 26-bit target |
| Encoding.SignExtendInvertsTruncation | src/isa/encoding.cpp:20-24 | Sign extension undoes 18-bit truncation exactly on the immediate range |
| Tables.OpcodeTable | include/plab/isa/instruction.hpp:12-38 | The opcode numbers, mnemonics and formats are those of the tables of `docs/isa.md:52-94` |
| Tables.LookupExactly | src/asm/assembler.cpp:16-31 | A name is looked up to an opcode exactly when it is its mnemonic, or `halt` for `ret` |
| Acceptance.AssembledExactly | src/asm/assembler.cpp:41-173 | An instruction statement assembles if and only if its mnemonic is known, its operands have the documented number and kinds, its labels are defined and its values fit their fields; otherwise the fault is the first of these, with its line |
| Acceptance.AssemblesExactly | src/asm/assembler.cpp:181-216 | A list assembles if and only if no label is defined twice and no statement is faulty, with branch offsets four times the difference of the instruction counts, backward or forward; otherwise the error is that of the first redefinition, or else of the first faulty statement |
| Acceptance.NumericJumpExactly | src/asm/assembler.cpp:166-168 | A jump to a written number assembles exactly when its remainder modulo 2^32 fits 26 bits, and goes there exactly when the number fits |
| Acceptance.WideJumpWitness | src/asm/assembler.cpp:166-168 | `j 4294967296` assembles to a jump to 0 |
| Assembler.Assemble | src/asm/assembler.cpp:181-216 | The two loops compute the two passes of the specification: image, symbol table, source lines, or the first error with its line |
| TwoPass.PassOneRight | src/asm/assembler.cpp:184-195 | The table holds each label once, at the address of its definition, and nothing else |
| TwoPass.AssemblyIsFaithful | src/asm/assembler.cpp:197-213 | The three vectors are parallel, `decode(words[k]) == instructions[k]`, and each instruction statement yields its own translation and line |
| TwoPass.TwoPassAgreement | src/asm/assembler.cpp:136-173 | A label's symbol is four times the instructions before it; a branch's own address plus its decoded offset, and a jump's decoded target, are the symbol, for forward and backward references alike |
| TwoPass.LabelNamesDoNotMatter | src/asm/assembler.cpp:184-213 | An injective renaming of labels leaves success, the error and everything emitted unchanged |
| Meaning.PseudoPreserved | src/asm/assembler.cpp:92-106 | The words of `nop`, `mov` and `li` do what those are documented to do (`docs/isa.md:96-101`) |
| Meaning.AssemblyPreservesMeaning | src/asm/assembler.cpp:181-216 | Step for step, running the words is running the source statements with labels as positions, for every source that assembles to fewer than 2^30 words, with transfers written as labels or as numbers, aligned or not |
| Lexer.IsRegisterName | src/asm/lexer.cpp:18-27 | The register index of a name rN, or none |
| Lexer.SkipRun | src/asm/lexer.cpp:58-61 | The end of the longest run of characters of a class |
| Lexer.ScanNumber | src/asm/lexer.cpp:78-93 | The end of a number literal, with sign and base prefix |
| Lexer.Tokenize | src/asm/lexer.cpp:31-127 | The loop computes the recursive specification of the token stream, or the first lexical error with its line |
| Layout.LexComment | src/asm/lexer.cpp:57-63 | A comment reaches to the end of its line, whatever it contains, and leaves no token |
| Spelling.LiteralReads | src/asm/lexer.cpp:74-104 | A literal reads as the number its digits denote: decimal or hexadecimal with digits in either case, with no sign, `+` or `-`, over the 64-bit range |
| Spelling.ReadsLiteral | src/asm/lexer.cpp:94-102 | Whatever reads as a number is such a literal |
| Spelling.LexedExactly | src/asm/lexer.cpp:31-127 | A text is accepted if and only if it is written as blanks, comments, line ends, punctuation, names, registers and literals that do not run into each other, and then gives exactly their tokens with their lines; otherwise such items stand in front of a character that begins none, or of a number no literal is spelled like, and the error is that one with its line |
| Spelling.LayoutDoesNotMatter | src/asm/lexer.cpp:52-63 | Blanks and comments anywhere between the other items change no token |
| Grammar.OperandExactly | src/asm/parser.cpp:29-86 | An operand parses exactly when it is one of the five documented forms, `(rN)` meaning displacement 0 |
| Grammar.LoweredExactly | src/asm/parser.cpp:12-16 | Mnemonics are read in lower case, letter by letter of the alphabet |
| Grammar.ParsedExactly | src/asm/parser.cpp:88-131 | The tokens of a text parse to a list of statements if and only if they spell it; otherwise some statements stand in front of a place where none is spelled, and the error names the line of that place |
| Parser.Parser.Expect | src/asm/parser.cpp:20-27 | The expected token and an advanced cursor, or the error line and an unmoved cursor |
| Parser.Parser.ParseOperand | src/asm/parser.cpp:29-86 | The operand at the cursor by the grammar, and the cursor behind it |
| Parser.Parser.ParseOperands | src/asm/parser.cpp:115-121 | The comma-separated list at the cursor by the grammar |
| Parser.Parser.ParseStatement | src/asm/parser.cpp:97-127 | The label definition or instruction at the cursor by the grammar |
| Parser.Parser.Parse | src/asm/parser.cpp:88-131 | The statements of the whole stream by the grammar, or the first error with its line |
| FrontEnd.LexedStream | src/asm/lexer.cpp:42-126 | Every accepted text yields one `End` in last place, one `Newline` per line break, and each token with the line it stands on |
| FrontEnd.FrontEndSafe | src/asm/parser.cpp:20-131 | Every accepted text meets the precondition of the parser, under which no parser method advances past `End`; every operand of the statements it accepts names a register below 16 |
| RoundTrip.ParsePrinted | src/asm/lexer.cpp:94-102 | Reading a number printed in decimal gives the number, over the whole 64-bit range |
| RoundTrip.LexInstruction | src/isa/instruction.cpp:101-126 | The text of a printable instruction lexes to its tokens, whatever follows it |
| RoundTrip.ParseInstruction | src/asm/parser.cpp:97-127 | Those tokens parse to its statement |
| Reassembly.TranslatePrinted | src/asm/assembler.cpp:41-61 | That statement translates to the instruction, at any address |
| Reassembly.TextRoundTrip | src/isa/instruction.cpp:101-126 | The listing of any list of printable instructions, lexed, parsed and assembled, gives back those instructions and their words, one per source line |
| Layout.PaddedListing | src/asm/lexer.cpp:52-63 | So does the listing with any blanks around its instructions and any comment at the end of each line |
| Reassembly.ListingReassembles | src/asm/assembler.cpp:197-222 | The listing of any assembled program reassembles to the same instructions and words |
| EndToEnd.AssembleSource | src/asm/assembler.cpp:218-222 | Lexing, parsing and assembling in turn, with the first error of the three |
| EndToEnd.SourceToPipeline | src/sim/pipeline.cpp:219-281 | A source run that stops is a pipeline that drains in bounded time with the same registers, memory and count; one that traps is a precise fault; one that leaves the code never ends |
| EndToEnd.SourceLoops | src/sim/pipeline.cpp:229-232 | A source run that goes on for ever keeps the pipeline running under every budget |
| EndToEnd.MatchesOracle | tests/test_pipeline_correctness.cpp:86-104 | The repository's comparison of the two simulators, for every program: it is made exactly when both end normally within their budgets, and succeeds exactly when registers, memory and retired counts are equal; with forwarding, or if the interpreter's trace loses no redirect in time, it never fails, and it is made whenever the budgets suffice and every word decodes |

## Left out

- Storage.DataMemory.Load: the bounds test does not wrap at address 0xFFFFFFFC, as explained above; the access as written would be outside the vector, which has no meaning to model. The same holds for `Store`.
- Lexer.IsRegisterName: the accumulator is unbounded, where the source overflows a 64-bit integer on very long digit strings.
- Witnesses.QuietProgramsAreSafe: the test on the program text is sufficient, not necessary; the exact condition is the one on the interpreter's trace.
- Cycle, identifier, retired and statistics counters are unbounded naturals.
- Token columns, operand line numbers and the texts of error messages; error kinds and lines are kept.
- `std::stoll` is the function `Lexer.ParseNumber`; character classes are those of ASCII.
- Rendering of the diagram and the report in `src/viz/trace.cpp`, including CPI and IPC; only the grid cells are modelled.
- The command line, file reading and printing in `src/main.cpp`, the build files and the planned C frontend.

/** The assembled program image the simulators run. */
module Programs {
  import opened Words
  import opened Isa
  import opened Encoding

  /** `instructions` and `sourceLines` are parallel to `words`. */
  datatype Program = Program(
    words: seq<UInt32>,
    instructions: seq<Instruction>,
    sourceLines: seq<int>,
    symbols: map<string, UInt32>)

  /** The code size in bytes, computed in 32-bit arithmetic. */
  function CodeBytes(p: Program): (n: UInt32)
    ensures n <= INSTRUCTION_BYTES * |p.words|
  {
    U32(U32(|p.words|) * INSTRUCTION_BYTES)
  }

  /** The word that holds byte address `pc`. */
  function WordAt(p: Program, pc: UInt32): UInt32
    requires pc < CodeBytes(p)
  {
    p.words[pc / INSTRUCTION_BYTES]
  }

  predicate AllDecode(p: Program) {
    forall k :: 0 <= k < |p.words| ==> Decode(p.words[k]).Success?
  }

  /** `pc` is in the code and its word decodes. */
  predicate Decodes(p: Program, pc: UInt32) {
    pc < CodeBytes(p) && Decode(WordAt(p, pc)).Success?
  }

  /** The instruction fetched from `pc`. */
  function InstAt(p: Program, pc: UInt32): (i: Instruction)
    requires Decodes(p, pc)
    ensures RegistersInRange(i)
  {
    Decode(WordAt(p, pc)).value
  }

  function NextPc(pc: UInt32): UInt32 {
    U32(pc + INSTRUCTION_BYTES)
  }
}

/** Opcodes, instruction formats and the decoded instruction record. */
module Isa {
  import opened Words

  datatype Opcode =
    | ADD | SUB | AND | OR | XOR | SLL | SRL | SLT
    | ADDI | ANDI | ORI | XORI | SLTI | LW | SW
    | BEQ | BNE | BLT
    | J | JAL | RET

  datatype Format = FormatR | FormatI | FormatB | FormatJ

  /** Fields an opcode's format does not use stay zero. */
  datatype Instruction = Instruction(op: Opcode, rd: UInt8, rs: UInt8, rt: UInt8, imm: Int32, target: UInt32)

  const NUM_REGISTERS: int := 16
  const RETURN_ADDR_REG: UInt8 := 15
  const INSTRUCTION_BYTES: int := 4

  const IMM_MIN: int := -131072
  const IMM_MAX: int := 131071

  function FormatOf(op: Opcode): Format {
    match op
    case ADD | SUB | AND | OR | XOR | SLL | SRL | SLT => FormatR
    case ADDI | ANDI | ORI | XORI | SLTI | LW | SW => FormatI
    case BEQ | BNE | BLT => FormatB
    case J | JAL | RET => FormatJ
  }

  predicate IsLoad(op: Opcode) { op == LW }

  predicate IsStore(op: Opcode) { op == SW }

  /** The 6-bit opcode field. */
  function OpcodeValue(op: Opcode): (v: nat)
    ensures v <= 20
  {
    match op
    case ADD => 0 case SUB => 1 case AND => 2 case OR => 3
    case XOR => 4 case SLL => 5 case SRL => 6 case SLT => 7
    case ADDI => 8 case ANDI => 9 case ORI => 10 case XORI => 11
    case SLTI => 12 case LW => 13 case SW => 14
    case BEQ => 15 case BNE => 16 case BLT => 17
    case J => 18 case JAL => 19 case RET => 20
  }

  function OpcodeOfValue(v: nat): (op: Opcode)
    requires v <= 20
    ensures OpcodeValue(op) == v
  {
    [ADD, SUB, AND, OR, XOR, SLL, SRL, SLT, ADDI, ANDI, ORI, XORI, SLTI, LW, SW,
     BEQ, BNE, BLT, J, JAL, RET][v]
  }

  /** The register fields of a legal instruction name architectural registers. */
  predicate RegistersInRange(i: Instruction) {
    i.rd < NUM_REGISTERS && i.rs < NUM_REGISTERS && i.rt < NUM_REGISTERS
  }
}

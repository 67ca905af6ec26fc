/** Rendering instructions as assembly text. */
module Disassembly {
  import opened Words
  import opened Isa

  function DigitChar(d: nat): (c: char)
    requires d < 10
    ensures '0' <= c <= '9' && c as int == '0' as int + d
  {
    ('0' as int + d) as char
  }

  /** The decimal digits of a natural number. */
  function PrintNat(n: nat): (s: string)
    ensures |s| >= 1
  {
    if n < 10 then [DigitChar(n)] else PrintNat(n / 10) + [DigitChar(n % 10)]
  }

  function PrintInt(i: int): string {
    if i < 0 then "-" + PrintNat(-i) else PrintNat(i)
  }

  function PrintReg(r: UInt8): string {
    "r" + PrintNat(r)
  }

  function Mnemonic(op: Opcode): string {
    match op
    case ADD => "add" case SUB => "sub" case AND => "and" case OR => "or"
    case XOR => "xor" case SLL => "sll" case SRL => "srl" case SLT => "slt"
    case ADDI => "addi" case ANDI => "andi" case ORI => "ori" case XORI => "xori"
    case SLTI => "slti" case LW => "lw" case SW => "sw"
    case BEQ => "beq" case BNE => "bne" case BLT => "blt"
    case J => "j" case JAL => "jal" case RET => "ret"
  }

  const COMMA: string := ", "

  function Disassemble(i: Instruction): string {
    match FormatOf(i.op)
    case FormatR =>
      if i.op == ADD && i.rd == 0 && i.rs == 0 && i.rt == 0 then "nop"
      else Mnemonic(i.op) + " " + PrintReg(i.rd) + COMMA + PrintReg(i.rs) + COMMA + PrintReg(i.rt)
    case FormatI =>
      if IsLoad(i.op) || IsStore(i.op) then
        Mnemonic(i.op) + " " + PrintReg(i.rd) + COMMA + PrintInt(i.imm) + "(" + PrintReg(i.rs) + ")"
      else
        Mnemonic(i.op) + " " + PrintReg(i.rd) + COMMA + PrintReg(i.rs) + COMMA + PrintInt(i.imm)
    case FormatB =>
      Mnemonic(i.op) + " " + PrintReg(i.rs) + COMMA + PrintReg(i.rt) + COMMA + PrintInt(i.imm)
    case FormatJ =>
      if i.op == RET then "ret" else Mnemonic(i.op) + " " + PrintInt(i.target)
  }
}

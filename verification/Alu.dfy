/** Arithmetic and branch conditions, shared by the two simulators. */
module Alu {
  import opened Words
  import opened Isa

  /** Wrap-around arithmetic; shifts use the low five bits and `SRL` is logical. */
  function AluResult(op: Opcode, a: Int32, b: Int32): Int32 {
    var ua, ub := U32(a), U32(b);
    var shamt := BitAnd(ub, 31);
    match op
    case ADD | ADDI => S32(ua + ub)
    case SUB => S32(ua - ub)
    case AND | ANDI => S32(BitAnd(ua, ub))
    case OR | ORI => S32(BitOr(ua, ub))
    case XOR | XORI => S32(BitXor(ua, ub))
    case SLL => S32(ua * Pow2(shamt))
    case SRL => S32(ua / Pow2(shamt))
    case SLT | SLTI => if a < b then 1 else 0
    case _ => 0
  }

  predicate BranchTaken(op: Opcode, a: Int32, b: Int32) {
    match op
    case BEQ => a == b
    case BNE => a != b
    case BLT => a < b
    case _ => false
  }
}

/** The ALU read bit by bit. */
module AluBits {
  import opened Words
  import opened Isa
  import opened Alu

  /** Bit `k` of a number, counted from the least significant. */
  predicate Bit(x: int, k: nat)
    decreases k
  {
    if k == 0 then x % 2 == 1 else Bit(x / 2, k - 1)
  }

  lemma {:induction false} ZeroBits(k: nat)
    ensures !Bit(0, k)
  {
    if k == 0 {
    } else {
      ZeroBits(k - 1);
    }
  }

  lemma {:induction false} AndBits(a: nat, b: nat, k: nat)
    ensures Bit(BitAnd(a, b), k) <==> Bit(a, k) && Bit(b, k)
  {
    ZeroBits(k);
    if a != 0 && b != 0 && k > 0 { AndBits(a / 2, b / 2, k - 1); }
  }

  lemma {:induction false} OrBits(a: nat, b: nat, k: nat)
    ensures Bit(BitOr(a, b), k) <==> Bit(a, k) || Bit(b, k)
  {
    ZeroBits(k);
    if a != 0 && b != 0 && k > 0 { OrBits(a / 2, b / 2, k - 1); }
  }

  lemma {:induction false} XorBits(a: nat, b: nat, k: nat)
    ensures Bit(BitXor(a, b), k) <==> Bit(a, k) != Bit(b, k)
  {
    ZeroBits(k);
    if a != 0 && b != 0 && k > 0 { XorBits(a / 2, b / 2, k - 1); }
  }

  /** Multiplying by 2^s moves every bit up by `s`. */
  lemma {:induction false} BitsMoveUp(x: nat, s: nat, k: nat)
    ensures Bit(x * Pow2(s), k) <==> k >= s && Bit(x, k - s)
  {
    if s == 0 {
    } else {
      var half := x * Pow2(s - 1);
      assert x * Pow2(s) == 2 * half;
      assert (2 * half) / 2 == half && (2 * half) % 2 == 0;
      if k > 0 { BitsMoveUp(x, s - 1, k - 1); }
    }
  }

  /** Dividing by 2^s moves every bit down by `s`. */
  lemma {:induction false} BitsMoveDown(x: nat, s: nat, k: nat)
    ensures Bit(x / Pow2(s), k) <==> Bit(x, k + s)
  {
    if s == 0 {
    } else {
      BitsMoveDown(x / 2, s - 1, k);
      DivideTwice(x, Pow2(s - 1));
    }
  }

  lemma DivideTwice(x: nat, d: nat)
    requires d > 0
    ensures x / (2 * d) == (x / 2) / d
  {
    var q, r := (x / 2) / d, (x / 2) % d;
    assert x / 2 == d * q + r;
    assert x == (2 * d) * q + (2 * r + x % 2) by {
      assert 2 * (d * q) == (2 * d) * q;
    }
    ModUnique(x, 2 * d, q, 2 * r + x % 2);
  }

  lemma HalvedRemainder(x: nat, h: nat)
    requires h > 0
    ensures (x % (2 * h)) / 2 == (x / 2) % h && (x % (2 * h)) % 2 == x % 2
  {
    HalveMod(x, h);
  }

  /** Taking the remainder modulo 2^n keeps the low `n` bits and clears the others. */
  lemma {:induction false} BitsOfRemainder(x: nat, n: nat, k: nat)
    ensures Bit(x % Pow2(n), k) <==> k < n && Bit(x, k)
  {
    if n == 0 {
      ZeroBits(k);
      assert x % 1 == 0;
    } else {
      HalvedRemainder(x, Pow2(n - 1));
      if k > 0 { BitsOfRemainder(x / 2, n - 1, k - 1); }
    }
  }

  lemma WordSize()
    ensures Pow2(32) == TWO_32
  {
    assert Pow2(8) == 0x100;
    assert Pow2(16) == 0x1_0000;
    assert Pow2(24) == 0x100_0000;
  }

  /** The five-bit shift amount. */
  function ShiftAmount(b: Int32): nat {
    U32(b) % 32
  }

  lemma ShiftMask(b: Int32)
    ensures BitAnd(U32(b), 31) == ShiftAmount(b)
  {
    assert Pow2(5) == 32;
    BitAndMask(U32(b), 5);
  }

  /** Bit `k` of a result, from the bits of its operands. */
  predicate ResultBit(op: Opcode, ua: UInt32, ub: UInt32, shift: nat, k: nat) {
    match op
    case AND | ANDI => Bit(ua, k) && Bit(ub, k)
    case OR | ORI => Bit(ua, k) || Bit(ub, k)
    case XOR | XORI => Bit(ua, k) != Bit(ub, k)
    case SLL => k >= shift && Bit(ua, k - shift)
    case SRL => Bit(ua, k + shift)
    case _ => false
  }

  predicate IsBitwise(op: Opcode) {
    op in {AND, ANDI, OR, ORI, XOR, XORI, SLL, SRL}
  }

  /** The logic and shift operations act bit by bit on the 32-bit patterns. */
  lemma LogicByBits(op: Opcode, a: Int32, b: Int32, k: nat)
    requires IsBitwise(op) && k < 32
    ensures Bit(U32(AluResult(op, a, b)), k) <==> ResultBit(op, U32(a), U32(b), ShiftAmount(b), k)
  {
    hide Bit, BitAnd, BitOr, BitXor, Pow2, S32, U32;
    var ua, ub, s := U32(a), U32(b), ShiftAmount(b);
    ShiftMask(b);
    WordSize();
    AndBits(ua, ub, k);
    OrBits(ua, ub, k);
    XorBits(ua, ub, k);
    BitsMoveUp(ua, s, k);
    BitsMoveDown(ua, s, k);
    TruncatedBit(BitAnd(ua, ub), k);
    TruncatedBit(BitOr(ua, ub), k);
    TruncatedBit(BitXor(ua, ub), k);
    TruncatedBit(ua * Pow2(s), k);
    TruncatedBit(ua / Pow2(s), k);
  }

  lemma TruncatedBit(x: nat, k: nat)
    requires k < 32
    ensures Bit(U32(S32(x)), k) <==> Bit(x, k)
  {
    hide Bit;
    WordSize();
    U32OfS32(x);
    BitsOfRemainder(x, 32, k);
  }

  lemma WrappedOperands(a: int, b: int)
    ensures U32(U32(a) + U32(b)) == U32(a + b) && U32(U32(a) - U32(b)) == U32(a - b)
  {
    var sum, difference := U32(a) + U32(b), U32(a) - U32(b);
    ModUnique(a + b, TWO_32, a / TWO_32 + b / TWO_32 + sum / TWO_32, U32(sum));
    ModUnique(a - b, TWO_32, a / TWO_32 - b / TWO_32 + difference / TWO_32, U32(difference));
  }

  /** Addition and subtraction are exact modulo 2^32; the set operations compare as signed. */
  lemma ArithmeticByWords(a: Int32, b: Int32)
    ensures U32(AluResult(ADD, a, b)) == U32(a + b) == U32(AluResult(ADDI, a, b))
    ensures U32(AluResult(SUB, a, b)) == U32(a - b)
    ensures AluResult(SLT, a, b) == AluResult(SLTI, a, b) == if a < b then 1 else 0
  {
    hide BitAnd, BitOr, BitXor, Pow2, U32, S32;
    WrappedOperands(a, b);
    U32OfS32(U32(a) + U32(b));
    U32OfS32(U32(a) - U32(b));
  }

  /** The branch conditions, in terms of the arithmetic: equal is a zero difference, less-than is what
      set-less-than computes, and nothing else branches. */
  lemma BranchConditions(a: Int32, b: Int32)
    ensures BranchTaken(BEQ, a, b) <==> AluResult(SUB, a, b) == 0
    ensures BranchTaken(BNE, a, b) <==> AluResult(SUB, a, b) != 0
    ensures BranchTaken(BLT, a, b) <==> AluResult(SLT, a, b) == 1
    ensures forall op :: BranchTaken(op, a, b) ==> op == BEQ || op == BNE || op == BLT
  {
    hide BitAnd, BitOr, BitXor, Pow2;
    var d := U32(a) - U32(b);
    if S32(d) == 0 {
      assert d == 0;
    }
  }
}

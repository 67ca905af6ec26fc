/** The 32-bit machine word: packing and unpacking of the four formats. */
module Encoding {
  import opened Words
  import opened Isa
  import opened Results

  datatype EncodingError = RegisterRange | ImmediateRange | TargetRange

  datatype DecodingError = UnknownOpcode(opcode: nat)

  // Shifting by a field's position multiplies or divides by these units.
  const UNIT_26: int := 0x400_0000
  const UNIT_22: int := 0x40_0000
  const UNIT_18: int := 0x4_0000
  const UNIT_14: int := 0x4000

  const REG_MASK: int := 0xF
  const OPCODE_MASK: int := 0x3F
  const IMM_MASK: int := 0x3_FFFF
  const TARGET_MASK: int := 0x3FF_FFFF

  // ---- The codec ---------------------------------------------------------------

  predicate ImmInRange(imm: int) {
    IMM_MIN <= imm <= IMM_MAX
  }

  /** `(v ^ m) - m` with `m` the sign bit of a `bits`-wide field, in 32-bit arithmetic. */
  function SignExtend(v: nat, bits: nat): Int32
    requires bits > 0
  {
    var m := Pow2(bits - 1);
    S32(U32(BitXor(v, m)) - m)
  }

  function RegField(r: UInt8): nat {
    BitAnd(r, REG_MASK)
  }

  function ImmField(imm: Int32): nat {
    BitAnd(U32(imm), IMM_MASK)
  }

  /** The opcode and the two register slots every format but J fills. */
  function TwoSlots(op: Opcode, upper: UInt8, middle: UInt8): nat {
    BitOr(BitOr(OpcodeValue(op) * UNIT_26, RegField(upper) * UNIT_22), RegField(middle) * UNIT_18)
  }

  function Encode(i: Instruction): Result<UInt32, EncodingError> {
    match FormatOf(i.op)
    case FormatR =>
      if i.rd >= NUM_REGISTERS || i.rs >= NUM_REGISTERS || i.rt >= NUM_REGISTERS then Failure(RegisterRange)
      else Success(U32(BitOr(TwoSlots(i.op, i.rd, i.rs), RegField(i.rt) * UNIT_14)))
    case FormatI =>
      if i.rd >= NUM_REGISTERS || i.rs >= NUM_REGISTERS then Failure(RegisterRange)
      else if !ImmInRange(i.imm) then Failure(ImmediateRange)
      else Success(U32(BitOr(TwoSlots(i.op, i.rd, i.rs), ImmField(i.imm))))
    case FormatB =>
      if i.rs >= NUM_REGISTERS || i.rt >= NUM_REGISTERS then Failure(RegisterRange)
      else if !ImmInRange(i.imm) then Failure(ImmediateRange)
      else Success(U32(BitOr(TwoSlots(i.op, i.rs, i.rt), ImmField(i.imm))))
    case FormatJ =>
      if i.target > TARGET_MASK then Failure(TargetRange)
      else Success(U32(BitOr(OpcodeValue(i.op) * UNIT_26, BitAnd(i.target, TARGET_MASK))))
  }

  function OpcodeField(word: UInt32): nat {
    BitAnd(word / UNIT_26, OPCODE_MASK)
  }

  function UpperSlot(word: UInt32): (r: UInt8)
    ensures r < NUM_REGISTERS
  {
    RegMaskIsMod(word / UNIT_22);
    BitAnd(word / UNIT_22, REG_MASK)
  }

  function MiddleSlot(word: UInt32): (r: UInt8)
    ensures r < NUM_REGISTERS
  {
    RegMaskIsMod(word / UNIT_18);
    BitAnd(word / UNIT_18, REG_MASK)
  }

  function LowerSlot(word: UInt32): (r: UInt8)
    ensures r < NUM_REGISTERS
  {
    RegMaskIsMod(word / UNIT_14);
    BitAnd(word / UNIT_14, REG_MASK)
  }

  function ImmAt(word: UInt32): Int32 {
    SignExtend(BitAnd(word, IMM_MASK), 18)
  }

  function TargetAt(word: UInt32): (t: UInt32)
    ensures t <= TARGET_MASK
  {
    TargetMaskIsMod(word);
    BitAnd(word, TARGET_MASK)
  }

  function Decode(word: UInt32): (r: Result<Instruction, DecodingError>)
    ensures r.Success? ==> RegistersInRange(r.value)
  {
    var opv := OpcodeField(word);
    if opv > 20 then Failure(UnknownOpcode(opv))
    else
      var op := OpcodeOfValue(opv);
      match FormatOf(op)
      case FormatR => Success(Instruction(op, UpperSlot(word), MiddleSlot(word), LowerSlot(word), 0, 0))
      case FormatI => Success(Instruction(op, UpperSlot(word), MiddleSlot(word), 0, ImmAt(word), 0))
      case FormatB => Success(Instruction(op, 0, UpperSlot(word), MiddleSlot(word), ImmAt(word), 0))
      case FormatJ => Success(Instruction(op, 0, 0, 0, 0, TargetAt(word)))
  }

  // ---- What an instruction must satisfy ------------------------------------------

  /** Every field the format uses fits its bits. */
  predicate UsedFieldsInRange(i: Instruction) {
    match FormatOf(i.op)
    case FormatR => i.rd < NUM_REGISTERS && i.rs < NUM_REGISTERS && i.rt < NUM_REGISTERS
    case FormatI => i.rd < NUM_REGISTERS && i.rs < NUM_REGISTERS && ImmInRange(i.imm)
    case FormatB => i.rs < NUM_REGISTERS && i.rt < NUM_REGISTERS && ImmInRange(i.imm)
    case FormatJ => i.target <= TARGET_MASK
  }

  /** The fields the format does not use hold zero. */
  predicate UnusedFieldsZero(i: Instruction) {
    match FormatOf(i.op)
    case FormatR => i.imm == 0 && i.target == 0
    case FormatI => i.rt == 0 && i.target == 0
    case FormatB => i.rd == 0 && i.target == 0
    case FormatJ => i.rd == 0 && i.rs == 0 && i.rt == 0 && i.imm == 0
  }

  // ---- Bit operations as arithmetic ----------------------------------------------

  lemma PowerTable()
    ensures Pow2(4) == 16 && Pow2(6) == 64 && Pow2(14) == UNIT_14 && Pow2(17) == 0x2_0000
    ensures Pow2(18) == UNIT_18 && Pow2(22) == UNIT_22 && Pow2(26) == UNIT_26
  {
  }

  lemma RegMaskIsMod(x: nat)
    ensures BitAnd(x, REG_MASK) == x % 16
  {
    hide BitAnd, Pow2;
    PowerTable();
    BitAndMask(x, 4);
  }

  lemma OpcodeMaskIsMod(x: nat)
    ensures BitAnd(x, OPCODE_MASK) == x % 64
  {
    hide BitAnd, Pow2;
    PowerTable();
    BitAndMask(x, 6);
  }

  lemma ImmMaskIsMod(x: nat)
    ensures BitAnd(x, IMM_MASK) == x % UNIT_18
  {
    hide BitAnd, Pow2;
    PowerTable();
    BitAndMask(x, 18);
  }

  lemma TargetMaskIsMod(x: nat)
    ensures BitAnd(x, TARGET_MASK) == x % UNIT_26
  {
    hide BitAnd, Pow2;
    PowerTable();
    BitAndMask(x, 26);
  }

  lemma RegFieldIsReg(r: UInt8)
    requires r < NUM_REGISTERS
    ensures RegField(r) == r
  {
    hide BitAnd;
    RegMaskIsMod(r);
  }

  /** The 18 bits that store an immediate. */
  function ImmBits(imm: int): int {
    if imm < 0 then imm + UNIT_18 else imm
  }

  lemma ImmFieldIsBits(imm: Int32)
    requires ImmInRange(imm)
    ensures ImmField(imm) == ImmBits(imm)
  {
    hide BitAnd;
    var u := U32(imm);
    ImmMaskIsMod(u);
    assert u == if imm < 0 then imm + TWO_32 else imm;
    assert u % UNIT_18 == ImmBits(imm);
  }

  lemma SignExtendIs(v: nat)
    requires v < UNIT_18
    ensures SignExtend(v, 18) == if v < 0x2_0000 then v else v - UNIT_18
  {
    hide BitXor, Pow2;
    XorSignBit(v);
    PowerTable();
    var x := BitXor(v, 0x2_0000);
    assert U32(x) == x;
  }

  lemma XorSignBit(v: nat)
    requires v < UNIT_18
    ensures BitXor(v, 0x2_0000) == if v < 0x2_0000 then v + 0x2_0000 else v - 0x2_0000
  {
    hide BitXor, Pow2;
    PowerTable();
    BitXorTop(v, 17);
  }

  /** Sign extension inverts the truncation to 18 bits exactly on the immediate range. */
  lemma SignExtendInvertsTruncation(imm: Int32)
    ensures ImmInRange(imm) <==> SignExtend(ImmField(imm), 18) == imm
  {
    hide BitAnd, SignExtend;
    var u := U32(imm);
    ImmMaskIsMod(u);
    SignExtendIs(u % UNIT_18);
    if ImmInRange(imm) { ImmFieldIsBits(imm); }
  }

  lemma OrUpper(h: nat, f: nat)
    requires f < 16
    ensures BitOr(h * UNIT_26, f * UNIT_22) == (h * 16 + f) * UNIT_22
  {
    hide BitOr, Pow2;
    PowerTable();
    BitOrDisjoint(h, f * UNIT_22, 26);
  }

  lemma OrMiddle(h: nat, f: nat)
    requires f < 16
    ensures BitOr(h * UNIT_22, f * UNIT_18) == (h * 16 + f) * UNIT_18
  {
    hide BitOr, Pow2;
    PowerTable();
    BitOrDisjoint(h, f * UNIT_18, 22);
  }

  lemma OrLower(h: nat, f: nat)
    requires f < 16
    ensures BitOr(h * UNIT_18, f * UNIT_14) == (h * 16 + f) * UNIT_14
  {
    hide BitOr, Pow2;
    PowerTable();
    BitOrDisjoint(h, f * UNIT_14, 18);
  }

  lemma OrImm(h: nat, f: nat)
    requires f < UNIT_18
    ensures BitOr(h * UNIT_18, f) == h * UNIT_18 + f
  {
    hide BitOr, Pow2;
    PowerTable();
    BitOrDisjoint(h, f, 18);
  }

  lemma OrTarget(h: nat, f: nat)
    requires f < UNIT_26
    ensures BitOr(h * UNIT_26, f) == h * UNIT_26 + f
  {
    hide BitOr, Pow2;
    PowerTable();
    BitOrDisjoint(h, f, 26);
  }

  /** The opcode and two register slots as one mixed-radix number. */
  function Head(op: Opcode, upper: int, middle: int): int {
    (OpcodeValue(op) * 16 + upper) * 16 + middle
  }

  lemma TwoSlotsIsHead(op: Opcode, upper: UInt8, middle: UInt8)
    requires upper < NUM_REGISTERS && middle < NUM_REGISTERS
    ensures 0 <= Head(op, upper, middle) < 21 * 256
    ensures TwoSlots(op, upper, middle) == Head(op, upper, middle) * UNIT_18
  {
    hide BitOr, RegField;
    RegFieldIsReg(upper);
    RegFieldIsReg(middle);
    OrUpper(OpcodeValue(op), upper);
    OrMiddle(OpcodeValue(op) * 16 + upper, middle);
  }

  lemma EncodedFormR(i: Instruction)
    requires FormatOf(i.op) == FormatR && UsedFieldsInRange(i)
    ensures Encode(i) == Success((Head(i.op, i.rd, i.rs) * 16 + i.rt) * UNIT_14)
  {
    hide BitOr, TwoSlots, RegField, ImmField;
    TwoSlotsIsHead(i.op, i.rd, i.rs);
    RegFieldIsReg(i.rt);
    OrLower(Head(i.op, i.rd, i.rs), i.rt);
  }

  lemma EncodedFormI(i: Instruction)
    requires FormatOf(i.op) == FormatI && UsedFieldsInRange(i)
    ensures Encode(i) == Success(Head(i.op, i.rd, i.rs) * UNIT_18 + ImmBits(i.imm))
  {
    hide BitOr, TwoSlots, RegField, ImmField;
    TwoSlotsIsHead(i.op, i.rd, i.rs);
    ImmFieldIsBits(i.imm);
    OrImm(Head(i.op, i.rd, i.rs), ImmBits(i.imm));
  }

  lemma EncodedFormB(i: Instruction)
    requires FormatOf(i.op) == FormatB && UsedFieldsInRange(i)
    ensures Encode(i) == Success(Head(i.op, i.rs, i.rt) * UNIT_18 + ImmBits(i.imm))
  {
    hide BitOr, TwoSlots, RegField, ImmField;
    TwoSlotsIsHead(i.op, i.rs, i.rt);
    ImmFieldIsBits(i.imm);
    OrImm(Head(i.op, i.rs, i.rt), ImmBits(i.imm));
  }

  lemma EncodedFormJ(i: Instruction)
    requires FormatOf(i.op) == FormatJ && UsedFieldsInRange(i)
    ensures Encode(i) == Success(OpcodeValue(i.op) * UNIT_26 + i.target)
  {
    hide BitOr, BitAnd;
    TargetMaskIsMod(i.target);
    OrTarget(OpcodeValue(i.op), i.target);
  }

  /** What the decoder's slots read, as digits of the word. */
  lemma SlotsAreDigits(word: UInt32)
    ensures OpcodeField(word) == word / UNIT_26
    ensures UpperSlot(word) == (word / UNIT_22) % 16
    ensures MiddleSlot(word) == (word / UNIT_18) % 16
    ensures LowerSlot(word) == (word / UNIT_14) % 16
    ensures TargetAt(word) == word % UNIT_26
  {
    hide BitAnd, OpcodeField;
    OpcodeFieldIsDigit(word);
    RegMaskIsMod(word / UNIT_22);
    RegMaskIsMod(word / UNIT_18);
    RegMaskIsMod(word / UNIT_14);
    TargetMaskIsMod(word);
  }

  lemma OpcodeFieldIsDigit(word: UInt32)
    ensures OpcodeField(word) == word / UNIT_26
  {
    hide BitAnd;
    OpcodeMaskIsMod(word / UNIT_26);
  }

  lemma ImmAtIs(word: UInt32)
    ensures ImmAt(word) == if word % UNIT_18 < 0x2_0000 then word % UNIT_18 else word % UNIT_18 - UNIT_18
  {
    hide BitAnd, SignExtend;
    ImmMaskIsMod(word);
    SignExtendIs(word % UNIT_18);
  }

  lemma OpcodeValueRoundTrip(op: Opcode)
    ensures OpcodeOfValue(OpcodeValue(op)) == op
  {
  }

  // ---- The round trips -------------------------------------------------------------

  /** Encoding fails exactly when a field that is used does not fit. */
  lemma EncodeFailsExactly(i: Instruction)
    ensures Encode(i).Success? <==> UsedFieldsInRange(i)
  {
  }

  /** Decoding fails exactly on opcode fields above `RET`. */
  lemma DecodeFailsExactly(word: UInt32)
    ensures Decode(word).Failure? <==> word / UNIT_26 > 20
  {
    SlotsAreDigits(word);
  }

  lemma HeadDigits(op: Opcode, a: int, b: int, low: int, word: UInt32)
    requires 0 <= a < 16 && 0 <= b < 16 && 0 <= low < UNIT_18
    requires word == Head(op, a, b) * UNIT_18 + low
    ensures word / UNIT_26 == OpcodeValue(op)
    ensures (word / UNIT_22) % 16 == a && (word / UNIT_18) % 16 == b && word % UNIT_18 == low
  {
    assert word / UNIT_18 == Head(op, a, b);
    assert word / UNIT_22 == Head(op, a, b) / 16 == OpcodeValue(op) * 16 + a;
  }

  lemma DecodeEncodeR(i: Instruction, word: UInt32)
    requires FormatOf(i.op) == FormatR && UsedFieldsInRange(i) && UnusedFieldsZero(i)
    requires word == (Head(i.op, i.rd, i.rs) * 16 + i.rt) * UNIT_14
    ensures Decode(word) == Success(i)
  {
    hide BitAnd, BitXor, OpcodeField, UpperSlot, MiddleSlot, LowerSlot, TargetAt, ImmAt, OpcodeOfValue, OpcodeValue;
    HeadDigits(i.op, i.rd, i.rs, i.rt * UNIT_14, word);
    SlotsAreDigits(word);
    OpcodeValueRoundTrip(i.op);
    assert word / UNIT_14 == Head(i.op, i.rd, i.rs) * 16 + i.rt;
  }

  lemma DecodeEncodeI(i: Instruction, word: UInt32)
    requires FormatOf(i.op) == FormatI && UsedFieldsInRange(i) && UnusedFieldsZero(i)
    requires word == Head(i.op, i.rd, i.rs) * UNIT_18 + ImmBits(i.imm)
    ensures Decode(word) == Success(i)
  {
    hide BitAnd, BitXor, OpcodeField, UpperSlot, MiddleSlot, LowerSlot, TargetAt, ImmAt, OpcodeOfValue, OpcodeValue;
    HeadDigits(i.op, i.rd, i.rs, ImmBits(i.imm), word);
    SlotsAreDigits(word);
    OpcodeValueRoundTrip(i.op);
    ImmAtIs(word);
  }

  lemma DecodeEncodeB(i: Instruction, word: UInt32)
    requires FormatOf(i.op) == FormatB && UsedFieldsInRange(i) && UnusedFieldsZero(i)
    requires word == Head(i.op, i.rs, i.rt) * UNIT_18 + ImmBits(i.imm)
    ensures Decode(word) == Success(i)
  {
    hide BitAnd, BitXor, OpcodeField, UpperSlot, MiddleSlot, LowerSlot, TargetAt, ImmAt, OpcodeOfValue, OpcodeValue;
    HeadDigits(i.op, i.rs, i.rt, ImmBits(i.imm), word);
    SlotsAreDigits(word);
    OpcodeValueRoundTrip(i.op);
    ImmAtIs(word);
  }

  lemma DecodeEncodeJ(i: Instruction, word: UInt32)
    requires FormatOf(i.op) == FormatJ && UsedFieldsInRange(i) && UnusedFieldsZero(i)
    requires word == OpcodeValue(i.op) * UNIT_26 + i.target
    ensures Decode(word) == Success(i)
  {
    hide BitAnd, BitXor, OpcodeField, UpperSlot, MiddleSlot, LowerSlot, TargetAt, ImmAt, OpcodeOfValue, OpcodeValue;
    SlotsAreDigits(word);
    OpcodeValueRoundTrip(i.op);
  }

  /** Whatever encodes decodes to itself. */
  lemma DecodeEncode(i: Instruction)
    requires UnusedFieldsZero(i)
    ensures Encode(i).Success? ==> Decode(Encode(i).value) == Success(i)
  {
    if UsedFieldsInRange(i) {
      match FormatOf(i.op)
      case FormatR => EncodedFormR(i); DecodeEncodeR(i, Encode(i).value);
      case FormatI => EncodedFormI(i); DecodeEncodeI(i, Encode(i).value);
      case FormatB => EncodedFormB(i); DecodeEncodeB(i, Encode(i).value);
      case FormatJ => EncodedFormJ(i); DecodeEncodeJ(i, Encode(i).value);
    }
  }

  lemma WordFromDigits(word: UInt32)
    ensures word == (((word / UNIT_26) * 16 + (word / UNIT_22) % 16) * 16 + (word / UNIT_18) % 16) * UNIT_18 +
      word % UNIT_18
    ensures word - word % UNIT_14 == ((word / UNIT_18) * 16 + (word / UNIT_14) % 16) * UNIT_14
  {
    assert (word / UNIT_22) / 16 == word / UNIT_26;
    assert (word / UNIT_18) / 16 == word / UNIT_22;
    assert (word / UNIT_14) / 16 == word / UNIT_18;
  }

  lemma DecodedFields(word: UInt32)
    ensures Decode(word).Success? ==>
      UnusedFieldsZero(Decode(word).value) && UsedFieldsInRange(Decode(word).value)
  {
    ImmAtIs(word);
  }

  lemma EncodeDecodeR(word: UInt32, i: Instruction)
    requires Decode(word) == Success(i) && FormatOf(i.op) == FormatR
    ensures Encode(i) == Success(word - word % UNIT_14)
  {
    hide BitAnd, BitXor, OpcodeField, UpperSlot, MiddleSlot, LowerSlot, TargetAt, ImmAt, BitOr, TwoSlots, Encode;
    DecodedFields(word);
    SlotsAreDigits(word);
    EncodedFormR(i);
    WordFromDigits(word);
  }

  lemma EncodeDecodeI(word: UInt32, i: Instruction)
    requires Decode(word) == Success(i) && FormatOf(i.op) == FormatI
    ensures Encode(i) == Success(word)
  {
    hide BitAnd, BitXor, OpcodeField, UpperSlot, MiddleSlot, LowerSlot, TargetAt, ImmAt, BitOr, TwoSlots, Encode;
    DecodedFields(word);
    SlotsAreDigits(word);
    EncodedFormI(i);
    ImmAtIs(word);
    assert ImmBits(i.imm) == word % UNIT_18;
    WordFromDigits(word);
  }

  lemma EncodeDecodeB(word: UInt32, i: Instruction)
    requires Decode(word) == Success(i) && FormatOf(i.op) == FormatB
    ensures Encode(i) == Success(word)
  {
    hide BitAnd, BitXor, OpcodeField, UpperSlot, MiddleSlot, LowerSlot, TargetAt, ImmAt, BitOr, TwoSlots, Encode;
    DecodedFields(word);
    SlotsAreDigits(word);
    EncodedFormB(i);
    ImmAtIs(word);
    assert ImmBits(i.imm) == word % UNIT_18;
    WordFromDigits(word);
  }

  lemma EncodeDecodeJ(word: UInt32, i: Instruction)
    requires Decode(word) == Success(i) && FormatOf(i.op) == FormatJ
    ensures Encode(i) == Success(word)
  {
    hide BitAnd, BitXor, OpcodeField, UpperSlot, MiddleSlot, LowerSlot, TargetAt, ImmAt, BitOr, TwoSlots, Encode;
    DecodedFields(word);
    SlotsAreDigits(word);
    EncodedFormJ(i);
  }

  /** Re-encoding a decoded word gives the word back; an R-type word loses its 14 unused bits. */
  lemma EncodeDecode(word: UInt32)
    ensures Decode(word).Success? ==>
      Encode(Decode(word).value) ==
      Success(if FormatOf(Decode(word).value.op) == FormatR then word - word % UNIT_14 else word)
  {
    var r := Decode(word);
    if r.Success? {
      match FormatOf(r.value.op)
      case FormatR => EncodeDecodeR(word, r.value);
      case FormatI => EncodeDecodeI(word, r.value);
      case FormatB => EncodeDecodeB(word, r.value);
      case FormatJ => EncodeDecodeJ(word, r.value);
    }
  }
}

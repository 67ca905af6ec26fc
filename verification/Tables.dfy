/** The instruction tables of the documentation. */
module Tables {
  import opened Isa
  import opened Results
  import opened Disassembly
  import opened Assembler
  import opened RoundTrip

  /** The mnemonics in the order of their opcode numbers. */
  const MNEMONICS: seq<string> := [
    "add", "sub", "and", "or", "xor", "sll", "srl", "slt",
    "addi", "andi", "ori", "xori", "slti", "lw", "sw",
    "beq", "bne", "blt", "j", "jal", "ret"]

  /** Numbers and mnemonics agree with that order, and each format takes an interval of it: R up to 7, I
      up to 14 with `lw` and `sw` last, B up to 17, J up to 20. */
  lemma OpcodeTable(op: Opcode)
    ensures OpcodeValue(op) < |MNEMONICS| && Mnemonic(op) == MNEMONICS[OpcodeValue(op)]
    ensures FormatOf(op) == FormatR <==> OpcodeValue(op) <= 7
    ensures FormatOf(op) == FormatI <==> 8 <= OpcodeValue(op) <= 14
    ensures FormatOf(op) == FormatB <==> 15 <= OpcodeValue(op) <= 17
    ensures IsLoad(op) <==> OpcodeValue(op) == 13
    ensures IsStore(op) <==> OpcodeValue(op) == 14
  {
  }

  /** The assembler knows exactly these mnemonics, and `halt` for `ret`. */
  lemma LookupExactly(name: string, op: Opcode)
    ensures LookupOpcode(name) == Some(op) <==> name == Mnemonic(op) || (name == "halt" && op == RET)
  {
    hide Mnemonic;
    MnemonicNamesOpcode(op);
    LookupNamed(name);
  }

  lemma LookupNamed(name: string)
    ensures LookupOpcode(name).Some? ==>
      name == Mnemonic(LookupOpcode(name).value) || (name == "halt" && LookupOpcode(name).value == RET)
  {
  }
}

/** Agreement of the assembler's two passes, and independence from label names. */
module TwoPass {
  import opened Words
  import opened Isa
  import opened Results
  import opened Encoding
  import opened Programs
  import opened Tracing
  import opened Syntax
  import opened Assembler

  /** The instruction statements among the first `n` statements. */
  function CommandsBefore(stmts: seq<Statement>, n: nat): (k: nat)
    requires n <= |stmts|
    ensures k <= n
  {
    if n == 0 then 0 else CommandsBefore(stmts, n - 1) + (if stmts[n - 1].Command? then 1 else 0)
  }

  lemma {:induction false} AddressIsCount(stmts: seq<Statement>, n: nat)
    requires n <= |stmts|
    ensures AddressAfter(stmts, n) == U32(INSTRUCTION_BYTES * CommandsBefore(stmts, n))
  {
    if n == 0 {
    } else {
      AddressIsCount(stmts, n - 1);
      WrapsOnce(INSTRUCTION_BYTES * CommandsBefore(stmts, n - 1));
    }
  }

  lemma WrapsOnce(x: int)
    ensures U32(U32(x) + INSTRUCTION_BYTES) == U32(x + INSTRUCTION_BYTES)
  {
  }

  lemma {:induction false} CommandsMonotone(stmts: seq<Statement>, i: nat, n: nat)
    requires i < n <= |stmts| && stmts[i].Command?
    ensures CommandsBefore(stmts, i) < CommandsBefore(stmts, n)
    decreases n
  {
    if i + 1 < n {
      CommandsMonotone(stmts, i, n - 1);
    } else {
      assert CommandsBefore(stmts, n) == CommandsBefore(stmts, i) + 1;
    }
  }

  /** What pass 1 records: each label once, at the address of the statements before it. */
  ghost predicate TableRight(stmts: seq<Statement>, n: nat, symbols: Symbols)
    requires n <= |stmts|
  {
    && (forall i :: 0 <= i < n && stmts[i].LabelDef? ==>
          stmts[i].name in symbols && symbols[stmts[i].name] == AddressAfter(stmts, i))
    && (forall i, j :: 0 <= i < j < n && stmts[i].LabelDef? && stmts[j].LabelDef? ==> stmts[i].name != stmts[j].name)
    && (forall l :: l in symbols ==> exists i :: 0 <= i < n && stmts[i] == LabelDef(l, stmts[i].line))
  }

  lemma {:induction false} PassOneRight(stmts: seq<Statement>, n: nat)
    requires n <= |stmts| && Collect(stmts, n).Success?
    ensures TableRight(stmts, n, Collect(stmts, n).value)
  {
    hide AddressAfter;
    if n == 0 {
    } else {
      PassOneRight(stmts, n - 1);
      var before, now := Collect(stmts, n - 1).value, Collect(stmts, n).value;
      forall l | l in now
        ensures exists i :: 0 <= i < n && stmts[i] == LabelDef(l, stmts[i].line)
      {
        if l !in before { assert stmts[n - 1] == LabelDef(l, stmts[n - 1].line); }
      }
    }
  }

  /** The word of the `k`-th instruction statement is what `Assembled` says. */
  predicate EmittedRight(stmts: seq<Statement>, p: Program, i: nat)
    requires i < |stmts| && stmts[i].Command?
  {
    var k := CommandsBefore(stmts, i);
    && k < |p.words| && k < |p.instructions| && k < |p.sourceLines|
    && Assembled(p.symbols, stmts[i], AddressAfter(stmts, i)) == Success((p.instructions[k], p.words[k]))
    && p.sourceLines[k] == stmts[i].line
  }

  lemma {:induction false} PassTwoRight(stmts: seq<Statement>, symbols: Symbols, n: nat)
    requires n <= |stmts| && Emit(stmts, symbols, n).Success?
    ensures var p := Emit(stmts, symbols, n).value;
      && |p.words| == |p.instructions| == |p.sourceLines| == CommandsBefore(stmts, n) && p.symbols == symbols
      && forall i :: 0 <= i < n && stmts[i].Command? ==> EmittedRight(stmts, p, i)
  {
    hide Assembled, AddressAfter;
    if n == 0 {
    } else {
      PassTwoRight(stmts, symbols, n - 1);
      var before, p := Emit(stmts, symbols, n - 1).value, Emit(stmts, symbols, n).value;
      forall i | 0 <= i < n && stmts[i].Command?
        ensures EmittedRight(stmts, p, i)
      {
        if i < n - 1 {
          assert EmittedRight(stmts, before, i);
          CommandsMonotone(stmts, i, n - 1);
        }
      }
    }
  }

  lemma TranslatedFieldsZero(symbols: Symbols, name: string, ops: seq<Operand>, address: UInt32)
    ensures Translate(symbols, name, ops, address).Success? ==>
      UnusedFieldsZero(Translate(symbols, name, ops, address).value)
  {
    hide BranchOffset;
  }

  /** An assembled word decodes to the instruction recorded beside it. */
  lemma AssembledDecodes(symbols: Symbols, s: Statement, address: UInt32)
    requires s.Command? && Assembled(symbols, s, address).Success?
    ensures var (i, w) := Assembled(symbols, s, address).value;
      Translate(symbols, s.name, s.operands, address) == Success(i) && Encode(i) == Success(w) &&
        Decode(w) == Success(i)
  {
    hide Encode, Decode, Translate;
    TranslatedFieldsZero(symbols, s.name, s.operands, address);
    DecodeEncode(Translate(symbols, s.name, s.operands, address).value);
  }

  /** The statement behind the `k`-th word. */
  lemma {:induction false} CommandOfWord(stmts: seq<Statement>, k: nat, n: nat) returns (i: nat)
    requires n <= |stmts| && k < CommandsBefore(stmts, n)
    ensures i < n && stmts[i].Command? && CommandsBefore(stmts, i) == k
  {
    if k < CommandsBefore(stmts, n - 1) {
      i := CommandOfWord(stmts, k, n - 1);
    } else {
      i := n - 1;
    }
  }

  /** The image pass 2 emits and the table pass 1 collects describe the same program. */
  ghost predicate Faithful(stmts: seq<Statement>, p: Program) {
    && |p.words| == |p.instructions| == |p.sourceLines| == CommandsBefore(stmts, |stmts|)
    && TableRight(stmts, |stmts|, p.symbols)
    && (forall k :: 0 <= k < |p.words| ==> Decode(p.words[k]) == Success(p.instructions[k]))
    && (forall i :: 0 <= i < |stmts| && stmts[i].Command? ==> EmittedRight(stmts, p, i))
  }

  lemma AssemblyIsFaithful(stmts: seq<Statement>)
    requires AssembleStatements(stmts).Success?
    ensures Faithful(stmts, AssembleStatements(stmts).value)
    ensures AllDecode(AssembleStatements(stmts).value) && Parallel(AssembleStatements(stmts).value)
  {
    hide Decode, Assembled, TableRight, AddressAfter;
    var p := AssembleStatements(stmts).value;
    PassOneRight(stmts, |stmts|);
    PassTwoRight(stmts, Collect(stmts, |stmts|).value, |stmts|);
    forall k | 0 <= k < |p.words|
      ensures Decode(p.words[k]) == Success(p.instructions[k])
    {
      var i := CommandOfWord(stmts, k, |stmts|);
      assert EmittedRight(stmts, p, i);
      AssembledDecodes(p.symbols, stmts[i], AddressAfter(stmts, i));
    }
  }

  /** Small enough that addresses do not wrap. */
  predicate FitsAddresses(stmts: seq<Statement>) {
    CommandsBefore(stmts, |stmts|) < 0x4000_0000
  }

  lemma {:induction false} CommandsGrow(stmts: seq<Statement>, i: nat, n: nat)
    requires i <= n <= |stmts|
    ensures CommandsBefore(stmts, i) <= CommandsBefore(stmts, n)
    decreases n
  {
    if i == n {
    } else {
      CommandsGrow(stmts, i, n - 1);
    }
  }

  lemma ExactAddress(stmts: seq<Statement>, i: nat)
    requires FitsAddresses(stmts) && i <= |stmts|
    ensures AddressAfter(stmts, i) == INSTRUCTION_BYTES * CommandsBefore(stmts, i)
  {
    AddressIsCount(stmts, i);
    CommandsGrow(stmts, i, |stmts|);
  }

  /** A transfer at `address` written with a label leads to the label's symbol. */
  predicate TargetsLabels(symbols: Symbols, inst: Instruction, ops: seq<Operand>, address: int) {
    && (FormatOf(inst.op) == FormatB ==>
          |ops| == 3 &&
          (ops[2].LabelOperand? ==> ops[2].name in symbols && address + inst.imm == symbols[ops[2].name]))
    && (inst.op == J || inst.op == JAL ==>
          |ops| == 1 &&
          (ops[0].LabelOperand? ==> ops[0].name in symbols && inst.target == symbols[ops[0].name]))
  }

  lemma TranslatedTargets(symbols: Symbols, name: string, ops: seq<Operand>, address: UInt32)
    requires Translate(symbols, name, ops, address).Success?
    ensures TargetsLabels(symbols, Translate(symbols, name, ops, address).value, ops, address)
  {
  }

  /** Both passes agree on every address: a label's symbol is four times the number of
      instructions before it, whether it is used before or after its definition; a branch's own
      address plus its decoded offset, and a jump's decoded target, are the symbol. */
  lemma TwoPassAgreement(stmts: seq<Statement>, i: nat)
    requires AssembleStatements(stmts).Success? && FitsAddresses(stmts) && i < |stmts|
    ensures var p := AssembleStatements(stmts).value;
      && (stmts[i].LabelDef? ==>
            stmts[i].name in p.symbols && p.symbols[stmts[i].name] == INSTRUCTION_BYTES * CommandsBefore(stmts, i))
      && (stmts[i].Command? ==>
            var k := CommandsBefore(stmts, i);
            k < |p.words| && Decode(p.words[k]).Success? &&
            var inst := Decode(p.words[k]).value;
            TargetsLabels(p.symbols, inst, stmts[i].operands, INSTRUCTION_BYTES * k))
  {
    hide Decode, Assembled, AddressAfter, CommandsBefore, FitsAddresses, AssembleStatements;
    AssemblyIsFaithful(stmts);
    ExactAddress(stmts, i);
    if stmts[i].Command? {
      var p := AssembleStatements(stmts).value;
      assert EmittedRight(stmts, p, i);
      AssembledDecodes(p.symbols, stmts[i], AddressAfter(stmts, i));
      TranslatedTargets(p.symbols, stmts[i].name, stmts[i].operands, AddressAfter(stmts, i));
    }
  }

  // ---- Label names ---------------------------------------------------------------------------

  function RenameOperand(ren: string -> string, o: Operand): Operand {
    if o.LabelOperand? then LabelOperand(ren(o.name)) else o
  }

  function RenameOperands(ren: string -> string, ops: seq<Operand>): (r: seq<Operand>)
    ensures |r| == |ops| && forall i :: 0 <= i < |ops| ==> r[i] == RenameOperand(ren, ops[i])
  {
    seq(|ops|, i requires 0 <= i < |ops| => RenameOperand(ren, ops[i]))
  }

  /** Labels renamed in a definition, or in the operands of an instruction. */
  function RenameStatement(ren: string -> string, s: Statement): Statement {
    match s
    case LabelDef(name, line) => LabelDef(ren(name), line)
    case Command(name, ops, line) => Command(name, RenameOperands(ren, ops), line)
  }

  function Rename(ren: string -> string, stmts: seq<Statement>): (r: seq<Statement>)
    ensures |r| == |stmts| && forall i :: 0 <= i < |stmts| ==> r[i] == RenameStatement(ren, stmts[i])
  {
    seq(|stmts|, i requires 0 <= i < |stmts| => RenameStatement(ren, stmts[i]))
  }

  ghost predicate Injective(ren: string -> string) {
    forall a, b :: ren(a) == ren(b) ==> a == b
  }

  /** The two tables give a label and its new name the same address. */
  ghost predicate SameTable(ren: string -> string, symbols: Symbols, symbols': Symbols) {
    && (forall l :: l in symbols <==> ren(l) in symbols')
    && (forall l :: l in symbols ==> symbols'[ren(l)] == symbols[l])
  }

  lemma {:induction false} RenamedAddresses(ren: string -> string, stmts: seq<Statement>, n: nat)
    requires n <= |stmts|
    ensures AddressAfter(Rename(ren, stmts), n) == AddressAfter(stmts, n)
  {
    if n == 0 {
    } else {
      RenamedAddresses(ren, stmts, n - 1);
      assert Rename(ren, stmts)[n - 1] == RenameStatement(ren, stmts[n - 1]);
    }
  }

  lemma {:induction false} RenamedTable(ren: string -> string, stmts: seq<Statement>, n: nat)
    requires n <= |stmts| && Injective(ren)
    ensures var a, b := Collect(stmts, n), Collect(Rename(ren, stmts), n);
      (a.Failure? ==> b == a) && (a.Success? ==> b.Success? && SameTable(ren, a.value, b.value))
  {
    hide AddressAfter, SameTable, Injective;
    if n > 0 {
      RenamedTable(ren, stmts, n - 1);
      RenamedAddresses(ren, stmts, n - 1);
      assert Rename(ren, stmts)[n - 1] == RenameStatement(ren, stmts[n - 1]);
      var before, before' := Collect(stmts, n - 1), Collect(Rename(ren, stmts), n - 1);
      if before.Success? && stmts[n - 1].LabelDef? {
        SameTableExtends(ren, before.value, before'.value, stmts[n - 1].name, AddressAfter(stmts, n - 1));
      }
    } else {
      EmptyTables(ren);
    }
  }

  lemma EmptyTables(ren: string -> string)
    ensures SameTable(ren, map[], map[])
  {
  }

  lemma SameTableExtends(ren: string -> string, symbols: Symbols, symbols': Symbols, name: string, a: UInt32)
    requires SameTable(ren, symbols, symbols') && Injective(ren)
    ensures name in symbols <==> ren(name) in symbols'
    ensures SameTable(ren, symbols[name := a], symbols'[ren(name) := a])
  {
  }

  lemma RenamedTranslation(ren: string -> string, symbols: Symbols, symbols': Symbols, name: string,
      ops: seq<Operand>, address: UInt32)
    requires SameTable(ren, symbols, symbols')
    ensures Translate(symbols', name, RenameOperands(ren, ops), address) == Translate(symbols, name, ops, address)
  {
    hide ImmInRange, U32, LookupOpcode;
  }

  lemma {:induction false} RenamedEmission(ren: string -> string, stmts: seq<Statement>, symbols: Symbols,
      symbols': Symbols, n: nat)
    requires n <= |stmts| && SameTable(ren, symbols, symbols')
    ensures var a, b := Emit(stmts, symbols, n), Emit(Rename(ren, stmts), symbols', n);
      (a.Failure? ==> b == a) && (a.Success? ==> b == Success(a.value.(symbols := symbols')))
  {
    hide Encode, Translate, SameTable, AddressAfter;
    if n == 0 {
    } else {
      RenamedEmission(ren, stmts, symbols, symbols', n - 1);
      RenamedAddresses(ren, stmts, n - 1);
      assert Rename(ren, stmts)[n - 1] == RenameStatement(ren, stmts[n - 1]);
      var s := stmts[n - 1];
      if s.Command? { RenamedTranslation(ren, symbols, symbols', s.name, s.operands, AddressAfter(stmts, n - 1)); }
    }
  }

  /** Label names do not matter: an injective renaming of definitions and uses together leaves
      success, the error, and everything emitted unchanged. */
  lemma LabelNamesDoNotMatter(ren: string -> string, stmts: seq<Statement>)
    requires Injective(ren)
    ensures var a, b := AssembleStatements(stmts), AssembleStatements(Rename(ren, stmts));
      && (a.Failure? ==> b == a)
      && (a.Success? ==>
            && b.Success? && b.value.words == a.value.words && b.value.instructions == a.value.instructions
            && b.value.sourceLines == a.value.sourceLines && SameTable(ren, a.value.symbols, b.value.symbols))
  {
    hide Injective, SameTable, AddressAfter;
    RenamedTable(ren, stmts, |stmts|);
    var a := Collect(stmts, |stmts|);
    if a.Success? {
      RenamedEmission(ren, stmts, a.value, Collect(Rename(ren, stmts), |stmts|).value, |stmts|);
      if Emit(stmts, a.value, |stmts|).Success? { PassTwoTable(stmts, a.value, |stmts|); }
    }
  }

  lemma PassTwoTable(stmts: seq<Statement>, symbols: Symbols, n: nat)
    requires n <= |stmts| && Emit(stmts, symbols, n).Success?
    ensures Emit(stmts, symbols, n).value.symbols == symbols
  {
    PassTwoRight(stmts, symbols, n);
  }
}

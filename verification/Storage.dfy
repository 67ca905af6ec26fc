/** Register file and data memory: their values, and the mutable objects that hold them. */
module Storage {
  import opened Words
  import opened Isa
  import opened Results

  type Registers = s: seq<Int32> | |s| == NUM_REGISTERS witness seq(NUM_REGISTERS, _ => 0)

  type Memory = seq<Int32>

  datatype MemoryError = Unaligned | OutOfBounds

  /** r0 is hardwired to zero: a write to it is discarded. */
  function WriteReg(regs: Registers, r: UInt8, v: Int32): Registers
    requires r < NUM_REGISTERS
  {
    if r != 0 then regs[r := v] else regs
  }

  /** The documented test: the bound is compared over the integers. */
  function CheckAccess(mem: Memory, addr: UInt32): Option<MemoryError> {
    if addr % 4 != 0 then Some(Unaligned)
    else if addr + 4 > 4 * |mem| then Some(OutOfBounds)
    else None
  }

  predicate Accessible(mem: Memory, addr: UInt32) {
    CheckAccess(mem, addr).None?
  }

  /** The address of the last word of the address space. */
  const TOP_WORD: UInt32 := 0xFFFF_FFFC

  /** The test as written: the sum is taken in 32 bits. */
  predicate WrittenRefuses(mem: Memory, addr: UInt32) {
    addr % 4 != 0 || U32(addr + 4) > 4 * |mem|
  }

  /** The written test is the documented one exactly away from the top word, which it lets through. */
  lemma WrittenTestExactly(mem: Memory, addr: UInt32)
    requires 4 * |mem| < TWO_32
    ensures (WrittenRefuses(mem, addr) <==> !Accessible(mem, addr)) <==> addr != TOP_WORD
    ensures !WrittenRefuses(mem, TOP_WORD)
  {
  }

  function LoadWord(mem: Memory, addr: UInt32): Int32
    requires Accessible(mem, addr)
  {
    mem[addr / 4]
  }

  function StoreWord(mem: Memory, addr: UInt32, v: Int32): Memory
    requires Accessible(mem, addr)
  {
    mem[addr / 4 := v]
  }

  // ---- Laws -----------------------------------------------------------------------------

  /** A write changes the register it names and no other, and never r0. */
  lemma ReadOverWrite(regs: Registers, r: UInt8, v: Int32, s: UInt8)
    requires r < NUM_REGISTERS && s < NUM_REGISTERS
    ensures WriteReg(regs, r, v)[s] == if s == r && s != 0 then v else regs[s]
  {
  }

  /** The `k`-th word of a memory covers the four bytes from address `4 * k`. */
  predicate Covers(mem: Memory, k: nat, addr: int) {
    k < |mem| && 4 * k == addr
  }

  /** An access is legal exactly at an address where a word of the memory starts; otherwise a misaligned
      address is reported as such, and only an aligned one as out of bounds. */
  lemma AccessExactly(mem: Memory, addr: UInt32)
    ensures Accessible(mem, addr) <==> exists k: nat :: Covers(mem, k, addr)
    ensures CheckAccess(mem, addr) == Some(Unaligned) <==> addr % 4 != 0
  {
    if Accessible(mem, addr) { assert Covers(mem, addr / 4, addr); }
  }

  /** A load reads the word that starts at the address. */
  lemma LoadReads(mem: Memory, addr: UInt32, k: nat)
    requires Covers(mem, k, addr)
    ensures Accessible(mem, addr) && LoadWord(mem, addr) == mem[k]
  {
  }

  /** A store changes the word that starts at the address, and nothing else. */
  lemma LoadOverStore(mem: Memory, addr: UInt32, v: Int32, other: UInt32)
    requires Accessible(mem, addr) && Accessible(mem, other)
    ensures |StoreWord(mem, addr, v)| == |mem| && Accessible(StoreWord(mem, addr, v), other)
    ensures LoadWord(StoreWord(mem, addr, v), other) == if other == addr then v else LoadWord(mem, other)
  {
  }

  class RegisterFile {
    const regs: array<Int32>

    ghost predicate Valid()
      reads this
    {
      regs.Length == NUM_REGISTERS
    }

    ghost function Contents(): Registers
      requires Valid()
      reads this, regs
    {
      regs[..]
    }

    constructor ()
      ensures Valid() && fresh(regs)
      ensures Contents() == seq(NUM_REGISTERS, _ => 0)
    {
      regs := new Int32[NUM_REGISTERS](_ => 0);
    }

    method Read(index: UInt8) returns (v: Int32)
      requires Valid() && index < NUM_REGISTERS
      ensures v == Contents()[index]
    {
      v := regs[index];
    }

    method Write(index: UInt8, value: Int32)
      requires Valid() && index < NUM_REGISTERS
      modifies regs
      ensures Contents() == WriteReg(old(Contents()), index, value)
      ensures forall s :: 0 <= s < NUM_REGISTERS ==>
        Contents()[s] == if s == index && s != 0 then value else old(Contents()[s])
    {
      if index != 0 {
        regs[index] := value;
      }
    }
  }

  class DataMemory {
    const words: array<Int32>
    const sizeBytes: nat

    ghost predicate Valid()
      reads this
    {
      sizeBytes == 4 * words.Length
    }

    ghost function Contents(): Memory
      reads this, words
    {
      words[..]
    }

    constructor (bytes: UInt32)
      ensures Valid() && fresh(words)
      ensures Contents() == seq(bytes / 4, _ => 0)
    {
      words := new Int32[bytes / 4](_ => 0);
      sizeBytes := bytes - bytes % 4;
    }

    method CheckBounds(addr: UInt32) returns (error: Option<MemoryError>)
      requires Valid()
      ensures error == CheckAccess(Contents(), addr)
    {
      if addr % 4 != 0 {
        return Some(Unaligned);
      }
      if addr + 4 > sizeBytes {
        return Some(OutOfBounds);
      }
      return None;
    }

    method Load(addr: UInt32) returns (r: Result<Int32, MemoryError>)
      requires Valid()
      ensures r.Success? <==> Accessible(Contents(), addr)
      ensures r.Success? ==> r.value == LoadWord(Contents(), addr)
      ensures r.Success? ==> exists k: nat :: Covers(Contents(), k, addr) && r.value == Contents()[k]
      ensures r.Failure? ==> CheckAccess(Contents(), addr) == Some(r.error)
    {
      var error := CheckBounds(addr);
      if error.Some? {
        return Failure(error.value);
      }
      assert Covers(Contents(), addr / 4, addr);
      return Success(words[addr / 4]);
    }

    method Store(addr: UInt32, value: Int32) returns (error: Option<MemoryError>)
      requires Valid()
      modifies words
      ensures error == CheckAccess(old(Contents()), addr)
      ensures Contents() == if error.None? then StoreWord(old(Contents()), addr, value) else old(Contents())
      ensures error.None? ==> forall k: nat :: k < |Contents()| ==>
        Contents()[k] == if Covers(Contents(), k, addr) then value else old(Contents()[k])
    {
      error := CheckBounds(addr);
      if error.None? {
        words[addr / 4] := value;
      }
    }
  }
}

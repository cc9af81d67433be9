/**
 * The NES memory: a sparse map from 16-bit addresses to bytes in which a
 * cell that was never written reads as zero.
 */
module Memory {
  import opened Data

  type Mem = map<Address, NesByte>

  /** `memory.getOrDefault(address, NesByte(0x00))`. */
  function Peek(mem: Mem, address: Address): (r: NesByte)
    ensures address !in mem ==> r == 0
    ensures address in mem ==> r == mem[address]
  {
    if address in mem then mem[address] else 0
  }

  /** `memory[address] = value`, on the map as a value. */
  function Poke(mem: Mem, address: Address, value: NesByte): (r: Mem)
    ensures Peek(r, address) == value
    ensures forall b :: b != address ==> Peek(r, b) == Peek(mem, b)
  {
    mem[address := value]
  }

  /** Writing the same value twice at one address is writing it once. */
  lemma PokeIdempotent(mem: Mem, address: Address, value: NesByte)
    ensures Poke(Poke(mem, address, value), address, value) == Poke(mem, address, value)
  {
  }

  /** A second write at an address hides the first. */
  lemma PokeOverwrites(mem: Mem, address: Address, first: NesByte, second: NesByte)
    ensures Poke(Poke(mem, address, first), address, second) == Poke(mem, address, second)
  {
  }

  /** Writes to different addresses commute. */
  lemma PokeCommutes(mem: Mem, a1: Address, v1: NesByte, a2: Address, v2: NesByte)
    requires a1 != a2
    ensures Poke(Poke(mem, a1, v1), a2, v2) == Poke(Poke(mem, a2, v2), a1, v1)
  {
  }

  /** Three writes at three different addresses: each holds its value, every other cell is unchanged. */
  lemma PokeThree(mem: Mem, a0: Address, v0: NesByte, a1: Address, v1: NesByte, a2: Address, v2: NesByte)
    requires a0 != a1 && a0 != a2 && a1 != a2
    ensures var r := Poke(Poke(Poke(mem, a0, v0), a1, v1), a2, v2);
      && Peek(r, a0) == v0 && Peek(r, a1) == v1 && Peek(r, a2) == v2
      && forall a :: a != a0 && a != a1 && a != a2 ==> Peek(r, a) == Peek(mem, a)
  {
  }

  class RAM {
    const STACK_ADDRESS: Address := 0x0100
    const PROGRAM_ADDRESS: Address := 0x0500
    var memory: Mem

    /** A new RAM holds no written cell, so every address reads as 0. */
    constructor()
      ensures memory == map[]
      ensures forall address :: Read(address) == 0
    {
      memory := map[];
    }

    /** `read(Address)`: the last value written there, or 0. */
    function Read(address: Address): (r: NesByte)
      reads this
      ensures address !in memory ==> r == 0
      ensures address in memory ==> r == memory[address]
    {
      Peek(memory, address)
    }

    /** `read(Int)`: reads `Address(address)`, the address modulo 65536. */
    function ReadInt(address: int): (r: NesByte)
      reads this
      ensures r == Read(WordOf(address))
      ensures 0 <= address < 0x1_0000 ==> r == Read(address as Word)
    {
      Peek(memory, WordOf(address))
    }

    /** `write(Address, NesByte)`: stores the value; no other cell changes. */
    method Write(address: Address, value: NesByte)
      modifies this
      ensures memory == Poke(old(memory), address, value)
      ensures Read(address) == value
      ensures forall b :: b != address ==> Read(b) == old(Read(b))
    {
      memory := memory[address := value];
    }

    /** `write(Int, Int)`: stores `value` modulo 256 at `address` modulo 65536. */
    method WriteInt(address: int, value: int)
      modifies this
      ensures memory == Poke(old(memory), WordOf(address), ByteOf(value))
      ensures ReadInt(address) == ByteOf(value)
      ensures forall b :: b != WordOf(address) ==> Read(b) == old(Read(b))
    {
      memory := memory[WordOf(address) := ByteOf(value)];
    }
  }

  /** The two constants of `RAM`: the stack page and the program start. */
  lemma RamConstants(ram: RAM)
    ensures ram.STACK_ADDRESS as int == 0x100 && ram.STACK_ADDRESS == WordFromBytes(0, 1)
    ensures ram.PROGRAM_ADDRESS as int == 0x500 && HighByte(ram.PROGRAM_ADDRESS) == 5
  {
  }
}

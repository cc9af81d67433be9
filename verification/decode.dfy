/**
 * Operand-address resolution (`CPU6502.decodeOperationAddress`): from the
 * memory, the index registers, the program counter and the addressing mode
 * of the instruction, the address the instruction operates on.
 *
 * `pc` is the address of the first operand byte: `clock` increments the
 * program counter past the opcode before it resolves the operand.
 * Resolution only reads memory, so it is a function of the memory map.
 */
module Decode {
  import opened Bits
  import opened Data
  import opened DataProperties
  import opened Memory
  import opened Addressing

  /**
   * `DecodedAddressMode(address, relativeAddress, cyclesSpent)`. The cycle
   * count is always its default 1 and is not modelled.
   */
  datatype DecodedAddressMode = DecodedAddressMode(address: Address, relativeAddress: Option<Address>)

  /** The little-endian word stored at `lo` (low byte) and `hi` (high byte). */
  function WordAt(mem: Mem, lo: Address, hi: Address): (r: Word)
    ensures r as int == Peek(mem, hi) as int * 0x100 + Peek(mem, lo) as int
  {
    WordFromBytes(Peek(mem, lo), Peek(mem, hi))
  }

  /** The address of a page-zero cell. */
  function PageZero(lo: NesByte): (r: Address)
    ensures r as int == lo as int && HighByte(r) == 0
  {
    WordFromBytes(lo, 0)
  }

  /** The 16-bit address held in the two instruction bytes at `pc` and `pc + 1`. */
  function OperandWord(mem: Mem, pc: ProgramCounter): (r: Word)
    ensures r as int == Peek(mem, WordPlus(pc, 1)) as int * 0x100 + Peek(mem, pc) as int
  {
    WordFromBytes(Peek(mem, pc), Peek(mem, WordPlus(pc, 1)))
  }

  /** `(operand + index) and 0xFF`: the index added within page zero. */
  function ZeroPageIndex(operand: NesByte, index: NesByte): (r: NesByte)
    ensures r as int == (operand as int + index as int) % 0x100
  {
    ByteAndAllOnes(ByteAdd(operand, index));
    ByteAndInt(ByteAdd(operand, index), 0xFF)
  }

  /** ZeroPageX, ZeroPageY: the operand plus the index, kept in page zero. */
  function ResolveZeroPage(mem: Mem, pc: ProgramCounter, index: NesByte): (r: Address)
    ensures HighByte(r) == 0
    ensures r as int == (Peek(mem, pc) as int + index as int) % 0x100
  {
    WordFromByteAndInt(ZeroPageIndex(Peek(mem, pc), index), 0x00)
  }

  /** Absolute: low byte from the first operand byte, high byte from the second. */
  function ResolveAbsolute(mem: Mem, pc: ProgramCounter): (r: Address)
    ensures LowByte(r) == Peek(mem, pc) && HighByte(r) == Peek(mem, WordPlus(pc, 1))
  {
    OperandWord(mem, pc)
  }

  /** AbsoluteX/YIndexed: the operand word plus the index, the index read as a signed byte. */
  function ResolveAbsoluteIndexed(mem: Mem, pc: ProgramCounter, index: NesByte): (r: Address)
    ensures var base := OperandWord(mem, pc) as int;
      r as int == (if index < 0x80 then base + index as int else base + index as int - 0x100) % 0x1_0000
  {
    WordPlusByte(OperandWord(mem, pc), index)
  }

  /**
   * Indirect: the target is the word stored at the pointer in the operand.
   * When the pointer's low byte is 0xFF the code reads the low byte from
   * `(ptr and 0xFF00) shl 8`, which is always 0x0000, and the high byte from
   * the pointer itself.
   */
  function ResolveIndirect(mem: Mem, pc: ProgramCounter): (r: Address)
    ensures var ptr := OperandWord(mem, pc);
      if LowByte(ptr) == 0xFF then
        LowByte(r) == Peek(mem, 0x0000) && HighByte(r) == Peek(mem, ptr)
      else
        LowByte(r) == Peek(mem, ptr) && HighByte(r) == Peek(mem, (ptr as int + 1) as Word)
  {
    var ptr := OperandWord(mem, pc);
    var ptrLo := Peek(mem, pc);
    PointerBytes(mem, pc);
    if ByteEquals(ptrLo, ByteOf(0xFF)) then
      var fixHi := WordShl(WordAnd(ptr, 0xFF00), 8);
      MaskHighShiftIsZero(ptr);
      WordFromBytes(Peek(mem, fixHi), Peek(mem, ptr))
    else
      WordFromBytes(Peek(mem, ptr), Peek(mem, WordPlus(ptr, 1)))
  }

  /** The pointer's low byte is the first operand byte; below 0xFF its successor does not wrap. */
  lemma PointerBytes(mem: Mem, pc: ProgramCounter)
    ensures LowByte(OperandWord(mem, pc)) == Peek(mem, pc)
    ensures Peek(mem, pc) != 0xFF ==> WordPlus(OperandWord(mem, pc), 1) as int == OperandWord(mem, pc) as int + 1
  {
    var ptr := OperandWord(mem, pc);
    DivUnique(ptr as int, 0x100, Peek(mem, WordPlus(pc, 1)) as int, Peek(mem, pc) as int);
  }

  /** PreIndexedIndirect: both bytes of the pointer lie in page zero, at z and z + 1 wrapped. */
  function ResolvePreIndexed(mem: Mem, pc: ProgramCounter, x: NesByte): (r: Address)
    ensures var z := (Peek(mem, pc) as int + x as int) % 0x100;
      LowByte(r) == Peek(mem, z as Word) && HighByte(r) == Peek(mem, ((z + 1) % 0x100) as Word)
  {
    var z := ZeroPageIndex(Peek(mem, pc), x);
    PreIndexedCells(Peek(mem, pc), x);
    WordFromBytes(Peek(mem, PageZero(z)), Peek(mem, PageZero(BytePlus(z, 1))))
  }

  /** The two page-zero cells PreIndexedIndirect reads: z = operand + X and z + 1, both wrapped. */
  lemma PreIndexedCells(operand: NesByte, x: NesByte)
    ensures var z := (operand as int + x as int) % 0x100;
      && PageZero(ZeroPageIndex(operand, x)) == z as Word
      && PageZero(BytePlus(ZeroPageIndex(operand, x), 1)) == ((z + 1) % 0x100) as Word
  {
  }

  /** `(arg + 1) and 0xFF` as a page-zero address is the cell after `arg`, wrapped within page zero. */
  lemma PageZeroSuccessor(arg: NesByte)
    ensures PageZero(arg) == arg as Word
    ensures PageZero(ByteAndInt(BytePlus(arg, 1), 0xFF)) == ((arg as int + 1) % 0x100) as Word
  {
    ByteAndAllOnes(BytePlus(arg, 1));
  }

  /**
   * PostIndexedIndirect: the word stored in page zero at the operand and
   * the operand plus one (wrapped within page zero), plus Y read as a
   * signed byte.
   */
  function ResolvePostIndexed(mem: Mem, pc: ProgramCounter, y: NesByte): (r: Address)
    ensures var z := Peek(mem, pc) as int;
      r == WordPlusByte(WordAt(mem, z as Word, ((z + 1) % 0x100) as Word), y)
  {
    var arg := Peek(mem, pc);
    PageZeroSuccessor(arg);
    WordPlusByte(WordAt(mem, PageZero(arg), PageZero(ByteAndInt(BytePlus(arg, 1), 0xFF))), y)
  }

  /**
   * Relative: the operand minus 128 added to pc, and the same offset kept
   * as a relative address whose low byte is the offset modulo 256.
   */
  function ResolveRelative(mem: Mem, pc: ProgramCounter): (r: DecodedAddressMode)
    ensures r.address as int == (pc as int + Peek(mem, pc) as int - 0x80) % 0x1_0000
    ensures r.relativeAddress.Some? && r.relativeAddress.value as int == (Peek(mem, pc) as int - 0x80) % 0x100
  {
    var valor := Peek(mem, pc) as int - 0x80;
    DecodedAddressMode(WordPlus(pc, valor), Some(WordFromByteAndInt(ByteOf(valor), 0x00)))
  }

  /**
   * The operand address of every mode but Relative: the arms of the `when`
   * in `decodeOperationAddress` that build a `DecodedAddressMode` with no
   * relative address. Accumulator and Implied fall through to address 0.
   */
  function ResolveAddress(mem: Mem, x: NesByte, y: NesByte, pc: ProgramCounter, mode: AddressingMode): (r: Address)
    requires !mode.Relative?
    ensures mode.Immediate? ==> r == pc
    ensures mode.ZeroPage? || mode.ZeroPageX? || mode.ZeroPageY? ==> HighByte(r) == 0
    ensures mode.Accumulator? || mode.Implied? ==> r == 0
  {
    match mode
    case Immediate => pc
    case ZeroPage => PageZero(Peek(mem, pc))
    case ZeroPageX => ResolveZeroPage(mem, pc, x)
    case ZeroPageY => ResolveZeroPage(mem, pc, y)
    case Absolute => ResolveAbsolute(mem, pc)
    case AbsoluteXIndexed => ResolveAbsoluteIndexed(mem, pc, x)
    case AbsoluteYIndexed => ResolveAbsoluteIndexed(mem, pc, y)
    case Indirect => ResolveIndirect(mem, pc)
    case PreIndexedIndirect => ResolvePreIndexed(mem, pc, x)
    case PostIndexedIndirect => ResolvePostIndexed(mem, pc, y)
    case Accumulator => WordOf(0)
    case Implied => WordOf(0)
  }

  /**
   * `decodeOperationAddress(instruction)`: the operand address for each
   * addressing mode, with `pc` on the first operand byte; only the
   * Relative arm also keeps a relative address.
   */
  function DecodeOperationAddress(mem: Mem, x: NesByte, y: NesByte, pc: ProgramCounter, mode: AddressingMode): (r: DecodedAddressMode)
    ensures r.relativeAddress.Some? <==> mode.Relative?
  {
    if mode.Relative? then ResolveRelative(mem, pc)
    else DecodedAddressMode(ResolveAddress(mem, x, y, pc, mode), None)
  }

  /** Only the Relative arm keeps a relative address. */
  lemma RelativeAddressOnlyForRelative(mem: Mem, x: NesByte, y: NesByte, pc: ProgramCounter, mode: AddressingMode)
    ensures DecodeOperationAddress(mem, x, y, pc, mode).relativeAddress.Some? <==> mode == Relative
  {
    if mode == Relative {
      assert DecodeOperationAddress(mem, x, y, pc, mode) == ResolveRelative(mem, pc);
    }
  }

  /** Immediate addresses the operand byte itself. */
  lemma ImmediateIsOperandByte(mem: Mem, x: NesByte, y: NesByte, pc: ProgramCounter)
    ensures DecodeOperationAddress(mem, x, y, pc, Immediate) == DecodedAddressMode(pc, None)
  {
  }

  /** Accumulator and Implied have no operand: they resolve to address 0. */
  lemma NoOperandIsAddressZero(mem: Mem, x: NesByte, y: NesByte, pc: ProgramCounter, mode: AddressingMode)
    requires mode == Accumulator || mode == Implied
    ensures DecodeOperationAddress(mem, x, y, pc, mode) == DecodedAddressMode(0, None)
  {
  }
}

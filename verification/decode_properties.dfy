/**
 * Properties of operand-address resolution: the zero-page modes never
 * leave page zero, the scenarios of the addressing-mode tests (read with
 * `pc` as the address of the operand byte, which is what `clock` passes,
 * over any memory holding the bytes each test sets up), and the places
 * where the resolver departs from its comments and tests.
 */
module DecodeProperties {
  import opened Bits
  import opened Data
  import opened DataProperties
  import opened Memory
  import opened Addressing
  import opened Decode

  /** ZeroPage, ZeroPageX and ZeroPageY never carry into the high byte. */
  lemma {:induction false} ZeroPageStaysInPageZero(mem: Mem, x: NesByte, y: NesByte, pc: ProgramCounter, mode: AddressingMode)
    requires mode == ZeroPage || mode == ZeroPageX || mode == ZeroPageY
    ensures DecodeOperationAddress(mem, x, y, pc, mode).address < 0x100
    ensures DecodeOperationAddress(mem, x, y, pc, mode).relativeAddress.None?
  {
    if mode != ZeroPage {
    }
    var r := DecodeOperationAddress(mem, x, y, pc, mode).address;
    assert r as int == HighByte(r) as int * 0x100 + LowByte(r) as int;
  }

  /**
   * AbsoluteX/Y agree with the documented "address plus index" only for an
   * index below 0x80; a larger index is subtracted from 256.
   */
  lemma AbsoluteIndexedAgreesBelow0x80(mem: Mem, pc: ProgramCounter, index: NesByte)
    ensures index < 0x80 ==> ResolveAbsoluteIndexed(mem, pc, index) == WordOf(OperandWord(mem, pc) as int + index as int)
    ensures index >= 0x80 ==> ResolveAbsoluteIndexed(mem, pc, index) != WordOf(OperandWord(mem, pc) as int + index as int)
  {
    WordPlusByteSignExtends(OperandWord(mem, pc), index);
  }

  /**
   * The Relative operand encodes the offset k (-128..127) as k + 128: the
   * resolved address is pc + k, but the offset kept for the branch is the
   * unsigned byte k mod 256 with high byte 0, so a negative k is kept as
   * 256 + k.
   */
  lemma RelativeOffset(mem: Mem, pc: ProgramCounter, k: int)
    requires -0x80 <= k < 0x80
    requires Peek(mem, pc) as int == k + 0x80
    ensures ResolveRelative(mem, pc).address as int == (pc as int + k) % 0x1_0000
    ensures k >= 0 ==> ResolveRelative(mem, pc).relativeAddress == Some(k as Word)
    ensures k < 0 ==> ResolveRelative(mem, pc).relativeAddress == Some((k + 0x100) as Word)
  {
    if k < 0 {
      DivUnique(k, 0x100, -1, k + 0x100);
    } else {
      DivUnique(k, 0x100, 0, k);
    }
  }

  /** Absolute 0x50 0x10 is 0x1050, and with X = 1 or Y = 1 it is 0x1051. */
  lemma AbsoluteScenarios(mem: Mem)
    requires Peek(mem, 1) == 0x50 && Peek(mem, 2) == 0x10
    ensures DecodeOperationAddress(mem, 0, 0, 1, Absolute).address == 0x1050
    ensures DecodeOperationAddress(mem, 1, 0, 1, AbsoluteXIndexed).address == 0x1051
    ensures DecodeOperationAddress(mem, 0, 1, 1, AbsoluteYIndexed).address == 0x1051
  {
    assert WordPlus(1, 1) == 2;
    AbsoluteAt(mem, 1, 1, 0, 0x1050);
    AbsoluteAt(mem, 1, 0, 1, 0x1050);
    assert WordPlusByte(0x1050, 1) == 0x1051;
  }

  /** The Absolute modes when the two operand bytes hold the word w. */
  lemma AbsoluteAt(mem: Mem, pc: ProgramCounter, x: NesByte, y: NesByte, w: Word)
    requires Peek(mem, pc) == LowByte(w) && Peek(mem, WordPlus(pc, 1)) == HighByte(w)
    ensures DecodeOperationAddress(mem, x, y, pc, Absolute).address == w
    ensures DecodeOperationAddress(mem, x, y, pc, AbsoluteXIndexed).address == WordPlusByte(w, x)
    ensures DecodeOperationAddress(mem, x, y, pc, AbsoluteYIndexed).address == WordPlusByte(w, y)
  {
    WordBytesRoundTrip(w);
  }

  /** ZeroPage 0x50 is 0x50, and with X = 1 or Y = 1 it is 0x51. */
  lemma ZeroPageScenarios(mem: Mem)
    requires Peek(mem, 1) == 0x50
    ensures DecodeOperationAddress(mem, 0, 0, 1, ZeroPage).address == 0x50
    ensures DecodeOperationAddress(mem, 1, 0, 1, ZeroPageX).address == 0x51
    ensures DecodeOperationAddress(mem, 0, 1, 1, ZeroPageY).address == 0x51
  {
  }

  /** ZeroPageX and ZeroPageY on 0xFF with an index of 1 wrap to 0. */
  lemma ZeroPageWrapScenario(mem: Mem)
    requires Peek(mem, 1) == 0xFF
    ensures DecodeOperationAddress(mem, 1, 0, 1, ZeroPageX).address == 0
    ensures DecodeOperationAddress(mem, 0, 1, 1, ZeroPageY).address == 0
  {
  }

  /** Indirect through the pointer 0x0064, which holds 0x50, 0x01: the target is 0x0150. */
  lemma IndirectScenario(mem: Mem)
    requires Peek(mem, 1) == 100 && Peek(mem, 2) == 0
    requires Peek(mem, 100) == 0x50 && Peek(mem, 101) == 0x01
    ensures DecodeOperationAddress(mem, 0, 0, 1, Indirect).address == 0x0150
  {
    assert WordPlus(1, 1) == 2;
    assert WordPlus(100, 1) == 101;
    IndirectAt(mem, 1, 100, 0x0150);
  }

  /** Indirect through a pointer whose low byte is not 0xFF reads the word stored at the pointer. */
  lemma IndirectAt(mem: Mem, pc: ProgramCounter, ptr: Word, target: Word)
    requires LowByte(ptr) != 0xFF
    requires Peek(mem, pc) == LowByte(ptr) && Peek(mem, WordPlus(pc, 1)) == HighByte(ptr)
    requires Peek(mem, ptr) == LowByte(target) && Peek(mem, WordPlus(ptr, 1)) == HighByte(target)
    ensures DecodeOperationAddress(mem, 0, 0, pc, Indirect).address == target
  {
    WordBytesRoundTrip(ptr);
    WordBytesRoundTrip(target);
    WordBytesRoundTrip(ResolveIndirect(mem, pc));
  }

  /** PreIndexedIndirect: 101 + X = 1 points at 102, which holds 0x52, 0x01. */
  lemma PreIndexedScenario(mem: Mem)
    requires Peek(mem, 1) == 101
    requires Peek(mem, 102) == 0x52 && Peek(mem, 103) == 0x01
    ensures DecodeOperationAddress(mem, 1, 0, 1, PreIndexedIndirect).address == 0x0152
  {
    PreIndexedAt(mem, 1, 1, 102, 0x0152);
  }

  /**
   * The PreIndexedIndirect address when the operand plus X is z and the
   * page-zero cells z and z + 1 hold `target`; for z = 0xFF the second cell
   * wraps to 0x00.
   */
  lemma PreIndexedAt(mem: Mem, x: NesByte, pc: ProgramCounter, z: nat, target: Word)
    requires (Peek(mem, pc) as int + x as int) % 0x100 == z
    requires Peek(mem, z as Word) == LowByte(target) && Peek(mem, ((z + 1) % 0x100) as Word) == HighByte(target)
    ensures DecodeOperationAddress(mem, x, 0, pc, PreIndexedIndirect).address == target
  {
    var r := ResolvePreIndexed(mem, pc, x);
    assert LowByte(r) == LowByte(target) && HighByte(r) == HighByte(target);
    WordBytesRoundTrip(r);
    WordBytesRoundTrip(target);
  }

  /** PreIndexedIndirect: 246 + X = 110 wraps to 100, which holds 0x50, 0x01. */
  lemma PreIndexedWrapScenario(mem: Mem)
    requires Peek(mem, 1) == 246
    requires Peek(mem, 100) == 0x50 && Peek(mem, 101) == 0x01
    ensures DecodeOperationAddress(mem, 110, 0, 1, PreIndexedIndirect).address == 0x0150
  {
    DivUnique(356, 0x100, 1, 100);
    PreIndexedAt(mem, 110, 1, 100, 0x0150);
  }

  /** PostIndexedIndirect: the pointer at 104 holds 0x0153, plus Y = 0. */
  lemma PostIndexedScenario(mem: Mem)
    requires Peek(mem, 1) == 104
    requires Peek(mem, 104) == 0x53 && Peek(mem, 105) == 0x01
    ensures DecodeOperationAddress(mem, 0, 0, 1, PostIndexedIndirect).address == 0x0153
  {
    PostIndexedAt(mem, 0, 1, 104, 0x0153);
    assert WordPlusByte(0x0153, 0) == 0x0153;
  }

  /**
   * PostIndexedIndirect across a page: the pointer at 246 holds 0xF7F6, and
   * with Y = 10 the code yields 0xF800. The test expects 0x100 here.
   */
  lemma PostIndexedCrossingPage(mem: Mem)
    requires Peek(mem, 1) == 246
    requires Peek(mem, 246) == 246 && Peek(mem, 247) == 247
    ensures DecodeOperationAddress(mem, 0, 10, 1, PostIndexedIndirect).address == 0xF800
    ensures DecodeOperationAddress(mem, 0, 10, 1, PostIndexedIndirect).address != 0x100
  {
    PostIndexedAt(mem, 10, 1, 246, 0xF7F6);
    assert WordPlusByte(0xF7F6, 10) == 0xF800;
  }

  /**
   * The PostIndexedIndirect address when the page-zero cells z and z + 1
   * named by the operand hold `ptr`; for z = 0xFF the second cell wraps to
   * 0x00.
   */
  lemma PostIndexedAt(mem: Mem, y: NesByte, pc: ProgramCounter, z: nat, ptr: Word)
    requires Peek(mem, pc) as int == z
    requires Peek(mem, z as Word) == LowByte(ptr) && Peek(mem, ((z + 1) % 0x100) as Word) == HighByte(ptr)
    ensures DecodeOperationAddress(mem, 0, y, pc, PostIndexedIndirect).address == WordPlusByte(ptr, y)
  {
    PageZeroPointer(mem, Peek(mem, pc), ptr);
  }

  /** Page-zero cells z and z + 1 (wrapping to 0x00) holding the bytes of `ptr` read back as `ptr`. */
  lemma PageZeroPointer(mem: Mem, z: NesByte, ptr: Word)
    requires Peek(mem, z as Word) == LowByte(ptr) && Peek(mem, ((z as int + 1) % 0x100) as Word) == HighByte(ptr)
    ensures WordAt(mem, z as Word, ((z as int + 1) % 0x100) as Word) == ptr
  {
    WordBytesRoundTrip(ptr);
  }

  /**
   * PostIndexedIndirect agrees with the documented "pointer plus Y" exactly
   * when Y is below 0x80; a larger Y is subtracted from 256. `ptr` is the
   * word held by the page-zero cells the operand names.
   */
  lemma PostIndexedAgreesBelow0x80(mem: Mem, y: NesByte, pc: ProgramCounter, ptr: Word)
    requires Peek(mem, Peek(mem, pc) as Word) == LowByte(ptr)
    requires Peek(mem, ((Peek(mem, pc) as int + 1) % 0x100) as Word) == HighByte(ptr)
    ensures DecodeOperationAddress(mem, 0, y, pc, PostIndexedIndirect).address == WordOf(ptr as int + y as int)
      <==> y < 0x80
  {
    PostIndexedAt(mem, y, pc, Peek(mem, pc) as int, ptr);
    WordPlusByteSignExtends(ptr, y);
  }

  /**
   * Indirect with a pointer whose low byte is 0xFF, against the hardware
   * behaviour its comment documents (the high byte of the target read from
   * the start of the pointer's own page, the low byte from the pointer): the
   * code reads the low byte at 0x0000 and the high byte at the pointer, so it
   * agrees with the documented word only when those cells happen to agree.
   */
  lemma IndirectPageWrapReadsZero(mem: Mem, x: NesByte, y: NesByte, pc: ProgramCounter)
    requires Peek(mem, pc) == 0xFF
    ensures var ptr := OperandWord(mem, pc);
      var pageStart := WordFromBytes(0x00, HighByte(ptr));
      var documented := WordFromBytes(Peek(mem, ptr), Peek(mem, pageStart));
      var r := DecodeOperationAddress(mem, x, y, pc, Indirect).address;
      && r == WordFromBytes(Peek(mem, 0x0000), Peek(mem, ptr))
      && (r == documented <==> Peek(mem, 0x0000) == Peek(mem, ptr) && Peek(mem, ptr) == Peek(mem, pageStart))
  {
    var ptr := OperandWord(mem, pc);
    DivUnique(ptr as int, 0x100, Peek(mem, WordPlus(pc, 1)) as int, 0xFF);
    var r := DecodeOperationAddress(mem, x, y, pc, Indirect).address;
    WordBytesRoundTrip(r);
  }
}

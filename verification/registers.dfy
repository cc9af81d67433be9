/**
 * The 6502 register file: accumulator, the two index registers, program
 * counter, stack pointer and the processor-status flags.
 *
 * `CpuRegisters.kt` declares `a`, `x`, `y`, `pc`, `s` and seven flat flag
 * fields. `CPU6502.kt` reaches the flags through `registers.ps` and the
 * stack through `registers.sp`, neither of which that file declares, so
 * here the seven flags (plus the unused bit 5) live in one
 * `ProcessorStatus` value named `ps`, and `sp` is an 8-bit field that
 * starts at 0xFF. The older field `s` is kept and nothing changes it.
 */
module Registers {
  import opened Bits
  import opened Data

  datatype ProcessorStatus = ProcessorStatus(
    carryBit: bool,
    zeroFlag: bool,
    interruptDisabled: bool,
    decimalMode: bool,
    breakCommand: bool,
    unused: bool,
    overflowFlag: bool,
    negativeFlag: bool)

  const CLEARED_STATUS := ProcessorStatus(false, false, false, false, false, false, false, false)

  /** The flags in P-register order: C, Z, I, D, B, unused, V, N for bits 0..7. */
  function StatusBits(ps: ProcessorStatus): (r: seq<bool>)
    ensures |r| == 8
  {
    [ps.carryBit, ps.zeroFlag, ps.interruptDisabled, ps.decimalMode,
     ps.breakCommand, ps.unused, ps.overflowFlag, ps.negativeFlag]
  }

  /** The number whose binary digits, least significant first, are `bits`. */
  function FromBits(bits: seq<bool>): (r: nat)
    ensures r < Pow2(|bits|)
  {
    if |bits| == 0 then 0 else (if bits[0] then 1 else 0) + 2 * FromBits(bits[1..])
  }

  lemma {:induction false} FromBitsBit(bits: seq<bool>, i: nat)
    requires i < |bits|
    ensures Bit(FromBits(bits), i) == bits[i]
  {
    var v := FromBits(bits);
    if i > 0 {
      FromBitsBit(bits[1..], i - 1);
      BitHalf(v, i - 1);
      assert v / 2 == FromBits(bits[1..]);
    }
  }

  /**
   * `ps.dump()`, which the source calls but never defines: the standard 6502
   * status byte, C at bit 0 up to N at bit 7.
   */
  function Dump(ps: ProcessorStatus): (r: NesByte)
    ensures ByteBit(r, 0) == ps.carryBit && ByteBit(r, 1) == ps.zeroFlag
    ensures ByteBit(r, 2) == ps.interruptDisabled && ByteBit(r, 3) == ps.decimalMode
    ensures ByteBit(r, 4) == ps.breakCommand && ByteBit(r, 5) == ps.unused
    ensures ByteBit(r, 6) == ps.overflowFlag && ByteBit(r, 7) == ps.negativeFlag
  {
    Pow2Constants();
    var bits := StatusBits(ps);
    FromBitsBit(bits, 0);
    FromBitsBit(bits, 1);
    FromBitsBit(bits, 2);
    FromBitsBit(bits, 3);
    FromBitsBit(bits, 4);
    FromBitsBit(bits, 5);
    FromBitsBit(bits, 6);
    FromBitsBit(bits, 7);
    FromBits(bits) as NesByte
  }

  /** Reads a status byte back into flags (the inverse of `Dump`). */
  function StatusOf(b: NesByte): ProcessorStatus
  {
    ProcessorStatus(ByteBit(b, 0), ByteBit(b, 1), ByteBit(b, 2), ByteBit(b, 3),
                    ByteBit(b, 4), ByteBit(b, 5), ByteBit(b, 6), ByteBit(b, 7))
  }

  /** `dump` loses no flag: reading the byte back gives the same status. */
  lemma DumpThenRead(ps: ProcessorStatus)
    ensures StatusOf(Dump(ps)) == ps
  {
  }

  /** Every byte is the dump of some status: the one read from it. */
  lemma ReadThenDump(b: NesByte)
    ensures Dump(StatusOf(b)) == b
  {
    var e := Dump(StatusOf(b));
    assert ByteBit(e, 0) == ByteBit(b, 0) && ByteBit(e, 1) == ByteBit(b, 1);
    assert ByteBit(e, 2) == ByteBit(b, 2) && ByteBit(e, 3) == ByteBit(b, 3);
    assert ByteBit(e, 4) == ByteBit(b, 4) && ByteBit(e, 5) == ByteBit(b, 5);
    assert ByteBit(e, 6) == ByteBit(b, 6) && ByteBit(e, 7) == ByteBit(b, 7);
    ByteBitsDetermine(e, b);
  }

  /** The register file as a value. */
  datatype RegisterFile = RegisterFile(
    a: NesByte,
    x: NesByte,
    y: NesByte,
    pc: ProgramCounter,
    s: NesByte,
    sp: NesByte,
    ps: ProcessorStatus)

  const INITIAL_REGISTERS := RegisterFile(0, 0, 0, 0, 0, 0xFF, CLEARED_STATUS)

  /** What `reset` does to a register file: x and y become 0. */
  function AfterReset(r: RegisterFile): (q: RegisterFile)
    ensures q.x == 0 && q.y == 0
    ensures q.a == r.a && q.pc == r.pc && q.s == r.s && q.sp == r.sp && q.ps == r.ps
  {
    r.(x := 0, y := 0)
  }

  /** Resetting twice is resetting once. */
  lemma ResetIdempotent(r: RegisterFile)
    ensures AfterReset(AfterReset(r)) == AfterReset(r)
  {
  }

  class CpuRegisters {
    var a: NesByte
    var x: NesByte
    var y: NesByte
    var pc: ProgramCounter
    var s: NesByte
    var sp: NesByte
    var ps: ProcessorStatus

    function Snapshot(): RegisterFile
      reads this
    {
      RegisterFile(a, x, y, pc, s, sp, ps)
    }

    /** Every register starts at 0, the stack pointer at 0xFF, every flag clear. */
    constructor()
      ensures Snapshot() == INITIAL_REGISTERS
    {
      a, x, y, pc, s := 0, 0, 0, 0, 0;
      sp := 0xFF;
      ps := CLEARED_STATUS;
    }

    /** `reset()`: clears x and y only. */
    method Reset()
      modifies this
      ensures Snapshot() == AfterReset(old(Snapshot()))
    {
      x := 0;
      y := 0;
    }

    /** `storeX(v)`: x becomes v, nothing else changes. */
    method StoreX(v: NesByte)
      modifies this
      ensures Snapshot() == old(Snapshot()).(x := v)
    {
      x := v;
    }

    /** `storeY(v)`: y becomes v, nothing else changes. */
    method StoreY(v: NesByte)
      modifies this
      ensures Snapshot() == old(Snapshot()).(y := v)
    {
      y := v;
    }

    /** `setZeroFlag(value)`: Z is set iff the value is 0. */
    method SetZeroFlag(value: NesByte)
      modifies this
      ensures Snapshot() == old(Snapshot()).(ps := old(ps).(zeroFlag := value == 0))
    {
      ps := ps.(zeroFlag := value == 0);
    }

    /** `setNegativeFlag(value)`: N copies bit 7 of the value. */
    method SetNegativeFlag(value: NesByte)
      modifies this
      ensures Snapshot() == old(Snapshot()).(ps := old(ps).(negativeFlag := IsNegative(value)))
    {
      ps := ps.(negativeFlag := IsNegative(value));
    }
  }
}

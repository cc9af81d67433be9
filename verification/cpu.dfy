/**
 * The CPU step (`CPU6502`): `clock` fetches the opcode at pc, looks it up
 * in the instruction table, advances pc past the opcode, resolves the
 * operand address and executes the instruction.
 *
 * The step is specified on values: a `Machine` is the register file and the
 * memory map, and `Step` is what one `clock` does to it. The class
 * `CPU6502` holds a `RAM` and a `CpuRegisters` object and updates them in
 * place; each of its methods is proved to leave the state its specification
 * function computes.
 *
 * What Kotlin throws is an `Outcome`: an opcode with no table row, a
 * mnemonic routed to `toImplement`, and a taken branch without a relative
 * address. The state in the result is the state at the moment of the throw.
 */
module Cpu {
  import opened Bits
  import opened Data
  import opened DataProperties
  import opened Memory
  import opened Registers
  import opened Addressing
  import opened Instructions
  import opened Decode

  datatype Machine = Machine(regs: RegisterFile, mem: Mem)

  datatype Outcome =
    | Completed
    | UnknownOpcode(opcode: NesByte)
    | NotImplemented(instruction: InstructionCode)
    | MissingRelativeAddress

  datatype StepResult = StepResult(outcome: Outcome, machine: Machine)

  /** `ram.STACK_ADDRESS + registers.sp`: the stack lies in page one, indexed by sp. */
  function StackSlot(sp: NesByte): (r: Address)
    ensures HighByte(r) == 1 && LowByte(r) == sp
  {
    DivUnique(0x100 + sp as int, 0x100, 1, sp as int);
    WordOf(0x100 + sp as int)
  }

  /** Three successive pushes use three different slots, none of them the BRK vector. */
  lemma StackSlotsDistinct(sp: NesByte)
    ensures ByteMinus(ByteMinus(sp, 1), 1) == ByteMinus(sp, 2)
    ensures StackSlot(sp) != StackSlot(ByteMinus(sp, 1))
    ensures StackSlot(sp) != StackSlot(ByteMinus(sp, 2))
    ensures StackSlot(ByteMinus(sp, 1)) != StackSlot(ByteMinus(sp, 2))
    ensures forall s: NesByte :: StackSlot(s) != 0xFFFE && StackSlot(s) != 0xFFFF
  {
    ByteMinusWraps(sp, 1);
    ByteMinusWraps(sp, 2);
    ByteMinusWraps(ByteMinus(sp, 1), 1);
    forall s: NesByte
      ensures StackSlot(s) != 0xFFFE && StackSlot(s) != 0xFFFF
    {
      assert HighByte(StackSlot(s)) == 1;
    }
  }

  /** The mnemonics `exe` sends to an `op` method rather than to `toImplement`. */
  predicate Implemented(code: InstructionCode)
  {
    || code.AND? || code.BRK? || IsBranch(code) || ClearsFlag(code) || Compares(code)
  }

  /** `opAND`: A := A and M, Z when the result is 0, N when its bit 7 is set. */
  function AndStep(m: Machine, d: DecodedAddressMode): (r: Machine)
    ensures var operand := Peek(m.mem, d.address);
      forall i: nat :: i < 8 ==> (ByteBit(r.regs.a, i) <==> ByteBit(m.regs.a, i) && ByteBit(operand, i))
    ensures r.regs.ps.zeroFlag <==> r.regs.a == 0
    ensures r.regs.ps.negativeFlag <==> r.regs.a >= 0x80
    ensures r.regs.ps.(zeroFlag := m.regs.ps.zeroFlag, negativeFlag := m.regs.ps.negativeFlag) == m.regs.ps
    ensures r.regs.(a := m.regs.a, ps := m.regs.ps) == m.regs
    ensures r.mem == m.mem
  {
    var operand := Peek(m.mem, d.address);
    var result := ByteAnd(m.regs.a, operand);
    IsNegativeIffHighHalf(result);
    var ps := m.regs.ps.(negativeFlag := IsNegative(result)).(zeroFlag := result == 0);
    m.(regs := m.regs.(ps := ps, a := result))
  }

  /**
   * `opBRK`: skip the padding byte, set B, push pc (low byte first) and then
   * the status with B and I set, decrementing sp after each of the first two
   * pushes only; then clear B and load pc from the vector at 0xFFFE.
   */
  function BrkStep(m: Machine): (r: Machine)
    ensures r.regs.(pc := m.regs.pc, sp := m.regs.sp, ps := m.regs.ps) == m.regs
  {
    var pc := WordPlus(m.regs.pc, 1);
    var ps1 := m.regs.ps.(breakCommand := true);
    var sp0 := m.regs.sp;
    var mem1 := Poke(m.mem, StackSlot(sp0), LowByte(pc));
    var sp1 := ByteMinus(sp0, 1);
    var mem2 := Poke(mem1, StackSlot(sp1), HighByte(pc));
    var sp2 := ByteMinus(sp1, 1);
    var ps2 := ps1.(interruptDisabled := true);
    var mem3 := Poke(mem2, StackSlot(sp2), Dump(ps2));
    var ps3 := ps2.(breakCommand := false);
    var newPc := WordFromBytes(Peek(mem3, 0xFFFE), Peek(mem3, 0xFFFF));
    Machine(m.regs.(pc := newPc, sp := sp2, ps := ps3), mem3)
  }

  /** The status byte `opBRK` pushes: the status with B and I set. */
  function BrkStatus(ps: ProcessorStatus): (b: NesByte)
    ensures StatusOf(b) == ps.(breakCommand := true, interruptDisabled := true)
  {
    DumpThenRead(ps.(breakCommand := true, interruptDisabled := true));
    Dump(ps.(breakCommand := true, interruptDisabled := true))
  }

  /**
   * `opBRK` pushes the address after its padding byte, low byte at sp and
   * high byte at sp - 1, and the status with B and I set at sp - 2.
   */
  lemma BrkPushes(m: Machine)
    ensures var sp := m.regs.sp;
      var pc := WordPlus(m.regs.pc, 1);
      var r := BrkStep(m).mem;
      && Peek(r, StackSlot(sp)) == LowByte(pc)
      && Peek(r, StackSlot(ByteMinus(sp, 1))) == HighByte(pc)
      && Peek(r, StackSlot(ByteMinus(sp, 2))) == BrkStatus(m.regs.ps)
  {
    var sp := m.regs.sp;
    var pc := WordPlus(m.regs.pc, 1);
    StackSlotsDistinct(sp);
    PokeThree(m.mem, StackSlot(sp), LowByte(pc), StackSlot(ByteMinus(sp, 1)), HighByte(pc),
              StackSlot(ByteMinus(ByteMinus(sp, 1), 1)), Dump(m.regs.ps.(breakCommand := true).(interruptDisabled := true)));
  }

  /** `opBRK` writes no cell but its three stack slots; in particular none outside page one. */
  lemma BrkKeepsOtherCells(m: Machine)
    ensures var sp := m.regs.sp;
      forall a :: a != StackSlot(sp) && a != StackSlot(ByteMinus(sp, 1)) && a != StackSlot(ByteMinus(sp, 2))
        ==> Peek(BrkStep(m).mem, a) == Peek(m.mem, a)
    ensures forall a :: HighByte(a) != 1 ==> Peek(BrkStep(m).mem, a) == Peek(m.mem, a)
  {
    var sp := m.regs.sp;
    var pc := WordPlus(m.regs.pc, 1);
    StackSlotsDistinct(sp);
    PokeThree(m.mem, StackSlot(sp), LowByte(pc), StackSlot(ByteMinus(sp, 1)), HighByte(pc),
              StackSlot(ByteMinus(ByteMinus(sp, 1), 1)), Dump(m.regs.ps.(breakCommand := true).(interruptDisabled := true)));
  }

  /**
   * After `opBRK` sp is two below where it was (the status push leaves it
   * alone), pc is the vector at 0xFFFE/0xFFFF, I is set and B is clear;
   * nothing else in the register file changes.
   */
  lemma BrkRegisters(m: Machine)
    ensures BrkStep(m).regs.sp == ByteMinus(m.regs.sp, 2)
    ensures BrkStep(m).regs.pc == WordFromBytes(Peek(m.mem, 0xFFFE), Peek(m.mem, 0xFFFF))
    ensures BrkStep(m).regs.ps == m.regs.ps.(interruptDisabled := true, breakCommand := false)
    ensures BrkStep(m).regs.(pc := m.regs.pc, sp := m.regs.sp, ps := m.regs.ps) == m.regs
  {
    BrkKeepsOtherCells(m);
    StackSlotsDistinct(m.regs.sp);
    assert HighByte(0xFFFE) != 1 && HighByte(0xFFFF) != 1;
  }

  /** The flag each conditional branch tests, and the value that makes it branch. */
  function BranchTaken(code: InstructionCode, ps: ProcessorStatus): bool
  {
    match code
    case BCC => !ps.carryBit
    case BCS => ps.carryBit
    case BEQ => ps.zeroFlag
    case BNE => !ps.zeroFlag
    case BPL => !ps.negativeFlag
    case BMI => ps.negativeFlag
    case BVC => !ps.overflowFlag
    case BVS => ps.overflowFlag
    case _ => false
  }

  /**
   * `opBCC` ... `opBVS`: pc advances by one, and when the branch is taken
   * the relative address is added to it, modulo 65536. A taken branch with
   * no relative address throws after the increment.
   */
  function BranchStep(m: Machine, d: DecodedAddressMode, taken: bool): (r: StepResult)
    ensures r.outcome == if taken && d.relativeAddress.None? then MissingRelativeAddress else Completed
    ensures r.machine.regs.pc as int
      == (m.regs.pc as int + 1 + (if taken && d.relativeAddress.Some? then d.relativeAddress.value as int else 0)) % 0x1_0000
    ensures r.machine.regs.(pc := m.regs.pc) == m.regs
    ensures r.machine.mem == m.mem
  {
    var pc := WordInc(m.regs.pc);
    assert pc as int == (m.regs.pc as int + 1) % 0x1_0000;
    if !taken then
      StepResult(Completed, m.(regs := m.regs.(pc := pc)))
    else
      match d.relativeAddress
      case None => StepResult(MissingRelativeAddress, m.(regs := m.regs.(pc := pc)))
      case Some(offset) =>
        var target := WordAdd(pc, offset);
        assert target as int == (m.regs.pc as int + 1 + offset as int) % 0x1_0000;
        StepResult(Completed, m.(regs := m.regs.(pc := target)))
  }

  /** The mnemonics whose `op` method clears one status flag. */
  predicate ClearsFlag(code: InstructionCode)
  {
    code.CLC? || code.CLD? || code.CLI? || code.CLV?
  }

  /** `opCLC`, `opCLD`, `opCLI`, `opCLV`: each clears its own flag and no other. */
  function ClearFlag(ps: ProcessorStatus, code: InstructionCode): (r: ProcessorStatus)
    requires ClearsFlag(code)
    ensures code.CLC? ==> !r.carryBit && r.(carryBit := ps.carryBit) == ps
    ensures code.CLD? ==> !r.decimalMode && r.(decimalMode := ps.decimalMode) == ps
    ensures code.CLI? ==> !r.interruptDisabled && r.(interruptDisabled := ps.interruptDisabled) == ps
    ensures code.CLV? ==> !r.overflowFlag && r.(overflowFlag := ps.overflowFlag) == ps
  {
    match code
    case CLC => ps.(carryBit := false)
    case CLD => ps.(decimalMode := false)
    case CLI => ps.(interruptDisabled := false)
    case CLV => ps.(overflowFlag := false)
  }

  /** The mnemonics whose `op` method compares a register with the operand. */
  predicate Compares(code: InstructionCode)
  {
    code.CMP? || code.CPX? || code.CPY?
  }

  /** The register CMP, CPX and CPY compare: A, X and Y. */
  function ComparedRegister(regs: RegisterFile, code: InstructionCode): NesByte
    requires Compares(code)
  {
    match code
    case CMP => regs.a
    case CPX => regs.x
    case CPY => regs.y
  }

  /**
   * `opCMP`, `opCPX`, `opCPY` with `reg` the compared register: pc advances
   * by one; C when M <= reg, Z when M == reg, and N from bit 7 of the Int
   * difference reg - M (`temp and 0x80 == 0x80`), which is bit 7 of the
   * difference modulo 256.
   */
  function CompareStep(m: Machine, d: DecodedAddressMode, reg: NesByte): (r: Machine)
    ensures var operand := Peek(m.mem, d.address);
      && (r.regs.ps.carryBit <==> operand <= reg)
      && (r.regs.ps.zeroFlag <==> operand == reg)
      && (r.regs.ps.negativeFlag <==> (reg as int - operand as int) % 0x100 >= 0x80)
    ensures r.regs.ps.(carryBit := m.regs.ps.carryBit, zeroFlag := m.regs.ps.zeroFlag, negativeFlag := m.regs.ps.negativeFlag)
      == m.regs.ps
    ensures r.regs.pc == WordInc(m.regs.pc)
    ensures r.regs.(pc := m.regs.pc, ps := m.regs.ps) == m.regs
    ensures r.mem == m.mem
  {
    var pc := WordInc(m.regs.pc);
    var operand := Peek(m.mem, d.address);
    var temp := reg as int - operand as int;
    assert ByteAnd(ByteOf(temp), 0x80) == 0x80 <==> ByteOf(temp) >= 0x80 by {
      AndSignBit(ByteOf(temp));
      IsNegativeIffHighHalf(ByteOf(temp));
    }
    var ps := m.regs.ps
      .(carryBit := ByteCompare(operand, reg) <= 0)
      .(zeroFlag := ByteEquals(operand, reg))
      .(negativeFlag := ByteAnd(ByteOf(temp), 0x80) == 0x80);
    m.(regs := m.regs.(pc := pc, ps := ps))
  }

  /**
   * `exe`: runs the `op` method of an implemented mnemonic; every other
   * mnemonic goes to `toImplement`, which throws and changes nothing.
   */
  function Execute(m: Machine, desc: InstructionDescription, d: DecodedAddressMode): (r: StepResult)
    ensures !r.outcome.UnknownOpcode?
    ensures r.outcome.NotImplemented? <==> !Implemented(desc.instruction)
  {
    match desc.instruction
    case AND => StepResult(Completed, AndStep(m, d))
    case BCC => BranchStep(m, d, BranchTaken(BCC, m.regs.ps))
    case BCS => BranchStep(m, d, BranchTaken(BCS, m.regs.ps))
    case BEQ => BranchStep(m, d, BranchTaken(BEQ, m.regs.ps))
    case BMI => BranchStep(m, d, BranchTaken(BMI, m.regs.ps))
    case BNE => BranchStep(m, d, BranchTaken(BNE, m.regs.ps))
    case BPL => BranchStep(m, d, BranchTaken(BPL, m.regs.ps))
    case BRK => StepResult(Completed, BrkStep(m))
    case BVC => BranchStep(m, d, BranchTaken(BVC, m.regs.ps))
    case BVS => BranchStep(m, d, BranchTaken(BVS, m.regs.ps))
    case CLC => StepResult(Completed, m.(regs := m.regs.(ps := ClearFlag(m.regs.ps, CLC))))
    case CLD => StepResult(Completed, m.(regs := m.regs.(ps := ClearFlag(m.regs.ps, CLD))))
    case CLI => StepResult(Completed, m.(regs := m.regs.(ps := ClearFlag(m.regs.ps, CLI))))
    case CLV => StepResult(Completed, m.(regs := m.regs.(ps := ClearFlag(m.regs.ps, CLV))))
    case CMP => StepResult(Completed, CompareStep(m, d, m.regs.a))
    case CPX => StepResult(Completed, CompareStep(m, d, m.regs.x))
    case CPY => StepResult(Completed, CompareStep(m, d, m.regs.y))
    case _ => StepResult(NotImplemented(desc.instruction), m)
  }

  /**
   * `exe` throws only for a mnemonic without an `op` method, which changes
   * nothing, and for a taken branch without a relative address.
   */
  lemma ExecuteOutcome(m: Machine, desc: InstructionDescription, d: DecodedAddressMode)
    ensures var r := Execute(m, desc, d);
      && (r.outcome.NotImplemented? <==> !Implemented(desc.instruction))
      && (r.outcome.NotImplemented? ==> r.outcome.instruction == desc.instruction && r.machine == m)
      && !r.outcome.UnknownOpcode?
      && (r.outcome == MissingRelativeAddress ==> IsBranch(desc.instruction) && d.relativeAddress.None?)
  {
    match desc.instruction
    case AND =>
    case BCC =>
    case BCS =>
    case BEQ =>
    case BMI =>
    case BNE =>
    case BPL =>
    case BRK =>
    case BVC =>
    case BVS =>
    case CLC =>
    case CLD =>
    case CLI =>
    case CLV =>
    case CMP =>
    case CPX =>
    case CPY =>
    case _ =>
  }

  /** `exe` never changes X, Y or the old `s` field, and changes A only under AND. */
  lemma ExecuteKeepsRegisters(m: Machine, desc: InstructionDescription, d: DecodedAddressMode)
    ensures var r := Execute(m, desc, d).machine;
      && r.regs.x == m.regs.x && r.regs.y == m.regs.y && r.regs.s == m.regs.s
      && (desc.instruction != AND ==> r.regs.a == m.regs.a)
  {
    match desc.instruction
    case BRK => BrkRegisters(m);
    case AND =>
    case BCC =>
    case BCS =>
    case BEQ =>
    case BMI =>
    case BNE =>
    case BPL =>
    case BVC =>
    case BVS =>
    case CLC =>
    case CLD =>
    case CLI =>
    case CLV =>
    case CMP =>
    case CPX =>
    case CPY =>
    case _ =>
  }

  /** `exe` changes memory only under BRK, and even then no cell outside the stack page. */
  lemma ExecuteKeepsMemory(m: Machine, desc: InstructionDescription, d: DecodedAddressMode)
    ensures var r := Execute(m, desc, d).machine;
      && (desc.instruction != BRK ==> r.mem == m.mem)
      && forall a :: HighByte(a) != 1 ==> Peek(r.mem, a) == Peek(m.mem, a)
  {
    match desc.instruction
    case BRK => BrkKeepsOtherCells(m);
    case AND =>
    case BCC =>
    case BCS =>
    case BEQ =>
    case BMI =>
    case BNE =>
    case BPL =>
    case BVC =>
    case BVS =>
    case CLC =>
    case CLD =>
    case CLI =>
    case CLV =>
    case CMP =>
    case CPX =>
    case CPY =>
    case _ =>
  }

  /**
   * `clock`: an opcode with no row throws before anything changes;
   * otherwise pc advances past the opcode, the operand address is resolved
   * from the advanced pc, and the instruction executes.
   */
  function Step(m: Machine): (r: StepResult)
    ensures r.outcome.UnknownOpcode? <==> FromMemory(Peek(m.mem, m.regs.pc)).None?
    ensures r.outcome.UnknownOpcode? ==> r.machine == m
  {
    var opcode := Peek(m.mem, m.regs.pc);
    match FromMemory(opcode)
    case None => StepResult(UnknownOpcode(opcode), m)
    case Some(desc) =>
      var m1 := m.(regs := m.regs.(pc := WordInc(m.regs.pc)));
      var decoded := DecodeOperationAddress(m1.mem, m1.regs.x, m1.regs.y, m1.regs.pc, desc.mode);
      Execute(m1, desc, decoded)
  }

  /**
   * A step throws before changing anything exactly when the opcode at pc
   * has no row; a mnemonic without an `op` method leaves only pc moved past
   * the opcode; and a branch never lacks its relative address, since every
   * branch row is Relative.
   */
  lemma StepOutcome(m: Machine)
    ensures var r := Step(m);
      && (r.outcome.UnknownOpcode? <==> FromMemory(Peek(m.mem, m.regs.pc)).None?)
      && (r.outcome.UnknownOpcode? ==> r == StepResult(UnknownOpcode(Peek(m.mem, m.regs.pc)), m))
      && (r.outcome.NotImplemented? ==> r.machine == m.(regs := m.regs.(pc := WordInc(m.regs.pc))))
      && r.outcome != MissingRelativeAddress
  {
    match FromMemory(Peek(m.mem, m.regs.pc))
    case None =>
    case Some(desc) =>
      var m1 := m.(regs := m.regs.(pc := WordInc(m.regs.pc)));
      var decoded := DecodeOperationAddress(m1.mem, m1.regs.x, m1.regs.y, m1.regs.pc, desc.mode);
      BranchRowsAreRelative();
      ExecuteOutcome(m1, desc, decoded);
  }

  /**
   * What a step never changes: X, Y, the old `s` field, and every cell
   * outside the stack page; A changes only under AND.
   */
  lemma StepFrame(m: Machine)
    ensures var r := Step(m).machine;
      && r.regs.x == m.regs.x && r.regs.y == m.regs.y && r.regs.s == m.regs.s
      && (r.regs.a != m.regs.a ==> FromMemory(Peek(m.mem, m.regs.pc)).value.instruction == AND)
      && forall a :: HighByte(a) != 1 ==> Peek(r.mem, a) == Peek(m.mem, a)
  {
    match FromMemory(Peek(m.mem, m.regs.pc))
    case None =>
    case Some(desc) =>
      var m1 := m.(regs := m.regs.(pc := WordInc(m.regs.pc)));
      var decoded := DecodeOperationAddress(m1.mem, m1.regs.x, m1.regs.y, m1.regs.pc, desc.mode);
      ExecuteKeepsRegisters(m1, desc, decoded);
      ExecuteKeepsMemory(m1, desc, decoded);
  }

  class CPU6502 {
    const ram: RAM
    const registers: CpuRegisters

    /** A CPU over the given RAM with a fresh register file. */
    constructor(ram: RAM)
      ensures this.ram == ram && fresh(registers)
      ensures State() == Machine(INITIAL_REGISTERS, ram.memory)
    {
      this.ram := ram;
      registers := new CpuRegisters();
    }

    function State(): Machine
      reads this, ram, registers
    {
      Machine(registers.Snapshot(), ram.memory)
    }

    /** `reset()`: resets the register file; the memory is left as it is. */
    method Reset()
      modifies registers
      ensures State() == old(State()).(regs := AfterReset(old(State()).regs))
    {
      registers.Reset();
    }

    /** `clock()`: one fetch, decode, resolve and execute. */
    method Clock() returns (outcome: Outcome)
      modifies ram, registers
      ensures StepResult(outcome, State()) == Step(old(State()))
    {
      var opcode := ram.Read(registers.pc);
      match FromMemory(opcode)
      case None =>
        outcome := UnknownOpcode(opcode);
      case Some(instruction) =>
        registers.pc := WordInc(registers.pc);
        var decodedAddressResult := DecodeOperationAddress(ram.memory, registers.x, registers.y, registers.pc, instruction.mode);
        outcome := Exe(instruction, decodedAddressResult);
    }

    /** `exe(instructionDescription, decodedAddress)`. */
    method Exe(instructionDescription: InstructionDescription, decodedAddress: DecodedAddressMode) returns (outcome: Outcome)
      modifies ram, registers
      ensures StepResult(outcome, State()) == Execute(old(State()), instructionDescription, decodedAddress)
    {
      ghost var before := State();
      ghost var expected := Execute(before, instructionDescription, decodedAddress);
      outcome := Completed;
      match instructionDescription.instruction
      case AND => OpAND(decodedAddress);
      case BCC => outcome := OpBCC(decodedAddress);
      case BCS => outcome := OpBCS(decodedAddress);
      case BEQ => outcome := OpBEQ(decodedAddress);
      case BMI => outcome := OpBMI(decodedAddress);
      case BNE => outcome := OpBNE(decodedAddress);
      case BPL => outcome := OpBPL(decodedAddress);
      case BRK => OpBRK(decodedAddress);
      case BVC => outcome := OpBVC(decodedAddress);
      case BVS => outcome := OpBVS(decodedAddress);
      case CLC => OpCLC(decodedAddress);
      case CLD => OpCLD(decodedAddress);
      case CLI => OpCLI(decodedAddress);
      case CLV => OpCLV(decodedAddress);
      case CMP => OpCMP(decodedAddress);
      case CPX => OpCPX(decodedAddress);
      case CPY => OpCPY(decodedAddress);
      case _ => outcome := NotImplemented(instructionDescription.instruction);
    }

    method OpAND(decodedAddress: DecodedAddressMode)
      modifies registers
      ensures State() == AndStep(old(State()), decodedAddress)
    {
      var operand := ram.Read(decodedAddress.address);
      var result := ByteAnd(registers.a, operand);
      registers.SetNegativeFlag(result);
      registers.SetZeroFlag(result);
      registers.a := result;
    }

    method OpBRK(decodedAddress: DecodedAddressMode)
      modifies ram, registers
      ensures State() == BrkStep(old(State()))
    {
      ghost var regs;
      registers.pc := WordPlus(registers.pc, 1);
      registers.ps := registers.ps.(breakCommand := true);
      regs := registers.Snapshot();
      ram.Write(StackSlot(registers.sp), LowByte(registers.pc));
      assert registers.Snapshot() == regs;
      registers.sp := ByteMinus(registers.sp, 1);
      regs := registers.Snapshot();
      ram.Write(StackSlot(registers.sp), HighByte(registers.pc));
      assert registers.Snapshot() == regs;
      registers.sp := ByteMinus(registers.sp, 1);
      registers.ps := registers.ps.(interruptDisabled := true);
      regs := registers.Snapshot();
      ram.Write(StackSlot(registers.sp), Dump(registers.ps));
      assert registers.Snapshot() == regs;
      registers.ps := registers.ps.(breakCommand := false);
      var loByte := ram.Read(0xFFFE);
      var hiByte := ram.Read(0xFFFF);
      registers.pc := WordFromBytes(loByte, hiByte);
    }

    method OpBCC(decodedAddress: DecodedAddressMode) returns (outcome: Outcome)
      modifies registers
      ensures StepResult(outcome, State()) == BranchStep(old(State()), decodedAddress, !old(registers.ps.carryBit))
    {
      registers.pc := WordInc(registers.pc);
      outcome := Completed;
      if !registers.ps.carryBit {
        match decodedAddress.relativeAddress
        case None => outcome := MissingRelativeAddress;
        case Some(offset) => registers.pc := WordAdd(registers.pc, offset);
      }
    }

    method OpBCS(decodedAddress: DecodedAddressMode) returns (outcome: Outcome)
      modifies registers
      ensures StepResult(outcome, State()) == BranchStep(old(State()), decodedAddress, old(registers.ps.carryBit))
    {
      registers.pc := WordInc(registers.pc);
      outcome := Completed;
      if registers.ps.carryBit {
        match decodedAddress.relativeAddress
        case None => outcome := MissingRelativeAddress;
        case Some(offset) => registers.pc := WordAdd(registers.pc, offset);
      }
    }

    method OpBEQ(decodedAddress: DecodedAddressMode) returns (outcome: Outcome)
      modifies registers
      ensures StepResult(outcome, State()) == BranchStep(old(State()), decodedAddress, old(registers.ps.zeroFlag))
    {
      registers.pc := WordInc(registers.pc);
      outcome := Completed;
      if registers.ps.zeroFlag {
        match decodedAddress.relativeAddress
        case None => outcome := MissingRelativeAddress;
        case Some(offset) => registers.pc := WordAdd(registers.pc, offset);
      }
    }

    method OpBNE(decodedAddress: DecodedAddressMode) returns (outcome: Outcome)
      modifies registers
      ensures StepResult(outcome, State()) == BranchStep(old(State()), decodedAddress, !old(registers.ps.zeroFlag))
    {
      registers.pc := WordInc(registers.pc);
      outcome := Completed;
      if !registers.ps.zeroFlag {
        match decodedAddress.relativeAddress
        case None => outcome := MissingRelativeAddress;
        case Some(offset) => registers.pc := WordAdd(registers.pc, offset);
      }
    }

    method OpBPL(decodedAddress: DecodedAddressMode) returns (outcome: Outcome)
      modifies registers
      ensures StepResult(outcome, State()) == BranchStep(old(State()), decodedAddress, !old(registers.ps.negativeFlag))
    {
      registers.pc := WordInc(registers.pc);
      outcome := Completed;
      if !registers.ps.negativeFlag {
        match decodedAddress.relativeAddress
        case None => outcome := MissingRelativeAddress;
        case Some(offset) => registers.pc := WordAdd(registers.pc, offset);
      }
    }

    method OpBMI(decodedAddress: DecodedAddressMode) returns (outcome: Outcome)
      modifies registers
      ensures StepResult(outcome, State()) == BranchStep(old(State()), decodedAddress, old(registers.ps.negativeFlag))
    {
      registers.pc := WordInc(registers.pc);
      outcome := Completed;
      if registers.ps.negativeFlag {
        match decodedAddress.relativeAddress
        case None => outcome := MissingRelativeAddress;
        case Some(offset) => registers.pc := WordAdd(registers.pc, offset);
      }
    }

    method OpBVC(decodedAddress: DecodedAddressMode) returns (outcome: Outcome)
      modifies registers
      ensures StepResult(outcome, State()) == BranchStep(old(State()), decodedAddress, !old(registers.ps.overflowFlag))
    {
      registers.pc := WordInc(registers.pc);
      outcome := Completed;
      if !registers.ps.overflowFlag {
        match decodedAddress.relativeAddress
        case None => outcome := MissingRelativeAddress;
        case Some(offset) => registers.pc := WordAdd(registers.pc, offset);
      }
    }

    method OpBVS(decodedAddress: DecodedAddressMode) returns (outcome: Outcome)
      modifies registers
      ensures StepResult(outcome, State()) == BranchStep(old(State()), decodedAddress, old(registers.ps.overflowFlag))
    {
      registers.pc := WordInc(registers.pc);
      outcome := Completed;
      if registers.ps.overflowFlag {
        match decodedAddress.relativeAddress
        case None => outcome := MissingRelativeAddress;
        case Some(offset) => registers.pc := WordAdd(registers.pc, offset);
      }
    }

    method OpCLC(decodedAddress: DecodedAddressMode)
      modifies registers
      ensures State() == old(State()).(regs := old(State()).regs.(ps := ClearFlag(old(registers.ps), CLC)))
    {
      registers.ps := registers.ps.(carryBit := false);
    }

    method OpCLD(decodedAddress: DecodedAddressMode)
      modifies registers
      ensures State() == old(State()).(regs := old(State()).regs.(ps := ClearFlag(old(registers.ps), CLD)))
    {
      registers.ps := registers.ps.(decimalMode := false);
    }

    method OpCLI(decodedAddress: DecodedAddressMode)
      modifies registers
      ensures State() == old(State()).(regs := old(State()).regs.(ps := ClearFlag(old(registers.ps), CLI)))
    {
      registers.ps := registers.ps.(interruptDisabled := false);
    }

    method OpCLV(decodedAddress: DecodedAddressMode)
      modifies registers
      ensures State() == old(State()).(regs := old(State()).regs.(ps := ClearFlag(old(registers.ps), CLV)))
    {
      registers.ps := registers.ps.(overflowFlag := false);
    }

    method OpCMP(decodedAddress: DecodedAddressMode)
      modifies registers
      ensures State() == CompareStep(old(State()), decodedAddress, old(registers.a))
    {
      registers.pc := WordInc(registers.pc);
      var operand := ram.Read(decodedAddress.address);
      var temp := registers.a as int - operand as int;
      registers.ps := registers.ps.(carryBit := ByteCompare(operand, registers.a) <= 0);
      registers.ps := registers.ps.(zeroFlag := ByteEquals(operand, registers.a));
      registers.ps := registers.ps.(negativeFlag := ByteAnd(ByteOf(temp), 0x80) == 0x80);
    }

    method OpCPX(decodedAddress: DecodedAddressMode)
      modifies registers
      ensures State() == CompareStep(old(State()), decodedAddress, old(registers.x))
    {
      registers.pc := WordInc(registers.pc);
      var operand := ram.Read(decodedAddress.address);
      var temp := registers.x as int - operand as int;
      registers.ps := registers.ps.(carryBit := ByteCompare(operand, registers.x) <= 0);
      registers.ps := registers.ps.(zeroFlag := ByteEquals(operand, registers.x));
      registers.ps := registers.ps.(negativeFlag := ByteAnd(ByteOf(temp), 0x80) == 0x80);
    }

    method OpCPY(decodedAddress: DecodedAddressMode)
      modifies registers
      ensures State() == CompareStep(old(State()), decodedAddress, old(registers.y))
    {
      registers.pc := WordInc(registers.pc);
      var operand := ram.Read(decodedAddress.address);
      var temp := registers.y as int - operand as int;
      registers.ps := registers.ps.(carryBit := ByteCompare(operand, registers.y) <= 0);
      registers.ps := registers.ps.(zeroFlag := ByteEquals(operand, registers.y));
      registers.ps := registers.ps.(negativeFlag := ByteAnd(ByteOf(temp), 0x80) == 0x80);
    }
  }
}

/**
 * Properties of one `clock` step: what a step never changes, how each
 * implemented instruction moves pc, the scenarios of the opcode tests, and
 * the places where the step departs from the 6502 it describes.
 */
module CpuProperties {
  import opened Bits
  import opened Data
  import opened DataProperties
  import opened Memory
  import opened Registers
  import opened Addressing
  import opened Instructions
  import opened Decode
  import opened Cpu

  /** A step on a row's opcode executes that row, after pc has moved past the opcode. */
  lemma StepOnRow(m: Machine, i: nat)
    requires i < 58
    requires Peek(m.mem, m.regs.pc) == Row(i).opcode
    ensures var m1 := m.(regs := m.regs.(pc := WordInc(m.regs.pc)));
      Step(m) == Execute(m1, Row(i), DecodeOperationAddress(m.mem, m.regs.x, m.regs.y, m1.regs.pc, Row(i).mode))
  {
    RowLookup(i);
  }

  /** Every mnemonic without an `op` method aborts with only pc advanced. */
  lemma NotImplementedRows(m: Machine, i: nat)
    requires i < 58 && !Implemented(Row(i).instruction)
    requires Peek(m.mem, m.regs.pc) == Row(i).opcode
    ensures Step(m) == StepResult(NotImplemented(Row(i).instruction), m.(regs := m.regs.(pc := WordInc(m.regs.pc))))
  {
    StepOnRow(m, i);
    var m1 := m.(regs := m.regs.(pc := WordInc(m.regs.pc)));
    ExecuteOutcome(m1, Row(i), DecodeOperationAddress(m.mem, m.regs.x, m.regs.y, m1.regs.pc, Row(i).mode));
  }

  /** LDA immediate (0xA9) has no row: the step aborts and nothing changes. */
  lemma UnknownOpcodeScenario(m: Machine)
    requires Peek(m.mem, m.regs.pc) == 0xA9
    ensures Step(m) == StepResult(UnknownOpcode(0xA9), m)
  {
    UnknownOpcodes();
  }

  /** A step on an opcode that has a row executes that row, after pc has moved past the opcode. */
  lemma StepOnDescription(m: Machine, desc: InstructionDescription)
    requires FromMemory(Peek(m.mem, m.regs.pc)) == Some(desc)
    ensures desc in VALUES
    ensures var m1 := m.(regs := m.regs.(pc := WordInc(m.regs.pc)));
      Step(m) == Execute(m1, desc, DecodeOperationAddress(m.mem, m.regs.x, m.regs.y, m1.regs.pc, desc.mode))
  {
  }

  /** `exe` on a branch mnemonic is that branch's step. */
  lemma ExecuteBranch(m: Machine, desc: InstructionDescription, d: DecodedAddressMode)
    requires IsBranch(desc.instruction)
    ensures Execute(m, desc, d) == BranchStep(m, d, BranchTaken(desc.instruction, m.regs.ps))
  {
    match desc.instruction
    case BCC =>
    case BCS =>
    case BEQ =>
    case BNE =>
    case BPL =>
    case BMI =>
    case BVC =>
    case BVS =>
  }

  /**
   * Where a branch two bytes long at pc whose operand encodes the offset k
   * ends: pc + 2 when not taken, and pc + 2 + (k mod 256) when taken, so a
   * negative k lands 256 bytes further on than pc + 2 + k.
   */
  function BranchTarget(pc: Word, k: int, taken: bool): Word
    requires -0x80 <= k < 0x80
  {
    ((pc as int + 2 + (if taken then k % 0x100 else 0)) % 0x1_0000) as Word
  }

  /** Not taken, a branch ends after its operand; taken, k is added, and a negative k also 256. */
  lemma BranchTargetCases(pc: Word, k: int, taken: bool)
    requires -0x80 <= k < 0x80
    ensures !taken ==> BranchTarget(pc, k, taken) as int == (pc as int + 2) % 0x1_0000
    ensures taken && k >= 0 ==> BranchTarget(pc, k, taken) as int == (pc as int + 2 + k) % 0x1_0000
    ensures taken && k < 0 ==> BranchTarget(pc, k, taken) as int == (pc as int + 0x102 + k) % 0x1_0000
  {
    if k < 0 {
      DivUnique(k, 0x100, -1, k + 0x100);
    } else {
      DivUnique(k, 0x100, 0, k);
    }
  }

  /** A branch whose operand encodes the offset k as k + 128 completes at its `BranchTarget`. */
  lemma BranchDisplacement(m: Machine, desc: InstructionDescription, k: int)
    requires FromMemory(Peek(m.mem, m.regs.pc)) == Some(desc) && IsBranch(desc.instruction)
    requires -0x80 <= k < 0x80
    requires Peek(m.mem, WordInc(m.regs.pc)) as int == k + 0x80
    ensures Step(m).outcome == Completed
    ensures Step(m).machine.regs.pc == BranchTarget(m.regs.pc, k, BranchTaken(desc.instruction, m.regs.ps))
  {
    var m1 := m.(regs := m.regs.(pc := WordInc(m.regs.pc)));
    var taken := BranchTaken(desc.instruction, m.regs.ps);
    var r := BranchStep(m1, ResolveRelative(m.mem, m1.regs.pc), taken);
    BranchOnOffset(m, m1, taken, k, r);
    BranchKeepsAllButPc(m, m1, taken, r);
    StepOnBranch(m, desc);
  }

  /** A branch changes pc only: the other registers, the flags and the memory stay as they were. */
  lemma BranchMovesOnlyPc(m: Machine, desc: InstructionDescription)
    requires FromMemory(Peek(m.mem, m.regs.pc)) == Some(desc) && IsBranch(desc.instruction)
    ensures Step(m).outcome == Completed
    ensures Step(m).machine.regs.(pc := m.regs.pc) == m.regs && Step(m).machine.mem == m.mem
  {
    var m1 := m.(regs := m.regs.(pc := WordInc(m.regs.pc)));
    var taken := BranchTaken(desc.instruction, m.regs.ps);
    var r := BranchStep(m1, ResolveRelative(m.mem, m1.regs.pc), taken);
    BranchKeepsAllButPc(m, m1, taken, r);
    StepOnBranch(m, desc);
  }

  /** The branch step on an operand that encodes k ends at `BranchTarget`. */
  lemma BranchOnOffset(m: Machine, m1: Machine, taken: bool, k: int, r: StepResult)
    requires m1 == m.(regs := m.regs.(pc := WordInc(m.regs.pc)))
    requires -0x80 <= k < 0x80
    requires Peek(m.mem, m1.regs.pc) as int == k + 0x80
    requires r == BranchStep(m1, ResolveRelative(m.mem, m1.regs.pc), taken)
    ensures r.machine.regs.pc == BranchTarget(m.regs.pc, k, taken)
  {
    var d := ResolveRelative(m.mem, m1.regs.pc);
    OffsetLandsAtTarget(m.regs.pc, m1.regs.pc, k, taken, d.relativeAddress.value as int, r.machine.regs.pc);
  }

  /**
   * Moving pc past the opcode, then past the operand and, when taken, by the
   * unsigned offset v = k mod 256, ends at `BranchTarget`.
   */
  lemma OffsetLandsAtTarget(pc: Word, pc1: Word, k: int, taken: bool, v: int, t: Word)
    requires -0x80 <= k < 0x80
    requires pc1 == WordInc(pc)
    requires v == k % 0x100
    requires t as int == (pc1 as int + 1 + (if taken then v else 0)) % 0x1_0000
    ensures t == BranchTarget(pc, k, taken)
  {
    WrapAdd(pc as int + 1, 1 + (if taken then v else 0), 0x1_0000);
  }

  /** The branch step on a Relative resolution changes nothing but pc. */
  lemma BranchKeepsAllButPc(m: Machine, m1: Machine, taken: bool, r: StepResult)
    requires m1 == m.(regs := m.regs.(pc := WordInc(m.regs.pc)))
    requires r == BranchStep(m1, ResolveRelative(m.mem, m1.regs.pc), taken)
    ensures r.outcome == Completed
    ensures r.machine.regs.(pc := m.regs.pc) == m.regs && r.machine.mem == m.mem
  {
  }

  /** A step on a branch opcode is that branch's step on the Relative resolution of its operand. */
  lemma StepOnBranch(m: Machine, desc: InstructionDescription)
    requires FromMemory(Peek(m.mem, m.regs.pc)) == Some(desc) && IsBranch(desc.instruction)
    ensures var m1 := m.(regs := m.regs.(pc := WordInc(m.regs.pc)));
      Step(m) == BranchStep(m1, ResolveRelative(m.mem, m1.regs.pc), BranchTaken(desc.instruction, m.regs.ps))
  {
    var m1 := m.(regs := m.regs.(pc := WordInc(m.regs.pc)));
    StepOnDescription(m, desc);
    assert desc.mode == Relative by {
      BranchRowsAreRelative();
    }
    ExecuteBranch(m1, desc, DecodeOperationAddress(m.mem, m.regs.x, m.regs.y, m1.regs.pc, desc.mode));
  }

  /** Adding after a reduction modulo n is adding before it. */
  lemma WrapAdd(a: int, b: int, n: int)
    requires n >= 1
    ensures (a % n + b) % n == (a + b) % n
  {
    var q := a / n;
    assert a % n + b == (a + b) + n * (-q);
    DivUnique(a % n + b, n, (a + b) / n - q, (a + b) % n);
  }

  /**
   * The branch tests: opcode at 0 and operand 136 (offset 8) end at pc 10
   * when the branch is taken and at pc 2 when it is not.
   */
  lemma BranchTestScenario(m: Machine, desc: InstructionDescription)
    requires m.regs.pc == 0 && Peek(m.mem, 1) == 136
    requires FromMemory(Peek(m.mem, 0)) == Some(desc) && IsBranch(desc.instruction)
    ensures Step(m).machine.regs.pc == if BranchTaken(desc.instruction, m.regs.ps) then 10 else 2
  {
    assert WordInc(m.regs.pc) == 1;
    BranchDisplacement(m, desc, 8);
    BranchTargetsFromZero();
  }

  /**
   * The BCC test's second case as the test chains it: the first case (carry
   * set, not taken) leaves pc on 2, `reset` keeps pc and the carry, and
   * rewriting cells 0 and 1 changes nothing, so the next `clock` fetches the
   * unwritten cell 2, which reads 0x00, and runs BRK instead of BCC.
   */
  lemma BranchTestSecondCaseAsChained()
    ensures var m0 := Program(0x90, 136, INITIAL_REGISTERS.(ps := CLEARED_STATUS.(carryBit := true)));
      var m1 := Step(m0).machine;
      var m2 := m1.(regs := AfterReset(m1.regs));
      && m2.regs.pc == 2 && m2.regs.ps.carryBit && m2.mem == m0.mem && Peek(m2.mem, 2) == 0x00
      && Step(m2) == StepResult(Completed, BrkStep(m2.(regs := m2.regs.(pc := 3))))
  {
    var m0 := Program(0x90, 136, INITIAL_REGISTERS.(ps := CLEARED_STATUS.(carryBit := true)));
    var desc := InstructionDescription(0x90, BCC, Relative);
    RowDecodes(18, desc);
    BranchTestScenario(m0, desc);
    BranchMovesOnlyPc(m0, desc);
    var m1 := Step(m0).machine;
    var m2 := m1.(regs := AfterReset(m1.regs));
    assert WordInc(2) == 3;
    StepOnBreak(m2);
  }

  /** From pc 0 with the offset 8, a branch ends at 10 when taken and at 2 when not. */
  lemma BranchTargetsFromZero()
    ensures BranchTarget(0, 8, true) == 10 && BranchTarget(0, 8, false) == 2
  {
    DivUnique(8, 0x100, 0, 8);
    DivUnique(10, 0x1_0000, 0, 10);
    DivUnique(2, 0x1_0000, 0, 2);
  }

  /**
   * A taken branch with a negative offset goes forward: the offset -1 is
   * kept as the relative address 0x00FF, so pc becomes pc + 2 + 255 rather
   * than pc + 1.
   */
  lemma BranchBackwardGoesForward(pc: Word)
    ensures BranchTarget(pc, -1, true) as int == (pc as int + 0x101) % 0x1_0000
    ensures BranchTarget(pc, -1, true) as int != (pc as int + 1) % 0x1_0000
  {
    if pc as int + 0x101 >= 0x1_0000 {
      assert (pc as int + 0x101) % 0x1_0000 == pc as int + 0x101 - 0x1_0000;
    }
  }

  /** CLC, CLD, CLI, CLV clear their flag and advance pc past the opcode only. */
  lemma ClearFlagRows(m: Machine)
    requires FromMemory(Peek(m.mem, m.regs.pc)).Some?
    requires FromMemory(Peek(m.mem, m.regs.pc)).value.instruction in {CLC, CLD, CLI, CLV}
    ensures var code := FromMemory(Peek(m.mem, m.regs.pc)).value.instruction;
      Step(m) == StepResult(Completed, m.(regs := m.regs.(pc := WordInc(m.regs.pc), ps := ClearFlag(m.regs.ps, code))))
  {
    var desc := FromMemory(Peek(m.mem, m.regs.pc)).value;
    StepOnDescription(m, desc);
    var m1 := m.(regs := m.regs.(pc := WordInc(m.regs.pc)));
    ExecuteClear(m1, desc, DecodeOperationAddress(m.mem, m.regs.x, m.regs.y, m1.regs.pc, desc.mode));
  }

  /** `exe` on CLC, CLD, CLI or CLV clears that flag. */
  lemma ExecuteClear(m: Machine, desc: InstructionDescription, d: DecodedAddressMode)
    requires desc.instruction in {CLC, CLD, CLI, CLV}
    ensures Execute(m, desc, d) == StepResult(Completed, m.(regs := m.regs.(ps := ClearFlag(m.regs.ps, desc.instruction))))
  {
    match desc.instruction
    case CLC =>
    case CLD =>
    case CLI =>
    case CLV =>
  }

  /** `exe` on CMP, CPX or CPY compares against A, X or Y. */
  lemma ExecuteCompare(m: Machine, desc: InstructionDescription, d: DecodedAddressMode)
    requires Compares(desc.instruction)
    ensures Execute(m, desc, d) == StepResult(Completed, CompareStep(m, d, ComparedRegister(m.regs, desc.instruction)))
  {
    match desc.instruction
    case CMP =>
    case CPX =>
    case CPY =>
  }

  /** A two-byte program at address 0 over registers that start as after power-up. */
  function Program(opcode: NesByte, operand: NesByte, regs: RegisterFile): (m: Machine)
    ensures Peek(m.mem, 0) == opcode && Peek(m.mem, 1) == operand
    ensures m.regs == regs.(pc := 0)
  {
    Machine(regs.(pc := 0), map[0 := opcode, 1 := operand])
  }

  /**
   * AND of the accumulator 0x8F with the immediate operand 0x8F (opcode
   * 0x29): 0x8F with N set. In both AND tests pc stays on the operand byte,
   * since `opAND` does not advance it.
   */
  lemma AndTestNegative()
    ensures var r := Step(Program(0x29, 0x8F, INITIAL_REGISTERS.(a := 0x8F))).machine.regs;
      r.a == 0x8F && r.ps.negativeFlag && !r.ps.zeroFlag && r.pc == 1
  {
    StepOnRow(Program(0x29, 0x8F, INITIAL_REGISTERS.(a := 0x8F)), 0);
    ByteAndLaws(0x8F, 0x8F);
  }

  /**
   * The AND test's second case as the test chains it: `reset` keeps pc on the
   * operand byte left by the first case, so the next `clock` fetches 0x8F,
   * which has no row, and throws.
   */
  lemma AndTestSecondCaseAsChained()
    ensures var m1 := Step(Program(0x29, 0x8F, INITIAL_REGISTERS.(a := 0x8F))).machine;
      var m2 := m1.(regs := AfterReset(m1.regs).(a := 0x70));
      m2.regs.pc == 1 && Step(m2) == StepResult(UnknownOpcode(0x8F), m2)
  {
    var m0 := Program(0x29, 0x8F, INITIAL_REGISTERS.(a := 0x8F));
    AndTestNegative();
    StepOnRow(m0, 0);
    UnknownOpcodes();
  }

  /** AND of the accumulator 0x70 with the operand 0x8F: 0 with Z set and N clear. */
  lemma AndTestZero()
    ensures var r := Step(Program(0x29, 0x8F, INITIAL_REGISTERS.(a := 0x70))).machine.regs;
      r.a == 0 && !r.ps.negativeFlag && r.ps.zeroFlag && r.pc == 1
  {
    StepOnRow(Program(0x29, 0x8F, INITIAL_REGISTERS.(a := 0x70)), 0);
    DisjointAndIsZero();
  }

  lemma DisjointAndIsZero()
    ensures ByteAnd(0x70, 0x8F) == 0
  {
    Pow2Constants();
    var r := ByteAnd(0x70, 0x8F);
    forall i: nat | i < 8
      ensures ByteBit(r, i) == ByteBit(0, i)
    {
      BitAndSingle(0x70, i, 8);
    }
    ByteBitsDetermine(r, 0);
  }

  /**
   * The CMP test's second case as the test chains it: the first case leaves
   * pc past the operand on 2, `reset` keeps it there, and the next `clock`
   * fetches the unwritten cell 2, which reads 0x00, and runs BRK instead of
   * CMP.
   */
  lemma CompareTestSecondCaseAsChained()
    ensures var m0 := Program(0xC9, 0x00, INITIAL_REGISTERS.(a := 0x01));
      var m1 := Step(m0).machine;
      var m2 := m1.(regs := AfterReset(m1.regs).(a := 0x01)).(mem := Poke(Poke(m1.mem, 0, 0xC9), 1, 0x01));
      && m2.regs.pc == 2 && Peek(m2.mem, 2) == 0x00
      && Step(m2) == StepResult(Completed, BrkStep(m2.(regs := m2.regs.(pc := 3))))
  {
    var m0 := Program(0xC9, 0x00, INITIAL_REGISTERS.(a := 0x01));
    assert CompareImmediateRow(CMP).opcode == 0xC9;
    assert m0 == Program(CompareImmediateRow(CMP).opcode, 0x00, CompareTestRegisters(CMP, 0x01));
    CompareTestStep(CMP, m0, 0x01, 0x00);
    StepFrame(m0);
    var m1 := Step(m0).machine;
    assert HighByte(2) != 1;
    var m2 := m1.(regs := AfterReset(m1.regs).(a := 0x01)).(mem := Poke(Poke(m1.mem, 0, 0xC9), 1, 0x01));
    assert Peek(m2.mem, 2) == Peek(m1.mem, 2);
    assert WordInc(2) == 3;
    StepOnBreak(m2);
  }

  /** The carry, zero and negative flags, the three the compare tests check. */
  function CarryZeroNegative(m: Machine): (bool, bool, bool)
  {
    (m.regs.ps.carryBit, m.regs.ps.zeroFlag, m.regs.ps.negativeFlag)
  }

  /** The flags `CompareStep` leaves for a register value and an operand. */
  function CompareFlags(reg: NesByte, operand: NesByte): (f: (bool, bool, bool))
    ensures f.0 <==> operand <= reg
    ensures f.1 <==> operand == reg
    ensures f.2 <==> (reg as int - operand as int) % 0x100 >= 0x80
  {
    CarryZeroNegative(CompareStep(Program(0, operand, INITIAL_REGISTERS), DecodedAddressMode(1, None), reg))
  }

  /** The Immediate row of CMP, CPX or CPY, as the compare tests ask for it by mnemonic and mode. */
  function CompareImmediateRow(code: InstructionCode): (d: InstructionDescription)
    requires Compares(code)
    ensures FromInstructionCode(code, Immediate) == Some(d)
    ensures FromMemory(d.opcode) == Some(d)
  {
    match code
    case CMP =>
      TestRow(30, InstructionDescription(0xC9, CMP, Immediate));
      InstructionDescription(0xC9, CMP, Immediate)
    case CPX =>
      TestRow(38, InstructionDescription(0xE0, CPX, Immediate));
      InstructionDescription(0xE0, CPX, Immediate)
    case CPY =>
      TestRow(41, InstructionDescription(0xC0, CPY, Immediate));
      InstructionDescription(0xC0, CPY, Immediate)
  }

  /** A compare test's registers: `reg` in the register `code` compares, the rest as after power-up. */
  function CompareTestRegisters(code: InstructionCode, reg: NesByte): (r: RegisterFile)
    requires Compares(code)
    ensures ComparedRegister(r, code) == reg
    ensures r.pc == 0
  {
    match code
    case CMP => INITIAL_REGISTERS.(a := reg)
    case CPX => INITIAL_REGISTERS.(x := reg)
    case CPY => INITIAL_REGISTERS.(y := reg)
  }

  /**
   * One `clock` of a compare test from pc 0: the Immediate row of `code` in
   * cell 0, the operand in cell 1 and `reg` in the register compared. The
   * step completes with pc past the operand and the flags `CompareFlags` gives.
   */
  function CompareTest(code: InstructionCode, reg: NesByte, operand: NesByte): (r: StepResult)
    requires Compares(code)
    ensures r.outcome == Completed && r.machine.regs.pc == 2
    ensures CarryZeroNegative(r.machine) == CompareFlags(reg, operand)
  {
    var m := Program(CompareImmediateRow(code).opcode, operand, CompareTestRegisters(code, reg));
    CompareTestStep(code, m, reg, operand);
    Step(m)
  }

  /** The step of a compare test is the compare step on the operand byte, after pc moves to it. */
  lemma CompareTestStep(code: InstructionCode, m: Machine, reg: NesByte, operand: NesByte)
    requires Compares(code)
    requires m == Program(CompareImmediateRow(code).opcode, operand, CompareTestRegisters(code, reg))
    ensures Step(m).outcome == Completed && Step(m).machine.regs.pc == 2
    ensures CarryZeroNegative(Step(m).machine) == CompareFlags(reg, operand)
  {
    var d := CompareImmediateRow(code);
    var regs := CompareTestRegisters(code, reg);
    assert m.regs == regs;
    assert FromMemory(Peek(m.mem, m.regs.pc)) == Some(d);
    assert d.instruction == code && d.mode == Immediate;
    CompareRows(m);
    assert WordInc(0) == 1;
    var m1 := m.(regs := m.regs.(pc := 1));
    ImmediateIsOperandByte(m.mem, m.regs.x, m.regs.y, 1);
    var c := CompareStep(m1, DecodedAddressMode(1, None), reg);
    assert Step(m) == StepResult(Completed, c);
    CompareOnOperandByte(m1, reg, operand);
  }

  /** The compare step on the byte at 1, with pc on it, moves pc to 2 and leaves `CompareFlags`. */
  lemma CompareOnOperandByte(m: Machine, reg: NesByte, operand: NesByte)
    requires m.regs.pc == 1 && Peek(m.mem, 1) == operand
    ensures var c := CompareStep(m, DecodedAddressMode(1, None), reg);
      c.regs.pc == 2 && CarryZeroNegative(c) == CompareFlags(reg, operand)
  {
    assert WordInc(1) == 2;
  }

  /**
   * The CMP, CPX and CPY tests as (C, Z, N), each case one `clock` from pc
   * 0: A = 1 against 0, 1 and 2; X and Y = 0x10 against 0x01, 0x10 and
   * 0x12. N is bit 7 of the difference, so 0xFF against 0 also sets N
   * although 0xFF is the larger.
   */
  lemma CompareTestScenarios()
    ensures CarryZeroNegative(CompareTest(CMP, 0x01, 0x00).machine) == (true, false, false)
    ensures CarryZeroNegative(CompareTest(CMP, 0x01, 0x01).machine) == (true, true, false)
    ensures CarryZeroNegative(CompareTest(CMP, 0x01, 0x02).machine) == (false, false, true)
    ensures CarryZeroNegative(CompareTest(CPX, 0x10, 0x01).machine) == (true, false, false)
    ensures CarryZeroNegative(CompareTest(CPX, 0x10, 0x10).machine) == (true, true, false)
    ensures CarryZeroNegative(CompareTest(CPX, 0x10, 0x12).machine) == (false, false, true)
    ensures CarryZeroNegative(CompareTest(CPY, 0x10, 0x01).machine) == (true, false, false)
    ensures CarryZeroNegative(CompareTest(CPY, 0x10, 0x10).machine) == (true, true, false)
    ensures CarryZeroNegative(CompareTest(CPY, 0x10, 0x12).machine) == (false, false, true)
    ensures CarryZeroNegative(CompareTest(CMP, 0xFF, 0x00).machine) == (true, false, true)
  {
  }

  /**
   * A step on a CMP, CPX or CPY row is the compare step with A, X or Y,
   * on the operand address resolved after pc has moved past the opcode.
   */
  lemma CompareRows(m: Machine)
    requires FromMemory(Peek(m.mem, m.regs.pc)).Some?
    requires Compares(FromMemory(Peek(m.mem, m.regs.pc)).value.instruction)
    ensures var desc := FromMemory(Peek(m.mem, m.regs.pc)).value;
      var m1 := m.(regs := m.regs.(pc := WordInc(m.regs.pc)));
      var d := DecodeOperationAddress(m.mem, m.regs.x, m.regs.y, m1.regs.pc, desc.mode);
      Step(m) == StepResult(Completed, CompareStep(m1, d, ComparedRegister(m.regs, desc.instruction)))
  {
    var desc := FromMemory(Peek(m.mem, m.regs.pc)).value;
    StepOnDescription(m, desc);
    var m1 := m.(regs := m.regs.(pc := WordInc(m.regs.pc)));
    ExecuteCompare(m1, desc, DecodeOperationAddress(m.mem, m.regs.x, m.regs.y, m1.regs.pc, desc.mode));
  }

  /** `dump` with only B and I set is 0x14. */
  lemma DumpBreakInterrupt()
    ensures Dump(CLEARED_STATUS.(breakCommand := true, interruptDisabled := true)) == 0x14
  {
    Pow2Constants();
    var e := Dump(CLEARED_STATUS.(breakCommand := true, interruptDisabled := true));
    assert ByteBit(0x14, 2) && ByteBit(0x14, 4);
    assert !ByteBit(0x14, 0) && !ByteBit(0x14, 1) && !ByteBit(0x14, 3);
    assert !ByteBit(0x14, 5) && !ByteBit(0x14, 6) && !ByteBit(0x14, 7);
    ByteBitsDetermine(e, 0x14);
  }

  /**
   * The BRK test: BRK at 0 with the vector 0xFFFE/0xFFFF holding 03 FF.
   * pc becomes 0xFF03; the stack holds 0x02 at 0x01FF, 0x00 at 0x01FE and
   * 0x14 at 0x01FD; I is set and B clear; sp went down by two only.
   */
  lemma BrkTestScenario()
    ensures var m := Machine(INITIAL_REGISTERS, BRK_TEST_MEMORY);
      var r := Step(m);
      && r.outcome == Completed
      && r.machine.regs.pc == 0xFF03
      && Peek(r.machine.mem, 0x01FF) == 0x02
      && Peek(r.machine.mem, 0x01FE) == 0x00
      && Peek(r.machine.mem, 0x01FD) == 0x14
      && r.machine.regs.ps.interruptDisabled && !r.machine.regs.ps.breakCommand
      && r.machine.regs.sp == 0xFD
  {
    var m := Machine(INITIAL_REGISTERS, BRK_TEST_MEMORY);
    var m1 := Machine(INITIAL_REGISTERS.(pc := 1), BRK_TEST_MEMORY);
    assert Peek(m.mem, m.regs.pc) == 0x00;
    StepOnBreak(m);
    assert m.(regs := m.regs.(pc := WordInc(m.regs.pc))) == m1 by { assert WordInc(0) == 1; }
    assert Step(m) == StepResult(Completed, BrkStep(m1));
    BrkFromOne();
  }

  /** The memory of the BRK test: BRK at 0 and the vector 03 FF at 0xFFFE. */
  const BRK_TEST_MEMORY: Mem := map[0 := 0x00, 1 := 0x00, 0xFFFE := 0x03, 0xFFFF := 0xFF]

  /** A step on opcode 0x00 is the BRK step, after pc has moved past the opcode. */
  lemma StepOnBreak(m: Machine)
    requires Peek(m.mem, m.regs.pc) == 0x00
    ensures Step(m) == StepResult(Completed, BrkStep(m.(regs := m.regs.(pc := WordInc(m.regs.pc)))))
  {
    var desc := InstructionDescription(0x00, BRK, Implied);
    BreakRow();
    StepOnDescription(m, desc);
    var m1 := m.(regs := m.regs.(pc := WordInc(m.regs.pc)));
    ExecuteBreak(m1, desc, DecodeOperationAddress(m.mem, m.regs.x, m.regs.y, m1.regs.pc, desc.mode));
  }

  /** `exe` on BRK is the BRK step, which always completes. */
  lemma ExecuteBreak(m: Machine, desc: InstructionDescription, d: DecodedAddressMode)
    requires desc.instruction == BRK
    ensures Execute(m, desc, d) == StepResult(Completed, BrkStep(m))
  {
  }

  /** The BRK step of the test, from pc 1 (past the opcode) and sp 0xFF. */
  lemma BrkFromOne()
    ensures var r := BrkStep(Machine(INITIAL_REGISTERS.(pc := 1), BRK_TEST_MEMORY));
      && r.regs.pc == 0xFF03
      && Peek(r.mem, 0x01FF) == 0x02
      && Peek(r.mem, 0x01FE) == 0x00
      && Peek(r.mem, 0x01FD) == 0x14
      && r.regs.ps.interruptDisabled && !r.regs.ps.breakCommand
      && r.regs.sp == 0xFD
  {
    var m := Machine(INITIAL_REGISTERS.(pc := 1), BRK_TEST_MEMORY);
    BrkPushes(m);
    BrkRegisters(m);
    assert WordPlus(1, 1) == 2;
    assert StackSlot(0xFF) == 0x01FF && StackSlot(0xFE) == 0x01FE && StackSlot(0xFD) == 0x01FD by {
      assert StackSlot(0xFF) as int == HighByte(StackSlot(0xFF)) as int * 0x100 + LowByte(StackSlot(0xFF)) as int;
      assert StackSlot(0xFE) as int == HighByte(StackSlot(0xFE)) as int * 0x100 + LowByte(StackSlot(0xFE)) as int;
      assert StackSlot(0xFD) as int == HighByte(StackSlot(0xFD)) as int * 0x100 + LowByte(StackSlot(0xFD)) as int;
    }
    DumpBreakInterrupt();
  }

  /**
   * The stack slot is 0x0100 + sp taken unsigned. `Word + NesByte` would
   * read sp as a signed byte and put every slot for sp >= 0x80 in page zero:
   * for sp = 0xFF it gives 0x00FF instead of 0x01FF.
   */
  lemma StackSlotIsUnsigned(sp: NesByte)
    ensures StackSlot(sp) as int == 0x100 + sp as int
    ensures sp >= 0x80 ==> WordPlusByte(0x0100, sp) != StackSlot(sp)
    ensures WordPlusByte(0x0100, 0xFF) == 0x00FF
  {
    var s := StackSlot(sp);
    assert s as int == HighByte(s) as int * 0x100 + LowByte(s) as int;
  }
}

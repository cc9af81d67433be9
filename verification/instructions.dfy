/**
 * The opcode table: which byte value stands for which mnemonic in which
 * addressing mode, and the two first-match lookups over it.
 */
module Instructions {
  import opened Data
  import opened Addressing

  /** The 56 mnemonics of the 6502. */
  datatype InstructionCode =
    | ADC | AND | ASL | BCC | BCS | BEQ | BIT | BMI | BNE
    | BPL | BRK | BVC | BVS | CLC | CLD | CLI | CLV | CMP
    | CPX | CPY | DEC | DEX | DEY | EOR | INC | INX | INY
    | JMP | JSR | LDA | LDX | LDY | LSR | NOP | ORA | PHA
    | PHP | PLA | PLP | ROL | ROR | RTI | RTS | SBC | SEC
    | SED | SEI | STA | STX | STY | TAX | TAY | TSX | TXA
    | TXS | TYA

  datatype InstructionDescription = InstructionDescription(
    opcode: NesByte,
    instruction: InstructionCode,
    mode: AddressingMode)

  /** Row `i` of the table, in declaration order. */
  function Row(i: nat): InstructionDescription
    requires i < 58
  {
    match i
      case 0 => InstructionDescription(0x29, AND, Immediate)
      case 1 => InstructionDescription(0x25, AND, ZeroPage)
      case 2 => InstructionDescription(0x35, AND, ZeroPageX)
      case 3 => InstructionDescription(0x2D, AND, Absolute)
      case 4 => InstructionDescription(0x3D, AND, AbsoluteXIndexed)
      case 5 => InstructionDescription(0x39, AND, AbsoluteYIndexed)
      case 6 => InstructionDescription(0x21, AND, PostIndexedIndirect)
      case 7 => InstructionDescription(0x31, AND, PreIndexedIndirect)
      case 8 => InstructionDescription(0x69, ADC, Immediate)
      case 9 => InstructionDescription(0x65, ADC, ZeroPage)
      case 10 => InstructionDescription(0x75, ADC, ZeroPageX)
      case 11 => InstructionDescription(0x6D, ADC, Absolute)
      case 12 => InstructionDescription(0x7D, ADC, AbsoluteXIndexed)
      case 13 => InstructionDescription(0x79, ADC, AbsoluteYIndexed)
      case 14 => InstructionDescription(0x61, ADC, PreIndexedIndirect)
      case 15 => InstructionDescription(0x71, ADC, PostIndexedIndirect)
      case 16 => InstructionDescription(0x00, BRK, Implied)
      case 17 => InstructionDescription(0xB6, LDX, ZeroPageY)
      case 18 => InstructionDescription(0x90, BCC, Relative)
      case 19 => InstructionDescription(0xB0, BCS, Relative)
      case 20 => InstructionDescription(0xF0, BEQ, Relative)
      case 21 => InstructionDescription(0xD0, BNE, Relative)
      case 22 => InstructionDescription(0x10, BPL, Relative)
      case 23 => InstructionDescription(0x30, BMI, Relative)
      case 24 => InstructionDescription(0x50, BVC, Relative)
      case 25 => InstructionDescription(0x70, BVS, Relative)
      case 26 => InstructionDescription(0x18, CLC, Implied)
      case 27 => InstructionDescription(0xD8, CLD, Implied)
      case 28 => InstructionDescription(0x58, CLI, Implied)
      case 29 => InstructionDescription(0xB8, CLV, Implied)
      case 30 => InstructionDescription(0xC9, CMP, Immediate)
      case 31 => InstructionDescription(0xC5, CMP, ZeroPage)
      case 32 => InstructionDescription(0xD5, CMP, ZeroPageX)
      case 33 => InstructionDescription(0xCD, CMP, Absolute)
      case 34 => InstructionDescription(0xDD, CMP, AbsoluteXIndexed)
      case 35 => InstructionDescription(0xD9, CMP, AbsoluteYIndexed)
      case 36 => InstructionDescription(0xC1, CMP, PreIndexedIndirect)
      case 37 => InstructionDescription(0xD1, CMP, PostIndexedIndirect)
      case 38 => InstructionDescription(0xE0, CPX, Immediate)
      case 39 => InstructionDescription(0xE4, CPX, ZeroPage)
      case 40 => InstructionDescription(0xEC, CPX, Absolute)
      case 41 => InstructionDescription(0xC0, CPY, Immediate)
      case 42 => InstructionDescription(0xC4, CPY, ZeroPage)
      case 43 => InstructionDescription(0xCC, CPY, Absolute)
      case 44 => InstructionDescription(0xC6, DEC, ZeroPage)
      case 45 => InstructionDescription(0xD6, DEC, ZeroPageX)
      case 46 => InstructionDescription(0xCE, DEC, Absolute)
      case 47 => InstructionDescription(0xDE, DEC, AbsoluteXIndexed)
      case 48 => InstructionDescription(0xCA, DEX, Implied)
      case 49 => InstructionDescription(0x88, DEY, Implied)
      case 50 => InstructionDescription(0xE6, INC, ZeroPage)
      case 51 => InstructionDescription(0xF6, INC, ZeroPageX)
      case 52 => InstructionDescription(0xEE, INC, Absolute)
      case 53 => InstructionDescription(0xFE, INC, AbsoluteXIndexed)
      case 54 => InstructionDescription(0xE8, INX, Implied)
      case 55 => InstructionDescription(0xC8, INY, Implied)
      case 56 => InstructionDescription(0x4C, JMP, Absolute)
      case 57 => InstructionDescription(0x6C, JMP, Indirect)
  }

  /** `values()`: the rows in declaration order. */
  function Values(): (r: seq<InstructionDescription>)
    ensures |r| == 58
    ensures forall i :: 0 <= i < 58 ==> r[i] == Row(i)
  {
    seq(58, i requires 0 <= i < 58 => Row(i))
  }

  const VALUES: seq<InstructionDescription> := Values()

  /**
   * The position of the first row whose opcode is `op`, or `|rows|` when
   * there is none: the search `first { it.opcode == value }` performs.
   */
  function IndexOfOpcode(rows: seq<InstructionDescription>, op: NesByte): (k: nat)
    ensures k <= |rows|
    ensures forall j :: 0 <= j < k ==> rows[j].opcode != op
    ensures k < |rows| ==> rows[k].opcode == op
  {
    if |rows| == 0 then 0
    else if rows[0].opcode == op then 0
    else 1 + IndexOfOpcode(rows[1..], op)
  }

  /** The position of the first row for `code` in `mode`, or `|rows|`. */
  function IndexOfCode(rows: seq<InstructionDescription>, code: InstructionCode, mode: AddressingMode): (k: nat)
    ensures k <= |rows|
    ensures forall j :: 0 <= j < k ==> !(rows[j].instruction == code && rows[j].mode == mode)
    ensures k < |rows| ==> rows[k].instruction == code && rows[k].mode == mode
  {
    if |rows| == 0 then 0
    else if rows[0].instruction == code && rows[0].mode == mode then 0
    else 1 + IndexOfCode(rows[1..], code, mode)
  }

  /**
   * `values().first { it.opcode == value }`, the search as Kotlin performs
   * it: the first row with that opcode, `None` where `first` throws.
   */
  function FirstWithOpcode(value: NesByte): Option<InstructionDescription>
  {
    var k := IndexOfOpcode(VALUES, value);
    if k < |VALUES| then Some(VALUES[k]) else None
  }

  /** `values().first { it.instruction == code && it.addressingMode == mode }`. */
  function FirstWithCodeMode(code: InstructionCode, mode: AddressingMode): Option<InstructionDescription>
  {
    var k := IndexOfCode(VALUES, code, mode);
    if k < |VALUES| then Some(VALUES[k]) else None
  }

  /**
   * `fromMemory(value)`: the row with that opcode, `None` when there is
   * none (Kotlin's `first` throws). It is looked up through `RowOfOpcode`;
   * `FromMemoryIsFirstMatch` shows this is Kotlin's first-match search.
   */
  function FromMemory(value: NesByte): (r: Option<InstructionDescription>)
    ensures r.Some? ==> r.value in VALUES && r.value.opcode == value
    ensures r.None? ==> forall d :: d in VALUES ==> d.opcode != value
  {
    RowOfOpcodeSound(value);
    if RowOfOpcode(value) < 0 then
      NoRowWithOpcode(value);
      None
    else
      Some(Row(RowOfOpcode(value)))
  }

  /** `fromInstructionCode(code, mode)`: the row for that pair, `None` when there is none. */
  function FromInstructionCode(code: InstructionCode, mode: AddressingMode): (r: Option<InstructionDescription>)
    ensures r.Some? ==> r.value in VALUES && r.value.instruction == code && r.value.mode == mode
    ensures r.None? ==> forall d :: d in VALUES ==> !(d.instruction == code && d.mode == mode)
  {
    RowOfCodeModeSound(code, mode);
    if RowOfCodeMode(code, mode) < 0 then
      NoRowWithCodeMode(code, mode);
      None
    else
      Some(Row(RowOfCodeMode(code, mode)))
  }

  lemma NoRowWithOpcode(value: NesByte)
    requires RowOfOpcode(value) < 0
    ensures forall d :: d in VALUES ==> d.opcode != value
  {
    forall d | d in VALUES
      ensures d.opcode != value
    {
      var j :| 0 <= j < |VALUES| && VALUES[j] == d;
      RowOfOpcodeInverts();
      assert RowOfOpcode(Row(j).opcode) == j;
    }
  }

  lemma NoRowWithCodeMode(code: InstructionCode, mode: AddressingMode)
    requires RowOfCodeMode(code, mode) < 0
    ensures forall d :: d in VALUES ==> !(d.instruction == code && d.mode == mode)
  {
    forall d | d in VALUES
      ensures !(d.instruction == code && d.mode == mode)
    {
      var j :| 0 <= j < |VALUES| && VALUES[j] == d;
      RowOfCodeModeInverts();
      assert RowOfCodeMode(Row(j).instruction, Row(j).mode) == j;
    }
  }

  /** `fromMemory` is the first-match search over `values()`. */
  lemma FromMemoryIsFirstMatch(value: NesByte)
    ensures FromMemory(value) == FirstWithOpcode(value)
  {
    var k := IndexOfOpcode(VALUES, value);
    RowOfOpcodeInverts();
    RowOfOpcodeSound(value);
    if k < |VALUES| {
      assert RowOfOpcode(Row(k).opcode) == k;
    }
  }

  /** `fromInstructionCode` is the first-match search over `values()`. */
  lemma FromInstructionCodeIsFirstMatch(code: InstructionCode, mode: AddressingMode)
    ensures FromInstructionCode(code, mode) == FirstWithCodeMode(code, mode)
  {
    var k := IndexOfCode(VALUES, code, mode);
    RowOfCodeModeInverts();
    RowOfCodeModeSound(code, mode);
    if k < |VALUES| {
      assert RowOfCodeMode(Row(k).instruction, Row(k).mode) == k;
    }
  }

  /** The row holding each opcode, -1 for none: the opcode column read backwards. */
  function RowOfOpcode(op: NesByte): (k: int)
    ensures -1 <= k < 58
  {
    match op
    case 0x29 => 0
    case 0x25 => 1
    case 0x35 => 2
    case 0x2D => 3
    case 0x3D => 4
    case 0x39 => 5
    case 0x21 => 6
    case 0x31 => 7
    case 0x69 => 8
    case 0x65 => 9
    case 0x75 => 10
    case 0x6D => 11
    case 0x7D => 12
    case 0x79 => 13
    case 0x61 => 14
    case 0x71 => 15
    case 0x00 => 16
    case 0xB6 => 17
    case 0x90 => 18
    case 0xB0 => 19
    case 0xF0 => 20
    case 0xD0 => 21
    case 0x10 => 22
    case 0x30 => 23
    case 0x50 => 24
    case 0x70 => 25
    case 0x18 => 26
    case 0xD8 => 27
    case 0x58 => 28
    case 0xB8 => 29
    case 0xC9 => 30
    case 0xC5 => 31
    case 0xD5 => 32
    case 0xCD => 33
    case 0xDD => 34
    case 0xD9 => 35
    case 0xC1 => 36
    case 0xD1 => 37
    case 0xE0 => 38
    case 0xE4 => 39
    case 0xEC => 40
    case 0xC0 => 41
    case 0xC4 => 42
    case 0xCC => 43
    case 0xC6 => 44
    case 0xD6 => 45
    case 0xCE => 46
    case 0xDE => 47
    case 0xCA => 48
    case 0x88 => 49
    case 0xE6 => 50
    case 0xF6 => 51
    case 0xEE => 52
    case 0xFE => 53
    case 0xE8 => 54
    case 0xC8 => 55
    case 0x4C => 56
    case 0x6C => 57
    case _ => -1
  }

  /** The row holding each (instruction, mode) pair, -1 for none. */
  function RowOfCodeMode(code: InstructionCode, mode: AddressingMode): (k: int)
    ensures -1 <= k < 58
  {
    match code
    case AND => (
      match mode
      case Immediate => 0
      case ZeroPage => 1
      case ZeroPageX => 2
      case Absolute => 3
      case AbsoluteXIndexed => 4
      case AbsoluteYIndexed => 5
      case PostIndexedIndirect => 6
      case PreIndexedIndirect => 7
      case _ => -1)
    case ADC => (
      match mode
      case Immediate => 8
      case ZeroPage => 9
      case ZeroPageX => 10
      case Absolute => 11
      case AbsoluteXIndexed => 12
      case AbsoluteYIndexed => 13
      case PreIndexedIndirect => 14
      case PostIndexedIndirect => 15
      case _ => -1)
    case BRK => (
      match mode
      case Implied => 16
      case _ => -1)
    case LDX => (
      match mode
      case ZeroPageY => 17
      case _ => -1)
    case BCC => (
      match mode
      case Relative => 18
      case _ => -1)
    case BCS => (
      match mode
      case Relative => 19
      case _ => -1)
    case BEQ => (
      match mode
      case Relative => 20
      case _ => -1)
    case BNE => (
      match mode
      case Relative => 21
      case _ => -1)
    case BPL => (
      match mode
      case Relative => 22
      case _ => -1)
    case BMI => (
      match mode
      case Relative => 23
      case _ => -1)
    case BVC => (
      match mode
      case Relative => 24
      case _ => -1)
    case BVS => (
      match mode
      case Relative => 25
      case _ => -1)
    case CLC => (
      match mode
      case Implied => 26
      case _ => -1)
    case CLD => (
      match mode
      case Implied => 27
      case _ => -1)
    case CLI => (
      match mode
      case Implied => 28
      case _ => -1)
    case CLV => (
      match mode
      case Implied => 29
      case _ => -1)
    case CMP => (
      match mode
      case Immediate => 30
      case ZeroPage => 31
      case ZeroPageX => 32
      case Absolute => 33
      case AbsoluteXIndexed => 34
      case AbsoluteYIndexed => 35
      case PreIndexedIndirect => 36
      case PostIndexedIndirect => 37
      case _ => -1)
    case CPX => (
      match mode
      case Immediate => 38
      case ZeroPage => 39
      case Absolute => 40
      case _ => -1)
    case CPY => (
      match mode
      case Immediate => 41
      case ZeroPage => 42
      case Absolute => 43
      case _ => -1)
    case DEC => (
      match mode
      case ZeroPage => 44
      case ZeroPageX => 45
      case Absolute => 46
      case AbsoluteXIndexed => 47
      case _ => -1)
    case DEX => (
      match mode
      case Implied => 48
      case _ => -1)
    case DEY => (
      match mode
      case Implied => 49
      case _ => -1)
    case INC => (
      match mode
      case ZeroPage => 50
      case ZeroPageX => 51
      case Absolute => 52
      case AbsoluteXIndexed => 53
      case _ => -1)
    case INX => (
      match mode
      case Implied => 54
      case _ => -1)
    case INY => (
      match mode
      case Implied => 55
      case _ => -1)
    case JMP => (
      match mode
      case Absolute => 56
      case Indirect => 57
      case _ => -1)
    case _ => -1
  }

  /** A row that `RowOfOpcode` names holds that opcode. */
  lemma RowOfOpcodeSound(op: NesByte)
    ensures RowOfOpcode(op) >= 0 ==> Row(RowOfOpcode(op)).opcode == op
  {
    if op < 0x20 {
      RowOfOpcodeSoundBetween(op, 0x00, 0x20);
    } else if op < 0x40 {
      RowOfOpcodeSoundBetween(op, 0x20, 0x40);
    } else if op < 0x60 {
      RowOfOpcodeSoundBetween(op, 0x40, 0x60);
    } else if op < 0x80 {
      RowOfOpcodeSoundBetween(op, 0x60, 0x80);
    } else if op < 0xA0 {
      RowOfOpcodeSoundBetween(op, 0x80, 0xA0);
    } else if op < 0xC0 {
      RowOfOpcodeSoundBetween(op, 0xA0, 0xC0);
    } else if op < 0xE0 {
      RowOfOpcodeSoundBetween(op, 0xC0, 0xE0);
    } else {
      RowOfOpcodeSoundBetween(op, 0xE0, 0x100);
    }
  }

  lemma RowOfOpcodeSoundBetween(op: NesByte, lo: int, hi: int)
    requires lo <= op as int < hi && hi - lo <= 0x20
    ensures RowOfOpcode(op) >= 0 ==> Row(RowOfOpcode(op)).opcode == op
  {
  }

  /** A row that `RowOfCodeMode` names holds that pair. */
  lemma RowOfCodeModeSound(code: InstructionCode, mode: AddressingMode)
    ensures RowOfCodeMode(code, mode) >= 0 ==>
      Row(RowOfCodeMode(code, mode)).instruction == code && Row(RowOfCodeMode(code, mode)).mode == mode
  {
    if code in {AND, ADC, BRK} {
      RowOfCodeModeSoundForAndAdcBrk(code, mode);
    } else if code in {LDX, BCC, BCS} {
      RowOfCodeModeSoundForLdxBccBcs(code, mode);
    } else if code in {BEQ, BNE, BPL} {
      RowOfCodeModeSoundForBeqBneBpl(code, mode);
    } else if code in {BMI, BVC, BVS} {
      RowOfCodeModeSoundForBmiBvcBvs(code, mode);
    } else if code in {CLC, CLD, CLI} {
      RowOfCodeModeSoundForClcCldCli(code, mode);
    } else if code in {CLV, CMP, CPX} {
      RowOfCodeModeSoundForClvCmpCpx(code, mode);
    } else if code in {CPY, DEC, DEX} {
      RowOfCodeModeSoundForCpyDecDex(code, mode);
    } else if code in {DEY, INC, INX} {
      RowOfCodeModeSoundForDeyIncInx(code, mode);
    } else if code in {INY, JMP} {
      RowOfCodeModeSoundForInyJmp(code, mode);
    }
  }

  lemma RowOfCodeModeSoundForAndAdcBrk(code: InstructionCode, mode: AddressingMode)
    requires code in {AND, ADC, BRK}
    ensures RowOfCodeMode(code, mode) >= 0 ==>
      Row(RowOfCodeMode(code, mode)).instruction == code && Row(RowOfCodeMode(code, mode)).mode == mode
  {
  }

  lemma RowOfCodeModeSoundForLdxBccBcs(code: InstructionCode, mode: AddressingMode)
    requires code in {LDX, BCC, BCS}
    ensures RowOfCodeMode(code, mode) >= 0 ==>
      Row(RowOfCodeMode(code, mode)).instruction == code && Row(RowOfCodeMode(code, mode)).mode == mode
  {
  }

  lemma RowOfCodeModeSoundForBeqBneBpl(code: InstructionCode, mode: AddressingMode)
    requires code in {BEQ, BNE, BPL}
    ensures RowOfCodeMode(code, mode) >= 0 ==>
      Row(RowOfCodeMode(code, mode)).instruction == code && Row(RowOfCodeMode(code, mode)).mode == mode
  {
  }

  lemma RowOfCodeModeSoundForBmiBvcBvs(code: InstructionCode, mode: AddressingMode)
    requires code in {BMI, BVC, BVS}
    ensures RowOfCodeMode(code, mode) >= 0 ==>
      Row(RowOfCodeMode(code, mode)).instruction == code && Row(RowOfCodeMode(code, mode)).mode == mode
  {
  }

  lemma RowOfCodeModeSoundForClcCldCli(code: InstructionCode, mode: AddressingMode)
    requires code in {CLC, CLD, CLI}
    ensures RowOfCodeMode(code, mode) >= 0 ==>
      Row(RowOfCodeMode(code, mode)).instruction == code && Row(RowOfCodeMode(code, mode)).mode == mode
  {
  }

  lemma RowOfCodeModeSoundForClvCmpCpx(code: InstructionCode, mode: AddressingMode)
    requires code in {CLV, CMP, CPX}
    ensures RowOfCodeMode(code, mode) >= 0 ==>
      Row(RowOfCodeMode(code, mode)).instruction == code && Row(RowOfCodeMode(code, mode)).mode == mode
  {
  }

  lemma RowOfCodeModeSoundForCpyDecDex(code: InstructionCode, mode: AddressingMode)
    requires code in {CPY, DEC, DEX}
    ensures RowOfCodeMode(code, mode) >= 0 ==>
      Row(RowOfCodeMode(code, mode)).instruction == code && Row(RowOfCodeMode(code, mode)).mode == mode
  {
  }

  lemma RowOfCodeModeSoundForDeyIncInx(code: InstructionCode, mode: AddressingMode)
    requires code in {DEY, INC, INX}
    ensures RowOfCodeMode(code, mode) >= 0 ==>
      Row(RowOfCodeMode(code, mode)).instruction == code && Row(RowOfCodeMode(code, mode)).mode == mode
  {
  }

  lemma RowOfCodeModeSoundForInyJmp(code: InstructionCode, mode: AddressingMode)
    requires code in {INY, JMP}
    ensures RowOfCodeMode(code, mode) >= 0 ==>
      Row(RowOfCodeMode(code, mode)).instruction == code && Row(RowOfCodeMode(code, mode)).mode == mode
  {
  }

  lemma RowOfOpcodeInverts()
    ensures forall i :: 0 <= i < 58 ==> RowOfOpcode(Row(i).opcode) == i
  {
    RowOfOpcodeInvertsBetween0And10();
    RowOfOpcodeInvertsBetween10And20();
    RowOfOpcodeInvertsBetween20And30();
    RowOfOpcodeInvertsBetween30And40();
    RowOfOpcodeInvertsBetween40And50();
    RowOfOpcodeInvertsBetween50And58();
  }

  lemma RowOfOpcodeInvertsBetween0And10()
    ensures forall i :: 0 <= i < 10 ==> RowOfOpcode(Row(i).opcode) == i
  {
  }

  lemma RowOfOpcodeInvertsBetween10And20()
    ensures forall i :: 10 <= i < 20 ==> RowOfOpcode(Row(i).opcode) == i
  {
  }

  lemma RowOfOpcodeInvertsBetween20And30()
    ensures forall i :: 20 <= i < 30 ==> RowOfOpcode(Row(i).opcode) == i
  {
  }

  lemma RowOfOpcodeInvertsBetween30And40()
    ensures forall i :: 30 <= i < 40 ==> RowOfOpcode(Row(i).opcode) == i
  {
  }

  lemma RowOfOpcodeInvertsBetween40And50()
    ensures forall i :: 40 <= i < 50 ==> RowOfOpcode(Row(i).opcode) == i
  {
  }

  lemma RowOfOpcodeInvertsBetween50And58()
    ensures forall i :: 50 <= i < 58 ==> RowOfOpcode(Row(i).opcode) == i
  {
  }

  lemma RowOfCodeModeInverts()
    ensures forall i :: 0 <= i < 58 ==> RowOfCodeMode(Row(i).instruction, Row(i).mode) == i
  {
    RowOfCodeModeInvertsBetween0And10();
    RowOfCodeModeInvertsBetween10And20();
    RowOfCodeModeInvertsBetween20And30();
    RowOfCodeModeInvertsBetween30And40();
    RowOfCodeModeInvertsBetween40And50();
    RowOfCodeModeInvertsBetween50And54();
    RowOfCodeModeInvertsBetween54And58();
  }

  lemma RowOfCodeModeInvertsBetween0And10()
    ensures forall i :: 0 <= i < 10 ==> RowOfCodeMode(Row(i).instruction, Row(i).mode) == i
  {
  }

  lemma RowOfCodeModeInvertsBetween10And20()
    ensures forall i :: 10 <= i < 20 ==> RowOfCodeMode(Row(i).instruction, Row(i).mode) == i
  {
  }

  lemma RowOfCodeModeInvertsBetween20And30()
    ensures forall i :: 20 <= i < 30 ==> RowOfCodeMode(Row(i).instruction, Row(i).mode) == i
  {
  }

  lemma RowOfCodeModeInvertsBetween30And40()
    ensures forall i :: 30 <= i < 40 ==> RowOfCodeMode(Row(i).instruction, Row(i).mode) == i
  {
  }

  lemma RowOfCodeModeInvertsBetween40And50()
    ensures forall i :: 40 <= i < 50 ==> RowOfCodeMode(Row(i).instruction, Row(i).mode) == i
  {
  }

  lemma RowOfCodeModeInvertsBetween50And54()
    ensures forall i :: 50 <= i < 54 ==> RowOfCodeMode(Row(i).instruction, Row(i).mode) == i
  {
  }

  lemma RowOfCodeModeInvertsBetween54And58()
    ensures forall i :: 54 <= i < 58 ==> RowOfCodeMode(Row(i).instruction, Row(i).mode) == i
  {
  }

  /** No two rows share an opcode. */
  lemma OpcodesDistinct()
    ensures forall i, j :: 0 <= i < j < |VALUES| ==> VALUES[i].opcode != VALUES[j].opcode
  {
    RowOfOpcodeInverts();
  }

  /** No two rows share an (instruction, mode) pair. */
  lemma CodeModePairsDistinct()
    ensures forall i, j :: 0 <= i < j < |VALUES| ==>
      !(VALUES[i].instruction == VALUES[j].instruction && VALUES[i].mode == VALUES[j].mode)
  {
    RowOfCodeModeInverts();
  }

  /** Looking a row's opcode up finds that very row. */
  lemma FromMemoryRoundTrip(i: nat)
    requires i < |VALUES|
    ensures FromMemory(VALUES[i].opcode) == Some(VALUES[i])
  {
    RowOfOpcodeInverts();
    assert VALUES[i] == Row(i);
  }

  /** Looking a row's (instruction, mode) pair up finds that very row. */
  lemma FromInstructionCodeRoundTrip(i: nat)
    requires i < |VALUES|
    ensures FromInstructionCode(VALUES[i].instruction, VALUES[i].mode) == Some(VALUES[i])
  {
    RowOfCodeModeInverts();
    assert VALUES[i] == Row(i);
  }

  lemma RowLookup(i: nat)
    requires i < 58
    ensures FromMemory(Row(i).opcode) == Some(Row(i))
  {
    assert VALUES[i] == Row(i);
    FromMemoryRoundTrip(i);
  }

  /** Row `i`, written out as `d`, is what its opcode decodes to. */
  lemma RowDecodes(i: nat, d: InstructionDescription)
    requires i < 58 && Row(i) == d
    ensures FromMemory(d.opcode) == Some(d)
  {
    RowLookup(i);
  }

  /** Opcodes that have no row (LDA immediate, NOP) make `fromMemory` fail. */
  lemma UnknownOpcodes()
    ensures FromMemory(0xA9).None? && FromMemory(0xEA).None? && FromMemory(0x8F).None?
  {
    assert forall i :: 0 <= i < |VALUES| ==> VALUES[i].opcode != 0xA9 && VALUES[i].opcode != 0xEA && VALUES[i].opcode != 0x8F;
  }

  /** Opcode 0x00 decodes to BRK in Implied mode. */
  lemma BreakRow()
    ensures FromMemory(0x00) == Some(InstructionDescription(0x00, BRK, Implied))
  {
    var d := Row(16);
    assert d == InstructionDescription(0x00, BRK, Implied);
    RowLookup(16);
    assert FromMemory(d.opcode) == Some(d);
  }

  /**
   * The AND and BRK tests' rows, asked for by mnemonic and mode: AND
   * Immediate is 0x29 and BRK Implied is 0x00.
   */
  lemma TestRows()
    ensures FromInstructionCode(AND, Immediate) == Some(InstructionDescription(0x29, AND, Immediate))
    ensures FromInstructionCode(BRK, Implied) == Some(InstructionDescription(0x00, BRK, Implied))
  {
    TestRow(0, InstructionDescription(0x29, AND, Immediate));
    TestRow(16, InstructionDescription(0x00, BRK, Implied));
  }

  /** Row `i`, written out as `d`, is found by both lookups. */
  lemma TestRow(i: nat, d: InstructionDescription)
    requires i < 58 && Row(i) == d
    ensures FromInstructionCode(d.instruction, d.mode) == Some(d)
    ensures FromMemory(d.opcode) == Some(d)
  {
    assert VALUES[i] == Row(i);
    FromInstructionCodeRoundTrip(i);
    FromMemoryRoundTrip(i);
  }

  predicate IsBranch(code: InstructionCode)
  {
    code.BCC? || code.BCS? || code.BEQ? || code.BNE? || code.BPL? || code.BMI? || code.BVC? || code.BVS?
  }

  /** Every branch row uses Relative mode; every non-branch row some other mode. */
  lemma BranchRowsAreRelative()
    ensures forall i :: 0 <= i < |VALUES| ==> (IsBranch(VALUES[i].instruction) <==> VALUES[i].mode == Relative)
  {
    BranchRowsAreRelativeBetween0And10();
    BranchRowsAreRelativeBetween10And20();
    BranchRowsAreRelativeBetween20And30();
    BranchRowsAreRelativeBetween30And40();
    BranchRowsAreRelativeBetween40And50();
    BranchRowsAreRelativeBetween50And58();
  }

  lemma BranchRowsAreRelativeBetween0And10()
    ensures forall i :: 0 <= i < 10 ==> (IsBranch(Row(i).instruction) <==> Row(i).mode == Relative)
  {
  }

  lemma BranchRowsAreRelativeBetween10And20()
    ensures forall i :: 10 <= i < 20 ==> (IsBranch(Row(i).instruction) <==> Row(i).mode == Relative)
  {
  }

  lemma BranchRowsAreRelativeBetween20And30()
    ensures forall i :: 20 <= i < 30 ==> (IsBranch(Row(i).instruction) <==> Row(i).mode == Relative)
  {
  }

  lemma BranchRowsAreRelativeBetween30And40()
    ensures forall i :: 30 <= i < 40 ==> (IsBranch(Row(i).instruction) <==> Row(i).mode == Relative)
  {
  }

  lemma BranchRowsAreRelativeBetween40And50()
    ensures forall i :: 40 <= i < 50 ==> (IsBranch(Row(i).instruction) <==> Row(i).mode == Relative)
  {
  }

  lemma BranchRowsAreRelativeBetween50And58()
    ensures forall i :: 50 <= i < 58 ==> (IsBranch(Row(i).instruction) <==> Row(i).mode == Relative)
  {
  }

  /**
   * The AND rows 0x21/0x31 carry PostIndexed/PreIndexed, the reverse of the
   * ADC and CMP rows 0x61/0x71 and 0xC1/0xD1.
   */
  lemma IndirectRowsAsWritten()
    ensures FromMemory(0x21) == Some(InstructionDescription(0x21, AND, PostIndexedIndirect))
    ensures FromMemory(0x31) == Some(InstructionDescription(0x31, AND, PreIndexedIndirect))
    ensures FromMemory(0x61) == Some(InstructionDescription(0x61, ADC, PreIndexedIndirect))
    ensures FromMemory(0x71) == Some(InstructionDescription(0x71, ADC, PostIndexedIndirect))
    ensures FromMemory(0xC1) == Some(InstructionDescription(0xC1, CMP, PreIndexedIndirect))
  {
    assert FromMemory(0x21) == Some(InstructionDescription(0x21, AND, PostIndexedIndirect)) by {
      RowDecodes(6, InstructionDescription(0x21, AND, PostIndexedIndirect));
    }
    assert FromMemory(0x31) == Some(InstructionDescription(0x31, AND, PreIndexedIndirect)) by {
      RowDecodes(7, InstructionDescription(0x31, AND, PreIndexedIndirect));
    }
    assert FromMemory(0x61) == Some(InstructionDescription(0x61, ADC, PreIndexedIndirect)) by {
      RowDecodes(14, InstructionDescription(0x61, ADC, PreIndexedIndirect));
    }
    assert FromMemory(0x71) == Some(InstructionDescription(0x71, ADC, PostIndexedIndirect)) by {
      RowDecodes(15, InstructionDescription(0x71, ADC, PostIndexedIndirect));
    }
    assert FromMemory(0xC1) == Some(InstructionDescription(0xC1, CMP, PreIndexedIndirect)) by {
      RowDecodes(36, InstructionDescription(0xC1, CMP, PreIndexedIndirect));
    }
  }
}

# A verified model of the NES 6502 core

This project models one instruction step of the MOS 6502 CPU as the Kotlin
NES emulator in package `com.pherrymason.nes` implements it, and proves what
that step does. It covers:

- the 8-bit `NesByte` and 16-bit `Word` values and their wrap-around operators;
- the sparse 64 KiB `RAM`, in which an unwritten cell reads as zero;
- the register file `CpuRegisters`;
- the 13 addressing modes and the 58-row opcode table, with its two first-match lookups;
- the CPU's `clock`: it fetches the opcode at pc, looks it up, moves pc past
  it, resolves the operand address (`decodeOperationAddress`) and executes
  the instruction.

Only AND, the eight conditional branches, BRK, CLC/CLD/CLI/CLV and
CMP/CPX/CPY have code. Every other mnemonic goes to `toImplement`, which
throws.

Files and modules:

| file | module | contents |
|---|---|---|
| `bits.dfy` | `Bits` | powers of two, bits of naturals, bitwise and/or, shifts (arithmetic helpers) |
| `data.dfy` | `Data` | `NesByte`, `Word` and their operators |
| `data_properties.dfy` | `DataProperties` | wrap-around, byte assembly, signed `Word + NesByte`, the `and 0xFF00 shl 8` mask |
| `ram.dfy` | `Memory` | `Peek`/`Poke` on the memory map and the `RAM` class |
| `registers.dfy` | `Registers` | `ProcessorStatus`, `dump`, `RegisterFile` and the `CpuRegisters` class |
| `addressing.dfy` | `Addressing` | the `AddressingMode` datatype |
| `instructions.dfy` | `Instructions` | the mnemonics, the table, `fromMemory` and `fromInstructionCode` |
| `decode.dfy` | `Decode` | `decodeOperationAddress`, one function per addressing mode |
| `decode_properties.dfy` | `DecodeProperties` | page-zero wrap, the addressing-mode test scenarios, departures |
| `cpu.dfy` | `Cpu` | the step on values (`Machine`, `Execute`, `Step`) and the `CPU6502` class |
| `cpu_properties.dfy` | `CpuProperties` | what a step changes, the opcode test scenarios, departures |

The code has two flavours, and the model follows each:

- **Pure parts** are datatypes and functions: the value types, the table and the address resolver.
- **State-changing parts** are classes whose methods update fields in place: `RAM.write`, the `CpuRegisters` methods, and `CPU6502`'s `clock`, `exe` and `op*` methods.
  - Each such method is proved to leave exactly the state that a specification function computes on a `Machine` value (registers plus memory). For example, `Clock` ends in `Step(old(State()))`.
  - The lemmas are stated about those functions.

A Kotlin throw becomes an `Outcome` value:

- `UnknownOpcode`: `fromMemory`'s `first` finds no row.
- `NotImplemented`: the mnemonic goes to `toImplement`.
- `MissingRelativeAddress`: a taken branch has no relative address.

In each case the machine returned is the state at the moment of the throw.

## Model

Paths are relative to the repository root.

| member | source | states |
|---|---|---|
| Data.ByteOf | src/main/kotlin/com/pherrymason/nes/Data.kt:5 | `NesByte(Int)` keeps v mod 256, and v itself when v is already in 0..255 |
| Data.ToSigned8 | src/main/kotlin/com/pherrymason/nes/Data.kt:86 | `toByte()` reads a byte as a signed value in -128..127 that is congruent to it mod 256 |
| Data.ByteAdd | src/main/kotlin/com/pherrymason/nes/Data.kt:7 | byte plus byte is the sum, less 256 when the sum reaches 256 |
| Data.BytePlus | src/main/kotlin/com/pherrymason/nes/Data.kt:8 | byte plus Int is (a + n) mod 256 |
| Data.ByteMinus | src/main/kotlin/com/pherrymason/nes/Data.kt:9 | byte minus Int is (a - n) mod 256 |
| Data.ByteAnd | src/main/kotlin/com/pherrymason/nes/Data.kt:12 | each of the 8 bits of the result is set iff it is set in both operands |
| Data.ByteAndInt | src/main/kotlin/com/pherrymason/nes/Data.kt:11 | `and(Int)` is bitwise and with the low 8 bits of the Int |
| Data.ByteAndAllOnes | src/main/kotlin/com/pherrymason/nes/Data.kt:11 | `and 0xFF` leaves every byte unchanged |
| Data.ByteOr | src/main/kotlin/com/pherrymason/nes/Data.kt:13 | each bit of the result is set iff it is set in either operand |
| Data.ByteInv | src/main/kotlin/com/pherrymason/nes/Data.kt:23-25 | `inv` flips each of the 8 bits |
| Data.ByteShl | src/main/kotlin/com/pherrymason/nes/Data.kt:15-17 | the result is a·2^k mod 256 with k the count mod 32, so the bits shifted past bit 7 are dropped and a count of 8 or more gives 0 |
| Data.ByteShr | src/main/kotlin/com/pherrymason/nes/Data.kt:19-21 | a logical right shift: the result is a div 2^k with k the count mod 32, so bit i is bit i + k of the operand and the vacated high bits are 0 |
| Data.ToWord | src/main/kotlin/com/pherrymason/nes/Data.kt:27-29 | `toWord` puts the byte in the low byte and 0 in the high byte |
| Data.ByteCompare | src/main/kotlin/com/pherrymason/nes/Data.kt:39-41 | the sign of `compareTo` is the unsigned order of the two bytes, in both directions |
| Data.ByteCompareInt | src/main/kotlin/com/pherrymason/nes/Data.kt:42-44 | `compareTo(Int)` compares with the Int mod 256 |
| Data.ByteEquals | src/main/kotlin/com/pherrymason/nes/Data.kt:46-50 | hash-code equality of two bytes holds iff the bytes are equal |
| Data.ToBool | src/main/kotlin/com/pherrymason/nes/Data.kt:52-54 | `toBool` is true iff some bit is set |
| Data.WordOf | src/main/kotlin/com/pherrymason/nes/Data.kt:61 | `Word(Int)` keeps v mod 65536 |
| Data.ToSigned16 | src/main/kotlin/com/pherrymason/nes/Data.kt:79-83 | `toShort()` reads a word as a signed value congruent to it mod 65536 |
| Data.LowByte | src/main/kotlin/com/pherrymason/nes/cpu/CPU6502.kt:260 | `lowByte()`, which `Data.kt` does not define, is w mod 256; no contract of its own, `WordBytesRoundTrip` states it with `HighByte` |
| Data.HighByte | src/main/kotlin/com/pherrymason/nes/cpu/CPU6502.kt:262 | `highByte()`, which `Data.kt` does not define, is w div 256; no contract of its own, `WordBytesRoundTrip` states it with `LowByte` |
| Data.WordFromBytes | src/main/kotlin/com/pherrymason/nes/Data.kt:59 | `Word(lo, hi)` is hi·256 + lo, and its low and high bytes are lo and hi again |
| Data.WordFromByteAndInt | src/main/kotlin/com/pherrymason/nes/Data.kt:60 | `Word(lo, hi: Int)` has low byte lo and high byte hi mod 256 |
| Data.WordPlus | src/main/kotlin/com/pherrymason/nes/Data.kt:81-83 | word plus Int, computed on the signed reading, is (w + n) mod 65536 |
| Data.WordMinus | src/main/kotlin/com/pherrymason/nes/Data.kt:79 | word minus Int is (w - n) mod 65536 |
| Data.WordPlusByte | src/main/kotlin/com/pherrymason/nes/Data.kt:85-87 | word plus byte adds the byte unsigned below 0x80 and the byte minus 256 from 0x80 on, mod 65536 |
| Data.WordInc | src/main/kotlin/com/pherrymason/nes/cpu/CPU6502.kt:27 | `pc++` adds one and wraps 0xFFFF to 0 |
| Data.WordAdd | src/main/kotlin/com/pherrymason/nes/cpu/CPU6502.kt:283 | `pc += relativeAddress` is the sum of the two words, less 65536 on overflow |
| Data.WordAnd | src/main/kotlin/com/pherrymason/nes/Data.kt:75-77 | each of the 16 bits is set iff set in the word and in the Int mod 65536 |
| Data.WordOr | src/main/kotlin/com/pherrymason/nes/Data.kt:71-73 | each of the 16 bits is set iff set in the word or in the Int mod 65536 |
| Data.WordShl | src/main/kotlin/com/pherrymason/nes/Data.kt:63-65 | the result is w·2^k mod 65536 with k the count mod 32, so bits past bit 15 are dropped and a count of 16 or more gives 0 |
| Data.WordShr | src/main/kotlin/com/pherrymason/nes/Data.kt:67-69 | a logical right shift: the result is w div 2^k, bit i is bit i + k and the vacated high bits are 0 |
| DataProperties.BytePlusMinus | src/main/kotlin/com/pherrymason/nes/Data.kt:8-9 | `(a + n) - n` is a for every byte and every Int |
| DataProperties.ByteMinusWraps | src/main/kotlin/com/pherrymason/nes/Data.kt:9 | subtracting n ≤ 256 gives a - n, or a - n + 256 when that would be negative |
| DataProperties.ByteWrapExamples | src/main/kotlin/com/pherrymason/nes/Data.kt:4-9 | 255 + 1 = 0, 0 - 1 = 255, `NesByte(-1)` = 0xFF |
| DataProperties.IsNegativeIffHighHalf | src/main/kotlin/com/pherrymason/nes/cpu/CPU6502.kt:244 | bit 7, which N copies, is set exactly for 0x80..0xFF |
| DataProperties.AndSignBit | src/main/kotlin/com/pherrymason/nes/cpu/CPU6502.kt:374 | `and 0x80` is 0x80 when bit 7 is set and 0 otherwise |
| DataProperties.ByteAndLaws | src/main/kotlin/com/pherrymason/nes/Data.kt:12 | byte `and` is commutative and idempotent |
| DataProperties.ByteInvInvolution | src/main/kotlin/com/pherrymason/nes/Data.kt:23-25 | `inv` twice gives the byte back |
| DataProperties.CompareIsUnsigned | src/main/kotlin/com/pherrymason/nes/Data.kt:39-44 | 0x80 ranks above 0x7F, although signed it ranks below; `compareTo(-128)` equals 0x80 |
| DataProperties.WordBytesRoundTrip | src/main/kotlin/com/pherrymason/nes/Data.kt:59 | splitting a word into its bytes and assembling them gives the word back |
| DataProperties.ToWordValue | src/main/kotlin/com/pherrymason/nes/Data.kt:27-29 | `toWord` keeps the value and equals `Word(b, 0)` |
| DataProperties.WordPlusMinus | src/main/kotlin/com/pherrymason/nes/Data.kt:79-83 | `(w + n) - n` is w |
| DataProperties.WordWrapExamples | src/main/kotlin/com/pherrymason/nes/Data.kt:79-83 | 0 + (-1) and 0 - 1 are 0xFFFF; 0xFFFF + 1 is 0 |
| DataProperties.WordPlusByteSignExtends | src/main/kotlin/com/pherrymason/nes/Data.kt:85-87 | word plus byte equals the unsigned sum exactly when the byte is below 0x80 |
| DataProperties.WordPlusByteExample | src/main/kotlin/com/pherrymason/nes/Data.kt:85-87 | 0x1050 + 0xFF is 0x104F and 0x0100 + 0xFF is 0x00FF |
| DataProperties.MaskHighShiftIsZero | src/main/kotlin/com/pherrymason/nes/Data.kt:63-77 | `w.and(0xFF00).shl(8)` is 0 for every word |
| Memory.Peek | src/main/kotlin/com/pherrymason/nes/RAM.kt:11-13 | a written cell reads its value and an unwritten one reads 0 |
| Memory.Poke | src/main/kotlin/com/pherrymason/nes/RAM.kt:19-21 | after a write the cell reads the value and every other cell reads as before |
| Memory.PokeIdempotent | src/main/kotlin/com/pherrymason/nes/RAM.kt:19-21 | writing the same value twice is writing it once |
| Memory.PokeOverwrites | src/main/kotlin/com/pherrymason/nes/RAM.kt:19-21 | a second write at an address hides the first |
| Memory.PokeCommutes | src/main/kotlin/com/pherrymason/nes/RAM.kt:19-21 | writes to different addresses commute |
| Memory.PokeThree | src/main/kotlin/com/pherrymason/nes/RAM.kt:19-21 | after three writes at distinct addresses each holds its value and no other cell changes |
| Memory.RAM.constructor | src/main/kotlin/com/pherrymason/nes/RAM.kt:7 | a new RAM has no written cell, so every address reads 0 |
| Memory.RAM.Read | src/main/kotlin/com/pherrymason/nes/RAM.kt:11-13 | `read` gives the stored value or 0 |
| Memory.RAM.ReadInt | src/main/kotlin/com/pherrymason/nes/RAM.kt:15-17 | `read(Int)` agrees with `read(Address(i))`, i mod 65536 |
| Memory.RAM.Write | src/main/kotlin/com/pherrymason/nes/RAM.kt:19-21 | `write` stores the value, a read right after gives it, and no other cell changes |
| Memory.RAM.WriteInt | src/main/kotlin/com/pherrymason/nes/RAM.kt:23-25 | `write(Int, Int)` stores v mod 256 at i mod 65536 and nothing else |
| Memory.RamConstants | src/main/kotlin/com/pherrymason/nes/RAM.kt:5-6 | `STACK_ADDRESS` is 0x0100 and `PROGRAM_ADDRESS` is 0x0500 |
| Registers.Dump | src/main/kotlin/com/pherrymason/nes/cpu/CPU6502.kt:269 | `ps.dump()`, which the source calls but never defines, modelled as the standard 6502 status byte: bits 0..7 are C, Z, I, D, B, unused, V, N |
| Registers.DumpThenRead | src/main/kotlin/com/pherrymason/nes/cpu/CPU6502.kt:269 | the modelled `dump` loses no flag: reading its byte back gives the same status |
| Registers.ReadThenDump | src/main/kotlin/com/pherrymason/nes/cpu/CPU6502.kt:269 | under the modelled layout every byte is the dump of the status read from it |
| Registers.AfterReset | src/main/kotlin/com/pherrymason/nes/cpu/CpuRegisters.kt:49-52 | reset makes x and y 0 and keeps a, pc, s, sp and every flag |
| Registers.ResetIdempotent | src/main/kotlin/com/pherrymason/nes/cpu/CpuRegisters.kt:49-52 | two resets leave the same registers as one |
| Registers.CpuRegisters.constructor | src/main/kotlin/com/pherrymason/nes/cpu/CpuRegisters.kt:11-47 | a fresh register file has a, x, y, pc and s 0, sp 0xFF and every flag clear |
| Registers.CpuRegisters.Reset | src/main/kotlin/com/pherrymason/nes/cpu/CpuRegisters.kt:49-52 | the new register file is `AfterReset` of the old one |
| Registers.CpuRegisters.StoreX | src/main/kotlin/com/pherrymason/nes/cpu/CpuRegisters.kt:54-56 | x becomes v and no other field changes |
| Registers.CpuRegisters.StoreY | src/main/kotlin/com/pherrymason/nes/cpu/CpuRegisters.kt:58-60 | y becomes v and no other field changes |
| Registers.CpuRegisters.SetZeroFlag | src/main/kotlin/com/pherrymason/nes/cpu/CPU6502.kt:245 | Z becomes "value is 0" and nothing else changes |
| Registers.CpuRegisters.SetNegativeFlag | src/main/kotlin/com/pherrymason/nes/cpu/CPU6502.kt:244 | N becomes bit 7 of the value and nothing else changes |
| Instructions.Row | src/main/kotlin/com/pherrymason/nes/cpu/InstructionDescription.kt:20-100 | entry i of the enum, as declared; no contract of its own, `Values`, `OpcodesDistinct` and `BranchRowsAreRelative` state its properties |
| Instructions.Values | src/main/kotlin/com/pherrymason/nes/cpu/InstructionDescription.kt:20-100 | `values()` has 58 rows, in declaration order |
| Instructions.IndexOfOpcode | src/main/kotlin/com/pherrymason/nes/cpu/InstructionDescription.kt:108-110 | the position found holds the opcode and no earlier row does; past the end means no row does |
| Instructions.IndexOfCode | src/main/kotlin/com/pherrymason/nes/cpu/InstructionDescription.kt:103-107 | the same for an (instruction, mode) pair |
| Instructions.FromMemory | src/main/kotlin/com/pherrymason/nes/cpu/InstructionDescription.kt:108-110 | the result is a table row with that opcode; `None` only when no row has it |
| Instructions.FromInstructionCode | src/main/kotlin/com/pherrymason/nes/cpu/InstructionDescription.kt:103-107 | the result is a row with that pair; `None` only when no row has it |
| Instructions.FromMemoryIsFirstMatch | src/main/kotlin/com/pherrymason/nes/cpu/InstructionDescription.kt:108-110 | `fromMemory` equals the first-match search over `values()` |
| Instructions.FromInstructionCodeIsFirstMatch | src/main/kotlin/com/pherrymason/nes/cpu/InstructionDescription.kt:103-107 | `fromInstructionCode` equals the first-match search over `values()` |
| Instructions.OpcodesDistinct | src/main/kotlin/com/pherrymason/nes/cpu/InstructionDescription.kt:20-100 | the 58 opcodes are pairwise distinct |
| Instructions.CodeModePairsDistinct | src/main/kotlin/com/pherrymason/nes/cpu/InstructionDescription.kt:20-100 | the 58 (instruction, mode) pairs are pairwise distinct |
| Instructions.FromMemoryRoundTrip | src/main/kotlin/com/pherrymason/nes/cpu/InstructionDescription.kt:108-110 | `fromMemory(d.opcode)` is d for every row d |
| Instructions.FromInstructionCodeRoundTrip | src/main/kotlin/com/pherrymason/nes/cpu/InstructionDescription.kt:103-107 | `fromInstructionCode(d.instruction, d.mode)` is d for every row d |
| Instructions.UnknownOpcodes | src/main/kotlin/com/pherrymason/nes/cpu/InstructionDescription.kt:108-110 | 0xA9 (LDA immediate), 0xEA (NOP) and 0x8F have no row, so `fromMemory` fails on them |
| Instructions.TestRows | src/main/kotlin/com/pherrymason/nes/cpu/InstructionDescription.kt:103-107 | the lookup by mnemonic and mode finds AND Immediate at 0x29 and BRK Implied at 0x00, the opcodes the AND and BRK test lemmas use |
| Instructions.BreakRow | src/main/kotlin/com/pherrymason/nes/cpu/InstructionDescription.kt:39 | opcode 0x00 decodes to BRK in Implied mode |
| Instructions.BranchRowsAreRelative | src/main/kotlin/com/pherrymason/nes/cpu/InstructionDescription.kt:43-50 | a row is Relative iff its mnemonic is one of the eight branches |
| Instructions.IndirectRowsAsWritten | src/main/kotlin/com/pherrymason/nes/cpu/InstructionDescription.kt:26-37 | 0x21/0x31 decode to AND PostIndexed/PreIndexed, the reverse of ADC 0x61/0x71 and CMP 0xC1 |
| Decode.WordAt | src/main/kotlin/com/pherrymason/nes/cpu/CPU6502.kt:185-187 | the word read at two cells is hi·256 + lo |
| Decode.PageZero | src/main/kotlin/com/pherrymason/nes/cpu/CPU6502.kt:107 | `Address(lo, NesByte(0))` is lo itself, in page zero |
| Decode.OperandWord | src/main/kotlin/com/pherrymason/nes/cpu/CPU6502.kt:125-130 | the operand word is mem[pc+1]·256 + mem[pc] |
| Decode.ZeroPageIndex | src/main/kotlin/com/pherrymason/nes/cpu/CPU6502.kt:112-113 | `(lo + index) and 0xFF` is (lo + index) mod 256 |
| Decode.ResolveZeroPage | src/main/kotlin/com/pherrymason/nes/cpu/CPU6502.kt:110-121 | ZeroPageX/Y: the address is (operand + index) mod 256 and its high byte is 0 |
| Decode.ResolveAbsolute | src/main/kotlin/com/pherrymason/nes/cpu/CPU6502.kt:123-131 | Absolute: low byte from the cell at pc, high byte from the cell at pc + 1 |
| Decode.ResolveAbsoluteIndexed | src/main/kotlin/com/pherrymason/nes/cpu/CPU6502.kt:133-159 | AbsoluteX/Y: the operand word plus the index, the index below 0x80 as is and from 0x80 on less 256, mod 65536 |
| Decode.ResolveIndirect | src/main/kotlin/com/pherrymason/nes/cpu/CPU6502.kt:161-188 | Indirect: the word at ptr and ptr + 1, or for a ptr ending in 0xFF low byte from 0x0000 and high byte from ptr |
| Decode.ResolvePreIndexed | src/main/kotlin/com/pherrymason/nes/cpu/CPU6502.kt:190-200 | PreIndexed: low byte from page-zero cell z = (operand + X) mod 256, high byte from (z + 1) mod 256 |
| Decode.ResolvePostIndexed | src/main/kotlin/com/pherrymason/nes/cpu/CPU6502.kt:202-212 | PostIndexed: the word at page-zero cells z and (z + 1) mod 256, z the operand, plus Y through the signed `Word + NesByte` |
| Decode.ResolveRelative | src/main/kotlin/com/pherrymason/nes/cpu/CPU6502.kt:214-223 | Relative: address pc + operand - 128 mod 65536, and a relative address (operand - 128) mod 256 |
| Decode.ResolveAddress | src/main/kotlin/com/pherrymason/nes/cpu/CPU6502.kt:96-230 | the non-Relative arms: Immediate is pc, the zero-page modes stay in page zero, Accumulator and Implied give 0 |
| Decode.DecodeOperationAddress | src/main/kotlin/com/pherrymason/nes/cpu/CPU6502.kt:94-231 | `decodeOperationAddress`: a relative address is present exactly for Relative mode |
| Decode.PageZeroSuccessor | src/main/kotlin/com/pherrymason/nes/cpu/CPU6502.kt:205-206 | `Address(arg + 1 and 0xFF, 0)` is the cell after arg, wrapped in page zero |
| Decode.RelativeAddressOnlyForRelative | src/main/kotlin/com/pherrymason/nes/cpu/CPU6502.kt:94-231 | a relative address is present iff the mode is Relative |
| Decode.ImmediateIsOperandByte | src/main/kotlin/com/pherrymason/nes/cpu/CPU6502.kt:99-102 | Immediate addresses the operand byte at pc |
| Decode.NoOperandIsAddressZero | src/main/kotlin/com/pherrymason/nes/cpu/CPU6502.kt:224-230 | Accumulator and Implied resolve to address 0 with no relative address |
| DecodeProperties.ZeroPageStaysInPageZero | src/main/kotlin/com/pherrymason/nes/cpu/AddressingMode.kt:25-35 | ZeroPage, ZeroPageX and ZeroPageY never leave page zero |
| DecodeProperties.AbsoluteIndexedAgreesBelow0x80 | src/main/kotlin/com/pherrymason/nes/cpu/AddressingMode.kt:37-40 | "address plus index" holds iff the index is below 0x80 |
| DecodeProperties.RelativeOffset | src/main/kotlin/com/pherrymason/nes/cpu/AddressingMode.kt:45-49 | an operand encoding k in -128..127 gives address pc + k and keeps k mod 256 as the offset |
| DecodeProperties.AbsoluteScenarios | src/test/kotlin/com/pherrymason/nes/cpu/CpuAddressingModeTest.kt:133-157 | 0x50 0x10 is 0x1050, and 0x1051 with X or Y = 1 (also the Absolute test at lines 55-65) |
| DecodeProperties.AbsoluteAt | src/main/kotlin/com/pherrymason/nes/cpu/AddressingMode.kt:20-40 | when the operand bytes hold w, Absolute is w and AbsoluteX/Y is w plus the index |
| DecodeProperties.ZeroPageScenarios | src/test/kotlin/com/pherrymason/nes/cpu/CpuAddressingModeTest.kt:68-116 | ZeroPage 0x50 is 0x50, and 0x51 with X or Y = 1 |
| DecodeProperties.ZeroPageWrapScenario | src/test/kotlin/com/pherrymason/nes/cpu/CpuAddressingModeTest.kt:93-130 | ZeroPageX/Y on 0xFF with index 1 wrap to 0 |
| DecodeProperties.IndirectScenario | src/test/kotlin/com/pherrymason/nes/cpu/CpuAddressingModeTest.kt:197-207 | Indirect through 0x0064 holding 0x50 0x01 is 0x0150 |
| DecodeProperties.IndirectAt | src/main/kotlin/com/pherrymason/nes/cpu/AddressingMode.kt:51-58 | through a pointer whose low byte is not 0xFF, Indirect is the word stored at the pointer |
| DecodeProperties.PreIndexedScenario | src/test/kotlin/com/pherrymason/nes/cpu/CpuAddressingModeTest.kt:210-220 | 101 + X = 1 points at 102, which holds 0x0152 |
| DecodeProperties.PreIndexedAt | src/main/kotlin/com/pherrymason/nes/cpu/AddressingMode.kt:60-71 | operand plus X (carry dropped) names the page-zero cells holding the target; for 0xFF the second cell wraps to 0x00 |
| DecodeProperties.PreIndexedWrapScenario | src/test/kotlin/com/pherrymason/nes/cpu/CpuAddressingModeTest.kt:223-233 | 246 + 110 wraps to 100, which holds 0x0150 |
| DecodeProperties.PostIndexedScenario | src/test/kotlin/com/pherrymason/nes/cpu/CpuAddressingModeTest.kt:236-246 | the pointer at 104 holds 0x0153; plus Y = 0 it stays 0x0153 |
| DecodeProperties.PostIndexedCrossingPage | src/test/kotlin/com/pherrymason/nes/cpu/CpuAddressingModeTest.kt:249-259 | 0xF7F6 + Y = 10 gives 0xF800, not the 0x100 the test expects |
| DecodeProperties.PostIndexedAt | src/main/kotlin/com/pherrymason/nes/cpu/AddressingMode.kt:73-83 | PostIndexed is the page-zero pointer's word plus Y; for a pointer at 0xFF the second cell wraps to 0x00 |
| DecodeProperties.PostIndexedAgreesBelow0x80 | src/main/kotlin/com/pherrymason/nes/cpu/AddressingMode.kt:73-83 | given the page-zero pointer's word, the documented "pointer plus Y" holds iff Y is below 0x80 |
| DecodeProperties.IndirectPageWrapReadsZero | src/main/kotlin/com/pherrymason/nes/cpu/CPU6502.kt:161-182 | for ptr ending in 0xFF the code reads low byte at 0x0000 and high byte at ptr; the comment's word (low at ptr, high at the start of ptr's page) results iff those cells agree |
| Cpu.StackSlot | src/main/kotlin/com/pherrymason/nes/cpu/CPU6502.kt:260 | the stack slot has high byte 1 and low byte sp |
| Cpu.StackSlotsDistinct | src/main/kotlin/com/pherrymason/nes/cpu/CPU6502.kt:260-269 | BRK's three slots are distinct and none is the vector at 0xFFFE/0xFFFF |
| Cpu.AndStep | src/main/kotlin/com/pherrymason/nes/cpu/CPU6502.kt:241-247 | A becomes A and M bit by bit, Z iff it is 0, N iff it is ≥ 0x80; nothing else changes |
| Cpu.BrkStep | src/main/kotlin/com/pherrymason/nes/cpu/CPU6502.kt:249-277 | `opBRK` on values: among the registers only pc, sp and the status change (`BrkPushes`, `BrkRegisters` and `BrkKeepsOtherCells` state the rest) |
| Cpu.BrkStatus | src/main/kotlin/com/pherrymason/nes/cpu/CPU6502.kt:266-269 | the pushed status reads back as the status with B and I set |
| Cpu.BrkPushes | src/main/kotlin/com/pherrymason/nes/cpu/CPU6502.kt:255-269 | BRK writes pc + 1's low byte at sp, its high byte at sp - 1 and the status with B and I at sp - 2 |
| Cpu.BrkKeepsOtherCells | src/main/kotlin/com/pherrymason/nes/cpu/CPU6502.kt:249-277 | BRK writes no cell but those three, and none outside page one |
| Cpu.BrkRegisters | src/main/kotlin/com/pherrymason/nes/cpu/CPU6502.kt:255-276 | after BRK sp is two lower, pc is the vector, I is set, B clear, all else unchanged |
| Cpu.BranchStep | src/main/kotlin/com/pherrymason/nes/cpu/CPU6502.kt:279-345 | pc moves by 1, plus the relative address when taken, mod 65536; a taken branch without one fails; nothing else changes |
| Cpu.ClearFlag | src/main/kotlin/com/pherrymason/nes/cpu/CPU6502.kt:347-365 | CLC/CLD/CLI/CLV clear their own flag and no other |
| Cpu.CompareStep | src/main/kotlin/com/pherrymason/nes/cpu/CPU6502.kt:367-395 | C iff M ≤ reg, Z iff M = reg, N iff (reg - M) mod 256 ≥ 0x80, bit 7 of the result as the CMP test's comment says; pc + 1; nothing else changes |
| Cpu.Execute | src/main/kotlin/com/pherrymason/nes/cpu/CPU6502.kt:33-92 | `exe` on values: never an unknown opcode, and not implemented iff the mnemonic has no `op` method |
| Cpu.ExecuteOutcome | src/main/kotlin/com/pherrymason/nes/cpu/CPU6502.kt:33-92 | `exe` fails as not implemented iff the mnemonic has no `op` method, then changing nothing |
| Cpu.ExecuteKeepsRegisters | src/main/kotlin/com/pherrymason/nes/cpu/CPU6502.kt:33-92 | `exe` never changes X, Y or s, and changes A only under AND |
| Cpu.ExecuteKeepsMemory | src/main/kotlin/com/pherrymason/nes/cpu/CPU6502.kt:33-92 | `exe` changes memory only under BRK, and never outside page one |
| Cpu.Step | src/main/kotlin/com/pherrymason/nes/cpu/CPU6502.kt:25-31 | `clock` on values: an unknown opcode iff the opcode has no row, and then the machine is unchanged |
| Cpu.StepOutcome | src/main/kotlin/com/pherrymason/nes/cpu/CPU6502.kt:25-31 | `clock` fails before any change iff the opcode has no row; an unimplemented mnemonic leaves only pc + 1; no branch lacks its offset |
| Cpu.StepFrame | src/main/kotlin/com/pherrymason/nes/cpu/CPU6502.kt:25-31 | a step keeps X, Y, s and every cell outside page one; A changes only under AND |
| Cpu.CPU6502.constructor | src/main/kotlin/com/pherrymason/nes/cpu/CPU6502.kt:11-12 | a CPU over a RAM starts with a fresh register file over that memory |
| Cpu.CPU6502.Reset | src/main/kotlin/com/pherrymason/nes/cpu/CPU6502.kt:17-23 | `reset` resets the registers and leaves the memory |
| Cpu.CPU6502.Clock | src/main/kotlin/com/pherrymason/nes/cpu/CPU6502.kt:25-31 | `clock` leaves exactly the outcome and state of `Step` |
| Cpu.CPU6502.Exe | src/main/kotlin/com/pherrymason/nes/cpu/CPU6502.kt:33-92 | `exe` leaves exactly the outcome and state of `Execute` |
| Cpu.CPU6502.OpAND | src/main/kotlin/com/pherrymason/nes/cpu/CPU6502.kt:241-247 | the new state is `AndStep` of the old |
| Cpu.CPU6502.OpBRK | src/main/kotlin/com/pherrymason/nes/cpu/CPU6502.kt:249-277 | the new state is `BrkStep` of the old |
| Cpu.CPU6502.OpBCC | src/main/kotlin/com/pherrymason/nes/cpu/CPU6502.kt:279-287 | the branch step taken iff C is clear |
| Cpu.CPU6502.OpBCS | src/main/kotlin/com/pherrymason/nes/cpu/CPU6502.kt:289-297 | the branch step taken iff C is set |
| Cpu.CPU6502.OpBEQ | src/main/kotlin/com/pherrymason/nes/cpu/CPU6502.kt:299-305 | the branch step taken iff Z is set |
| Cpu.CPU6502.OpBNE | src/main/kotlin/com/pherrymason/nes/cpu/CPU6502.kt:307-313 | the branch step taken iff Z is clear |
| Cpu.CPU6502.OpBPL | src/main/kotlin/com/pherrymason/nes/cpu/CPU6502.kt:315-321 | the branch step taken iff N is clear |
| Cpu.CPU6502.OpBMI | src/main/kotlin/com/pherrymason/nes/cpu/CPU6502.kt:323-329 | the branch step taken iff N is set |
| Cpu.CPU6502.OpBVC | src/main/kotlin/com/pherrymason/nes/cpu/CPU6502.kt:331-337 | the branch step taken iff V is clear |
| Cpu.CPU6502.OpBVS | src/main/kotlin/com/pherrymason/nes/cpu/CPU6502.kt:339-345 | the branch step taken iff V is set |
| Cpu.CPU6502.OpCLC | src/main/kotlin/com/pherrymason/nes/cpu/CPU6502.kt:347-350 | C is cleared and nothing else changes |
| Cpu.CPU6502.OpCLD | src/main/kotlin/com/pherrymason/nes/cpu/CPU6502.kt:352-355 | D is cleared and nothing else changes |
| Cpu.CPU6502.OpCLI | src/main/kotlin/com/pherrymason/nes/cpu/CPU6502.kt:357-360 | I is cleared and nothing else changes |
| Cpu.CPU6502.OpCLV | src/main/kotlin/com/pherrymason/nes/cpu/CPU6502.kt:362-365 | V is cleared and nothing else changes |
| Cpu.CPU6502.OpCMP | src/main/kotlin/com/pherrymason/nes/cpu/CPU6502.kt:367-375 | the compare step against A |
| Cpu.CPU6502.OpCPX | src/main/kotlin/com/pherrymason/nes/cpu/CPU6502.kt:377-385 | the compare step against X |
| Cpu.CPU6502.OpCPY | src/main/kotlin/com/pherrymason/nes/cpu/CPU6502.kt:387-395 | the compare step against Y |
| CpuProperties.StepOnRow | src/main/kotlin/com/pherrymason/nes/cpu/CPU6502.kt:25-31 | a step on row i's opcode executes row i with pc past the opcode and the operand resolved there |
| CpuProperties.NotImplementedRows | src/main/kotlin/com/pherrymason/nes/cpu/CPU6502.kt:237-239 | every row without an `op` method fails with only pc advanced |
| CpuProperties.UnknownOpcodeScenario | src/main/kotlin/com/pherrymason/nes/cpu/CPU6502.kt:26 | a step on 0xA9 fails as unknown and changes nothing |
| CpuProperties.StepOnDescription | src/main/kotlin/com/pherrymason/nes/cpu/CPU6502.kt:25-31 | a step on a decoded opcode executes that row after pc + 1 |
| CpuProperties.ExecuteBranch | src/main/kotlin/com/pherrymason/nes/cpu/CPU6502.kt:38-47 | `exe` on a branch is the branch step on its own condition |
| CpuProperties.BranchTargetCases | src/main/kotlin/com/pherrymason/nes/cpu/CPU6502.kt:279-284 | a branch ends at pc + 2 untaken, pc + 2 + k taken for k ≥ 0, and pc + 258 + k taken for k < 0 |
| CpuProperties.BranchDisplacement | src/main/kotlin/com/pherrymason/nes/cpu/CPU6502.kt:279-345 | a branch whose operand encodes k completes at its `BranchTarget` |
| CpuProperties.BranchMovesOnlyPc | src/main/kotlin/com/pherrymason/nes/cpu/CPU6502.kt:279-345 | a branch step completes and changes only pc |
| CpuProperties.StepOnBranch | src/main/kotlin/com/pherrymason/nes/cpu/CPU6502.kt:25-31 | a step on a branch opcode is the branch step on the Relative resolution |
| CpuProperties.BranchTestScenario | src/test/kotlin/com/pherrymason/nes/cpu/CpuOpCodeTest.kt:84-270 | a branch at 0 with operand 136 ends at 10 if taken and at 2 if not |
| CpuProperties.BranchBackwardGoesForward | src/main/kotlin/com/pherrymason/nes/cpu/CPU6502.kt:222 | a taken branch by -1 lands at pc + 257, not pc + 1 |
| CpuProperties.ClearFlagRows | src/test/kotlin/com/pherrymason/nes/cpu/CpuOpCodeTest.kt:272-318 | a step on CLC/CLD/CLI/CLV clears that flag and moves pc past the opcode only |
| CpuProperties.ExecuteClear | src/main/kotlin/com/pherrymason/nes/cpu/CPU6502.kt:48-51 | `exe` on a clear-flag mnemonic clears that flag |
| CpuProperties.ExecuteCompare | src/main/kotlin/com/pherrymason/nes/cpu/CPU6502.kt:52-54 | `exe` on CMP/CPX/CPY compares against A/X/Y |
| CpuProperties.AndTestNegative | src/test/kotlin/com/pherrymason/nes/cpu/CpuOpCodeTest.kt:19-27 | 0x8F and 0x8F is 0x8F with N set, Z clear, pc 1 |
| CpuProperties.AndTestSecondCaseAsChained | src/test/kotlin/com/pherrymason/nes/cpu/CpuOpCodeTest.kt:29-34 | chained after the first case, `reset` leaves pc at 1 and the next `clock` throws on 0x8F, which has no row |
| CpuProperties.BranchTestSecondCaseAsChained | src/test/kotlin/com/pherrymason/nes/cpu/CpuOpCodeTest.kt:98-107 | chained after the first case, `reset` keeps pc 2 and carry set; the next `clock` fetches 0x00 at pc 2 and runs BRK |
| CpuProperties.CompareTestSecondCaseAsChained | src/test/kotlin/com/pherrymason/nes/cpu/CpuOpCodeTest.kt:343-351 | chained after the first case, `reset` keeps pc 2; the next `clock` fetches 0x00 at pc 2 and runs BRK, not CMP |
| CpuProperties.AndTestZero | src/test/kotlin/com/pherrymason/nes/cpu/CpuOpCodeTest.kt:29-40 | 0x70 and 0x8F is 0 with Z set, N clear, pc 1 |
| CpuProperties.CompareFlags | src/main/kotlin/com/pherrymason/nes/cpu/CPU6502.kt:367-375 | the flags a compare leaves: C iff M ≤ reg, Z iff M = reg, N iff (reg - M) mod 256 ≥ 0x80 |
| CpuProperties.CompareImmediateRow | src/test/kotlin/com/pherrymason/nes/cpu/CpuOpCodeTest.kt:332 | the Immediate row of CMP, CPX or CPY that the tests ask for by mnemonic and mode, found again by its opcode |
| CpuProperties.CompareTest | src/test/kotlin/com/pherrymason/nes/cpu/CpuOpCodeTest.kt:334-339 | one `clock` of a compare test from pc 0 completes, leaves pc 2 and the flags `CompareFlags` gives |
| CpuProperties.CompareTestStep | src/test/kotlin/com/pherrymason/nes/cpu/CpuOpCodeTest.kt:334-339 | that `clock` is the compare step on the operand byte after pc moves past the opcode |
| CpuProperties.CompareOnOperandByte | src/main/kotlin/com/pherrymason/nes/cpu/CPU6502.kt:367-375 | a compare on the operand byte at 1 moves pc to 2 and leaves the flags `CompareFlags` gives |
| CpuProperties.CompareTestScenarios | src/test/kotlin/com/pherrymason/nes/cpu/CpuOpCodeTest.kt:320-436 | through `Step`, the (C, Z, N) triples of all nine CMP, CPX and CPY cases, and 0xFF against 0 setting N |
| CpuProperties.CompareRows | src/main/kotlin/com/pherrymason/nes/cpu/CPU6502.kt:367-395 | a step on a compare row is the compare step with A, X or Y at the resolved operand |
| CpuProperties.DumpBreakInterrupt | src/test/kotlin/com/pherrymason/nes/cpu/CpuOpCodeTest.kt:75-77 | `dump` with only B and I set is 0x14 |
| CpuProperties.BrkTestScenario | src/test/kotlin/com/pherrymason/nes/cpu/CpuOpCodeTest.kt:54-81 | BRK at 0 with vector 03 FF: pc 0xFF03, stack 02 00 14, I set, B clear, sp 0xFD |
| CpuProperties.StepOnBreak | src/main/kotlin/com/pherrymason/nes/cpu/CPU6502.kt:45 | a step on opcode 0x00 completes as the BRK step after pc + 1 |
| CpuProperties.ExecuteBreak | src/main/kotlin/com/pherrymason/nes/cpu/CPU6502.kt:45 | `exe` on BRK is the BRK step, which always completes |
| CpuProperties.StackSlotIsUnsigned | src/main/kotlin/com/pherrymason/nes/cpu/CPU6502.kt:260 | the slot is 0x0100 + sp unsigned; the signed `Word + NesByte` would give 0x00FF for sp 0xFF |

## Where the code departs from its comments and tests

The model follows the code. Each departure below is stated by the lemmas named with it.

- **Signed index.** `Word + NesByte` reads the byte as signed (Data.kt:85-87). As a result, AbsoluteX/Y and PostIndexed subtract 256 for an index of 0x80 or more. See `WordPlusByteSignExtends`, `AbsoluteIndexedAgreesBelow0x80` and `PostIndexedAgreesBelow0x80`.
- **Indirect page wrap.** The comment (CPU6502.kt:161-167) documents the hardware bug: for a pointer ending in 0xFF, the high byte of the target is read from the start of the pointer's own page. The code instead reads the low byte at `(ptr and 0xFF00) shl 8`, which is always 0x0000, and the high byte at the pointer itself (CPU6502.kt:175-181). The result equals the documented word only when those cells happen to agree. See `MaskHighShiftIsZero` and `IndirectPageWrapReadsZero`.
- **Branch offset.** The branch offset is kept as an unsigned byte with high byte 0 (CPU6502.kt:222). A taken backward branch therefore lands 256 bytes past its intended target. See `RelativeOffset`, `BranchTargetCases` and `BranchBackwardGoesForward`.
- **Addressing-mode tests.** These tests pass the opcode's address where `clock` passes the operand's. The scenarios are stated with pc on the operand byte, and they hold for any memory that holds the bytes each test writes.
  - The page-crossing PostIndexed case yields 0xF800, not the expected 0x100 (`PostIndexedCrossingPage`).
  - The Relative cases (CpuAddressingModeTest.kt:160-194) expect pc + k with pc on the opcode. The code adds k to the operand's address; `RelativeOffset` states what it yields.
- **AND and pc.** `opAND` does not advance pc past its operand, so each AND case ends with pc on the operand byte (`AndTestNegative`, `AndTestZero`).
- **Chained test cases.** `reset` (CpuRegisters.kt:49-52) clears only x and y: it keeps pc and every flag. The opcode tests run several cases one after the other with a `reset` between them, so every case after the first starts where the previous one left pc, not at 0.
  - In the AND test the second `clock` fetches 0x8F at pc 1, which has no row, so it throws (`AndTestSecondCaseAsChained`).
  - In the branch and compare tests the later cases fetch from pc 2 or beyond, not from the rewritten program at 0; a flag set by an earlier case also survives the `reset`. The BCC test's second `clock` fetches 0x00 at pc 2 with carry still set and runs BRK (`BranchTestSecondCaseAsChained`); the CMP test's second `clock` likewise runs BRK from pc 2 (`CompareTestSecondCaseAsChained`).
  - The scenario lemmas (`AndTestZero`, `BranchTestScenario`, `CompareTestScenarios`) state each case from a fresh pc 0, as the tests evidently intend.
- **Indirect AND rows.** The AND rows 0x21 and 0x31 carry PostIndexed and PreIndexed. That is the reverse of the ADC and CMP rows (`IndirectRowsAsWritten`).

## Left out

- Cycle counts: `cyclesSpent` is always its default 1, and the extra cycles for page crossings and taken branches exist only as TODO comments.
- The meaning of the mnemonics routed to `toImplement` (ADC, ASL, DEC, LDA, JMP, stack, transfers, …). They have no code, so only their failure is modelled.
- `Nes.kt`, a driver with no logic, and the build files.
- The abandoned `com.pherrmason` package and `Instruction.kt`. The latter is a superseded copy of the table whose rows all reappear in `InstructionDescription.kt`.
- The JVM hash-code mechanics of `NesByte.equals`: `ByteEquals` compares the signed readings, which is what the hash codes are.
- Kotlin's 32-bit `Int` wrap: every result is reduced mod 256 or 65536, both of which divide 2^32.
- Exceptions: a throw is an `Outcome` value returned with the state at the throw. Stack unwinding is not modelled.
- Registers: `CpuRegisters.kt` declares flat flag fields and `s`, but `CPU6502.kt` uses `ps` and `sp`. The register file has both.
  - The seven flags plus the unused bit are one `ProcessorStatus` value `ps`.
  - `sp` is an 8-bit field starting at 0xFF.
  - `s` is kept, and nothing changes it.
  - `setZeroFlag` and `setNegativeFlag`, which `CPU6502.kt` calls, are methods of that class.
- Test helpers: the opcode tests call `InstructionDescription.fromOPCodeAddressingMode` and an `OPCode` enum, neither of which the source defines. The AND and BRK test lemmas use the opcodes of the rows the tests ask for, 0x29 and 0x00; `TestRows` proves that `fromInstructionCode`, the lookup by mnemonic and mode the source does define, returns exactly those rows. The compare tests' program is built from `fromInstructionCode` itself (`CompareImmediateRow`).
- Undefined operators: `Word.lowByte()`, `highByte()`, `pc++` and `pc += Word` are not defined in `Data.kt`. They are modelled as w mod 256, w div 256, increment mod 65536 and word addition mod 65536.
- Registers.Dump: `ps.dump()` is called by `opBRK` but neither `ps` nor `dump` is defined anywhere in the source. It is modelled as the standard 6502 status byte, C at bit 0 up to N at bit 7, with the unused bit 5 a stored flag that starts clear and that no instruction sets. That layout is a choice the BRK test's expected 0x14 agrees with; the source does not derive it.
- Cpu.StackSlot: it adds sp unsigned (0x0100 + sp). Kotlin's `Word + NesByte` would sign-extend sp and place slots for sp ≥ 0x80 in page zero. `StackSlotIsUnsigned` states the difference.
- Instructions.FromMemory: it is computed through an inverse table, the opcode column read backwards. `FromMemoryIsFirstMatch` proves it equal to the first-match search that `first { }` performs. `FromInstructionCode` is handled the same way.

/**
 * The thirteen ways a 6502 instruction names its operand. How each one
 * turns instruction bytes and index registers into an effective address is
 * `Decode.DecodeOperationAddress`.
 */
module Addressing {

  datatype AddressingMode =
    | Accumulator         // one-byte instruction acting on A
    | Immediate           // the operand is the byte after the opcode
    | Absolute            // a full 16-bit address, low byte first
    | ZeroPage            // an address in 0x0000..0x00FF
    | ZeroPageX           // zero-page address plus X, no carry out of page zero
    | ZeroPageY           // zero-page address plus Y, no carry out of page zero
    | AbsoluteXIndexed    // 16-bit address plus X
    | AbsoluteYIndexed    // 16-bit address plus Y
    | Implied             // no operand
    | Relative            // a branch offset
    | Indirect            // a pointer to the 16-bit target
    | PreIndexedIndirect  // (zero-page + X) holds the target
    | PostIndexedIndirect // (zero-page) holds a base to which Y is added
}

/**
 * The fixed-width values of the NES core: `NesByte` (8 bits) and `Word`
 * (16 bits, also used as `Address` and `ProgramCounter`).
 *
 * Both are immutable; every operator returns a new value and wraps around
 * silently. Parameters typed `int` stand for Kotlin's 32-bit `Int`: every
 * result is reduced modulo 256 or 65536, which divide 2^32, so the 32-bit
 * wrap of `Int` itself never changes a result, and shift counts are taken
 * modulo 32 as the JVM does.
 */
module Data {
  import opened Bits

  newtype NesByte = b: int | 0 <= b < 0x100
  newtype Word = w: int | 0 <= w < 0x1_0000

  type Address = Word
  type ProgramCounter = Word

  datatype Option<T> = None | Some(value: T)

  // ---------------------------------------------------------------------
  // NesByte

  /** `NesByte(Int)`: keeps the low 8 bits of a two's-complement Int. */
  function ByteOf(v: int): (r: NesByte)
    ensures r as int == v % 0x100
    ensures 0 <= v < 0x100 ==> r as int == v
  {
    (v % 0x100) as NesByte
  }

  /** The signed reading of a byte (Kotlin's `UByte.toByte()`). */
  function ToSigned8(b: NesByte): (r: int)
    ensures -0x80 <= r < 0x80
    ensures r % 0x100 == b as int
  {
    if b < 0x80 then b as int else b as int - 0x100
  }

  /** `NesByte.plus(NesByte)`: addition modulo 256. */
  function ByteAdd(a: NesByte, b: NesByte): (r: NesByte)
    ensures a as int + b as int < 0x100 ==> r as int == a as int + b as int
    ensures a as int + b as int >= 0x100 ==> r as int == a as int + b as int - 0x100
  {
    ByteOf(a as int + b as int)
  }

  /** `NesByte.plus(Int)`: addition modulo 256. */
  function BytePlus(a: NesByte, n: int): (r: NesByte)
    ensures r as int == (a as int + n) % 0x100
  {
    ByteOf(a as int + n)
  }

  /** `NesByte.minus(Int)`: subtraction modulo 256. */
  function ByteMinus(a: NesByte, n: int): (r: NesByte)
    ensures r as int == (a as int - n) % 0x100
  {
    ByteOf(a as int - n)
  }

  /** Bit `i` (0 = least significant) of a byte. */
  predicate ByteBit(b: NesByte, i: nat)
  {
    Bit(b as int, i)
  }

  /** Bit 7, the sign bit that the N flag copies. */
  predicate IsNegative(b: NesByte)
  {
    ByteBit(b, 7)
  }

  /** `NesByte.and(NesByte)`. */
  function ByteAnd(a: NesByte, b: NesByte): (r: NesByte)
    ensures forall i: nat :: i < 8 ==> (ByteBit(r, i) <==> ByteBit(a, i) && ByteBit(b, i))
  {
    BitAndAll(a as int, b as int, 8);
    Pow2Constants();
    BitAnd(a as int, b as int, 8) as NesByte
  }

  /**
   * `NesByte.and(Int)`: the low 8 bits of `byte.toInt() and other`, which
   * depend only on the low 8 bits of `other`.
   */
  function ByteAndInt(a: NesByte, n: int): (r: NesByte)
    ensures forall i: nat :: i < 8 ==> (ByteBit(r, i) <==> ByteBit(a, i) && ByteBit(ByteOf(n), i))
  {
    ByteAnd(a, ByteOf(n))
  }

  /** A byte is determined by its eight bits. */
  lemma ByteBitsDetermine(a: NesByte, b: NesByte)
    requires forall i: nat :: i < 8 ==> (ByteBit(a, i) <==> ByteBit(b, i))
    ensures a == b
  {
    Pow2Constants();
    var x: nat := a as int;
    var y: nat := b as int;
    forall i: nat | i < 8
      ensures Bit(x, i) <==> Bit(y, i)
    {
      assert ByteBit(a, i) <==> ByteBit(b, i);
    }
    BitsDetermine(x, y, 8);
  }

  /** `and 0xFF` leaves a byte unchanged. */
  lemma ByteAndAllOnes(a: NesByte)
    ensures ByteAndInt(a, 0xFF) == a
  {
    Pow2Constants();
    BitAndOnes(a as int, 8);
  }

  /** `NesByte.or(NesByte)`. */
  function ByteOr(a: NesByte, b: NesByte): (r: NesByte)
    ensures forall i: nat :: i < 8 ==> (ByteBit(r, i) <==> ByteBit(a, i) || ByteBit(b, i))
  {
    BitOrAll(a as int, b as int, 8);
    Pow2Constants();
    BitOr(a as int, b as int, 8) as NesByte
  }

  /** `NesByte.inv()`: the bitwise complement. */
  function ByteInv(a: NesByte): (r: NesByte)
    ensures forall i: nat :: i < 8 ==> (ByteBit(r, i) <==> !ByteBit(a, i))
  {
    Pow2Constants();
    var r := (0xFF - a as int) as NesByte;
    assert forall i: nat :: i < 8 ==> (ByteBit(r, i) <==> !ByteBit(a, i)) by {
      forall i: nat | i < 8 {
        BitComplement(a as int, 8, i);
      }
    }
    r
  }

  /**
   * `NesByte.shl(bitCount)`: shifts the Int left by `bitCount % 32` and keeps
   * the low 8 bits.
   */
  function ByteShl(a: NesByte, bitCount: int): (r: NesByte)
    ensures bitCount % 32 >= 8 ==> r == 0
    ensures a as int * Pow2(bitCount % 32) < 0x100 ==> r as int == a as int * Pow2(bitCount % 32)
    ensures r as int == (a as int * Pow2(bitCount % 32)) % 0x100
  {
    var k := bitCount % 32;
    Pow2Constants();
    if k >= 8 then
      ShiftLeftOut(a as int, 8, k);
      ByteOf(a as int * Pow2(k))
    else
      ByteOf(a as int * Pow2(k))
  }

  /** `NesByte.shr(bitCount)`: `Int.shr` of a non-negative value, a logical right shift. */
  function ByteShr(a: NesByte, bitCount: int): (r: NesByte)
    ensures bitCount % 32 >= 8 ==> r == 0
    ensures forall i: nat :: i + bitCount % 32 < 8 ==> (ByteBit(r, i) <==> ByteBit(a, i + bitCount % 32))
    ensures r as int == a as int / Pow2(bitCount % 32)
  {
    var k := bitCount % 32;
    Pow2Constants();
    ShiftRightBounds(a as int, 8, k);
    ShrIsDiv(a as int, k);
    Shr(a as int, k) as NesByte
  }

  /** `NesByte.toWord()`: embeds the byte as the low byte of a word. */
  function ToWord(a: NesByte): (r: Word)
    ensures LowByte(r) == a && HighByte(r) == 0
  {
    a as int as Word
  }

  /** `NesByte.compareTo(NesByte)`: unsigned order, -1, 0 or 1. */
  function ByteCompare(a: NesByte, b: NesByte): (r: int)
    ensures r < 0 <==> a < b
    ensures r == 0 <==> a == b
    ensures r > 0 <==> a > b
  {
    if a < b then -1 else if a == b then 0 else 1
  }

  /** `NesByte.compareTo(Int)`: compares with `other.toUByte()`. */
  function ByteCompareInt(a: NesByte, n: int): (r: int)
    ensures r < 0 <==> a as int < n % 0x100
    ensures r == 0 <==> a as int == n % 0x100
  {
    ByteCompare(a, ByteOf(n))
  }

  /**
   * `NesByte.equals` between two bytes: compares hash codes, and a byte's
   * hash code is its signed reading, which is injective on bytes.
   */
  function ByteEquals(a: NesByte, b: NesByte): (r: bool)
    ensures r <==> a == b
  {
    ToSigned8(a) == ToSigned8(b)
  }

  /** `NesByte.toBool()`: true when any of the eight bits is set. */
  function ToBool(a: NesByte): (r: bool)
    ensures r <==> exists i: nat :: i < 8 && ByteBit(a, i)
  {
    Pow2Constants();
    assert (forall i: nat :: i < 8 ==> !ByteBit(a, i)) ==> a == 0 by {
      if forall i: nat :: i < 8 ==> !ByteBit(a, i) {
        ZeroBits();
        forall i: nat | i < 8
          ensures Bit(a as int, i) <==> Bit(0, i)
        {
          assert !ByteBit(a, i);
        }
        BitsDetermine(a as int, 0, 8);
      }
    }
    a != 0
  }

  // ---------------------------------------------------------------------
  // Word

  /** `Word(Int)`: keeps the low 16 bits. */
  function WordOf(v: int): (r: Word)
    ensures r as int == v % 0x1_0000
    ensures 0 <= v < 0x1_0000 ==> r as int == v
  {
    (v % 0x1_0000) as Word
  }

  /** The signed reading of a word (Kotlin's `UShort.toShort()`). */
  function ToSigned16(w: Word): (r: int)
    ensures -0x8000 <= r < 0x8000
    ensures r % 0x1_0000 == w as int
  {
    if w < 0x8000 then w as int else w as int - 0x1_0000
  }

  /** `Word.lowByte()`: the low 8 bits. */
  function LowByte(w: Word): NesByte
  {
    (w as int % 0x100) as NesByte
  }

  /** `Word.highByte()`: the high 8 bits. */
  function HighByte(w: Word): NesByte
  {
    (w as int / 0x100) as NesByte
  }

  /** `Word(lo, hi)`: `hi shl 8 or lo`, the little-endian assembly of two bytes. */
  function WordFromBytes(lo: NesByte, hi: NesByte): (r: Word)
    ensures r as int == hi as int * 0x100 + lo as int
    ensures LowByte(r) == lo && HighByte(r) == hi
  {
    Pow2Constants();
    BitOrDisjoint(hi as int, lo as int, 8, 16);
    var v := BitOr(hi as int * 0x100, lo as int, 16);
    DivUnique(v, 0x100, hi as int, lo as int);
    WordOf(v)
  }

  /**
   * `Word(lo, hi: Int)`: `hi shl 8 or lo` truncated to 16 bits, so only the
   * low 8 bits of `hi` survive.
   */
  function WordFromByteAndInt(lo: NesByte, hi: int): (r: Word)
    ensures LowByte(r) == lo
    ensures HighByte(r) as int == hi % 0x100
  {
    WordFromBytes(lo, ByteOf(hi))
  }

  /** `Word.plus(Int)`: computed on the signed reading, equal to addition modulo 65536. */
  function WordPlus(w: Word, n: int): (r: Word)
    ensures r as int == (w as int + n) % 0x1_0000
    ensures 0 <= w as int + n < 0x1_0000 ==> r as int == w as int + n
  {
    WordOf(ToSigned16(w) + n)
  }

  /** `Word.minus(Int)`: computed on the signed reading, equal to subtraction modulo 65536. */
  function WordMinus(w: Word, n: int): (r: Word)
    ensures r as int == (w as int - n) % 0x1_0000
    ensures 0 <= w as int - n < 0x1_0000 ==> r as int == w as int - n
  {
    WordOf(ToSigned16(w) - n)
  }

  /**
   * `Word.plus(NesByte)`: adds `other.byte.toByte()`, the byte read as a
   * signed value in -128..127.
   */
  function WordPlusByte(w: Word, b: NesByte): (r: Word)
    ensures b < 0x80 ==> r == WordOf(w as int + b as int)
    ensures b >= 0x80 ==> r == WordOf(w as int + b as int - 0x100)
  {
    WordOf(ToSigned16(w) + ToSigned8(b))
  }

  /** `pc++` on a word: increment modulo 65536. */
  function WordInc(w: Word): (r: Word)
    ensures w < 0xFFFF ==> r as int == w as int + 1
    ensures w == 0xFFFF ==> r == 0
  {
    WordOf(w as int + 1)
  }

  /** `pc += Word`: addition of two words modulo 65536. */
  function WordAdd(w: Word, v: Word): (r: Word)
    ensures w as int + v as int < 0x1_0000 ==> r as int == w as int + v as int
    ensures w as int + v as int >= 0x1_0000 ==> r as int == w as int + v as int - 0x1_0000
  {
    WordOf(w as int + v as int)
  }

  /** Bit `i` (0 = least significant) of a word. */
  predicate WordBit(w: Word, i: nat)
  {
    Bit(w as int, i)
  }

  /** `Word.and(Int)`: the low 16 bits of `word.toInt() and other`. */
  function WordAnd(w: Word, n: int): (r: Word)
    ensures forall i: nat :: i < 16 ==> (WordBit(r, i) <==> WordBit(w, i) && WordBit(WordOf(n), i))
  {
    Pow2Constants();
    BitAndAll(w as int, WordOf(n) as int, 16);
    BitAnd(w as int, WordOf(n) as int, 16) as Word
  }

  /** `Word.or(Int)`: the low 16 bits of `word.toInt() or other`. */
  function WordOr(w: Word, n: int): (r: Word)
    ensures forall i: nat :: i < 16 ==> (WordBit(r, i) <==> WordBit(w, i) || WordBit(WordOf(n), i))
  {
    Pow2Constants();
    BitOrAll(w as int, WordOf(n) as int, 16);
    BitOr(w as int, WordOf(n) as int, 16) as Word
  }

  /** `Word.shl(bitCount)`: shifts the Int left by `bitCount % 32`, keeps the low 16 bits. */
  function WordShl(w: Word, bitCount: int): (r: Word)
    ensures bitCount % 32 >= 16 ==> r == 0
    ensures w as int * Pow2(bitCount % 32) < 0x1_0000 ==> r as int == w as int * Pow2(bitCount % 32)
    ensures r as int == (w as int * Pow2(bitCount % 32)) % 0x1_0000
  {
    var k := bitCount % 32;
    Pow2Constants();
    if k >= 16 then
      ShiftLeftOut(w as int, 16, k);
      WordOf(w as int * Pow2(k))
    else
      WordOf(w as int * Pow2(k))
  }

  /** `Word.shr(bitCount)`: `Int.shr` of a non-negative value, a logical right shift. */
  function WordShr(w: Word, bitCount: int): (r: Word)
    ensures bitCount % 32 >= 16 ==> r == 0
    ensures forall i: nat :: i + bitCount % 32 < 16 ==> (WordBit(r, i) <==> WordBit(w, i + bitCount % 32))
    ensures r as int == w as int / Pow2(bitCount % 32)
  {
    var k := bitCount % 32;
    Pow2Constants();
    ShiftRightBounds(w as int, 16, k);
    ShrIsDiv(w as int, k);
    Shr(w as int, k) as Word
  }
}

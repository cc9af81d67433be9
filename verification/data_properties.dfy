/**
 * Properties of the `NesByte` and `Word` operators: wrap-around, byte
 * assembly, the unsigned order, and the two places where the operators do
 * something other than plain unsigned arithmetic.
 */
module DataProperties {
  import opened Bits
  import opened Data

  /** Adding then subtracting the same Int gives the byte back. */
  lemma {:induction false} BytePlusMinus(a: NesByte, n: int)
    ensures ByteMinus(BytePlus(a, n), n) == a
  {
    var q := (a as int + n) / 0x100;
    assert BytePlus(a, n) as int - n == a as int + 0x100 * (-q);
    DivUnique(BytePlus(a, n) as int - n, 0x100, -q, a as int);
  }

  /** Subtracting at most 256 wraps at most once: below zero the byte gains 256. */
  lemma ByteMinusWraps(a: NesByte, n: int)
    requires 0 <= n <= 0x100
    ensures a as int >= n ==> ByteMinus(a, n) as int == a as int - n
    ensures a as int < n ==> ByteMinus(a, n) as int == a as int - n + 0x100
  {
    if a as int >= n {
      DivUnique(a as int - n, 0x100, 0, a as int - n);
    } else {
      DivUnique(a as int - n, 0x100, -1, a as int - n + 0x100);
    }
  }

  /** Byte arithmetic wraps: 255 + 1 = 0 and 0 - 1 = 255. */
  lemma ByteWrapExamples()
    ensures BytePlus(0xFF, 1) == 0 && ByteAdd(0xFF, 1) == 0
    ensures ByteMinus(0, 1) == 0xFF
    ensures ByteOf(-1) == 0xFF && ByteOf(0x1FF) == 0xFF
  {
  }

  /** Bit 7 is set exactly for the bytes 0x80..0xFF. */
  lemma IsNegativeIffHighHalf(b: NesByte)
    ensures IsNegative(b) <==> b >= 0x80
  {
    Pow2Constants();
    TopBit(b as int, 7);
  }

  /** Masking with 0x80 keeps bit 7 alone. */
  lemma AndSignBit(b: NesByte)
    ensures ByteAnd(b, 0x80) == if IsNegative(b) then 0x80 else 0
  {
    Pow2Constants();
    BitAndSingle(b as int, 7, 8);
  }

  /** `and` is commutative and idempotent on bytes. */
  lemma ByteAndLaws(a: NesByte, b: NesByte)
    ensures ByteAnd(a, b) == ByteAnd(b, a)
    ensures ByteAnd(a, a) == a
  {
    ByteBitsDetermine(ByteAnd(a, b), ByteAnd(b, a));
    ByteBitsDetermine(ByteAnd(a, a), a);
  }

  /** The complement of the complement is the byte itself. */
  lemma ByteInvInvolution(a: NesByte)
    ensures ByteInv(ByteInv(a)) == a
  {
    ByteBitsDetermine(ByteInv(ByteInv(a)), a);
  }

  /** `compareTo` is unsigned: 0x80 ranks above 0x7F (signed it would not). */
  lemma CompareIsUnsigned()
    ensures ByteCompare(0x80, 0x7F) > 0
    ensures ToSigned8(0x80) < ToSigned8(0x7F)
    ensures ByteCompareInt(0x80, -0x80) == 0
  {
  }

  /** Splitting a word into bytes and assembling them gives it back. */
  lemma WordBytesRoundTrip(w: Word)
    ensures WordFromBytes(LowByte(w), HighByte(w)) == w
  {
    assert w as int == HighByte(w) as int * 0x100 + LowByte(w) as int;
  }

  /** `toWord` embeds a byte unchanged. */
  lemma ToWordValue(a: NesByte)
    ensures ToWord(a) as int == a as int
    ensures ToWord(a) == WordFromBytes(a, 0)
  {
  }

  /** Adding then subtracting the same Int gives the word back. */
  lemma {:induction false} WordPlusMinus(w: Word, n: int)
    ensures WordMinus(WordPlus(w, n), n) == w
  {
    var q := (w as int + n) / 0x1_0000;
    assert WordPlus(w, n) as int - n == w as int + 0x1_0000 * (-q);
    DivUnique(WordPlus(w, n) as int - n, 0x1_0000, -q, w as int);
  }

  /** Word arithmetic wraps: 0 - 1 = 0xFFFF and 0xFFFF + 1 = 0. */
  lemma WordWrapExamples()
    ensures WordPlus(0, -1) == 0xFFFF
    ensures WordMinus(0, 1) == 0xFFFF
    ensures WordPlus(0xFFFF, 1) == 0 && WordInc(0xFFFF) == 0
    ensures WordOf(0x1_0005) == 5
  {
    assert (-1) % 0x1_0000 == 0xFFFF;
    assert 0x1_0000 % 0x1_0000 == 0;
    assert 0x1_0005 % 0x1_0000 == 5;
  }

  /**
   * `Word + NesByte` agrees with unsigned addition only for bytes below
   * 0x80; a byte 0x80..0xFF is subtracted from 256, so the sum lands 256
   * below the unsigned one.
   */
  lemma {:induction false} WordPlusByteSignExtends(w: Word, b: NesByte)
    ensures b < 0x80 ==> WordPlusByte(w, b) == WordOf(w as int + b as int)
    ensures b >= 0x80 ==> WordPlusByte(w, b) != WordOf(w as int + b as int)
  {
    if b >= 0x80 {
      var r := WordPlusByte(w, b);
      var u := WordOf(w as int + b as int);
      assert (u as int - r as int - 0x100) % 0x1_0000 == 0;
    }
  }

  /** The value a page crossing in AbsoluteX produces: 0x1050 + 0xFF is 0x104F. */
  lemma WordPlusByteExample()
    ensures WordPlusByte(0x1050, 0xFF) == 0x104F
    ensures WordPlusByte(0x0100, 0xFF) == 0x00FF
  {
  }

  /**
   * `w.and(0xFF00).shl(8)` is 0 for every word: the mask leaves a multiple
   * of 256, and shifting that left by 8 pushes every set bit out of the
   * low 16 bits.
   */
  lemma MaskHighShiftIsZero(w: Word)
    ensures WordShl(WordAnd(w, 0xFF00), 8) == 0
  {
    Pow2Constants();
    var m := WordAnd(w, 0xFF00);
    assert m as int == BitAnd(w as int, 0xFF00, 16);
    MultipleMod(0x100, 0xFF);
    BitAndMultiple(w as int, 0xFF00, 16, 8);
    ShiftByteOut(m);
  }

  lemma ShiftByteOut(m: Word)
    requires m as int % 0x100 == 0
    ensures WordShl(m, 8) == 0
  {
    Pow2Constants();
    var q := m as int / 0x100;
    assert m as int * Pow2(8) == 0x1_0000 * q;
    MultipleMod(0x1_0000, q);
  }
}

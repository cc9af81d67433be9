/**
 * Arithmetic on the binary digits of natural numbers: the reference meaning
 * of the bitwise operators that `NesByte` and `Word` inherit from Kotlin's
 * `Int`. Bit `i` of `v` is the parity of `v` halved `i` times, which is
 * `(v / 2^i) % 2`; `and`/`or` are defined digit by digit, least significant
 * first.
 */
module Bits {

  function Pow2(k: nat): (r: nat)
    ensures r >= 1
  {
    if k == 0 then 1 else 2 * Pow2(k - 1)
  }

  lemma {:induction false} Pow2Add(j: nat, k: nat)
    ensures Pow2(j + k) == Pow2(j) * Pow2(k)
  {
    if k > 0 {
      Pow2Add(j, k - 1);
      assert Pow2(j + k) == 2 * Pow2(j + k - 1);
    }
  }

  lemma Pow2Constants()
    ensures Pow2(7) == 0x80 && Pow2(8) == 0x100 && Pow2(16) == 0x1_0000
  {
    Pow2Add(8, 8);
  }

  /** Bit `i` (0 = least significant) of `v`. */
  predicate Bit(v: nat, i: nat)
  {
    if i == 0 then v % 2 == 1 else Bit(v / 2, i - 1)
  }

  /** Euclidean division is determined by any quotient/remainder pair. */
  lemma DivUnique(v: int, d: int, q: int, r: int)
    requires d >= 1 && 0 <= r < d && v == d * q + r
    ensures v / d == q && v % d == r
  {
    var k := q - v / d;
    assert d * k == v % d - r;
    assert k >= 1 ==> d * k >= d;
    assert k <= -1 ==> d * k <= -d;
  }

  lemma MulAssoc(a: int, b: int, c: int)
    ensures a * (b * c) == (a * b) * c
  {
  }

  lemma MulDistrib(a: int, b: int, c: int)
    ensures a * (b + c) == a * b + a * c
  {
  }

  lemma MulNonNegative(a: nat, b: nat)
    ensures a * b >= 0
  {
  }

  /** Multiplying by a natural number keeps the order. */
  lemma MulMonotone(p: nat, a: nat, b: nat)
    requires a <= b
    ensures p * a <= p * b
  {
    MulDistrib(p, a, b - a);
    MulNonNegative(p, b - a);
  }

  /** Dividing by `p * q` is dividing by `p` then by `q`. */
  lemma DivDiv(v: nat, p: nat, q: nat)
    requires p >= 1 && q >= 1
    ensures v / (p * q) == (v / p) / q
  {
    var q1 := v / p;
    var r1 := v % p;
    var q2 := q1 / q;
    var r2 := q1 % q;
    assert v == p * q1 + r1;
    assert q1 == q * q2 + r2;
    MulDistrib(p, q * q2, r2);
    MulAssoc(p, q, q2);
    assert v == (p * q) * q2 + (p * r2 + r1);
    MulMonotone(p, r2, q - 1);
    MulDistrib(p, q - 1, 1);
    MulNonNegative(p, r2);
    DivUnique(v, p * q, q2, p * r2 + r1);
  }

  /** Bit `i + 1` of `v` is bit `i` of `v / 2`. */
  lemma BitHalf(v: nat, i: nat)
    ensures Bit(v, i + 1) == Bit(v / 2, i)
  {
  }

  /** Bit `i` of `v` is the last digit of `v / 2^i`. */
  lemma {:induction false} BitIsDigit(v: nat, i: nat)
    ensures Bit(v, i) <==> (v / Pow2(i)) % 2 == 1
  {
    if i > 0 {
      DivDiv(v, 2, Pow2(i - 1));
      BitIsDigit(v / 2, i - 1);
    }
  }

  lemma {:induction false} ZeroBit(i: nat)
    ensures !Bit(0, i)
  {
    if i > 0 {
      ZeroBit(i - 1);
    }
  }

  /** Zero has no set bit. */
  lemma ZeroBits()
    ensures forall i: nat :: !Bit(0, i)
  {
    forall i: nat
      ensures !Bit(0, i)
    {
      ZeroBit(i);
    }
  }

  /** `v` halved `k` times: the right shift of a natural number by `k`. */
  function Shr(v: nat, k: nat): (r: nat)
    ensures r <= v
  {
    if k == 0 then v else Shr(v / 2, k - 1)
  }

  /** Shifting right by `k` is dividing by `2^k`. */
  lemma {:induction false} ShrIsDiv(v: nat, k: nat)
    ensures Shr(v, k) == v / Pow2(k)
  {
    if k > 0 {
      ShrIsDiv(v / 2, k - 1);
      DivDiv(v, 2, Pow2(k - 1));
    }
  }

  /** Bit `i` of `v` shifted right by `k` is bit `i + k` of `v`. */
  lemma {:induction false} BitShift(v: nat, k: nat, i: nat)
    ensures Bit(Shr(v, k), i) == Bit(v, i + k)
  {
    if k > 0 {
      BitShift(v / 2, k - 1, i);
    }
  }

  /** Shifting right by at least `width` clears a number below `2^width`. */
  lemma {:induction false} ShrBeyondWidth(v: nat, width: nat, k: nat)
    requires v < Pow2(width) && k >= width
    ensures Shr(v, k) == 0
  {
    if width > 0 {
      ShrBeyondWidth(v / 2, width - 1, k - 1);
    }
  }

  /**
   * Shifting right by `k` clears everything when `k >= width`, and moves
   * bit `i + k` to bit `i`.
   */
  lemma ShiftRightBounds(v: nat, width: nat, k: nat)
    requires v < Pow2(width)
    ensures k >= width ==> Shr(v, k) == 0
    ensures forall i: nat :: Bit(Shr(v, k), i) == Bit(v, i + k)
  {
    if k >= width {
      ShrBeyondWidth(v, width, k);
    }
    forall i: nat
      ensures Bit(Shr(v, k), i) == Bit(v, i + k)
    {
      BitShift(v, k, i);
    }
  }

  /** Shifting left by `k >= width` leaves nothing below `2^width`. */
  lemma ShiftLeftOut(v: nat, width: nat, k: nat)
    requires k >= width
    ensures (v * Pow2(k)) % Pow2(width) == 0
  {
    var p := Pow2(width);
    var q := Pow2(k - width);
    Pow2Add(width, k - width);
    assert Pow2(k) == p * q;
    MulRearrange(v, p, q);
    MultipleMod(p, v * q);
  }

  lemma MulRearrange(v: int, p: int, q: int)
    ensures v * (p * q) == p * (v * q)
  {
  }

  /** Bitwise `and` of the low `width` digits of `a` and `b`. */
  function BitAnd(a: nat, b: nat, width: nat): (r: nat)
    ensures r < Pow2(width)
  {
    if width == 0 then 0
    else (if a % 2 == 1 && b % 2 == 1 then 1 else 0) + 2 * BitAnd(a / 2, b / 2, width - 1)
  }

  /** Bitwise `or` of the low `width` digits of `a` and `b`. */
  function BitOr(a: nat, b: nat, width: nat): (r: nat)
    ensures r < Pow2(width)
  {
    if width == 0 then 0
    else (if a % 2 == 1 || b % 2 == 1 then 1 else 0) + 2 * BitOr(a / 2, b / 2, width - 1)
  }

  lemma {:induction false} BitAndBits(a: nat, b: nat, width: nat, i: nat)
    requires i < width
    ensures Bit(BitAnd(a, b, width), i) <==> Bit(a, i) && Bit(b, i)
  {
    var r := BitAnd(a, b, width);
    if i > 0 {
      BitAndBits(a / 2, b / 2, width - 1, i - 1);
      BitHalf(r, i - 1);
      BitHalf(a, i - 1);
      BitHalf(b, i - 1);
      assert r / 2 == BitAnd(a / 2, b / 2, width - 1);
    }
  }

  lemma {:induction false} BitOrBits(a: nat, b: nat, width: nat, i: nat)
    requires i < width
    ensures Bit(BitOr(a, b, width), i) <==> Bit(a, i) || Bit(b, i)
  {
    var r := BitOr(a, b, width);
    if i > 0 {
      BitOrBits(a / 2, b / 2, width - 1, i - 1);
      BitHalf(r, i - 1);
      BitHalf(a, i - 1);
      BitHalf(b, i - 1);
      assert r / 2 == BitOr(a / 2, b / 2, width - 1);
    }
  }

  lemma {:induction false} Pow2Monotone(j: nat, k: nat)
    requires j <= k
    ensures Pow2(j) <= Pow2(k)
  {
    if j < k {
      Pow2Monotone(j, k - 1);
    }
  }

  lemma BitAndAll(a: nat, b: nat, width: nat)
    ensures forall i: nat :: i < width ==> (Bit(BitAnd(a, b, width), i) <==> Bit(a, i) && Bit(b, i))
  {
    forall i: nat | i < width {
      BitAndBits(a, b, width, i);
    }
  }

  lemma BitOrAll(a: nat, b: nat, width: nat)
    ensures forall i: nat :: i < width ==> (Bit(BitOr(a, b, width), i) <==> Bit(a, i) || Bit(b, i))
  {
    forall i: nat | i < width {
      BitOrBits(a, b, width, i);
    }
  }

  /** Beyond its width a number has no set bits. */
  lemma {:induction false} BitAboveWidth(v: nat, width: nat, i: nat)
    requires v < Pow2(width) && width <= i
    ensures !Bit(v, i)
  {
    if width == 0 {
      ZeroBit(i);
    } else {
      BitAboveWidth(v / 2, width - 1, i - 1);
    }
  }

  /** A number below `2^width` is determined by its low `width` bits. */
  lemma {:induction false} BitsDetermine(a: nat, b: nat, width: nat)
    requires a < Pow2(width) && b < Pow2(width)
    requires forall i: nat :: i < width ==> (Bit(a, i) <==> Bit(b, i))
    ensures a == b
  {
    if width > 0 {
      assert Bit(a, 0) <==> Bit(b, 0);
      forall i: nat | i < width - 1
        ensures Bit(a / 2, i) <==> Bit(b / 2, i)
      {
        BitHalf(a, i);
        BitHalf(b, i);
        assert Bit(a, i + 1) <==> Bit(b, i + 1);
      }
      BitsDetermine(a / 2, b / 2, width - 1);
    }
  }

  /** Masking with a single bit keeps exactly that bit. */
  lemma {:induction false} BitAndSingle(a: nat, k: nat, width: nat)
    requires k < width
    ensures BitAnd(a, Pow2(k), width) == if Bit(a, k) then Pow2(k) else 0
  {
    if k == 0 {
      BitAndZero(a / 2, width - 1);
    } else {
      BitAndSingle(a / 2, k - 1, width - 1);
      BitHalf(a, k - 1);
      assert Pow2(k) / 2 == Pow2(k - 1);
    }
  }

  lemma {:induction false} BitAndZero(a: nat, width: nat)
    ensures BitAnd(a, 0, width) == 0
  {
    if width > 0 {
      BitAndZero(a / 2, width - 1);
    }
  }

  /** A multiple of `d` leaves no remainder. */
  lemma MultipleMod(d: nat, m: nat)
    requires d >= 1
    ensures (d * m) % d == 0 && (d * m) / d == m
  {
    DivUnique(d * m, d, m, 0);
  }

  /** A mask that is a multiple of `2^k` yields a multiple of `2^k`. */
  lemma {:induction false} BitAndMultiple(a: nat, b: nat, width: nat, k: nat)
    requires b % Pow2(k) == 0
    ensures BitAnd(a, b, width) % Pow2(k) == 0
  {
    if k == 0 {
      MultipleMod(1, BitAnd(a, b, width));
    } else if width == 0 {
      MultipleMod(Pow2(k), 0);
    } else {
      var p := Pow2(k - 1);
      HalveMultiple(b, p);
      BitAndMultiple(a / 2, b / 2, width - 1, k - 1);
      DoubleMultiple(BitAnd(a / 2, b / 2, width - 1), p);
    }
  }

  lemma HalveMultiple(b: nat, p: nat)
    requires p >= 1 && b % (2 * p) == 0
    ensures b % 2 == 0 && (b / 2) % p == 0
  {
    var q := b / (2 * p);
    assert b == 2 * (p * q);
    MultipleMod(2, p * q);
    MultipleMod(p, q);
  }

  lemma DoubleMultiple(r: nat, p: nat)
    requires p >= 1 && r % p == 0
    ensures (2 * r) % (2 * p) == 0
  {
    var m := r / p;
    assert 2 * r == (2 * p) * m;
    MultipleMod(2 * p, m);
  }

  /** Masking with all ones below `2^width` keeps a number below `2^width`. */
  lemma {:induction false} BitAndOnes(a: nat, width: nat)
    requires a < Pow2(width)
    ensures BitAnd(a, Pow2(width) - 1, width) == a
  {
    if width > 0 {
      var p := Pow2(width - 1);
      assert (2 * p - 1) % 2 == 1 && (2 * p - 1) / 2 == p - 1;
      BitAndOnes(a / 2, width - 1);
    }
  }

  lemma {:induction false} BitOrZero(a: nat, width: nat)
    requires a < Pow2(width)
    ensures BitOr(a, 0, width) == a
  {
    if width > 0 {
      BitOrZero(a / 2, width - 1);
    }
  }

  /**
   * Or-ing `h` shifted left by `k` with a number below `2^k` is addition:
   * the two have no bit in common.
   */
  lemma {:induction false} BitOrDisjoint(h: nat, l: nat, k: nat, width: nat)
    requires l < Pow2(k) && h * Pow2(k) + l < Pow2(width)
    ensures BitOr(h * Pow2(k), l, width) == h * Pow2(k) + l
  {
    MulNonNegative(h, Pow2(k));
    if k == 0 {
      BitOrZero(h, width);
    } else if width == 0 {
    } else {
      var p := Pow2(k - 1);
      var hp := h * p;
      MulNonNegative(h, p);
      assert h * Pow2(k) == 2 * hp by {
        MulAssoc(h, 2, p);
      }
      assert (2 * hp) / 2 == hp && (2 * hp) % 2 == 0;
      assert hp + l / 2 < Pow2(width - 1);
      BitOrDisjoint(h, l / 2, k - 1, width - 1);
      assert BitOr(2 * hp, l, width) == (if l % 2 == 1 then 1 else 0) + 2 * BitOr(hp, l / 2, width - 1);
    }
  }

  /** The complement below `2^width` flips every bit. */
  lemma {:induction false} BitComplement(a: nat, width: nat, i: nat)
    requires a < Pow2(width) && i < width
    ensures Bit(Pow2(width) - 1 - a, i) <==> !Bit(a, i)
  {
    var c := Pow2(width) - 1 - a;
    if i > 0 {
      var p := Pow2(width - 1);
      assert c / 2 == p - 1 - a / 2;
      BitComplement(a / 2, width - 1, i - 1);
      BitHalf(c, i - 1);
      BitHalf(a, i - 1);
    }
  }

  /** The top bit of a number below `2^(i+1)` says whether it reaches `2^i`. */
  lemma {:induction false} TopBit(v: nat, i: nat)
    requires v < Pow2(i + 1)
    ensures Bit(v, i) <==> v >= Pow2(i)
  {
    if i > 0 {
      TopBit(v / 2, i - 1);
    }
  }
}

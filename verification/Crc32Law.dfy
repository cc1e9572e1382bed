/**
 * What the checksum is: the remainder of the message by the generator of CRC-32, taken over
 * GF(2) with the bits in the order they are sent. A number stands for a polynomial, its lowest
 * bit for the coefficient that is sent first.
 */
module Crc32Law {
  import opened Bytes
  import opened Crc32

  /** x^32 + x^26 + x^23 + x^22 + x^16 + x^12 + x^11 + x^10 + x^8 + x^7 + x^5 + x^4 + x^2 + x + 1. */
  const GENERATOR := 0x1_04C1_1DB7

  /** The generator with its highest coefficient first. */
  const REFLECTED := 0x1_DB71_0641

  /** The product of two polynomials. */
  function Times(a: nat, b: nat): nat
    decreases b
  {
    if b == 0 then 0 else Xor(if b % 2 == 1 then a else 0, 2 * Times(a, b / 2))
  }

  // ---- Addition ----

  lemma {:induction false} XorZero(a: nat)
    ensures Xor(a, 0) == a && Xor(0, a) == a
  {
    if a > 0 {
      XorZero(a / 2);
    }
  }

  lemma {:induction false} XorSelf(a: nat)
    ensures Xor(a, a) == 0
  {
    if a > 0 {
      XorSelf(a / 2);
    }
  }

  lemma {:induction false} XorCommutes(a: nat, b: nat)
    ensures Xor(a, b) == Xor(b, a)
    decreases a + b
  {
    if a > 0 || b > 0 {
      XorCommutes(a / 2, b / 2);
    }
  }

  lemma XorBits(a: nat, b: nat)
    ensures Xor(a, b) % 2 == (if a % 2 == b % 2 then 0 else 1) && Xor(a, b) / 2 == Xor(a / 2, b / 2)
  {
  }

  lemma {:induction false} XorAssociates(a: nat, b: nat, c: nat)
    ensures Xor(Xor(a, b), c) == Xor(a, Xor(b, c))
    decreases a + b + c
  {
    if a > 0 || b > 0 || c > 0 {
      XorAssociates(a / 2, b / 2, c / 2);
      XorBits(a, b);
      XorBits(b, c);
      XorBits(Xor(a, b), c);
      XorBits(a, Xor(b, c));
      hide Xor;
    }
  }

  lemma Even(a: nat)
    ensures 2 * a % 2 == 0 && 2 * a / 2 == a
  {
  }

  lemma XorDouble(a: nat, b: nat)
    ensures Xor(2 * a, 2 * b) == 2 * Xor(a, b)
  {
  }

  /** Sums of four may be regrouped. */
  lemma XorFour(a: nat, b: nat, c: nat, d: nat)
    ensures Xor(Xor(a, b), Xor(c, d)) == Xor(Xor(a, c), Xor(b, d))
  {
    hide Xor;
    XorAssociates(a, b, Xor(c, d));
    XorAssociates(b, c, d);
    XorCommutes(b, c);
    XorAssociates(c, b, d);
    XorAssociates(a, c, Xor(b, d));
  }

  // ---- The register ----

  function Shift(c: nat): nat { if c % 2 == 1 then Xor(c / 2, 0xEDB8_8320) else c / 2 }

  /** One step is linear. */
  lemma ShiftLinear(a: nat, b: nat)
    ensures Shift(Xor(a, b)) == Xor(Shift(a), Shift(b))
  {
    XorBits(a, b);
    var p, x, y := 0xEDB8_8320, a / 2, b / 2;
    XorFour(x, p, y, p);
    XorSelf(p);
    XorZero(Xor(x, y));
    XorAssociates(x, y, p);
    XorAssociates(x, p, y);
    XorCommutes(p, y);
    hide Xor;
  }

  lemma {:induction false} ShiftBitsLinear(a: nat, b: nat, n: nat)
    ensures ShiftBits(Xor(a, b), n) == Xor(ShiftBits(a, n), ShiftBits(b, n))
    decreases n
  {
    hide Xor;
    if n > 0 {
      ShiftLinear(a, b);
      ShiftBitsLinear(Shift(a), Shift(b), n - 1);
    }
  }

  lemma {:induction false} ShiftBitsMore(c: nat, m: nat, n: nat)
    ensures ShiftBits(c, m + n) == ShiftBits(ShiftBits(c, m), n)
    decreases m
  {
    if m > 0 {
      ShiftBitsMore(Shift(c), m - 1, n);
    }
  }

  /** Zeros in front are shifted out. */
  lemma {:induction false} ShiftBitsOut(v: nat, n: nat)
    ensures ShiftBits(Pow2(n) * v, n) == v
    decreases n
  {
    if n > 0 {
      Twice(n - 1, v);
      ShiftBitsOut(v, n - 1);
    } else {
      assert Pow2(0) * v == v;
    }
  }

  lemma XorOver(low: nat, high: nat)
    requires Xor(low / 2, high) == low / 2 + high
    ensures Xor(low, 2 * high) == low + 2 * high
  {
    Even(high);
    XorBits(low, 2 * high);
    hide Xor;
  }

  lemma {:induction false} XorJoins(low: nat, high: nat, n: nat)
    requires low < Pow2(n)
    ensures Xor(low, Pow2(n) * high) == low + Pow2(n) * high
    decreases n
  {
    if n == 0 {
      XorZero(high);
      assert Pow2(0) * high == high;
    } else {
      Twice(n - 1, high);
      XorJoins(low / 2, high, n - 1);
      hide Xor;
      XorOver(low, Pow2(n - 1) * high);
    }
  }

  /** The register after a message depends on the sum of the message and the register before. */
  lemma {:induction false} UpdateIsShift(c: nat, s: seq<u8>)
    ensures Update(c, s) == ShiftBits(Xor(c, Value(s)), 8 * |s|)
    decreases s
  {
    hide Xor;
    if s == [] {
      XorZero(c);
    } else {
      var rest := Value(s[1..]);
      var next := ShiftBits(Xor(c, s[0]), 8);
      UpdateIsShift(next, s[1..]);
      Byte();
      XorJoins(s[0], rest, 8);
      XorAssociates(c, s[0], rest * 256);
      ShiftBitsLinear(Xor(c, s[0]), rest * 256, 8);
      ShiftBitsOut(rest, 8);
      ShiftBitsMore(Xor(c, Value(s)), 8, 8 * |s[1..]|);
    }
  }

  lemma Byte()
    ensures Pow2(8) == 256
  {
    Pow2Plus4(0);
    Pow2Plus4(4);
  }

  // ---- Division ----

  lemma {:induction false} TimesLow(a: nat, low: bool, q: nat)
    ensures Times(a, (if low then 1 else 0) + 2 * q) == Xor(if low then a else 0, 2 * Times(a, q))
  {
    XorZero(0);
  }

  /** Shifting out bits is dividing: some multiple of the generator cancels them. */
  lemma {:induction false} ShiftDivides(c: nat, n: nat) returns (q: nat)
    ensures q < Pow2(n)
    ensures Xor(c, Times(REFLECTED, q)) == Pow2(n) * ShiftBits(c, n)
    decreases n
  {
    hide Xor;
    if n == 0 {
      q := 0;
      XorZero(c);
    } else {
      var low := c % 2 == 1;
      var rest := ShiftDivides(Shift(c), n - 1);
      q := (if low then 1 else 0) + 2 * rest;
      TimesLow(REFLECTED, low, rest);
      var product := Times(REFLECTED, rest);
      OneBit(c);
      XorAssociates(c, if low then REFLECTED else 0, 2 * product);
      XorDouble(Shift(c), product);
      Twice(n - 1, ShiftBits(Shift(c), n - 1));
    }
  }

  lemma OneBit(c: nat)
    ensures Xor(c, if c % 2 == 1 then REFLECTED else 0) == 2 * Shift(c)
  {
    XorBits(c, REFLECTED);
    XorZero(c);
    assert REFLECTED / 2 == 0xEDB8_8320 && REFLECTED % 2 == 1;
    hide Xor;
  }

  /** A multiple whose lowest bits vanish is that of a factor whose lowest bits vanish. */
  lemma {:induction false} TimesOdd(q: nat, n: nat, rest: nat)
    requires Times(REFLECTED, q) == Pow2(n) * rest && q < Pow2(n)
    ensures q == 0
    decreases n
  {
    if n > 0 {
      hide Times;
      Twice(n - 1, rest);
      Twice(n - 1, 1);
      EvenFactor(REFLECTED, q, Pow2(n - 1) * rest);
      TimesOdd(q / 2, n - 1, rest);
    }
  }

  /** An even multiple of something odd is one of an even factor. */
  lemma EvenFactor(g: nat, q: nat, half: nat)
    requires g % 2 == 1 && Times(g, q) == 2 * half
    ensures q % 2 == 0 && Times(g, q / 2) == half
  {
    TimesUnfolds(g, q);
    EvenSum(g, q % 2 == 1, Times(g, q / 2), half);
  }

  lemma EvenSum(g: nat, odd: bool, product: nat, half: nat)
    requires g % 2 == 1 && Xor(if odd then g else 0, 2 * product) == 2 * half
    ensures !odd && product == half
  {
    hide Xor;
    Even(product);
    Even(half);
    if odd {
      XorBits(g, 2 * product);
    } else {
      XorZero(2 * product);
    }
  }

  lemma {:induction false} TimesSum(a: nat, p: nat, q: nat)
    ensures Times(a, Xor(p, q)) == Xor(Times(a, p), Times(a, q))
    decreases p + q
  {
    if p == 0 && q == 0 {
    } else {
      TimesSum(a, p / 2, q / 2);
      XorBits(p, q);
      var x, y := if p % 2 == 1 then a else 0, if q % 2 == 1 then a else 0;
      var u, v := Times(a, p / 2), Times(a, q / 2);
      XorDouble(u, v);
      XorFour(x, 2 * u, y, 2 * v);
      XorSelf(a);
      XorZero(a);
      XorZero(0);
      TimesUnfolds(a, p);
      TimesUnfolds(a, q);
      TimesUnfolds(a, Xor(p, q));
      hide Times;
      hide Xor;
    }
  }

  lemma TimesUnfolds(a: nat, b: nat)
    ensures Times(a, b) == Xor(if b % 2 == 1 then a else 0, 2 * Times(a, b / 2))
  {
    XorZero(0);
  }

  /** `r` is what is left of the message and the initial ones when the generator has divided them. */
  predicate Remainder(s: seq<u8>, q: nat, r: nat) {
    q < Pow2(8 * |s|) && Xor(Xor(0xFFFF_FFFF, Value(s)), Times(REFLECTED, q)) == Pow2(8 * |s|) * r
  }

  /** The checksum is the complement of the remainder. */
  lemma IsRemainder(s: seq<u8>) returns (q: nat)
    ensures Remainder(s, q, Xor(Of(s), 0xFFFF_FFFF))
  {
    hide Xor;
    q := ShiftDivides(Xor(0xFFFF_FFFF, Value(s)), 8 * |s|);
    UpdateIsShift(0xFFFF_FFFF, s);
    var r := Update(0xFFFF_FFFF, s);
    XorAssociates(r, 0xFFFF_FFFF, 0xFFFF_FFFF);
    XorSelf(0xFFFF_FFFF);
    XorZero(r);
  }

  lemma Twice(n: nat, a: nat)
    ensures Pow2(n + 1) * a == 2 * (Pow2(n) * a)
  {
  }

  lemma {:induction false} XorPow(a: nat, b: nat, n: nat)
    ensures Xor(Pow2(n) * a, Pow2(n) * b) == Pow2(n) * Xor(a, b)
    decreases n
  {
    if n > 0 {
      Twice(n - 1, a);
      Twice(n - 1, b);
      Twice(n - 1, Xor(a, b));
      XorPow(a, b, n - 1);
      hide Pow2;
      XorDouble(Pow2(n - 1) * a, Pow2(n - 1) * b);
    } else {
      assert Pow2(0) * a == a && Pow2(0) * b == b && Pow2(0) * Xor(a, b) == Xor(a, b);
    }
  }

  lemma {:induction false} XorCancels(m: nat, a: nat, b: nat)
    ensures Xor(Xor(m, a), Xor(m, b)) == Xor(a, b)
  {
    hide Xor;
    XorFour(m, a, m, b);
    XorSelf(m);
    XorZero(Xor(a, b));
  }

  lemma {:induction false} XorNothing(a: nat, b: nat)
    requires Xor(a, b) == 0
    ensures a == b
    decreases a + b
  {
    if a > 0 || b > 0 {
      XorBits(a, b);
      XorNothing(a / 2, b / 2);
    }
  }

  /** There is only one remainder, so the checksum is determined by the generator. */
  lemma OnlyRemainder(s: seq<u8>, q: nat, r: nat)
    requires Remainder(s, q, r)
    ensures r == Xor(Of(s), 0xFFFF_FFFF)
  {
    var n, m := 8 * |s|, Xor(0xFFFF_FFFF, Value(s));
    var p := IsRemainder(s);
    var own := Xor(Of(s), 0xFFFF_FFFF);
    XorCancels(m, Times(REFLECTED, p), Times(REFLECTED, q));
    XorPow(own, r, n);
    TimesSum(REFLECTED, p, q);
    XorBound(p, q, n);
    TimesOdd(Xor(p, q), n, Xor(own, r));
    XorNothing(p, q);
    assert Pow2(n) * own == Pow2(n) * r;
    SameFactor(Pow2(n), own, r);
  }

  lemma SameFactor(m: nat, a: nat, b: nat)
    requires m > 0 && m * a == m * b
    ensures a == b
  {
    if a < b {
      Larger(m, a, b);
    } else if b < a {
      Larger(m, b, a);
    }
  }

  lemma Larger(m: nat, a: nat, b: nat)
    requires m > 0 && a < b
    ensures m * a < m * b
  {
  }

  /**
   * The generator of the standard, by its exponents; the one divided by has each at 32 minus
   * its place, so it is the same with its coefficients in the opposite order.
   */
  lemma GeneratorReflected()
    ensures GENERATOR == Pow2(32) + Pow2(26) + Pow2(23) + Pow2(22) + Pow2(16) + Pow2(12) + Pow2(11) + Pow2(10)
              + Pow2(8) + Pow2(7) + Pow2(5) + Pow2(4) + Pow2(2) + Pow2(1) + Pow2(0)
    ensures REFLECTED == Pow2(32 - 32) + Pow2(32 - 26) + Pow2(32 - 23) + Pow2(32 - 22) + Pow2(32 - 16)
              + Pow2(32 - 12) + Pow2(32 - 11) + Pow2(32 - 10)
              + Pow2(32 - 8) + Pow2(32 - 7) + Pow2(32 - 5) + Pow2(32 - 4) + Pow2(32 - 2) + Pow2(32 - 1) + Pow2(32 - 0)
  {
    Powers();
  }

  lemma Powers()
    ensures Pow2(0) == 0x1 && Pow2(1) == 0x2 && Pow2(2) == 0x4 && Pow2(3) == 0x8
    ensures Pow2(4) == 0x10 && Pow2(5) == 0x20 && Pow2(6) == 0x40 && Pow2(7) == 0x80
    ensures Pow2(8) == 0x100 && Pow2(9) == 0x200 && Pow2(10) == 0x400 && Pow2(11) == 0x800
    ensures Pow2(12) == 0x1000 && Pow2(13) == 0x2000 && Pow2(14) == 0x4000 && Pow2(15) == 0x8000
    ensures Pow2(16) == 0x10000 && Pow2(17) == 0x20000 && Pow2(18) == 0x40000 && Pow2(19) == 0x80000
    ensures Pow2(20) == 0x100000 && Pow2(21) == 0x200000 && Pow2(22) == 0x400000 && Pow2(23) == 0x800000
    ensures Pow2(24) == 0x1000000 && Pow2(25) == 0x2000000 && Pow2(26) == 0x4000000 && Pow2(27) == 0x8000000
    ensures Pow2(28) == 0x10000000 && Pow2(29) == 0x20000000 && Pow2(30) == 0x40000000 && Pow2(31) == 0x80000000
    ensures Pow2(32) == 0x100000000
  {
    Pow2Plus4(0); Pow2Plus4(4); Pow2Plus4(8); Pow2Plus4(12);
    Pow2Plus4(16); Pow2Plus4(20); Pow2Plus4(24); Pow2Plus4(28);
    assert Pow2(1) == 2 * Pow2(0) && Pow2(2) == 2 * Pow2(1) && Pow2(3) == 2 * Pow2(2);
    assert Pow2(5) == 2 * Pow2(4) && Pow2(6) == 2 * Pow2(5) && Pow2(7) == 2 * Pow2(6);
    assert Pow2(9) == 2 * Pow2(8) && Pow2(10) == 2 * Pow2(9) && Pow2(11) == 2 * Pow2(10);
    assert Pow2(13) == 2 * Pow2(12) && Pow2(14) == 2 * Pow2(13) && Pow2(15) == 2 * Pow2(14);
    assert Pow2(17) == 2 * Pow2(16) && Pow2(18) == 2 * Pow2(17) && Pow2(19) == 2 * Pow2(18);
    assert Pow2(21) == 2 * Pow2(20) && Pow2(22) == 2 * Pow2(21) && Pow2(23) == 2 * Pow2(22);
    assert Pow2(25) == 2 * Pow2(24) && Pow2(26) == 2 * Pow2(25) && Pow2(27) == 2 * Pow2(26);
    assert Pow2(29) == 2 * Pow2(28) && Pow2(30) == 2 * Pow2(29) && Pow2(31) == 2 * Pow2(30);
  }

  /** A message with its checksum behind it leaves a constant. */
  lemma Residue(s: seq<u8>)
    ensures Update(0xFFFF_FFFF, s + LE(Of(s), 4)) == ShiftBits(0xFFFF_FFFF, 32)
  {
    hide Xor;
    var r := Update(0xFFFF_FFFF, s);
    UpdateConcat(0xFFFF_FFFF, s, LE(Of(s), 4));
    UpdateIsShift(r, LE(Of(s), 4));
    OfBound(s);
    Widths();
    ValueOfLE(Of(s), 4);
    XorAssociates(r, r, 0xFFFF_FFFF);
    XorSelf(r);
    XorZero(0xFFFF_FFFF);
  }
}

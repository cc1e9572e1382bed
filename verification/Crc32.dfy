/** The CRC-32 of the ZIP format (reflected polynomial 0xEDB88320), fed in pieces. */
module Crc32 {
  import opened Bytes

  function Pow2(n: nat): (p: nat)
    ensures p >= 1
  {
    if n == 0 then 1 else 2 * Pow2(n - 1)
  }

  function Xor(a: nat, b: nat): nat
    decreases a + b
  {
    if a == 0 && b == 0 then 0
    else (if a % 2 == b % 2 then 0 else 1) + 2 * Xor(a / 2, b / 2)
  }

  function ShiftBits(c: nat, times: nat): nat
    decreases times, c
  {
    if times == 0 then c
    else ShiftBits(if c % 2 == 1 then Xor(c / 2, 0xEDB8_8320) else c / 2, times - 1)
  }

  /** The hasher's register after `s`, starting from `c` (`Hasher::update`). */
  function Update(c: nat, s: seq<u8>): nat
    decreases s
  {
    if s == [] then c else Update(ShiftBits(Xor(c, s[0]), 8), s[1..])
  }

  /** `Hasher::finalize`. */
  function Finish(c: nat): nat { Xor(c, 0xFFFF_FFFF) }

  function Of(s: seq<u8>): nat { Finish(Update(0xFFFF_FFFF, s)) }

  lemma {:induction false} XorBound(a: nat, b: nat, n: nat)
    requires a < Pow2(n) && b < Pow2(n)
    ensures Xor(a, b) < Pow2(n)
  {
    if n > 0 {
      XorBound(a / 2, b / 2, n - 1);
    }
  }

  lemma Word()
    ensures Pow2(32) == 0x1_0000_0000
  {
    Pow2Plus4(0); Pow2Plus4(4); Pow2Plus4(8); Pow2Plus4(12);
    Pow2Plus4(16); Pow2Plus4(20); Pow2Plus4(24); Pow2Plus4(28);
  }

  lemma Pow2Plus4(n: nat)
    ensures Pow2(n + 4) == 16 * Pow2(n)
  {
    assert Pow2(n + 2) == 2 * Pow2(n + 1);
    assert Pow2(n + 4) == 2 * Pow2(n + 3);
  }

  lemma {:induction false} ShiftBitsBound(c: nat, times: nat)
    requires c < 0x1_0000_0000
    ensures ShiftBits(c, times) < 0x1_0000_0000
    decreases times
  {
    if times > 0 {
      Word();
      XorBound(c / 2, 0xEDB8_8320, 32);
      ShiftBitsBound(if c % 2 == 1 then Xor(c / 2, 0xEDB8_8320) else c / 2, times - 1);
    }
  }

  lemma {:induction false} UpdateBound(c: nat, s: seq<u8>)
    requires c < 0x1_0000_0000
    ensures Update(c, s) < 0x1_0000_0000
    decreases s
  {
    if s != [] {
      Word();
      XorBound(c, s[0], 32);
      ShiftBitsBound(Xor(c, s[0]), 8);
      UpdateBound(ShiftBits(Xor(c, s[0]), 8), s[1..]);
    }
  }

  /** The register is a 32-bit word throughout. */
  lemma OfBound(s: seq<u8>)
    ensures Of(s) < 0x1_0000_0000
  {
    UpdateBound(0xFFFF_FFFF, s);
    Word();
    XorBound(Update(0xFFFF_FFFF, s), 0xFFFF_FFFF, 32);
  }

  /** Feeding two pieces is feeding their concatenation. */
  lemma {:induction false} UpdateConcat(c: nat, a: seq<u8>, b: seq<u8>)
    ensures Update(c, a + b) == Update(Update(c, a), b)
    decreases a
  {
    if a == [] {
      assert a + b == b;
    } else {
      UpdateConcat(ShiftBits(Xor(c, a[0]), 8), a[1..], b);
      assert (a + b)[1..] == a[1..] + b;
    }
  }
}

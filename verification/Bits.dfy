/** Unsigned machine words as naturals, and the bit operations the program uses on them. */
module Bits {
  /** The number of values of a 64-bit word. */
  const WORD_LIMIT: nat := 0x1_0000_0000_0000_0000

  predicate Bit(w: nat, k: nat) {
    if k == 0 then w % 2 == 1 else Bit(w / 2, k - 1)
  }

  /** `1 << k` */
  function Pow2(k: nat): (r: nat)
    ensures r >= 1
  {
    if k == 0 then 1 else 2 * Pow2(k - 1)
  }

  function Or(a: nat, b: nat): nat
    decreases a + b
  {
    if a == 0 && b == 0 then 0
    else 2 * Or(a / 2, b / 2) + (if a % 2 == 1 || b % 2 == 1 then 1 else 0)
  }

  /** `a & ~b` */
  function AndNot(a: nat, b: nat): nat {
    if a == 0 then 0
    else 2 * AndNot(a / 2, b / 2) + (if a % 2 == 1 && b % 2 == 0 then 1 else 0)
  }

  /** The number of bits up to and including the highest one set. */
  function BitLength(w: nat): nat {
    if w == 0 then 0 else 1 + BitLength(w / 2)
  }

  /** `std::countr_zero` on a non-zero word. */
  function TrailingZeros(w: nat): nat
    requires w > 0
  {
    if w % 2 == 1 then 0 else 1 + TrailingZeros(w / 2)
  }

  lemma {:induction false} OrBit(a: nat, b: nat, k: nat)
    ensures Bit(Or(a, b), k) <==> Bit(a, k) || Bit(b, k)
    decreases k
  {
    if k > 0 {
      if a == 0 && b == 0 { ZeroHasNoBit(k); } else { OrBit(a / 2, b / 2, k - 1); }
    }
  }

  lemma {:induction false} AndNotBit(a: nat, b: nat, k: nat)
    ensures Bit(AndNot(a, b), k) <==> Bit(a, k) && !Bit(b, k)
    decreases k
  {
    if k > 0 {
      if a == 0 { ZeroHasNoBit(k); } else { AndNotBit(a / 2, b / 2, k - 1); }
    }
  }

  lemma {:induction false} ZeroHasNoBit(k: nat)
    ensures !Bit(0, k)
  {
    if k > 0 { ZeroHasNoBit(k - 1); }
  }

  lemma {:induction false} Pow2Bit(n: nat, k: nat)
    ensures Bit(Pow2(n), k) <==> k == n
    decreases n
  {
    if n == 0 {
      if k > 0 { ZeroHasNoBit(k - 1); }
    } else {
      assert Pow2(n) % 2 == 0 && Pow2(n) / 2 == Pow2(n - 1);
      if k > 0 { Pow2Bit(n - 1, k - 1); }
    }
  }

  /** The highest set bit of a non-zero word is the one below its bit length. */
  lemma {:induction false} HighestBit(w: nat, k: nat)
    ensures w > 0 ==> Bit(w, BitLength(w) - 1)
    ensures k >= BitLength(w) ==> !Bit(w, k)
    decreases w
  {
    if w == 0 {
      ZeroHasNoBit(k);
    } else {
      HighestBit(w / 2, if k > 0 then k - 1 else 0);
    }
  }

  /** The lowest set bit of a non-zero word is the one above its trailing zeros. */
  lemma {:induction false} LowestBit(w: nat, k: nat)
    requires w > 0
    ensures Bit(w, TrailingZeros(w))
    ensures k < TrailingZeros(w) ==> !Bit(w, k)
    decreases w
  {
    if w % 2 == 0 {
      LowestBit(w / 2, if k > 0 then k - 1 else 0);
    }
  }

  /** Filling the low bits of a multiple of a power of two adds to it. */
  lemma {:induction false} OrLowBits(a: nat, k: nat, b: nat)
    requires b < Pow2(k)
    ensures Or(a * Pow2(k), b) == a * Pow2(k) + b
  {
    if k == 0 {
      OrZero(a);
    } else {
      var x := a * Pow2(k - 1);
      assert a * Pow2(k) == 2 * x;
      OrLowBits(a, k - 1, b / 2);
      if 2 * x != 0 || b != 0 {
        assert Or(2 * x, b) == 2 * Or(x, b / 2) + b % 2;
      }
    }
  }

  lemma {:induction false} OrZero(a: nat)
    ensures Or(a, 0) == a
  {
    if a > 0 { OrZero(a / 2); }
  }

  lemma WordLimitIsPow2()
    ensures Pow2(64) == WORD_LIMIT
  {
    assert Pow2(8) == 0x100;
    Pow2Add(8, 8);
    Pow2Add(16, 16);
    Pow2Add(32, 32);
  }

  lemma {:induction false} Pow2Add(a: nat, b: nat)
    ensures Pow2(a + b) == Pow2(a) * Pow2(b)
  {
    if a > 0 {
      Pow2Add(a - 1, b);
      assert Pow2(a) * Pow2(b) == 2 * (Pow2(a - 1) * Pow2(b));
    }
  }
}

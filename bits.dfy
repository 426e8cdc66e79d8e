/**
 * Python's bitwise operators on non-negative integers: bit k of n, and the
 * bitwise exclusive or, and, or of two integers, defined one bit at a time.
 * Every property used elsewhere is put in terms of single bits (Bit), and
 * BitsDetermine turns a bit-by-bit agreement back into equality.
 */
module Bits {

  type posnat = n: nat | n >= 1 witness 1

  /** 2^k, and so never zero. */
  function Pow2(k: nat): posnat
    decreases k
  {
    if k == 0 then 1 else 2 * Pow2(k - 1)
  }

  /** Bit k of n, bit 0 being the least significant: (n >> k) & 1 == 1 in Python. */
  predicate Bit(n: nat, k: nat)
    decreases k
  {
    if k == 0 then n % 2 == 1 else Bit(n / 2, k - 1)
  }

  /** a ^ b */
  function Xor(a: nat, b: nat): nat
    decreases a + b
  {
    if a == 0 && b == 0 then 0 else 2 * Xor(a / 2, b / 2) + (if a % 2 != b % 2 then 1 else 0)
  }

  /** a & b */
  function And(a: nat, b: nat): nat
    decreases a + b
  {
    if a == 0 || b == 0 then 0 else 2 * And(a / 2, b / 2) + (if a % 2 == 1 && b % 2 == 1 then 1 else 0)
  }

  /** a | b */
  function Or(a: nat, b: nat): nat
    decreases a + b
  {
    if a == 0 && b == 0 then 0 else 2 * Or(a / 2, b / 2) + (if a % 2 == 1 || b % 2 == 1 then 1 else 0)
  }

  /** n >> s */
  function Shr(n: nat, s: nat): nat
    decreases s
  {
    if s == 0 then n else Shr(n / 2, s - 1)
  }

  /** n << s */
  function Shl(n: nat, s: nat): nat
    decreases s
  {
    if s == 0 then n else 2 * Shl(n, s - 1)
  }

  lemma {:induction false} BitOfZero(k: nat)
    ensures !Bit(0, k)
    decreases k
  {
    if k > 0 { BitOfZero(k - 1); }
  }

  /** Two integers with the same bits are equal. */
  lemma {:induction false} BitsDetermine(a: nat, b: nat)
    requires forall k: nat :: Bit(a, k) == Bit(b, k)
    ensures a == b
    decreases a + b
  {
    assert Bit(a, 0) == Bit(b, 0);
    if a != 0 || b != 0 {
      forall k: nat ensures Bit(a / 2, k) == Bit(b / 2, k) {
        assert Bit(a, k + 1) == Bit(b, k + 1);
      }
      BitsDetermine(a / 2, b / 2);
    }
  }

  lemma {:induction false} BitXor(a: nat, b: nat, k: nat)
    ensures Bit(Xor(a, b), k) == (Bit(a, k) != Bit(b, k))
    decreases k
  {
    if a == 0 && b == 0 {
      BitOfZero(k);
    } else if k > 0 {
      BitXor(a / 2, b / 2, k - 1);
    }
  }

  lemma {:induction false} BitAnd(a: nat, b: nat, k: nat)
    ensures Bit(And(a, b), k) == (Bit(a, k) && Bit(b, k))
    decreases k
  {
    if a == 0 || b == 0 {
      BitOfZero(k);
    } else if k > 0 {
      BitAnd(a / 2, b / 2, k - 1);
    }
  }

  lemma {:induction false} BitOr(a: nat, b: nat, k: nat)
    ensures Bit(Or(a, b), k) == (Bit(a, k) || Bit(b, k))
    decreases k
  {
    if a == 0 && b == 0 {
      BitOfZero(k);
    } else if k > 0 {
      BitOr(a / 2, b / 2, k - 1);
    }
  }

  lemma {:induction false} BitShl(n: nat, s: nat, k: nat)
    ensures Bit(Shl(n, s), k) == (k >= s && Bit(n, k - s))
    decreases s
  {
    if s > 0 {
      if k == 0 {
      } else {
        BitShl(n, s - 1, k - 1);
      }
    }
  }

  lemma {:induction false} BitShr(n: nat, s: nat, k: nat)
    ensures Bit(Shr(n, s), k) == Bit(n, k + s)
    decreases s
  {
    if s > 0 {
      BitShr(n / 2, s - 1, k);
    }
  }

  /** A number below 2^w has no bit at w or above. */
  lemma {:induction false} BitAbove(n: nat, w: nat, k: nat)
    requires n < Pow2(w) && k >= w
    ensures !Bit(n, k)
    decreases k
  {
    if k == 0 {
    } else if w == 0 {
      assert n == 0;
      BitOfZero(k);
    } else {
      BitAbove(n / 2, w - 1, k - 1);
    }
  }

  /** A number with no bit at w or above is below 2^w. */
  lemma {:induction false} BelowFromBits(n: nat, w: nat)
    requires forall k: nat :: k >= w ==> !Bit(n, k)
    ensures n < Pow2(w)
    decreases w
  {
    if w == 0 {
      forall k: nat ensures Bit(n, k) == Bit(0, k) {
        BitOfZero(k);
      }
      BitsDetermine(n, 0);
    } else {
      forall k: nat | k >= w - 1 ensures !Bit(n / 2, k) {
        assert !Bit(n, k + 1);
      }
      BelowFromBits(n / 2, w - 1);
    }
  }

  /** Two numbers below 2^w that agree on the bits below w are equal. */
  lemma BitsDetermineBelow(a: nat, b: nat, w: nat)
    requires a < Pow2(w) && b < Pow2(w)
    requires forall k: nat :: k < w ==> Bit(a, k) == Bit(b, k)
    ensures a == b
  {
    forall k: nat ensures Bit(a, k) == Bit(b, k) {
      if k >= w {
        BitAbove(a, w, k);
        BitAbove(b, w, k);
      }
    }
    BitsDetermine(a, b);
  }

  /** 2^w - 1 is w one bits. */
  lemma {:induction false} BitOfMask(w: nat, k: nat)
    ensures Bit(Pow2(w) - 1, k) == (k < w)
    decreases w
  {
    if w == 0 {
      BitOfZero(k);
    } else if k > 0 {
      assert (Pow2(w) - 1) / 2 == Pow2(w - 1) - 1;
      BitOfMask(w - 1, k - 1);
    }
  }

  lemma XorBelow(a: nat, b: nat, w: nat)
    requires a < Pow2(w) && b < Pow2(w)
    ensures Xor(a, b) < Pow2(w)
  {
    forall k: nat | k >= w ensures !Bit(Xor(a, b), k) {
      BitXor(a, b, k);
      BitAbove(a, w, k);
      BitAbove(b, w, k);
    }
    BelowFromBits(Xor(a, b), w);
  }

  lemma OrBelow(a: nat, b: nat, w: nat)
    requires a < Pow2(w) && b < Pow2(w)
    ensures Or(a, b) < Pow2(w)
  {
    forall k: nat | k >= w ensures !Bit(Or(a, b), k) {
      BitOr(a, b, k);
      BitAbove(a, w, k);
      BitAbove(b, w, k);
    }
    BelowFromBits(Or(a, b), w);
  }

  lemma AndBelow(a: nat, b: nat, w: nat)
    requires a < Pow2(w)
    ensures And(a, b) < Pow2(w) && And(a, b) <= a
  {
    forall k: nat | k >= w ensures !Bit(And(a, b), k) {
      BitAnd(a, b, k);
      BitAbove(a, w, k);
    }
    BelowFromBits(And(a, b), w);
    AndAtMost(a, b);
  }

  lemma {:induction false} AndAtMost(a: nat, b: nat)
    ensures And(a, b) <= a && And(a, b) <= b
    decreases a + b
  {
    if a != 0 && b != 0 {
      AndAtMost(a / 2, b / 2);
    }
  }

  /** The sixteen- and eight-bit masks; Pow2 spelled out for the widths used. */
  lemma Pow2Values()
    ensures Pow2(8) == 0x100 && Pow2(15) == 0x8000 && Pow2(16) == 0x10000
  {
  }

  lemma {:induction false} ShlIsMul(n: nat, s: nat)
    ensures Shl(n, s) == n * Pow2(s)
    decreases s
  {
    if s > 0 { ShlIsMul(n, s - 1); }
  }

  lemma {:induction false} OrZero(b: nat)
    ensures Or(0, b) == b
    decreases b
  {
    if b > 0 { OrZero(b / 2); }
  }

  /** An OR of a value below 2^k with a multiple of 2^k is their sum. */
  lemma {:induction false} OrDisjoint(a: nat, h: nat, k: nat)
    requires a < Pow2(k)
    ensures Or(a, h * Pow2(k)) == a + h * Pow2(k)
    decreases k
  {
    if k == 0 {
      OrZero(h);
    } else {
      var p := Pow2(k - 1);
      assert h * Pow2(k) == 2 * (h * p);
      OrDisjoint(a / 2, h, k - 1);
    }
  }

  /** Joining two octets as `lo | (hi << 8)` gives lo + 256 * hi. */
  lemma JoinIsSum(lo: nat, hi: nat)
    requires lo < 256
    ensures Or(lo, Shl(hi, 8)) == lo + 256 * hi
  {
    ShlIsMul(hi, 8);
    Pow2Values();
    OrDisjoint(lo, hi, 8);
  }
}

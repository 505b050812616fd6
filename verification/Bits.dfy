/** Bits of machine words, as natural numbers. */
module Bits {

  function Pow2(k: nat): (p: nat)
    ensures p > 0
  {
    if k == 0 then 1 else 2 * Pow2(k - 1)
  }

  /** Bit `k` of `w`. */
  function Bit(w: nat, k: nat): bool {
    if k == 0 then w % 2 == 1 else Bit(w / 2, k - 1)
  }

  function Xor(a: nat, b: nat): nat {
    if a == 0 && b == 0 then 0 else (if a % 2 != b % 2 then 1 else 0) + 2 * Xor(a / 2, b / 2)
  }

  function And(a: nat, b: nat): nat {
    if a == 0 || b == 0 then 0 else (if a % 2 == 1 && b % 2 == 1 then 1 else 0) + 2 * And(a / 2, b / 2)
  }

  function Or(a: nat, b: nat): nat {
    if a == 0 && b == 0 then 0 else (if a % 2 == 1 || b % 2 == 1 then 1 else 0) + 2 * Or(a / 2, b / 2)
  }

  const ALL_ONES: nat := 0xFFFF_FFFF_FFFF_FFFF

  /** `~a` on a 64-bit word. */
  function Not(a: nat): nat
    requires a <= ALL_ONES
  {
    ALL_ONES - a
  }

  /** `a << n`, for results that stay within the word. */
  function Shl(a: nat, n: nat): nat {
    if n == 0 then a else 2 * Shl(a, n - 1)
  }

  /** `size` one bits from bit `start` on: `((1 << size) - 1) << start`. */
  function Run(start: nat, size: nat): nat {
    Shl(Pow2(size) - 1, start)
  }

  lemma {:induction false} Pow2Add(a: nat, b: nat)
    ensures Pow2(a + b) == Pow2(a) * Pow2(b)
  {
    if a > 0 { Pow2Add(a - 1, b); }
  }

  lemma Pow2Of64()
    ensures Pow2(64) == ALL_ONES + 1
  {
    assert Pow2(8) == 256;
    Pow2Add(8, 8);
    Pow2Add(16, 16);
    Pow2Add(32, 32);
  }

  lemma {:induction false} Pow2Monotone(a: nat, b: nat)
    requires a <= b
    ensures Pow2(a) <= Pow2(b)
  {
    if a < b { Pow2Monotone(a, b - 1); }
  }

  lemma {:induction false} BitOfXor(a: nat, b: nat, k: nat)
    ensures Bit(Xor(a, b), k) == (Bit(a, k) != Bit(b, k))
  {
    XorUnfold(a, b);
    if k > 0 { BitOfXor(a / 2, b / 2, k - 1); }
  }

  lemma XorUnfold(a: nat, b: nat)
    ensures var r := Xor(a, b); r / 2 == Xor(a / 2, b / 2) && (r % 2 == 1 <==> a % 2 != b % 2)
  {
  }

  lemma OrUnfold(a: nat, b: nat)
    ensures var r := Or(a, b); r / 2 == Or(a / 2, b / 2) && (r % 2 == 1 <==> a % 2 == 1 || b % 2 == 1)
  {
  }

  lemma {:induction false} BitOfAnd(a: nat, b: nat, k: nat)
    ensures Bit(And(a, b), k) == (Bit(a, k) && Bit(b, k))
  {
    if k > 0 {
      BitOfAnd(a / 2, b / 2, k - 1);
      if a == 0 || b == 0 {
        BitOfZero(k);
      } else {
        assert And(a, b) / 2 == And(a / 2, b / 2);
      }
    }
  }

  lemma {:induction false} BitOfOr(a: nat, b: nat, k: nat)
    ensures Bit(Or(a, b), k) == (Bit(a, k) || Bit(b, k))
  {
    OrUnfold(a, b);
    if k > 0 { BitOfOr(a / 2, b / 2, k - 1); }
  }

  lemma {:induction false} BitOfZero(k: nat)
    ensures !Bit(0, k)
  {
    if k > 0 { BitOfZero(k - 1); }
  }

  lemma {:induction false} BitOfOnes(n: nat, k: nat)
    ensures Bit(Pow2(n) - 1, k) <==> k < n
  {
    if n == 0 {
      BitOfZero(k);
    } else if k > 0 {
      BitOfOnes(n - 1, k - 1);
      assert (Pow2(n) - 1) / 2 == Pow2(n - 1) - 1;
    }
  }

  lemma {:induction false} BitOfShift(a: nat, n: nat, k: nat)
    ensures Bit(Shl(a, n), k) <==> k >= n && Bit(a, k - n)
  {
    if n > 0 && k > 0 {
      BitOfShift(a, n - 1, k - 1);
    }
  }

  lemma BitOfRun(start: nat, size: nat, k: nat)
    ensures Bit(Run(start, size), k) <==> start <= k < start + size
  {
    BitOfShift(Pow2(size) - 1, start, k);
    if k >= start { BitOfOnes(size, k - start); }
  }

  lemma {:induction false} BitsBelow(a: nat, n: nat, k: nat)
    requires a < Pow2(n) && n <= k
    ensures !Bit(a, k)
    decreases n
  {
    if n == 0 {
      BitOfZero(k);
    } else {
      BitsBelow(a / 2, n - 1, k - 1);
    }
  }

  /** A word whose bits include those of another is at least as large. */
  lemma {:induction false} MoreBits(a: nat, b: nat, n: nat)
    requires b < Pow2(n) && forall k | 0 <= k < n :: Bit(b, k) ==> Bit(a, k)
    ensures a >= b
  {
    if n > 0 {
      forall k | 0 <= k < n - 1
        ensures Bit(b / 2, k) ==> Bit(a / 2, k)
      {
        assert Bit(b, k + 1) ==> Bit(a, k + 1);
      }
      MoreBits(a / 2, b / 2, n - 1);
      assert Bit(b, 0) ==> Bit(a, 0);
    }
  }

  lemma {:induction false} XorBound(a: nat, b: nat, n: nat)
    requires a < Pow2(n) && b < Pow2(n)
    ensures Xor(a, b) < Pow2(n)
  {
    if n > 0 { XorBound(a / 2, b / 2, n - 1); }
  }

  lemma {:induction false} OrBound(a: nat, b: nat, n: nat)
    requires a < Pow2(n) && b < Pow2(n)
    ensures Or(a, b) < Pow2(n)
  {
    if n > 0 { OrBound(a / 2, b / 2, n - 1); }
  }

  lemma {:induction false} AndBound(a: nat, b: nat, n: nat)
    requires a < Pow2(n)
    ensures And(a, b) < Pow2(n)
  {
    if n > 0 { AndBound(a / 2, b / 2, n - 1); }
  }

  lemma {:induction false} RunBound(start: nat, size: nat, n: nat)
    requires start + size <= n
    ensures Run(start, size) < Pow2(n)
  {
    if start == 0 {
      Pow2Monotone(size, n);
    } else {
      RunBound(start - 1, size, n - 1);
    }
  }

  lemma {:induction false} XorTwice(a: nat, m: nat)
    ensures Xor(Xor(a, m), m) == a
  {
    if a != 0 || m != 0 {
      XorTwice(a / 2, m / 2);
      assert Xor(a, m) / 2 == Xor(a / 2, m / 2);
    }
  }

  /** The bits of `~a`. */
  lemma BitOfNot(a: nat, k: nat)
    requires a <= ALL_ONES && k < 64
    ensures Bit(Not(a), k) == !Bit(a, k)
  {
    Pow2Of64();
    BitOfComplement(a, 64, k);
  }

  lemma {:induction false} BitOfComplement(a: nat, n: nat, k: nat)
    requires a < Pow2(n) && k < n
    ensures Bit(Pow2(n) - 1 - a, k) == !Bit(a, k)
  {
    if k > 0 {
      BitOfComplement(a / 2, n - 1, k - 1);
      assert (Pow2(n) - 1 - a) / 2 == Pow2(n - 1) - 1 - a / 2;
    }
  }

  /** `a & b` is zero exactly when no bit is in both. */
  lemma AndZero(a: nat, b: nat, n: nat)
    requires b < Pow2(n)
    ensures And(a, b) == 0 ==> forall k | 0 <= k < n :: !(Bit(a, k) && Bit(b, k))
    ensures And(a, b) != 0 ==> exists k | 0 <= k < n :: Bit(a, k) && Bit(b, k)
  {
    var c := And(a, b);
    if c == 0 {
      forall k | 0 <= k < n
        ensures !(Bit(a, k) && Bit(b, k))
      {
        BitOfAnd(a, b, k);
        BitOfZero(k);
      }
    } else {
      AndCommutes(a, b);
      AndBound(b, a, n);
      if forall k | 0 <= k < n :: !(Bit(a, k) && Bit(b, k)) {
        NoBits(a, b, c, n);
      }
    }
  }

  lemma NoBits(a: nat, b: nat, c: nat, n: nat)
    requires c == And(a, b) && c < Pow2(n) && forall k | 0 <= k < n :: !(Bit(a, k) && Bit(b, k))
    ensures c == 0
  {
    forall k | 0 <= k < n
      ensures Bit(c, k) ==> Bit(0, k)
    {
      BitOfAnd(a, b, k);
    }
    MoreBits(0, c, n);
  }

  lemma {:induction false} AndCommutes(a: nat, b: nat)
    ensures And(a, b) == And(b, a)
  {
    if a != 0 && b != 0 { AndCommutes(a / 2, b / 2); }
  }
}

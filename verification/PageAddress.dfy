/** Taking virtual addresses apart and putting them together (page.c). */
module PageAddress {
  import opened Bits
  import opened Division

  // The index masks of the four levels, as the C code writes them.

  function PtOf(v: nat): nat {
    And(v, 0x1FF000) / 0x1000
  }

  function PdeOf(v: nat): nat {
    And(v, 0x200 * 0x1FF000) / 0x20_0000
  }

  function PdptOf(v: nat): nat {
    And(v, 0x200 * 0x200 * 0x1FF000) / 0x4000_0000
  }

  function Pml4Of(v: nat): nat {
    And(v, 0x200 * 0x200 * 0x200 * 0x1FF000) / 0x80_0000_0000
  }

  /** The mask that `V2P` uses for the second level instead: it lacks bit 30. */
  function V2PPdptOf(v: nat): nat {
    And(v, 0x7F_B000_0000) / 0x4000_0000
  }

  function ConstructVirtualAddress(pml4: nat, pdpt: nat, pde: nat, pt: nat): nat {
    pt * 0x1000 + pde * 0x1000 * 512 + pdpt * 0x1000 * 512 * 512 + pml4 * 0x1000 * 512 * 512 * 512
  }

  /** Masking with a run of ones from bit `s` on keeps those bits in place. */
  lemma {:induction false} AndRun(v: nat, s: nat, n: nat)
    ensures And(v, Run(s, n)) == Shl(v / Pow2(s) % Pow2(n), s)
    decreases s, n
  {
    if s == 0 {
      AndOnes(v, n);
      assert v / 1 == v;
    } else {
      AndRun(v / 2, s - 1, n);
      HalvesThenRest(v, s);
      AndStep(v, Run(s - 1, n));
    }
  }

  lemma AndStep(v: nat, m: nat)
    ensures And(v, 2 * m) == 2 * And(v / 2, m)
  {
    if v == 0 || m == 0 {
    } else {
      assert 2 * m / 2 == m;
    }
  }

  lemma HalvesThenRest(v: nat, s: nat)
    requires s > 0
    ensures v / Pow2(s) == v / 2 / Pow2(s - 1)
  {
    var p := Pow2(s - 1);
    var q, r := v / 2 / p, v / 2 % p;
    assert v == 2 * (q * p + r) + v % 2;
    DivisionIs(v, 2 * p, q, 2 * r + v % 2);
    assert 2 * (q * p) == q * (2 * p);
  }

  lemma {:induction false} AndOnes(v: nat, n: nat)
    ensures And(v, Pow2(n) - 1) == v % Pow2(n)
  {
    if n > 0 {
      AndOnes(v / 2, n - 1);
      OddMask(v, Pow2(n - 1));
      LowBits(v, Pow2(n - 1));
    }
  }

  lemma OddMask(v: nat, p: nat)
    requires p > 0
    ensures And(v, 2 * p - 1) == v % 2 + 2 * And(v / 2, p - 1)
  {
    assert (2 * p - 1) / 2 == p - 1;
  }

  lemma LowBits(v: nat, p: nat)
    requires p > 0
    ensures v % (2 * p) == v % 2 + 2 * (v / 2 % p)
  {
    var q, r := v / 2 / p, v / 2 % p;
    assert v == 2 * (q * p + r) + v % 2;
    assert 2 * (q * p) == q * (2 * p);
    DivisionIs(v, 2 * p, q, 2 * r + v % 2);
  }

  lemma {:induction false} ShlIs(a: nat, n: nat)
    ensures Shl(a, n) == a * Pow2(n)
  {
    if n > 0 { ShlIs(a, n - 1); }
  }

  lemma Powers()
    ensures Pow2(9) == 512 && Pow2(12) == 0x1000 && Pow2(21) == 0x20_0000 && Pow2(30) == 0x4000_0000
    ensures Pow2(39) == 0x80_0000_0000
    ensures Run(12, 9) == 0x1FF000 && Run(21, 9) == 0x200 * 0x1FF000 && Run(30, 9) == 0x200 * 0x200 * 0x1FF000
    ensures Run(39, 9) == 0x200 * 0x200 * 0x200 * 0x1FF000
  {
    assert Pow2(3) == 8;
    Pow2Add(3, 3);
    Pow2Add(6, 3);
    Pow2Add(9, 3);
    Pow2Add(12, 9);
    Pow2Add(21, 9);
    Pow2Add(30, 9);
    ShlIs(511, 12);
    ShlIs(511, 21);
    ShlIs(511, 30);
    ShlIs(511, 39);
  }

  /** The four masks and shifts take out the four nine-bit indices of an address. */
  lemma Indices(v: nat)
    ensures PtOf(v) == v / 0x1000 % 512 && PdeOf(v) == v / 0x20_0000 % 512
    ensures PdptOf(v) == v / 0x4000_0000 % 512 && Pml4Of(v) == v / 0x80_0000_0000 % 512
  {
    Powers();
    AndRun(v, 12, 9);
    AndRun(v, 21, 9);
    AndRun(v, 30, 9);
    AndRun(v, 39, 9);
    ShlIs(v / 0x1000 % 512, 12);
    ShlIs(v / 0x20_0000 % 512, 21);
    ShlIs(v / 0x4000_0000 % 512, 30);
    ShlIs(v / 0x80_0000_0000 % 512, 39);
  }

  /** Taking apart undoes putting together. */
  lemma IndicesOfConstructed(pml4: nat, pdpt: nat, pde: nat, pt: nat)
    requires pml4 < 512 && pdpt < 512 && pde < 512 && pt < 512
    ensures var v := ConstructVirtualAddress(pml4, pdpt, pde, pt);
            PtOf(v) == pt && PdeOf(v) == pde && PdptOf(v) == pdpt && Pml4Of(v) == pml4
  {
    var v := ConstructVirtualAddress(pml4, pdpt, pde, pt);
    Indices(v);
    var q3 := pdpt + 512 * pml4;
    var q2 := pde + 512 * q3;
    var q1 := pt + 512 * q2;
    Digit(v, 0x1000, q1, 0, q2, pt);
    Digit(v, 0x20_0000, q2, pt * 0x1000, q3, pde);
    Digit(v, 0x4000_0000, q3, pt * 0x1000 + pde * 0x20_0000, pml4, pdpt);
    Digit(v, 0x80_0000_0000, pml4, pt * 0x1000 + pde * 0x20_0000 + pdpt * 0x4000_0000, 0, pml4);
  }

  lemma Digit(v: nat, d: nat, q: nat, r: nat, high: nat, digit: nat)
    requires d > 0 && r < d && v == q * d + r && q == high * 512 + digit && digit < 512
    ensures v / d == q && v / d % 512 == digit && v / d / 512 == high
  {
    DivisionIs(v, d, q, r);
    DivisionIs(q, 512, high, digit);
  }

  /** Putting together undoes taking apart, up to the offset in the page, for 48-bit addresses. */
  lemma ConstructedOfIndices(v: nat)
    requires v < 0x1_0000_0000_0000
    ensures ConstructVirtualAddress(Pml4Of(v), PdptOf(v), PdeOf(v), PtOf(v)) == v - v % 0x1000
  {
    Indices(v);
    var q1, r := v / 0x1000, v % 0x1000;
    var q2 := q1 / 512;
    var q3 := q2 / 512;
    var q4 := q3 / 512;
    DivisionIs(v, 0x20_0000, q2, q1 % 512 * 0x1000 + r);
    DivisionIs(v, 0x4000_0000, q3, q2 % 512 * 0x20_0000 + q1 % 512 * 0x1000 + r);
    DivisionIs(v, 0x80_0000_0000, q4, q3 % 512 * 0x4000_0000 + q2 % 512 * 0x20_0000 + q1 % 512 * 0x1000 + r);
  }

  /** `v >> s`. */
  function Shr(v: nat, s: nat): nat {
    if s == 0 then v else Shr(v / 2, s - 1)
  }

  lemma {:induction false} ShrIs(v: nat, s: nat)
    ensures Shr(v, s) == v / Pow2(s)
  {
    if s > 0 {
      ShrIs(v / 2, s - 1);
      HalvesThenRest(v, s);
    }
  }

  lemma {:induction false} AndSplit(v: nat, a: nat, b: nat, s: nat)
    requires b < Pow2(s)
    ensures And(v, Shl(a, s) + b) == Shl(And(Shr(v, s), a), s) + And(v, b)
    decreases s
  {
    if s > 0 {
      AndSplit(v / 2, a, b / 2, s - 1);
      AndUnfold(v, Shl(a, s) + b);
      AndUnfold(v, b);
    }
  }

  lemma AndUnfold(v: nat, m: nat)
    ensures And(v, m) == (if v % 2 == 1 && m % 2 == 1 then 1 else 0) + 2 * And(v / 2, m / 2)
  {
  }

  /** The bits that the mask of `V2P` keeps. */
  lemma V2PMask(v: nat)
    ensures And(v, 0x7F_B000_0000) == v / 0x8000_0000 % 256 * 0x8000_0000 + v / 0x1000_0000 % 4 * 0x1000_0000
  {
    SmallPowers();
    AndSplit(v, 255, 0x3000_0000, 31);
    ShlIs(255, 31);
    ShrIs(v, 31);
    AndOnes(v / 0x8000_0000, 8);
    ShlIs(v / 0x8000_0000 % 256, 31);
    AndRun(v, 28, 2);
    ShlIs(3, 28);
    ShlIs(v / 0x1000_0000 % 4, 28);
  }

  lemma SmallPowers()
    ensures Pow2(2) == 4 && Pow2(8) == 256 && Pow2(28) == 0x1000_0000 && Pow2(31) == 0x8000_0000
  {
    Powers();
    assert Pow2(2) == 4 && Pow2(7) == 128 && Pow2(1) == 2;
    Pow2Add(7, 1);
    Pow2Add(21, 7);
    Pow2Add(30, 1);
  }

  /** `V2P` reads the second-level index without its lowest bit, which is bit 30 of the address. */
  lemma V2PIndex(v: nat)
    ensures V2PPdptOf(v) == PdptOf(v) - PdptOf(v) % 2
    ensures PdptOf(v) % 2 == v / 0x4000_0000 % 2
  {
    V2PMask(v);
    Indices(v);
    var q := v / 0x4000_0000;
    var high, low := v / 0x8000_0000, v / 0x1000_0000 % 4 * 0x1000_0000;
    TwoPerHigh(v, q, high);
    DivisionIs(And(v, 0x7F_B000_0000), 0x4000_0000, 2 * (high % 256), low);
  }

  lemma TwoPerHigh(v: nat, q: nat, high: nat)
    requires q == v / 0x4000_0000 && high == v / 0x8000_0000
    ensures q % 512 == 2 * (high % 256) + q % 2 && q % 512 % 2 == q % 2
  {
    DivisionIs(v, 0x8000_0000, q / 2, q % 2 * 0x4000_0000 + v % 0x4000_0000);
    DivisionIs(q, 512, high / 256, 2 * (high % 256) + q % 2);
  }
}

/** Quotients and remainders by any divisor. */
module Division {
  lemma MultipleOf(k: int, d: int)
    requires d > 0
    ensures k >= 1 ==> k * d >= d
    ensures k <= -1 ==> k * d <= -d
  {
    if k >= 1 {
      assert k * d == d + (k - 1) * d;
    } else if k <= -1 {
      assert k * d == -d + (k + 1) * d;
    }
  }

  lemma DivisionIs(v: nat, d: nat, q: nat, r: nat)
    requires d > 0 && r < d && v == q * d + r
    ensures v / d == q && v % d == r
  {
    var k := v / d - q;
    assert k * d == v / d * d - q * d == r - v % d;
    MultipleOf(k, d);
  }

  lemma DivideTwice(n: nat, p: nat)
    requires p > 0
    ensures n / 256 / p == n / (256 * p)
  {
    var m := n / 256;
    var a, b := m / p, m % p;
    assert m == a * p + b;
    assert a * (256 * p) == 256 * (a * p);
    DivisionIs(n, 256 * p, a, 256 * b + n % 256);
  }
}

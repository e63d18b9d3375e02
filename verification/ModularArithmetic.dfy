/** Facts about remainders that the solver does not find by itself. */
module ModularArithmetic {
  lemma MulBound(n: nat, k: int)
    requires n > 0
    ensures k >= 1 ==> n * k >= n
    ensures k <= -1 ==> n * k <= -(n as int)
  {
  }

  /** Division with remainder is unique. */
  lemma DivModUnique(n: nat, a: int, r: nat, b: int, r': nat)
    requires r < n && r' < n && n * a + r == n * b + r'
    ensures a == b && r == r'
  {
    assert n * (a - b) == n * a - n * b;
    MulBound(n, a - b);
  }

  lemma ModUnique(p: nat, q: nat, n: nat)
    requires n > 0 && p <= q < p + n && p % n == q % n
    ensures p == q
  {
    DivModUnique(n, q / n - p / n, 0, 0, q - p) by {
      assert p == n * (p / n) + p % n && q == n * (q / n) + q % n;
      assert n * (q / n - p / n) == n * (q / n) - n * (p / n);
    }
  }

  lemma ModDistinct(p: nat, q: nat, n: nat)
    requires n > 0 && p != q && p < q + n && q < p + n
    ensures p % n != q % n
  {
    if p % n == q % n {
      if p < q { ModUnique(p, q, n); } else { ModUnique(q, p, n); }
    }
  }

  lemma ModMultiple(p: nat, k: int, n: nat)
    requires n > 0 && p + n * k >= 0
    ensures (p + n * k) % n == p % n
  {
    var q := p + n * k;
    DivModUnique(n, q / n, q % n, p / n + k, p % n) by {
      assert p == n * (p / n) + p % n && q == n * (q / n) + q % n;
      assert n * (p / n + k) == n * (p / n) + n * k;
    }
  }
}

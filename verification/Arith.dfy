// Products and quotients of natural numbers.

module Arith {

  lemma MulMonotone(a: nat, b: nat, c: nat)
    requires a <= b
    ensures a * c <= b * c
  {
    assert b * c == a * c + (b - a) * c;
  }

  lemma DivUnique(n: nat, q: nat, r: nat, d: nat)
    requires d > 0 && n == q * d + r && r < d
    ensures n / d == q
  {
    if n / d > q {
      MulMonotone(q + 1, n / d, d);
      assert false;
    } else if n / d < q {
      MulMonotone(n / d + 1, q, d);
      assert false;
    }
  }

  /** The remainder by a product, part by part. */
  lemma LowBits(x: nat, m: nat, n: nat)
    requires m > 0 && n > 0
    ensures x / m % n * m + x % m == x % (m * n)
  {
    var q, r := x / m, x % m;
    var a, b := q / n, q % n;
    assert m * n > 0 && b * m + r < m * n by {
      MulMonotone(b, n - 1, m);
    }
    assert x == a * (m * n) + (b * m + r) by {
      assert q * m == a * n * m + b * m;
    }
    DivUnique(x, a, b * m + r, m * n);
  }
}

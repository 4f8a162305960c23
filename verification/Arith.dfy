/** Division facts shared by the components. */
module Arith {

  lemma MulMono(a: int, b: int, n: nat)
    requires a <= b
    ensures a * n <= b * n
  {
  }

  lemma MulGap(a: int, b: int, n: nat)
    requires a < b
    ensures a * n + n <= b * n
  {
    MulMono(a + 1, b, n);
    assert (a + 1) * n == a * n + n;
  }

  lemma Distribute(c: int, a: int, b: int)
    ensures c * (a + b) == c * a + c * b
  {
  }

  lemma Associate(a: int, b: int, c: int)
    ensures a * (b * c) == (a * b) * c
  {
  }

  lemma DivMod(a: int, n: nat)
    requires n > 0
    ensures a == (a / n) * n + a % n && 0 <= a % n < n
  {
  }

  lemma Exchange(a: int, b: int, c: int)
    ensures a * (b * c) == b * (a * c)
  {
    assert a * (b * c) == (a * b) * c;
  }

  /** The quotient and remainder of a division are the only ones. */
  lemma DivUnique(a: int, n: nat, q: int, r: int)
    requires a == q * n + r && 0 <= r < n
    ensures a / n == q && a % n == r
  {
    var q', r' := a / n, a % n;
    assert a == q' * n + r';
    if q < q' {
      MulGap(q, q', n);
    } else if q' < q {
      MulGap(q', q, n);
    }
  }

  /** A quotient is below `b` exactly when the number is below `b * n`. */
  lemma DivBelow(a: int, n: nat, b: int)
    requires n > 0
    ensures a / n < b <==> a < b * n
  {
    var q, r := a / n, a % n;
    assert a == q * n + r;
    if q < b {
      MulGap(q, b, n);
    } else {
      MulMono(b, q, n);
    }
  }

  lemma DivMono(a: int, b: int, n: nat)
    requires n > 0 && a <= b
    ensures a / n <= b / n
  {
    DivBelow(b, n, b / n + 1);
    DivBelow(a, n, b / n + 1);
  }

  /** A number with a positive quotient is less than twice what the quotient is worth. */
  lemma QuotientBounds(e: nat, r: nat, k: nat)
    requires r > 0 && k == e / r > 0
    ensures r * k <= e <= (2 * r - 1) * k
  {
    assert e == k * r + e % r;
    MulMono(1, k, r - 1);
    Distribute(k, r, r - 1);
    assert k * (r + (r - 1)) == (2 * r - 1) * k;
  }

  lemma DivDiv(a: nat, m: nat, n: nat)
    requires m > 0 && n > 0
    ensures m * n > 0 && (a / m) / n == a / (m * n)
  {
    var q, r := a / m, a % m;
    var q2, r2 := q / n, q % n;
    assert a == q * m + r && q == q2 * n + r2;
    assert q * m == q2 * (m * n) + r2 * m by {
      assert (q2 * n + r2) * m == (q2 * n) * m + r2 * m;
      assert (q2 * n) * m == q2 * (m * n);
    }
    MulGap(r2, n, m);
    assert n * m == m * n;
    DivUnique(a, m * n, q2, r2 * m + r);
  }

  lemma ModAdd(x: nat, d: nat, m: nat)
    requires m > 0
    ensures (x + d) % m <= x % m + d
  {
    var q, r := x / m, x % m;
    var k, t := (r + d) / m, (r + d) % m;
    DivMod(x, m);
    DivMod(r + d, m);
    Distribute(m, q, k);
    DivUnique(x + d, m, q + k, t);
    MulMono(0, k, m);
  }

  /** The quotient by `r`, modulo `u`, is the quotient of the remainder modulo `r * u`. */
  lemma QuotientMod(e: nat, r: nat, u: nat)
    requires r > 0 && u > 0
    ensures r * u > 0 && (e / r) % u == (e % (r * u)) / r
  {
    var q, s := e / r, e % r;
    var c, k := q / u, q % u;
    assert e == q * r + s && q == c * u + k;
    assert q * r == c * (r * u) + k * r by {
      assert (c * u + k) * r == (c * u) * r + k * r;
      assert (c * u) * r == c * (r * u);
    }
    MulGap(k, u, r);
    assert u * r == r * u;
    DivUnique(e, r * u, c, k * r + s);
    DivUnique(k * r + s, r, k, s);
  }

  function Pow(n: nat, p: nat): nat {
    if p == 0 then 1 else n * Pow(n, p - 1)
  }
}

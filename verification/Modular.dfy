/** Facts about Euclidean remainders with a variable modulus. The ring models all
    reduce their index arithmetic to these few statements. */
module Modular {

  /** A multiple of n strictly between -n and n is zero. */
  lemma SmallMultiple(k: int, n: int, d: int)
    requires n > 0 && d == k * n && -n < d < n
    ensures k == 0
  {
    if k >= 1 {
      MulAtLeast(k, n);
    } else if k <= -1 {
      MulAtLeast(-k, n);
    }
  }

  lemma MulAtLeast(k: int, n: int)
    requires k >= 1 && n > 0
    ensures k * n >= n
  {}

  lemma MulMono(a: int, b: int, m: nat)
    requires a <= b
    ensures a * m <= b * m
  {}

  /** Quotient and remainder are determined by the division equation. */
  lemma DivModUnique(x: int, n: int, q: int, r: int)
    requires n > 0 && 0 <= r < n && x == q * n + r
    ensures x / n == q && x % n == r
  {
    var q', r' := x / n, x % n;
    assert x == n * q' + r';
    assert r' - r == (q - q') * n by {
      Distribute(q, q', n);
    }
    SmallMultiple(q - q', n, r' - r);
  }

  lemma Distribute(a: int, b: int, n: int)
    ensures (a - b) * n == a * n - n * b
  {}

  lemma ModShift(x: int, n: int, k: int)
    requires n > 0
    ensures (x + k * n) % n == x % n
  {
    var q, r := x / n, x % n;
    assert x == n * q + r;
    assert x + k * n == (q + k) * n + r by {
      assert (q + k) * n == n * q + k * n;
    }
    DivModUnique(x + k * n, n, q + k, r);
  }

  /** Adding before or after reduction gives the same residue. */
  lemma ModAdd(a: int, b: int, n: int)
    requires n > 0
    ensures (a % n + b) % n == (a + b) % n
  {
    var q := a / n;
    assert a == n * q + a % n;
    assert (-q) * n == -(n * q);
    ModShift(a + b, n, -q);
  }

  /** The wrap-by-comparison increment used by every index ring in the code. */
  lemma ModSucc(x: int, n: int)
    requires n > 0
    ensures (x + 1) % n == if x % n + 1 >= n then 0 else x % n + 1
  {
    var q, r := x / n, x % n;
    assert x == n * q + r;
    if r + 1 >= n {
      assert (q + 1) * n == n * q + n;
      DivModUnique(x + 1, n, q + 1, 0);
    } else {
      DivModUnique(x + 1, n, q, r + 1);
    }
  }

  /** Difference of two residues whose positions are less than one lap apart. */
  lemma ModDifference(r: int, w: int, n: int)
    requires n > 0 && r <= w < r + n
    ensures w - r == if w % n - r % n < 0 then w % n - r % n + n else w % n - r % n
  {
    var d := w - r;
    ModAdd(r, d, n);
    var x := r % n + d;
    if x < n {
      DivModUnique(x, n, 0, x);
    } else {
      DivModUnique(x, n, 1, x - n);
    }
  }

  /** Distinct positions less than one lap apart never share a slot. */
  lemma ModDistinct(a: int, b: int, n: int)
    requires n > 0 && a < b < a + n
    ensures a % n != b % n
  {
    ModDifference(a, b, n);
  }

  /** Reducing modulo a multiple first does not change the residue. */
  lemma ModOfMod(x: int, n: int, m: int)
    requires n > 0 && m > 0
    ensures n * m > 0
    ensures (x % (n * m)) % n == x % n
  {
    var nm := n * m;
    MulAtLeast(m, n);
    var q := x / nm;
    assert x == nm * q + x % nm;
    assert nm * q == (q * m) * n;
    assert (-(q * m)) * n == -((q * m) * n);
    ModShift(x, n, -(q * m));
  }
}

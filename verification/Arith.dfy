/** Division with remainder by a variable, and masks with a power of two. */
module Arith {

  lemma MulOrder(a: int, b: int, d: int)
    requires d > 0 && a < b
    ensures a * d + d <= b * d
  {
    var k: nat := b - a - 1;
    assert b * d == (a + 1 + k) * d == a * d + d + k * d;
  }

  lemma DivModUnique(x: int, d: int, q: int, r: int)
    requires d > 0 && x == q * d + r && 0 <= r < d
    ensures x / d == q && x % d == r
  {
    var q', r' := x / d, x % d;
    assert x == q' * d + r';
    if q' < q {
      MulOrder(q', q, d);
    } else if q < q' {
      MulOrder(q, q', d);
    }
  }

  lemma RowCol(q: int, r: int, d: int, n: int)
    requires 0 <= q < n && 0 <= r < d
    ensures q * d + r < n * d
    ensures (q * d + r) / d == q && (q * d + r) % d == r
  {
    MulOrder(q, n, d);
    DivModUnique(q * d + r, d, q, r);
  }

  lemma DivNat(x: int, d: int)
    requires 0 < d && 0 <= x
    ensures 0 <= x / d && 0 <= x % d < d
    ensures x == x / d * d + x % d
  {
  }

  lemma RowColOf(x: int, d: int, n: int)
    requires 0 < d && 0 <= x < n * d
    ensures 0 <= x / d < n && 0 <= x % d < d
    ensures x == x / d * d + x % d
  {
    DivNat(x, d);
    if n < x / d {
      MulOrder(n, x / d, d);
    }
  }

  /** Two digits of `x` to the bases `m` and `k` are one digit to the base `m * k`. */
  lemma SplitMod(x: nat, m: nat, k: nat)
    requires m > 0 && k > 0
    ensures m * k > 0
    ensures x % (m * k) == x % m + m * (x / m % k)
    ensures x / (m * k) == x / m / k
  {
    var q, r := x / m, x % m;
    var q2, r2 := q / k, q % k;
    assert m * k > 0;
    calc {
      x;
      m * q + r;
      m * (k * q2 + r2) + r;
      q2 * (m * k) + (r + m * r2);
    }
    MulOrder(r2, k, m);
    DivModUnique(x, m * k, q2, r + m * r2);
  }

  ghost predicate PowerOfTwo(n: nat) {
    n == 1 || (n % 2 == 0 && 0 < n && PowerOfTwo(n / 2))
  }

  /** Bitwise and of two naturals. */
  function And(x: nat, y: nat): (r: nat)
    ensures r <= x
  {
    if x == 0 || y == 0 then 0 else (x % 2) * (y % 2) + 2 * And(x / 2, y / 2)
  }

  /** Testing one bit. */
  lemma {:induction false} AndBit(x: nat, p: nat)
    requires PowerOfTwo(p)
    ensures p > 0 && And(x, p) == x / p % 2 * p
  {
    if p == 1 {
      assert And(x / 2, 0) == 0;
    } else {
      AndBit(x / 2, p / 2);
      HalfDown(x, p / 2);
    }
  }

  lemma AndHalf(x: nat, y: nat)
    ensures And(x, 2 * y) == 2 * And(x / 2, y)
  {
  }

  /** Two neighbouring bits. */
  lemma MiddleBits(x: nat)
    ensures And(x, 0x18) == x / 8 % 4 * 8
  {
    AndHalf(x, 12);
    AndHalf(x / 2, 6);
    AndHalf(x / 2 / 2, 3);
    var h := x / 2 / 2 / 2;
    assert And(h, 3) == h % 2 + 2 * And(h / 2, 1);
    AndBit(h / 2, 1);
    assert h == x / 8 && h / 2 % 2 * 2 + h % 2 == h % 4;
  }

  lemma HalfDown(x: nat, p: nat)
    requires p > 0
    ensures x / 2 / p == x / (2 * p)
  {
    DivNat(x, 2 * p);
    var q, r := x / (2 * p), x % (2 * p);
    assert x / 2 == q * p + r / 2 by {
      assert x == 2 * (q * p) + r;
    }
    DivModUnique(x / 2, p, q, r / 2);
  }

  /** Masking with one less than a power of two takes the remainder. */
  lemma {:induction false} MaskIsMod(x: nat, p: nat)
    requires PowerOfTwo(p)
    ensures And(x, p - 1) == x % p
  {
    if p == 1 {
    } else if x == 0 {
      DivModUnique(0, p, 0, 0);
    } else {
      MaskIsMod(x / 2, p / 2);
      SplitMod(x, 2, p / 2);
      assert (p - 1) % 2 == 1 && (p - 1) / 2 == p / 2 - 1;
      assert And(x, p - 1) == x % 2 + 2 * And(x / 2, p / 2 - 1);
    }
  }
}

/** Facts about Dafny's Euclidean division that several days need. */
module Arith {
  lemma MulAtLeast(a: int, m: int)
    requires a >= 1 && m > 0
    ensures a * m >= m
  {
    var k := a - 1;
    assert a * m == k * m + m;
    assert k * m >= 0;
  }

  /** Multiplying by a natural number keeps the order. */
  lemma MulMonotone(a: nat, b: nat, m: nat)
    requires a <= b
    ensures a * m <= b * m
  {
  }

  /** Division and remainder are determined by any decomposition
      x == q * m + r with 0 <= r < m. */
  lemma DivModUnique(x: int, m: int, q: int, r: int)
    requires m > 0 && 0 <= r < m && x == q * m + r
    ensures x / m == q && x % m == r
  {
    var q', r' := x / m, x % m;
    assert x == q' * m + r';
    if q > q' {
      MulAtLeast(q - q', m);
      assert false;
    } else if q < q' {
      MulAtLeast(q' - q, m);
      assert false;
    }
  }

  /** Adding a multiple of the modulus keeps the remainder. */
  lemma ModPlusMultiple(x: int, m: int, k: int)
    requires m > 0
    ensures (x + k * m) % m == x % m
  {
    var q, r := x / m, x % m;
    assert x + k * m == (q + k) * m + r;
    DivModUnique(x + k * m, m, q + k, r);
  }

  /** The remainder of a sum depends only on the operands' remainders. */
  lemma ModAdd(a: int, b: int, m: int)
    requires m > 0
    ensures (a + b) % m == (a % m + b % m) % m
  {
    var qa, ra, qb, rb := a / m, a % m, b / m, b % m;
    assert a + b == (ra + rb) + (qa + qb) * m;
    ModPlusMultiple(ra + rb, m, qa + qb);
  }

  /** The remainder of a product depends only on the operands' remainders. */
  lemma ModMul(a: int, b: int, m: int)
    requires m > 0
    ensures (a * b) % m == ((a % m) * (b % m)) % m
  {
    var qa, ra, qb, rb := a / m, a % m, b / m, b % m;
    var k := qa * b + ra * qb;
    assert a * b == qa * m * b + ra * b by {
      assert a == qa * m + ra;
    }
    assert ra * b == ra * qb * m + ra * rb by {
      assert b == qb * m + rb;
    }
    assert k * m == qa * m * b + ra * qb * m;
    assert a * b == ra * rb + k * m;
    ModPlusMultiple(ra * rb, m, k);
  }

  /** Taking one modulus off moves the quotient down by one. */
  lemma DivModShift(x: int, m: int)
    requires m > 0 && x >= m
    ensures x / m == (x - m) / m + 1 && x % m == (x - m) % m
  {
    var q, r := (x - m) / m, (x - m) % m;
    assert x == (q + 1) * m + r;
    DivModUnique(x, m, q + 1, r);
  }
}

/** The few facts about products and remainders that the solver should not
    have to rediscover in the middle of another proof. */
module Arith {

  lemma MulLe(k: nat, a: int, b: int)
    requires a <= b
    ensures k * a <= k * b
  {
    assert k * (b - a) >= 0;
    assert k * (b - a) == k * b - k * a;
  }

  lemma MulLtInv(k: nat, a: int, b: int)
    requires k * a < k * b
    ensures a < b
  {
    if b <= a {
      MulLe(k, b, a);
    }
  }

  lemma MulSucc(k: int, a: int)
    ensures k * (a + 1) == k * a + k
  {
  }

  // Dividing twice is dividing by the product.
  lemma DivDiv(v: int, a: int, b: int)
    requires a > 0 && b > 0
    ensures a * b > 0 && v / (a * b) == v / a / b
  {
    var q, r, qq, rr := v / a, v % a, v / a / b, v / a % b;
    calc {
      v;
      a * q + r;
      a * (b * qq + rr) + r;
      { MulAssoc(a, b, qq); }
      a * b * qq + (a * rr + r);
    }
    MulLe(a, rr, b - 1);
    MulLe(a, 0, rr);
    DivUnique(v, a * b, qq, a * rr + r);
  }

  lemma MulAssoc(a: int, b: int, c: int)
    ensures a * (b * c) == a * b * c
  {
  }

  lemma DivUnique(v: int, d: int, q: int, r: int)
    requires d > 0 && v == d * q + r && 0 <= r < d
    ensures v / d == q && v % d == r
  {
    var q', r' := v / d, v % d;
    assert d * q' + r' == d * q + r;
    MulSucc(d, q);
    MulSucc(d, q');
    MulLtInv(d, q, q' + 1);
    MulLtInv(d, q', q + 1);
  }

  // The low digits of v in base a, then b.
  lemma ModDigits(v: int, a: int, b: int)
    requires a > 0 && b > 0
    ensures a * b > 0 && v % (a * b) == v % a + a * (v / a % b)
  {
    DivDiv(v, a, b);
    MulAssoc(a, b, v / a / b);
    var q := v / a;
    assert q == b * (q / b) + q % b;
    assert a * q == a * (b * (q / b)) + a * (q % b);
  }

  // Dividing x + a * y by a, when x is below a multiple of a.
  lemma DivAdd(x: int, a: int, y: int)
    requires a > 0
    ensures (x + a * y) / a == x / a + y && (x + a * y) % a == x % a
  {
    DivUnique(x + a * y, a, x / a + y, x % a);
  }

  // q is entry q % k of block q / k.
  lemma BlockIndex(q: nat, k: int, n: nat)
    requires k > 0 && q < k * n
    ensures 0 <= q / k < n
  {
    MulLtInv(k, q / k, n);
  }

  lemma BlockUnique(q: int, k: int, b: int, r: int)
    requires k > 0 && q == k * b + r && 0 <= r < k
    ensures q / k == b && q % k == r
  {
    DivUnique(q, k, b, r);
  }

  // Going on within a block.
  lemma BlockOffset(q: nat, k: int, d: nat)
    requires k > 0 && q % k + d < k
    ensures (q + d) / k == q / k && (q + d) % k == q % k + d
  {
    DivUnique(q + d, k, q / k, q % k + d);
  }

  lemma SameBlock(q: nat, r: nat, k: int)
    requires k > 0 && q / k == r / k && q % k == r % k
    ensures q == r
  {
    assert q == k * (q / k) + q % k;
  }

  // The number before a multiple of k is the last of the block before.
  lemma BlockEnd(p: int, k: int)
    requires k > 0 && p > 0
    ensures p % k == 0 ==> (p - 1) / k == p / k - 1
    ensures p % k != 0 ==> (p - 1) / k == p / k
  {
    if p % k == 0 {
      MulSucc(k, p / k - 1);
      DivUnique(p - 1, k, p / k - 1, k - 1);
    } else {
      DivUnique(p - 1, k, p / k, p % k - 1);
    }
  }

  lemma SmallMod(x: int, m: int)
    requires 0 <= x < m
    ensures x % m == x
  {
  }
}

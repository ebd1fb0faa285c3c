/** When dividing a number and dividing it modulo `m` come to the same modulo `m`. */
module DivisionLaws {
  import opened Integers
  import opened IntegerLaws

  lemma MultipleOf(x: int, m: int) returns (k: int)
    requires m > 0 && x % m == 0
    ensures x == k * m
  {
    k := x / m;
  }

  lemma IsMultiple(x: int, k: int, m: int)
    requires m > 0 && x == k * m
    ensures x % m == 0
  {
    ModOfSum(k, 0, m);
  }

  lemma SmallMultiple(k: int, m: int)
    requires m > 0 && -m < k * m < m
    ensures k == 0
  {
    MultipleIsFar(k, m);
  }

  lemma Rearrange(p: int, q: int, k: int, a: int, m: int)
    ensures (k - q * a) * m == k * m - (q * m) * a
    ensures (p - q * m) * a == p * a - (q * m) * a
  {
    assert (q * a) * m == (q * m) * a;
    assert (k - q * a) * m == k * m - (q * a) * m;
    assert (p - q * m) * a == p * a - (q * m) * a;
  }

  /** `p * a + r` is `k * m` with a rest smaller than both: `p` is a multiple of `m` exactly if `k` is one of `a`
      and the rest is zero. */
  lemma MultiplesCorrespond(p: int, r: int, k: int, a: int, m: int)
    requires a > 0 && m > 0 && p * a + r == k * m && -m < r < m
    ensures p % m == 0 ==> k % a == 0 && r == 0
    ensures k % a == 0 && -a < r < a ==> p % m == 0 && r == 0
  {
    if p % m == 0 {
      var q := MultipleOf(p, m);
      Rearrange(p, q, k, a, m);
      assert (k - q * a) * m == r;
      SmallMultiple(k - q * a, m);
      IsMultiple(k, q, a);
    }
    if k % a == 0 && -a < r < a {
      var q := MultipleOf(k, a);
      Rearrange(p, q, k, a, m);
      assert (p - q * m) * a == -r;
      SmallMultiple(p - q * m, a);
      IsMultiple(p, q, m);
    }
  }

  lemma DifferenceOfProducts(p: int, q: int, a: int)
    ensures (p - q) * a == p * a - q * a && (p + q) * a == p * a + q * a
  {
  }

  /** Congruent dividends that are not negative. */
  lemma QuotientsCongruent(u: nat, v: nat, k: int, a: nat, m: nat)
    requires 0 < a <= m && u == v + k * m
    ensures (u / a - v / a) % m == 0 <==> k % a == 0
  {
    DivMod(u, a);
    DivMod(v, a);
    var p, r := u / a - v / a, u % a - v % a;
    DifferenceOfProducts(u / a, v / a, a);
    assert p * a + r == k * m;
    MultiplesCorrespond(p, r, k, a, m);
  }

  /** Dividends of which one is congruent to the other's opposite. */
  lemma QuotientsOpposite(u: nat, w: nat, k: int, a: nat, m: nat)
    requires 0 < a && 2 * a <= m && u + w == k * m
    ensures (u / a + w / a) % m == 0 <==> k % a == 0 && w % a == 0
  {
    DivMod(u, a);
    DivMod(w, a);
    var p, r := u / a + w / a, u % a + w % a;
    DifferenceOfProducts(u / a, w / a, a);
    assert p * a + r == k * m;
    MultiplesCorrespond(p, r, k, a, m);
    if k % a == 0 && w % a == 0 {
      assert r < a;
    }
  }

  lemma RemaindersEqual(u: nat, v: nat, d: int, a: nat)
    requires 0 < a && u == v + d
    ensures u % a == v % a <==> d % a == 0
  {
    DivMod(u, a);
    DivMod(v, a);
    var p, r := u / a - v / a, u % a - v % a;
    DifferenceOfProducts(u / a, v / a, a);
    assert d == p * a + r;
    if r == 0 {
      IsMultiple(d, p, a);
    }
    if d % a == 0 {
      var q := MultipleOf(d, a);
      DifferenceOfProducts(q, p, a);
      SmallMultiple(q - p, a);
    }
  }

  lemma RemaindersOpposite(u: nat, w: nat, d: int, a: nat)
    requires 0 < a && u + w == d
    ensures u % a == 0 && w % a == 0 <==> d % a == 0 && w % a == 0
  {
    DivMod(u, a);
    DivMod(w, a);
    DifferenceOfProducts(u / a, w / a, a);
    if u % a == 0 && w % a == 0 {
      IsMultiple(d, u / a + w / a, a);
    }
    if d % a == 0 && w % a == 0 {
      var q := MultipleOf(d, a);
      DifferenceOfProducts(q, w / a, a);
      IsMultiple(u, q - w / a, a);
    }
  }

  /** The quotient modulo `m` is read off the dividend modulo `m * b`. */
  lemma DigitOfQuotient(a: nat, b: nat, e: nat, m: nat)
    requires b > 0 && e < m
    ensures (a / b) % m == e <==> (m > 0 && e * b <= a % (m * b) < (e + 1) * b)
  {
    assert m * b > 0;
    var q, d := (a / b) / m, (a / b) % m;
    DivMod(a, b);
    DivMod(a / b, m);
    var low := d * b + a % b;
    assert a == q * (m * b) + low by {
      DifferenceOfProducts(q * m, -d, b);
      assert (q * m) * b == q * (m * b);
    }
    assert (d + 1) * b == d * b + b;
    assert low < m * b by {
      ProductMonotone(d + 1, m, b);
    }
    ModOfSum(q, low, m * b);
    assert (e + 1) * b == e * b + b;
    if e < d {
      ProductMonotone(e + 1, d, b);
    } else if d < e {
      ProductMonotone(d + 1, e, b);
    }
  }

  lemma ProductMonotone(x: int, y: int, b: nat)
    requires x <= y
    ensures x * b <= y * b
  {
    NonNegativeProduct(y - x, b);
    DifferenceOfProducts(y, x, b);
  }

  lemma OppositeMod(p: int, m: int)
    requires m > 0
    ensures (-p) % m == 0 <==> p % m == 0
  {
    if p % m == 0 {
      var k := MultipleOf(p, m);
      assert -p == (-k) * m;
      IsMultiple(-p, -k, m);
    }
    if (-p) % m == 0 {
      var k := MultipleOf(-p, m);
      assert p == (-k) * m;
      IsMultiple(p, -k, m);
    }
  }

  /** Equal remainders and a difference without remainder are the same. */
  lemma CongruentByDifference(x: int, y: int, m: int)
    requires m > 0
    ensures x % m == y % m <==> (x - y) % m == 0
  {
    DivMod(x, m);
    DivMod(y, m);
    DifferenceOfProducts(x / m, y / m, m);
    if x % m == y % m {
      IsMultiple(x - y, x / m - y / m, m);
    }
    if (x - y) % m == 0 {
      var k := MultipleOf(x - y, m);
      DifferenceOfProducts(k, x / m - y / m, m);
      SmallMultiple(k - (x / m - y / m), m);
    }
  }

  /** Both at once: a shifted congruent number is congruent to the shifted one exactly if nothing is shifted in. */
  lemma ShiftsCongruent(x: int, k: int, m: nat, p: nat, f: nat)
    requires p > 0 && f > 0 && m == f * p
    ensures ((x + k * m) / p - x / p) % m == 0 <==> k % p == 0
  {
    ShiftedExcess(x, k, m, p, f);
  }

  /** Shifting: what is above the modulus is shifted into the low part unless its own low bits are zero. */
  lemma ShiftedExcess(x: int, k: int, m: nat, p: nat, f: nat)
    requires p > 0 && f > 0 && m == f * p
    ensures (x + k * m) / p == x / p + k * f
    ensures (k * f) % m == 0 <==> k % p == 0
  {
    DivMod(x, p);
    assert k * m == (k * f) * p;
    DifferenceOfProducts(x / p, -(k * f), p);
    DivMod(x + k * m, p);
    var q := (x + k * m) / p;
    DifferenceOfProducts(q, x / p + k * f, p);
    SmallMultiple(q - (x / p + k * f), p);
    if k % p == 0 {
      var j := MultipleOf(k, p);
      assert k * f == j * m;
      IsMultiple(k * f, j, m);
    }
    if (k * f) % m == 0 {
      var j := MultipleOf(k * f, m);
      assert (k - j * p) * f == 0 by {
        assert (k - j * p) * f == k * f - (j * p) * f;
        assert (j * p) * f == j * m;
      }
      SmallMultiple(k - j * p, f);
      IsMultiple(k, j, p);
    }
  }
}

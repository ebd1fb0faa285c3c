/** Laws of encodings and of truncated division used by the folding and lowering proofs. */
module IntegerLaws {
  import opened Integers

  predicate Congruent(size: RegisterSize, x: int, y: int) {
    Encode(size, x) == Encode(size, y)
  }

  lemma CongruentByMultiple(size: RegisterSize, x: int, y: int) returns (k: int)
    requires Congruent(size, x, y)
    ensures x == y + k * Modulus(size)
  {
    var m := Modulus(size);
    k := x / m - y / m;
    assert k * m == (x / m) * m - (y / m) * m;
  }

  lemma CongruentSum(size: RegisterSize, x: int, x': int, y: int, y': int)
    requires Congruent(size, x, x') && Congruent(size, y, y')
    ensures Congruent(size, x + y, x' + y')
    ensures Congruent(size, x - y, x' - y')
  {
    var m := Modulus(size);
    var j := CongruentByMultiple(size, x, x');
    var k := CongruentByMultiple(size, y, y');
    assert (j + k) * m == j * m + k * m && (j - k) * m == j * m - k * m;
    EncodeCongruent(size, x + y, x' + y', j + k);
    EncodeCongruent(size, x - y, x' - y', j - k);
  }

  lemma CongruentProduct(size: RegisterSize, x: int, x': int, y: int, y': int)
    requires Congruent(size, x, x') && Congruent(size, y, y')
    ensures Congruent(size, x * y, x' * y')
  {
    var m := Modulus(size);
    var j := CongruentByMultiple(size, x, x');
    var k := CongruentByMultiple(size, y, y');
    Distribute(x', j, y', k, m);
    EncodeCongruent(size, x * y, x' * y', x' * k + j * y' + j * k * m);
  }

  lemma Distribute(a: int, j: int, b: int, k: int, m: int)
    ensures (a + j * m) * (b + k * m) == a * b + (a * k + j * b + j * k * m) * m
  {
    calc {
      (a + j * m) * (b + k * m);
      a * (b + k * m) + (j * m) * (b + k * m);
      a * b + a * (k * m) + (j * m) * b + (j * m) * (k * m);
      { assert a * (k * m) == (a * k) * m; }
      { assert (j * m) * b == (j * b) * m; }
      { assert (j * m) * (k * m) == (j * k * m) * m; }
      a * b + (a * k) * m + (j * b) * m + (j * k * m) * m;
      a * b + (a * k + j * b + j * k * m) * m;
    }
  }

  lemma CongruentWrap(t: Integer, x: int)
    ensures Congruent(t.size, Wrap(t, x), x)
  {
    EncodeWrap(t, x);
  }

  // ----- Powers of two and bits -----

  lemma ModulusIsPow2(size: RegisterSize)
    ensures Modulus(size) == Pow2(Bits(size))
  {
    PowersOfTwo();
  }

  lemma PowersOfTwo()
    ensures Pow2(8) == 0x100
    ensures Pow2(16) == 0x1_0000
    ensures Pow2(32) == 0x1_0000_0000
    ensures Pow2(64) == 0x1_0000_0000_0000_0000
  {
    assert Pow2(2) == 4 && Pow2(4) == 16;
    Pow2Sum(4, 4);
    Pow2Sum(8, 8);
    Pow2Sum(16, 16);
    Pow2Sum(32, 32);
  }

  lemma {:induction false} Pow2Sum(a: nat, b: nat)
    ensures Pow2(a + b) == Pow2(a) * Pow2(b)
  {
    if a > 0 {
      Pow2Sum(a - 1, b);
      assert Pow2(a) * Pow2(b) == 2 * (Pow2(a - 1) * Pow2(b));
    }
  }

  lemma ModHalves(a: nat, p: nat)
    requires p > 0
    ensures (a % (2 * p)) % 2 == a % 2
    ensures (a % (2 * p)) / 2 == (a / 2) % p
  {
    var q := (a / 2) / p;
    var r := (a / 2) % p;
    assert a == (2 * p) * q + (a % 2 + 2 * r) by {
      assert a / 2 == p * q + r;
      assert (2 * p) * q == 2 * (p * q);
    }
    ModOfSum(q, a % 2 + 2 * r, 2 * p);
  }

  lemma HalvesEqual(x: nat, y: nat)
    requires x % 2 == y % 2 && x / 2 == y / 2
    ensures x == y
  {
  }

  lemma {:induction false} BitAndMod(a: nat, b: nat, n: nat)
    ensures BitAnd(a, b) % Pow2(n) == BitAnd(a % Pow2(n), b % Pow2(n))
  {
    if n > 0 {
      BitAndMod(a / 2, b / 2, n - 1);
      BitAndModStep(a, b, Pow2(n - 1));
    } else {
      assert Pow2(0) == 1;
    }
  }

  lemma BitAndModStep(a: nat, b: nat, p: nat)
    requires p > 0 && BitAnd(a / 2, b / 2) % p == BitAnd((a / 2) % p, (b / 2) % p)
    ensures BitAnd(a, b) % (2 * p) == BitAnd(a % (2 * p), b % (2 * p))
  {
    ModHalves(a, p);
    ModHalves(b, p);
    ModHalves(BitAnd(a, b), p);
    BitAndHalves(a, b);
    BitAndHalves(a % (2 * p), b % (2 * p));
    HalvesEqual(BitAnd(a, b) % (2 * p), BitAnd(a % (2 * p), b % (2 * p)));
  }

  lemma BitAndHalves(a: nat, b: nat)
    ensures BitAnd(a, b) % 2 == (if a % 2 == 1 && b % 2 == 1 then 1 else 0)
    ensures BitAnd(a, b) / 2 == BitAnd(a / 2, b / 2)
  {
  }

  lemma {:induction false} BitOrMod(a: nat, b: nat, n: nat)
    ensures BitOr(a, b) % Pow2(n) == BitOr(a % Pow2(n), b % Pow2(n))
  {
    if n > 0 {
      BitOrMod(a / 2, b / 2, n - 1);
      BitOrModStep(a, b, Pow2(n - 1));
    } else {
      assert Pow2(0) == 1;
    }
  }

  lemma BitOrModStep(a: nat, b: nat, p: nat)
    requires p > 0 && BitOr(a / 2, b / 2) % p == BitOr((a / 2) % p, (b / 2) % p)
    ensures BitOr(a, b) % (2 * p) == BitOr(a % (2 * p), b % (2 * p))
  {
    ModHalves(a, p);
    ModHalves(b, p);
    ModHalves(BitOr(a, b), p);
    BitOrHalves(a, b);
    BitOrHalves(a % (2 * p), b % (2 * p));
    HalvesEqual(BitOr(a, b) % (2 * p), BitOr(a % (2 * p), b % (2 * p)));
  }

  lemma BitOrHalves(a: nat, b: nat)
    ensures BitOr(a, b) % 2 == (if a % 2 == 1 || b % 2 == 1 then 1 else 0)
    ensures BitOr(a, b) / 2 == BitOr(a / 2, b / 2)
  {
  }

  /** Bitwise operations commute with cutting down to a register size. */
  lemma EncodeBits(size: RegisterSize, a: nat, b: nat)
    ensures Encode(size, BitAnd(a, b)) == BitAnd(Encode(size, a), Encode(size, b))
    ensures Encode(size, BitOr(a, b)) == BitOr(Encode(size, a), Encode(size, b))
  {
    ModulusIsPow2(size);
    BitAndMod(a, b, Bits(size));
    BitOrMod(a, b, Bits(size));
  }

  // ----- Division -----

  lemma DivMod(x: int, p: int)
    requires p > 0
    ensures x == (x / p) * p + x % p
    ensures 0 <= x % p < p
  {
  }

  lemma NonNegativeProduct(a: int, b: int)
    requires a >= 0 && b >= 0
    ensures a * b >= 0
  {
  }

  lemma NeighbouringProducts(q: int, p: int)
    ensures q * (p - 1) == q * p - q
    ensures (-(q + 1)) * p == -(q * p) - p
    ensures (-(q + 1)) * (p - 1) == -(q * p) - p + q + 1
  {
  }

  lemma ProductBounds(q: int, p: int)
    requires p > 0
    ensures q >= 0 ==> q * p >= q
    ensures q < 0 ==> q * p <= -p && q * p + p <= q + 1
  {
    NeighbouringProducts(q, p);
    if q >= 0 {
      NonNegativeProduct(q, p - 1);
    } else {
      NonNegativeProduct(-(q + 1), p);
      NonNegativeProduct(-(q + 1), p - 1);
    }
  }

  lemma FloorShrinks(x: int, p: int)
    requires p > 0
    ensures x >= 0 ==> 0 <= x / p <= x
    ensures x < 0 ==> x <= x / p < 0
  {
    DivMod(x, p);
    ProductBounds(x / p, p);
    ProductBounds(-(x / p), p);
  }

  lemma ShiftInRange(t: Integer, x: int, p: int)
    requires InRange(t, x) && p > 0
    ensures InRange(t, x / p)
  {
    FloorShrinks(x, p);
  }

  lemma QuotientBound(a: nat, b: nat)
    requires b > 0
    ensures a / b <= a
    ensures b >= 2 && a > 0 ==> a / b < a
    ensures 0 <= a - (a / b) * b <= a
  {
    var q := a / b;
    DivMod(a, b);
    FloorShrinks(a, b);
    ProductBounds(q, b);
    if b >= 2 {
      ProductBounds(q, b - 1);
      NeighbouringProducts(q, b);
    }
  }

  lemma QuotientInRange(t: Integer, x: int, y: int)
    requires InRange(t, x) && InRange(t, y) && y != 0
    requires !(t.isSigned && x == Min(t) && y == -1)
    ensures InRange(t, TruncatedQuotient(x, y))
  {
    QuotientBound(Abs(x), Abs(y));
    QuotientInRangeFrom(t, x, y, Abs(x) / Abs(y));
  }

  lemma QuotientInRangeFrom(t: Integer, x: int, y: int, q: int)
    requires InRange(t, x) && InRange(t, y) && y != 0
    requires !(t.isSigned && x == Min(t) && y == -1)
    requires 0 <= q <= Abs(x) && (Abs(y) >= 2 && Abs(x) > 0 ==> q < Abs(x))
    ensures InRange(t, if (x >= 0) == (y > 0) then q else -q)
  {
  }

  lemma RemainderInRange(t: Integer, x: int, y: int)
    requires InRange(t, x) && InRange(t, y) && y != 0
    ensures InRange(t, TruncatedRemainder(x, y))
  {
    var q := Abs(x) / Abs(y);
    QuotientBound(Abs(x), Abs(y));
    SignedProduct(q, y);
    assert TruncatedQuotient(x, y) * y == if x >= 0 then q * Abs(y) else -(q * Abs(y));
  }

  lemma SignedProduct(q: int, y: int)
    ensures (-q) * y == -(q * y)
    ensures q * (-y) == -(q * y)
  {
  }
}

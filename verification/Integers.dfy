/** Register-sized integers: the mathematical values of an integer type and their n-bit encodings. */
module Integers {

  datatype RegisterSize = Size8 | Size16 | Size32 | Size64

  datatype Integer = Integer(size: RegisterSize, isSigned: bool)

  function Bits(size: RegisterSize): nat {
    match size
    case Size8 => 8
    case Size16 => 16
    case Size32 => 32
    case Size64 => 64
  }

  /** 2 to the power of `Bits(size)`. */
  function Modulus(size: RegisterSize): nat {
    match size
    case Size8 => 0x100
    case Size16 => 0x1_0000
    case Size32 => 0x1_0000_0000
    case Size64 => 0x1_0000_0000_0000_0000
  }

  const MODULUS_64: nat := 0x1_0000_0000_0000_0000

  function Pow2(n: nat): (p: nat)
    ensures p > 0
  {
    if n == 0 then 1 else 2 * Pow2(n - 1)
  }

  function Min(t: Integer): int {
    if t.isSigned then -(Modulus(t.size) / 2) else 0
  }

  function Max(t: Integer): int {
    if t.isSigned then Modulus(t.size) / 2 - 1 else Modulus(t.size) - 1
  }

  predicate InRange(t: Integer, value: int) {
    Min(t) <= value <= Max(t)
  }

  /** The n-bit pattern that represents a mathematical integer. */
  function Encode(size: RegisterSize, value: int): (bits: nat)
    ensures bits < Modulus(size)
  {
    value % Modulus(size)
  }

  /** The value of an n-bit pattern read as two's complement. */
  function SignedValue(size: RegisterSize, bits: nat): int {
    if bits < Modulus(size) / 2 then bits else bits - Modulus(size)
  }

  /** The value of an n-bit pattern read at an integer type. */
  function Decode(t: Integer, bits: nat): int {
    if t.isSigned then SignedValue(t.size, bits) else bits
  }

  /** The value of type `t` that is congruent to `value`. */
  function Wrap(t: Integer, value: int): int {
    Decode(t, Encode(t.size, value))
  }

  lemma WrapInRange(t: Integer, value: int)
    ensures InRange(t, Wrap(t, value))
  {
  }

  lemma EncodeDecode(t: Integer, bits: nat)
    requires bits < Modulus(t.size)
    ensures InRange(t, Decode(t, bits))
    ensures Encode(t.size, Decode(t, bits)) == bits
  {
    SmallMod(bits, Modulus(t.size));
    ModShift(bits, Modulus(t.size), -1);
  }

  lemma SmallMod(x: nat, m: nat)
    requires x < m
    ensures x % m == x
  {
  }

  lemma DecodeEncode(t: Integer, value: int)
    requires InRange(t, value)
    ensures Decode(t, Encode(t.size, value)) == value
  {
    match t.size
    case Size8 =>
    case Size16 =>
    case Size32 =>
    case Size64 =>
  }

  lemma {:induction false} ModShift(x: int, m: nat, k: int)
    requires m > 0
    ensures (x + k * m) % m == x % m
  {
    var q := x / m;
    assert x == q * m + x % m;
    assert x + k * m == (q + k) * m + x % m by {
      assert q * m + k * m == (q + k) * m;
    }
    ModOfSum(q + k, x % m, m);
  }

  lemma ModOfSum(q: int, r: int, m: nat)
    requires 0 <= r < m
    ensures (q * m + r) % m == r
  {
    var x := q * m + r;
    var q', r' := x / m, x % m;
    assert x == q' * m + r';
    assert (q - q') * m == r' - r by {
      assert (q - q') * m == q * m - q' * m;
    }
    MultipleIsFar(q - q', m);
  }

  lemma MultipleIsFar(d: int, m: int)
    requires m > 0
    ensures d == 0 || d * m >= m || d * m <= -m
  {
    if d >= 1 {
      assert (d - 1) * m >= 0;
    } else if d <= -1 {
      assert (d + 1) * m <= 0;
    }
  }

  /** Congruent integers have the same encoding. */
  lemma EncodeCongruent(size: RegisterSize, x: int, y: int, k: int)
    requires x == y + k * Modulus(size)
    ensures Encode(size, x) == Encode(size, y)
  {
    ModShift(y, Modulus(size), k);
  }

  /** Every integer is its encoding plus a multiple of the modulus. */
  lemma EncodeQuotient(size: RegisterSize, x: int) returns (k: int)
    ensures x == Encode(size, x) + k * Modulus(size)
  {
    k := x / Modulus(size);
  }

  lemma EncodeWrap(t: Integer, x: int)
    ensures Encode(t.size, Wrap(t, x)) == Encode(t.size, x)
  {
    EncodeDecode(t, Encode(t.size, x));
  }

  /** Encoding at a size forgets anything a larger encoding forgot. */
  lemma EncodeOfLarger(small: RegisterSize, large: RegisterSize, x: int)
    requires Bits(small) <= Bits(large)
    ensures Encode(small, Encode(large, x)) == Encode(small, x)
  {
    var k := EncodeQuotient(large, x);
    var f := Modulus(large) / Modulus(small);
    assert f * Modulus(small) == Modulus(large);
    assert k * Modulus(large) == (k * f) * Modulus(small);
    EncodeCongruent(small, x, Encode(large, x), k * f);
  }

  /** C and LLVM division: the quotient is rounded toward zero. */
  function TruncatedQuotient(a: int, b: int): int
    requires b != 0
  {
    if (a >= 0) == (b > 0) then Abs(a) / Abs(b) else -(Abs(a) / Abs(b))
  }

  function TruncatedRemainder(a: int, b: int): int
    requires b != 0
  {
    a - TruncatedQuotient(a, b) * b
  }

  function Abs(a: int): nat {
    if a >= 0 then a else -a
  }

  /** Bitwise conjunction and disjunction of bit patterns, bit by bit from the lowest. */
  function BitAnd(a: nat, b: nat): nat {
    if a == 0 || b == 0 then 0
    else (if a % 2 == 1 && b % 2 == 1 then 1 else 0) + 2 * BitAnd(a / 2, b / 2)
  }

  function BitOr(a: nat, b: nat): nat {
    if a == 0 then b else if b == 0 then a
    else (if a % 2 == 1 || b % 2 == 1 then 1 else 0) + 2 * BitOr(a / 2, b / 2)
  }
}

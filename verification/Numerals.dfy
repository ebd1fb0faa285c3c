/** Integers written as digits, and digits read back as 64-bit integers. */
module Numerals {
  import opened Options

  type Byte = b: nat | b < 256

  const MODULUS: nat := 0x1_0000_0000_0000_0000

  function Digit(value: nat): Byte
    requires value < 36
  {
    if value < 10 then 48 + value else 65 + (value - 10)
  }

  /** The digits of a number, the most significant first. */
  function Numeral(value: nat, radix: nat): (digits: seq<Byte>)
    requires 2 <= radix <= 36
    ensures digits != []
    decreases value
  {
    if value < radix then [Digit(value)] else Numeral(Quotient(value, radix), radix) + [Digit(value % radix)]
  }

  function Quotient(value: nat, radix: nat): (q: nat)
    requires radix >= 2
    ensures value > 0 ==> q < value
    ensures value >= radix ==> q > 0
    ensures value < radix ==> q == 0
    ensures value == q * radix + value % radix
  {
    Shrinks(value, radix);
    value / radix
  }

  lemma ProductGrows(q: nat, radix: nat)
    requires radix >= 2
    ensures q * radix >= 2 * q
    ensures q == 0 ==> q * radix == 0
  {
    assert q * (radix - 2) >= 0;
  }

  lemma Shrinks(value: nat, radix: nat)
    requires radix >= 2
    ensures value == (value / radix) * radix + value % radix
    ensures value > 0 ==> value / radix < value
    ensures value >= radix ==> value / radix > 0
    ensures value < radix ==> value / radix == 0
  {
    ShrinksFrom(value, radix, value / radix, value % radix);
  }

  lemma ShrinksFrom(value: nat, radix: nat, q: nat, r: nat)
    requires radix >= 2 && value == q * radix + r && r < radix
    ensures value > 0 ==> q < value
    ensures value >= radix ==> q > 0
    ensures value < radix ==> q == 0
  {
    ProductGrows(q, radix);
    if q > 0 {
      assert (q - 1) * radix >= 0;
    }
  }

  /** Digits from the least significant on, without leading zeros; none for zero. */
  function Reversed(value: nat, radix: nat): seq<Byte>
    requires 2 <= radix <= 36
    decreases value
  {
    if value == 0 then [] else [Digit(value % radix)] + Reversed(Quotient(value, radix), radix)
  }

  lemma {:induction false} ReversedIsNumeral(value: nat, radix: nat)
    requires 2 <= radix <= 36 && value > 0
    ensures |Reversed(value, radix)| == |Numeral(value, radix)|
    ensures forall i :: 0 <= i < |Numeral(value, radix)| ==> Numeral(value, radix)[i] == Reversed(value, radix)[|Numeral(value, radix)| - 1 - i]
    decreases value
  {
    var q := Quotient(value, radix);
    if value < radix {
      assert value % radix == value;
      assert Reversed(q, radix) == [];
    } else {
      ReversedIsNumeral(q, radix);
    }
  }

  /** Write the digits of a number at the start of a buffer: divide, then reverse in place. */
  method IntToChars(buffer: array<Byte>, value: nat, radix: nat) returns (length: nat)
    requires 2 <= radix <= 36 && |Numeral(value, radix)| <= buffer.Length
    modifies buffer
    ensures length == |Numeral(value, radix)| && buffer[..length] == Numeral(value, radix)
  {
    if value == 0 {
      buffer[0] := 48;
      return 1;
    }
    ReversedIsNumeral(value, radix);
    length := WriteReversed(buffer, value, radix);
    ReverseInPlace(buffer, length);
  }

  method WriteReversed(buffer: array<Byte>, value: nat, radix: nat) returns (length: nat)
    requires 2 <= radix <= 36 && |Reversed(value, radix)| <= buffer.Length
    modifies buffer
    ensures length == |Reversed(value, radix)| && buffer[..length] == Reversed(value, radix)
  {
    var rest: nat := value;
    length := 0;
    while rest > 0
      invariant length + |Reversed(rest, radix)| == |Reversed(value, radix)|
      invariant buffer[..length] + Reversed(rest, radix) == Reversed(value, radix)
      decreases rest
    {
      ghost var before := buffer[..length];
      buffer[length] := Digit(rest % radix);
      rest := Quotient(rest, radix);
      length := length + 1;
      assert buffer[..length] == before + [buffer[length - 1]];
    }
  }

  method ReverseInPlace(buffer: array<Byte>, length: nat)
    requires 0 < length <= buffer.Length
    modifies buffer
    ensures forall i :: 0 <= i < length ==> buffer[i] == old(buffer[length - 1 - i])
  {
    var halfLength := (length - 1) / 2 + 1;
    var i := 0;
    while i < halfLength
      invariant 0 <= i <= halfLength
      invariant forall j :: 0 <= j < i ==> buffer[j] == old(buffer[length - 1 - j]) && buffer[length - 1 - j] == old(buffer[j])
      invariant forall j :: i <= j < length - i ==> buffer[j] == old(buffer[j])
    {
      var temp := buffer[i];
      buffer[i] := buffer[length - 1 - i];
      buffer[length - 1 - i] := temp;
      i := i + 1;
    }
  }

  // ----- How many digits -----

  function Power(radix: nat, n: nat): nat {
    if n == 0 then 1 else radix * Power(radix, n - 1)
  }

  lemma {:induction false} NumeralLength(value: nat, radix: nat, n: nat)
    requires 2 <= radix <= 36 && n > 0 && value < Power(radix, n)
    ensures |Numeral(value, radix)| <= n
    decreases n
  {
    if value >= radix {
      var q := Quotient(value, radix);
      assert Power(radix, 0) == 1;
      Cancel(q, Power(radix, n - 1), radix);
      NumeralLength(q, radix, n - 1);
    }
  }

  lemma ProductMonotone(p: nat, q: nat, radix: nat)
    requires p <= q
    ensures p * radix <= q * radix
  {
    assert (q - p) * radix >= 0;
  }

  lemma Cancel(q: nat, p: nat, radix: nat)
    requires q * radix < radix * p
    ensures q < p
  {
    if q >= p {
      ProductMonotone(p, q, radix);
    }
  }

  /** The decimal digits of a 64-bit number fit the 32 bytes that are set aside for them: 20 are enough. */
  lemma DecimalFits(value: nat)
    requires value < MODULUS
    ensures |Numeral(value, 10)| <= 20
  {
    var ten5 := 100000;
    assert Power(10, 5) == ten5;
    PowerSum(10, 5, 5);
    PowerSum(10, 10, 10);
    assert Power(10, 20) == 10000000000 * 10000000000;
    NumeralLength(value, 10, 20);
  }

  lemma {:induction false} PowerSum(radix: nat, m: nat, n: nat)
    ensures Power(radix, m + n) == Power(radix, m) * Power(radix, n)
    decreases m
  {
    if m > 0 {
      PowerSum(radix, m - 1, n);
      assert radix * (Power(radix, m - 1) * Power(radix, n)) == (radix * Power(radix, m - 1)) * Power(radix, n);
    }
  }

  // ----- Reading -----

  /** The value of a digit; octal digits are accepted in binary numbers too. */
  function DigitValue(digit: Byte, radix: nat): Option<nat> {
    if 48 <= digit <= 55 || (56 <= digit <= 57 && radix >= 10) then Some(digit - 48)
    else if 97 <= digit <= 102 && radix == 16 then Some(digit - 97 + 10)
    else if 65 <= digit <= 70 && radix == 16 then Some(digit - 65 + 10)
    else None
  }

  predicate AllDigits(digits: seq<Byte>, radix: nat) {
    forall i :: 0 <= i < |digits| ==> DigitValue(digits[i], radix).Some?
  }

  function ValueOf(digits: seq<Byte>, radix: nat): nat
    requires AllDigits(digits, radix)
  {
    if digits == [] then 0 else ValueOf(digits[..|digits| - 1], radix) * radix + DigitValue(digits[|digits| - 1], radix).value
  }

  /** One digit of 64-bit place-value arithmetic, and the next place. */
  function AddDigit(sum: nat, placeOffset: nat, digit: nat): nat {
    (sum + placeOffset * digit) % MODULUS
  }

  function NextPlace(placeOffset: nat, radix: nat): nat {
    placeOffset * radix % MODULUS
  }

  /** What the sum comes to once the digits with value `high` are added from `place` on. */
  function Total(sum: nat, high: nat, place: nat): nat {
    (sum + high * place) % MODULUS
  }

  /** The last `i` digits have been read; `place` is the place value without wrap-around. */
  ghost predicate ReadSoFar(buffer: seq<Byte>, radix: nat, i: nat, sum: nat, placeOffset: nat, place: nat) {
    i <= |buffer| && AllDigits(buffer[|buffer| - i..], radix) && placeOffset == place % MODULUS && sum < MODULUS &&
    (AllDigits(buffer, radix) ==> Total(sum, ValueOf(buffer[..|buffer| - i], radix), place) == ValueOf(buffer, radix) % MODULUS)
  }

  lemma ReadNext(buffer: seq<Byte>, radix: nat, i: nat, sum: nat, placeOffset: nat, place: nat, digit: nat)
    requires ReadSoFar(buffer, radix, i, sum, placeOffset, place) && i < |buffer|
    requires DigitValue(buffer[|buffer| - 1 - i], radix) == Some(digit)
    ensures ReadSoFar(buffer, radix, i + 1, AddDigit(sum, placeOffset, digit), NextPlace(placeOffset, radix), place * radix)
  {
    var offset := |buffer| - 1 - i;
    if AllDigits(buffer, radix) {
      assert buffer[..|buffer| - i][..offset] == buffer[..offset];
      PlaceStep(sum, ValueOf(buffer[..offset], radix), digit, radix, place, placeOffset);
    }
    ModuloProduct(place, radix);
  }

  /** Reading from the last digit on with a place value, in 64-bit arithmetic, computes any numeral modulo 2^64. */
  method ReadInteger(buffer: seq<Byte>, radix: nat) returns (value: Option<nat>)
    ensures value == if AllDigits(buffer, radix) then Some(ValueOf(buffer, radix) % MODULUS) else None
  {
    var sum: nat, placeOffset: nat, i: nat := 0, 1, 0;
    ghost var place: nat := 1;
    assert buffer[..|buffer|] == buffer;
    while i < |buffer|
      invariant ReadSoFar(buffer, radix, i, sum, placeOffset, place)
    {
      var digit := DigitValue(buffer[|buffer| - 1 - i], radix);
      if digit.None? {
        return None;
      }
      ReadNext(buffer, radix, i, sum, placeOffset, place, digit.value);
      sum, placeOffset, place := AddDigit(sum, placeOffset, digit.value), NextPlace(placeOffset, radix), place * radix;
      i := i + 1;
    }
    value := Some(sum);
    assert buffer[..0] == [];
  }

  lemma ModuloAdds(a: nat, k: nat)
    ensures (a + k * MODULUS) % MODULUS == a % MODULUS
  {
  }

  lemma ModuloProduct(place: nat, factor: nat)
    ensures NextPlace(place % MODULUS, factor) == place * factor % MODULUS
  {
    var q, r := place / MODULUS, place % MODULUS;
    assert place * factor == r * factor + (q * factor) * MODULUS by {
      assert (q * MODULUS + r) * factor == q * MODULUS * factor + r * factor;
    }
    ModuloAdds(r * factor, q * factor);
  }

  lemma PlaceStep(sum: nat, high: nat, digit: nat, radix: nat, place: nat, placeOffset: nat)
    requires placeOffset == place % MODULUS
    ensures Total(AddDigit(sum, placeOffset, digit), high, place * radix) == Total(sum, high * radix + digit, place)
  {
    var q := place / MODULUS;
    var added := sum + placeOffset * digit;
    var whole := sum + (high * radix + digit) * place;
    assert (high * radix + digit) * place == high * (place * radix) + digit * place;
    assert digit * place == placeOffset * digit + (q * digit) * MODULUS by {
      assert place == q * MODULUS + placeOffset;
      assert digit * (q * MODULUS + placeOffset) == digit * (q * MODULUS) + digit * placeOffset;
    }
    var left := added % MODULUS + high * (place * radix);
    assert added == (added / MODULUS) * MODULUS + added % MODULUS;
    assert whole == left + (q * digit + added / MODULUS) * MODULUS;
    ModuloAdds(left, q * digit + added / MODULUS);
  }

  // ----- Round trip -----

  /** The radixes of the lexer: binary, octal, decimal and hexadecimal. */
  predicate IsRadix(radix: nat) {
    radix == 2 || radix == 8 || radix == 10 || radix == 16
  }

  /** Every accepted digit is below the radix, except that binary numerals accept the digits of octal ones. */
  lemma DigitsBelowRadixExactly(radix: nat)
    requires IsRadix(radix)
    ensures (forall digit: Byte :: DigitValue(digit, radix).Some? ==> DigitValue(digit, radix).value < radix) <==> radix != 2
    ensures forall digit: Byte :: DigitValue(digit, 2).Some? <==> DigitValue(digit, 8).Some?
  {
    if radix == 2 {
      assert DigitValue(55, 2) == Some(7);
    }
  }

  /** A digit, its letters in upper or in lower case. */
  predicate Writes(digit: Byte, value: nat) {
    value < 36 && (digit == Digit(value) || (value >= 10 && digit == Digit(value) + 32))
  }

  /** Exactly the digits below the radix, in either case, are accepted, with their values; in binary those below 8. */
  lemma DigitsAccepted(digit: Byte, radix: nat, value: nat)
    requires IsRadix(radix)
    ensures DigitValue(digit, radix) == Some(value) <==> Writes(digit, value) && value < if radix == 2 then 8 else radix
  {
  }

  /** The same digits, up to the case of letters. */
  predicate SameDigits(a: seq<Byte>, b: seq<Byte>, radix: nat) {
    |a| == |b| && AllDigits(a, radix) && forall i :: 0 <= i < |a| ==> Writes(b[i], DigitValue(a[i], radix).value)
  }

  /** The case of letters does not matter. */
  lemma {:induction false} CaseDoesNotMatter(a: seq<Byte>, b: seq<Byte>, radix: nat)
    requires IsRadix(radix) && SameDigits(a, b, radix)
    ensures AllDigits(b, radix) && ValueOf(b, radix) == ValueOf(a, radix)
    decreases |a|
  {
    forall i | 0 <= i < |b|
      ensures DigitValue(b[i], radix) == DigitValue(a[i], radix)
    {
      DigitsAccepted(a[i], radix, DigitValue(a[i], radix).value);
      DigitsAccepted(b[i], radix, DigitValue(a[i], radix).value);
    }
    if a != [] {
      CaseDoesNotMatter(a[..|a| - 1], b[..|b| - 1], radix);
    }
  }

  lemma DigitIsRead(value: nat, radix: nat)
    requires IsRadix(radix)
    requires value < radix
    ensures DigitValue(Digit(value), radix) == Some(value)
  {
  }

  lemma AppendedDigit(digits: seq<Byte>, digit: Byte, radix: nat)
    requires AllDigits(digits, radix) && DigitValue(digit, radix).Some?
    ensures AllDigits(digits + [digit], radix)
    ensures ValueOf(digits + [digit], radix) == ValueOf(digits, radix) * radix + DigitValue(digit, radix).value
  {
    var all := digits + [digit];
    assert all[..|all| - 1] == digits;
  }

  lemma NumeralGoesOn(digits: seq<Byte>, q: nat, r: nat, radix: nat, value: nat)
    requires AllDigits(digits, radix) && ValueOf(digits, radix) == q && value == q * radix + r
    requires r < 36 && DigitValue(Digit(r), radix) == Some(r)
    ensures AllDigits(digits + [Digit(r)], radix) && ValueOf(digits + [Digit(r)], radix) == value
  {
    AppendedDigit(digits, Digit(r), radix);
  }

  /** The digits of a number are read back as the number. */
  lemma {:induction false} NumeralIsRead(value: nat, radix: nat)
    requires IsRadix(radix)
    ensures AllDigits(Numeral(value, radix), radix) && ValueOf(Numeral(value, radix), radix) == value
    decreases value
  {
    if value < radix {
      DigitIsRead(value, radix);
      AppendedDigit([], Digit(value), radix);
      assert [] + [Digit(value)] == [Digit(value)];
    } else {
      var q, r := Quotient(value, radix), value % radix;
      NumeralIsRead(q, radix);
      DigitIsRead(r, radix);
      NumeralGoesOn(Numeral(q, radix), q, r, radix, value);
    }
  }

  /** However the letters of its numeral are written, a number is read back. */
  lemma AnyCaseIsRead(value: nat, radix: nat, digits: seq<Byte>)
    requires IsRadix(radix) && AllDigits(Numeral(value, radix), radix) && SameDigits(Numeral(value, radix), digits, radix)
    ensures AllDigits(digits, radix) && ValueOf(digits, radix) == value
  {
    NumeralIsRead(value, radix);
    CaseDoesNotMatter(Numeral(value, radix), digits, radix);
  }

  /** A 64-bit number written in decimal fits its buffer and is read back as itself. */
  lemma IntegerRoundTrip(value: nat)
    requires value < MODULUS
    ensures var digits := Numeral(value, 10);
            |digits| <= 32 && AllDigits(digits, 10) && ValueOf(digits, 10) % MODULUS == value
  {
    DecimalFits(value);
    NumeralIsRead(value, 10);
  }

  /** Different numbers have different numerals. */
  lemma NumeralInjective(m: nat, n: nat)
    requires Numeral(m, 10) == Numeral(n, 10)
    ensures m == n
  {
    NumeralIsRead(m, 10);
    NumeralIsRead(n, 10);
  }
}

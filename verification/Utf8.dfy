/** The UTF-8 encoder, decoder and validator (sections 3 and 4 of RFC 3629, without its exclusion of
    surrogates and of code points above 10FFFF). */
module Utf8 {
  import opened Options
  import opened Numerals

  const LIMIT: nat := 0x20_0000

  /** The bytes of a code point; bits beyond the 21st are dropped. */
  function Encode(codePoint: nat): (bytes: seq<Byte>)
    ensures 1 <= |bytes| <= 4
  {
    if codePoint < 0x80 then [codePoint]
    else if codePoint < 0x800 then [0xC0 + codePoint / 0x40, 0x80 + codePoint % 0x40]
    else if codePoint < 0x1_0000 then
      [0xE0 + codePoint / 0x1000, 0x80 + codePoint / 0x40 % 0x40, 0x80 + codePoint % 0x40]
    else
      [0xF0 + codePoint / 0x4_0000 % 8, 0x80 + codePoint / 0x1000 % 0x40, 0x80 + codePoint / 0x40 % 0x40, 0x80 + codePoint % 0x40]
  }

  predicate IsContinuation(b: Byte) {
    b / 0x40 == 2
  }

  /** Six more bits below the bits read so far. */
  function Combine(high: nat, continuation: Byte): nat {
    high * 0x40 + continuation % 0x40
  }

  /** The code point at the start of a byte sequence; None if the bytes are not the encoding of one. */
  function Decode(bytes: seq<Byte>): (codePoint: Option<nat>)
    requires bytes != []
    ensures codePoint.Some? ==> codePoint.value < LIMIT
  {
    var first := bytes[0];
    if first / 0x80 == 0 then Some(first)
    else if first / 0x40 != 3 || |bytes| == 1 || !IsContinuation(bytes[1]) then None
    else if first / 0x20 == 6 then Minimum(0x80, Combine(first % 0x20, bytes[1]))
    else if |bytes| == 2 || !IsContinuation(bytes[2]) then None
    else if first / 0x10 == 14 then Minimum(0x800, Combine(Combine(first % 0x10, bytes[1]), bytes[2]))
    else if first / 8 != 30 || |bytes| == 3 || !IsContinuation(bytes[3]) then None
    else Minimum(0x1_0000, Combine(Combine(Combine(first % 8, bytes[1]), bytes[2]), bytes[3]))
  }

  /** A code point that fits a shorter encoding is refused. */
  function Minimum(least: nat, codePoint: nat): Option<nat> {
    if codePoint < least then None else Some(codePoint)
  }

  /** How far the lexer moves on, judged by the first byte alone. */
  function Advance(first: Byte): nat {
    if first / 0x80 == 0 then 1
    else if first / 0x20 == 6 then 2
    else if first / 0x10 == 14 then 3
    else 4
  }

  lemma Parts(c: nat)
    ensures Combine(c / 0x40, 0x80 + c % 0x40) == c
    ensures IsContinuation(0x80 + c % 0x40)
  {
  }

  lemma Combined(high: nat, b: Byte)
    requires IsContinuation(b)
    ensures Combine(high, b) / 0x40 == high && 0x80 + Combine(high, b) % 0x40 == b
  {
  }

  lemma NestedDivision(c: nat)
    ensures c / 0x1000 == c / 0x40 / 0x40
    ensures c / 0x4_0000 == c / 0x40 / 0x40 / 0x40
  {
  }

  lemma EncodeDecode2(c: nat, rest: seq<Byte>)
    requires 0x80 <= c < 0x800
    ensures Decode(Encode(c) + rest) == Some(c) && Advance((Encode(c) + rest)[0]) == 2
  {
    var bytes, high := Encode(c) + rest, c / 0x40;
    assert high < 0x20;
    assert bytes[0] == 0xC0 + high && bytes[1] == 0x80 + c % 0x40;
    Parts(c);
    assert Combine(bytes[0] % 0x20, bytes[1]) == c;
  }

  lemma EncodeDecode3(c: nat, rest: seq<Byte>)
    requires 0x800 <= c < 0x1_0000
    ensures Decode(Encode(c) + rest) == Some(c) && Advance((Encode(c) + rest)[0]) == 3
  {
    var bytes, middle, high := Encode(c) + rest, c / 0x40, c / 0x40 / 0x40;
    NestedDivision(c);
    assert high < 0x10;
    assert bytes[0] == 0xE0 + high && bytes[1] == 0x80 + middle % 0x40 && bytes[2] == 0x80 + c % 0x40;
    Parts(c);
    Parts(middle);
    assert Combine(Combine(bytes[0] % 0x10, bytes[1]), bytes[2]) == c;
  }

  lemma EncodeDecode4(c: nat, rest: seq<Byte>)
    requires 0x1_0000 <= c < LIMIT
    ensures Decode(Encode(c) + rest) == Some(c) && Advance((Encode(c) + rest)[0]) == 4
  {
    var bytes := Encode(c) + rest;
    NestedDivision(c);
    var d, e := c / 0x40, c / 0x40 / 0x40;
    assert bytes[0] == 0xF0 + e / 0x40 && bytes[1] == 0x80 + e % 0x40 && bytes[2] == 0x80 + d % 0x40 && bytes[3] == 0x80 + c % 0x40;
    Parts(c);
    Parts(d);
    Parts(e);
  }

  /** Decoding what was encoded gives the code point back, and the lexer moves past exactly its bytes. */
  lemma EncodeDecode(codePoint: nat, rest: seq<Byte>)
    requires codePoint < LIMIT
    ensures Decode(Encode(codePoint) + rest) == Some(codePoint)
    ensures Advance((Encode(codePoint) + rest)[0]) == |Encode(codePoint)|
  {
    if codePoint < 0x80 {
    } else if codePoint < 0x800 {
      EncodeDecode2(codePoint, rest);
    } else if codePoint < 0x1_0000 {
      EncodeDecode3(codePoint, rest);
    } else {
      EncodeDecode4(codePoint, rest);
    }
  }

  lemma DecodeEncode2(a: Byte, b: Byte)
    requires a / 0x20 == 6 && IsContinuation(b)
    ensures var c := Combine(a % 0x20, b); 0x80 <= c ==> Encode(c) == [a, b]
  {
    Combined(a % 0x20, b);
  }

  lemma DecodeEncode3(a: Byte, b: Byte, d: Byte)
    requires a / 0x10 == 14 && IsContinuation(b) && IsContinuation(d)
    ensures var c := Combine(Combine(a % 0x10, b), d); 0x800 <= c ==> Encode(c) == [a, b, d]
  {
    Combined(a % 0x10, b);
    Combined(Combine(a % 0x10, b), d);
    NestedDivision(Combine(Combine(a % 0x10, b), d));
  }

  lemma DecodeEncode4(a: Byte, b: Byte, d: Byte, e: Byte)
    requires a / 8 == 30 && IsContinuation(b) && IsContinuation(d) && IsContinuation(e)
    ensures var c := Combine(Combine(Combine(a % 8, b), d), e); 0x1_0000 <= c ==> Encode(c) == [a, b, d, e]
  {
    Combined(a % 8, b);
    Combined(Combine(a % 8, b), d);
    Combined(Combine(Combine(a % 8, b), d), e);
    NestedDivision(Combine(Combine(Combine(a % 8, b), d), e));
  }

  /** Whatever decodes starts with the encoding of the code point it decodes to. */
  lemma DecodeEncode(bytes: seq<Byte>)
    requires bytes != [] && Decode(bytes).Some?
    ensures Encode(Decode(bytes).value) <= bytes
    ensures Advance(bytes[0]) == |Encode(Decode(bytes).value)|
  {
    if bytes[0] / 0x80 == 0 {
    } else if bytes[0] / 0x20 == 6 {
      DecodeEncode2(bytes[0], bytes[1]);
    } else if bytes[0] / 0x10 == 14 {
      DecodeEncode3(bytes[0], bytes[1], bytes[2]);
    } else {
      DecodeEncode4(bytes[0], bytes[1], bytes[2], bytes[3]);
    }
  }

  /** Exactly the code points below 2^21 survive. */
  lemma SurvivesExactlyBelowLimit(codePoint: nat)
    ensures Decode(Encode(codePoint)) == Some(codePoint) <==> codePoint < LIMIT
  {
    if codePoint < LIMIT {
      EncodeDecode(codePoint, []);
      assert Encode(codePoint) + [] == Encode(codePoint);
    }
  }

  // ----- Whole strings -----

  function EncodeAll(codePoints: seq<nat>): seq<Byte> {
    if codePoints == [] then [] else Encode(codePoints[0]) + EncodeAll(codePoints[1..])
  }

  predicate IsValid(bytes: seq<Byte>)
    decreases |bytes|
  {
    bytes == [] || (Decode(bytes).Some? && |Encode(Decode(bytes).value)| <= |bytes| && IsValid(bytes[|Encode(Decode(bytes).value)|..]))
  }

  /** The code points of a valid string. */
  function DecodeAll(bytes: seq<Byte>): (codePoints: seq<nat>)
    requires IsValid(bytes)
    ensures forall i :: 0 <= i < |codePoints| ==> codePoints[i] < LIMIT
    decreases |bytes|
  {
    if bytes == [] then [] else [Decode(bytes).value] + DecodeAll(bytes[|Encode(Decode(bytes).value)|..])
  }

  lemma EncodeFirst(codePoint: nat, codePoints: seq<nat>)
    ensures EncodeAll([codePoint] + codePoints) == Encode(codePoint) + EncodeAll(codePoints)
  {
    assert ([codePoint] + codePoints)[1..] == codePoints;
  }

  lemma SplitFirst(bytes: seq<Byte>) returns (first: seq<Byte>, rest: seq<Byte>)
    requires IsValid(bytes) && bytes != []
    ensures first == Encode(Decode(bytes).value) && bytes == first + rest && |rest| < |bytes|
    ensures IsValid(rest) && DecodeAll(bytes) == [Decode(bytes).value] + DecodeAll(rest)
  {
    DecodeEncode(bytes);
    first := Encode(Decode(bytes).value);
    rest := bytes[|first|..];
  }

  lemma {:induction false} ValidIsEncoded(bytes: seq<Byte>)
    requires IsValid(bytes)
    ensures EncodeAll(DecodeAll(bytes)) == bytes
    decreases |bytes|
  {
    if bytes != [] {
      var _, rest := SplitFirst(bytes);
      ValidIsEncoded(rest);
      EncodeFirst(Decode(bytes).value, DecodeAll(rest));
    }
  }

  lemma {:induction false} EncodedIsValid(codePoints: seq<nat>)
    requires forall i :: 0 <= i < |codePoints| ==> codePoints[i] < LIMIT
    ensures IsValid(EncodeAll(codePoints)) && DecodeAll(EncodeAll(codePoints)) == codePoints
  {
    if codePoints != [] {
      var bytes := EncodeAll(codePoints);
      EncodeDecode(codePoints[0], EncodeAll(codePoints[1..]));
      EncodedIsValid(codePoints[1..]);
      assert bytes[|Encode(codePoints[0])|..] == EncodeAll(codePoints[1..]);
    }
  }

  /** The validator: accepts exactly the concatenations of encodings of code points below 2^21. */
  method ValidateUtf8String(bytes: seq<Byte>) returns (valid: bool)
    ensures valid == IsValid(bytes)
    ensures valid <==> exists codePoints: seq<nat> :: (forall i :: 0 <= i < |codePoints| ==> codePoints[i] < LIMIT) && EncodeAll(codePoints) == bytes
  {
    valid := Validate(bytes);
    if valid {
      ValidIsEncoded(bytes);
      var codePoints := DecodeAll(bytes);
    } else {
      forall codePoints: seq<nat> | forall i :: 0 <= i < |codePoints| ==> codePoints[i] < LIMIT
        ensures EncodeAll(codePoints) != bytes
      {
        EncodedIsValid(codePoints);
      }
    }
  }

  method Validate(bytes: seq<Byte>) returns (valid: bool)
    ensures valid == IsValid(bytes)
  {
    var index := 0;
    assert bytes[0..] == bytes;
    while index < |bytes|
      invariant 0 <= index <= |bytes| && IsValid(bytes) == IsValid(bytes[index..])
      decreases |bytes| - index
    {
      ghost var rest := bytes[index..];
      if Decode(rest).Some? {
        DecodeEncode(rest);
      }
      var start := index;
      var length := ValidateCharacter(bytes, start);
      if length == 0 {
        return false;
      }
      index := start + length;
      assert rest[length..] == bytes[index..];
    }
    assert bytes[index..] == [];
    valid := true;
  }

  /** The length of the character at an index, or 0 if there is none: byte by byte. */
  method ValidateCharacter(bytes: seq<Byte>, start: nat) returns (length: nat)
    requires start < |bytes|
    ensures var c := Decode(bytes[start..]);
            (length == 0 <==> c.None?) && (c.Some? ==> length == Advance(bytes[start]) && start + length <= |bytes|)
  {
    var index, first := start + 1, bytes[start];
    if first / 0x80 == 0 {
      return 1;
    }
    if first / 0x40 != 3 || index == |bytes| {
      return 0;
    }
    var second := bytes[index];
    index := index + 1;
    if second / 0x40 != 2 {
      return 0;
    }
    if first / 0x20 == 6 {
      var codePoint := Combine(first % 0x20, second);
      return if codePoint < 0x80 then 0 else 2;
    }
    if index == |bytes| {
      return 0;
    }
    var third := bytes[index];
    index := index + 1;
    if third / 0x40 != 2 {
      return 0;
    }
    if first / 0x10 == 14 {
      var codePoint := Combine(Combine(first % 0x10, second), third);
      return if codePoint < 0x800 then 0 else 3;
    }
    if first / 8 != 30 || index == |bytes| {
      return 0;
    }
    var fourth := bytes[index];
    if fourth / 0x40 != 2 {
      return 0;
    }
    var codePoint := Combine(Combine(Combine(first % 8, second), third), fourth);
    length := if codePoint < 0x1_0000 then 0 else 4;
  }

  /** The lexer's position in its source. */
  class Lexer {
    var source: seq<Byte>
    var index: nat
    var column: nat

    constructor (bytes: seq<Byte>)
      ensures source == bytes && index == 0 && column == 0
    {
      source, index, column := bytes, 0, 0;
    }

    /** Read the character at the index and move past it. */
    method ConsumeCharacter() returns (codePoint: Option<nat>)
      requires index < |source|
      modifies this`index, this`column
      ensures codePoint == Decode(source[old(index)..])
      ensures codePoint.Some? ==>
        index == old(index) + |Encode(codePoint.value)| <= |source| && source[old(index)..index] == Encode(codePoint.value)
      ensures codePoint.Some? ==> column == old(column) + |Encode(codePoint.value)|
      ensures codePoint.None? ==> index == old(index) && column == old(column)
    {
      codePoint := Decode(source[index..]);
      if codePoint.Some? {
        DecodeEncode(source[index..]);
        var first := source[index];
        var length := if first / 0x80 == 0 then 1 else if first / 0x20 == 6 then 2 else if first / 0x10 == 14 then 3 else 4;
        assert length == Advance(first) == |Encode(codePoint.value)| <= |source[index..]|;
        assert source[index..][..length] == source[index..index + length];
        index, column := index + length, column + length;
      }
    }
  }
}

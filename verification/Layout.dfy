/** Sizes, alignments and member offsets of types. */
module Layout {
  import opened Integers

  datatype LayoutType =
    | Scalar(size: RegisterSize)
      /** A pointer and a length, both of the address size. */
    | Slice(addressSize: RegisterSize)
    | StaticArray(element: LayoutType, length: nat)
    | Struct(members: seq<LayoutType>)
    | Union(members: seq<LayoutType>)

  function ByteSize(size: RegisterSize): nat {
    match size
    case Size8 => 1
    case Size16 => 2
    case Size32 => 4
    case Size64 => 8
  }

  function Max(a: nat, b: nat): nat {
    if a > b then a else b
  }

  function Alignment(t: LayoutType): nat
    decreases t
  {
    match t
    case Scalar(size) => ByteSize(size)
    case Slice(addressSize) => ByteSize(addressSize)
    case StaticArray(element, _) => Alignment(element)
    case Struct(members) => LargestAlignment(members)
    case Union(members) => LargestAlignment(members)
  }

  function LargestAlignment(members: seq<LayoutType>): nat
    decreases members
  {
    if members == [] then 1 else Max(LargestAlignment(members[..|members| - 1]), Alignment(members[|members| - 1]))
  }

  /** The least multiple of `alignment` from `n` on. */
  function AlignUp(n: nat, alignment: nat): nat
    requires alignment > 0
  {
    if n % alignment == 0 then n else n + (alignment - n % alignment)
  }

  function Size(t: LayoutType): nat
    decreases t
  {
    match t
    case Scalar(size) => ByteSize(size)
    case Slice(addressSize) => 2 * ByteSize(addressSize)
    case StaticArray(element, length) => length * Size(element)
    case Struct(members) => EndOf(members)
    case Union(members) => LargestSize(members)
  }

  /** Where the last of some members ends. */
  function EndOf(members: seq<LayoutType>): nat
    decreases members
  {
    if members == [] then 0 else
    var last := members[|members| - 1];
    AlignmentIsPowerOfTwo(last);
    AlignUp(EndOf(members[..|members| - 1]), Alignment(last)) + Size(last)
  }

  function LargestSize(members: seq<LayoutType>): nat
    decreases members
  {
    if members == [] then 0 else Max(LargestSize(members[..|members| - 1]), Size(members[|members| - 1]))
  }

  predicate IsSmallPowerOfTwo(n: nat) {
    n == 1 || n == 2 || n == 4 || n == 8
  }

  /** Alignments are powers of two. */
  lemma {:induction false} AlignmentIsPowerOfTwo(t: LayoutType)
    ensures IsSmallPowerOfTwo(Alignment(t))
    decreases t
  {
    match t
    case Scalar(_) =>
    case Slice(_) =>
    case StaticArray(element, _) => AlignmentIsPowerOfTwo(element);
    case Struct(members) => LargestIsPowerOfTwo(members);
    case Union(members) => LargestIsPowerOfTwo(members);
  }

  lemma {:induction false} LargestIsPowerOfTwo(members: seq<LayoutType>)
    ensures IsSmallPowerOfTwo(LargestAlignment(members))
    decreases members
  {
    if members != [] {
      LargestIsPowerOfTwo(members[..|members| - 1]);
      AlignmentIsPowerOfTwo(members[|members| - 1]);
    }
  }

  /** The alignment of every member divides that of the whole. */
  lemma {:induction false} MemberAlignmentDivides(members: seq<LayoutType>, i: nat)
    requires i < |members|
    ensures Alignment(members[i]) > 0 && LargestAlignment(members) % Alignment(members[i]) == 0
    decreases |members|
  {
    var last := |members| - 1;
    AlignmentIsPowerOfTwo(members[i]);
    AlignmentIsPowerOfTwo(members[last]);
    LargestIsPowerOfTwo(members[..last]);
    if i < last {
      MemberAlignmentDivides(members[..last], i);
    }
  }

  lemma AlignUpIsLeast(n: nat, alignment: nat, m: nat)
    requires IsSmallPowerOfTwo(alignment)
    ensures AlignUp(n, alignment) >= n && AlignUp(n, alignment) % alignment == 0
    ensures m >= n && m % alignment == 0 ==> m >= AlignUp(n, alignment)
  {
  }

  /** The offset of a member. */
  function Offset(members: seq<LayoutType>, i: nat): nat
    requires i < |members|
  {
    AlignmentIsPowerOfTwo(members[i]);
    AlignUp(EndOf(members[..i]), Alignment(members[i]))
  }

  /** A member's offset is the least aligned one that is not before the end of the previous member. */
  lemma OffsetIsLeast(members: seq<LayoutType>, i: nat, other: nat)
    requires i < |members|
    ensures var previousEnd := if i == 0 then 0 else Offset(members, i - 1) + Size(members[i - 1]);
            var alignment := Alignment(members[i]);
            alignment > 0 && Offset(members, i) >= previousEnd && Offset(members, i) % alignment == 0 &&
            (other >= previousEnd && other % alignment == 0 ==> other >= Offset(members, i))
  {
    AlignmentIsPowerOfTwo(members[i]);
    if i > 0 {
      assert members[..i][..i - 1] == members[..i - 1];
    }
    AlignUpIsLeast(EndOf(members[..i]), Alignment(members[i]), other);
  }

  /** Members do not overlap: each ends before any later one starts. */
  lemma {:induction false} MembersDoNotOverlap(members: seq<LayoutType>, i: nat, j: nat)
    requires i < j < |members|
    ensures Offset(members, i) + Size(members[i]) <= Offset(members, j)
    decreases j
  {
    OffsetIsLeast(members, j, 0);
    if i < j - 1 {
      MembersDoNotOverlap(members, i, j - 1);
    }
  }

  // ----- What a size is -----

  /** A scalar has as many bytes as its bits need, and is aligned to its size. */
  lemma ScalarHoldsBits(size: RegisterSize)
    ensures 8 * Size(Scalar(size)) == Bits(size) && Alignment(Scalar(size)) == Size(Scalar(size))
  {
  }

  /** A slice is laid out as a struct of a pointer and a length, one after the other. */
  lemma SliceIsPair(addressSize: RegisterSize)
    ensures var parts := [Scalar(addressSize), Scalar(addressSize)];
            Size(Slice(addressSize)) == Size(Struct(parts)) && Alignment(Slice(addressSize)) == Alignment(Struct(parts)) &&
            Offset(parts, 0) == 0 && Offset(parts, 1) == Size(Scalar(addressSize))
  {
    var parts := [Scalar(addressSize), Scalar(addressSize)];
    assert parts[..0] == [] && parts[..1] == [Scalar(addressSize)] && parts[..1][..0] == [];
    assert EndOf(parts[..1]) == ByteSize(addressSize) && LargestAlignment(parts[..1]) == ByteSize(addressSize);
  }

  /** Element `k` of an array, from `k` times the element's size on, lies within the array, and the last one
      ends with it. */
  lemma ElementsFillArray(element: LayoutType, length: nat, k: nat)
    requires k < length
    ensures k * Size(element) + Size(element) <= Size(StaticArray(element, length))
    ensures k == length - 1 ==> k * Size(element) + Size(element) == Size(StaticArray(element, length))
    ensures Alignment(StaticArray(element, length)) == Alignment(element)
  {
    var rest := length - 1 - k;
    assert length * Size(element) == (k + 1 + rest) * Size(element) == k * Size(element) + Size(element) + rest * Size(element);
    assert rest * Size(element) >= 0;
  }

  /** An array of elements that leave no gap is laid out as the struct of as many members of that type. */
  lemma {:induction false} ArrayIsStruct(element: LayoutType, length: nat)
    requires IsAligned(Size(element), element)
    ensures Size(Struct(seq(length, _ => element))) == Size(StaticArray(element, length))
    decreases length
  {
    if length > 0 {
      var members := seq(length, _ => element);
      assert members[..length - 1] == seq(length - 1, _ => element);
      ArrayIsStruct(element, length - 1);
      ElementsFillArray(element, length, length - 1);
      ElementsAlignedExactly(element);
      assert IsAligned((length - 1) * Size(element), element);
    }
  }

  /** All members of a union fit into it, and one of them fills it. */
  lemma {:induction false} UnionHoldsMembers(members: seq<LayoutType>, i: nat)
    requires i < |members|
    ensures Size(members[i]) <= Size(Union(members))
    ensures exists j :: 0 <= j < |members| && Size(members[j]) == Size(Union(members))
    decreases |members|
  {
    var last := |members| - 1;
    if last > 0 {
      UnionHoldsMembers(members[..last], if i < last then i else 0);
      var j :| 0 <= j < last && Size(members[..last][j]) == LargestSize(members[..last]);
      assert members[j] == members[..last][j];
      assert LargestSize(members) == if LargestSize(members[..last]) > Size(members[last]) then Size(members[j]) else Size(members[last]);
    } else {
      assert members[..last] == [] && LargestSize(members[..last]) == 0;
      assert Size(members[last]) == LargestSize(members);
    }
  }

  /** The alignment of a struct or union with members is that of one of them; without members it is 1. */
  lemma {:induction false} AlignmentIsReached(members: seq<LayoutType>)
    ensures Alignment(Struct(members)) == Alignment(Union(members))
    ensures if members == [] then Alignment(Struct(members)) == 1
            else exists j :: 0 <= j < |members| && Alignment(members[j]) == Alignment(Struct(members))
    decreases |members|
  {
    if members != [] {
      var last := |members| - 1;
      AlignmentIsReached(members[..last]);
      AlignmentIsPowerOfTwo(members[last]);
      if LargestAlignment(members[..last]) > Alignment(members[last]) {
        var j :| 0 <= j < last && Alignment(members[..last][j]) == LargestAlignment(members[..last]);
        assert Alignment(members[j]) == LargestAlignment(members);
      } else {
        assert Alignment(members[last]) == LargestAlignment(members);
      }
    }
  }

  /** Sizes are not rounded up: the elements of an array are aligned exactly if the size of one is a
      multiple of its alignment. */
  lemma ElementsAlignedExactly(element: LayoutType)
    ensures Alignment(element) > 0
    ensures (forall k: nat :: IsAligned(k * Size(element), element)) <==> IsAligned(Size(element), element)
  {
    AlignmentIsPowerOfTwo(element);
    if IsAligned(Size(element), element) {
      forall k: nat
        ensures IsAligned(k * Size(element), element)
      {
        MultipleIsAligned(k, Size(element), Alignment(element));
      }
    } else {
      assert 1 * Size(element) == Size(element);
    }
  }

  predicate IsAligned(offset: nat, t: LayoutType) {
    Alignment(t) > 0 && offset % Alignment(t) == 0
  }

  lemma MultipleIsAligned(k: nat, size: nat, alignment: nat)
    requires IsSmallPowerOfTwo(alignment) && size % alignment == 0
    ensures (k * size) % alignment == 0
  {
    var q := size / alignment;
    assert k * size == (k * q) * alignment by {
      assert size == q * alignment;
    }
    MultipleOf(k * q, alignment);
  }

  lemma MultipleOf(n: nat, alignment: nat)
    requires IsSmallPowerOfTwo(alignment)
    ensures (n * alignment) % alignment == 0
  {
    if alignment == 1 {
    } else if alignment == 2 {
      assert (n * 2) % 2 == 0;
    } else if alignment == 4 {
      assert (n * 4) % 4 == 0;
    } else {
      assert (n * 8) % 8 == 0;
    }
  }

  /** A 4-byte member and a 1-byte member: size 5, alignment 4. */
  lemma TailIsNotPadded()
    ensures !IsAligned(Size(Struct([Scalar(Size32), Scalar(Size8)])), Struct([Scalar(Size32), Scalar(Size8)]))
  {
    var first, both := [Scalar(Size32)], [Scalar(Size32), Scalar(Size8)];
    assert both[..1] == first && first[..0] == [];
    assert EndOf(first) == 4 && LargestAlignment(first) == 4;
  }

  // ----- The loops -----

  method GetStructAlignment(members: seq<LayoutType>) returns (alignment: nat)
    ensures alignment == Alignment(Struct(members))
  {
    alignment := 1;
    var i := 0;
    while i < |members|
      invariant 0 <= i <= |members| && alignment == LargestAlignment(members[..i])
    {
      var member := Alignment(members[i]);
      assert members[..i + 1][..i] == members[..i];
      if member > alignment {
        alignment := member;
      }
      i := i + 1;
    }
    assert members[..i] == members;
  }

  /** The size of a struct is where its last member ends. */
  method GetStructSize(members: seq<LayoutType>) returns (size: nat)
    ensures size == Size(Struct(members))
    ensures size == if members == [] then 0 else Offset(members, |members| - 1) + Size(members[|members| - 1])
  {
    size := EndAfter(members, |members|);
    assert members[..|members|] == members;
  }

  method GetMemberOffset(members: seq<LayoutType>, index: nat) returns (offset: nat)
    requires index < |members|
    ensures offset == Offset(members, index)
  {
    offset := EndAfter(members, index);
    offset := offset + Padding(offset, members[index]);
  }

  /** The end of the first `count` members. */
  method EndAfter(members: seq<LayoutType>, count: nat) returns (end: nat)
    requires count <= |members|
    ensures end == EndOf(members[..count])
  {
    end := 0;
    var i := 0;
    while i < count
      invariant 0 <= i <= count && end == EndOf(members[..i])
    {
      assert members[..i + 1][..i] == members[..i];
      end := end + Padding(end, members[i]) + Size(members[i]);
      i := i + 1;
    }
  }

  function Padding(offset: nat, member: LayoutType): (padding: nat)
    ensures Alignment(member) > 0 && offset + padding == AlignUp(offset, Alignment(member))
  {
    AlignmentIsPowerOfTwo(member);
    var difference := offset % Alignment(member);
    if difference != 0 then Alignment(member) - difference else 0
  }
}

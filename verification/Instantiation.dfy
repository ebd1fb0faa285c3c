/** Jobs that are created on demand, for instances of polymorphic types and for functions: each is
    looked for before it is created, by an equality that is not always reflexive. */
module Instantiation {
  import opened Integers
  import opened Options

  // ----- Types and constants as keys -----

  datatype Member = Member(name: string, memberType: TypeValue)

  /** `Basic` stands for the types without data; definitions are numbered. */
  datatype TypeValue =
    | Basic(kind: nat)
    | FunctionType(parameters: seq<TypeValue>, returnTypes: seq<TypeValue>, callingConvention: nat)
    | IntegerValueType(integer: Integer)
    | FloatType(size: RegisterSize)
    | Pointer(pointedTo: TypeValue)
    | ArrayType(element: TypeValue)
    | StaticArray(element: TypeValue, length: nat)
    | StructType(definition: nat, members: seq<Member>)
    | PolymorphicStruct(definition: nat)
    | UnionType(definition: nat, members: seq<Member>)
    | PolymorphicUnion(definition: nat)
    | UndeterminedStruct(members: seq<Member>)
    | Enum(definition: nat)
    | MultiReturn(types: seq<TypeValue>)

  predicate AllTypesEqual(a: seq<TypeValue>, b: seq<TypeValue>) {
    |a| == |b| && forall i :: 0 <= i < |a| ==> TypesEqual(a[i], b[i])
  }

  predicate AllMembersEqual(a: seq<Member>, b: seq<Member>) {
    |a| == |b| && forall i :: 0 <= i < |a| ==> a[i].name == b[i].name && TypesEqual(a[i].memberType, b[i].memberType)
  }

  /** Structural equality, as the compiler has it: the test for polymorphic structs and unions is inverted. */
  predicate TypesEqual(a: TypeValue, b: TypeValue) {
    match (a, b)
    case (Basic(k), Basic(l)) => k == l
    case (FunctionType(p, r, c), FunctionType(q, s, d)) => AllTypesEqual(p, q) && AllTypesEqual(r, s) && c == d
    case (IntegerValueType(i), IntegerValueType(j)) => i == j
    case (FloatType(m), FloatType(n)) => m == n
    case (Pointer(p), Pointer(q)) => TypesEqual(p, q)
    case (ArrayType(e), ArrayType(f)) => TypesEqual(e, f)
    case (StaticArray(e, m), StaticArray(f, n)) => TypesEqual(e, f) && m == n
    case (StructType(d, m), StructType(e, n)) => d == e && AllMembersEqual(m, n)
    case (PolymorphicStruct(d), PolymorphicStruct(e)) => d != e
    case (UnionType(d, m), UnionType(e, n)) => d == e && AllMembersEqual(m, n)
    case (PolymorphicUnion(d), PolymorphicUnion(e)) => d != e
    case (UndeterminedStruct(m), UndeterminedStruct(n)) => AllMembersEqual(m, n)
    case (Enum(d), Enum(e)) => d == e
    case (MultiReturn(s), MultiReturn(t)) => AllTypesEqual(s, t)
    case _ => false
  }

  /** Does a type mention a polymorphic struct or union that has not been instantiated? */
  predicate MentionsPolymorphic(t: TypeValue) {
    match t
    case FunctionType(parameters, returnTypes, _) =>
      (exists p :: p in parameters && MentionsPolymorphic(p)) || exists r :: r in returnTypes && MentionsPolymorphic(r)
    case Pointer(p) => MentionsPolymorphic(p)
    case ArrayType(e) => MentionsPolymorphic(e)
    case StaticArray(e, _) => MentionsPolymorphic(e)
    case StructType(_, members) => exists m :: m in members && MentionsPolymorphic(m.memberType)
    case UnionType(_, members) => exists m :: m in members && MentionsPolymorphic(m.memberType)
    case UndeterminedStruct(members) => exists m :: m in members && MentionsPolymorphic(m.memberType)
    case PolymorphicStruct(_) => true
    case PolymorphicUnion(_) => true
    case MultiReturn(types) => exists u :: u in types && MentionsPolymorphic(u)
    case _ => false
  }

  /** A type equals itself exactly if it mentions no polymorphic struct or union. */
  lemma {:induction false} TypeEqualsItself(t: TypeValue)
    ensures TypesEqual(t, t) <==> !MentionsPolymorphic(t)
    decreases t
  {
    match t
    case FunctionType(parameters, returnTypes, _) =>
      TypesEqualThemselves(parameters);
      TypesEqualThemselves(returnTypes);
    case Pointer(p) => TypeEqualsItself(p);
    case ArrayType(e) => TypeEqualsItself(e);
    case StaticArray(e, _) => TypeEqualsItself(e);
    case StructType(_, members) => MembersEqualThemselves(members);
    case UnionType(_, members) => MembersEqualThemselves(members);
    case UndeterminedStruct(members) => MembersEqualThemselves(members);
    case MultiReturn(types) => TypesEqualThemselves(types);
    case _ =>
  }

  lemma {:induction false} TypesEqualThemselves(types: seq<TypeValue>)
    ensures AllTypesEqual(types, types) <==> !exists t :: t in types && MentionsPolymorphic(t)
    decreases types
  {
    forall t | t in types
      ensures TypesEqual(t, t) <==> !MentionsPolymorphic(t)
    {
      TypeEqualsItself(t);
    }
    if t: TypeValue :| t in types && MentionsPolymorphic(t) {
      var i :| 0 <= i < |types| && types[i] == t;
      assert !TypesEqual(types[i], types[i]);
    } else {
      assert forall i :: 0 <= i < |types| ==> types[i] in types;
    }
  }

  lemma {:induction false} MembersEqualThemselves(members: seq<Member>)
    ensures AllMembersEqual(members, members) <==> !exists m :: m in members && MentionsPolymorphic(m.memberType)
    decreases members
  {
    forall m | m in members
      ensures TypesEqual(m.memberType, m.memberType) <==> !MentionsPolymorphic(m.memberType)
    {
      TypeEqualsItself(m.memberType);
    }
  }

  /** Of types one of which mentions no polymorphic struct or union, only the same ones are equal. */
  lemma {:induction false} TypesEqualExactly(a: TypeValue, b: TypeValue)
    requires !MentionsPolymorphic(a) || !MentionsPolymorphic(b)
    ensures TypesEqual(a, b) <==> a == b
    decreases a
  {
    match a
    case FunctionType(p, r, _) =>
      if b.FunctionType? {
        AllTypesEqualExactly(p, b.parameters);
        AllTypesEqualExactly(r, b.returnTypes);
      }
    case Pointer(p) => if b.Pointer? { TypesEqualExactly(p, b.pointedTo); }
    case ArrayType(e) => if b.ArrayType? { TypesEqualExactly(e, b.element); }
    case StaticArray(e, _) => if b.StaticArray? { TypesEqualExactly(e, b.element); }
    case StructType(_, m) => if b.StructType? { AllMembersEqualExactly(m, b.members); }
    case UnionType(_, m) => if b.UnionType? { AllMembersEqualExactly(m, b.members); }
    case UndeterminedStruct(m) => if b.UndeterminedStruct? { AllMembersEqualExactly(m, b.members); }
    case MultiReturn(s) => if b.MultiReturn? { AllTypesEqualExactly(s, b.types); }
    case _ =>
  }

  predicate SomePolymorphic(types: seq<TypeValue>) {
    exists t :: t in types && MentionsPolymorphic(t)
  }

  lemma {:induction false} AllTypesEqualExactly(a: seq<TypeValue>, b: seq<TypeValue>)
    requires !SomePolymorphic(a) || !SomePolymorphic(b)
    ensures AllTypesEqual(a, b) <==> a == b
    decreases a
  {
    if |a| == |b| {
      forall i | 0 <= i < |a|
        ensures TypesEqual(a[i], b[i]) <==> a[i] == b[i]
      {
        assert a[i] in a && b[i] in b;
        TypesEqualExactly(a[i], b[i]);
      }
    }
  }

  predicate SomePolymorphicMember(members: seq<Member>) {
    exists m :: m in members && MentionsPolymorphic(m.memberType)
  }

  lemma {:induction false} AllMembersEqualExactly(a: seq<Member>, b: seq<Member>)
    requires !SomePolymorphicMember(a) || !SomePolymorphicMember(b)
    ensures AllMembersEqual(a, b) <==> a == b
    decreases a
  {
    if |a| == |b| {
      forall i | 0 <= i < |a|
        ensures a[i].name == b[i].name && TypesEqual(a[i].memberType, b[i].memberType) <==> a[i] == b[i]
      {
        assert a[i] in a && b[i] in b;
        TypesEqualExactly(a[i].memberType, b[i].memberType);
      }
    }
  }

  /** A compile-time value; a float is a number or not a number. */
  datatype Constant =
    | FunctionConstant(declaration: nat)
    | PolymorphicFunctionConstant(declaration: nat)
    | BuiltinFunctionConstant(name: string)
    | IntegerConstant(integer: nat)
    | BooleanConstant(boolean: bool)
    | FloatConstant(float: Option<real>)
    | TypeConstant(constantType: TypeValue)
    | ArrayConstant(length: nat, pointer: nat)
    | StaticArrayConstant(elements: seq<Constant>)
    | StructConstant(members: seq<Constant>)
    | FileModuleConstant(scope: nat)
    | UndefConstant

  predicate AllConstantsEqual(a: seq<Constant>, b: seq<Constant>) {
    |a| == |b| && forall i :: 0 <= i < |a| ==> ConstantsEqual(a[i], b[i])
  }

  predicate ConstantsEqual(a: Constant, b: Constant) {
    match (a, b)
    case (FunctionConstant(d), FunctionConstant(e)) => d == e
    case (PolymorphicFunctionConstant(d), PolymorphicFunctionConstant(e)) => d == e
    case (BuiltinFunctionConstant(m), BuiltinFunctionConstant(n)) => m == n
    case (IntegerConstant(i), IntegerConstant(j)) => i == j
    case (BooleanConstant(x), BooleanConstant(y)) => x == y
    case (FloatConstant(x), FloatConstant(y)) => x.Some? && x == y
    case (TypeConstant(s), TypeConstant(t)) => TypesEqual(s, t)
    case (ArrayConstant(l, p), ArrayConstant(m, q)) => l == m && p == q
    case (StaticArrayConstant(s), StaticArrayConstant(t)) => AllConstantsEqual(s, t)
    case (StructConstant(s), StructConstant(t)) => AllConstantsEqual(s, t)
    case (FileModuleConstant(s), FileModuleConstant(t)) => s == t
    case _ => false
  }

  /** Undef, a float that is not a number, a type that mentions a polymorphic struct or union, or
      an array or struct with such a part. */
  predicate Unequal(c: Constant) {
    match c
    case UndefConstant => true
    case FloatConstant(f) => f.None?
    case TypeConstant(t) => MentionsPolymorphic(t)
    case StaticArrayConstant(elements) => exists e :: e in elements && Unequal(e)
    case StructConstant(members) => exists m :: m in members && Unequal(m)
    case _ => false
  }

  lemma {:induction false} ConstantEqualsItself(c: Constant)
    ensures ConstantsEqual(c, c) <==> !Unequal(c)
    decreases c
  {
    match c
    case TypeConstant(t) => TypeEqualsItself(t);
    case StaticArrayConstant(elements) => ConstantsEqualThemselves(elements);
    case StructConstant(members) => ConstantsEqualThemselves(members);
    case _ =>
  }

  /** A parameter list equals itself exactly if none of its parts is unequal to itself. */
  lemma {:induction false} ConstantsEqualThemselves(constants: seq<Constant>)
    ensures AllConstantsEqual(constants, constants) <==> !exists c :: c in constants && Unequal(c)
    decreases constants
  {
    forall c | c in constants
      ensures ConstantsEqual(c, c) <==> !Unequal(c)
    {
      ConstantEqualsItself(c);
    }
    if c: Constant :| c in constants && Unequal(c) {
      var i :| 0 <= i < |constants| && constants[i] == c;
      assert !ConstantsEqual(constants[i], constants[i]);
    } else {
      assert forall i :: 0 <= i < |constants| ==> constants[i] in constants;
    }
  }

  /** A constant no part of which is unequal to itself equals only itself. */
  lemma {:induction false} ConstantsEqualExactly(a: Constant, b: Constant)
    requires !Unequal(a)
    ensures ConstantsEqual(a, b) <==> a == b
    decreases a
  {
    match (a, b)
    case (TypeConstant(s), TypeConstant(t)) => TypesEqualExactly(s, t);
    case (StaticArrayConstant(s), StaticArrayConstant(t)) => AllConstantsEqualExactly(s, t);
    case (StructConstant(s), StructConstant(t)) => AllConstantsEqualExactly(s, t);
    case _ =>
  }

  lemma {:induction false} AllConstantsEqualExactly(a: seq<Constant>, b: seq<Constant>)
    requires !exists c :: c in a && Unequal(c)
    ensures AllConstantsEqual(a, b) <==> a == b
    decreases a
  {
    if |a| == |b| {
      forall i | 0 <= i < |a|
        ensures ConstantsEqual(a[i], b[i]) <==> a[i] == b[i]
      {
        assert a[i] in a;
        ConstantsEqualExactly(a[i], b[i]);
      }
    }
  }

  // ----- Look before you append -----

  /** What a job on demand is for: an instance of a definition, or the code of a function. */
  datatype Key =
    | Instance(definition: nat, parameters: seq<Constant>)
    | FunctionCode(functionType: TypeValue, declaration: nat, bodyScope: nat)

  /** The test of a requested key against that of a job. */
  predicate Same(requested: Key, existing: Key) {
    match (requested, existing)
    case (Instance(d, p), Instance(e, q)) => d == e && AllConstantsEqual(p, q)
    case (FunctionCode(t, d, s), FunctionCode(u, e, r)) => TypesEqual(u, t) && d == e && s == r
    case _ => false
  }

  function FirstMatch(jobs: seq<Key>, requested: Key): (index: Option<nat>)
    ensures index.Some? ==> index.value < |jobs| && Same(requested, jobs[index.value])
    ensures index.Some? ==> forall i :: 0 <= i < index.value ==> !Same(requested, jobs[i])
    ensures index.None? ==> forall i :: 0 <= i < |jobs| ==> !Same(requested, jobs[i])
  {
    if jobs == [] then None else
    match FirstMatch(jobs[..|jobs| - 1], requested)
    case Some(i) => Some(i)
    case None => if Same(requested, jobs[|jobs| - 1]) then Some(|jobs| - 1) else None
  }

  /** No job was created for a key for which an earlier job had been. */
  predicate NoRepeats(jobs: seq<Key>) {
    forall i, j :: 0 <= i < j < |jobs| ==> !Same(jobs[j], jobs[i])
  }

  lemma OnlySame(jobs: seq<Key>, requested: Key)
    requires Same(requested, requested)
    ensures forall i :: 0 <= i < |jobs| ==> (Same(requested, jobs[i]) <==> jobs[i] == requested)
  {
    forall i | 0 <= i < |jobs|
      ensures Same(requested, jobs[i]) <==> jobs[i] == requested
    {
      SameExactly(requested, jobs[i]);
    }
  }

  class JobTable {
    var jobs: seq<Key>

    constructor ()
      ensures jobs == []
    {
      jobs := [];
    }

    /** The index of the job for a key; the job is appended if there is none. */
    method Demand(requested: Key) returns (index: nat)
      modifies this
      ensures jobs == if FirstMatch(old(jobs), requested).Some? then old(jobs) else old(jobs) + [requested]
      ensures index == IndexOf(old(jobs), requested)
      ensures old(NoRepeats(jobs)) ==> NoRepeats(jobs)
      ensures index < |jobs| && (Same(requested, requested) || jobs != old(jobs) ==> jobs[index] == requested)
      ensures Same(requested, requested) ==> forall i :: 0 <= i < index ==> jobs[i] != requested
    {
      if Same(requested, requested) {
        OnlySame(jobs, requested);
      }
      var i := 0;
      while i < |jobs|
        invariant 0 <= i <= |jobs|
        invariant forall j :: 0 <= j < i ==> !Same(requested, jobs[j])
      {
        if Same(requested, jobs[i]) {
          return i;
        }
        i := i + 1;
      }
      jobs := jobs + [requested];
      index := i;
    }
  }

  /** The index a demand returns. */
  function IndexOf(jobs: seq<Key>, requested: Key): nat {
    var found := FirstMatch(jobs, requested);
    if found.Some? then found.value else |jobs|
  }

  /** The table after one demand. */
  function Demanded(jobs: seq<Key>, requested: Key): seq<Key> {
    if FirstMatch(jobs, requested).Some? then jobs else jobs + [requested]
  }

  /** The table after a whole run of demands. */
  function DemandedAll(jobs: seq<Key>, requests: seq<Key>): seq<Key>
    decreases |requests|
  {
    if requests == [] then jobs else DemandedAll(Demanded(jobs, requests[0]), requests[1..])
  }

  lemma {:induction false} TableOnlyGrows(jobs: seq<Key>, requests: seq<Key>)
    ensures jobs <= DemandedAll(jobs, requests)
    decreases |requests|
  {
    if requests != [] {
      TableOnlyGrows(Demanded(jobs, requests[0]), requests[1..]);
    }
  }

  /** Over any run of demands no job is repeated. */
  lemma {:induction false} RunHasNoRepeats(jobs: seq<Key>, requests: seq<Key>)
    requires NoRepeats(jobs)
    ensures NoRepeats(DemandedAll(jobs, requests))
    decreases |requests|
  {
    if requests != [] {
      RunHasNoRepeats(Demanded(jobs, requests[0]), requests[1..]);
    }
  }

  lemma FirstMatchStays(jobs: seq<Key>, more: seq<Key>, requested: Key)
    requires jobs <= more && FirstMatch(jobs, requested).Some?
    ensures FirstMatch(more, requested) == FirstMatch(jobs, requested)
  {
    var i, j := FirstMatch(jobs, requested).value, FirstMatch(more, requested);
    assert Same(requested, more[i]);
    assert j.Some? && j.value == i;
  }

  /** A demand that is repeated after any number of others finds the job it found or created before,
      exactly if the job's key is the same as itself or another job already was. */
  lemma RetryFindsJob(jobs: seq<Key>, requested: Key, between: seq<Key>)
    ensures FirstMatch(DemandedAll(Demanded(jobs, requested), between), requested) == Some(IndexOf(jobs, requested))
       <==> FirstMatch(jobs, requested).Some? || Same(requested, requested)
  {
    var created := Demanded(jobs, requested);
    TableOnlyGrows(created, between);
    var later := DemandedAll(created, between);
    if FirstMatch(jobs, requested).Some? {
      FirstMatchStays(created, later, requested);
    } else {
      assert created[|jobs|] == requested && later[|jobs|] == requested;
      if Same(requested, requested) {
        assert FirstMatch(created, requested) == Some(|jobs|);
        FirstMatchStays(created, later, requested);
      }
    }
  }

  /** When a key is the same as itself: for an instance no parameter is unequal to itself, for a
      function its type mentions no polymorphic struct or union. */
  lemma SameAsItself(key: Key)
    ensures Same(key, key) <==>
            match key
            case Instance(_, parameters) => !exists c :: c in parameters && Unequal(c)
            case FunctionCode(t, _, _) => !MentionsPolymorphic(t)
  {
    match key
    case Instance(_, parameters) => ConstantsEqualThemselves(parameters);
    case FunctionCode(t, _, _) => TypeEqualsItself(t);
  }

  /** A key that is the same as itself is the same as no other key. */
  lemma SameExactly(requested: Key, existing: Key)
    requires Same(requested, requested)
    ensures Same(requested, existing) <==> requested == existing
  {
    SameAsItself(requested);
    match (requested, existing)
    case (Instance(_, p), Instance(_, q)) => AllConstantsEqualExactly(p, q);
    case (FunctionCode(t, _, _), FunctionCode(u, _, _)) => TypesEqualExactly(u, t);
    case _ =>
  }

  /** A demand with a polymorphic struct finds the job of any other such struct, and never its own. */
  lemma OtherStructMatches(definition: nat, d: nat, e: nat)
    ensures var requested, existing := Instance(definition, [TypeConstant(PolymorphicStruct(d))]), Instance(definition, [TypeConstant(PolymorphicStruct(e))]);
            FirstMatch([existing], requested) == if d != e then Some(0) else None
  {
    var requested, existing := Instance(definition, [TypeConstant(PolymorphicStruct(d))]), Instance(definition, [TypeConstant(PolymorphicStruct(e))]);
    assert TypesEqual(PolymorphicStruct(d), PolymorphicStruct(e)) <==> d != e;
    assert ConstantsEqual(requested.parameters[0], existing.parameters[0]) <==> d != e;
    assert [existing][..0] == [];
  }

  function Repeated(requested: Key, n: nat): seq<Key> {
    if n == 0 then [] else [requested] + Repeated(requested, n - 1)
  }

  lemma StillNoMatch(jobs: seq<Key>, requested: Key)
    requires FirstMatch(jobs, requested).None? && !Same(requested, requested)
    ensures FirstMatch(jobs + [requested], requested).None?
  {
    assert (jobs + [requested])[..|jobs|] == jobs;
  }

  /** A key that is not the same as itself gets a new job at every retry. */
  lemma {:induction false} RetriesRepeatJob(jobs: seq<Key>, requested: Key, n: nat)
    requires FirstMatch(jobs, requested).None? && !Same(requested, requested)
    ensures |DemandedAll(jobs, Repeated(requested, n))| == |jobs| + n
    decreases n
  {
    if n > 0 {
      StillNoMatch(jobs, requested);
      assert Repeated(requested, n)[1..] == Repeated(requested, n - 1);
      RetriesRepeatJob(jobs + [requested], requested, n - 1);
    }
  }
}

/** The names under which the statics of a program are linked. */
module LinkNames {
  import opened Options
  import opened Numerals

  type Name = seq<Byte>

  datatype RuntimeStatic = RuntimeStatic(name: Name, isNoMangle: bool)

  /** `static` is the index of a static. */
  datatype NameMapping = NameMapping(index: nat, name: Name)

  /** The names tried for a static: its own, then with `_1`, `_2` and so on. */
  function Candidate(name: Name, number: nat): Name {
    if number == 0 then name else name + [95] + Numeral(number, 10)
  }

  lemma CandidatesDiffer(name: Name, m: nat, n: nat)
    requires Candidate(name, m) == Candidate(name, n)
    ensures m == n
  {
    if m > 0 && n > 0 {
      assert Candidate(name, m)[|name| + 1..] == Numeral(m, 10) && Candidate(name, n)[|name| + 1..] == Numeral(n, 10);
      NumeralInjective(m, n);
    }
  }

  /** Different candidates that are all taken are no more than the names that are taken. */
  lemma {:induction false} TakenCandidates(name: Name, taken: seq<Name>, number: nat)
    requires forall k: nat :: k < number ==> Candidate(name, k) in taken
    ensures number <= |taken|
    decreases number
  {
    if number > 0 {
      var i :| 0 <= i < |taken| && taken[i] == Candidate(name, number - 1);
      var rest := taken[..i] + taken[i + 1..];
      forall k: nat | k < number - 1
        ensures Candidate(name, k) in rest
      {
        if Candidate(name, k) == taken[i] {
          CandidatesDiffer(name, k, number - 1);
        }
        var j :| 0 <= j < |taken| && taken[j] == Candidate(name, k);
        assert rest[if j < i then j else j - 1] == taken[j];
      }
      TakenCandidates(name, rest, number - 1);
    }
  }

  function NamesOf(mappings: seq<NameMapping>): seq<Name> {
    seq(|mappings|, i requires 0 <= i < |mappings| => mappings[i].name)
  }

  predicate IsTaken(name: Name, mappings: seq<NameMapping>, reserved: seq<Name>) {
    name in NamesOf(mappings) || name in reserved
  }

  /** Distinct names, none reserved, each for a static. */
  predicate Consistent(mappings: seq<NameMapping>, statics: seq<RuntimeStatic>, reserved: seq<Name>) {
    (forall i :: 0 <= i < |mappings| ==> mappings[i].index < |statics| && mappings[i].name !in reserved) &&
    (forall i, j :: 0 <= i < j < |mappings| ==> mappings[i].name != mappings[j].name && mappings[i].index != mappings[j].index)
  }

  /** A name with a number behind it. */
  function Suffixed(name: Name, number: nat): Name {
    name + [95] + Numeral(number, 10)
  }

  /** A static keeps its name if it must, and if nothing else has taken it; otherwise it has the first of its
      names with a number that nothing else has taken. */
  ghost predicate NamedProperly(mapping: NameMapping, statics: seq<RuntimeStatic>, mappings: seq<NameMapping>, reserved: seq<Name>)
    requires mapping.index < |statics|
  {
    var s := statics[mapping.index];
    mapping.name == s.name ||
    (!s.isNoMangle && IsTaken(s.name, mappings, reserved) &&
     exists k: nat :: k > 0 && mapping.name == Suffixed(s.name, k) && SuffixesTaken(s.name, k, mappings, reserved))
  }

  ghost predicate SuffixesTaken(name: Name, number: nat, mappings: seq<NameMapping>, reserved: seq<Name>) {
    forall j: nat :: 0 < j < number ==> IsTaken(Suffixed(name, j), mappings, reserved)
  }

  lemma TakenStays(name: Name, mappings: seq<NameMapping>, m: NameMapping, reserved: seq<Name>)
    requires IsTaken(name, mappings, reserved)
    ensures IsTaken(name, mappings + [m], reserved)
  {
    if name in NamesOf(mappings) {
      var i :| 0 <= i < |mappings| && NamesOf(mappings)[i] == name;
      assert NamesOf(mappings + [m])[i] == name;
    }
  }

  lemma StaysNamed(mapping: NameMapping, statics: seq<RuntimeStatic>, mappings: seq<NameMapping>, m: NameMapping, reserved: seq<Name>)
    requires mapping.index < |statics| && NamedProperly(mapping, statics, mappings, reserved)
    ensures NamedProperly(mapping, statics, mappings + [m], reserved)
  {
    var s := statics[mapping.index];
    if mapping.name != s.name {
      TakenStays(s.name, mappings, m, reserved);
      var k: nat :| k > 0 && mapping.name == Suffixed(s.name, k) && SuffixesTaken(s.name, k, mappings, reserved);
      forall j: nat | 0 < j < k
        ensures IsTaken(Suffixed(s.name, j), mappings + [m], reserved)
      {
        TakenStays(Suffixed(s.name, j), mappings, m, reserved);
      }
      assert SuffixesTaken(s.name, k, mappings + [m], reserved);
    }
  }

  /** The first free candidate is a proper name. */
  lemma FirstFreeIsProper(i: nat, statics: seq<RuntimeStatic>, number: nat, mappings: seq<NameMapping>, reserved: seq<Name>)
    requires i < |statics| && !statics[i].isNoMangle
    requires forall k: nat :: k < number ==> IsTaken(Candidate(statics[i].name, k), mappings, reserved)
    ensures NamedProperly(NameMapping(i, Candidate(statics[i].name, number)), statics, mappings, reserved)
  {
    var name := statics[i].name;
    if number > 0 {
      assert Candidate(name, 0) == name;
      forall j: nat | 0 < j < number
        ensures IsTaken(Suffixed(name, j), mappings, reserved)
      {
        assert Candidate(name, j) == Suffixed(name, j);
      }
      assert SuffixesTaken(name, number, mappings, reserved) && Candidate(name, number) == Suffixed(name, number);
    }
  }

  predicate Maps(mappings: seq<NameMapping>, index: nat) {
    exists m :: m in mappings && m.index == index
  }

  /** A name that cannot be kept: reserved, or kept by an earlier static. */
  predicate Conflicts(statics: seq<RuntimeStatic>, reserved: seq<Name>, i: nat)
    requires i < |statics|
  {
    statics[i].isNoMangle &&
    (statics[i].name in reserved || exists j :: 0 <= j < i && statics[j].isNoMangle && statics[j].name == statics[i].name)
  }

  method FindName(name: Name, mappings: seq<NameMapping>, reserved: seq<Name>) returns (taken: bool)
    ensures taken == IsTaken(name, mappings, reserved)
  {
    taken := false;
    var i := 0;
    while i < |mappings|
      invariant 0 <= i <= |mappings|
      invariant taken == exists j :: 0 <= j < i && mappings[j].name == name
    {
      if mappings[i].name == name {
        taken := true;
      }
      i := i + 1;
    }
    assert taken == (name in NamesOf(mappings)) by {
      if name in NamesOf(mappings) {
        var j :| 0 <= j < |mappings| && NamesOf(mappings)[j] == name;
      } else {
        assert forall j :: 0 <= j < |mappings| ==> NamesOf(mappings)[j] == mappings[j].name;
      }
    }
    if name in reserved {
      taken := true;
    }
  }

  /** The statics whose names are kept, in order; None if one of the names cannot be. */
  method KeepNames(statics: seq<RuntimeStatic>, reserved: seq<Name>) returns (mappings: Option<seq<NameMapping>>)
    ensures mappings.None? <==> exists i :: 0 <= i < |statics| && Conflicts(statics, reserved, i)
    ensures mappings.Some? ==> Consistent(mappings.value, statics, reserved)
    ensures mappings.Some? ==> forall m :: m in mappings.value ==> statics[m.index].isNoMangle && m.name == statics[m.index].name
    ensures mappings.Some? ==> forall i :: 0 <= i < |statics| && statics[i].isNoMangle ==> Maps(mappings.value, i)
  {
    var kept: seq<NameMapping> := [];
    var i := 0;
    while i < |statics|
      invariant 0 <= i <= |statics| && Consistent(kept, statics, reserved)
      invariant forall j :: 0 <= j < i ==> !Conflicts(statics, reserved, j)
      invariant forall m :: m in kept ==> m.index < i && statics[m.index].isNoMangle && m.name == statics[m.index].name
      invariant forall j :: 0 <= j < i && statics[j].isNoMangle ==> NameMapping(j, statics[j].name) in kept
    {
      if statics[i].isNoMangle {
        var taken := FindName(statics[i].name, kept, reserved);
        if taken {
          KeptConflicts(statics, reserved, kept, i);
          return None;
        }
        NotTakenNoConflict(statics, reserved, kept, i);
        kept := kept + [NameMapping(i, statics[i].name)];
      }
      i := i + 1;
    }
    mappings := Some(kept);
  }

  lemma KeptConflicts(statics: seq<RuntimeStatic>, reserved: seq<Name>, kept: seq<NameMapping>, i: nat)
    requires i < |statics| && statics[i].isNoMangle && IsTaken(statics[i].name, kept, reserved)
    requires forall m :: m in kept ==> m.index < i && statics[m.index].isNoMangle && m.name == statics[m.index].name
    ensures Conflicts(statics, reserved, i)
  {
    if statics[i].name in NamesOf(kept) {
      var j :| 0 <= j < |kept| && NamesOf(kept)[j] == statics[i].name;
      assert kept[j] in kept;
    }
  }

  lemma NotTakenNoConflict(statics: seq<RuntimeStatic>, reserved: seq<Name>, kept: seq<NameMapping>, i: nat)
    requires i < |statics| && !IsTaken(statics[i].name, kept, reserved)
    requires forall j :: 0 <= j < i && statics[j].isNoMangle ==> NameMapping(j, statics[j].name) in kept
    ensures !Conflicts(statics, reserved, i)
    ensures forall m :: m in kept ==> m.name != statics[i].name
  {
    forall m | m in kept
      ensures m.name != statics[i].name
    {
      var k :| 0 <= k < |kept| && kept[k] == m;
      assert NamesOf(kept)[k] == m.name;
    }
    forall j | 0 <= j < i && statics[j].isNoMangle
      ensures statics[j].name != statics[i].name
    {
      assert NameMapping(j, statics[j].name) in kept;
    }
  }

  /** The first candidate that is free: there is one among the first as many as there are names taken, plus one. */
  method FreeName(name: Name, mappings: seq<NameMapping>, reserved: seq<Name>) returns (free: Name, number: nat)
    ensures free == Candidate(name, number) && !IsTaken(free, mappings, reserved)
    ensures forall k: nat :: k < number ==> IsTaken(Candidate(name, k), mappings, reserved)
    ensures number <= |mappings| + |reserved|
  {
    ghost var taken := NamesOf(mappings) + reserved;
    number := 0;
    while true
      invariant forall k: nat :: k < number ==> IsTaken(Candidate(name, k), mappings, reserved)
      invariant number <= |taken|
      decreases |taken| - number
    {
      free := Candidate(name, number);
      TakenCandidates(name, taken, number);
      var isTaken := FindName(free, mappings, reserved);
      if !isTaken {
        return;
      }
      TakenCandidates(name, taken, number + 1);
      number := number + 1;
    }
  }

  /** All mappings, kept names first. */
  method MapNames(statics: seq<RuntimeStatic>, reserved: seq<Name>) returns (mappings: Option<seq<NameMapping>>)
    ensures mappings.None? <==> exists i :: 0 <= i < |statics| && Conflicts(statics, reserved, i)
    ensures mappings.Some? ==> Consistent(mappings.value, statics, reserved)
    ensures mappings.Some? ==> forall i :: 0 <= i < |statics| ==> Maps(mappings.value, i)
    ensures mappings.Some? ==> forall m :: m in mappings.value ==> NamedProperly(m, statics, mappings.value, reserved)
  {
    var kept := KeepNames(statics, reserved);
    if kept.None? {
      return None;
    }
    var all := kept.value;
    var i := 0;
    while i < |statics|
      invariant 0 <= i <= |statics| && Consistent(all, statics, reserved)
      invariant forall j :: 0 <= j < |statics| && (j < i || statics[j].isNoMangle) ==> Maps(all, j)
      invariant forall m :: m in all ==> (m.index < i || statics[m.index].isNoMangle) && NamedProperly(m, statics, all, reserved)
    {
      if !statics[i].isNoMangle {
        var free, number := FreeName(statics[i].name, all, reserved);
        ghost var before := all;
        FreeIsNew(all, free);
        FirstFreeIsProper(i, statics, number, all, reserved);
        forall m | m in all + [NameMapping(i, free)]
          ensures NamedProperly(m, statics, all + [NameMapping(i, free)], reserved)
        {
          StaysNamed(m, statics, all, NameMapping(i, free), reserved);
        }
        all := all + [NameMapping(i, free)];
        MapsMore(before, NameMapping(i, free), |statics|);
      }
      i := i + 1;
    }
    mappings := Some(all);
  }

  lemma FreeIsNew(mappings: seq<NameMapping>, free: Name)
    requires free !in NamesOf(mappings)
    ensures forall m :: 0 <= m < |mappings| ==> mappings[m].name != free
  {
    forall m | 0 <= m < |mappings|
      ensures mappings[m].name != free
    {
      assert NamesOf(mappings)[m] == mappings[m].name;
    }
  }

  lemma MapsMore(mappings: seq<NameMapping>, m: NameMapping, n: nat)
    ensures forall j :: 0 <= j < n && (Maps(mappings, j) || j == m.index) ==> Maps(mappings + [m], j)
  {
    forall j | 0 <= j < n && (Maps(mappings, j) || j == m.index)
      ensures Maps(mappings + [m], j)
    {
      if j == m.index {
        assert m in mappings + [m];
      } else {
        var k :| k in mappings && k.index == j;
        assert k in mappings + [m];
      }
    }
  }

  /** A complete and consistent mapping has exactly one name for every static. */
  lemma {:induction false} OneNameEach(mappings: seq<NameMapping>, statics: seq<RuntimeStatic>, reserved: seq<Name>)
    requires Consistent(mappings, statics, reserved) && forall i :: 0 <= i < |statics| ==> Maps(mappings, i)
    ensures |mappings| == |statics|
  {
    var indices := set m | m in mappings :: m.index;
    IndicesCounted(mappings);
    assert indices == Below(|statics|) by {
      forall i | i in Below(|statics|)
        ensures i in indices
      {
        assert Maps(mappings, i);
      }
      forall i | i in indices
        ensures i in Below(|statics|)
      {
        var m :| m in mappings && m.index == i;
        var k :| 0 <= k < |mappings| && mappings[k] == m;
      }
    }
  }

  function Below(n: nat): (s: set<nat>)
    ensures |s| == n
    ensures forall i: nat :: i in s <==> i < n
  {
    if n == 0 then {} else Below(n - 1) + {n - 1}
  }

  lemma {:induction false} IndicesCounted(mappings: seq<NameMapping>)
    requires forall i, j :: 0 <= i < j < |mappings| ==> mappings[i].index != mappings[j].index
    ensures |set m | m in mappings :: m.index| == |mappings|
  {
    if mappings != [] {
      var last := |mappings| - 1;
      IndicesCounted(mappings[..last]);
      var before := set m | m in mappings[..last] :: m.index;
      assert (set m | m in mappings :: m.index) == before + {mappings[last].index};
    }
  }
}

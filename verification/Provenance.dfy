/**
 Where a domain object comes from, and the merge of two origins.

 Merging is a partial operation: the constructor rejects a result whose sources lie in two scopes.
 Revision tokens, contents and times are opaque integers.
 */
module Provenance {
  import opened Options
  import opened Sequences
  import opened Sorting

  datatype Role = Primary | Supporting
  datatype Privacy = Public | Shared | Confidential

  datatype Source = Source(memoryId: int, revision: int, scope: string, privacy: Privacy, snapshot: int, role: Role)

  datatype Origin = Manual | Derived

  datatype Provenance = Provenance(origin: Origin, sources: seq<Source>)

  datatype Error = ManualHasSources | SourcesRequired | DuplicateMemoryId | ScopeMismatch | PrimaryRequired

  datatype Result = Ok(value: Provenance) | Err(error: Error)

  const HandMade := Provenance(Manual, [])

  // Construction.

  function Ids(s: seq<Source>): set<int> { set x | x in s :: x.memoryId }

  function Scopes(s: seq<Source>): set<string> { set x | x in s :: x.scope }

  function CountPrimary(s: seq<Source>): nat {
    if s == [] then 0 else (if s[0].role.Primary? then 1 else 0) + CountPrimary(s[1..])
  }

  /** The checks of the constructor, in their order. */
  function Construct(origin: Origin, sources: seq<Source>): Result {
    if origin.Manual? then
      if sources != [] then Err(ManualHasSources) else Ok(HandMade)
    else if sources == [] then Err(SourcesRequired)
    else if |Ids(sources)| != |sources| then Err(DuplicateMemoryId)
    else if |Scopes(sources)| != 1 then Err(ScopeMismatch)
    else if CountPrimary(sources) != 1 then Err(PrimaryRequired)
    else Ok(Provenance(Derived, sources))
  }

  predicate DistinctIds(s: seq<Source>) {
    forall i, j :: 0 <= i < j < |s| ==> s[i].memoryId != s[j].memoryId
  }

  predicate OneScope(s: seq<Source>) {
    forall i, j :: 0 <= i < |s| && 0 <= j < |s| ==> s[i].scope == s[j].scope
  }

  predicate OnlyPrimary(s: seq<Source>, i: int) {
    0 <= i < |s| && forall j :: 0 <= j < |s| ==> (s[j].role.Primary? <==> j == i)
  }

  /** What the constructor promises about every value it returns. */
  ghost predicate Valid(p: Provenance) {
    if p.origin.Manual? then p.sources == []
    else p.sources != [] && DistinctIds(p.sources) && OneScope(p.sources) && exists i :: OnlyPrimary(p.sources, i)
  }

  lemma TailIds(s: seq<Source>)
    requires s != []
    ensures Ids(s) == Ids(s[1..]) + {s[0].memoryId}
  {
    assert s == [s[0]] + s[1..];
  }

  lemma {:induction false} IdCount(s: seq<Source>)
    ensures |Ids(s)| <= |s|
    ensures |Ids(s)| == |s| <==> DistinctIds(s)
  {
    if s != [] {
      TailIds(s);
      IdCount(s[1..]);
      if s[0].memoryId in Ids(s[1..]) {
        assert Ids(s) == Ids(s[1..]);
      }
    }
  }

  lemma ScopeCount(s: seq<Source>)
    requires s != []
    ensures |Scopes(s)| == 1 <==> OneScope(s)
  {
    var scope := s[0].scope;
    assert s[0] in s && scope in Scopes(s);
    if OneScope(s) {
      assert Scopes(s) == {scope};
    } else if |Scopes(s)| == 1 {
      assert |Scopes(s) - {scope}| == 0;
      forall i | 0 <= i < |s| ensures s[i].scope == scope {
        assert s[i] in s && s[i].scope in Scopes(s);
        assert s[i].scope !in Scopes(s) - {scope};
      }
      assert false;
    }
  }

  lemma {:induction false} PrimaryCount(s: seq<Source>)
    ensures CountPrimary(s) == 0 <==> forall j :: 0 <= j < |s| ==> s[j].role.Supporting?
    ensures CountPrimary(s) == 1 <==> exists i :: OnlyPrimary(s, i)
  {
    if s != [] {
      var tail := s[1..];
      PrimaryCount(tail);
      assert forall j :: 0 < j < |s| ==> s[j] == tail[j - 1];
      if s[0].role.Primary? {
        if CountPrimary(tail) == 0 {
          assert OnlyPrimary(s, 0);
        } else {
          forall i ensures !OnlyPrimary(s, i) {}
        }
      } else {
        if CountPrimary(tail) == 1 {
          var i :| OnlyPrimary(tail, i);
          assert OnlyPrimary(s, i + 1);
        }
        forall i | OnlyPrimary(s, i) ensures OnlyPrimary(tail, i - 1) {}
      }
    }
  }

  /** The constructor accepts exactly the valid combinations and changes nothing in them. */
  lemma ConstructIffValid(origin: Origin, sources: seq<Source>)
    ensures Construct(origin, sources).Ok? <==> Valid(Provenance(origin, sources))
    ensures Construct(origin, sources).Ok? ==> Construct(origin, sources).value == Provenance(origin, sources)
  {
    if origin.Derived? && sources != [] {
      IdCount(sources);
      ScopeCount(sources);
      PrimaryCount(sources);
    }
  }

  /** The first check that fails gives the error. */
  lemma ConstructErrors(origin: Origin, sources: seq<Source>)
    ensures Construct(origin, sources) == Err(ManualHasSources) <==> origin.Manual? && sources != []
    ensures Construct(origin, sources) == Err(SourcesRequired) <==> origin.Derived? && sources == []
    ensures Construct(origin, sources) == Err(DuplicateMemoryId) <==>
      origin.Derived? && sources != [] && exists i, j :: 0 <= i < j < |sources| && sources[i].memoryId == sources[j].memoryId
    ensures Construct(origin, sources) == Err(ScopeMismatch) <==>
      && origin.Derived? && sources != [] && DistinctIds(sources)
      && exists i, j :: 0 <= i < |sources| && 0 <= j < |sources| && sources[i].scope != sources[j].scope
    ensures Construct(origin, sources) == Err(PrimaryRequired) <==>
      && origin.Derived? && sources != [] && DistinctIds(sources) && OneScope(sources) && forall i :: !OnlyPrimary(sources, i)
  {
    if origin.Derived? && sources != [] {
      IdCount(sources);
      ScopeCount(sources);
      PrimaryCount(sources);
    }
  }

  // Merging.

  lemma TailPrimary(s: seq<Source>)
    requires (exists i :: OnlyPrimary(s, i)) && s[0].role.Supporting?
    ensures exists i :: OnlyPrimary(s[1..], i)
  {
    var i :| OnlyPrimary(s, i);
    assert OnlyPrimary(s[1..], i - 1);
  }

  /** The identifier of the first primary source. */
  function PrimaryId(s: seq<Source>): int
    requires exists i :: OnlyPrimary(s, i)
  {
    if s[0].role.Primary? then s[0].memoryId
    else
      TailPrimary(s);
      PrimaryId(s[1..])
  }

  /** The source in the role it has below the primary source `primaryId`. */
  function Recast(x: Source, primaryId: int): Source {
    x.(role := if x.memoryId == primaryId then Primary else Supporting)
  }

  /** Assigning into the dictionary: in place when the identifier is known, at the end when it is not. */
  function Assign(s: seq<Source>, x: Source): seq<Source> {
    if s == [] then [x]
    else if s[0].memoryId == x.memoryId then [x] + s[1..]
    else [s[0]] + Assign(s[1..], x)
  }

  function AssignAll(s: seq<Source>, more: seq<Source>, primaryId: int): seq<Source> {
    if more == [] then s
    else Assign(AssignAll(s, more[..|more| - 1], primaryId), Recast(more[|more| - 1], primaryId))
  }

  /** The sort key: the primary first, then identifier and revision. */
  predicate Before(primaryId: int, x: Source, y: Source) {
    if (x.memoryId == primaryId) != (y.memoryId == primaryId) then x.memoryId == primaryId
    else x.memoryId < y.memoryId || (x.memoryId == y.memoryId && x.revision <= y.revision)
  }

  function Order(primaryId: int): (Source, Source) -> bool { (x, y) => Before(primaryId, x, y) }

  function MergedSources(a: seq<Source>, b: seq<Source>): seq<Source>
    requires exists i :: OnlyPrimary(a, i)
  {
    SortBy(AssignAll(a, b, PrimaryId(a)), Order(PrimaryId(a)))
  }

  function Merged(existing: Option<Provenance>, incoming: Provenance): Result
    requires existing.Some? ==> Valid(existing.value)
  {
    if existing.None? then Ok(incoming)
    else if existing.value.origin.Manual? || incoming.origin.Manual? then Construct(Manual, [])
    else Construct(Derived, MergedSources(existing.value.sources, incoming.sources))
  }

  method FindPrimary(s: seq<Source>) returns (id: int)
    requires exists i :: OnlyPrimary(s, i)
    ensures id == PrimaryId(s)
  {
    var i := 0;
    while !s[i].role.Primary?
      invariant 0 <= i < |s| && (exists k :: OnlyPrimary(s[i..], k)) && PrimaryId(s) == PrimaryId(s[i..])
      decreases |s| - i
    {
      assert s[i..][1..] == s[i + 1..];
      ghost var k :| OnlyPrimary(s[i..], k);
      assert OnlyPrimary(s[i + 1..], k - 1);
      i := i + 1;
    }
    id := s[i].memoryId;
  }

  method Merge(existing: Option<Provenance>, incoming: Provenance) returns (r: Result)
    requires existing.Some? ==> Valid(existing.value)
    ensures r == Merged(existing, incoming)
  {
    if existing.None? {
      return Ok(incoming);
    }
    if existing.value.origin.Manual? || incoming.origin.Manual? {
      return Construct(Manual, []);
    }
    var merged := existing.value.sources;
    var primaryId := FindPrimary(existing.value.sources);
    for i := 0 to |incoming.sources|
      invariant merged == AssignAll(existing.value.sources, incoming.sources[..i], primaryId)
    {
      assert incoming.sources[..i + 1][..i] == incoming.sources[..i];
      merged := Assign(merged, Recast(incoming.sources[i], primaryId));
    }
    assert incoming.sources[..|incoming.sources|] == incoming.sources;
    r := Construct(Derived, SortBy(merged, Order(primaryId)));
  }

  // What a merge holds.

  lemma {:induction false} PrimaryIdFacts(s: seq<Source>)
    requires DistinctIds(s) && exists i :: OnlyPrimary(s, i)
    ensures forall x :: x in s ==> (x.role.Primary? <==> x.memoryId == PrimaryId(s))
    ensures PrimaryId(s) in Ids(s)
    ensures forall i :: OnlyPrimary(s, i) ==> s[i].memoryId == PrimaryId(s)
  {
    var i :| OnlyPrimary(s, i);
    if i > 0 {
      assert OnlyPrimary(s[1..], i - 1);
      PrimaryIdFacts(s[1..]);
      assert s == [s[0]] + s[1..];
      assert s[1..][i - 1] == s[i];
    } else {
      assert s[0] in s;
    }
  }

  lemma {:induction false} AssignMembers(s: seq<Source>, x: Source)
    requires DistinctIds(s)
    ensures DistinctIds(Assign(s, x))
    ensures forall y :: y in Assign(s, x) <==> y == x || (y in s && y.memoryId != x.memoryId)
  {
    if s != [] {
      var tail := s[1..];
      assert s == [s[0]] + tail;
      AssignMembers(tail, x);
      forall y | y in tail ensures y.memoryId != s[0].memoryId {}
      if s[0].memoryId != x.memoryId {
        forall j | 0 <= j < |Assign(tail, x)| ensures Assign(tail, x)[j].memoryId != s[0].memoryId {
          assert Assign(tail, x)[j] in Assign(tail, x);
        }
      }
    }
  }

  /** `x` is a source of `more` in its new role, or one of `s` that `more` does not replace. */
  ghost predicate LatestWins(x: Source, s: seq<Source>, more: seq<Source>, primaryId: int) {
    || (exists y :: y in more && x == Recast(y, primaryId))
    || (x in s && x.memoryId !in Ids(more))
  }

  lemma {:induction false} AssignAllMembers(s: seq<Source>, more: seq<Source>, primaryId: int)
    requires DistinctIds(s) && DistinctIds(more)
    ensures DistinctIds(AssignAll(s, more, primaryId))
    ensures forall x :: x in AssignAll(s, more, primaryId) <==> LatestWins(x, s, more, primaryId)
  {
    if more != [] {
      var init, last := more[..|more| - 1], more[|more| - 1];
      assert more == init + [last];
      AssignAllMembers(s, init, primaryId);
      AssignMembers(AssignAll(s, init, primaryId), Recast(last, primaryId));
      forall y | y in init ensures y.memoryId != last.memoryId {}
      assert Ids(more) == Ids(init) + {last.memoryId};
    }
  }

  lemma DistinctFromMultiset(s: seq<Source>, t: seq<Source>)
    requires DistinctIds(s) && multiset(s) == multiset(t)
    ensures DistinctIds(t)
  {
    assert |multiset(s)| == |s| && |multiset(t)| == |t|;
    assert Ids(s) == Ids(t) by {
      assert forall x :: x in s <==> x in multiset(s);
      assert forall x :: x in t <==> x in multiset(t);
    }
    IdCount(s);
    IdCount(t);
  }

  /**
   The merged list: each source once, the latest one for every identifier, in the canonical order, and
   only the first operand's primary is primary.
   */
  lemma MergedMembers(a: seq<Source>, b: seq<Source>)
    requires DistinctIds(a) && DistinctIds(b) && exists i :: OnlyPrimary(a, i)
    ensures DistinctIds(MergedSources(a, b)) && Sorted(MergedSources(a, b), Order(PrimaryId(a)))
    ensures forall x :: x in MergedSources(a, b) <==> LatestWins(x, a, b, PrimaryId(a))
    ensures Ids(MergedSources(a, b)) == Ids(a) + Ids(b)
    ensures forall x :: x in MergedSources(a, b) ==> (x.role.Primary? <==> x.memoryId == PrimaryId(a))
  {
    var p := PrimaryId(a);
    AssignAllMembers(a, b, p);
    SortSorted(AssignAll(a, b, p), Order(p));
    SortPermutes(AssignAll(a, b, p), Order(p));
    DistinctFromMultiset(AssignAll(a, b, p), MergedSources(a, b));
    PrimaryIdFacts(a);
  }

  lemma UniquePrimaryIndex(s: seq<Source>, p: int)
    requires DistinctIds(s) && p in Ids(s) && forall x :: x in s ==> (x.role.Primary? <==> x.memoryId == p)
    ensures exists i :: OnlyPrimary(s, i)
    ensures PrimaryId(s) == p
  {
    var x :| x in s && x.memoryId == p;
    var i :| 0 <= i < |s| && s[i] == x;
    assert OnlyPrimary(s, i);
    PrimaryIdFacts(s);
  }

  // Main results.

  ghost predicate DerivedValid(p: Provenance) { p.origin.Derived? && Valid(p) }

  /** The merge succeeds: one scope, or every source of the first operand is replaced. */
  predicate Compatible(a: Provenance, b: Provenance)
    requires a.sources != [] && b.sources != []
  {
    a.sources[0].scope == b.sources[0].scope || Ids(a.sources) <= Ids(b.sources)
  }

  lemma MergedScope(a: Provenance, b: Provenance)
    requires DerivedValid(a) && DerivedValid(b)
    ensures OneScope(MergedSources(a.sources, b.sources)) <==> Compatible(a, b)
    ensures MergedSources(a.sources, b.sources) != []
    ensures Compatible(a, b) ==> MergedSources(a.sources, b.sources)[0].scope == b.sources[0].scope
  {
    var r, p := MergedSources(a.sources, b.sources), PrimaryId(a.sources);
    MergedMembers(a.sources, b.sources);
    assert b.sources[0] in b.sources;
    var known := Recast(b.sources[0], p);
    assert LatestWins(known, a.sources, b.sources, p);
    assert known in r;
    if Compatible(a, b) {
      forall x | x in r ensures x.scope == b.sources[0].scope {
        assert LatestWins(x, a.sources, b.sources, p);
        if x in a.sources && x.memoryId !in Ids(b.sources) {
          assert x.memoryId in Ids(a.sources);
        }
      }
    } else {
      var id :| id in Ids(a.sources) && id !in Ids(b.sources);
      var x :| x in a.sources && x.memoryId == id;
      assert LatestWins(x, a.sources, b.sources, p);
      assert x in r && x.scope != known.scope;
    }
  }

  /** A merge of two derived origins succeeds exactly when they are compatible, and what it then is. */
  lemma MergeDerived(a: Provenance, b: Provenance)
    requires DerivedValid(a) && DerivedValid(b)
    ensures Merged(Some(a), b) ==
      if Compatible(a, b) then Ok(Provenance(Derived, MergedSources(a.sources, b.sources))) else Err(ScopeMismatch)
    ensures Compatible(a, b) ==>
      var r := Provenance(Derived, MergedSources(a.sources, b.sources));
      && DerivedValid(r) && PrimaryId(r.sources) == PrimaryId(a.sources)
      && r.sources[0].scope == b.sources[0].scope && Ids(r.sources) == Ids(a.sources) + Ids(b.sources)
  {
    var s := MergedSources(a.sources, b.sources);
    MergedMembers(a.sources, b.sources);
    MergedScope(a, b);
    PrimaryIdFacts(a.sources);
    UniquePrimaryIndex(s, PrimaryId(a.sources));
    IdCount(s);
    ScopeCount(s);
    PrimaryCount(s);
  }

  /** The primary comes first, the others by rising identifier. */
  predicate Canonical(s: seq<Source>) {
    && s != [] && s[0].role.Primary?
    && (forall i :: 0 < i < |s| ==> s[i].role.Supporting?)
    && (forall i, j :: 1 <= i < j < |s| ==> s[i].memoryId < s[j].memoryId)
  }

  lemma MergedIsCanonical(a: seq<Source>, b: seq<Source>)
    requires DistinctIds(a) && DistinctIds(b) && exists i :: OnlyPrimary(a, i)
    ensures Canonical(MergedSources(a, b)) && MergedSources(a, b)[0].memoryId == PrimaryId(a)
  {
    var r, p := MergedSources(a, b), PrimaryId(a);
    MergedMembers(a, b);
    PrimaryIdFacts(a);
    assert p in Ids(r);
    forall i | 0 < i < |r| ensures r[i].memoryId != p {
      assert Order(p)(r[0], r[i]);
    }
    var x :| x in r && x.memoryId == p;
    assert r[0] == x;
    forall i, j | 1 <= i < j < |r| ensures r[i].memoryId < r[j].memoryId {
      assert Order(p)(r[i], r[j]);
      assert r[i].memoryId != r[0].memoryId && r[j].memoryId != r[0].memoryId;
    }
    forall i | 0 < i < |r| ensures r[i].role.Supporting? {
      assert r[i] in r && r[i].memoryId != r[0].memoryId;
    }
    assert r[0] in r;
  }

  /**
   What a successful merge of two derived origins is, said of their sources alone: it keeps the primary `p` of the
   first, takes every source of the second and those of the first that the second does not name, and lists them
   with the primary first and the others by rising identifier.
   */
  lemma MergeIsExactly(a: Provenance, b: Provenance, p: Source)
    requires DerivedValid(a) && DerivedValid(b) && p in a.sources && p.role.Primary?
    requires Merged(Some(a), b).Ok?
    ensures var r := Merged(Some(a), b).value;
      && r.origin.Derived? && Canonical(r.sources) && r.sources[0].memoryId == p.memoryId
      && (forall y :: y in b.sources ==> y.(role := if y.memoryId == p.memoryId then Primary else Supporting) in r.sources)
      && (forall x :: x in a.sources && (forall y :: y in b.sources ==> y.memoryId != x.memoryId) ==> x in r.sources)
      && (forall x :: x in r.sources ==>
            || (exists y :: y in b.sources && x == y.(role := x.role))
            || (x in a.sources && forall y :: y in b.sources ==> y.memoryId != x.memoryId))
  {
    MergeDerived(a, b);
    MergedIsCanonical(a.sources, b.sources);
    PrimaryIdFacts(a.sources);
    MergedMembers(a.sources, b.sources);
    var r := MergedSources(a.sources, b.sources);
    forall y | y in b.sources ensures y.(role := if y.memoryId == p.memoryId then Primary else Supporting) in r {
      assert LatestWins(Recast(y, p.memoryId), a.sources, b.sources, p.memoryId);
    }
    forall x | x in a.sources && (forall y :: y in b.sources ==> y.memoryId != x.memoryId) ensures x in r {
      assert LatestWins(x, a.sources, b.sources, p.memoryId);
    }
    forall x | x in r
      ensures (exists y :: y in b.sources && x == y.(role := x.role))
        || (x in a.sources && forall y :: y in b.sources ==> y.memoryId != x.memoryId)
    {
      assert LatestWins(x, a.sources, b.sources, p.memoryId);
    }
  }

  /** And when it fails: a source of the first that the second does not name lies in another scope. */
  lemma MergeFailsIff(a: Provenance, b: Provenance)
    requires DerivedValid(a) && DerivedValid(b)
    ensures Merged(Some(a), b).Err? <==>
      exists x :: x in a.sources && (forall y :: y in b.sources ==> y.memoryId != x.memoryId && y.scope != x.scope)
    ensures Merged(Some(a), b).Err? ==> Merged(Some(a), b) == Err(ScopeMismatch)
  {
    MergeDerived(a, b);
    assert a.sources[0] in a.sources && b.sources[0] in b.sources;
    if a.sources[0].scope != b.sources[0].scope && !(Ids(a.sources) <= Ids(b.sources)) {
      var id :| id in Ids(a.sources) && id !in Ids(b.sources);
      var x :| x in a.sources && x.memoryId == id;
      assert forall y :: y in b.sources ==> y.memoryId in Ids(b.sources) && y.scope == b.sources[0].scope;
      assert x.scope == a.sources[0].scope;
    }
    if x :| x in a.sources && (forall y :: y in b.sources ==> y.memoryId != x.memoryId && y.scope != x.scope) {
      assert x.memoryId in Ids(a.sources) && x.memoryId !in Ids(b.sources);
      assert x.scope == a.sources[0].scope;
    }
  }

  /** Without an existing origin the incoming one is taken, and a hand-made origin on either side gives the hand-made one. */
  lemma MergeWithoutSources(existing: Option<Provenance>, incoming: Provenance)
    requires existing.Some? ==> Valid(existing.value)
    ensures existing.None? ==> Merged(existing, incoming) == Ok(incoming)
    ensures existing.Some? && (existing.value.origin.Manual? || incoming.origin.Manual?) ==>
      Merged(existing, incoming) == Ok(Provenance(Manual, []))
  {}

  /** The result of a merge is valid, or the merge failed because two scopes met. */
  lemma MergeIsValid(existing: Option<Provenance>, incoming: Provenance)
    requires (existing.Some? ==> Valid(existing.value)) && Valid(incoming)
    ensures var r := Merged(existing, incoming);
      if r.Ok? then Valid(r.value)
      else existing.Some? && existing.value.origin.Derived? && incoming.origin.Derived?
           && !Compatible(existing.value, incoming) && r.error == ScopeMismatch
  {
    if existing.Some? && existing.value.origin.Derived? && incoming.origin.Derived? {
      MergeDerived(existing.value, incoming);
    }
  }

  /** Two lists in the same canonical order with the same sources are the same list. */
  lemma CanonicalUnique(s: seq<Source>, t: seq<Source>, primaryId: int)
    requires DistinctIds(s) && DistinctIds(t) && forall x :: x in s <==> x in t
    requires Sorted(s, Order(primaryId)) && Sorted(t, Order(primaryId))
    ensures s == t
  {
    SameElements(s, t);
    forall x, y | x in s && y in s && Order(primaryId)(x, y) && Order(primaryId)(y, x) ensures x == y {
      assert x.memoryId == y.memoryId;
      var i :| 0 <= i < |s| && s[i] == x;
      var j :| 0 <= j < |s| && s[j] == y;
    }
    SortedUnique(s, t, Order(primaryId));
  }

  lemma AssociativeMembers(a: seq<Source>, b: seq<Source>, c: seq<Source>, ab: seq<Source>, bc: seq<Source>, p: int, q: int, x: Source)
    requires forall y :: y in ab <==> LatestWins(y, a, b, p)
    requires forall y :: y in bc <==> LatestWins(y, b, c, q)
    requires Ids(bc) == Ids(b) + Ids(c)
    ensures LatestWins(x, ab, c, p) <==> LatestWins(x, a, bc, p)
  {
    if LatestWins(x, ab, c, p) {
      if y :| y in c && x == Recast(y, p) {
        assert LatestWins(Recast(y, q), b, c, q);
        assert Recast(y, q) in bc && x == Recast(Recast(y, q), p);
      } else {
        assert LatestWins(x, a, b, p);
        if y :| y in b && x == Recast(y, p) {
          assert LatestWins(y, b, c, q);
          assert y in bc;
        }
      }
    }
    if LatestWins(x, a, bc, p) {
      if y :| y in bc && x == Recast(y, p) {
        assert LatestWins(y, b, c, q);
        if z :| z in c && y == Recast(z, q) {
          assert x == Recast(z, p);
        } else {
          assert y in b && LatestWins(x, a, b, p);
          assert x in ab && x.memoryId !in Ids(c);
        }
      } else {
        assert LatestWins(x, a, b, p);
      }
    }
  }

  /** The two ways to merge three lists of sources give the same list. */
  lemma SourcesAssociate(a: seq<Source>, b: seq<Source>, c: seq<Source>)
    requires DistinctIds(a) && DistinctIds(b) && DistinctIds(c)
    requires (exists i :: OnlyPrimary(a, i)) && (exists i :: OnlyPrimary(b, i))
    requires (exists i :: OnlyPrimary(MergedSources(a, b), i)) && PrimaryId(MergedSources(a, b)) == PrimaryId(a)
    ensures MergedSources(MergedSources(a, b), c) == MergedSources(a, MergedSources(b, c))
  {
    var ab, bc, p := MergedSources(a, b), MergedSources(b, c), PrimaryId(a);
    MergedMembers(a, b);
    MergedMembers(b, c);
    MergedMembers(ab, c);
    MergedMembers(a, bc);
    forall x ensures x in MergedSources(ab, c) <==> x in MergedSources(a, bc) {
      AssociativeMembers(a, b, c, ab, bc, p, PrimaryId(b), x);
    }
    CanonicalUnique(MergedSources(ab, c), MergedSources(a, bc), p);
  }

  /** Merging on, where a failure stays a failure. */
  function Then(r: Result, next: Provenance): Result
    requires r.Ok? ==> Valid(r.value)
  {
    if r.Ok? then Merged(Some(r.value), next) else r
  }

  function Into(first: Provenance, r: Result): Result
    requires Valid(first)
  {
    if r.Ok? then Merged(Some(first), r.value) else r
  }

  /** The inputs on which the order of two merges matters: exactly one order runs into two scopes. */
  predicate OrderMatters(a: Provenance, b: Provenance, c: Provenance)
    requires (a.origin.Derived? ==> a.sources != []) && (b.origin.Derived? ==> b.sources != []) && (c.origin.Derived? ==> c.sources != [])
  {
    if b.origin.Manual? then false
    else if a.origin.Manual? then c.origin.Derived? && !Compatible(b, c)
    else if c.origin.Manual? then !Compatible(a, b)
    else
      && !Compatible(a, b) && Compatible(b, c)
      && (a.sources[0].scope == c.sources[0].scope || Ids(a.sources) <= Ids(b.sources) + Ids(c.sources))
  }

  /** The merge is associative exactly where the order does not matter. */
  lemma AssociativeIff(a: Provenance, b: Provenance, c: Provenance)
    requires Valid(a) && Valid(b) && Valid(c)
    ensures Merged(Some(a), b).Ok? ==> Valid(Merged(Some(a), b).value)
    ensures Then(Merged(Some(a), b), c) == Into(a, Merged(Some(b), c)) <==> !OrderMatters(a, b, c)
  {
    MergeIsValid(Some(a), b);
    MergeIsValid(Some(b), c);
    if a.origin.Derived? && b.origin.Derived? {
      MergeDerived(a, b);
    }
    if b.origin.Derived? && c.origin.Derived? {
      MergeDerived(b, c);
    }
    if a.origin.Derived? && b.origin.Derived? && c.origin.Derived? {
      AssociativeDerived(a, b, c);
    }
  }

  lemma AssociativeDerived(a: Provenance, b: Provenance, c: Provenance)
    requires DerivedValid(a) && DerivedValid(b) && DerivedValid(c)
    ensures Merged(Some(a), b).Ok? ==> Valid(Merged(Some(a), b).value)
    ensures Then(Merged(Some(a), b), c) == Into(a, Merged(Some(b), c)) <==> !OrderMatters(a, b, c)
  {
    MergeDerived(a, b);
    MergeDerived(b, c);
    var ab, bc := Merged(Some(a), b), Merged(Some(b), c);
    if ab.Ok? {
      MergeDerived(ab.value, c);
    }
    if bc.Ok? {
      MergeDerived(a, bc.value);
    }
    if ab.Ok? && bc.Ok? {
      SourcesAssociate(a.sources, b.sources, c.sources);
    }
  }

  function Single(id: int, scope: string): Provenance {
    Provenance(Derived, [Source(id, 0, scope, Public, 0, Primary)])
  }

  lemma SingleIsValid(id: int, scope: string)
    ensures DerivedValid(Single(id, scope)) && Ids(Single(id, scope).sources) == {id}
  {
    var s := Single(id, scope).sources;
    assert OnlyPrimary(s, 0);
    assert s[0] in s;
  }

  /** Three derived origins where merging from the left meets two scopes and merging from the right does not. */
  lemma AssociativityFails(a: Provenance, b: Provenance, c: Provenance, x: string, y: string)
    requires x != y && a == Single(1, x) && b == Single(2, y) && c == Single(1, y)
    ensures DerivedValid(a) && DerivedValid(b) && DerivedValid(c)
    ensures Merged(Some(a), b) == Err(ScopeMismatch) && Into(a, Merged(Some(b), c)).Ok?
  {
    SingleIsValid(1, x);
    SingleIsValid(2, y);
    SingleIsValid(1, y);
    assert 1 in Ids(a.sources) && 1 !in Ids(b.sources);
    MergeDerived(a, b);
    MergeDerived(b, c);
    MergeDerived(a, Merged(Some(b), c).value);
  }

  /** Over one scope the merge is associative. */
  lemma AssociativeInOneScope(a: Provenance, b: Provenance, c: Provenance, scope: string)
    requires Valid(a) && Valid(b) && Valid(c)
    requires forall p :: p in [a, b, c] && p.origin.Derived? ==> p.sources[0].scope == scope
    ensures Merged(Some(a), b).Ok? && Merged(Some(b), c).Ok?
    ensures Valid(Merged(Some(a), b).value)
    ensures Then(Merged(Some(a), b), c) == Into(a, Merged(Some(b), c))
    ensures Then(Merged(Some(a), b), c).Ok?
  {
    assert a in [a, b, c] && b in [a, b, c] && c in [a, b, c];
    AssociativeIff(a, b, c);
    MergeIsValid(Some(a), b);
    MergeIsValid(Some(b), c);
    var ab := Merged(Some(a), b).value;
    MergeIsValid(Some(ab), c);
    if a.origin.Derived? && b.origin.Derived? {
      MergeDerived(a, b);
    }
  }

  /** A hand-made origin absorbs every other, from either side. */
  lemma ManualAbsorbs(p: Provenance, existing: Option<Provenance>)
    requires existing.Some? ==> Valid(existing.value)
    ensures Merged(Some(HandMade), p) == Ok(HandMade)
    ensures existing.Some? ==> Merged(existing, HandMade) == Ok(HandMade)
  {}

  /** Merging an origin with itself only sorts its sources, and a second time changes nothing. */
  lemma IdempotentUpToOrder(a: Provenance)
    requires Valid(a)
    ensures Merged(Some(a), a).Ok?
    ensures var r := Merged(Some(a), a).value;
      && Valid(r) && multiset(r.sources) == multiset(a.sources)
      && Merged(Some(r), r) == Ok(r)
      && (a.origin.Derived? ==> Sorted(r.sources, Order(PrimaryId(a.sources))))
      && (a.origin.Derived? && Sorted(a.sources, Order(PrimaryId(a.sources))) ==> r == a)
  {
    if a.origin.Derived? {
      MergeDerived(a, a);
      var r := Merged(Some(a), a).value;
      SelfMerge(a);
      MergeDerived(r, r);
      SelfMerge(r);
      CanonicalUnique(r.sources, MergedSources(r.sources, r.sources), PrimaryId(a.sources));
      if Sorted(a.sources, Order(PrimaryId(a.sources))) {
        CanonicalUnique(r.sources, a.sources, PrimaryId(a.sources));
      }
    }
  }

  lemma SelfLatest(x: Source, s: seq<Source>, p: int)
    requires forall y :: y in s ==> (y.role.Primary? <==> y.memoryId == p)
    ensures LatestWins(x, s, s, p) <==> x in s
  {
    forall y | y in s ensures Recast(y, p) == y && y.memoryId in Ids(s) {}
  }

  lemma SelfMerge(a: Provenance)
    requires DerivedValid(a)
    ensures var r := MergedSources(a.sources, a.sources);
      && DistinctIds(r) && Sorted(r, Order(PrimaryId(a.sources)))
      && (forall x :: x in r <==> x in a.sources)
      && multiset(r) == multiset(a.sources)
  {
    var s, p := a.sources, PrimaryId(a.sources);
    var r := MergedSources(s, s);
    MergedMembers(s, s);
    PrimaryIdFacts(s);
    forall x ensures x in r <==> x in s {
      SelfLatest(x, s, p);
    }
    SameElements(r, s);
  }

  // Privacy.

  function Level(p: Privacy): nat { match p case Public => 0 case Shared => 1 case Confidential => 2 }

  /** `level` is the strictest level among the sources. */
  ghost predicate Strictest(s: seq<Source>, level: nat) {
    && (exists x :: x in s && Level(x.privacy) == level)
    && (forall x :: x in s ==> Level(x.privacy) <= level)
  }

  /** The strictest level is that of a confidential source, else that of a shared one, else public. */
  lemma StrictestIsExactly(s: seq<Source>, level: nat)
    requires s != []
    ensures Strictest(s, level) <==>
      level == if exists x :: x in s && x.privacy == Confidential then 2 else if exists x :: x in s && x.privacy == Shared then 1 else 0
  {
    assert s[0] in s;
  }

  /**
   A merge is at least as private as its second operand.  It is less private than the first exactly when
   the second replaces every source at the first's level and is itself below that level.
   */
  lemma PrivacyOfMerge(a: Provenance, b: Provenance, la: nat, lb: nat, lr: nat)
    requires DerivedValid(a) && DerivedValid(b)
    requires Strictest(a.sources, la) && Strictest(b.sources, lb) && Strictest(MergedSources(a.sources, b.sources), lr)
    ensures lb <= lr
    ensures lr < la <==> lb < la && forall x :: x in a.sources && Level(x.privacy) == la ==> x.memoryId in Ids(b.sources)
  {
    var r, p := MergedSources(a.sources, b.sources), PrimaryId(a.sources);
    MergedMembers(a.sources, b.sources);
    var y :| y in b.sources && Level(y.privacy) == lb;
    assert LatestWins(Recast(y, p), a.sources, b.sources, p);
    assert Recast(y, p) in r;
    var z :| z in r && Level(z.privacy) == lr;
    assert LatestWins(z, a.sources, b.sources, p);
    forall x | x in a.sources && Level(x.privacy) == la && x.memoryId !in Ids(b.sources) ensures la <= lr {
      assert LatestWins(x, a.sources, b.sources, p);
      assert x in r;
    }
  }
}

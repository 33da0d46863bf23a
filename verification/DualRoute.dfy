/**
 Joining the document, graph and atom routes: how atom evidence adds up per parent, how a query chooses
 the route weights, and the fused score.  Scores and weights are reals.
 */
module DualRoute {
  import opened Options
  import opened Sequences
  import opened Sets
  import opened Sorting

  function Min(a: real, b: real): real { if a <= b then a else b }

  function Max(a: real, b: real): real { if a >= b then a else b }

  function Clamp(low: real, high: real, x: real): real { Max(low, Min(high, x)) }

  // Atom evidence.

  datatype Atom = Atom(parentId: int, atomId: int, score: real)

  predicate Counts(a: Atom) { a.parentId > 0 && a.atomId > 0 }

  predicate Below(a: Atom, parent: int) { Counts(a) && a.parentId == parent }

  /** The clamped scores of the atoms below a parent, in their order. */
  function ScoresOf(atoms: seq<Atom>, parent: int): seq<real> {
    if atoms == [] then [] else ScoresOf(atoms[..|atoms| - 1], parent) + OwnScore(atoms[|atoms| - 1], parent)
  }

  function OwnScore(a: Atom, parent: int): seq<real> { if Below(a, parent) then [Clamp(0.0, 1.0, a.score)] else [] }

  function IdsOf(atoms: seq<Atom>, parent: int): seq<int> {
    if atoms == [] then [] else IdsOf(atoms[..|atoms| - 1], parent) + OwnId(atoms[|atoms| - 1], parent)
  }

  function OwnId(a: Atom, parent: int): seq<int> { if Below(a, parent) then [a.atomId] else [] }

  lemma SnocAtom(atoms: seq<Atom>, a: Atom, parent: int)
    ensures ScoresOf(atoms + [a], parent) == ScoresOf(atoms, parent) + OwnScore(a, parent)
    ensures IdsOf(atoms + [a], parent) == IdsOf(atoms, parent) + OwnId(a, parent)
  {
    assert (atoms + [a])[..|atoms|] == atoms;
  }

  function AtLeast(): (real, real) -> bool { (x, y) => x >= y }

  function Sum(s: seq<real>): real { if s == [] then 0.0 else s[0] + Sum(s[1..]) }

  /** The evidence of ranked scores: the best one, plus a twentieth of the others up to a limit. */
  function RankedEvidence(ranked: seq<real>): real
    requires ranked != []
  {
    Min(1.0, ranked[0] + Min(0.15, Sum(ranked[1..]) * 0.05))
  }

  function Evidence(scores: seq<real>): real
    requires scores != []
  {
    SortPermutes(scores, AtLeast());
    RankedEvidence(SortBy(scores, AtLeast()))
  }

  ghost predicate IsParent(atoms: seq<Atom>, parent: int) {
    exists a :: a in atoms && Below(a, parent)
  }

  lemma {:induction false} ParentScores(atoms: seq<Atom>, parent: int)
    ensures ScoresOf(atoms, parent) != [] <==> IsParent(atoms, parent)
    ensures |IdsOf(atoms, parent)| == |ScoresOf(atoms, parent)|
    ensures forall x :: x in ScoresOf(atoms, parent) ==> 0.0 <= x <= 1.0
  {
    if atoms != [] {
      var init, a := atoms[..|atoms| - 1], atoms[|atoms| - 1];
      ParentScores(init, parent);
      assert atoms == init + [a];
      if IsParent(init, parent) {
        var b :| b in init && Below(b, parent);
        assert b in atoms;
      }
    }
  }

  function Listed<T>(m: map<int, seq<T>>, p: int): seq<T> { if p in m then m[p] else [] }

  /** The grouping dictionaries after some of the atoms; `order` are their keys in order of insertion. */
  ghost predicate GroupedBy(atoms: seq<Atom>, scores: map<int, seq<real>>, ids: map<int, seq<int>>, order: seq<int>) {
    && (forall p :: p in order <==> p in scores) && (forall p :: p in ids <==> p in scores)
    && (forall p :: p in scores ==> scores[p] != [])
    && (forall p :: Listed(scores, p) == ScoresOf(atoms, p) && Listed(ids, p) == IdsOf(atoms, p))
  }

  /** Appending one atom to the lists of its parent. */
  method AddAtom(a: Atom, scores: map<int, seq<real>>, ids: map<int, seq<int>>, order: seq<int>)
    returns (scores': map<int, seq<real>>, ids': map<int, seq<int>>, order': seq<int>)
    requires (forall p :: p in order <==> p in scores) && (forall p :: p in ids <==> p in scores)
    requires forall p :: p in scores ==> scores[p] != []
    ensures (forall p :: p in order' <==> p in scores') && (forall p :: p in ids' <==> p in scores')
    ensures forall p :: p in scores' ==> scores'[p] != []
    ensures forall p :: Listed(scores', p) == Listed(scores, p) + OwnScore(a, p) && Listed(ids', p) == Listed(ids, p) + OwnId(a, p)
  {
    scores', ids', order' := scores, ids, order;
    if Counts(a) {
      if a.parentId !in scores {
        scores', ids', order' := scores[a.parentId := []], ids[a.parentId := []], order + [a.parentId];
      }
      scores' := scores'[a.parentId := scores'[a.parentId] + [Clamp(0.0, 1.0, a.score)]];
      ids' := ids'[a.parentId := ids'[a.parentId] + [a.atomId]];
    }
  }

  method GroupAtoms(atoms: seq<Atom>) returns (scores: map<int, seq<real>>, ids: map<int, seq<int>>, order: seq<int>)
    ensures GroupedBy(atoms, scores, ids, order)
  {
    scores, ids, order := map[], map[], [];
    for i := 0 to |atoms|
      invariant GroupedBy(atoms[..i], scores, ids, order)
    {
      ghost var scores0, ids0 := scores, ids;
      scores, ids, order := AddAtom(atoms[i], scores, ids, order);
      assert atoms[..i + 1] == atoms[..i] + [atoms[i]];
      forall p ensures Listed(scores, p) == ScoresOf(atoms[..i + 1], p) && Listed(ids, p) == IdsOf(atoms[..i + 1], p) {
        SnocAtom(atoms[..i], atoms[i], p);
        assert Listed(scores0, p) == ScoresOf(atoms[..i], p);
      }
    }
    assert atoms[..|atoms|] == atoms;
  }

  /** Ranks the scores of every parent. */
  method RankParents(scores: map<int, seq<real>>, order: seq<int>) returns (evidence: map<int, real>)
    requires forall p :: p in order ==> p in scores && scores[p] != []
    ensures forall p :: p in evidence <==> p in order
    ensures forall p :: p in order ==> evidence[p] == Evidence(scores[p])
  {
    evidence := map[];
    for i := 0 to |order|
      invariant forall p :: p in evidence <==> p in order[..i]
      invariant forall p :: p in evidence ==> p in order && evidence[p] == Evidence(scores[p])
    {
      var parent := order[i];
      assert parent in order;
      evidence := evidence[parent := Evidence(scores[parent])];
    }
    assert order[..|order|] == order;
  }

  /** The evidence and the atom identifiers of every parent that a counted atom names, and of no other. */
  method AggregateAtomEvidence(atoms: seq<Atom>) returns (evidence: map<int, real>, ids: map<int, seq<int>>)
    ensures forall p :: p in evidence <==> IsParent(atoms, p)
    ensures forall p :: p in ids <==> p in evidence
    ensures forall p :: p in evidence ==> ScoresOf(atoms, p) != [] && evidence[p] == Evidence(ScoresOf(atoms, p))
    ensures forall p :: p in ids ==> ids[p] == IdsOf(atoms, p)
  {
    var scores, idsByParent, order := GroupAtoms(atoms);
    ids := idsByParent;
    evidence := RankParents(scores, order);
    forall p ensures p in scores <==> IsParent(atoms, p) {
      ParentScores(atoms, p);
      assert Listed(scores, p) == ScoresOf(atoms, p);
    }
    forall p | p in ids ensures ids[p] == IdsOf(atoms, p) {
      assert Listed(ids, p) == IdsOf(atoms, p);
    }
    forall p | p in evidence ensures scores[p] == ScoresOf(atoms, p) {
      assert Listed(scores, p) == ScoresOf(atoms, p);
    }
  }

  // What evidence depends on.

  function Top(s: seq<real>): real
    requires s != []
  {
    if |s| == 1 then s[0] else Max(s[0], Top(s[1..]))
  }

  lemma {:induction false} TopFacts(s: seq<real>)
    requires s != []
    ensures Top(s) in s && forall x :: x in s ==> x <= Top(s)
  {
    assert s == [s[0]] + s[1..];
    if |s| > 1 {
      TopFacts(s[1..]);
    }
  }

  lemma {:induction false} InsertSum(x: real, s: seq<real>, le: (real, real) -> bool)
    ensures Sum(Insert(x, s, le)) == x + Sum(s)
  {
    if s != [] && !le(x, s[0]) {
      InsertSum(x, s[1..], le);
    }
  }

  lemma {:induction false} SortSum(s: seq<real>, le: (real, real) -> bool)
    ensures Sum(SortBy(s, le)) == Sum(s)
  {
    if s != [] {
      SortSum(s[1..], le);
      InsertSum(s[0], SortBy(s[1..], le), le);
    }
  }

  /** Evidence is the best score plus a twentieth of the rest of the sum, in any order. */
  lemma EvidenceFormula(s: seq<real>)
    requires s != []
    ensures Evidence(s) == Min(1.0, Top(s) + Min(0.15, (Sum(s) - Top(s)) * 0.05))
  {
    var ranked := SortBy(s, AtLeast());
    RankedTop(s);
    SortSum(s, AtLeast());
    assert Sum(ranked) == ranked[0] + Sum(ranked[1..]);
  }

  lemma RankedTop(s: seq<real>)
    requires s != []
    ensures SortBy(s, AtLeast()) != [] && SortBy(s, AtLeast())[0] == Top(s)
  {
    var ranked := SortBy(s, AtLeast());
    SortPermutes(s, AtLeast());
    SortSorted(s, AtLeast());
    FirstIsTop(s, ranked);
  }

  lemma FirstIsTop(s: seq<real>, ranked: seq<real>)
    requires s != [] && Sorted(ranked, AtLeast()) && forall x :: x in ranked <==> x in s
    ensures ranked != [] && ranked[0] == Top(s)
  {
    TopFacts(s);
    assert s[0] in ranked && ranked[0] in s;
    var i :| 0 <= i < |ranked| && ranked[i] == Top(s);
    assert i > 0 ==> AtLeast()(ranked[0], ranked[i]);
  }

  lemma EvidenceOrder(a: seq<real>, b: seq<real>)
    requires multiset(a) == multiset(b) && a != [] && b != []
    ensures Evidence(a) == Evidence(b)
  {
    SortPermutes(a, AtLeast());
    SortPermutes(b, AtLeast());
    SortSorted(a, AtLeast());
    SortSorted(b, AtLeast());
    SortedUnique(SortBy(a, AtLeast()), SortBy(b, AtLeast()), AtLeast());
  }

  lemma BothAppend(a: seq<real>, b: seq<real>, c: seq<real>, d: seq<real>)
    requires multiset(a) == multiset(b) + multiset(c)
    ensures multiset(a + d) == multiset(b + d) + multiset(c)
  {}

  lemma {:induction false} ScoresWithout(a: seq<Atom>, x: Atom, b: seq<Atom>, parent: int)
    ensures multiset(ScoresOf(a + [x] + b, parent)) == multiset(ScoresOf(a + b, parent)) + multiset(OwnScore(x, parent))
    decreases |b|
  {
    if b == [] {
      SnocAtom(a, x, parent);
      assert a + [x] + b == a + [x] && a + b == a;
    } else {
      var init, y := b[..|b| - 1], b[|b| - 1];
      assert b == init + [y];
      ScoresWithout(a, x, init, parent);
      OneMoreScore(a, x, init, y, parent);
    }
  }

  lemma OneMoreScore(a: seq<Atom>, x: Atom, b: seq<Atom>, y: Atom, parent: int)
    requires multiset(ScoresOf(a + [x] + b, parent)) == multiset(ScoresOf(a + b, parent)) + multiset(OwnScore(x, parent))
    ensures multiset(ScoresOf(a + [x] + (b + [y]), parent)) == multiset(ScoresOf(a + (b + [y]), parent)) + multiset(OwnScore(x, parent))
  {
    SnocAtom(a + [x] + b, y, parent);
    SnocAtom(a + b, y, parent);
    BothAppend(ScoresOf(a + [x] + b, parent), ScoresOf(a + b, parent), OwnScore(x, parent), OwnScore(y, parent));
    Reassociate(a + [x], b, [y]);
    Reassociate(a, b, [y]);
  }

  lemma Reassociate(a: seq<Atom>, b: seq<Atom>, c: seq<Atom>)
    ensures a + (b + c) == a + b + c
  {}

  lemma {:induction false} ScoresOrder(a: seq<Atom>, b: seq<Atom>, parent: int)
    requires multiset(a) == multiset(b)
    ensures multiset(ScoresOf(a, parent)) == multiset(ScoresOf(b, parent))
    decreases |a|
  {
    if a == [] {
      assert |multiset(b)| == 0;
    } else {
      var j := FindLast(a, b);
      ScoresOrder(a[..|a| - 1], b[..j] + b[j + 1..], parent);
      ScoresWithout(b[..j], b[j], b[j + 1..], parent);
    }
  }

  /** The evidence of a parent does not depend on the order in which its atoms were found. */
  lemma EvidenceIgnoresOrder(a: seq<Atom>, b: seq<Atom>, parent: int)
    requires multiset(a) == multiset(b) && IsParent(a, parent)
    ensures ScoresOf(a, parent) != [] && ScoresOf(b, parent) != []
    ensures Evidence(ScoresOf(a, parent)) == Evidence(ScoresOf(b, parent))
  {
    ParentScores(a, parent);
    ScoresOrder(a, b, parent);
    assert |multiset(ScoresOf(a, parent))| == |multiset(ScoresOf(b, parent))|;
    EvidenceOrder(ScoresOf(a, parent), ScoresOf(b, parent));
  }

  lemma {:induction false} SumAtLeastTop(s: seq<real>)
    requires s != [] && forall x :: x in s ==> 0.0 <= x
    ensures 0.0 <= Top(s) <= Sum(s)
  {
    assert s == [s[0]] + s[1..] && s[0] in s;
    if |s| > 1 {
      assert forall x :: x in s[1..] ==> x in s;
      SumAtLeastTop(s[1..]);
    }
  }

  /** Evidence lies between the best score and that score plus 0.15, and within [0, 1]. */
  lemma EvidenceRange(atoms: seq<Atom>, parent: int)
    requires IsParent(atoms, parent)
    ensures ScoresOf(atoms, parent) != []
    ensures var s := ScoresOf(atoms, parent);
      0.0 <= Top(s) <= Evidence(s) <= 1.0 && Evidence(s) <= Top(s) + 0.15
  {
    ParentScores(atoms, parent);
    var s := ScoresOf(atoms, parent);
    EvidenceFormula(s);
    SumAtLeastTop(s);
    TopFacts(s);
    FormulaRange(Top(s), Sum(s));
  }

  lemma FormulaRange(top: real, sum: real)
    requires 0.0 <= top <= 1.0 && top <= sum
    ensures var e := Min(1.0, top + Min(0.15, (sum - top) * 0.05)); top <= e <= 1.0 && e <= top + 0.15
  {}

  lemma FormulaGrows(top: real, sum: real, top': real, sum': real)
    requires top <= top' && sum - top <= sum' - top'
    ensures Min(1.0, top + Min(0.15, (sum - top) * 0.05)) <= Min(1.0, top' + Min(0.15, (sum' - top') * 0.05))
  {}

  lemma {:induction false} SumSplit(a: seq<real>, x: real, b: seq<real>)
    ensures Sum(a + [x] + b) == Sum(a + b) + x
  {
    if a == [] {
      assert a + [x] + b == [x] + b && a + b == b;
    } else {
      SumSplit(a[1..], x, b);
      assert (a + [x] + b)[1..] == a[1..] + [x] + b && (a + b)[1..] == a[1..] + b;
    }
  }

  /** Another atom never lowers the evidence. */
  lemma MoreScoresMoreEvidence(s: seq<real>, x: real)
    requires s != [] && 0.0 <= x && forall y :: y in s ==> 0.0 <= y
    ensures Evidence(s) <= Evidence(s + [x])
  {
    var t := s + [x];
    EvidenceFormula(s);
    EvidenceFormula(t);
    SumSplit(s, x, []);
    assert s + [x] + [] == t && s + [] == s;
    TopFacts(s);
    TopFacts(t);
    assert Top(s) in t && (Top(t) in s || Top(t) == x) && x in t;
    FormulaGrows(Top(s), Sum(s), Top(t), Sum(t));
  }

  /** A higher score never lowers the evidence. */
  lemma HigherScoreMoreEvidence(a: seq<real>, x: real, b: seq<real>, y: real)
    requires 0.0 <= x <= y
    ensures Evidence(a + [x] + b) <= Evidence(a + [y] + b)
  {
    var s, t := a + [x] + b, a + [y] + b;
    EvidenceFormula(s);
    EvidenceFormula(t);
    SumSplit(a, x, b);
    SumSplit(a, y, b);
    TopGrows(a, x, b, y);
    FormulaGrows(Top(s), Sum(s), Top(t), Sum(t));
  }

  lemma TopGrows(a: seq<real>, x: real, b: seq<real>, y: real)
    requires x <= y
    ensures Top(a + [x] + b) <= Top(a + [y] + b) <= Top(a + [x] + b) + (y - x)
  {
    var s, t := a + [x] + b, a + [y] + b;
    TopFacts(s);
    TopFacts(t);
    assert forall k :: 0 <= k < |s| ==> s[k] <= t[k] <= s[k] + (y - x);
    var i :| 0 <= i < |s| && s[i] == Top(s);
    var j :| 0 <= j < |t| && t[j] == Top(t);
    assert t[i] in t && s[j] in s;
  }

  /** Raising the score of one atom never lowers the evidence of any parent. */
  lemma RaisedAtomKeepsEvidence(before: seq<Atom>, a: Atom, after: seq<Atom>, score: real, parent: int)
    requires a.score <= score && IsParent(before + [a] + after, parent)
    ensures ScoresOf(before + [a] + after, parent) != [] && ScoresOf(before + [a.(score := score)] + after, parent) != []
    ensures Evidence(ScoresOf(before + [a] + after, parent)) <= Evidence(ScoresOf(before + [a.(score := score)] + after, parent))
  {
    ParentScores(before + [a] + after, parent);
    ScoresAround(before, a, after, parent);
    ScoresAround(before, a.(score := score), after, parent);
    if Below(a, parent) {
      HigherScoreMoreEvidence(ScoresOf(before, parent), Clamp(0.0, 1.0, a.score), ScoresOf(after, parent), Clamp(0.0, 1.0, score));
    }
  }

  lemma ScoresAround(before: seq<Atom>, a: Atom, after: seq<Atom>, parent: int)
    ensures ScoresOf(before + [a] + after, parent) == ScoresOf(before, parent) + OwnScore(a, parent) + ScoresOf(after, parent)
  {
    ScoresConcat(before + [a], after, parent);
    SnocAtom(before, a, parent);
  }

  lemma {:induction false} ScoresConcat(a: seq<Atom>, b: seq<Atom>, parent: int)
    ensures ScoresOf(a + b, parent) == ScoresOf(a, parent) + ScoresOf(b, parent)
    decreases |b|
  {
    if b == [] {
      assert a + b == a;
    } else {
      ScoresConcat(a, b[..|b| - 1], parent);
      OneMoreConcat(a, b[..|b| - 1], b[|b| - 1], parent);
      SnocWhole(b);
    }
  }

  lemma SnocWhole(b: seq<Atom>)
    requires b != []
    ensures b[..|b| - 1] + [b[|b| - 1]] == b
  {}

  lemma OneMoreConcat(a: seq<Atom>, b: seq<Atom>, y: Atom, parent: int)
    requires ScoresOf(a + b, parent) == ScoresOf(a, parent) + ScoresOf(b, parent)
    ensures ScoresOf(a + (b + [y]), parent) == ScoresOf(a, parent) + ScoresOf(b + [y], parent)
  {
    SnocAtom(a + b, y, parent);
    SnocAtom(b, y, parent);
    Reassociate(a, b, [y]);
  }

  /** One more counted atom never lowers the evidence of its parent. */
  lemma AddedAtomKeepsEvidence(atoms: seq<Atom>, a: Atom)
    requires Counts(a) && IsParent(atoms, a.parentId)
    ensures ScoresOf(atoms, a.parentId) != [] && ScoresOf(atoms + [a], a.parentId) != []
    ensures Evidence(ScoresOf(atoms, a.parentId)) <= Evidence(ScoresOf(atoms + [a], a.parentId))
  {
    ParentScores(atoms, a.parentId);
    SnocAtom(atoms, a, a.parentId);
    MoreScoresMoreEvidence(ScoresOf(atoms, a.parentId), Clamp(0.0, 1.0, a.score));
  }

  /** The scores and identifiers of a parent, one atom at a time: only positive identifiers count, and scores are cut to [0, 1]. */
  lemma AtomsAreExactly(atoms: seq<Atom>, a: Atom, parent: int)
    ensures ScoresOf([], parent) == [] && IdsOf([], parent) == []
    ensures a.parentId == parent && parent > 0 && a.atomId > 0 ==>
      && ScoresOf(atoms + [a], parent) == ScoresOf(atoms, parent) + [if a.score < 0.0 then 0.0 else if a.score > 1.0 then 1.0 else a.score]
      && IdsOf(atoms + [a], parent) == IdsOf(atoms, parent) + [a.atomId]
    ensures a.parentId != parent || parent <= 0 || a.atomId <= 0 ==>
      ScoresOf(atoms + [a], parent) == ScoresOf(atoms, parent) && IdsOf(atoms + [a], parent) == IdsOf(atoms, parent)
  {
    SnocAtom(atoms, a, parent);
  }

  /** The evidence of scores whose best is `best` and whose others sum up to `others`. */
  lemma EvidenceIsExactly(a: seq<real>, best: real, b: seq<real>, others: real)
    requires (forall x :: x in a || x in b ==> x <= best) && others == Sum(a + b)
    ensures var more := if others * 0.05 < 0.15 then others * 0.05 else 0.15;
      Evidence(a + [best] + b) == if best + more < 1.0 then best + more else 1.0
  {
    var s := a + [best] + b;
    EvidenceFormula(s);
    SumSplit(a, best, b);
    TopFacts(s);
    assert s[|a|] == best;
    var k :| 0 <= k < |s| && s[k] == Top(s);
    assert k < |a| ==> Top(s) == a[k] && a[k] in a;
    assert k > |a| ==> Top(s) == b[k - |a| - 1] && b[k - |a| - 1] in b;
    assert best in s && Top(s) == best;
  }

  lemma SumLaws(x: real, s: seq<real>)
    ensures Sum([]) == 0.0 && Sum([x] + s) == x + Sum(s)
  {
    assert ([x] + s)[1..] == s;
  }

  // Route weights.

  datatype Intent = Intent(relation: bool, temporal: bool, factual: bool)

  function DocumentShift(i: Intent): real {
    (if i.relation then -0.2 else 0.0) + (if i.temporal then -0.1 else 0.0) + (if i.factual && !i.relation then 0.15 else 0.0)
  }

  function Share(x: real, y: real): real
    requires x + y != 0.0
  {
    x / (x + y)
  }

  lemma SignOfProduct(z: real, m: real)
    requires m > 0.0
    ensures z * m >= 0.0 <==> z >= 0.0
  {
    if z < 0.0 {
      assert z * m < 0.0;
    }
  }

  /** Comparing quotients by cross multiplication. */
  lemma QuotientOrder(a: real, b: real, c: real, d: real)
    requires b > 0.0 && d > 0.0 && a * d <= c * b
    ensures a / b <= c / d
  {
    var p, q := a / b, c / d;
    assert p * b == a && q * d == c;
    assert (q - p) * (b * d) == q * d * b - p * b * d;
    SignOfProduct(q - p, b * d);
  }

  lemma ShareFacts(x: real, y: real, low: real, high: real)
    requires 0.0 < x && 0.0 < y && low * (x + y) <= x <= high * (x + y)
    ensures low <= Share(x, y) <= high
    ensures Share(x, y) + Share(y, x) == 1.0
  {
    QuotientOrder(low, 1.0, x, x + y);
    QuotientOrder(x, x + y, high, 1.0);
    SharesSum(Share(x, y), Share(y, x), x, y);
  }

  lemma SharesSum(p: real, q: real, x: real, y: real)
    requires x + y > 0.0 && p == x / (x + y) && q == y / (x + y)
    ensures p + q == 1.0
  {
    var total := x + y;
    assert p * total == x && q * total == y;
    assert (p + q - 1.0) * total == 0.0;
    SignOfProduct(p + q - 1.0, total);
    SignOfProduct(1.0 - p - q, total);
  }

  lemma KeywordShares(document: real, graph: real)
    requires 0.15 <= document <= 0.9 && 0.1 <= graph <= 0.85
    ensures 0.15 <= Share(document, graph) <= 0.9 && 0.1 <= Share(graph, document) <= 0.85
    ensures Share(document, graph) + Share(graph, document) == 1.0
  {
    ShareFacts(document, graph, 0.15, 0.9);
    ShareFacts(graph, document, 0.1, 0.85);
  }

  /** The weights chosen by keywords: whatever the base weights, they sum to one and stay in their ranges. */
  method KeywordWeights(baseDocument: real, baseGraph: real, i: Intent) returns (document: real, graph: real)
    ensures document + graph == 1.0
    ensures 0.15 <= document <= 0.9 && 0.1 <= graph <= 0.85
    ensures document == Share(Clamp(0.15, 0.9, baseDocument + DocumentShift(i)), Clamp(0.1, 0.85, baseGraph - DocumentShift(i)))
  {
    document, graph := baseDocument, baseGraph;
    if i.relation {
      graph := graph + 0.2;
      document := document - 0.2;
    }
    if i.temporal {
      graph := graph + 0.1;
      document := document - 0.1;
    }
    if i.factual && !i.relation {
      document := document + 0.15;
      graph := graph - 0.15;
    }
    assert document == baseDocument + DocumentShift(i) && graph == baseGraph - DocumentShift(i);
    document := Clamp(0.15, 0.9, document);
    graph := Clamp(0.1, 0.85, graph);
    KeywordShares(document, graph);
    document, graph := Share(document, graph), Share(graph, document);
  }

  lemma ShareGrows(x: real, y: real, x': real, y': real)
    requires 0.0 < x <= x' && 0.0 < y' <= y
    ensures Share(x, y) <= Share(x', y')
  {
    CrossProducts(x, y, x', y');
    QuotientOrder(x, x + y, x', x' + y');
  }

  lemma CrossProducts(x: real, y: real, x': real, y': real)
    requires 0.0 < x <= x' && 0.0 < y' <= y
    ensures x * (x' + y') <= x' * (x + y)
  {
    assert x * y' <= x' * y';
    assert x' * y' <= x' * y;
    assert x * (x' + y') == x * x' + x * y';
    assert x' * (x + y) == x' * x + x' * y;
  }

  /** How far the words of a query shift the weights. */
  lemma ShiftIsExactly(i: Intent)
    ensures DocumentShift(i) ==
      if i.relation && i.temporal then -0.3
      else if i.relation then -0.2
      else if i.temporal && i.factual then 0.05
      else if i.temporal then -0.1
      else if i.factual then 0.15 else 0.0
  {}

  /** A share is the part of the sum, and a cut value the nearest one within the limits. */
  lemma ShareIsExactly(x: real, y: real, low: real, high: real)
    requires x + y != 0.0 && low <= high
    ensures Share(x, y) * (x + y) == x
    ensures Clamp(low, high, x) == if x < low then low else if x > high then high else x
  {}

  /** A query with a smaller shift towards documents never gets a larger document weight. */
  lemma ShiftIsMonotone(baseDocument: real, baseGraph: real, i: Intent, j: Intent)
    requires DocumentShift(i) <= DocumentShift(j)
    ensures Share(Clamp(0.15, 0.9, baseDocument + DocumentShift(i)), Clamp(0.1, 0.85, baseGraph - DocumentShift(i)))
         <= Share(Clamp(0.15, 0.9, baseDocument + DocumentShift(j)), Clamp(0.1, 0.85, baseGraph - DocumentShift(j)))
  {
    ShareGrows(
      Clamp(0.15, 0.9, baseDocument + DocumentShift(i)), Clamp(0.1, 0.85, baseGraph - DocumentShift(i)),
      Clamp(0.15, 0.9, baseDocument + DocumentShift(j)), Clamp(0.1, 0.85, baseGraph - DocumentShift(j)));
  }

  // Fusion.

  /** A hit of one route; `complete` says that it carries content and metadata. */
  datatype Hit = Hit(docId: int, score: real, complete: bool)

  datatype Query = Query(documents: seq<Hit>, graphs: seq<Hit>, atoms: seq<Hit>, loadable: set<int>,
                         documentWeight: real, graphWeight: real, atomRouteWeight: real, bonus: real)

  datatype Fused = Fused(docId: int, score: real)

  /** The hit a dictionary keeps for an identifier: the last one. */
  function HitOf(hits: seq<Hit>, id: int): Option<Hit> {
    if hits == [] then None
    else if hits[|hits| - 1].docId == id then Some(hits[|hits| - 1])
    else HitOf(hits[..|hits| - 1], id)
  }

  function MaxScore(hits: seq<Hit>): real
    requires hits != []
  {
    if |hits| == 1 then hits[0].score else Max(MaxScore(hits[..|hits| - 1]), hits[|hits| - 1].score)
  }

  /** The largest score, or one when there is none or it is zero. */
  function Divisor(hits: seq<Hit>): (r: real)
    ensures r != 0.0
  {
    if hits == [] || MaxScore(hits) == 0.0 then 1.0 else MaxScore(hits)
  }

  function Signal(hits: seq<Hit>, id: int): real {
    if HitOf(hits, id).Some? then HitOf(hits, id).value.score / Divisor(hits) else 0.0
  }

  function AtomWeight(q: Query): real { if q.atoms != [] then Clamp(0.0, 0.5, q.atomRouteWeight) else 0.0 }

  function RouteBonus(q: Query, id: int): real {
    if HitOf(q.documents, id).Some? && HitOf(q.graphs, id).Some? then q.bonus else 0.0
  }

  function Times(w: real, s: real): real { w * s }

  function WeightedSum(wd: real, wg: real, wa: real, sd: real, sg: real, sa: real, bonus: real): real {
    Times(wd, sd) + Times(wg, sg) + Times(wa, sa) + bonus
  }

  function Scaled(q: Query, w: real): real { Times(w, 1.0 - AtomWeight(q)) }

  function RawScore(q: Query, id: int): real {
    WeightedSum(Scaled(q, q.documentWeight), Scaled(q, q.graphWeight), AtomWeight(q),
                Signal(q.documents, id), Signal(q.graphs, id), Signal(q.atoms, id), RouteBonus(q, id))
  }

  function Score(q: Query, id: int): real { Min(1.0, RawScore(q, id)) }

  predicate Found(q: Query, id: int) {
    HitOf(q.documents, id).Some? || HitOf(q.graphs, id).Some? || HitOf(q.atoms, id).Some?
  }

  /** Content and metadata come with the document hit or can be loaded. */
  predicate Available(q: Query, id: int) {
    (HitOf(q.documents, id).Some? && HitOf(q.documents, id).value.complete) || id in q.loadable
  }

  predicate RankBefore(x: Fused, y: Fused) { x.score > y.score || (x.score == y.score && x.docId <= y.docId) }

  function Ranking(): (Fused, Fused) -> bool { (x, y) => RankBefore(x, y) }

  /** Every found and available identifier once, with its score, by falling score and rising identifier. */
  ghost predicate IsMerge(q: Query, r: seq<Fused>) {
    && (forall i, j :: 0 <= i < j < |r| ==> r[i].docId != r[j].docId)
    && (forall x :: x in r <==> Found(q, x.docId) && Available(q, x.docId) && x.score == Score(q, x.docId))
    && Sorted(r, Ranking())
  }

  function IdsIn(hits: seq<Hit>): set<int> { set h | h in hits :: h.docId }

  lemma {:induction false} HitOfFacts(hits: seq<Hit>, id: int)
    ensures HitOf(hits, id).Some? <==> id in IdsIn(hits)
    ensures HitOf(hits, id).Some? ==> HitOf(hits, id).value in hits
  {
    if hits != [] {
      var init, last := hits[..|hits| - 1], hits[|hits| - 1];
      HitOfFacts(init, id);
      assert hits == init + [last];
      assert IdsIn(hits) == IdsIn(init) + {last.docId};
    }
  }

  /** Fuses the candidates in whatever order a set of identifiers is enumerated. */
  method MergeDualResults(q: Query) returns (r: seq<Fused>)
    ensures IsMerge(q, r)
  {
    var ids := IdsIn(q.documents) + IdsIn(q.graphs) + IdsIn(q.atoms);
    forall id ensures id in ids <==> Found(q, id) {
      HitOfFacts(q.documents, id);
      HitOfFacts(q.graphs, id);
      HitOfFacts(q.atoms, id);
    }
    var left, merged: seq<Fused> := ids, [];
    while left != {}
      invariant left <= ids
      invariant forall i, j :: 0 <= i < j < |merged| ==> merged[i].docId != merged[j].docId
      invariant forall x :: x in merged <==> x.docId in ids && x.docId !in left && Available(q, x.docId) && x.score == Score(q, x.docId)
      decreases left
    {
      SomeMember(left);
      var id :| id in left;
      left := left - {id};
      if Available(q, id) {
        forall i | 0 <= i < |merged| ensures merged[i].docId != id {
          assert merged[i] in merged;
        }
        merged := merged + [Fused(id, Score(q, id))];
      }
    }
    r := SortBy(merged, Ranking());
    SortPermutes(merged, Ranking());
    SortSorted(merged, Ranking());
    PermutedDistinct(merged, r);
    forall i, j | 0 <= i < j < |r| ensures r[i].docId != r[j].docId {
      assert r[i] in merged && r[j] in merged;
    }
  }

  /** The merge is determined by its inputs: the order in which identifiers are enumerated does not show. */
  lemma MergeIsUnique(q: Query, r: seq<Fused>, t: seq<Fused>)
    requires IsMerge(q, r) && IsMerge(q, t)
    ensures r == t
  {
    SameElements(r, t);
    SortedUnique(r, t, Ranking());
  }

  // The fused score.

  predicate NonNegative(hits: seq<Hit>) { forall i :: 0 <= i < |hits| ==> hits[i].score >= 0.0 }

  predicate Sane(q: Query) {
    && NonNegative(q.documents) && NonNegative(q.graphs) && NonNegative(q.atoms)
    && q.documentWeight >= 0.0 && q.graphWeight >= 0.0 && q.bonus >= 0.0
  }

  lemma {:induction false} MaxScoreFacts(hits: seq<Hit>)
    requires hits != []
    ensures forall h :: h in hits ==> h.score <= MaxScore(hits)
    ensures exists h :: h in hits && h.score == MaxScore(hits)
  {
    var init, last := hits[..|hits| - 1], hits[|hits| - 1];
    assert hits == init + [last];
    if |hits| > 1 {
      MaxScoreFacts(init);
      var h :| h in init && h.score == MaxScore(init);
      assert h in hits && last in hits;
    } else {
      assert hits[0] in hits;
    }
  }

  lemma SignalRange(hits: seq<Hit>, id: int)
    requires NonNegative(hits)
    ensures 0.0 <= Signal(hits, id) <= 1.0
  {
    HitOfFacts(hits, id);
    if HitOf(hits, id).Some? {
      var h, d := HitOf(hits, id).value, Divisor(hits);
      MaxScoreFacts(hits);
      assert 0.0 <= h.score <= MaxScore(hits);
      QuotientRange(h.score, d);
    }
  }

  lemma QuotientRange(x: real, d: real)
    requires 0.0 <= x <= d && d > 0.0
    ensures 0.0 <= x / d <= 1.0
  {
    QuotientOrder(0.0, 1.0, x, d);
    QuotientOrder(x, d, 1.0, 1.0);
  }

  lemma ScaledWeights(q: Query)
    requires Sane(q)
    ensures Scaled(q, q.documentWeight) >= 0.0 && Scaled(q, q.graphWeight) >= 0.0 && 0.0 <= AtomWeight(q) <= 0.5
    ensures Scaled(q, q.documentWeight) + Scaled(q, q.graphWeight) == Scaled(q, q.documentWeight + q.graphWeight)
  {
    ProductRange(q.documentWeight, 1.0 - AtomWeight(q));
    ProductRange(q.graphWeight, 1.0 - AtomWeight(q));
    Distribute(q.documentWeight, q.graphWeight, 1.0 - AtomWeight(q));
  }

  lemma Distribute(a: real, b: real, s: real)
    ensures Times(a, s) + Times(b, s) == Times(a + b, s)
  {}

  lemma ProductRange(w: real, s: real)
    requires w >= 0.0 && 0.0 <= s <= 1.0
    ensures 0.0 <= Times(w, s) <= w
  {}

  lemma ProductGrows(w: real, s: real, t: real)
    requires w >= 0.0 && s <= t
    ensures Times(w, s) <= Times(w, t)
  {}

  lemma WeightedSumRange(wd: real, wg: real, wa: real, sd: real, sg: real, sa: real, bonus: real)
    requires wd >= 0.0 && wg >= 0.0 && wa >= 0.0 && bonus >= 0.0
    requires 0.0 <= sd <= 1.0 && 0.0 <= sg <= 1.0 && 0.0 <= sa <= 1.0
    ensures 0.0 <= WeightedSum(wd, wg, wa, sd, sg, sa, bonus) <= wd + wg + wa + bonus
  {
    ProductRange(wd, sd);
    ProductRange(wg, sg);
    ProductRange(wa, sa);
  }

  lemma WeightedSumGrows(wd: real, wg: real, wa: real, sd: real, sg: real, sa: real, b: real, td: real, tg: real, ta: real, c: real)
    requires wd >= 0.0 && wg >= 0.0 && wa >= 0.0 && sd <= td && sg <= tg && sa <= ta && b <= c
    ensures WeightedSum(wd, wg, wa, sd, sg, sa, b) <= WeightedSum(wd, wg, wa, td, tg, ta, c)
  {
    ProductGrows(wd, sd, td);
    ProductGrows(wg, sg, tg);
    ProductGrows(wa, sa, ta);
  }

  lemma RawRange(q: Query, id: int)
    requires Sane(q)
    ensures 0.0 <= RawScore(q, id) <= Scaled(q, q.documentWeight) + Scaled(q, q.graphWeight) + AtomWeight(q) + RouteBonus(q, id)
  {
    SignalRange(q.documents, id);
    SignalRange(q.graphs, id);
    SignalRange(q.atoms, id);
    ScaledWeights(q);
    WeightedSumRange(Scaled(q, q.documentWeight), Scaled(q, q.graphWeight), AtomWeight(q),
                     Signal(q.documents, id), Signal(q.graphs, id), Signal(q.atoms, id), RouteBonus(q, id));
  }

  /** With non-negative route scores, weights and bonus every fused score lies in [0, 1]. */
  lemma ScoreRange(q: Query, id: int)
    requires Sane(q)
    ensures 0.0 <= Score(q, id) <= 1.0
  {
    RawRange(q, id);
  }

  /** With weights that sum to one, only the cross-route bonus can reach beyond one. */
  lemma OnlyBonusIsCut(q: Query, id: int)
    requires Sane(q) && q.documentWeight + q.graphWeight == 1.0
    ensures RawScore(q, id) <= 1.0 + RouteBonus(q, id)
    ensures RouteBonus(q, id) == 0.0 ==> Score(q, id) == RawScore(q, id)
  {
    RawRange(q, id);
    ScaledWeights(q);
  }

  /** A document that is at least as good on every route, with at least the bonus, scores at least as high. */
  lemma DominanceInScore(q: Query, a: int, b: int)
    requires Sane(q)
    requires Signal(q.documents, b) <= Signal(q.documents, a) && Signal(q.graphs, b) <= Signal(q.graphs, a)
    requires Signal(q.atoms, b) <= Signal(q.atoms, a) && RouteBonus(q, b) <= RouteBonus(q, a)
    ensures Score(q, b) <= Score(q, a)
  {
    ScaledWeights(q);
    WeightedSumGrows(Scaled(q, q.documentWeight), Scaled(q, q.graphWeight), AtomWeight(q),
                     Signal(q.documents, b), Signal(q.graphs, b), Signal(q.atoms, b), RouteBonus(q, b),
                     Signal(q.documents, a), Signal(q.graphs, a), Signal(q.atoms, a), RouteBonus(q, a));
  }

  // What a merge says.

  /** `h` is the last hit for the identifier. */
  ghost predicate IsLastHit(hits: seq<Hit>, id: int, h: Hit) { exists i: nat :: IsLastAt(hits, id, h, i) }

  predicate IsLastAt(hits: seq<Hit>, id: int, h: Hit, i: nat) {
    i < |hits| && hits[i] == h && h.docId == id && forall j :: i < j < |hits| ==> hits[j].docId != id
  }

  lemma {:induction false} HitOfIsLast(hits: seq<Hit>, id: int)
    ensures HitOf(hits, id).Some? ==> IsLastHit(hits, id, HitOf(hits, id).value)
    ensures HitOf(hits, id).None? ==> forall h :: h in hits ==> h.docId != id
  {
    if hits != [] {
      var init, last := hits[..|hits| - 1], hits[|hits| - 1];
      HitOfIsLast(init, id);
      if last.docId == id {
        assert IsLastAt(hits, id, last, |init|);
      } else if HitOf(init, id).Some? {
        var i: nat :| IsLastAt(init, id, HitOf(init, id).value, i);
        assert IsLastAt(hits, id, HitOf(init, id).value, i);
      } else {
        assert hits == init + [last];
      }
    }
  }

  ghost predicate IsLargest(hits: seq<Hit>, m: real) {
    (exists h :: h in hits && h.score == m) && forall h :: h in hits ==> h.score <= m
  }

  /** The signal of a route: the score of the document's last hit over the route's largest one, unless that is zero. */
  lemma SignalIsExactly(hits: seq<Hit>, id: int, h: Hit, m: real)
    requires IsLargest(hits, m)
    ensures (forall x :: x in hits ==> x.docId != id) ==> Signal(hits, id) == 0.0
    ensures IsLastHit(hits, id, h) && m != 0.0 ==> Signal(hits, id) * m == h.score
    ensures IsLastHit(hits, id, h) && m == 0.0 ==> Signal(hits, id) == h.score
  {
    HitOfIsLast(hits, id);
    MaxScoreFacts(hits);
    var x :| x in hits && x.score == m;
    assert MaxScore(hits) == m;
    if HitOf(hits, id).Some? {
      assert HitOf(hits, id).value in hits;
    }
    if IsLastHit(hits, id, h) {
      assert h in hits;
      LastHitUnique(hits, id, h, HitOf(hits, id).value);
      QuotientTimes(h.score, m);
    }
  }

  lemma LastHitUnique(hits: seq<Hit>, id: int, g: Hit, h: Hit)
    requires IsLastHit(hits, id, g) && IsLastHit(hits, id, h)
    ensures g == h
  {
    var i: nat, j: nat :| IsLastAt(hits, id, g, i) && IsLastAt(hits, id, h, j);
    assert i == j;
  }

  lemma QuotientTimes(x: real, d: real)
    ensures d != 0.0 ==> x / d * d == x
    ensures x / 1.0 == x
  {}

  /** The fused score from the three signals: the atom weight is cut to [0, 0.5] and taken from the other two. */
  lemma ScoreIsExactly(q: Query, id: int, w: real, bonus: real)
    requires w == if q.atoms == [] || q.atomRouteWeight < 0.0 then 0.0 else if q.atomRouteWeight > 0.5 then 0.5 else q.atomRouteWeight
    requires bonus == if (exists h :: h in q.documents && h.docId == id) && (exists h :: h in q.graphs && h.docId == id) then q.bonus else 0.0
    ensures var raw := Times(1.0 - w, BothRoutes(q, id)) + Times(w, Signal(q.atoms, id)) + bonus;
      Score(q, id) == if raw < 1.0 then raw else 1.0
  {
    HitInList(q.documents, id);
    HitInList(q.graphs, id);
    AtomShare(q, id);
  }

  lemma ProductsAreExactly(q: Query, id: int, w: real, x: real)
    ensures BothRoutes(q, id) == q.documentWeight * Signal(q.documents, id) + q.graphWeight * Signal(q.graphs, id)
    ensures Times(w, x) == w * x
  {}

  lemma HitInList(hits: seq<Hit>, id: int)
    ensures HitOf(hits, id).Some? <==> exists h :: h in hits && h.docId == id
  {
    HitOfIsLast(hits, id);
    if HitOf(hits, id).Some? {
      assert HitOf(hits, id).value in hits;
    }
  }

  /** Which documents a merge lists, with which score and in which order. */
  lemma MergeIsExactly(q: Query, r: seq<Fused>, i: nat, j: nat, id: int)
    requires IsMerge(q, r) && i < j < |r|
    ensures r[i].score >= r[j].score && (r[i].score == r[j].score ==> r[i].docId < r[j].docId)
    ensures r[i].score == Score(q, r[i].docId) && r[j].score == Score(q, r[j].docId)
    ensures (exists x :: x in r && x.docId == id) <==>
      && (exists h: Hit :: h.docId == id && (h in q.documents || h in q.graphs || h in q.atoms))
      && (id in q.loadable || exists h: Hit :: IsLastHit(q.documents, id, h) && h.complete)
  {
    assert Ranking()(r[i], r[j]);
    assert r[i] in r && r[j] in r;
    HitInList(q.documents, id);
    HitInList(q.graphs, id);
    HitInList(q.atoms, id);
    HitOfIsLast(q.documents, id);
    if Found(q, id) && Available(q, id) {
      assert Fused(id, Score(q, id)) in r;
    }
  }

  // What the weights cannot change.

  lemma QuotientKeepsOrder(x: real, y: real, d: real)
    requires d > 0.0
    ensures x / d <= y / d <==> x <= y
  {
    var p, q := x / d, y / d;
    assert p * d == x && q * d == y;
    assert (q - p) * d == y - x;
    SignOfProduct(q - p, d);
  }

  lemma ProductKeepsOrder(w: real, s: real, t: real)
    requires w > 0.0
    ensures Times(w, s) <= Times(w, t) <==> s <= t
  {
    SignOfProduct(t - s, w);
    Difference(w, s, t);
  }

  lemma Difference(w: real, s: real, t: real)
    ensures (t - s) * w == Times(w, t) - Times(w, s)
  {}

  /** Dividing by the largest score keeps the order of a route's own scores. */
  lemma SignalKeepsOrder(hits: seq<Hit>, a: int, b: int)
    requires NonNegative(hits) && HitOf(hits, a).Some? && HitOf(hits, b).Some?
    ensures Signal(hits, a) <= Signal(hits, b) <==> HitOf(hits, a).value.score <= HitOf(hits, b).value.score
  {
    HitOfFacts(hits, a);
    MaxScoreFacts(hits);
    QuotientKeepsOrder(HitOf(hits, a).value.score, HitOf(hits, b).value.score, Divisor(hits));
  }

  /**
   When only the document route finds anything, the fused order is that route's own, for every positive weight of
   at most one: neither the normalization nor the cut at one merges or reverses two scores.
   */
  lemma DocumentRouteKeepsOrder(q: Query, a: int, b: int)
    requires Sane(q) && q.graphs == [] && q.atoms == [] && 0.0 < q.documentWeight <= 1.0
    requires HitOf(q.documents, a).Some? && HitOf(q.documents, b).Some?
    ensures Score(q, a) <= Score(q, b) <==> HitOf(q.documents, a).value.score <= HitOf(q.documents, b).value.score
  {
    SignalRange(q.documents, a);
    SignalRange(q.documents, b);
    OneRoute(q, a);
    OneRoute(q, b);
    ProductKeepsOrder(q.documentWeight, Signal(q.documents, a), Signal(q.documents, b));
    SignalKeepsOrder(q.documents, a, b);
  }

  lemma OneRoute(q: Query, id: int)
    requires q.graphs == [] && q.atoms == [] && 0.0 <= q.documentWeight <= 1.0 && 0.0 <= Signal(q.documents, id) <= 1.0
    ensures Score(q, id) == Times(q.documentWeight, Signal(q.documents, id))
  {
    ProductRange(q.documentWeight, Signal(q.documents, id));
  }

  /**
   Between two documents with the same atom signal and the same bonus, the atom route and its weight never
   change the order that the other two routes give them.
   */
  lemma AtomsKeepOrder(q: Query, a: int, b: int)
    requires Signal(q.atoms, a) == Signal(q.atoms, b) && RouteBonus(q, a) == RouteBonus(q, b)
    ensures RawScore(q, a) <= RawScore(q, b) <==> RawScore(q.(atoms := []), a) <= RawScore(q.(atoms := []), b)
  {
    AtomShare(q, a);
    AtomShare(q, b);
    ProductKeepsOrder(1.0 - AtomWeight(q), BothRoutes(q, a), BothRoutes(q, b));
  }

  /** What the document and the graph route give together. */
  function BothRoutes(q: Query, id: int): real {
    Times(q.documentWeight, Signal(q.documents, id)) + Times(q.graphWeight, Signal(q.graphs, id))
  }

  /** The weight of the atom route is taken from the other two in proportion. */
  lemma AtomShare(q: Query, id: int)
    ensures RawScore(q, id) == Times(1.0 - AtomWeight(q), BothRoutes(q, id)) + Times(AtomWeight(q), Signal(q.atoms, id)) + RouteBonus(q, id)
    ensures RawScore(q.(atoms := []), id) == BothRoutes(q, id) + RouteBonus(q, id)
  {
    var scale, sd, sg := 1.0 - AtomWeight(q), Signal(q.documents, id), Signal(q.graphs, id);
    ScaledProduct(q.documentWeight, scale, sd);
    ScaledProduct(q.graphWeight, scale, sg);
    DistributeOver(scale, Times(q.documentWeight, sd), Times(q.graphWeight, sg));
  }

  lemma ScaledProduct(w: real, scale: real, s: real)
    ensures Times(Times(w, scale), s) == Times(scale, Times(w, s))
  {}

  lemma DistributeOver(scale: real, a: real, b: real)
    ensures Times(scale, a + b) == Times(scale, a) + Times(scale, b)
  {}
}

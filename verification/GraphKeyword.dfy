/**
 Merging the hits of the five graph routes into one result per source memory.

 A hit counts under its own source boundary, or under the boundary of the request when it has none.
 The merge fails closed: as soon as two boundaries meet, the document is dropped for good.  Which
 documents survive, with which boundary and distance, depends only on which hits there are; the score
 also depends on their order, and only its bounds do not.
 */
module GraphKeyword {
  import opened Options
  import opened Sequences
  import opened Sorting

  type Boundary = int
  datatype Source = Keyword | Neighbor | Hierarchy | EdgeNeighbor | SecondHop

  datatype Hit = Hit(docId: int, boundary: Option<Boundary>, score: real, content: int)

  /** A hit with what the loop that merges it adds. */
  datatype Tagged = Tagged(hit: Hit, weight: real, source: Source, distance: Option<nat>)

  datatype GraphResult = GraphResult(docId: int, score: real, content: int, sources: seq<Source>,
                                     distance: Option<nat>, boundary: Boundary)

  /** The dictionary of results, its keys in insertion order, and the documents dropped for good. */
  datatype Merge = Merge(aggregated: map<int, GraphResult>, order: seq<int>, conflicted: set<int>)

  const Empty := Merge(map[], [], {})

  function Drop(s: seq<int>, d: int): seq<int> {
    if s == [] then [] else if s[0] == d then Drop(s[1..], d) else [s[0]] + Drop(s[1..], d)
  }

  function Clamp01(x: real): (r: real)
    ensures 0.0 <= r <= 1.0
  {
    if x < 0.0 then 0.0 else if x > 1.0 then 1.0 else x
  }

  function Weighted(t: Tagged): real { Clamp01(t.hit.score * t.weight) }

  function Effective(t: Tagged, request: Option<Boundary>): Option<Boundary> {
    if t.hit.boundary.Some? then t.hit.boundary else request
  }

  function MinKnown(a: Option<nat>, b: Option<nat>): Option<nat> {
    if a.None? then b else if b.None? then a else Some(if b.value < a.value then b.value else a.value)
  }

  /** One hit merged into the running state. */
  function MergeHit(m: Merge, t: Tagged, request: Option<Boundary>): Merge {
    var d, b := t.hit.docId, Effective(t, request);
    if d in m.conflicted || b.None? then m
    else if d in m.aggregated && m.aggregated[d].boundary != b.value then
      Merge(m.aggregated - {d}, Drop(m.order, d), m.conflicted + {d})
    else if d !in m.aggregated then
      m.(aggregated := m.aggregated[d := GraphResult(d, Weighted(t), t.hit.content, [t.source], t.distance, b.value)],
         order := m.order + [d])
    else
      var c := m.aggregated[d];
      var distance := MinKnown(c.distance, t.distance);
      if Weighted(t) > c.score then
        m.(aggregated := m.aggregated[d := GraphResult(d, Weighted(t), t.hit.content, [t.source], distance, b.value)])
      else
        var raised := c.score + Weighted(t) * 0.35;
        m.(aggregated := m.aggregated[d := c.(distance := distance, sources := c.sources + [t.source],
                                               score := if raised < 1.0 then raised else 1.0)])
  }

  function MergeAll(hits: seq<Tagged>, request: Option<Boundary>): Merge {
    if hits == [] then Empty else MergeHit(MergeAll(hits[..|hits| - 1], request), hits[|hits| - 1], request)
  }

  // What the hits say about a document, whatever their order.

  predicate Accepted(t: Tagged, d: int, request: Option<Boundary>) {
    t.hit.docId == d && Effective(t, request).Some?
  }

  ghost function Boundaries(hits: seq<Tagged>, d: int, request: Option<Boundary>): set<Boundary> {
    set t | t in hits && Accepted(t, d, request) :: Effective(t, request).value
  }

  /** The smallest known distance of the accepted hits. */
  ghost predicate IsMinDistance(hits: seq<Tagged>, d: int, request: Option<Boundary>, o: Option<nat>) {
    && (forall t :: t in hits && Accepted(t, d, request) && t.distance.Some? ==> o.Some? && o.value <= t.distance.value)
    && (o.Some? ==> exists t :: t in hits && Accepted(t, d, request) && t.distance == o)
  }

  /** The largest weighted score of the accepted hits. */
  ghost predicate IsMaxWeighted(hits: seq<Tagged>, d: int, request: Option<Boundary>, x: real) {
    && (forall t :: t in hits && Accepted(t, d, request) ==> Weighted(t) <= x)
    && (exists t :: t in hits && Accepted(t, d, request) && Weighted(t) == x)
  }

  function SumWeighted(hits: seq<Tagged>, d: int, request: Option<Boundary>): real {
    if hits == [] then 0.0
    else SumWeighted(hits[..|hits| - 1], d, request)
         + (if Accepted(hits[|hits| - 1], d, request) then Weighted(hits[|hits| - 1]) else 0.0)
  }

  function Upper(max: real, sum: real): real {
    var u := max + 0.35 * (sum - max);
    if u < 1.0 then u else 1.0
  }

  /** What the state says about one document. */
  ghost predicate DocOk(m: Merge, hits: seq<Tagged>, d: int, request: Option<Boundary>) {
    var bs := Boundaries(hits, d, request);
    && (d in m.aggregated ==> m.aggregated[d].docId == d && bs == {m.aggregated[d].boundary})
    && (d in m.conflicted ==> exists x, y :: x in bs && y in bs && x != y)
    && (d !in m.aggregated && d !in m.conflicted ==> bs == {})
    && !(d in m.aggregated && d in m.conflicted)
    && (d in m.aggregated ==> IsMinDistance(hits, d, request, m.aggregated[d].distance))
  }

  lemma BoundariesSnoc(hits: seq<Tagged>, t: Tagged, d: int, request: Option<Boundary>)
    ensures Boundaries(hits + [t], d, request) ==
      Boundaries(hits, d, request) + (if Accepted(t, d, request) then {Effective(t, request).value} else {})
  {
    forall b | b in Boundaries(hits, d, request) ensures b in Boundaries(hits + [t], d, request) {
      var u :| u in hits && Accepted(u, d, request) && Effective(u, request).value == b;
      assert u in hits + [t];
    }
    if Accepted(t, d, request) {
      assert t in hits + [t];
    }
  }

  lemma MergeHitDoc(m: Merge, hits: seq<Tagged>, t: Tagged, d: int, request: Option<Boundary>)
    requires DocOk(m, hits, d, request)
    ensures DocOk(MergeHit(m, t, request), hits + [t], d, request)
  {
    BoundariesSnoc(hits, t, d, request);
    if Accepted(t, d, request) {
      if d in m.aggregated {
        if m.aggregated[d].boundary != Effective(t, request).value {
          assert m.aggregated[d].boundary in Boundaries(hits + [t], d, request);
          assert Effective(t, request).value in Boundaries(hits + [t], d, request);
        }
      } else if d !in m.conflicted {
        NoneAccepted(hits, d, request);
      }
    }
  }

  lemma NoneAccepted(hits: seq<Tagged>, d: int, request: Option<Boundary>)
    requires Boundaries(hits, d, request) == {}
    ensures forall t :: t in hits ==> !Accepted(t, d, request)
    ensures IsMinDistance(hits, d, request, None)
  {
    forall t | t in hits && Accepted(t, d, request)
      ensures Effective(t, request).value in Boundaries(hits, d, request)
    {}
  }

  lemma {:induction false} MergeAllDoc(hits: seq<Tagged>, d: int, request: Option<Boundary>)
    ensures DocOk(MergeAll(hits, request), hits, d, request)
  {
    if hits == [] {
      assert Boundaries([], d, request) == {};
    } else {
      var init := hits[..|hits| - 1];
      MergeAllDoc(init, d, request);
      MergeHitDoc(MergeAll(init, request), init, hits[|hits| - 1], d, request);
      assert hits == init + [hits[|hits| - 1]];
    }
  }

  /** A document survives exactly when its effective boundaries are one; it then carries that boundary. */
  lemma SurvivesIffOneBoundary(hits: seq<Tagged>, d: int, request: Option<Boundary>)
    ensures d in MergeAll(hits, request).aggregated <==> exists b :: Boundaries(hits, d, request) == {b}
    ensures d in MergeAll(hits, request).aggregated ==>
      && Boundaries(hits, d, request) == {MergeAll(hits, request).aggregated[d].boundary}
      && IsMinDistance(hits, d, request, MergeAll(hits, request).aggregated[d].distance)
  {
    MergeAllDoc(hits, d, request);
    var m := MergeAll(hits, request);
    if b :| Boundaries(hits, d, request) == {b} {
      assert b in Boundaries(hits, d, request);
      assert forall x, y :: x in Boundaries(hits, d, request) && y in Boundaries(hits, d, request) ==> x == y;
    }
  }

  /** Survival, boundary and distance do not depend on the order of the hits. */
  lemma OrderDoesNotMatter(hits: seq<Tagged>, permuted: seq<Tagged>, d: int, request: Option<Boundary>)
    requires multiset(hits) == multiset(permuted)
    ensures var m, n := MergeAll(hits, request).aggregated, MergeAll(permuted, request).aggregated;
      && (d in m <==> d in n)
      && (d in m ==> m[d].boundary == n[d].boundary && m[d].distance == n[d].distance)
  {
    SameMembers(hits, permuted);
    assert Boundaries(hits, d, request) == Boundaries(permuted, d, request);
    SurvivesIffOneBoundary(hits, d, request);
    SurvivesIffOneBoundary(permuted, d, request);
    var m, n := MergeAll(hits, request).aggregated, MergeAll(permuted, request).aggregated;
    if d in m {
      assert m[d].boundary in {n[d].boundary};
      MinDistanceUnique(hits, permuted, d, request, m[d].distance, n[d].distance);
    }
  }

  lemma SameMembers<T>(a: seq<T>, b: seq<T>)
    requires multiset(a) == multiset(b)
    ensures forall x :: x in a <==> x in b
  {
    forall x ensures x in a <==> x in b {
      assert x in a <==> x in multiset(a);
      assert x in b <==> x in multiset(b);
    }
  }

  lemma MinDistanceUnique(a: seq<Tagged>, b: seq<Tagged>, d: int, request: Option<Boundary>, o: Option<nat>, p: Option<nat>)
    requires forall x :: x in a <==> x in b
    requires IsMinDistance(a, d, request, o) && IsMinDistance(b, d, request, p)
    ensures o == p
  {}

  // The score.

  ghost predicate ScoreOk(hits: seq<Tagged>, d: int, request: Option<Boundary>, score: real) {
    exists max :: IsMaxWeighted(hits, d, request, max) && max <= score <= Upper(max, SumWeighted(hits, d, request))
      && max <= SumWeighted(hits, d, request)
  }

  lemma MaxWeightedSnoc(hits: seq<Tagged>, t: Tagged, d: int, request: Option<Boundary>, x: real)
    requires IsMaxWeighted(hits, d, request, x)
    ensures IsMaxWeighted(hits + [t], d, request, if Accepted(t, d, request) && Weighted(t) > x then Weighted(t) else x)
  {
    var u :| u in hits && Accepted(u, d, request) && Weighted(u) == x;
    assert u in hits + [t] && t in hits + [t];
  }

  lemma FirstScore(hits: seq<Tagged>, t: Tagged, d: int, request: Option<Boundary>)
    requires Accepted(t, d, request) && forall u :: u in hits ==> !Accepted(u, d, request)
    ensures ScoreOk(hits + [t], d, request, Weighted(t))
  {
    NoSum(hits, d, request);
    assert (hits + [t])[..|hits|] == hits;
    assert t in hits + [t];
    assert IsMaxWeighted(hits + [t], d, request, Weighted(t));
  }

  lemma {:induction false} NoSum(hits: seq<Tagged>, d: int, request: Option<Boundary>)
    requires forall u :: u in hits ==> !Accepted(u, d, request)
    ensures SumWeighted(hits, d, request) == 0.0
  {
    if hits != [] {
      assert hits[|hits| - 1] in hits;
      NoSum(hits[..|hits| - 1], d, request);
    }
  }

  lemma NextScore(hits: seq<Tagged>, t: Tagged, d: int, request: Option<Boundary>, score: real)
    requires Accepted(t, d, request) && ScoreOk(hits, d, request, score)
    ensures ScoreOk(hits + [t], d, request,
      if Weighted(t) > score then Weighted(t)
      else if score + Weighted(t) * 0.35 < 1.0 then score + Weighted(t) * 0.35 else 1.0)
  {
    var max :| IsMaxWeighted(hits, d, request, max) && max <= score <= Upper(max, SumWeighted(hits, d, request))
      && max <= SumWeighted(hits, d, request);
    MaxWeightedSnoc(hits, t, d, request, max);
    assert (hits + [t])[..|hits|] == hits;
  }

  lemma MergedState(hits: seq<Tagged>, d: int, request: Option<Boundary>)
    ensures var m := MergeAll(hits, request);
      && !(d in m.aggregated && d in m.conflicted)
      && (d !in m.aggregated && d !in m.conflicted ==> forall t :: t in hits ==> !Accepted(t, d, request))
  {
    MergeAllDoc(hits, d, request);
    if Boundaries(hits, d, request) == {} {
      NoneAccepted(hits, d, request);
    }
  }

  lemma SameScore(hits: seq<Tagged>, t: Tagged, d: int, request: Option<Boundary>, score: real)
    requires !Accepted(t, d, request) && ScoreOk(hits, d, request, score)
    ensures ScoreOk(hits + [t], d, request, score)
  {
    var max :| IsMaxWeighted(hits, d, request, max) && max <= score <= Upper(max, SumWeighted(hits, d, request))
      && max <= SumWeighted(hits, d, request);
    MaxWeightedSnoc(hits, t, d, request, max);
    assert (hits + [t])[..|hits|] == hits;
  }

  /** Merging one hit into a state that is right about the document's score. */
  lemma MergeHitScore(m: Merge, hits: seq<Tagged>, t: Tagged, d: int, request: Option<Boundary>)
    requires !(d in m.aggregated && d in m.conflicted)
    requires d !in m.aggregated && d !in m.conflicted ==> forall u :: u in hits ==> !Accepted(u, d, request)
    requires d in m.aggregated ==> ScoreOk(hits, d, request, m.aggregated[d].score)
    ensures var n := MergeHit(m, t, request);
      d in n.aggregated ==> ScoreOk(hits + [t], d, request, n.aggregated[d].score)
  {
    if !Accepted(t, d, request) {
      if d in m.aggregated {
        SameScore(hits, t, d, request, m.aggregated[d].score);
      }
    } else if d in m.aggregated {
      NextScore(hits, t, d, request, m.aggregated[d].score);
    } else if d !in m.conflicted {
      FirstScore(hits, t, d, request);
    }
  }

  lemma {:induction false} MergeAllScore(hits: seq<Tagged>, d: int, request: Option<Boundary>)
    ensures d in MergeAll(hits, request).aggregated ==>
      ScoreOk(hits, d, request, MergeAll(hits, request).aggregated[d].score)
  {
    if hits != [] {
      var init, t := hits[..|hits| - 1], hits[|hits| - 1];
      MergeAllScore(init, d, request);
      MergedState(init, d, request);
      MergeHitScore(MergeAll(init, request), init, t, d, request);
      assert hits == init + [t];
    }
  }

  /** Whatever the order, a score lies between the best hit and the best hit plus 0.35 of the others, up to one. */
  lemma ScoreBounds(hits: seq<Tagged>, d: int, request: Option<Boundary>, max: real)
    requires d in MergeAll(hits, request).aggregated && IsMaxWeighted(hits, d, request, max)
    ensures max <= MergeAll(hits, request).aggregated[d].score <= Upper(max, SumWeighted(hits, d, request)) <= 1.0
  {
    MergeAllScore(hits, d, request);
  }

  /** The score itself does depend on the order: the weaker hit first is forgotten, second it adds a bonus. */
  lemma ScoreDependsOnOrder()
    ensures var strong, weak := Tagged(Hit(1, Some(7), 0.5, 0), 1.0, Keyword, Some(0)),
                                Tagged(Hit(1, Some(7), 0.4, 0), 1.0, Neighbor, Some(0));
      var m, n := MergeAll([strong, weak], None).aggregated, MergeAll([weak, strong], None).aggregated;
      1 in m && 1 in n && m[1].score == 0.64 && n[1].score == 0.5
  {
    var strong, weak := Tagged(Hit(1, Some(7), 0.5, 0), 1.0, Keyword, Some(0)),
                        Tagged(Hit(1, Some(7), 0.4, 0), 1.0, Neighbor, Some(0));
    assert [strong, weak][..1] == [strong] && [weak, strong][..1] == [weak];
    assert [strong][..0] == [] && [weak][..0] == [];
    assert Weighted(strong) == 0.5 && Weighted(weak) == 0.4;
    assert MergeAll([strong], None) == Merge(map[1 := GraphResult(1, 0.5, 0, [Keyword], Some(0), 7)], [1], {});
    assert MergeAll([weak], None) == Merge(map[1 := GraphResult(1, 0.4, 0, [Neighbor], Some(0), 7)], [1], {});
  }

  // When the order of the hits shows in the score.

  /** The weighted scores of the accepted hits, in their order. */
  function Weights(hits: seq<Tagged>, d: int, request: Option<Boundary>): seq<real> {
    if hits == [] then []
    else Weights(hits[..|hits| - 1], d, request) + OwnWeight(hits[|hits| - 1], d, request)
  }

  function OwnWeight(t: Tagged, d: int, request: Option<Boundary>): seq<real> {
    if Accepted(t, d, request) then [Weighted(t)] else []
  }

  function Raise(score: real, w: real): real {
    if w > score then w else if score + w * 0.35 < 1.0 then score + w * 0.35 else 1.0
  }

  /** The score that the weights make in their order. */
  function Fold(ws: seq<real>): real
    requires ws != []
  {
    if |ws| == 1 then ws[0] else Raise(Fold(ws[..|ws| - 1]), ws[|ws| - 1])
  }

  function Top(ws: seq<real>): real
    requires ws != []
  {
    if |ws| == 1 then ws[0]
    else if ws[|ws| - 1] > Top(ws[..|ws| - 1]) then ws[|ws| - 1] else Top(ws[..|ws| - 1])
  }

  function Total(ws: seq<real>): real { if ws == [] then 0.0 else Total(ws[..|ws| - 1]) + ws[|ws| - 1] }

  /** The first weight above zero, or zero. */
  function FirstPositive(ws: seq<real>): real {
    if ws == [] then 0.0
    else if FirstPositive(ws[..|ws| - 1]) > 0.0 then FirstPositive(ws[..|ws| - 1]) else ws[|ws| - 1]
  }

  /** The best weight plus 0.35 of the others, without the cap. */
  function Uncapped(max: real, sum: real): real { max + 0.35 * (sum - max) }

  predicate InUnit(ws: seq<real>) { forall i :: 0 <= i < |ws| ==> 0.0 <= ws[i] <= 1.0 }

  lemma TotalSnoc(ws: seq<real>, w: real)
    ensures Total(ws + [w]) == Total(ws) + w
  {
    assert (ws + [w])[..|ws|] == ws;
  }

  lemma FoldSnoc(ws: seq<real>, w: real)
    ensures Fold(ws + [w]) == if ws == [] then w else Raise(Fold(ws), w)
  {
    assert (ws + [w])[..|ws|] == ws;
  }

  lemma {:induction false} WeightsInUnit(hits: seq<Tagged>, d: int, request: Option<Boundary>)
    ensures InUnit(Weights(hits, d, request))
    ensures Total(Weights(hits, d, request)) == SumWeighted(hits, d, request)
  {
    if hits != [] {
      var init, t := hits[..|hits| - 1], hits[|hits| - 1];
      WeightsInUnit(init, d, request);
      TotalSnoc(Weights(init, d, request), Weighted(t));
      assert Weights(init, d, request) + [] == Weights(init, d, request);
    }
  }

  lemma {:induction false} WeightsMembers(hits: seq<Tagged>, d: int, request: Option<Boundary>)
    ensures forall w :: w in Weights(hits, d, request) <==> exists t :: t in hits && Accepted(t, d, request) && Weighted(t) == w
  {
    if hits != [] {
      var init, t := hits[..|hits| - 1], hits[|hits| - 1];
      WeightsMembers(init, d, request);
      assert hits == init + [t];
      forall w | w in Weights(init, d, request) ensures exists u :: u in hits && Accepted(u, d, request) && Weighted(u) == w {
        var u :| u in init && Accepted(u, d, request) && Weighted(u) == w;
        assert u in hits;
      }
      assert t in hits;
    }
  }

  lemma NoWeights(hits: seq<Tagged>, d: int, request: Option<Boundary>)
    ensures (forall t :: t in hits ==> !Accepted(t, d, request)) ==> Weights(hits, d, request) == []
  {
    WeightsMembers(hits, d, request);
    assert Weights(hits, d, request) != [] ==> Weights(hits, d, request)[0] in Weights(hits, d, request);
  }

  lemma {:induction false} TopFacts(ws: seq<real>)
    requires ws != []
    ensures Top(ws) in ws && forall w :: w in ws ==> w <= Top(ws)
  {
    var init, last := ws[..|ws| - 1], ws[|ws| - 1];
    if |ws| > 1 {
      TopFacts(init);
    }
    forall w | w in ws ensures w in init || w == last {
      var i :| 0 <= i < |ws| && ws[i] == w;
      assert i < |init| ==> init[i] == w;
    }
  }

  lemma MaxIsTop(hits: seq<Tagged>, d: int, request: Option<Boundary>, max: real)
    requires IsMaxWeighted(hits, d, request, max)
    ensures Weights(hits, d, request) != [] && Top(Weights(hits, d, request)) == max
  {
    WeightsMembers(hits, d, request);
    var t :| t in hits && Accepted(t, d, request) && Weighted(t) == max;
    assert max in Weights(hits, d, request);
    TopFacts(Weights(hits, d, request));
  }

  lemma MergeHitFold(m: Merge, hits: seq<Tagged>, t: Tagged, d: int, request: Option<Boundary>)
    requires !(d in m.aggregated && d in m.conflicted)
    requires d !in m.aggregated && d !in m.conflicted ==> Weights(hits, d, request) == []
    requires d in m.aggregated ==> Weights(hits, d, request) != [] && m.aggregated[d].score == Fold(Weights(hits, d, request))
    ensures var n := MergeHit(m, t, request);
      d in n.aggregated ==>
        Weights(hits + [t], d, request) != [] && n.aggregated[d].score == Fold(Weights(hits + [t], d, request))
  {
    WeightsSnoc(hits, t, d, request);
    FoldSnoc(Weights(hits, d, request), Weighted(t));
    MergedScore(m, t, d, request);
  }

  /** The score of a document after one more hit. */
  lemma MergedScore(m: Merge, t: Tagged, d: int, request: Option<Boundary>)
    ensures var n := MergeHit(m, t, request);
      d in n.aggregated && !(d in m.aggregated && d in m.conflicted) ==>
        if !Accepted(t, d, request) then d in m.aggregated && n.aggregated[d] == m.aggregated[d]
        else d !in m.conflicted && n.aggregated[d].score == if d in m.aggregated then Raise(m.aggregated[d].score, Weighted(t)) else Weighted(t)
  {}

  lemma WeightsSnoc(hits: seq<Tagged>, t: Tagged, d: int, request: Option<Boundary>)
    ensures Weights(hits + [t], d, request) ==
      if Accepted(t, d, request) then Weights(hits, d, request) + [Weighted(t)] else Weights(hits, d, request)
  {
    assert (hits + [t])[..|hits|] == hits;
    assert Weights(hits, d, request) + [] == Weights(hits, d, request);
  }

  /** The score of a surviving document is what its accepted weights make in their order. */
  lemma {:induction false} ScoreIsFold(hits: seq<Tagged>, d: int, request: Option<Boundary>)
    ensures d in MergeAll(hits, request).aggregated ==>
      Weights(hits, d, request) != [] && MergeAll(hits, request).aggregated[d].score == Fold(Weights(hits, d, request))
  {
    if hits != [] {
      var init, t := hits[..|hits| - 1], hits[|hits| - 1];
      ScoreIsFold(init, d, request);
      MergedState(init, d, request);
      NoWeights(init, d, request);
      MergeHitFold(MergeAll(init, request), init, t, d, request);
      assert hits == init + [t];
    }
  }

  /** One more weight keeps or loses the bound. */
  lemma RaiseIff(score: real, first: real, max: real, sum: real, w: real)
    requires 0.0 <= w && 0.0 <= first <= max <= score && max <= sum && (first == 0.0 ==> max == 0.0) && (max == 0.0 ==> sum == 0.0)
    requires Uncapped(max, sum) < 1.0 ==> score <= Uncapped(max, sum) && (score == Uncapped(max, sum) <==> first == max)
    requires max <= 1.0 && w <= 1.0 && (first == max ==> score == Upper(max, sum))
    ensures var max', sum', first' := if w > max then w else max, sum + w, if first > 0.0 then first else w;
      && 0.0 <= first' <= max' <= sum' && (first' == 0.0 ==> max' == 0.0) && (max' == 0.0 ==> sum' == 0.0)
      && max' <= Raise(score, w) && (first' == max' ==> Raise(score, w) == Upper(max', sum'))
      && (Uncapped(max', sum') < 1.0 ==>
            Raise(score, w) <= Uncapped(max', sum') && (Raise(score, w) == Uncapped(max', sum') <==> first' == max'))
  {}

  lemma {:induction false} FoldFacts(ws: seq<real>)
    requires ws != [] && InUnit(ws)
    ensures var f, max, sum := FirstPositive(ws), Top(ws), Total(ws);
      && 0.0 <= f <= max <= Fold(ws) && max <= sum && (f == 0.0 ==> max == 0.0) && (max == 0.0 ==> sum == 0.0)
      && (Uncapped(max, sum) < 1.0 ==> Fold(ws) <= Uncapped(max, sum) && (Fold(ws) == Uncapped(max, sum) <==> f == max))
      && (f == max ==> Fold(ws) == Upper(max, sum))
  {
    var init, w := ws[..|ws| - 1], ws[|ws| - 1];
    if |ws| == 1 {
      assert init == [];
    } else {
      FoldFacts(init);
      TopFacts(ws);
      RaiseIff(Fold(init), FirstPositive(init), Top(init), Total(init), w);
    }
  }

  /**
   A score reaches its bound when the first accepted hit of positive weight is one of the best, and below the
   cap only then: a better hit after it forgets part of what was gathered.
   */
  lemma ScoreReachesBoundIff(hits: seq<Tagged>, d: int, request: Option<Boundary>, max: real)
    requires d in MergeAll(hits, request).aggregated && IsMaxWeighted(hits, d, request, max)
    ensures FirstPositive(Weights(hits, d, request)) == max ==>
      MergeAll(hits, request).aggregated[d].score == Upper(max, SumWeighted(hits, d, request))
    ensures Uncapped(max, SumWeighted(hits, d, request)) < 1.0 ==>
      (MergeAll(hits, request).aggregated[d].score == Upper(max, SumWeighted(hits, d, request)) <==>
        FirstPositive(Weights(hits, d, request)) == max)
  {
    ScoreIsFold(hits, d, request);
    WeightsInUnit(hits, d, request);
    MaxIsTop(hits, d, request, max);
    FoldFacts(Weights(hits, d, request));
  }

  // Permutations.

  lemma OneMoreWeight(a: seq<Tagged>, b: seq<Tagged>, t: Tagged, d: int, request: Option<Boundary>)
    requires Weights(a + b, d, request) == Weights(a, d, request) + Weights(b, d, request)
    ensures Weights(a + (b + [t]), d, request) == Weights(a, d, request) + Weights(b + [t], d, request)
  {
    Reassociate(a, b, t);
    WeightsSnoc(a + b, t, d, request);
    WeightsSnoc(b, t, d, request);
    Reassociate(Weights(a, d, request), Weights(b, d, request), Weighted(t));
  }

  lemma Reassociate<T>(a: seq<T>, b: seq<T>, x: T)
    ensures a + (b + [x]) == a + b + [x]
  {}

  lemma SnocWhole(b: seq<Tagged>)
    requires b != []
    ensures b[..|b| - 1] + [b[|b| - 1]] == b
  {}

  lemma {:induction false} WeightsConcat(a: seq<Tagged>, b: seq<Tagged>, d: int, request: Option<Boundary>)
    ensures Weights(a + b, d, request) == Weights(a, d, request) + Weights(b, d, request)
    decreases |b|
  {
    if b == [] {
      assert a + b == a;
    } else {
      WeightsConcat(a, b[..|b| - 1], d, request);
      OneMoreWeight(a, b[..|b| - 1], b[|b| - 1], d, request);
      SnocWhole(b);
    }
  }

  lemma SingleWeight(t: Tagged, d: int, request: Option<Boundary>)
    ensures Weights([t], d, request) == OwnWeight(t, d, request)
  {
    assert [t][..0] == [];
  }

  lemma {:induction false} PositiveFirst(ws: seq<real>)
    requires ws != [] && ws[0] > 0.0
    ensures FirstPositive(ws) == ws[0]
  {
    var init := ws[..|ws| - 1];
    if |ws| == 1 {
      assert init == [];
    } else {
      PositiveFirst(init);
    }
  }

  /** The hits with hit `i` moved to the front. */
  function Front(hits: seq<Tagged>, i: nat): seq<Tagged>
    requires i < |hits|
  {
    [hits[i]] + (hits[..i] + hits[i + 1..])
  }

  lemma FrontPermutes(hits: seq<Tagged>, i: nat)
    requires i < |hits|
    ensures multiset(Front(hits, i)) == multiset(hits)
  {
    assert hits == hits[..i] + [hits[i]] + hits[i + 1..];
  }

  lemma FrontIsFirst(hits: seq<Tagged>, i: nat, d: int, request: Option<Boundary>)
    requires i < |hits| && Accepted(hits[i], d, request) && Weighted(hits[i]) > 0.0
    ensures FirstPositive(Weights(Front(hits, i), d, request)) == Weighted(hits[i])
  {
    WeightsConcat([hits[i]], hits[..i] + hits[i + 1..], d, request);
    SingleWeight(hits[i], d, request);
    PositiveFirst(Weights(Front(hits, i), d, request));
  }

  /** When the best hit comes first, the score reaches the upper bound. */
  lemma BestFirstAttainsUpper(hits: seq<Tagged>, d: int, request: Option<Boundary>)
    requires hits != [] && IsMaxWeighted(hits, d, request, Weighted(hits[0])) && Accepted(hits[0], d, request)
    requires d in MergeAll(hits, request).aggregated
    ensures MergeAll(hits, request).aggregated[d].score == Upper(Weighted(hits[0]), SumWeighted(hits, d, request))
  {
    var max := Weighted(hits[0]);
    if max > 0.0 {
      FrontIsFirst(hits, 0, d, request);
      assert Front(hits, 0) == hits;
    } else {
      WeightsInUnit(hits, d, request);
      MaxIsTop(hits, d, request, max);
      FoldFacts(Weights(hits, d, request));
    }
    ScoreReachesBoundIff(hits, d, request, max);
  }

  lemma {:induction false} SamePermutedSum(a: seq<Tagged>, b: seq<Tagged>, d: int, request: Option<Boundary>)
    requires multiset(a) == multiset(b)
    ensures SumWeighted(a, d, request) == SumWeighted(b, d, request)
    decreases |a|
  {
    if a == [] {
      assert |multiset(b)| == 0;
    } else {
      var j := FindLast(a, b);
      SamePermutedSum(a[..|a| - 1], b[..j] + b[j + 1..], d, request);
      SumWithout(b[..j], b[j], b[j + 1..], d, request);
    }
  }

  lemma {:induction false} SumWithout(a: seq<Tagged>, t: Tagged, b: seq<Tagged>, d: int, request: Option<Boundary>)
    ensures SumWeighted(a + [t] + b, d, request) ==
      SumWeighted(a + b, d, request) + (if Accepted(t, d, request) then Weighted(t) else 0.0)
    decreases |b|
  {
    if b == [] {
      assert a + [t] + b == a + [t] && a + b == a && (a + [t])[..|a|] == a;
    } else {
      var init := b[..|b| - 1];
      SumWithout(a, t, init, d, request);
      assert (a + [t] + b)[..|a| + |b|] == a + [t] + init;
      assert (a + b)[..|a| + |b| - 1] == a + init;
    }
  }

  lemma PermutedMax(hits: seq<Tagged>, permuted: seq<Tagged>, d: int, request: Option<Boundary>, max: real)
    requires multiset(hits) == multiset(permuted) && IsMaxWeighted(hits, d, request, max)
    ensures IsMaxWeighted(permuted, d, request, max)
  {
    SameMembers(hits, permuted);
    var t :| t in hits && Accepted(t, d, request) && Weighted(t) == max;
    assert t in permuted;
  }

  predicate Positive(t: Tagged, d: int, request: Option<Boundary>) { Accepted(t, d, request) && Weighted(t) > 0.0 }

  /** All accepted hits of positive weight weigh the same. */
  predicate EvenWeights(hits: seq<Tagged>, d: int, request: Option<Boundary>) {
    forall t, u :: t in hits && u in hits && Positive(t, d, request) && Positive(u, d, request) ==> Weighted(t) == Weighted(u)
  }

  ghost predicate OrderShows(hits: seq<Tagged>, permuted: seq<Tagged>, d: int, request: Option<Boundary>)
    requires d in MergeAll(hits, request).aggregated
  {
    && multiset(permuted) == multiset(hits)
    && (d in MergeAll(permuted, request).aggregated ==>
          MergeAll(permuted, request).aggregated[d].score != MergeAll(hits, request).aggregated[d].score)
  }

  /** Any order of hits with even weights starts with the best. */
  lemma {:induction false} EvenStartsBest(ws: seq<real>)
    requires ws != [] && InUnit(ws) && forall v, w :: v in ws && w in ws && v > 0.0 && w > 0.0 ==> v == w
    ensures FirstPositive(ws) == Top(ws)
  {
    FoldFacts(ws);
    TopFacts(ws);
    FirstIsMember(ws);
  }

  lemma {:induction false} FirstIsMember(ws: seq<real>)
    requires ws != []
    ensures FirstPositive(ws) in ws
  {
    var init, last := ws[..|ws| - 1], ws[|ws| - 1];
    assert ws == init + [last];
    if |ws| > 1 {
      FirstIsMember(init);
    } else {
      assert init == [];
    }
  }

  /** With even weights the score is the same in every order, also at the cap. */
  lemma EvenWeightsHideOrder(hits: seq<Tagged>, permuted: seq<Tagged>, d: int, request: Option<Boundary>, max: real)
    requires d in MergeAll(hits, request).aggregated && IsMaxWeighted(hits, d, request, max)
    requires multiset(permuted) == multiset(hits) && EvenWeights(hits, d, request)
    ensures d in MergeAll(permuted, request).aggregated
    ensures MergeAll(permuted, request).aggregated[d].score == Upper(max, SumWeighted(hits, d, request))
  {
    OrderDoesNotMatter(hits, permuted, d, request);
    SameMembers(hits, permuted);
    PermutedMax(hits, permuted, d, request, max);
    SamePermutedSum(hits, permuted, d, request);
    WeightsMembers(permuted, d, request);
    WeightsInUnit(permuted, d, request);
    MaxIsTop(permuted, d, request, max);
    EvenStartsBest(Weights(permuted, d, request));
    ScoreReachesBoundIff(permuted, d, request, max);
  }

  lemma FrontScore(hits: seq<Tagged>, i: nat, d: int, request: Option<Boundary>, max: real)
    requires d in MergeAll(hits, request).aggregated && IsMaxWeighted(hits, d, request, max)
    requires Uncapped(max, SumWeighted(hits, d, request)) < 1.0
    requires i < |hits| && Accepted(hits[i], d, request) && Weighted(hits[i]) > 0.0
    ensures multiset(Front(hits, i)) == multiset(hits) && d in MergeAll(Front(hits, i), request).aggregated
    ensures MergeAll(Front(hits, i), request).aggregated[d].score == Upper(max, SumWeighted(hits, d, request)) <==>
      Weighted(hits[i]) == max
  {
    var front := Front(hits, i);
    FrontPermutes(hits, i);
    OrderDoesNotMatter(hits, front, d, request);
    PermutedMax(hits, front, d, request, max);
    SamePermutedSum(hits, front, d, request);
    FrontIsFirst(hits, i, d, request);
    ScoreReachesBoundIff(front, d, request, max);
  }

  /** Below the cap, no order of the hits changes the score exactly when their positive weights are all equal. */
  lemma OrderShowsIff(hits: seq<Tagged>, d: int, request: Option<Boundary>, max: real)
    requires d in MergeAll(hits, request).aggregated && IsMaxWeighted(hits, d, request, max)
    requires Uncapped(max, SumWeighted(hits, d, request)) < 1.0
    ensures (exists permuted :: OrderShows(hits, permuted, d, request)) <==> !EvenWeights(hits, d, request)
  {
    if EvenWeights(hits, d, request) {
      EvenWeightsHideOrder(hits, hits, d, request, max);
      forall permuted | multiset(permuted) == multiset(hits) ensures !OrderShows(hits, permuted, d, request) {
        EvenWeightsHideOrder(hits, permuted, d, request, max);
      }
    } else {
      UnevenShowsOrder(hits, d, request, max);
    }
  }

  lemma UnevenShowsOrder(hits: seq<Tagged>, d: int, request: Option<Boundary>, max: real)
    requires d in MergeAll(hits, request).aggregated && IsMaxWeighted(hits, d, request, max)
    requires Uncapped(max, SumWeighted(hits, d, request)) < 1.0 && !EvenWeights(hits, d, request)
    ensures exists permuted :: OrderShows(hits, permuted, d, request)
  {
    var t, u :| t in hits && u in hits && Positive(t, d, request) && Positive(u, d, request) && Weighted(t) != Weighted(u);
    var low := if Weighted(t) < max then t else u;
    var best :| best in hits && Accepted(best, d, request) && Weighted(best) == max;
    var i :| 0 <= i < |hits| && hits[i] == best;
    var j :| 0 <= j < |hits| && hits[j] == low;
    FrontScore(hits, i, d, request, max);
    FrontScore(hits, j, d, request, max);
    assert OrderShows(hits, Front(hits, i), d, request) || OrderShows(hits, Front(hits, j), d, request);
  }

  /** A hit of full weight makes the score one, whatever the order. */
  lemma FullWeightHidesOrder(hits: seq<Tagged>, d: int, request: Option<Boundary>)
    requires d in MergeAll(hits, request).aggregated && IsMaxWeighted(hits, d, request, 1.0)
    ensures MergeAll(hits, request).aggregated[d].score == 1.0
  {
    ScoreBounds(hits, d, request, 1.0);
  }

  // The order of the results.

  ghost predicate OrderOk(m: Merge) {
    && (forall i, j :: 0 <= i < j < |m.order| ==> m.order[i] != m.order[j])
    && (forall d :: d in m.order <==> d in m.aggregated)
  }

  lemma {:induction false} DropOrder(s: seq<int>, d: int)
    requires forall i, j :: 0 <= i < j < |s| ==> s[i] != s[j]
    ensures forall x :: x in Drop(s, d) <==> x in s && x != d
    ensures forall i, j :: 0 <= i < j < |Drop(s, d)| ==> Drop(s, d)[i] != Drop(s, d)[j]
  {
    if s != [] {
      DropOrder(s[1..], d);
      assert s == [s[0]] + s[1..];
      assert s[0] !in s[1..];
    }
  }

  lemma {:induction false} MergeAllOrder(hits: seq<Tagged>, request: Option<Boundary>)
    ensures OrderOk(MergeAll(hits, request))
  {
    if hits != [] {
      MergeAllOrder(hits[..|hits| - 1], request);
      DropOrder(MergeAll(hits[..|hits| - 1], request).order, hits[|hits| - 1].hit.docId);
    }
  }

  /** The results in insertion order. */
  function Values(m: Merge): (r: seq<GraphResult>)
    requires OrderOk(m)
    ensures |r| == |m.order| && forall i :: 0 <= i < |r| ==> m.order[i] in m.aggregated && r[i] == m.aggregated[m.order[i]]
  {
    assert forall i :: 0 <= i < |m.order| ==> m.order[i] in m.order;
    seq(|m.order|, i requires 0 <= i < |m.order| => m.aggregated[m.order[i]])
  }

  predicate ScoreDescending(x: GraphResult, y: GraphResult) { x.score >= y.score }

  /** All results, best score first, equal scores in insertion order. */
  function Ranked(hits: seq<Tagged>, request: Option<Boundary>): seq<GraphResult> {
    MergeAllOrder(hits, request);
    SortBy(Values(MergeAll(hits, request)), (x, y) => ScoreDescending(x, y))
  }

  /** The ranking lists exactly the surviving documents, each once, by descending score. */
  lemma RankedSurvivors(hits: seq<Tagged>, request: Option<Boundary>)
    ensures var all, m := Ranked(hits, request), MergeAll(hits, request).aggregated;
      && Sorted(all, (x, y) => ScoreDescending(x, y))
      && |all| == |m|
      && forall x :: x in all <==> x.docId in m && m[x.docId] == x
  {
    MergeAllOrder(hits, request);
    var m := MergeAll(hits, request);
    var values := Values(m);
    assert TotalPreorder((x: GraphResult, y: GraphResult) => ScoreDescending(x, y));
    SortSorted(values, (x, y) => ScoreDescending(x, y));
    SortPermutes(values, (x, y) => ScoreDescending(x, y));
    OrderCount(m.order, m.aggregated.Keys);
    forall x ensures x in values <==> x.docId in m.aggregated && m.aggregated[x.docId] == x {
      MergeAllDoc(hits, x.docId, request);
      if x in values {
        var i :| 0 <= i < |values| && values[i] == x;
        MergeAllDoc(hits, m.order[i], request);
      }
      if x.docId in m.aggregated && m.aggregated[x.docId] == x {
        var i :| 0 <= i < |m.order| && m.order[i] == x.docId;
        assert values[i] == x;
      }
    }
  }

  lemma {:induction false} OrderCount(s: seq<int>, keys: set<int>)
    requires forall i, j :: 0 <= i < j < |s| ==> s[i] != s[j]
    requires forall d :: d in s <==> d in keys
    ensures |s| == |keys|
  {
    if s == [] {
      assert forall d :: d !in keys;
      assert keys == {};
    } else {
      var init, last := s[..|s| - 1], s[|s| - 1];
      assert last !in init;
      assert forall d :: d in init <==> d in keys - {last};
      assert last in keys;
      OrderCount(init, keys - {last});
    }
  }

  /** Where the first accepted hit of the document stands; after all hits when there is none. */
  function FirstHit(hits: seq<Tagged>, d: int, request: Option<Boundary>): (n: nat)
    ensures n <= |hits|
  {
    if hits == [] then 0
    else
      var n := FirstHit(hits[..|hits| - 1], d, request);
      if n < |hits| - 1 || Accepted(hits[|hits| - 1], d, request) then n else |hits|
  }

  lemma {:induction false} FirstHitIsFirst(hits: seq<Tagged>, d: int, request: Option<Boundary>)
    ensures forall i :: 0 <= i < FirstHit(hits, d, request) ==> !Accepted(hits[i], d, request)
    ensures FirstHit(hits, d, request) < |hits| ==> Accepted(hits[FirstHit(hits, d, request)], d, request)
  {
    if hits != [] {
      FirstHitIsFirst(hits[..|hits| - 1], d, request);
    }
  }

  function Rank(hits: seq<Tagged>, request: Option<Boundary>): int -> int { d => FirstHit(hits, d, request) }

  ghost predicate Rises(s: seq<int>, rank: int -> int) {
    forall i, j :: 0 <= i < j < |s| ==> rank(s[i]) < rank(s[j])
  }

  lemma {:induction false} DropRises(s: seq<int>, d: int, rank: int -> int)
    requires Rises(s, rank)
    ensures Rises(Drop(s, d), rank) && forall x :: x in Drop(s, d) ==> x in s
  {
    if s != [] {
      DropRises(s[1..], d, rank);
      forall x | x in s[1..] ensures rank(s[0]) < rank(x) {
        var k :| 0 <= k < |s[1..]| && s[1..][k] == x;
        assert rank(s[0]) < rank(s[k + 1]);
      }
      RisesCons(s[0], Drop(s[1..], d), rank);
    }
  }

  lemma RisesCons(x: int, s: seq<int>, rank: int -> int)
    requires Rises(s, rank) && forall y :: y in s ==> rank(x) < rank(y)
    ensures Rises([x] + s, rank)
  {
    var t := [x] + s;
    forall i, j | 0 <= i < j < |t| ensures rank(t[i]) < rank(t[j]) {
      assert t[j] == s[j - 1] && s[j - 1] in s;
    }
  }

  lemma RisesOn(s: seq<int>, rank: int -> int, rank': int -> int)
    requires Rises(s, rank) && forall i :: 0 <= i < |s| ==> rank'(s[i]) == rank(s[i])
    ensures Rises(s, rank')
  {}

  lemma FirstHitSnoc(hits: seq<Tagged>, t: Tagged, d: int, request: Option<Boundary>)
    ensures FirstHit(hits + [t], d, request) ==
      if FirstHit(hits, d, request) < |hits| || Accepted(t, d, request) then FirstHit(hits, d, request) else |hits| + 1
  {
    assert (hits + [t])[..|hits|] == hits;
  }

  ghost predicate ByFirstHit(order: seq<int>, hits: seq<Tagged>, request: Option<Boundary>) {
    Rises(order, Rank(hits, request)) && forall d :: d in order ==> FirstHit(hits, d, request) < |hits|
  }

  lemma OneMoreByFirstHit(order: seq<int>, hits: seq<Tagged>, t: Tagged, request: Option<Boundary>)
    requires ByFirstHit(order, hits, request)
    ensures ByFirstHit(order, hits + [t], request)
    ensures FirstHit(hits, t.hit.docId, request) == |hits| && Accepted(t, t.hit.docId, request) ==>
      ByFirstHit(order + [t.hit.docId], hits + [t], request)
  {
    forall d ensures FirstHit(hits, d, request) < |hits| ==> FirstHit(hits + [t], d, request) == FirstHit(hits, d, request) {
      FirstHitSnoc(hits, t, d, request);
    }
    FirstHitSnoc(hits, t, t.hit.docId, request);
    RisesOn(order, Rank(hits, request), Rank(hits + [t], request));
  }

  /** The dictionary lists its documents in the order of their first accepted hits. */
  lemma {:induction false} OrderByFirstHit(hits: seq<Tagged>, request: Option<Boundary>)
    ensures ByFirstHit(MergeAll(hits, request).order, hits, request)
  {
    if hits != [] {
      var init, t := hits[..|hits| - 1], hits[|hits| - 1];
      OrderByFirstHit(init, request);
      MergedState(init, t.hit.docId, request);
      MergeAllOrder(init, request);
      OrderStep(MergeAll(init, request), init, t, request);
      assert hits == init + [t];
    }
  }

  lemma OrderStep(m: Merge, hits: seq<Tagged>, t: Tagged, request: Option<Boundary>)
    requires ByFirstHit(m.order, hits, request)
    requires t.hit.docId !in m.aggregated && t.hit.docId !in m.conflicted ==> forall u :: u in hits ==> !Accepted(u, t.hit.docId, request)
    ensures ByFirstHit(MergeHit(m, t, request).order, hits + [t], request)
  {
    FirstHitIsFirst(hits, t.hit.docId, request);
    DropRises(m.order, t.hit.docId, Rank(hits, request));
    OneMoreByFirstHit(m.order, hits, t, request);
    OneMoreByFirstHit(Drop(m.order, t.hit.docId), hits, t, request);
  }

  /** Documents of equal score stand in the order of their first accepted hits. */
  lemma RankedTies(hits: seq<Tagged>, request: Option<Boundary>, i: nat, j: nat)
    requires i < j < |Ranked(hits, request)| && Ranked(hits, request)[i].score == Ranked(hits, request)[j].score
    ensures FirstHit(hits, Ranked(hits, request)[i].docId, request) < FirstHit(hits, Ranked(hits, request)[j].docId, request)
  {
    MergeAllOrder(hits, request);
    OrderByFirstHit(hits, request);
    var m := MergeAll(hits, request);
    var values, le := Values(m), (x: GraphResult, y: GraphResult) => ScoreDescending(x, y);
    var rank := (x: GraphResult) => FirstHit(hits, x.docId, request);
    forall k | 0 <= k < |values| ensures values[k].docId == m.order[k] {
      MergeAllDoc(hits, m.order[k], request);
    }
    forall a, b | 0 <= a < b < |values| ensures rank(values[a]) < rank(values[b]) {
      assert Rank(hits, request)(m.order[a]) < Rank(hits, request)(m.order[b]);
    }
    assert TotalPreorder(le);
    SortIsStable(values, le, rank);
    var all := Ranked(hits, request);
    assert le(all[i], all[j]) && le(all[j], all[i]);
  }

  // What a result is made of.

  /** The sources of the accepted hits, in order. */
  function SourcesOf(hits: seq<Tagged>, d: int, request: Option<Boundary>): seq<Source> {
    if hits == [] then []
    else SourcesOf(hits[..|hits| - 1], d, request) + (if Accepted(hits[|hits| - 1], d, request) then [hits[|hits| - 1].source] else [])
  }

  /**
   The result is made by the hit at `i`: it was the first or outweighed all before it together, and none after it
   outweighed what it had gathered.  Content and sources start with it, and the later weights add their 35 percent.
   */
  ghost predicate MadeBy(r: GraphResult, hits: seq<Tagged>, i: nat, d: int, request: Option<Boundary>) {
    && i < |hits| && Accepted(hits[i], d, request)
    && r.content == hits[i].hit.content
    && r.sources == SourcesOf(hits[i..], d, request)
    && r.score == Capped(Weighted(hits[i]) + 0.35 * SumWeighted(hits[i + 1..], d, request))
    && Unbeaten(hits, i, d, request)
  }

  /** No later hit outweighs what the hit at `i` and the ones after it have gathered by then. */
  ghost predicate Unbeaten(hits: seq<Tagged>, i: nat, d: int, request: Option<Boundary>)
    requires i < |hits|
  {
    forall j :: i < j < |hits| && Accepted(hits[j], d, request) ==>
      Weighted(hits[j]) <= Capped(Weighted(hits[i]) + 0.35 * SumWeighted(hits[i + 1..j], d, request))
  }

  function Capped(x: real): real { if x < 1.0 then x else 1.0 }

  lemma SourcesSnoc(hits: seq<Tagged>, t: Tagged, d: int, request: Option<Boundary>)
    ensures SourcesOf(hits + [t], d, request) == SourcesOf(hits, d, request) + (if Accepted(t, d, request) then [t.source] else [])
    ensures SumWeighted(hits + [t], d, request) == SumWeighted(hits, d, request) + (if Accepted(t, d, request) then Weighted(t) else 0.0)
  {
    assert (hits + [t])[..|hits|] == hits;
  }

  lemma MadeByNew(t: Tagged, hits: seq<Tagged>, d: int, request: Option<Boundary>, r: GraphResult)
    requires Accepted(t, d, request) && r.content == t.hit.content && r.sources == [t.source] && r.score == Weighted(t)
    ensures MadeBy(r, hits + [t], |hits|, d, request)
  {
    var all := hits + [t];
    assert all[|hits|..] == [] + [t] && all[|hits| + 1..] == [];
    SourcesSnoc([], t, d, request);
  }

  lemma CappedTwice(w: real, sum: real, more: real)
    requires more >= 0.0
    ensures Capped(Capped(w + 0.35 * sum) + 0.35 * more) == Capped(w + 0.35 * (sum + more))
  {}

  /** One more hit that does not outweigh what is gathered. */
  lemma MadeByMore(before: GraphResult, r: GraphResult, hits: seq<Tagged>, i: nat, t: Tagged, d: int, request: Option<Boundary>)
    requires MadeBy(before, hits, i, d, request) && r.content == before.content
    requires Accepted(t, d, request) ==> Weighted(t) <= before.score && r.sources == before.sources + [t.source]
                                          && r.score == Capped(before.score + 0.35 * Weighted(t))
    requires !Accepted(t, d, request) ==> r.sources == before.sources && r.score == before.score
    ensures MadeBy(r, hits + [t], i, d, request)
  {
    var all := hits + [t];
    GatheredMore(hits, i, t, d, request);
    if Accepted(t, d, request) {
      CappedTwice(Weighted(hits[i]), SumWeighted(hits[i + 1..], d, request), Weighted(t));
    }
    NoneOutweighs(before, hits, i, t, d, request);
    assert all[i] == hits[i];
  }

  lemma GatheredMore(hits: seq<Tagged>, i: nat, t: Tagged, d: int, request: Option<Boundary>)
    requires i < |hits|
    ensures SourcesOf((hits + [t])[i..], d, request) == SourcesOf(hits[i..], d, request) + (if Accepted(t, d, request) then [t.source] else [])
    ensures SumWeighted((hits + [t])[i + 1..], d, request) ==
      SumWeighted(hits[i + 1..], d, request) + (if Accepted(t, d, request) then Weighted(t) else 0.0)
  {
    assert (hits + [t])[i..] == hits[i..] + [t] && (hits + [t])[i + 1..] == hits[i + 1..] + [t];
    SourcesSnoc(hits[i..], t, d, request);
    SourcesSnoc(hits[i + 1..], t, d, request);
  }

  lemma NoneOutweighs(before: GraphResult, hits: seq<Tagged>, i: nat, t: Tagged, d: int, request: Option<Boundary>)
    requires MadeBy(before, hits, i, d, request) && (Accepted(t, d, request) ==> Weighted(t) <= before.score)
    ensures Unbeaten(hits + [t], i, d, request)
  {
    var all := hits + [t];
    forall j | i < j < |all| && Accepted(all[j], d, request)
      ensures Weighted(all[j]) <= Capped(Weighted(hits[i]) + 0.35 * SumWeighted(all[i + 1..j], d, request))
    {
      assert all[i + 1..j] == hits[i + 1..j];
      assert hits[i + 1..|hits|] == hits[i + 1..];
    }
  }

  lemma MadeStep(m: Merge, hits: seq<Tagged>, t: Tagged, d: int, request: Option<Boundary>)
    requires !(d in m.aggregated && d in m.conflicted)
    requires d in m.aggregated ==> exists i: nat :: MadeBy(m.aggregated[d], hits, i, d, request)
    ensures d in MergeHit(m, t, request).aggregated ==>
      exists i: nat :: MadeBy(MergeHit(m, t, request).aggregated[d], hits + [t], i, d, request)
  {
    var n := MergeHit(m, t, request);
    if d in n.aggregated {
      if Accepted(t, d, request) && (d !in m.aggregated || Weighted(t) > m.aggregated[d].score) {
        MadeByNew(t, hits, d, request, n.aggregated[d]);
      } else {
        var i: nat :| MadeBy(m.aggregated[d], hits, i, d, request);
        MadeByMore(m.aggregated[d], n.aggregated[d], hits, i, t, d, request);
      }
    }
  }

  /** Every surviving result is made by one of its hits. */
  lemma {:induction false} ResultIsExactly(hits: seq<Tagged>, d: int, request: Option<Boundary>)
    ensures d in MergeAll(hits, request).aggregated ==>
      exists i: nat :: MadeBy(MergeAll(hits, request).aggregated[d], hits, i, d, request)
  {
    if hits != [] {
      var init, t := hits[..|hits| - 1], hits[|hits| - 1];
      ResultIsExactly(init, d, request);
      MergedState(init, d, request);
      MadeStep(MergeAll(init, request), init, t, d, request);
      assert hits == init + [t];
    }
  }

  /** The weight of a hit, its boundary, and when it is accepted. */
  lemma HitIsExactly(t: Tagged, d: int, request: Option<Boundary>, product: real)
    requires product == t.hit.score * t.weight
    ensures Weighted(t) == if product < 0.0 then 0.0 else if product > 1.0 then 1.0 else product
    ensures Accepted(t, d, request) <==> t.hit.docId == d && (t.hit.boundary.Some? || request.Some?)
    ensures Effective(t, request) == if t.hit.boundary.Some? then t.hit.boundary else request
  {}

  // The loops.

  /** The state that the five loops share. */
  class HitMerger {
    var aggregated: map<int, GraphResult>
    var order: seq<int>
    var conflicted: set<int>
    const request: Option<Boundary>

    ghost function View(): Merge
      reads this
    {
      Merge(aggregated, order, conflicted)
    }

    constructor (request: Option<Boundary>)
      ensures View() == Empty && this.request == request
    {
      this.request := request;
      aggregated, order, conflicted := map[], [], {};
    }

    method Add(t: Tagged)
      modifies this
      ensures View() == MergeHit(old(View()), t, request)
    {
      var d := t.hit.docId;
      if d in conflicted {
        return;
      }
      var b := if t.hit.boundary.Some? then t.hit.boundary else request;
      if b.None? {
        return;
      }
      if d in aggregated && aggregated[d].boundary != b.value {
        conflicted := conflicted + {d};
        aggregated := aggregated - {d};
        order := Drop(order, d);
        return;
      }
      var weighted := Weighted(t);
      var distance := t.distance;
      if d in aggregated && aggregated[d].distance.Some? {
        distance := if t.distance.None? then aggregated[d].distance
                    else Some(if t.distance.value < aggregated[d].distance.value then t.distance.value
                              else aggregated[d].distance.value);
      }
      if d !in aggregated {
        order := order + [d];
      }
      if d !in aggregated || weighted > aggregated[d].score {
        aggregated := aggregated[d := GraphResult(d, weighted, t.hit.content, [t.source], distance, b.value)];
        return;
      }
      var current := aggregated[d];
      var raised := current.score + weighted * 0.35;
      aggregated := aggregated[d := current.(distance := distance, sources := current.sources + [t.source],
                                             score := if raised < 1.0 then raised else 1.0)];
    }

    /** One of the five loops. */
    method AddAll(hits: seq<Hit>, weight: real, source: Source, distance: Option<nat>, ghost before: seq<Tagged>)
      requires View() == MergeAll(before, request)
      modifies this
      ensures View() == MergeAll(before + Tag(hits, weight, source, distance), request)
    {
      assert before + Tag(hits[..0], weight, source, distance) == before;
      for i := 0 to |hits|
        invariant View() == MergeAll(before + Tag(hits[..i], weight, source, distance), request)
      {
        OneMoreTagged(before, hits, i, weight, source, distance, request);
        Add(Tagged(hits[i], weight, source, distance));
      }
      assert hits[..|hits|] == hits;
    }
  }

  lemma OneMoreTagged(before: seq<Tagged>, hits: seq<Hit>, i: nat, weight: real, source: Source, distance: Option<nat>,
                      request: Option<Boundary>)
    requires i < |hits|
    ensures MergeAll(before + Tag(hits[..i + 1], weight, source, distance), request) ==
      MergeHit(MergeAll(before + Tag(hits[..i], weight, source, distance), request), Tagged(hits[i], weight, source, distance), request)
  {
    var done := before + Tag(hits[..i], weight, source, distance);
    var all := before + Tag(hits[..i + 1], weight, source, distance);
    assert all == done + [Tagged(hits[i], weight, source, distance)];
    assert all[..|all| - 1] == done;
  }

  function Tag(hits: seq<Hit>, weight: real, source: Source, distance: Option<nat>): (r: seq<Tagged>)
    ensures |r| == |hits| && forall i :: 0 <= i < |r| ==> r[i] == Tagged(hits[i], weight, source, distance)
  {
    seq(|hits|, i requires 0 <= i < |hits| => Tagged(hits[i], weight, source, distance))
  }

  datatype Routes = Routes(direct: seq<Hit>, expansion: seq<Hit>, hierarchy: seq<Hit>, edge: seq<Hit>, secondHop: seq<Hit>)

  /** All hits in the order in which the loops merge them. */
  function Tags(r: Routes, secondHopWeight: real): seq<Tagged> {
    Tag(r.direct, 1.0, Keyword, Some(0)) + Tag(r.expansion, 0.7, Neighbor, Some(0))
    + Tag(r.hierarchy, 0.5, Hierarchy, None) + Tag(r.edge, 0.7, EdgeNeighbor, Some(1))
    + Tag(r.secondHop, Clamp01(secondHopWeight), SecondHop, Some(2))
  }

  /** The last part of the search: merge the five hit lists, sort by score, cut to the limit. */
  /** With which weight, source and distance the hits of the five lists are merged, and in which order. */
  lemma TagsAreExactly(r: Routes, secondHopWeight: real, i: nat)
    ensures var tags, a, b, c, d := Tags(r, secondHopWeight), |r.direct|, |r.direct| + |r.expansion|,
                                    |r.direct| + |r.expansion| + |r.hierarchy|,
                                    |r.direct| + |r.expansion| + |r.hierarchy| + |r.edge|;
      && |tags| == d + |r.secondHop|
      && (i < a ==> tags[i] == Tagged(r.direct[i], 1.0, Keyword, Some(0)))
      && (a <= i < b ==> tags[i] == Tagged(r.expansion[i - a], 0.7, Neighbor, Some(0)))
      && (b <= i < c ==> tags[i] == Tagged(r.hierarchy[i - b], 0.5, Hierarchy, None))
      && (c <= i < d ==> tags[i] == Tagged(r.edge[i - c], 0.7, EdgeNeighbor, Some(1)))
      && (d <= i < |tags| ==>
            var w := if secondHopWeight < 0.0 then 0.0 else if secondHopWeight > 1.0 then 1.0 else secondHopWeight;
            tags[i] == Tagged(r.secondHop[i - d], w, SecondHop, Some(2)))
  {}

  method MergeRoutes(r: Routes, secondHopWeight: real, request: Option<Boundary>, limit: int) returns (results: seq<GraphResult>)
    ensures results == PrefixUpTo(Ranked(Tags(r, secondHopWeight), request), limit)
  {
    var merger := new HitMerger(request);
    merger.AddAll(r.direct, 1.0, Keyword, Some(0), []);
    ghost var done := Tag(r.direct, 1.0, Keyword, Some(0));
    assert [] + done == done;
    merger.AddAll(r.expansion, 0.7, Neighbor, Some(0), done);
    done := done + Tag(r.expansion, 0.7, Neighbor, Some(0));
    merger.AddAll(r.hierarchy, 0.5, Hierarchy, None, done);
    done := done + Tag(r.hierarchy, 0.5, Hierarchy, None);
    merger.AddAll(r.edge, 0.7, EdgeNeighbor, Some(1), done);
    done := done + Tag(r.edge, 0.7, EdgeNeighbor, Some(1));
    merger.AddAll(r.secondHop, Clamp01(secondHopWeight), SecondHop, Some(2), done);
    assert done + Tag(r.secondHop, Clamp01(secondHopWeight), SecondHop, Some(2)) == Tags(r, secondHopWeight);
    MergeAllOrder(Tags(r, secondHopWeight), request);
    var merged := Merge(merger.aggregated, merger.order, merger.conflicted);
    results := PrefixUpTo(SortBy(Values(merged), (x, y) => ScoreDescending(x, y)), limit);
  }
}

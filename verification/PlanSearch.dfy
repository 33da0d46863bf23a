/**
 A search over the queries of a plan: the candidate budget is split, every query with a budget is searched,
 its results are sorted, passed through the evidence gate and cut to the budget, and the lists are fused.

 What a query retrieves, the merge of its routes included, is a function of the query and its budget; the
 queries are searched concurrently, and their results are taken in plan order.
 */
module PlanSearch {
  import opened MultiQueryFusion
  import opened Sorting

  const RRF_K := 60

  datatype Search<!Query> = Search(
    retrieve: (Query, nat) -> seq<Hybrid>,
    finalScore: Hybrid -> real,
    hasUserEvidence: Hybrid -> bool,
    requireUserEvidence: bool)
  {
    /** Higher score first, then smaller identifier. */
    predicate Before(x: Hybrid, y: Hybrid) {
      finalScore(x) > finalScore(y) || (finalScore(x) == finalScore(y) && x.docId <= y.docId)
    }

    function Order(): (Hybrid, Hybrid) -> bool { (x, y) => Before(x, y) }

    predicate Admits(h: Hybrid) { requireUserEvidence ==> hasUserEvidence(h) }

    function Admitted(s: seq<Hybrid>): seq<Hybrid> {
      if s == [] then [] else (if Admits(s[0]) then [s[0]] else []) + Admitted(s[1..])
    }

    /** The best `budget` admitted candidates, best first; fewer only when there are no more. */
    ghost predicate BestAdmitted(list: seq<Hybrid>, found: seq<Hybrid>, budget: nat) {
      exists rest :: Divides(list, rest, found, budget)
    }

    ghost predicate Divides(list: seq<Hybrid>, rest: seq<Hybrid>, found: seq<Hybrid>, budget: nat) {
      && multiset(list) + multiset(rest) == multiset(Admitted(found))
      && Sorted(list, Order()) && (forall x, y :: x in list && y in rest ==> Before(x, y))
      && |list| <= budget && (|list| < budget ==> rest == [])
    }

    lemma {:induction false} AdmittedCount(s: seq<Hybrid>, h: Hybrid)
      ensures multiset(Admitted(s))[h] == if Admits(h) then multiset(s)[h] else 0
    {
      if s != [] {
        AdmittedCount(s[1..], h);
        assert s == [s[0]] + s[1..];
      }
    }

    lemma {:induction false} AdmittedSorted(s: seq<Hybrid>)
      requires Sorted(s, Order())
      ensures Sorted(Admitted(s), Order())
    {
      if s != [] {
        AdmittedSorted(s[1..]);
        forall y | y in Admitted(s[1..]) ensures Order()(s[0], y) {
          AdmittedCount(s[1..], y);
          assert y in multiset(Admitted(s[1..]));
          assert y in s[1..];
        }
      }
    }

    lemma AdmittedPermuted(s: seq<Hybrid>, t: seq<Hybrid>)
      requires multiset(s) == multiset(t)
      ensures multiset(Admitted(s)) == multiset(Admitted(t))
    {
      forall h ensures multiset(Admitted(s))[h] == multiset(Admitted(t))[h] {
        AdmittedCount(s, h);
        AdmittedCount(t, h);
      }
    }

    lemma OrderIsTotal()
      ensures TotalPreorder(Order())
    {}

    lemma SortedPrefix(s: seq<Hybrid>, n: nat)
      requires Sorted(s, Order()) && n <= |s|
      ensures Sorted(s[..n], Order())
      ensures forall x, y :: x in s[..n] && y in s[n..] ==> Before(x, y)
    {
      forall x, y | x in s[..n] && y in s[n..] ensures Before(x, y) {
        var i :| 0 <= i < n && s[i] == x;
        var j :| n <= j < |s| && s[j] == y;
        assert Order()(s[i], s[j]);
      }
    }

    lemma TakeDrop(s: seq<Hybrid>, n: nat)
      requires n <= |s|
      ensures multiset(s[..n]) + multiset(s[n..]) == multiset(s)
    {
      assert s == s[..n] + s[n..];
    }

    lemma PrefixIsBest(kept: seq<Hybrid>, found: seq<Hybrid>, budget: nat)
      requires Sorted(kept, Order()) && multiset(kept) == multiset(Admitted(found))
      ensures BestAdmitted(PrefixUpTo(kept, budget), found, budget)
    {
      var n := if budget < |kept| then budget else |kept|;
      assert PrefixUpTo(kept, budget) == kept[..n];
      SortedPrefix(kept, n);
      TakeDrop(kept, n);
      assert Divides(kept[..n], kept[n..], found, budget);
    }
  }

  /** Sorting, then the gate, then the cut: a candidate without evidence takes no place from another. */
  method SearchQuery<Query>(s: Search<Query>, query: Query, budget: nat) returns (list: seq<Hybrid>)
    ensures s.BestAdmitted(list, s.retrieve(query, budget), budget)
  {
    var found := s.retrieve(query, budget);
    var merged := SortBy(found, s.Order());
    s.OrderIsTotal();
    SortSorted(found, s.Order());
    SortPermutes(found, s.Order());
    s.AdmittedSorted(merged);
    s.AdmittedPermuted(merged, found);
    s.PrefixIsBest(s.Admitted(merged), found, budget);
    list := PrefixUpTo(s.Admitted(merged), budget);
  }

  /** What the queries of a plan may bring back together. */
  function Total(k: int): int { if 2 * k > k then 2 * k else k }

  /** The number of queries that receive a budget. */
  function Served(queries: nat, k: int): nat {
    var count := Clamp(queries, 1, 3);
    Least(queries, Least(count, NonNegative(Total(k))))
  }

  function Least(x: nat, y: nat): nat { if x < y then x else y }

  /** Exactly the first queries receive a budget. */
  lemma ServedFirst(queries: nat, k: int, i: nat)
    requires i < |SplitCandidateBudget(Total(k), queries)|
    ensures SplitCandidateBudget(Total(k), queries)[i] > 0 <==> i < NonNegative(Total(k))
  {
    var count, total := Clamp(queries, 1, 3), NonNegative(Total(k));
    assert count == 1 || count == 2 || count == 3;
    assert total >= count ==> total / count >= 1;
  }

  /** The queries with a positive budget, in plan order. */
  method ActiveQueries<Query>(queries: seq<Query>, k: int) returns (active: seq<(Query, nat)>)
    ensures |active| == Served(|queries|, k)
    ensures forall i :: 0 <= i < |active| ==>
      active[i].0 == queries[i] && active[i].1 == SplitCandidateBudget(Total(k), |queries|)[i] && active[i].1 > 0
  {
    var budgets := SplitCandidateBudget(Total(k), |queries|);
    active := [];
    for i := 0 to Least(|queries|, |budgets|)
      invariant |active| == Least(i, NonNegative(Total(k)))
      invariant forall j :: 0 <= j < |active| ==>
        active[j].0 == queries[j] && active[j].1 == budgets[j] && active[j].1 > 0
    {
      ServedFirst(|queries|, k, i);
      if budgets[i] > 0 {
        active := active + [(queries[i], budgets[i])];
      }
    }
  }

  /** The list of a query holds the best of what it retrieves for its budget. */
  ghost predicate FoundFor<Query>(s: Search<Query>, query: Query, budget: nat, list: seq<Hybrid>) {
    s.BestAdmitted(list, s.retrieve(query, budget), budget)
  }

  ghost predicate Searched<Query>(s: Search<Query>, queries: seq<Query>, k: int, lists: Lists) {
    && |lists| == Served(|queries|, k)
    && forall i :: 0 <= i < |lists| ==>
         FoundFor(s, queries[i], SplitCandidateBudget(Total(k), |queries|)[i], lists[i])
  }

  /** The lists hold at most `Total(k)` candidates together. */
  lemma SearchStaysWithinBudget<Query>(s: Search<Query>, queries: seq<Query>, k: int, lists: Lists)
    requires Searched(s, queries, k, lists)
    ensures TotalLength(lists) <= NonNegative(Total(k))
  {
    var budgets := SplitCandidateBudget(Total(k), |queries|);
    forall i | 0 <= i < |lists| ensures |lists[i]| <= budgets[i] {
      assert FoundFor(s, queries[i], budgets[i], lists[i]);
    }
    LengthsWithinBudgets(lists, budgets);
  }

  /** A positive `k` lets two candidates per result through; at most three queries are served, and none without a candidate. */
  lemma SearchIsBounded<Query>(s: Search<Query>, queries: seq<Query>, k: int, lists: Lists)
    requires Searched(s, queries, k, lists)
    ensures k <= 0 ==> lists == []
    ensures k > 0 ==> |lists| == (if |queries| < 3 then |queries| else if 2 * k < 3 then 2 * k else 3) && TotalLength(lists) <= 2 * k
  {
    SearchStaysWithinBudget(s, queries, k, lists);
  }

  /**
   What a query's list holds: higher scores first and then smaller identifiers, only candidates with user evidence
   when that is required, and no such candidate left out that comes before a kept one or finds room.
   */
  lemma ListIsExactly<Query>(s: Search<Query>, query: Query, budget: nat, list: seq<Hybrid>)
    requires FoundFor(s, query, budget, list)
    ensures |list| <= budget
    ensures forall i, j :: 0 <= i < j < |list| ==>
      s.finalScore(list[i]) > s.finalScore(list[j])
      || (s.finalScore(list[i]) == s.finalScore(list[j]) && list[i].docId <= list[j].docId)
    ensures forall h :: h in list ==> h in s.retrieve(query, budget) && (s.requireUserEvidence ==> s.hasUserEvidence(h))
    ensures forall h, x :: h in s.retrieve(query, budget) && h !in list && (s.requireUserEvidence ==> s.hasUserEvidence(h)) && x in list ==>
      s.finalScore(x) > s.finalScore(h) || (s.finalScore(x) == s.finalScore(h) && x.docId <= h.docId)
    ensures forall h :: h in s.retrieve(query, budget) && h !in list && (s.requireUserEvidence ==> s.hasUserEvidence(h)) ==> |list| == budget
  {
    var found := s.retrieve(query, budget);
    var rest :| s.Divides(list, rest, found, budget);
    forall i, j | 0 <= i < j < |list| ensures s.Before(list[i], list[j]) {
      assert s.Order()(list[i], list[j]);
    }
    forall h ensures h in list || h in rest <==> h in found && s.Admits(h) {
      PlaceOf(s, list, rest, found, h);
    }
    forall h, x | h in rest && x in list ensures s.Before(x, h) {}
  }

  lemma PlaceOf<Query>(s: Search<Query>, list: seq<Hybrid>, rest: seq<Hybrid>, found: seq<Hybrid>, h: Hybrid)
    requires multiset(list) + multiset(rest) == multiset(s.Admitted(found))
    ensures h in list || h in rest <==> h in found && s.Admits(h)
  {
    s.AdmittedCount(found, h);
    assert h in list <==> multiset(list)[h] > 0;
    assert h in rest <==> multiset(rest)[h] > 0;
    assert h in found <==> multiset(found)[h] > 0;
    assert multiset(s.Admitted(found))[h] == multiset(list)[h] + multiset(rest)[h];
  }

  method SearchQueries<Query>(s: Search<Query>, active: seq<(Query, nat)>) returns (lists: Lists)
    ensures |lists| == |active|
    ensures forall i :: 0 <= i < |active| ==> FoundFor(s, active[i].0, active[i].1, lists[i])
  {
    lists := [];
    for i := 0 to |active|
      invariant |lists| == i && forall j :: 0 <= j < i ==> FoundFor(s, active[j].0, active[j].1, lists[j])
    {
      var list := SearchQuery(s, active[i].0, active[i].1);
      lists := lists + [list];
    }
  }

  /** The fused list follows the whole ranking of the lists. */
  ghost predicate FusedWhole(fused: seq<Fused>, lists: Lists) {
    exists ranking ::
      && Ranking(ranking, lists, RRF_K) && |fused| == |ranking|
      && forall i :: 0 <= i < |fused| ==> FusedOk(fused[i], ranking[i], lists)
  }

  /** Every admitted candidate among the best of its query is returned once, in ranking order. */
  method SearchWithPlan<Query>(s: Search<Query>, queries: seq<Query>, k: int)
    returns (lists: Lists, fused: seq<Fused>)
    ensures Searched(s, queries, k, lists) && FusedWhole(fused, lists)
    ensures |fused| <= NonNegative(Total(k))
  {
    var active := ActiveQueries(queries, k);
    lists := SearchQueries(s, active);
    SearchStaysWithinBudget(s, queries, k, lists);
    fused := FuseAll(lists);
  }

  /** The fusing limit leaves room for every candidate, so none is lost. */
  method FuseAll(lists: Lists) returns (fused: seq<Fused>)
    ensures FusedWhole(fused, lists) && |fused| <= TotalLength(lists)
  {
    assert !DividesByZero(lists, RRF_K);
    ghost var ranking;
    var result;
    result, ranking := FuseQueryResults(lists, TotalLength(lists), RRF_K);
    FullLimitKeepsAll(ranking, lists, RRF_K, TotalLength(lists));
    RankingLength(ranking, lists, RRF_K);
    fused := result.fused;
  }
}

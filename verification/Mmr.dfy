/**
 Greedy reranking by maximal marginal relevance.  Scores are reals; a text is the set of its lower-case words.
 */
module Mmr {
  import opened Options
  import opened Sequences
  import opened Sets

  datatype Item = Item(id: int, words: set<string>, score: real)

  /** A text without words stands for one placeholder word. */
  function Tokens(x: Item): (r: set<string>)
    ensures r != {}
  {
    if x.words == {} then {"<empty>"} else x.words
  }

  function Jaccard(a: set<string>, b: set<string>): real {
    |a * b| as real / (if |a + b| > 1 then |a + b| else 1) as real
  }

  /** The largest similarity to a selected item. */
  function MaxSimilarity(selected: seq<Item>, x: Item): real
    requires selected != []
  {
    var last := Jaccard(Tokens(x), Tokens(selected[|selected| - 1]));
    if |selected| == 1 then last
    else
      var others := MaxSimilarity(selected[..|selected| - 1], x);
      if last > others then last else others
  }

  function Value(selected: seq<Item>, x: Item, mmrLambda: real): real
    requires selected != []
  {
    mmrLambda * x.score - (1.0 - mmrLambda) * MaxSimilarity(selected, x)
  }

  /** `i` is the earliest best candidate, and it beats the starting value of the search. */
  ghost predicate IsBest(selected: seq<Item>, candidates: seq<Item>, mmrLambda: real, i: nat)
    requires selected != []
  {
    && i < |candidates|
    && Value(selected, candidates[i], mmrLambda) > -1.0
    && (forall j :: 0 <= j < |candidates| ==> Value(selected, candidates[j], mmrLambda) <= Value(selected, candidates[i], mmrLambda))
    && (forall j :: 0 <= j < i ==> Value(selected, candidates[j], mmrLambda) < Value(selected, candidates[i], mmrLambda))
  }

  ghost predicate NoneBeats(selected: seq<Item>, candidates: seq<Item>, mmrLambda: real)
    requires selected != []
  {
    forall j :: 0 <= j < |candidates| ==> Value(selected, candidates[j], mmrLambda) <= -1.0
  }

  function Drop(s: seq<Item>, i: nat): seq<Item>
    requires i < |s|
  {
    s[..i] + s[i + 1..]
  }

  /**
   `selected` is what the greedy choice makes of `results`: `left` are the candidates not chosen, in their
   order.  The first result comes first, and every later pick is the earliest best of what was left.
   */
  ghost predicate Greedy(results: seq<Item>, selected: seq<Item>, left: seq<Item>, mmrLambda: real)
    decreases |selected|
  {
    if selected == [] then left == results
    else if |selected| == 1 then results != [] && selected[0] == results[0] && left == results[1..]
    else exists i: nat, before: seq<Item> {:trigger Pick(before, left, selected, i)} ::
        && Pick(before, left, selected, i)
        && Greedy(results, selected[..|selected| - 1], before, mmrLambda)
        && IsBest(selected[..|selected| - 1], before, mmrLambda, i)
  }

  /** The last selected item is candidate `i` of `before`, and `left` are the others. */
  ghost predicate Pick(before: seq<Item>, left: seq<Item>, selected: seq<Item>, i: nat) {
    i < |before| && selected != [] && selected[|selected| - 1] == before[i] && left == Drop(before, i)
  }

  method FindBest(selected: seq<Item>, candidates: seq<Item>, mmrLambda: real) returns (best: Option<nat>)
    requires selected != []
    ensures best.Some? ==> IsBest(selected, candidates, mmrLambda, best.value)
    ensures best.None? ==> NoneBeats(selected, candidates, mmrLambda)
  {
    var bestIdx, bestValue := -1, -1.0;
    for i := 0 to |candidates|
      invariant -1 <= bestIdx < i
      invariant bestIdx == -1 ==> bestValue == -1.0
      invariant bestIdx >= 0 ==> bestValue == Value(selected, candidates[bestIdx], mmrLambda) > -1.0
      invariant forall j :: 0 <= j < i ==> Value(selected, candidates[j], mmrLambda) <= bestValue
      invariant forall j :: 0 <= j < bestIdx ==> Value(selected, candidates[j], mmrLambda) < bestValue
    {
      var value := Value(selected, candidates[i], mmrLambda);
      if value > bestValue {
        bestIdx, bestValue := i, value;
      }
    }
    best := if bestIdx >= 0 then Some(bestIdx) else None;
  }

  /** A greedy choice of at most `k` items, shorter only when no candidate left beats the starting value. */
  ghost predicate IsCut(results: seq<Item>, k: int, mmrLambda: real, selected: seq<Item>, left: seq<Item>) {
    && Greedy(results, selected, left, mmrLambda)
    && |selected| <= (if k > 0 then k else 0)
    && (|selected| < k ==> selected != [] && NoneBeats(selected, left, mmrLambda))
  }

  /** The result is the input when it is short enough, and otherwise a greedy choice of at most `k` items. */
  method ApplyMmr(results: seq<Item>, k: int, mmrLambda: real) returns (selected: seq<Item>)
    ensures if |results| <= k then selected == results else exists left :: IsCut(results, k, mmrLambda, selected, left)
  {
    if |results| <= k {
      return results;
    }
    selected := [];
    var candidates := results;
    while candidates != [] && |selected| < k
      invariant Greedy(results, selected, candidates, mmrLambda)
      invariant |selected| <= (if k > 0 then k else 0) && |candidates| + |selected| == |results|
      decreases |candidates|
    {
      if selected == [] {
        selected, candidates := [candidates[0]], candidates[1..];
      } else {
        var best := FindBest(selected, candidates, mmrLambda);
        if best.None? {
          assert IsCut(results, k, mmrLambda, selected, candidates);
          return selected;
        }
        ghost var before, init := candidates, selected;
        selected, candidates := selected + [candidates[best.value]], Drop(candidates, best.value);
        assert selected[..|selected| - 1] == init;
        assert Pick(before, candidates, selected, best.value);
      }
    }
    assert IsCut(results, k, mmrLambda, selected, candidates);
  }

  // Similarity.

  lemma FractionRange(n: nat, d: nat)
    requires n <= d && d >= 1
    ensures 0.0 <= n as real / d as real <= 1.0
    ensures n as real / d as real == 1.0 <==> n == d
  {
    var q := n as real / d as real;
    assert q * d as real == n as real;
    SignOfProduct(q, d as real);
    SignOfProduct(q - 1.0, d as real);
    assert (q - 1.0) * d as real == n as real - d as real;
  }

  lemma SignOfProduct(x: real, d: real)
    requires d > 0.0
    ensures (x < 0.0 <==> x * d < 0.0) && (x == 0.0 <==> x * d == 0.0)
  {
    if x > 0.0 {
      assert x * d > 0.0;
    } else if x < 0.0 {
      assert -x * d > 0.0;
      assert -x * d == -(x * d);
    }
  }

  lemma JaccardRange(a: set<string>, b: set<string>)
    requires a != {}
    ensures 0.0 <= Jaccard(a, b) <= 1.0
    ensures Jaccard(a, b) == 1.0 <==> a == b
  {
    var meet, join := a * b, a + b;
    assert a <= join && |join| >= 1 by {
      SubsetCount(a, join);
    }
    SubsetCount(meet, join);
    FractionRange(|meet|, |join|);
    if a == b {
      assert meet == join;
    }
    if |meet| == |join| {
      SubsetCount(meet, join);
      forall x ensures x in a <==> x in b {
        assert x in join <==> x in meet;
      }
    }
  }

  lemma {:induction false} MaxSimilarityRange(selected: seq<Item>, x: Item)
    requires selected != []
    ensures 0.0 <= MaxSimilarity(selected, x) <= 1.0
    ensures MaxSimilarity(selected, x) == 1.0 <==> exists y :: y in selected && Tokens(y) == Tokens(x)
  {
    var init, last := selected[..|selected| - 1], selected[|selected| - 1];
    JaccardRange(Tokens(x), Tokens(last));
    assert selected == init + [last] && last in selected;
    if |selected| > 1 {
      MaxSimilarityRange(init, x);
    }
  }

  /** The similarity of two word sets, cross-multiplied: common words against all words. */
  lemma JaccardIsRatio(a: set<string>, b: set<string>)
    requires a != {}
    ensures |a + b| >= 1 && Jaccard(a, b) * |a + b| as real == |a * b| as real
  {
    SubsetCount(a, a + b);
    var n, d := |a * b| as real, |a + b| as real;
    assert n / d * d == n;
  }

  /** A text keeps its words; the placeholder stands in only when there are none. */
  lemma TokensAreWords(x: Item)
    ensures if x.words == {} then Tokens(x) == {"<empty>"} else Tokens(x) == x.words
  {}

  /** How many words two items have in common, and how many together. */
  function Common(x: Item, y: Item): nat { |Tokens(x) * Tokens(y)| }

  function Together(x: Item, y: Item): nat { |Tokens(x) + Tokens(y)| }

  /** `m` is the share of common words of the two items, or at least that. */
  predicate IsShare(x: Item, y: Item, m: real) { m * Together(x, y) as real == Common(x, y) as real }

  predicate AtLeastShare(x: Item, y: Item, m: real) { m * Together(x, y) as real >= Common(x, y) as real }

  /** `m` is the largest share of common words between `x` and a selected item. */
  ghost predicate IsMaxShare(selected: seq<Item>, x: Item, m: real) {
    (exists y :: y in selected && IsShare(x, y, m)) && forall y :: y in selected ==> AtLeastShare(x, y, m)
  }

  lemma ItemsShare(x: Item, y: Item)
    ensures Together(x, y) >= 1 && IsShare(x, y, Jaccard(Tokens(x), Tokens(y)))
  {
    JaccardIsRatio(Tokens(x), Tokens(y));
  }

  lemma ProductOrder(m: real, n: real, d: real)
    requires d > 0.0
    ensures m <= n <==> m * d <= n * d
  {
    SignOfProduct(n - m, d);
    assert (n - m) * d == n * d - m * d;
  }

  /** The similarity to the selected items is the largest share of common words. */
  lemma {:induction false} SimilarityIsShare(selected: seq<Item>, x: Item)
    requires selected != []
    ensures IsMaxShare(selected, x, MaxSimilarity(selected, x))
  {
    var init, last := selected[..|selected| - 1], selected[|selected| - 1];
    ItemsShare(x, last);
    if |selected| == 1 {
      assert last in selected;
    } else {
      SimilarityIsShare(init, x);
      OneMoreShare(init, last, x, MaxSimilarity(init, x), Jaccard(Tokens(x), Tokens(last)));
      assert selected == init + [last];
    }
  }

  lemma OneMoreShare(init: seq<Item>, last: Item, x: Item, m: real, n: real)
    requires IsMaxShare(init, x, m) && IsShare(x, last, n)
    ensures IsMaxShare(init + [last], x, if n > m then n else m)
  {
    var best := if n > m then n else m;
    forall y | y in init + [last] ensures AtLeastShare(x, y, best) {
      if y in init {
        LargerShare(x, y, m, best);
      } else {
        LargerShare(x, last, n, best);
      }
    }
    var y :| y in init && IsShare(x, y, m);
    assert y in init + [last] && last in init + [last];
    assert IsShare(x, if n > m then last else y, best);
  }

  lemma LargerShare(x: Item, y: Item, m: real, n: real)
    requires AtLeastShare(x, y, m) && m <= n
    ensures AtLeastShare(x, y, n)
  {
    ItemsShare(x, y);
    ProductOrder(m, n, Together(x, y) as real);
  }

  // What a greedy choice is.

  lemma SubsetStep(results: seq<Item>, init: seq<Item>, before: seq<Item>, i: nat)
    requires i < |before| && multiset(init) + multiset(before) == multiset(results)
    ensures multiset(init + [before[i]]) + multiset(Drop(before, i)) == multiset(results)
  {
    assert before == before[..i] + [before[i]] + before[i + 1..];
    assert multiset(before) == multiset(before[..i]) + multiset{before[i]} + multiset(before[i + 1..]);
  }

  /** The last step of a greedy choice. */
  lemma LastPick(results: seq<Item>, selected: seq<Item>, left: seq<Item>, mmrLambda: real)
    returns (init: seq<Item>, i: nat, before: seq<Item>)
    requires Greedy(results, selected, left, mmrLambda) && |selected| > 1
    ensures init == selected[..|selected| - 1] && i < |before| && selected == init + [before[i]] && left == Drop(before, i)
    ensures Greedy(results, init, before, mmrLambda) && IsBest(init, before, mmrLambda, i)
  {
    init := selected[..|selected| - 1];
    i, before :| Pick(before, left, selected, i) && Greedy(results, init, before, mmrLambda) && IsBest(init, before, mmrLambda, i);
  }

  /** Selected and left items together are the input, each as often as in the input. */
  lemma {:induction false} GreedyIsSubset(results: seq<Item>, selected: seq<Item>, left: seq<Item>, mmrLambda: real)
    requires Greedy(results, selected, left, mmrLambda)
    ensures multiset(selected) + multiset(left) == multiset(results)
    ensures selected != [] ==> selected[0] == results[0]
    decreases |selected|
  {
    if |selected| == 1 {
      assert results == [results[0]] + left && selected == [results[0]];
    } else if |selected| > 1 {
      var init, i, before := LastPick(results, selected, left, mmrLambda);
      GreedyIsSubset(results, init, before, mmrLambda);
      SubsetStep(results, init, before, i);
    }
  }

  /** Every pick after the first beats or equals each item that is selected later or never. */
  lemma {:induction false} PicksAreBest(results: seq<Item>, selected: seq<Item>, left: seq<Item>, mmrLambda: real, n: nat, x: Item)
    requires Greedy(results, selected, left, mmrLambda) && 1 <= n < |selected|
    requires x in selected[n..] || x in left
    ensures Value(selected[..n], selected[n], mmrLambda) > -1.0
    ensures Value(selected[..n], x, mmrLambda) <= Value(selected[..n], selected[n], mmrLambda)
    decreases |selected|
  {
    var init, i, before := LastPick(results, selected, left, mmrLambda);
    if n == |init| {
      assert init == selected[..n] && selected[n..] == [before[i]];
      assert x in before;
    } else {
      assert init[..n] == selected[..n] && init[n] == selected[n];
      assert selected[n..] == init[n..] + [before[i]];
      PicksAreBest(results, init, before, mmrLambda, n, x);
    }
  }

  /** With the shares `m` and `n` of common words, `y` weighs more than -1 and at least as much as `x`. */
  predicate Outweighs(mmrLambda: real, y: Item, m: real, x: Item, n: real) {
    && mmrLambda * y.score - (1.0 - mmrLambda) * m > -1.0
    && mmrLambda * y.score - (1.0 - mmrLambda) * m >= mmrLambda * x.score - (1.0 - mmrLambda) * n
  }

  /**
   What a pick weighs: its score against its largest share of common words with what is selected.  Nothing that is
   selected later or never weighs more, and every pick weighs more than -1.
   */
  lemma PicksOutweigh(results: seq<Item>, selected: seq<Item>, left: seq<Item>, mmrLambda: real, k: nat, x: Item, m: real, n: real)
    requires Greedy(results, selected, left, mmrLambda) && 1 <= k < |selected|
    requires x in selected[k..] || x in left
    requires IsMaxShare(selected[..k], selected[k], m) && IsMaxShare(selected[..k], x, n)
    ensures Outweighs(mmrLambda, selected[k], m, x, n)
  {
    PicksAreBest(results, selected, left, mmrLambda, k, x);
    BestOutweighs(selected[..k], selected[k], mmrLambda, x, m, n);
  }

  lemma BestOutweighs(init: seq<Item>, y: Item, mmrLambda: real, x: Item, m: real, n: real)
    requires init != [] && Value(init, y, mmrLambda) > -1.0 && Value(init, x, mmrLambda) <= Value(init, y, mmrLambda)
    requires IsMaxShare(init, y, m) && IsMaxShare(init, x, n)
    ensures Outweighs(mmrLambda, y, m, x, n)
  {
    ValueWeighs(init, y, mmrLambda, m);
    ValueWeighs(init, x, mmrLambda, n);
  }

  lemma ValueWeighs(selected: seq<Item>, x: Item, mmrLambda: real, m: real)
    requires selected != [] && IsMaxShare(selected, x, m)
    ensures Value(selected, x, mmrLambda) == mmrLambda * x.score - (1.0 - mmrLambda) * m
  {
    SimilarityIsShare(selected, x);
    MaxShareUnique(selected, x, m, MaxSimilarity(selected, x));
  }

  lemma MaxShareUnique(selected: seq<Item>, x: Item, m: real, m': real)
    requires IsMaxShare(selected, x, m) && IsMaxShare(selected, x, m')
    ensures m == m'
  {
    ShareAtMost(selected, x, m, m');
    ShareAtMost(selected, x, m', m);
  }

  lemma ShareAtMost(selected: seq<Item>, x: Item, m: real, m': real)
    requires IsMaxShare(selected, x, m) && IsMaxShare(selected, x, m')
    ensures m <= m'
  {
    var y :| y in selected && IsShare(x, y, m);
    assert AtLeastShare(x, y, m');
    ItemsShare(x, y);
    ProductOrder(m, m', Together(x, y) as real);
  }

  /** What is not selected stays in its order. */
  lemma {:induction false} LeftInOrder(results: seq<Item>, selected: seq<Item>, left: seq<Item>, mmrLambda: real)
    requires Greedy(results, selected, left, mmrLambda)
    ensures Subsequence(left, results)
    decreases |selected|
  {
    SubsequenceSelf(results);
    if |selected| == 1 {
      SubsequenceSelf(left);
    } else if |selected| > 1 {
      var init, i, before := LastPick(results, selected, left, mmrLambda);
      LeftInOrder(results, init, before, mmrLambda);
      SubsequenceWithout(before, i);
      SubsequenceOf(left, before, results);
    }
  }

  /** With the shares `m` and `n` of common words, `y` weighs more than `x`. */
  predicate Exceeds(mmrLambda: real, y: Item, m: real, x: Item, n: real) {
    mmrLambda * y.score - (1.0 - mmrLambda) * m > mmrLambda * x.score - (1.0 - mmrLambda) * n
  }

  /** Among candidates of the same weight the earliest is picked. */
  lemma PickIsEarliest(results: seq<Item>, selected: seq<Item>, left: seq<Item>, mmrLambda: real, m: real)
    returns (before: seq<Item>, i: nat)
    requires Greedy(results, selected, left, mmrLambda) && |selected| > 1
    requires IsMaxShare(selected[..|selected| - 1], selected[|selected| - 1], m)
    ensures Subsequence(before, results) && i < |before| && before[i] == selected[|selected| - 1] && left == before[..i] + before[i + 1..]
    ensures forall j, n :: 0 <= j < i && IsMaxShare(selected[..|selected| - 1], before[j], n) ==>
      Exceeds(mmrLambda, before[i], m, before[j], n)
  {
    var init;
    init, i, before := LastPick(results, selected, left, mmrLambda);
    LeftInOrder(results, init, before, mmrLambda);
    forall j, n | 0 <= j < i && IsMaxShare(init, before[j], n) ensures Exceeds(mmrLambda, before[i], m, before[j], n) {
      LessExceeded(init, before[i], mmrLambda, before[j], m, n);
    }
  }

  lemma LessExceeded(init: seq<Item>, y: Item, mmrLambda: real, x: Item, m: real, n: real)
    requires init != [] && Value(init, x, mmrLambda) < Value(init, y, mmrLambda)
    requires IsMaxShare(init, y, m) && IsMaxShare(init, x, n)
    ensures Exceeds(mmrLambda, y, m, x, n)
  {
    ValueWeighs(init, y, mmrLambda, m);
    ValueWeighs(init, x, mmrLambda, n);
  }

  /** Where the choice stops early, whatever is left weighs -1 or less. */
  lemma StopsOnlyBelow(results: seq<Item>, k: int, selected: seq<Item>, left: seq<Item>, mmrLambda: real, x: Item, m: real)
    requires IsCut(results, k, mmrLambda, selected, left) && |selected| < k && x in left && IsMaxShare(selected, x, m)
    ensures mmrLambda * x.score - (1.0 - mmrLambda) * m <= -1.0
  {
    ValueWeighs(selected, x, mmrLambda, m);
  }

  /** The greedy choice of a given length is unique. */
  lemma {:induction false} GreedyUnique(results: seq<Item>, a: seq<Item>, leftA: seq<Item>, b: seq<Item>, leftB: seq<Item>, mmrLambda: real)
    requires Greedy(results, a, leftA, mmrLambda) && Greedy(results, b, leftB, mmrLambda) && |a| == |b|
    ensures a == b && leftA == leftB
    decreases |a|
  {
    if |a| > 1 {
      var initA, i, beforeA := LastPick(results, a, leftA, mmrLambda);
      var initB, j, beforeB := LastPick(results, b, leftB, mmrLambda);
      GreedyUnique(results, initA, beforeA, initB, beforeB, mmrLambda);
      assert i == j;
    }
  }

  /** The choice for a smaller number is a prefix of the choice for a larger one. */
  lemma {:induction false} SmallerIsPrefix(results: seq<Item>, a: seq<Item>, leftA: seq<Item>, b: seq<Item>, leftB: seq<Item>, mmrLambda: real)
    requires Greedy(results, a, leftA, mmrLambda) && Greedy(results, b, leftB, mmrLambda) && |a| <= |b|
    ensures a == b[..|a|]
    decreases |b|
  {
    if |a| == |b| {
      GreedyUnique(results, a, leftA, b, leftB, mmrLambda);
    } else if |b| > 1 {
      var init, j, before := LastPick(results, b, leftB, mmrLambda);
      SmallerIsPrefix(results, a, leftA, init, before, mmrLambda);
    }
  }

  // How many items are chosen.

  predicate NonNegative(results: seq<Item>) { forall i :: 0 <= i < |results| ==> results[i].score >= 0.0 }

  /** With non-negative scores and a positive weight on relevance a stopped choice has nothing left, so it is full. */
  lemma RelevanceNeverStops(results: seq<Item>, selected: seq<Item>, left: seq<Item>, mmrLambda: real)
    requires Greedy(results, selected, left, mmrLambda) && selected != [] && NonNegative(results) && 0.0 < mmrLambda <= 1.0
    requires NoneBeats(selected, left, mmrLambda)
    ensures left == [] && |selected| == |results|
  {
    GreedyIsSubset(results, selected, left, mmrLambda);
    if left != [] {
      assert left[0] in multiset(left) && left[0] in multiset(results);
      PositiveItem(selected, left[0], mmrLambda);
    }
    SumOfSizes(results, selected, left);
  }

  lemma SumOfSizes(results: seq<Item>, selected: seq<Item>, left: seq<Item>)
    requires multiset(selected) + multiset(left) == multiset(results)
    ensures |selected| + |left| == |results|
  {
    assert |multiset(selected) + multiset(left)| == |multiset(results)|;
  }

  lemma PositiveItem(selected: seq<Item>, x: Item, mmrLambda: real)
    requires selected != [] && x.score >= 0.0 && 0.0 < mmrLambda <= 1.0
    ensures Value(selected, x, mmrLambda) > -1.0
  {
    MaxSimilarityRange(selected, x);
    PositiveValue(mmrLambda, x.score, MaxSimilarity(selected, x));
  }

  lemma PositiveValue(mmrLambda: real, score: real, similarity: real)
    requires 0.0 < mmrLambda <= 1.0 && score >= 0.0 && 0.0 <= similarity <= 1.0
    ensures mmrLambda * score - (1.0 - mmrLambda) * similarity > -1.0
  {
    assert mmrLambda * score >= 0.0;
    assert (1.0 - mmrLambda) * similarity <= 1.0 - mmrLambda;
  }

  /** With non-negative scores and 0 < mmrLambda <= 1, exactly `k` of more than `k` candidates are returned. */
  lemma CutIsFull(results: seq<Item>, k: int, mmrLambda: real, selected: seq<Item>, left: seq<Item>)
    requires IsCut(results, k, mmrLambda, selected, left) && k < |results| && NonNegative(results) && 0.0 < mmrLambda <= 1.0
    ensures |selected| == if k > 0 then k else 0
    ensures multiset(selected) <= multiset(results)
    ensures selected != [] ==> selected[0] == results[0]
  {
    GreedyIsSubset(results, selected, left, mmrLambda);
    if |selected| < k {
      RelevanceNeverStops(results, selected, left, mmrLambda);
    }
  }

  // Diversity alone.

  function TokenSets(s: seq<Item>): set<set<string>> { set x | x in s :: Tokens(x) }

  predicate AllDifferent(s: seq<Item>) { forall i, j :: 0 <= i < j < |s| ==> Tokens(s[i]) != Tokens(s[j]) }

  lemma {:induction false} DiversityPicksDifferent(results: seq<Item>, selected: seq<Item>, left: seq<Item>)
    requires Greedy(results, selected, left, 0.0)
    ensures AllDifferent(selected)
    decreases |selected|
  {
    if |selected| > 1 {
      var init, i, before := LastPick(results, selected, left, 0.0);
      DiversityPicksDifferent(results, init, before);
      MaxSimilarityRange(init, before[i]);
      forall j | 0 <= j < |init| ensures Tokens(selected[j]) != Tokens(selected[|init|]) {
        assert init[j] in init;
      }
    }
  }

  lemma {:induction false} DifferentCount(s: seq<Item>)
    ensures |TokenSets(s)| <= |s|
    ensures AllDifferent(s) ==> |TokenSets(s)| == |s|
  {
    if s != [] {
      var init, last := s[..|s| - 1], s[|s| - 1];
      DifferentCount(init);
      assert s == init + [last];
      assert TokenSets(s) == TokenSets(init) + {Tokens(last)};
    }
  }

  /**
   With lambda = 0 only new word sets are picked, and the choice stops early exactly when none is left:
   the number chosen is the number of different word sets, or `k` when that is smaller.
   */
  lemma DiversityCount(results: seq<Item>, selected: seq<Item>, left: seq<Item>, k: int)
    requires IsCut(results, k, 0.0, selected, left) && 0 < k && results != []
    ensures AllDifferent(selected)
    ensures |selected| == if |TokenSets(results)| < k then |TokenSets(results)| else k
  {
    GreedyIsSubset(results, selected, left, 0.0);
    DiversityPicksDifferent(results, selected, left);
    DifferentCount(selected);
    SelectedOrLeft(results, selected, left);
    assert TokenSets(selected) <= TokenSets(results);
    SubsetCount(TokenSets(selected), TokenSets(results));
    if |selected| < k {
      forall x | x in left ensures Tokens(x) in TokenSets(selected) {
        MaxSimilarityRange(selected, x);
      }
      assert TokenSets(results) == TokenSets(selected);
    }
  }

  lemma SelectedOrLeft(results: seq<Item>, selected: seq<Item>, left: seq<Item>)
    requires multiset(selected) + multiset(left) == multiset(results)
    ensures forall x :: x in results <==> x in selected || x in left
  {
    forall x ensures x in results <==> x in selected || x in left {
      assert x in results <==> x in multiset(results);
      assert x in selected <==> x in multiset(selected);
      assert x in left <==> x in multiset(left);
    }
  }

  // Relevance alone.

  predicate Descending(s: seq<Item>) { forall i, j :: 0 <= i < j < |s| ==> s[i].score >= s[j].score }

  /** With lambda = 1 and descending scores the choice is a prefix of the input. */
  lemma {:induction false} RelevanceIsPrefix(results: seq<Item>, selected: seq<Item>, left: seq<Item>)
    requires Greedy(results, selected, left, 1.0) && Descending(results)
    ensures selected + left == results
    decreases |selected|
  {
    if |selected| > 1 {
      var init, i, before := LastPick(results, selected, left, 1.0);
      RelevanceIsPrefix(results, init, before);
      FirstIsBest(init, before, results, i);
      FirstDropped(init, before);
    }
  }

  lemma FirstDropped(init: seq<Item>, before: seq<Item>)
    requires before != []
    ensures init + [before[0]] + Drop(before, 0) == init + before
  {
    assert before == [before[0]] + Drop(before, 0);
  }

  lemma FirstIsBest(init: seq<Item>, before: seq<Item>, results: seq<Item>, i: nat)
    requires init != [] && IsBest(init, before, 1.0, i) && Descending(results) && init + before == results
    ensures i == 0
  {
    assert results[|init|] == before[0] && results[|init| + i] == before[i];
    assert Value(init, before[0], 1.0) == before[0].score && Value(init, before[i], 1.0) == before[i].score;
  }

  /** With lambda = 1, descending scores above -1 give exactly the best `k`. */
  lemma RelevanceIsTopK(results: seq<Item>, selected: seq<Item>, left: seq<Item>, k: int)
    requires IsCut(results, k, 1.0, selected, left) && Descending(results) && 0 < k < |results|
    requires results[k - 1].score > -1.0
    ensures selected == results[..k]
  {
    RelevanceIsPrefix(results, selected, left);
    forall j | 0 <= j < |left| ensures Value(selected, left[j], 1.0) == left[j].score && left[j] == results[|selected| + j] {}
  }
}

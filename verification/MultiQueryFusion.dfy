/**
 Splitting the candidate budget over several queries and fusing their result lists by reciprocal rank.

 `FuseQueryResults` fills its dictionaries in nested loops.  The reference says what each of them holds
 in terms of the lists alone: the reciprocal sum, the number of lists, the best rank and the first
 occurrence of a document.  Scores are real numbers; rounding to six decimals is rounding half to even.
 */
module MultiQueryFusion {
  import opened Sequences
  import opened Sets
  import opened Sorting

  /** A candidate of one query; `content` stands for everything a fused result copies from it. */
  datatype Hybrid = Hybrid(docId: int, content: int)

  datatype Fused = Fused(docId: int, finalScore: real, rrfScore: real, crossQuerySupport: real, content: int)

  datatype Result = Success(fused: seq<Fused>) | ZeroDivision

  // Budgets.

  function Clamp(x: int, lo: int, hi: int): int { if x < lo then lo else if x > hi then hi else x }

  function NonNegative(x: int): nat { if x < 0 then 0 else x }

  /** The budget of each query; at most three queries are served. */
  function SplitCandidateBudget(total: int, queryCount: int): (r: seq<nat>)
    ensures |r| == Clamp(queryCount, 1, 3)
    ensures Sum(r) == NonNegative(total)
    ensures forall i, j :: 0 <= i < j < |r| ==> r[j] <= r[i] <= r[j] + 1
  {
    var count := Clamp(queryCount, 1, 3);
    var base, remainder := NonNegative(total) / count, NonNegative(total) % count;
    var r := seq(count, i => base + (if i < remainder then 1 else 0));
    SumOfSplit(r, base, remainder);
    assert count == 1 || count == 2 || count == 3;
    r
  }

  function Sum(s: seq<nat>): nat {
    if s == [] then 0 else s[0] + Sum(s[1..])
  }

  lemma {:induction false} SumOfSplit(r: seq<nat>, base: nat, extra: nat)
    requires extra <= |r|
    requires forall i :: 0 <= i < |r| ==> r[i] == base + (if i < extra then 1 else 0)
    ensures Sum(r) == |r| * base + extra
  {
    if r != [] {
      SumOfSplit(r[1..], base, if extra == 0 then 0 else extra - 1);
      assert |r| * base == base + (|r| - 1) * base;
    }
  }

  /** One budget for at most one query, two for two and three for three or more; a negative total gives nothing. */
  lemma BudgetCounts(total: int, queryCount: int)
    ensures |SplitCandidateBudget(total, queryCount)| == if queryCount <= 1 then 1 else if queryCount == 2 then 2 else 3
    ensures total >= 0 ==> Sum(SplitCandidateBudget(total, queryCount)) == total
    ensures total < 0 ==> forall b :: b in SplitCandidateBudget(total, queryCount) ==> b == 0
  {
    var r := SplitCandidateBudget(total, queryCount);
    forall i | 0 <= i < |r| && total < 0 ensures r[i] == 0 {
      SumAtLeast(r, i);
    }
  }

  lemma {:induction false} SumAtLeast(r: seq<nat>, i: nat)
    requires i < |r|
    ensures Sum(r) >= r[i]
  {
    if i > 0 {
      SumAtLeast(r[1..], i - 1);
    }
  }

  function TotalLength<T>(lists: seq<seq<T>>): nat {
    if lists == [] then 0 else |lists[0]| + TotalLength(lists[1..])
  }

  lemma {:induction false} LengthsWithinBudgets<T>(lists: seq<seq<T>>, budgets: seq<nat>)
    requires |lists| <= |budgets|
    requires forall i :: 0 <= i < |lists| ==> |lists[i]| <= budgets[i]
    ensures TotalLength(lists) <= Sum(budgets)
  {
    if lists != [] {
      LengthsWithinBudgets(lists[1..], budgets[1..]);
    }
  }

  // Rounding.

  function RoundHalfEven(x: real): int {
    var f := x.Floor;
    var frac := x - f as real;
    if frac < 0.5 then f else if frac > 0.5 then f + 1 else if f % 2 == 0 then f else f + 1
  }

  function Round6(x: real): real {
    RoundHalfEven(x * 1000000.0) as real / 1000000.0
  }

  lemma RoundHalfEvenMonotone(x: real, y: real)
    requires x <= y
    ensures RoundHalfEven(x) <= RoundHalfEven(y)
  {
    assert x.Floor <= y.Floor;
  }

  lemma Round6Monotone(x: real, y: real)
    requires x <= y
    ensures Round6(x) <= Round6(y)
  {
    RoundHalfEvenMonotone(x * 1000000.0, y * 1000000.0);
  }

  /** Rounding gives a multiple of a millionth, no further than half of one away, and an even one at a tie. */
  ghost predicate IsRounded(y: real, x: real) {
    exists n :: IsNearest(n, y, x)
  }

  predicate IsNearest(n: int, y: real, x: real) {
    && 1000000.0 * y == n as real
    && -0.5 <= n as real - 1000000.0 * x <= 0.5
    && (n as real - 1000000.0 * x == 0.5 || n as real - 1000000.0 * x == -0.5 ==> n % 2 == 0)
  }

  lemma Round6IsRounded(x: real)
    ensures IsRounded(Round6(x), x)
  {
    assert IsNearest(RoundHalfEven(x * 1000000.0), Round6(x), x);
  }

  function Bonus(appearances: nat): real {
    var b := (appearances - 1) as real * 0.04;
    Round6(if b < 0.08 then b else 0.08)
  }

  lemma BonusMonotone(m: nat, n: nat)
    requires m <= n
    ensures Bonus(m) <= Bonus(n)
  {
    var b, c := (m - 1) as real * 0.04, (n - 1) as real * 0.04;
    assert b <= c;
    Round6Monotone(if b < 0.08 then b else 0.08, if c < 0.08 then c else 0.08);
  }

  // Bit masks.

  function SetBit(mask: nat, q: nat): nat {
    if q == 0 then mask - mask % 2 + 1 else 2 * SetBit(mask / 2, q - 1) + mask % 2
  }

  predicate TestBit(mask: nat, q: nat) {
    if q == 0 then mask % 2 == 1 else TestBit(mask / 2, q - 1)
  }

  function BitCount(mask: nat): nat {
    if mask == 0 then 0 else mask % 2 + BitCount(mask / 2)
  }

  lemma {:induction false} SetBitCounts(mask: nat, q: nat)
    ensures BitCount(SetBit(mask, q)) == BitCount(mask) + (if TestBit(mask, q) then 0 else 1)
    decreases q
  {
    if q == 0 {
      assert (mask - mask % 2 + 1) / 2 == mask / 2;
    } else {
      SetBitCounts(mask / 2, q - 1);
      assert SetBit(mask, q) / 2 == SetBit(mask / 2, q - 1);
      assert SetBit(mask, q) % 2 == mask % 2;
    }
  }

  lemma {:induction false} SetBitTests(mask: nat, q: nat, j: nat)
    ensures TestBit(SetBit(mask, q), j) <==> j == q || TestBit(mask, j)
    decreases q
  {
    if q == 0 {
      assert (mask - mask % 2 + 1) / 2 == mask / 2;
    } else {
      assert SetBit(mask, q) / 2 == SetBit(mask / 2, q - 1);
      if j > 0 {
        SetBitTests(mask / 2, q - 1, j - 1);
      }
    }
  }

  lemma {:induction false} ZeroHasNoBits(j: nat)
    ensures !TestBit(0, j)
  {
    if j > 0 {
      ZeroHasNoBits(j - 1);
    }
  }

  // The reference: what the lists say about a document.

  type Lists = seq<seq<Hybrid>>

  predicate In(l: seq<Hybrid>, d: int) { exists r :: 0 <= r < |l| && l[r].docId == d }

  predicate Occurs(ls: Lists, d: int) { exists q :: 0 <= q < |ls| && In(ls[q], d) }

  /** The reciprocal of a rank; the code divides by zero when `k + rank + 1` is zero. */
  function Reciprocal(k: int, rank: nat): real {
    if k + rank + 1 == 0 then 0.0 else 1.0 / (k + rank + 1) as real
  }

  function ListScore(l: seq<Hybrid>, d: int, k: int): real {
    if l == [] then 0.0
    else ListScore(l[..|l| - 1], d, k) + (if l[|l| - 1].docId == d then Reciprocal(k, |l| - 1) else 0.0)
  }

  function TotalScore(ls: Lists, d: int, k: int): real {
    if ls == [] then 0.0 else TotalScore(ls[..|ls| - 1], d, k) + ListScore(ls[|ls| - 1], d, k)
  }

  /** The number of lists that contain the document. */
  function Appearances(ls: Lists, d: int): nat {
    if ls == [] then 0 else Appearances(ls[..|ls| - 1], d) + (if In(ls[|ls| - 1], d) then 1 else 0)
  }

  /** The positions of the lists that contain the document. */
  ghost function Holding(ls: Lists, d: int): set<nat> { set q: nat | q < |ls| && In(ls[q], d) }

  lemma {:induction false} AppearancesCount(ls: Lists, d: int)
    ensures Appearances(ls, d) == |Holding(ls, d)|
  {
    if ls == [] {
      assert Holding(ls, d) == {};
    } else {
      var init, n := ls[..|ls| - 1], |ls| - 1;
      AppearancesCount(init, d);
      assert Holding(ls, d) == Holding(init, d) + (if In(ls[n], d) then {n} else {});
      assert n !in Holding(init, d);
    }
  }

  /** The support of a document: nothing in one list, 0.04 in two, 0.08 in three or more. */
  predicate IsSupport(x: real, lists: nat) {
    x == if lists <= 1 then 0.0 else if lists == 2 then 0.04 else 0.08
  }

  lemma BonusIsSupport(n: nat)
    requires n >= 1
    ensures IsSupport(Bonus(n), n)
  {
    var b := (n - 1) as real * 0.04;
    assert n >= 3 ==> b >= 0.08;
    assert RoundHalfEven(0.0) == 0 && RoundHalfEven(40000.0) == 40000 && RoundHalfEven(80000.0) == 80000;
  }

  /**
   The sum of a document over the lists, one hit at a time: another document adds nothing, the document itself at
   rank `|l|` adds the reciprocal of `k + |l| + 1`.
   */
  lemma ScoreLaws(ls: Lists, l: seq<Hybrid>, h: Hybrid, d: int, k: int)
    ensures TotalScore([], d, k) == 0.0 && TotalScore(ls + [[]], d, k) == TotalScore(ls, d, k)
    ensures h.docId != d ==> TotalScore(ls + [l + [h]], d, k) == TotalScore(ls + [l], d, k)
    ensures h.docId == d && k + |l| + 1 != 0 ==>
      IsReciprocal(TotalScore(ls + [l + [h]], d, k) - TotalScore(ls + [l], d, k), k + |l| + 1)
  {
    TotalSnoc(ls, [], d, k);
    OneMoreHit(ls, l, h, d, k);
    ReciprocalIs(k, |l|);
  }

  predicate IsReciprocal(x: real, n: int) { x * n as real == 1.0 }

  lemma OneMoreHit(ls: Lists, l: seq<Hybrid>, h: Hybrid, d: int, k: int)
    ensures TotalScore(ls + [l + [h]], d, k) - TotalScore(ls + [l], d, k) == if h.docId == d then Reciprocal(k, |l|) else 0.0
  {
    TotalSnoc(ls, l, d, k);
    TotalSnoc(ls, l + [h], d, k);
    ListSnoc(l, h, d, k);
  }

  lemma ListSnoc(l: seq<Hybrid>, h: Hybrid, d: int, k: int)
    ensures ListScore(l + [h], d, k) == ListScore(l, d, k) + (if h.docId == d then Reciprocal(k, |l|) else 0.0)
  {
    assert (l + [h])[..|l|] == l;
  }

  lemma TotalSnoc(ls: Lists, l: seq<Hybrid>, d: int, k: int)
    ensures TotalScore(ls + [l], d, k) == TotalScore(ls, d, k) + ListScore(l, d, k)
  {
    assert (ls + [l])[..|ls|] == ls;
  }

  lemma ReciprocalIs(k: int, rank: nat)
    ensures k + rank + 1 != 0 ==> IsReciprocal(Reciprocal(k, rank), k + rank + 1)
  {
    var d := (k + rank + 1) as real;
    assert k + rank + 1 != 0 ==> 1.0 / d * d == 1.0;
  }

  /** The rank is taken by the document in some list and no smaller one is. */
  ghost predicate IsBestRank(ls: Lists, d: int, rank: nat) {
    && (exists q :: 0 <= q < |ls| && rank < |ls[q]| && ls[q][rank].docId == d)
    && (forall q, r :: 0 <= q < |ls| && 0 <= r < |ls[q]| && ls[q][r].docId == d ==> rank <= r)
  }

  /** The candidate is the first occurrence of the document in plan order. */
  ghost predicate IsFirst(ls: Lists, d: int, h: Hybrid) {
    exists q, r :: 0 <= q < |ls| && 0 <= r < |ls[q]| && ls[q][r] == h && h.docId == d
      && !Occurs(ls[..q], d) && !In(ls[q][..r], d)
  }

  /** The denominator of some rank is zero. */
  predicate DividesByZero(ls: Lists, k: int) {
    exists q :: 0 <= q < |ls| && 0 <= -k - 1 < |ls[q]|
  }

  // The loops.

  datatype Cell = Cell(rrf: real, mask: nat, bestRank: nat, representative: Hybrid)

  /** What the dictionaries hold after reading the lists `ls`. */
  ghost predicate Describes(acc: map<int, Cell>, ls: Lists, k: int) {
    forall d :: (d in acc <==> Occurs(ls, d)) && (d in acc ==> CellOk(acc[d], ls, d, k))
  }

  ghost predicate MaskOk(mask: nat, ls: Lists, d: int) {
    && BitCount(mask) == Appearances(ls, d)
    && forall j: nat :: TestBit(mask, j) <==> j < |ls| && In(ls[j], d)
  }

  ghost predicate CellOk(c: Cell, ls: Lists, d: int, k: int) {
    && c.rrf == TotalScore(ls, d, k)
    && MaskOk(c.mask, ls, d)
    && IsBestRank(ls, d, c.bestRank)
    && IsFirst(ls, d, c.representative)
  }

  function AddHit(acc: map<int, Cell>, q: nat, rank: nat, h: Hybrid, k: int): map<int, Cell> {
    var prior := if h.docId in acc then acc[h.docId] else Cell(0.0, 0, rank, h);
    acc[h.docId := Cell(prior.rrf + Reciprocal(k, rank), SetBit(prior.mask, q),
                        if prior.bestRank < rank then prior.bestRank else rank, prior.representative)]
  }

  /** `ls` with the hit `h` appended to its last list. */
  function Extend(ls: Lists, h: Hybrid): Lists
    requires ls != []
  {
    ls[|ls| - 1 := ls[|ls| - 1] + [h]]
  }

  lemma ExtendIn(ls: Lists, h: Hybrid, d: int)
    requires ls != []
    ensures forall q :: 0 <= q < |ls| ==>
      (In(Extend(ls, h)[q], d) <==> In(ls[q], d) || (q == |ls| - 1 && h.docId == d))
    ensures Occurs(Extend(ls, h), d) <==> Occurs(ls, d) || h.docId == d
  {
    var last, e := ls[|ls| - 1], Extend(ls, h);
    assert e[|ls| - 1] == last + [h];
    if h.docId == d {
      assert (last + [h])[|last|].docId == d;
      assert In(e[|ls| - 1], d);
    }
    forall r | 0 <= r < |last| && last[r].docId == d ensures In(last + [h], d) {
      assert (last + [h])[r].docId == d;
    }
    forall q | 0 <= q < |ls| && In(ls[q], d) ensures In(e[q], d) {}
    forall q | 0 <= q < |ls| && In(e[q], d) ensures In(ls[q], d) || (q == |ls| - 1 && h.docId == d) {
      var r :| 0 <= r < |e[q]| && e[q][r].docId == d;
      if q == |ls| - 1 && r < |last| {
        assert last[r].docId == d;
      }
    }
  }

  lemma ExtendScores(ls: Lists, h: Hybrid, d: int, k: int)
    requires ls != []
    ensures TotalScore(Extend(ls, h), d, k) ==
      TotalScore(ls, d, k) + (if h.docId == d then Reciprocal(k, |ls[|ls| - 1]|) else 0.0)
    ensures Appearances(Extend(ls, h), d) ==
      Appearances(ls, d) + (if h.docId == d && !In(ls[|ls| - 1], d) then 1 else 0)
  {
    var e, last := Extend(ls, h), ls[|ls| - 1];
    assert e[..|e| - 1] == ls[..|ls| - 1];
    assert (last + [h])[..|last|] == last;
    ExtendIn(ls, h, d);
  }

  lemma ExtendMask(ls: Lists, h: Hybrid, mask: nat)
    requires ls != [] && MaskOk(mask, ls, h.docId)
    ensures MaskOk(SetBit(mask, |ls| - 1), Extend(ls, h), h.docId)
  {
    var q, d := |ls| - 1, h.docId;
    SetBitCounts(mask, q);
    ExtendScores(ls, h, d, 0);
    ExtendIn(ls, h, d);
    forall j: nat ensures TestBit(SetBit(mask, q), j) <==> j < |ls| && In(Extend(ls, h)[j], d) {
      SetBitTests(mask, q, j);
    }
  }

  lemma OtherMask(ls: Lists, h: Hybrid, mask: nat, d: int)
    requires ls != [] && MaskOk(mask, ls, d) && d != h.docId
    ensures MaskOk(mask, Extend(ls, h), d)
  {
    ExtendScores(ls, h, d, 0);
    ExtendIn(ls, h, d);
  }

  lemma NewMask(ls: Lists, d: int)
    requires !Occurs(ls, d)
    ensures MaskOk(0, ls, d)
  {
    NoAppearances(ls, d);
    forall j: nat ensures !TestBit(0, j) {
      ZeroHasNoBits(j);
    }
  }

  lemma {:induction false} NoAppearances(ls: Lists, d: int)
    requires !Occurs(ls, d)
    ensures Appearances(ls, d) == 0 && forall k :: TotalScore(ls, d, k) == 0.0
  {
    if ls != [] {
      var init, last := ls[..|ls| - 1], ls[|ls| - 1];
      assert !In(ls[|ls| - 1], d);
      assert forall q :: 0 <= q < |init| ==> !In(ls[q], d);
      NoAppearances(init, d);
      forall k ensures ListScore(last, d, k) == 0.0 {
        AbsentScore(last, d, k);
      }
    }
  }

  lemma {:induction false} AbsentScore(l: seq<Hybrid>, d: int, k: int)
    requires !In(l, d)
    ensures ListScore(l, d, k) == 0.0
  {
    if l != [] {
      assert l[|l| - 1].docId != d;
      assert forall r :: 0 <= r < |l| - 1 ==> l[..|l| - 1][r].docId == l[r].docId;
      AbsentScore(l[..|l| - 1], d, k);
    }
  }

  lemma ExtendBestRank(ls: Lists, h: Hybrid, d: int, rank: nat)
    requires ls != [] && IsBestRank(ls, d, rank)
    ensures var n := |ls[|ls| - 1]|;
      IsBestRank(Extend(ls, h), d, if h.docId == d && n < rank then n else rank)
  {
    var e, last := Extend(ls, h), ls[|ls| - 1];
    var n := |last|;
    assert e[|ls| - 1] == last + [h];
    var q :| 0 <= q < |ls| && rank < |ls[q]| && ls[q][rank].docId == d;
    assert rank < |e[q]| && e[q][rank].docId == d;
    if h.docId == d {
      assert n < |e[|ls| - 1]| && e[|ls| - 1][n].docId == d;
    }
    forall p, r | 0 <= p < |e| && 0 <= r < |e[p]| && e[p][r].docId == d
      ensures (if h.docId == d && n < rank then n else rank) <= r
    {
      if !(p == |ls| - 1 && r == n) {
        assert r < |ls[p]| && ls[p][r].docId == d;
      }
    }
  }

  lemma NewBestRank(ls: Lists, h: Hybrid)
    requires ls != [] && !Occurs(ls, h.docId)
    ensures IsBestRank(Extend(ls, h), h.docId, |ls[|ls| - 1]|)
    ensures IsFirst(Extend(ls, h), h.docId, h)
  {
    var e, last := Extend(ls, h), ls[|ls| - 1];
    var n := |last|;
    assert e[|ls| - 1] == last + [h];
    assert e[|ls| - 1][n].docId == h.docId;
    forall p, r | 0 <= p < |e| && 0 <= r < |e[p]| && !(p == |ls| - 1 && r == n)
      ensures e[p][r].docId != h.docId
    {
      assert !In(ls[p], h.docId);
      assert e[p][r] == ls[p][r];
    }
    assert e[..|ls| - 1] == ls[..|ls| - 1];
    assert e[|ls| - 1][..n] == last;
    assert !In(last, h.docId);
    assert forall p :: 0 <= p < |ls| - 1 ==> ls[..|ls| - 1][p] == ls[p];
  }

  lemma ExtendFirst(ls: Lists, h: Hybrid, d: int, first: Hybrid)
    requires ls != [] && IsFirst(ls, d, first)
    ensures IsFirst(Extend(ls, h), d, first)
  {
    var e := Extend(ls, h);
    var q, r :| 0 <= q < |ls| && 0 <= r < |ls[q]| && ls[q][r] == first && first.docId == d
      && !Occurs(ls[..q], d) && !In(ls[q][..r], d);
    assert e[..q] == ls[..q];
    assert e[q][..r] == ls[q][..r];
    assert e[q][r] == first;
  }

  /** Reading one more hit keeps the dictionaries described by the lists read so far. */
  lemma AddHitDescribes(acc: map<int, Cell>, ls: Lists, h: Hybrid, k: int)
    requires ls != [] && Describes(acc, ls, k)
    ensures Describes(AddHit(acc, |ls| - 1, |ls[|ls| - 1]|, h, k), Extend(ls, h), k)
  {
    var rank := |ls[|ls| - 1]|;
    var acc' := AddHit(acc, |ls| - 1, rank, h, k);
    forall d ensures (d in acc' <==> Occurs(Extend(ls, h), d)) && (d in acc' ==> CellOk(acc'[d], Extend(ls, h), d, k)) {
      ExtendIn(ls, h, d);
      ExtendScores(ls, h, d, k);
      if d == h.docId {
        if d in acc {
          assert CellOk(acc[d], ls, d, k);
          ExtendMask(ls, h, acc[d].mask);
          ExtendBestRank(ls, h, d, acc[d].bestRank);
          ExtendFirst(ls, h, d, acc[d].representative);
        } else {
          NewMask(ls, d);
          NoAppearances(ls, d);
          ExtendMask(ls, h, 0);
          NewBestRank(ls, h);
        }
      } else if d in acc {
        assert CellOk(acc[d], ls, d, k);
        OtherMask(ls, h, acc[d].mask, d);
        ExtendBestRank(ls, h, d, acc[d].bestRank);
        ExtendFirst(ls, h, d, acc[d].representative);
      }
    }
  }

  lemma AddListDescribes(acc: map<int, Cell>, ls: Lists, k: int)
    requires Describes(acc, ls, k)
    ensures Describes(acc, ls + [[]], k)
  {
    var e := ls + [[]];
    assert e[..|ls|] == ls && e[|ls|] == [];
    forall d ensures (d in acc <==> Occurs(e, d)) && (d in acc ==> CellOk(acc[d], e, d, k)) {
      forall q | 0 <= q < |ls| && In(ls[q], d) ensures In(e[q], d) {}
      forall q | 0 <= q < |e| && In(e[q], d) ensures q < |ls| && In(ls[q], d) {}
      if d in acc {
        var c := acc[d];
        assert CellOk(c, ls, d, k);
        assert TotalScore(e, d, k) == TotalScore(ls, d, k) + ListScore([], d, k);
        assert Appearances(e, d) == Appearances(ls, d);
        var q :| 0 <= q < |ls| && c.bestRank < |ls[q]| && ls[q][c.bestRank].docId == d;
        assert e[q][c.bestRank].docId == d;
        assert IsBestRank(e, d, c.bestRank);
        var p, r :| 0 <= p < |ls| && 0 <= r < |ls[p]| && ls[p][r] == c.representative && c.representative.docId == d
          && !Occurs(ls[..p], d) && !In(ls[p][..r], d);
        assert e[..p] == ls[..p] && e[p] == ls[p];
        assert IsFirst(e, d, c.representative);
      }
    }
  }

  // Ranking.

  function FusedScore(ls: Lists, d: int, k: int): real {
    Round6(TotalScore(ls, d, k) + Bonus(Appearances(ls, d)))
  }

  datatype Ranked = Ranked(docId: int, score: real, best: nat)

  /** Higher score first, then better best rank, then smaller identifier. */
  predicate RankLe(x: Ranked, y: Ranked) {
    x.score > y.score || (x.score == y.score && (x.best < y.best || (x.best == y.best && x.docId <= y.docId)))
  }

  predicate DistinctDocs(s: seq<Ranked>) {
    forall i, j :: 0 <= i < j < |s| ==> s[i].docId != s[j].docId
  }

  /** Every document of the lists exactly once, with its own score, in ranking order. */
  ghost predicate Ranking(s: seq<Ranked>, ls: Lists, k: int) {
    && Sorted(s, (x, y) => RankLe(x, y))
    && DistinctDocs(s)
    && (forall d :: Occurs(ls, d) <==> exists i :: 0 <= i < |s| && s[i].docId == d)
    && (forall i :: 0 <= i < |s| ==> s[i].score == FusedScore(ls, s[i].docId, k) && IsBestRank(ls, s[i].docId, s[i].best))
  }

  ghost predicate FusedOk(f: Fused, x: Ranked, ls: Lists) {
    && f.docId == x.docId && f.rrfScore == x.score
    && f.finalScore == (if x.score < 1.0 then x.score else 1.0)
    && f.crossQuerySupport == Bonus(Appearances(ls, x.docId))
    && exists h :: IsFirst(ls, x.docId, h) && f.content == h.content
  }

  /** Higher scores first, then better best ranks, then smaller identifiers, for any two places of the ranking. */
  lemma RankingOrder(s: seq<Ranked>, ls: Lists, k: int, i: nat, j: nat)
    requires Ranking(s, ls, k) && i < j < |s|
    ensures s[i].score >= s[j].score
    ensures s[i].score == s[j].score ==> s[i].best <= s[j].best
    ensures s[i].score == s[j].score && s[i].best == s[j].best ==> s[i].docId < s[j].docId
  {
    var le := (x: Ranked, y: Ranked) => RankLe(x, y);
    assert le(s[i], s[j]);
  }

  /**
   What a fused result says: its support by the number of lists that hold the document, and its score, the rounded
   sum of the reciprocals plus that support.
   */
  lemma FusedIsExactly(f: Fused, ranking: seq<Ranked>, i: nat, ls: Lists, k: int)
    requires Ranking(ranking, ls, k) && i < |ranking| && FusedOk(f, ranking[i], ls)
    ensures |Holding(ls, f.docId)| >= 1 && IsSupport(f.crossQuerySupport, |Holding(ls, f.docId)|)
    ensures IsRounded(f.rrfScore, TotalScore(ls, f.docId, k) + f.crossQuerySupport)
    ensures f.finalScore == if f.rrfScore < 1.0 then f.rrfScore else 1.0
  {
    var d := f.docId;
    AppearancesCount(ls, d);
    assert Occurs(ls, d);
    var q: nat :| q < |ls| && In(ls[q], d);
    assert q in Holding(ls, d);
    BonusIsSupport(Appearances(ls, d));
    Round6IsRounded(TotalScore(ls, d, k) + Bonus(Appearances(ls, d)));
  }

  lemma RankLePreorder()
    ensures TotalPreorder((x, y) => RankLe(x, y))
  {}

  lemma SortKeepsDistinct(entries: seq<Ranked>)
    requires DistinctDocs(entries)
    ensures DistinctDocs(SortBy(entries, (x, y) => RankLe(x, y)))
  {
    var s := SortBy(entries, (x, y) => RankLe(x, y));
    SortPermutes(entries, (x, y) => RankLe(x, y));
    PermutedDistinct(entries, s);
    forall i, j | 0 <= i < j < |s| ensures s[i].docId != s[j].docId {
      assert s[i] in entries && s[j] in entries;
    }
  }

  lemma SameMembersSameDocs(entries: seq<Ranked>, s: seq<Ranked>, d: int)
    requires forall x :: x in s <==> x in entries
    ensures (exists i :: 0 <= i < |entries| && entries[i].docId == d) <==> (exists i :: 0 <= i < |s| && s[i].docId == d)
  {
    if i :| 0 <= i < |entries| && entries[i].docId == d {
      assert entries[i] in s;
    }
    if i :| 0 <= i < |s| && s[i].docId == d {
      assert s[i] in entries;
    }
  }

  lemma SortIsRanking(entries: seq<Ranked>, ls: Lists, k: int)
    requires DistinctDocs(entries)
    requires forall d :: Occurs(ls, d) <==> exists i :: 0 <= i < |entries| && entries[i].docId == d
    requires forall x :: x in entries ==> x.score == FusedScore(ls, x.docId, k) && IsBestRank(ls, x.docId, x.best)
    ensures Ranking(SortBy(entries, (x, y) => RankLe(x, y)), ls, k)
  {
    var le := (x: Ranked, y: Ranked) => RankLe(x, y);
    var s := SortBy(entries, le);
    RankLePreorder();
    SortSorted(entries, le);
    SortPermutes(entries, le);
    SortKeepsDistinct(entries);
    forall d ensures Occurs(ls, d) <==> exists i :: 0 <= i < |s| && s[i].docId == d {
      SameMembersSameDocs(entries, s, d);
    }
    forall i | 0 <= i < |s| ensures s[i] in entries {}
  }

  /** The ranking of given lists is determined: every position, score and best rank. */
  lemma RankingIsUnique(a: seq<Ranked>, b: seq<Ranked>, ls: Lists, k: int)
    requires Ranking(a, ls, k) && Ranking(b, ls, k)
    ensures a == b
  {
    RankedInBoth(a, b, ls, k);
    RankedInBoth(b, a, ls, k);
    SameElements(a, b);
    SortedUnique(a, b, (x, y) => RankLe(x, y));
  }

  lemma RankedInBoth(a: seq<Ranked>, b: seq<Ranked>, ls: Lists, k: int)
    requires Ranking(a, ls, k) && Ranking(b, ls, k)
    ensures Distinct(a) && forall x :: x in a ==> x in b
  {
    forall x | x in a ensures x in b {
      assert Occurs(ls, x.docId);
      var j :| 0 <= j < |b| && b[j].docId == x.docId;
      BestRankIsUnique(ls, x.docId, x.best, b[j].best);
      assert b[j] == x;
    }
  }

  lemma BestRankIsUnique(ls: Lists, d: int, m: nat, n: nat)
    requires IsBestRank(ls, d, m) && IsBestRank(ls, d, n)
    ensures m == n
  {}

  /** The first `q` lists and the first `rank` hits of the next one. */
  function ReadUpTo(lists: Lists, q: nat, rank: nat): Lists
    requires q < |lists| && rank <= |lists[q]|
  {
    lists[..q] + [lists[q][..rank]]
  }

  lemma WholeRead(lists: Lists, q: nat)
    requires q < |lists|
    ensures ReadUpTo(lists, q, |lists[q]|) == lists[..q + 1]
  {
    assert lists[q][..|lists[q]|] == lists[q];
  }

  lemma OrderHit(acc: map<int, Cell>, order: seq<int>, q: nat, rank: nat, h: Hybrid, k: int)
    requires KeysInOrder(acc, order)
    ensures KeysInOrder(AddHit(acc, q, rank, h, k), if h.docId in acc then order else order + [h.docId])
  {}

  lemma StartReading(acc: map<int, Cell>, lists: Lists, q: nat, k: int)
    requires q < |lists| && Describes(acc, lists[..q], k)
    ensures Describes(acc, ReadUpTo(lists, q, 0), k)
  {
    AddListDescribes(acc, lists[..q], k);
    assert lists[q][..0] == [];
  }

  lemma ReadOne(acc: map<int, Cell>, lists: Lists, q: nat, rank: nat, k: int)
    requires q < |lists| && rank < |lists[q]| && Describes(acc, ReadUpTo(lists, q, rank), k)
    ensures Describes(AddHit(acc, q, rank, lists[q][rank], k), ReadUpTo(lists, q, rank + 1), k)
  {
    ExtendPrefix(lists, q, rank);
    AddHitDescribes(acc, ReadUpTo(lists, q, rank), lists[q][rank], k);
  }

  ghost predicate KeysInOrder(acc: map<int, Cell>, order: seq<int>) {
    Distinct(order) && forall d :: d in acc <==> d in order
  }

  /** Reads the list of one query. */
  method AccumulateQuery(lists: Lists, q: nat, rrfK: int, acc0: map<int, Cell>, order0: seq<int>)
    returns (ok: bool, acc: map<int, Cell>, order: seq<int>)
    requires q < |lists| && Describes(acc0, lists[..q], rrfK) && KeysInOrder(acc0, order0)
    ensures ok <==> !(0 <= -rrfK - 1 < |lists[q]|)
    ensures ok ==> Describes(acc, lists[..q + 1], rrfK) && KeysInOrder(acc, order)
  {
    acc, order := acc0, order0;
    StartReading(acc, lists, q, rrfK);
    for rank := 0 to |lists[q]|
      invariant Describes(acc, ReadUpTo(lists, q, rank), rrfK) && KeysInOrder(acc, order)
      invariant !(0 <= -rrfK - 1 < rank)
    {
      var h := lists[q][rank];
      if rrfK + rank + 1 == 0 {
        return false, acc, order;
      }
      ReadOne(acc, lists, q, rank, rrfK);
      OrderHit(acc, order, q, rank, h, rrfK);
      if h.docId !in acc {
        order := order + [h.docId];
      }
      acc := AddHit(acc, q, rank, h, rrfK);
    }
    WholeRead(lists, q);
    ok := true;
  }

  /** Fills the dictionaries; `order` lists their keys in insertion order. */
  method Accumulate(lists: Lists, rrfK: int) returns (ok: bool, acc: map<int, Cell>, order: seq<int>)
    ensures ok <==> !DividesByZero(lists, rrfK)
    ensures ok ==> Describes(acc, lists, rrfK) && KeysInOrder(acc, order)
  {
    acc, order := map[], [];
    for q := 0 to |lists|
      invariant Describes(acc, lists[..q], rrfK) && KeysInOrder(acc, order)
      invariant forall p :: 0 <= p < q ==> !(0 <= -rrfK - 1 < |lists[p]|)
    {
      ok, acc, order := AccumulateQuery(lists, q, rrfK, acc, order);
      if !ok {
        return;
      }
    }
    assert lists[..|lists|] == lists;
    ok := true;
  }

  lemma ExtendPrefix(lists: Lists, q: nat, rank: nat)
    requires q < |lists| && rank < |lists[q]|
    ensures Extend(lists[..q] + [lists[q][..rank]], lists[q][rank]) == lists[..q] + [lists[q][..rank + 1]]
  {
    assert lists[q][..rank] + [lists[q][rank]] == lists[q][..rank + 1];
  }

  ghost predicate Scored(x: Ranked, lists: Lists, k: int) {
    x.score == FusedScore(lists, x.docId, k) && IsBestRank(lists, x.docId, x.best)
  }

  lemma CellScores(acc: map<int, Cell>, lists: Lists, k: int, d: int)
    requires Describes(acc, lists, k) && d in acc
    ensures Scored(Ranked(d, Round6(acc[d].rrf + Bonus(BitCount(acc[d].mask))), acc[d].bestRank), lists, k)
  {
    assert CellOk(acc[d], lists, d, k);
  }

  /** Adds the bonus to every sum and rounds. */
  method ScoreAll(ghost lists: Lists, ghost k: int, acc: map<int, Cell>, order: seq<int>) returns (entries: seq<Ranked>)
    requires Describes(acc, lists, k) && forall d :: d in order ==> d in acc
    ensures |entries| == |order|
    ensures forall j :: 0 <= j < |order| ==> entries[j].docId == order[j] && Scored(entries[j], lists, k)
  {
    entries := [];
    for i := 0 to |order|
      invariant |entries| == i
      invariant forall j :: 0 <= j < i ==> entries[j].docId == order[j] && Scored(entries[j], lists, k)
    {
      var d := order[i];
      CellScores(acc, lists, k, d);
      var c := acc[d];
      entries := entries + [Ranked(d, Round6(c.rrf + Bonus(BitCount(c.mask))), c.bestRank)];
    }
  }

  lemma ScoredEntries(lists: Lists, k: int, acc: map<int, Cell>, order: seq<int>, entries: seq<Ranked>)
    requires Describes(acc, lists, k) && KeysInOrder(acc, order) && |entries| == |order|
    requires forall j :: 0 <= j < |order| ==> entries[j].docId == order[j] && Scored(entries[j], lists, k)
    ensures Ranking(SortBy(entries, (x, y) => RankLe(x, y)), lists, k)
  {
    forall d ensures Occurs(lists, d) <==> exists i :: 0 <= i < |entries| && entries[i].docId == d {
      assert Occurs(lists, d) <==> d in order;
      if d in order {
        var j :| 0 <= j < |order| && order[j] == d;
        assert entries[j].docId == d;
      }
    }
    forall x | x in entries ensures x.score == FusedScore(lists, x.docId, k) && IsBestRank(lists, x.docId, x.best) {
      var j :| 0 <= j < |entries| && entries[j] == x;
      assert Scored(entries[j], lists, k);
    }
    SortIsRanking(entries, lists, k);
  }

  /** Builds the fused results from the ranked prefix. */
  method Assemble(ghost lists: Lists, ghost k: int, acc: map<int, Cell>, kept: seq<Ranked>) returns (fused: seq<Fused>)
    requires Describes(acc, lists, k) && forall x :: x in kept ==> Occurs(lists, x.docId)
    ensures |fused| == |kept| && forall j :: 0 <= j < |kept| ==> FusedOk(fused[j], kept[j], lists)
  {
    fused := [];
    for i := 0 to |kept|
      invariant |fused| == i && forall j :: 0 <= j < i ==> FusedOk(fused[j], kept[j], lists)
    {
      var x := kept[i];
      assert x in kept && x.docId in acc;
      var c := acc[x.docId];
      assert CellOk(c, lists, x.docId, k);
      fused := fused + [Fused(x.docId, if x.score < 1.0 then x.score else 1.0, x.score,
                              Bonus(BitCount(c.mask)), c.representative.content)];
    }
  }

  /** How much of the ranking a limit keeps; a negative one drops that many from the end. */
  lemma PrefixLength(ranking: seq<Ranked>, limit: int)
    ensures PrefixUpTo(ranking, limit) <= ranking
    ensures limit >= 0 ==> |PrefixUpTo(ranking, limit)| == if limit < |ranking| then limit else |ranking|
    ensures limit < 0 ==> |PrefixUpTo(ranking, limit)| == if |ranking| + limit > 0 then |ranking| + limit else 0
  {}

  lemma KeptOccur(ranking: seq<Ranked>, lists: Lists, k: int, limit: int)
    requires Ranking(ranking, lists, k)
    ensures forall x :: x in PrefixUpTo(ranking, limit) ==> Occurs(lists, x.docId)
    ensures PrefixUpTo(ranking, limit) <= ranking
  {
    forall x | x in PrefixUpTo(ranking, limit) ensures Occurs(lists, x.docId) {
      var i :| 0 <= i < |ranking| && ranking[i] == x;
      assert ranking[i].docId == x.docId;
    }
  }

  method FuseQueryResults(lists: Lists, limit: int, rrfK: int) returns (result: Result, ghost ranking: seq<Ranked>)
    ensures result.ZeroDivision? <==> DividesByZero(lists, rrfK)
    ensures result.Success? ==>
      && Ranking(ranking, lists, rrfK)
      && |result.fused| == |PrefixUpTo(ranking, limit)|
      && forall i :: 0 <= i < |result.fused| ==> FusedOk(result.fused[i], ranking[i], lists)
  {
    var ok, acc, order := Accumulate(lists, rrfK);
    if !ok {
      return ZeroDivision, [];
    }
    var entries := ScoreAll(lists, rrfK, acc, order);
    ScoredEntries(lists, rrfK, acc, order, entries);
    var sorted := SortBy(entries, (x, y) => RankLe(x, y));
    var kept := PrefixUpTo(sorted, limit);
    KeptOccur(sorted, lists, rrfK, limit);
    var fused := Assemble(lists, rrfK, acc, kept);
    return Success(fused), sorted;
  }

  // Dominance.

  /** In every list that contains `b`, `a` takes a better rank. */
  ghost predicate Dominates(ls: Lists, a: int, b: int) {
    && a != b
    && (forall q, r :: 0 <= q < |ls| && 0 <= r < |ls[q]| && ls[q][r].docId == b ==>
          exists p :: 0 <= p < r && ls[q][p].docId == a)
  }

  /** The document occurs at most once in each list. */
  predicate Single(l: seq<Hybrid>, d: int) {
    forall i, j :: 0 <= i < j < |l| && l[i].docId == d ==> l[j].docId != d
  }

  lemma {:induction false} ScoreAtLeast(l: seq<Hybrid>, d: int, k: int, p: nat)
    requires k >= 0 && p < |l| && l[p].docId == d
    ensures ListScore(l, d, k) >= Reciprocal(k, p)
  {
    if p == |l| - 1 {
      ScoreNonNegative(l[..p], d, k);
    } else {
      ScoreAtLeast(l[..|l| - 1], d, k, p);
    }
  }

  lemma {:induction false} ScoreNonNegative(l: seq<Hybrid>, d: int, k: int)
    requires k >= 0
    ensures ListScore(l, d, k) >= 0.0
  {
    if l != [] {
      ScoreNonNegative(l[..|l| - 1], d, k);
    }
  }

  lemma {:induction false} SingleScore(l: seq<Hybrid>, d: int, k: int, r: nat)
    requires Single(l, d) && r < |l| && l[r].docId == d
    ensures ListScore(l, d, k) == Reciprocal(k, r)
  {
    var init := l[..|l| - 1];
    if r == |l| - 1 {
      forall i | 0 <= i < |init| ensures init[i].docId != d {
        assert init[i] == l[i];
      }
      AbsentScore(init, d, k);
    } else {
      assert Single(init, d) && init[r].docId == d;
      SingleScore(init, d, k, r);
    }
  }

  lemma ReciprocalDecreases(k: int, p: nat, r: nat)
    requires k >= 0 && p <= r
    ensures Reciprocal(k, p) >= Reciprocal(k, r) > 0.0
  {
    var x, y := (k + p + 1) as real, (k + r + 1) as real;
    assert 0.0 < x <= y;
    assert 1.0 / x >= 1.0 / y;
  }

  lemma {:induction false} DominantScores(ls: Lists, a: int, b: int, k: int)
    requires k >= 0 && Dominates(ls, a, b) && forall q :: 0 <= q < |ls| ==> Single(ls[q], b)
    ensures TotalScore(ls, a, k) >= TotalScore(ls, b, k) && Appearances(ls, a) >= Appearances(ls, b)
  {
    if ls != [] {
      var init, last := ls[..|ls| - 1], ls[|ls| - 1];
      assert forall q :: 0 <= q < |init| ==> init[q] == ls[q];
      DominantScores(init, a, b, k);
      ScoreNonNegative(last, a, k);
      if In(last, b) {
        var r :| 0 <= r < |last| && last[r].docId == b;
        var p :| 0 <= p < r && last[p].docId == a;
        SingleScore(last, b, k, r);
        ScoreAtLeast(last, a, k, p);
        ReciprocalDecreases(k, p, r);
      } else {
        AbsentScore(last, b, k);
      }
    }
  }

  lemma DominantRank(ls: Lists, a: int, b: int, m: nat, n: nat)
    requires Dominates(ls, a, b) && IsBestRank(ls, a, m) && IsBestRank(ls, b, n)
    ensures m < n
  {
    var q :| 0 <= q < |ls| && n < |ls[q]| && ls[q][n].docId == b;
    var p :| 0 <= p < n && ls[q][p].docId == a;
  }

  lemma DominantFused(ls: Lists, a: int, b: int, k: int)
    requires k >= 0 && Dominates(ls, a, b) && forall q :: 0 <= q < |ls| ==> Single(ls[q], b)
    ensures FusedScore(ls, a, k) >= FusedScore(ls, b, k)
  {
    DominantScores(ls, a, b, k);
    BonusMonotone(Appearances(ls, b), Appearances(ls, a));
    Round6Monotone(TotalScore(ls, b, k) + Bonus(Appearances(ls, b)), TotalScore(ls, a, k) + Bonus(Appearances(ls, a)));
  }

  /**
   A document that beats another wherever the other appears precedes it in the fused ranking, through the
   sums, the bonus, the rounding and the tie-breaks, for every constant of zero or more.
   */
  lemma DominantPrecedes(ranking: seq<Ranked>, ls: Lists, k: int, a: int, b: int, i: nat, j: nat)
    requires k >= 0 && Ranking(ranking, ls, k)
    requires Dominates(ls, a, b) && forall q :: 0 <= q < |ls| ==> Single(ls[q], b)
    requires i < |ranking| && j < |ranking| && ranking[i].docId == a && ranking[j].docId == b
    ensures i < j
  {
    DominantRank(ls, a, b, ranking[i].best, ranking[j].best);
    DominantFused(ls, a, b, k);
    assert !RankLe(ranking[j], ranking[i]);
  }

  /** With a constant of -1 or -2, lists that hold a dominated document divide by zero, so there is no ranking. */
  lemma DominatedDividesByZero(ls: Lists, k: int, a: int, b: int)
    requires k == -1 || k == -2
    requires Dominates(ls, a, b) && Occurs(ls, b)
    ensures DividesByZero(ls, k)
  {
    var q :| 0 <= q < |ls| && In(ls[q], b);
    var r :| 0 <= r < |ls[q]| && ls[q][r].docId == b;
    var p :| 0 <= p < r && ls[q][p].docId == a;
    assert 0 <= -k - 1 < |ls[q]|;
  }

  function Copies(n: nat): Lists {
    if n == 0 then [TWO] else Copies(n - 1) + [ONE]
  }

  const ONE: seq<Hybrid> := [Hybrid(1, 0)]
  const TWO: seq<Hybrid> := [Hybrid(1, 0), Hybrid(2, 0)]

  lemma OneTwoScores(k: int)
    ensures ListScore(ONE, 1, k) == Reciprocal(k, 0) && ListScore(ONE, 2, k) == 0.0
    ensures ListScore(TWO, 1, k) == Reciprocal(k, 0) && ListScore(TWO, 2, k) == Reciprocal(k, 1)
    ensures In(TWO, 2) && In(TWO, 1) && In(ONE, 1) && !In(ONE, 2)
  {
    assert ONE[..0] == [] && TWO[..1] == ONE;
    assert ONE[0].docId == 1 && TWO[0].docId == 1 && TWO[1].docId == 2;
  }

  lemma {:induction false} CopiesShape(n: nat)
    ensures Copies(n) != [] && Copies(n)[0] == TWO
    ensures forall q :: 0 < q < |Copies(n)| ==> Copies(n)[q] == ONE
  {
    if n > 0 {
      CopiesShape(n - 1);
    }
  }

  lemma {:induction false} FirstScores(n: nat, k: int)
    ensures TotalScore(Copies(n), 1, k) == (n + 1) as real * Reciprocal(k, 0)
  {
    OneTwoScores(k);
    if n == 0 {
    } else {
      FirstScores(n - 1, k);
    }
  }

  lemma {:induction false} CopiesScores(n: nat, k: int)
    ensures TotalScore(Copies(n), 2, k) == Reciprocal(k, 1)
    ensures Appearances(Copies(n), 2) == 1 && Appearances(Copies(n), 1) >= 1
  {
    OneTwoScores(k);
    if n == 0 {
    } else {
      CopiesScores(n - 1, k);
    }
  }

  /** For every constant below -2, dominance fails: more appearances cost more than they earn. */
  lemma DominanceFailsBelow(k: int) returns (ls: Lists)
    requires k < -2
    ensures !DividesByZero(ls, k) && Dominates(ls, 1, 2) && Occurs(ls, 2)
    ensures forall q :: 0 <= q < |ls| ==> Single(ls[q], 2)
    ensures FusedScore(ls, 1, k) < FusedScore(ls, 2, k)
  {
    var m := -(k + 1);
    var n := 4 * m - 1;
    ls := Copies(n);
    FirstScores(n, k);
    CopiesScores(n, k);
    assert (n + 1) as real == 4.0 * m as real;
    assert Reciprocal(k, 0) == 1.0 / (-m) as real;
    assert TotalScore(ls, 1, k) == -4.0;
    assert Reciprocal(k, 1) == 1.0 / (1 - m) as real;
    assert Reciprocal(k, 1) >= -1.0;
    Round6Monotone(TotalScore(ls, 1, k) + Bonus(Appearances(ls, 1)), -3.0);
    Round6Monotone(-1.0, TotalScore(ls, 2, k) + Bonus(Appearances(ls, 2)));
    CopiesShape(n);
    OneTwoScores(k);
    forall q, r | 0 <= q < |ls| && 0 <= r < |ls[q]| && ls[q][r].docId == 2
      ensures exists p :: 0 <= p < r && ls[q][p].docId == 1
    {
      assert ls[q] == TWO && r == 1 && ls[q][0].docId == 1;
    }
  }

  // Conservation.

  /** The document stands at exactly one position. */
  ghost predicate OnlyAt(s: seq<Ranked>, d: int) {
    exists i :: 0 <= i < |s| && s[i].docId == d && (forall j :: 0 <= j < |s| && s[j].docId == d ==> j == i)
  }

  /** There are no more ranks than candidates. */
  lemma RankingLength(ranking: seq<Ranked>, ls: Lists, k: int)
    requires Ranking(ranking, ls, k)
    ensures |ranking| <= TotalLength(ls)
  {
    IdsDistinct(ranking);
    IdsBounded(ls, set i | 0 <= i < |ranking| :: ranking[i].docId);
  }

  /** With room for every candidate, fusing returns each distinct document exactly once. */
  lemma FullLimitKeepsAll(ranking: seq<Ranked>, ls: Lists, k: int, limit: int)
    requires Ranking(ranking, ls, k) && limit >= TotalLength(ls)
    ensures PrefixUpTo(ranking, limit) == ranking
    ensures forall d :: Occurs(ls, d) ==> OnlyAt(ranking, d)
  {
    RankingLength(ranking, ls, k);
    forall d | Occurs(ls, d) ensures OnlyAt(ranking, d) {
      var i :| 0 <= i < |ranking| && ranking[i].docId == d;
    }
  }

  lemma {:induction false} IdsDistinct(s: seq<Ranked>)
    requires DistinctDocs(s)
    ensures |set i | 0 <= i < |s| :: s[i].docId| == |s|
  {
    if s != [] {
      var init := s[..|s| - 1];
      IdsDistinct(init);
      var ids := set i | 0 <= i < |init| :: init[i].docId;
      assert (set i | 0 <= i < |s| :: s[i].docId) == ids + {s[|s| - 1].docId};
      assert s[|s| - 1].docId !in ids;
    }
  }

  lemma {:induction false} IdsBounded(ls: Lists, ids: set<int>)
    requires forall d :: d in ids ==> Occurs(ls, d)
    ensures |ids| <= TotalLength(ls)
  {
    if ls == [] {
      assert forall d :: d !in ids;
      assert ids == {};
    } else {
      var head := set i | 0 <= i < |ls[0]| :: ls[0][i].docId;
      HeadBounded(ls[0]);
      forall d | d in ids - head ensures Occurs(ls[1..], d) {
        var q :| 0 <= q < |ls| && In(ls[q], d);
        var r :| 0 <= r < |ls[q]| && ls[q][r].docId == d;
        assert q > 0;
        assert ls[1..][q - 1] == ls[q];
      }
      IdsBounded(ls[1..], ids - head);
      assert ids <= (ids - head) + head;
      CardinalityOfUnion(ids, ids - head, head);
    }
  }

  lemma CardinalityOfUnion(a: set<int>, b: set<int>, c: set<int>)
    requires a <= b + c
    ensures |a| <= |b| + |c|
  {
    assert |b + c| <= |b| + |c|;
    SubsetCount(a, b + c);
  }

  lemma {:induction false} HeadBounded(l: seq<Hybrid>)
    ensures |set i | 0 <= i < |l| :: l[i].docId| <= |l|
  {
    if l != [] {
      var init := l[..|l| - 1];
      HeadBounded(init);
      var ids := set i | 0 <= i < |init| :: init[i].docId;
      assert (set i | 0 <= i < |l| :: l[i].docId) == ids + {l[|l| - 1].docId};
    }
  }
}

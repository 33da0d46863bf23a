/**
 The bounded least-recently-used cache and the `cached` decorator.

 The classes update an ordered dictionary in place; `Apply` is what one operation does to it.  The lemmas are
 about whole traces: the cache never holds anything an unbounded map would not, the smaller of two caches
 driven by one trace holds a subsequence of what the larger one holds, and decorated calls keep exactly the
 most recent keys.
 */
module LruCache {
  import opened Options
  import opened OrderedDict
  import opened Sequences

  /** One operation on a cache.  `Call` goes through the decorator; its outcome is used on a miss only. */
  datatype Op = Set(key: Key, value: Value) | Get(key: Key) | Delete(key: Key) | Call(key: Key, outcome: Outcome)

  function SetEntry(d: seq<Entry>, k: Key, v: Value, maxsize: int): seq<Entry> {
    Newest(Without(d, k) + [Entry(k, v)], Cap(maxsize))
  }

  function Apply(d: seq<Entry>, op: Op, maxsize: int): seq<Entry> {
    match op
    case Set(k, v) => SetEntry(d, k, v, maxsize)
    case Get(k) => GetEntry(d, k)
    case Delete(k) => Without(d, k)
    case Call(k, o) =>
      if Has(d, k) then GetEntry(d, k)
      else match o { case Return(v) => SetEntry(d, k, v, maxsize) case Raise => d }
  }

  function Run(ops: seq<Op>, maxsize: int): seq<Entry> {
    if ops == [] then [] else Apply(Run(ops[..|ops| - 1], maxsize), ops[|ops| - 1], maxsize)
  }

  lemma KeysOfSet(d: seq<Entry>, k: Key, v: Value, maxsize: int)
    ensures Keys(SetEntry(d, k, v, maxsize)) == Newest(Drop(Keys(d), k) + [k], Cap(maxsize))
  {
    KeysWithout(d, k);
    KeysOfNewest(Without(d, k) + [Entry(k, v)], Cap(maxsize));
    assert Keys(Without(d, k) + [Entry(k, v)]) == Keys(Without(d, k)) + [k];
  }

  lemma SetKeepsDistinct(d: seq<Entry>, k: Key, v: Value, maxsize: int)
    requires Distinct(Keys(d))
    ensures Distinct(Keys(Without(d, k) + [Entry(k, v)]))
    ensures Distinct(Keys(SetEntry(d, k, v, maxsize))) && |SetEntry(d, k, v, maxsize)| <= Cap(maxsize)
  {
    KeysWithout(d, k);
    DropDistinct(Keys(d), k);
    assert Keys(Without(d, k) + [Entry(k, v)]) == Drop(Keys(d), k) + [k];
    KeysOfSet(d, k, v, maxsize);
  }

  /** What `Apply` does to the keys alone. */
  function ApplyKeys(ks: seq<Key>, op: Op, maxsize: int): seq<Key> {
    match op
    case Set(k, _) => Newest(Drop(ks, k) + [k], Cap(maxsize))
    case Get(k) => if k in ks then Drop(ks, k) + [k] else ks
    case Delete(k) => Drop(ks, k)
    case Call(k, o) =>
      if k in ks then Drop(ks, k) + [k]
      else if o.Return? then Newest(Drop(ks, k) + [k], Cap(maxsize)) else ks
  }

  lemma ApplyOnKeys(d: seq<Entry>, op: Op, maxsize: int)
    ensures Keys(Apply(d, op, maxsize)) == ApplyKeys(Keys(d), op, maxsize)
  {
    KeysOfGet(d, op.key);
    KeysWithout(d, op.key);
    match op {
      case Set(k, v) => KeysOfSet(d, k, v, maxsize);
      case Call(k, Return(v)) => KeysOfSet(d, k, v, maxsize);
      case _ =>
    }
  }

  lemma ApplyKeysDistinct(ks: seq<Key>, op: Op, maxsize: int)
    requires Distinct(ks) && |ks| <= Cap(maxsize)
    ensures Distinct(ApplyKeys(ks, op, maxsize)) && |ApplyKeys(ks, op, maxsize)| <= Cap(maxsize)
  {
    DropDistinct(ks, op.key);
  }

  /** What an operation on a held key does: an access makes it the newest, an assignment with its new value. */
  lemma HeldKeyIsExactly(d: seq<Entry>, op: Op, maxsize: int, i: nat)
    requires Distinct(Keys(d)) && |d| <= maxsize && i < |d| && d[i].key == op.key
    ensures op.Set? ==> Apply(d, op, maxsize) == d[..i] + d[i + 1..] + [Entry(op.key, op.value)]
    ensures op.Get? || op.Call? ==> Apply(d, op, maxsize) == d[..i] + d[i + 1..] + [d[i]]
    ensures op.Delete? ==> Apply(d, op, maxsize) == d[..i] + d[i + 1..]
  {
    WithoutAt(d, i);
    LookupIsOnly(d, d[i]);
  }

  /** What it does on any other key: an assignment or a returning call adds it, and a full cache gives up its oldest. */
  lemma MissingKeyIsExactly(d: seq<Entry>, op: Op, maxsize: int)
    requires |d| <= Cap(maxsize) && forall e :: e in d ==> e.key != op.key
    ensures op.Get? || op.Delete? || (op.Call? && op.outcome.Raise?) ==> Apply(d, op, maxsize) == d
    ensures op.Set? || (op.Call? && op.outcome.Return?) ==>
      var e := Entry(op.key, if op.Set? then op.value else op.outcome.value);
      Apply(d, op, maxsize) == if maxsize <= 0 then [] else if |d| < maxsize then d + [e] else d[1..] + [e]
  {
    AbsentKey(d, op.key);
  }

  /** The cache never holds a key twice and never more than `maxsize` keys. */
  lemma {:induction false} RunBounded(ops: seq<Op>, maxsize: int)
    ensures Distinct(Keys(Run(ops, maxsize))) && |Run(ops, maxsize)| <= Cap(maxsize)
  {
    if ops != [] {
      var before := Run(ops[..|ops| - 1], maxsize);
      RunBounded(ops[..|ops| - 1], maxsize);
      ApplyOnKeys(before, ops[|ops| - 1], maxsize);
      ApplyKeysDistinct(Keys(before), ops[|ops| - 1], maxsize);
    }
  }

  // Agreement with an unbounded map.

  predicate NoCalls(ops: seq<Op>) {
    forall i :: 0 <= i < |ops| ==> !ops[i].Call?
  }

  /** The dictionary without a bound: the last assignment of a key that was not deleted since. */
  function Unbounded(ops: seq<Op>): map<Key, Value> {
    if ops == [] then map[]
    else
      var m := Unbounded(ops[..|ops| - 1]);
      match ops[|ops| - 1]
      case Set(k, v) => m[k := v]
      case Delete(k) => m - {k}
      case _ => m
  }

  /** The operation at `i` is the last one that assigns or deletes the key, and it assigns. */
  predicate LastAssigned(ops: seq<Op>, k: Key, i: nat) {
    && i < |ops| && ops[i].Set? && ops[i].key == k
    && forall j :: i < j < |ops| && (ops[j].Set? || ops[j].Delete?) ==> ops[j].key != k
  }

  lemma LastOfPrefix(ops: seq<Op>, k: Key)
    requires ops != [] && !(ops[|ops| - 1].Set? && ops[|ops| - 1].key == k)
    ensures forall i: nat :: LastAssigned(ops, k, i) <==>
      !(ops[|ops| - 1].Delete? && ops[|ops| - 1].key == k) && LastAssigned(ops[..|ops| - 1], k, i)
  {
    var init := ops[..|ops| - 1];
    forall i: nat ensures LastAssigned(ops, k, i) <==> !(ops[|ops| - 1].Delete? && ops[|ops| - 1].key == k) && LastAssigned(init, k, i) {
      if LastAssigned(init, k, i) {
        assert forall j :: i < j < |ops| && j != |init| ==> ops[j] == init[j];
      }
    }
  }

  /** The unbounded map holds exactly the last assignments. */
  lemma {:induction false} UnboundedIsLast(ops: seq<Op>, k: Key)
    ensures k in Unbounded(ops) <==> exists i: nat :: LastAssigned(ops, k, i)
    ensures forall i: nat :: LastAssigned(ops, k, i) ==> k in Unbounded(ops) && Unbounded(ops)[k] == ops[i].value
  {
    if ops != [] {
      var init, last := ops[..|ops| - 1], ops[|ops| - 1];
      UnboundedIsLast(init, k);
      if last.Set? && last.key == k {
        assert LastAssigned(ops, k, |init|);
        forall i: nat | LastAssigned(ops, k, i) ensures i == |init| {}
      } else {
        LastOfPrefix(ops, k);
        if k in Unbounded(init) && !(last.Delete? && last.key == k) {
          var i: nat :| LastAssigned(init, k, i);
          assert LastAssigned(ops, k, i);
        }
        forall i: nat | LastAssigned(ops, k, i) ensures LastAssigned(init, k, i) && ops[i] == init[i] {}
      }
    }
  }

  /** Whatever the cache still holds is what the unbounded map holds. */
  lemma {:induction false} AgreesWithUnbounded(ops: seq<Op>, maxsize: int)
    requires NoCalls(ops)
    ensures forall e :: e in Run(ops, maxsize) ==> e.key in Unbounded(ops) && Unbounded(ops)[e.key] == e.value
  {
    if ops != [] {
      var last := ops[|ops| - 1];
      AgreesWithUnbounded(ops[..|ops| - 1], maxsize);
      KeysWithout(Run(ops[..|ops| - 1], maxsize), last.key);
    }
  }

  /** With room for every key that was ever assigned, the cache loses nothing. */
  lemma {:induction false} CompleteWhenRoomy(ops: seq<Op>, maxsize: int, room: set<Key>)
    requires NoCalls(ops) && |room| <= maxsize
    requires forall i :: 0 <= i < |ops| && ops[i].Set? ==> ops[i].key in room
    ensures forall k :: k in Unbounded(ops) ==> Has(Run(ops, maxsize), k)
    ensures forall k :: Has(Run(ops, maxsize), k) ==> k in room
  {
    if ops != [] {
      var last, before := ops[|ops| - 1], Run(ops[..|ops| - 1], maxsize);
      CompleteWhenRoomy(ops[..|ops| - 1], maxsize, room);
      RunBounded(ops[..|ops| - 1], maxsize);
      ApplyOnKeys(before, last, maxsize);
      if last.Set? {
        DropDistinct(Keys(before), last.key);
        var grown := Drop(Keys(before), last.key) + [last.key];
        DistinctFits(grown, room);
      }
    }
  }

  // Inclusion between two capacities.

  lemma {:induction false} SubsequenceDrop<T(!new)>(a: seq<T>, b: seq<T>, x: T)
    requires Subsequence(a, b)
    ensures Subsequence(Drop(a, x), Drop(b, x))
    decreases |b|
  {
    if a != [] {
      if a[0] == b[0] && Subsequence(a[1..], b[1..]) {
        SubsequenceDrop(a[1..], b[1..], x);
        if a[0] != x {
          assert Drop(a, x)[1..] == Drop(a[1..], x);
          assert Drop(b, x)[1..] == Drop(b[1..], x);
        }
      } else {
        SubsequenceDrop(a, b[1..], x);
        if b[0] != x {
          assert Drop(b, x)[1..] == Drop(b[1..], x);
        }
      }
    }
  }

  /**
   What relates the smaller cache to the larger one.  The second part is what makes the first
   inductive: the larger cache is never fuller, relative to its capacity, than the smaller one.
   */
  ghost predicate Included(small: seq<Key>, large: seq<Key>, n: int, m: int) {
    && Distinct(small) && Distinct(large)
    && |small| <= Cap(n) && |large| <= Cap(m)
    && Subsequence(small, large)
    && |large| - |small| <= Cap(m) - Cap(n)
  }

  lemma InsertKeepsIncluded(small: seq<Key>, large: seq<Key>, n: int, m: int, k: Key)
    requires n <= m && Included(small, large, n, m)
    ensures Included(Newest(Drop(small, k) + [k], Cap(n)), Newest(Drop(large, k) + [k], Cap(m)), n, m)
  {
    SubsequenceMembers(small, large);
    DropDistinct(small, k);
    DropDistinct(large, k);
    SubsequenceDrop(small, large, k);
    var s, l := Drop(small, k) + [k], Drop(large, k) + [k];
    SubsequenceAppend(Drop(small, k), Drop(large, k), k);
    SubsequenceTail(s, l);
  }

  /** The smaller cache hits and the larger one refreshes, or only the larger one holds the key. */
  lemma TouchKeepsIncluded(small: seq<Key>, large: seq<Key>, n: int, m: int, k: Key)
    requires Included(small, large, n, m) && k in large
    ensures Included(if k in small then Drop(small, k) + [k] else small, Drop(large, k) + [k], n, m)
  {
    SubsequenceMembers(small, large);
    DropDistinct(small, k);
    DropDistinct(large, k);
    SubsequenceDrop(small, large, k);
    SubsequenceAppend(Drop(small, k), Drop(large, k), k);
    if k !in small {
      DropAbsent(small, k);
    }
  }

  /** A call that the smaller cache misses and the larger one hits. */
  lemma RefillKeepsIncluded(small: seq<Key>, large: seq<Key>, n: int, m: int, k: Key)
    requires n <= m && Included(small, large, n, m) && k !in small && k in large
    ensures Included(Newest(Drop(small, k) + [k], Cap(n)), Drop(large, k) + [k], n, m)
  {
    DropDistinct(large, k);
    InsertKeepsIncluded(small, large, n, m, k);
  }

  lemma StepKeepsIncluded(small: seq<Key>, large: seq<Key>, n: int, m: int, op: Op)
    requires n <= m && Included(small, large, n, m)
    ensures Included(ApplyKeys(small, op, n), ApplyKeys(large, op, m), n, m)
  {
    SubsequenceMembers(small, large);
    var k := op.key;
    DropDistinct(small, k);
    DropDistinct(large, k);
    if op.Set? || (op.Call? && op.outcome.Return? && k !in large) {
      InsertKeepsIncluded(small, large, n, m, k);
    } else if op.Delete? {
      SubsequenceDrop(small, large, k);
    } else if k in large {
      if op.Call? && op.outcome.Return? && k !in small {
        RefillKeepsIncluded(small, large, n, m, k);
      } else {
        TouchKeepsIncluded(small, large, n, m, k);
      }
    }
  }

  lemma {:induction false} RunIncluded(ops: seq<Op>, n: int, m: int)
    requires n <= m
    ensures Included(Keys(Run(ops, n)), Keys(Run(ops, m)), n, m)
  {
    if ops != [] {
      var init, last := ops[..|ops| - 1], ops[|ops| - 1];
      RunIncluded(init, n, m);
      StepKeepsIncluded(Keys(Run(init, n)), Keys(Run(init, m)), n, m, last);
      ApplyOnKeys(Run(init, n), last, n);
      ApplyOnKeys(Run(init, m), last, m);
    }
  }

  /**
   One trace at two capacities, explicit operations and decorated calls mixed: the smaller cache's
   recency order is a subsequence of the larger one's.
   */
  lemma SmallerCacheIsSubsequence(ops: seq<Op>, n: int, m: int)
    requires n <= m
    ensures Subsequence(Keys(Run(ops, n)), Keys(Run(ops, m)))
    ensures NoCalls(ops) ==>
      forall k :: Has(Run(ops, n), k) ==> Has(Run(ops, m), k) && Lookup(Run(ops, n), k) == Lookup(Run(ops, m), k)
  {
    RunIncluded(ops, n, m);
    SubsequenceMembers(Keys(Run(ops, n)), Keys(Run(ops, m)));
    if NoCalls(ops) {
      AgreesWithUnbounded(ops, n);
      AgreesWithUnbounded(ops, m);
    }
  }

  // Whose value a smaller cache holds.

  /** The operation gives the key a value in the cache: an assignment, or a call that misses and returns. */
  predicate Fills(d: seq<Entry>, op: Op, k: Key) {
    op.key == k && (op.Set? || (op.Call? && op.outcome.Return? && !Has(d, k)))
  }

  function Given(op: Op): Value
    requires op.Set? || (op.Call? && op.outcome.Return?)
  {
    if op.Set? then op.value else op.outcome.value
  }

  /** The value of a key after an operation is what the operation gave it, or the one before. */
  lemma LookupAfter(d: seq<Entry>, op: Op, maxsize: int, k: Key)
    requires Distinct(Keys(d)) && Has(Apply(d, op, maxsize), k)
    ensures if Fills(d, op, k) then Lookup(Apply(d, op, maxsize), k) == Given(op)
            else Has(d, k) && Lookup(Apply(d, op, maxsize), k) == Lookup(d, k)
  {
    var e := Entry(k, Lookup(Apply(d, op, maxsize), k));
    EntryAfter(d, op, maxsize, e);
    if !Fills(d, op, k) {
      LookupIsOnly(d, e);
    }
  }

  /** An entry after an operation is the one it gave, or was there before. */
  lemma EntryAfter(d: seq<Entry>, op: Op, maxsize: int, e: Entry)
    requires e in Apply(d, op, maxsize)
    ensures if Fills(d, op, e.key) then e.value == Given(op) else e in d
  {
    KeysWithout(d, op.key);
  }

  /** The operation at `i` gave the key a value in the cache of size `n`. */
  predicate FilledAt(ops: seq<Op>, n: int, k: Key, i: nat) {
    i < |ops| && Fills(Run(ops[..i], n), ops[i], k)
  }

  /** And no later one did. */
  predicate LastFill(ops: seq<Op>, n: int, k: Key, i: nat) {
    FilledAt(ops, n, k, i) && forall j :: i < j < |ops| ==> !FilledAt(ops, n, k, j)
  }

  lemma FilledInPrefix(ops: seq<Op>, n: int, k: Key, i: nat)
    requires i < |ops| - 1
    ensures FilledAt(ops, n, k, i) <==> FilledAt(ops[..|ops| - 1], n, k, i)
  {
    assert ops[..|ops| - 1][..i] == ops[..i];
  }

  lemma {:induction false} HeldWasFilled(ops: seq<Op>, n: int, k: Key)
    requires Has(Run(ops, n), k)
    ensures exists i :: LastFill(ops, n, k, i)
  {
    var init, last := ops[..|ops| - 1], ops[|ops| - 1];
    if Fills(Run(init, n), last, k) {
      assert LastFill(ops, n, k, |init|);
    } else {
      RunBounded(init, n);
      LookupAfter(Run(init, n), last, n, k);
      HeldWasFilled(init, n, k);
      var i :| LastFill(init, n, k, i);
      FillOfPrefix(ops, n, k, i);
    }
  }

  lemma FillOfPrefix(ops: seq<Op>, n: int, k: Key, i: nat)
    requires i < |ops| - 1 && !FilledAt(ops, n, k, |ops| - 1)
    ensures LastFill(ops, n, k, i) <==> LastFill(ops[..|ops| - 1], n, k, i)
  {
    var init := ops[..|ops| - 1];
    FilledInPrefix(ops, n, k, i);
    forall j: nat | j < |init| ensures FilledAt(ops, n, k, j) <==> FilledAt(init, n, k, j) {
      FilledInPrefix(ops, n, k, j);
    }
    assert LastFill(init, n, k, i) ==> forall j: nat :: i < j < |init| ==> !FilledAt(ops, n, k, j);
  }

  /**
   The smaller cache agrees with the larger one on a key that it holds, unless the last operation that gave
   the key a value in it was a call that the larger one answered with another value.
   */
  lemma {:induction false} SmallerAgreesIff(ops: seq<Op>, n: int, m: int, k: Key, i: nat)
    requires n <= m && Has(Run(ops, n), k) && LastFill(ops, n, k, i)
    ensures Has(Run(ops, m), k)
    ensures Lookup(Run(ops, n), k) == Lookup(Run(ops, m), k) <==>
      (ops[i].Call? && Has(Run(ops[..i], m), k) ==> ops[i].outcome == Return(Lookup(Run(ops[..i], m), k)))
  {
    var init, last := ops[..|ops| - 1], ops[|ops| - 1];
    HeldByLarger(ops, n, m, k);
    RunBounded(init, n);
    RunBounded(init, m);
    if i == |init| {
      ValuesAtFill(Run(init, n), Run(init, m), last, n, m, k);
    } else {
      assert !FilledAt(ops, n, k, |init|);
      if Has(Run(init, n), k) {
        HeldByLarger(init, n, m, k);
      }
      ValuesWithoutFill(Run(init, n), Run(init, m), last, n, m, k);
      FillOfPrefix(ops, n, k, i);
      SmallerAgreesIff(init, n, m, k, i);
      assert init[..i] == ops[..i];
    }
  }

  lemma ValuesAtFill(small: seq<Entry>, large: seq<Entry>, op: Op, n: int, m: int, k: Key)
    requires Distinct(Keys(small)) && Distinct(Keys(large)) && Fills(small, op, k)
    requires Has(Apply(small, op, n), k) && Has(Apply(large, op, m), k)
    ensures Lookup(Apply(small, op, n), k) == Lookup(Apply(large, op, m), k) <==>
      (op.Call? && Has(large, k) ==> op.outcome == Return(Lookup(large, k)))
  {
    LookupAfter(small, op, n, k);
    LookupAfter(large, op, m, k);
  }

  lemma ValuesWithoutFill(small: seq<Entry>, large: seq<Entry>, op: Op, n: int, m: int, k: Key)
    requires Distinct(Keys(small)) && Distinct(Keys(large)) && !Fills(small, op, k) && (Has(small, k) ==> Has(large, k))
    requires Has(Apply(small, op, n), k) && Has(Apply(large, op, m), k)
    ensures Has(small, k) && Lookup(Apply(small, op, n), k) == Lookup(small, k)
    ensures Has(large, k) && Lookup(Apply(large, op, m), k) == Lookup(large, k)
  {
    LookupAfter(small, op, n, k);
    LookupAfter(large, op, m, k);
  }

  lemma HeldByLarger(ops: seq<Op>, n: int, m: int, k: Key)
    requires n <= m && Has(Run(ops, n), k)
    ensures Has(Run(ops, m), k)
  {
    RunIncluded(ops, n, m);
    SubsequenceMembers(Keys(Run(ops, n)), Keys(Run(ops, m)));
  }

  /** Every call of the trace ends as the function does, and every assignment stores what it returns. */
  predicate OfFunction(ops: seq<Op>, f: Key -> Outcome) {
    forall i :: 0 <= i < |ops| ==>
      (ops[i].Call? ==> ops[i].outcome == f(ops[i].key)) && (ops[i].Set? ==> f(ops[i].key) == Return(ops[i].value))
  }

  lemma {:induction false} OneFunctionValues(ops: seq<Op>, f: Key -> Outcome, maxsize: int)
    requires OfFunction(ops, f)
    ensures forall e :: e in Run(ops, maxsize) ==> f(e.key) == Return(e.value)
  {
    if ops != [] {
      OneFunctionValues(ops[..|ops| - 1], f, maxsize);
      KeysWithout(Run(ops[..|ops| - 1], maxsize), ops[|ops| - 1].key);
    }
  }

  /** Over one function, calls and assignments mixed, caches of all sizes agree wherever both hold a key. */
  lemma OneFunctionAgrees(ops: seq<Op>, f: Key -> Outcome, n: int, m: int, k: Key)
    requires OfFunction(ops, f) && n <= m && Has(Run(ops, n), k)
    ensures Has(Run(ops, m), k) && Lookup(Run(ops, n), k) == Lookup(Run(ops, m), k)
  {
    HeldByLarger(ops, n, m, k);
    OneFunctionValues(ops, f, n);
    OneFunctionValues(ops, f, m);
  }

  /** The reads and calls of the trace that found their key. */
  function Hits(ops: seq<Op>, maxsize: int): nat {
    if ops == [] then 0
    else
      var init, last := ops[..|ops| - 1], ops[|ops| - 1];
      Hits(init, maxsize) + (if (last.Get? || last.Call?) && Has(Run(init, maxsize), last.key) then 1 else 0)
  }

  /** A read or a call that finds its key among the entries. */
  predicate HitAt(ops: seq<Op>, maxsize: int, i: nat) {
    i < |ops| && (ops[i].Get? || ops[i].Call?) && exists e :: e in Run(ops[..i], maxsize) && e.key == ops[i].key
  }

  ghost function HitPlaces(ops: seq<Op>, maxsize: int): set<nat> { set i: nat | i < |ops| && HitAt(ops, maxsize, i) }

  lemma {:induction false} HitsAreExactly(ops: seq<Op>, maxsize: int)
    ensures Hits(ops, maxsize) == |HitPlaces(ops, maxsize)|
  {
    if ops == [] {
      assert HitPlaces(ops, maxsize) == {};
    } else {
      HitsAreExactly(ops[..|ops| - 1], maxsize);
      PlacesOfPrefix(ops, maxsize);
      HeldIffEntry(Run(ops[..|ops| - 1], maxsize), ops[|ops| - 1].key);
    }
  }

  lemma PlacesOfPrefix(ops: seq<Op>, maxsize: int)
    requires ops != []
    ensures var n, before := |ops| - 1, HitPlaces(ops[..|ops| - 1], maxsize);
      n !in before && HitPlaces(ops, maxsize) == if HitAt(ops, maxsize, n) then before + {n} else before
  {
    var n := |ops| - 1;
    forall i: nat | i < n ensures HitAt(ops[..n], maxsize, i) <==> HitAt(ops, maxsize, i) {
      assert ops[..n][..i] == ops[..i];
    }
  }

  lemma HeldIffEntry(d: seq<Entry>, k: Key)
    ensures Has(d, k) <==> exists e :: e in d && e.key == k
  {
    forall e | e in d && e.key == k ensures Has(d, k) {
      var i :| 0 <= i < |d| && d[i] == e;
      assert Keys(d)[i] == k;
    }
    if Has(d, k) {
      var i :| 0 <= i < |Keys(d)| && Keys(d)[i] == k;
      assert d[i] in d && d[i].key == k;
    }
  }

  /** A larger `maxsize` never yields fewer hits. */
  lemma {:induction false} LargerCacheHitsMore(ops: seq<Op>, n: int, m: int)
    requires n <= m
    ensures Hits(ops, n) <= Hits(ops, m)
  {
    if ops != [] {
      LargerCacheHitsMore(ops[..|ops| - 1], n, m);
      SmallerCacheIsSubsequence(ops[..|ops| - 1], n, m);
      RunIncluded(ops[..|ops| - 1], n, m);
      SubsequenceMembers(Keys(Run(ops[..|ops| - 1], n)), Keys(Run(ops[..|ops| - 1], m)));
    }
  }

  // Decorated calls only.

  /** The trace of calls to a function that behaves the same way on equal keys. */
  function Calls(ks: seq<Key>, f: Key -> Outcome): (ops: seq<Op>)
    ensures |ops| == |ks| && forall i :: 0 <= i < |ks| ==> ops[i] == Call(ks[i], f(ks[i]))
  {
    seq(|ks|, i requires 0 <= i < |ks| => Call(ks[i], f(ks[i])))
  }

  /** The called keys whose function returns. */
  function Returning(ks: seq<Key>, f: Key -> Outcome): seq<Key> {
    if ks == [] then [] else IfReturning(ks[0], f) + Returning(ks[1..], f)
  }

  /** The distinct elements ordered by their last occurrence. */
  function ByLastUse<T(==,!new)>(s: seq<T>): seq<T> {
    if s == [] then [] else if s[0] in s[1..] then ByLastUse(s[1..]) else [s[0]] + ByLastUse(s[1..])
  }

  lemma {:induction false} ByLastUseMembers<T(!new)>(s: seq<T>)
    ensures forall x :: x in ByLastUse(s) <==> x in s
  {
    if s != [] {
      ByLastUseMembers(s[1..]);
      assert s == [s[0]] + s[1..];
    }
  }

  lemma {:induction false} ByLastUseSnoc<T(!new)>(s: seq<T>, x: T)
    ensures ByLastUse(s + [x]) == Drop(ByLastUse(s), x) + [x]
  {
    if s == [] {
      assert s + [x] == [x];
    } else {
      assert (s + [x])[1..] == s[1..] + [x];
      ByLastUseSnoc(s[1..], x);
      ByLastUseMembers(s[1..]);
      if s[0] == x && x !in s[1..] {
        DropAbsent(ByLastUse(s[1..]), x);
      }
    }
  }

  function IfReturning(k: Key, f: Key -> Outcome): seq<Key> { if f(k).Return? then [k] else [] }

  lemma {:induction false} ReturningSnoc(ks: seq<Key>, k: Key, f: Key -> Outcome)
    ensures Returning(ks + [k], f) == Returning(ks, f) + IfReturning(k, f)
  {
    if ks == [] {
      assert ks + [k] == [k] + [];
      ReturningCons(k, [], f);
    } else {
      ReturningSnoc(ks[1..], k, f);
      ReturningCons(ks[0], ks[1..] + [k], f);
      assert ks + [k] == [ks[0]] + (ks[1..] + [k]);
      Associate(IfReturning(ks[0], f), Returning(ks[1..], f), IfReturning(k, f));
    }
  }

  lemma ReturningCons(k: Key, ks: seq<Key>, f: Key -> Outcome)
    ensures Returning([k] + ks, f) == IfReturning(k, f) + Returning(ks, f)
  {
    assert ([k] + ks)[1..] == ks;
  }

  lemma Associate(a: seq<Key>, b: seq<Key>, c: seq<Key>)
    ensures a + (b + c) == a + b + c
  {}

  lemma {:induction false} ReturningMembers(ks: seq<Key>, f: Key -> Outcome)
    ensures forall k :: k in Returning(ks, f) ==> f(k).Return?
  {
    if ks != [] {
      ReturningMembers(ks[1..], f);
    }
  }

  lemma {:induction false} DropFromNewest<T(!new)>(s: seq<T>, n: nat, x: T)
    requires Distinct(s) && x in Newest(s, n)
    ensures Newest(Drop(s, x) + [x], n) == Drop(Newest(s, n), x) + [x]
    decreases |s|
  {
    DropDistinct(s, x);
    if |s| > n {
      OlderThanNewest(s, n, x);
      DropFromNewest(s[1..], n, x);
      DropLater(s, n, x);
    }
  }

  lemma OlderThanNewest<T>(s: seq<T>, n: nat, x: T)
    requires Distinct(s) && |s| > n && x in Newest(s, n)
    ensures s[0] != x && x in s[1..] && Newest(s[1..], n) == Newest(s, n) && Distinct(s[1..])
  {
    assert s[0] !in s[|s| - n..];
    NewestTail(s, n);
  }

  lemma DropLater<T(!new)>(s: seq<T>, n: nat, x: T)
    requires Distinct(s) && |s| > n && s[0] != x && x in s[1..]
    ensures Newest(Drop(s, x) + [x], n) == Newest(Drop(s[1..], x) + [x], n)
  {
    var tail := Drop(s[1..], x) + [x];
    assert Drop(s, x) + [x] == [s[0]] + tail;
    DropDistinct(s[1..], x);
    NewestTail([s[0]] + tail, n);
  }

  lemma {:induction false} InsertIntoNewest<T(!new)>(s: seq<T>, n: nat, x: T)
    requires Distinct(s) && x !in Newest(s, n)
    ensures Newest(Drop(s, x) + [x], n) == Newest(Newest(s, n) + [x], n)
    decreases |s|
  {
    if |s| > n {
      NewestTail(s, n);
      InsertIntoNewest(s[1..], n, x);
      DropDistinct(s, x);
      var tail := Drop(s[1..], x) + [x];
      if s[0] != x {
        assert Drop(s, x) + [x] == [s[0]] + tail;
        NewestTail([s[0]] + tail, n);
      }
    } else {
      DropAbsent(s, x);
    }
  }

  lemma {:induction false} ByLastUseDistinct<T(!new)>(s: seq<T>)
    ensures Distinct(ByLastUse(s))
  {
    if s != [] {
      ByLastUseDistinct(s[1..]);
      ByLastUseMembers(s[1..]);
    }
  }

  lemma LastCall(ks: seq<Key>, k: Key, f: Key -> Outcome, maxsize: int)
    ensures Run(Calls(ks + [k], f), maxsize) == Apply(Run(Calls(ks, f), maxsize), Call(k, f(k)), maxsize)
  {
    assert Calls(ks + [k], f)[..|ks|] == Calls(ks, f);
  }

  /** One call on the most recent keys. */
  lemma RecentCall(recent: seq<Key>, k: Key, o: Outcome, maxsize: int)
    requires Distinct(recent) && (o.Raise? ==> k !in recent)
    ensures ApplyKeys(Newest(recent, Cap(maxsize)), Call(k, o), maxsize) ==
      Newest(if o.Return? then Drop(recent, k) + [k] else recent, Cap(maxsize))
  {
    var kept := Newest(recent, Cap(maxsize));
    if o.Return? {
      if k in kept {
        DropFromNewest(recent, Cap(maxsize), k);
      } else {
        InsertIntoNewest(recent, Cap(maxsize), k);
        DropAbsent(kept, k);
      }
    }
  }

  /** Through the decorator alone, the cache holds exactly the `maxsize` most recently called keys that return. */
  lemma {:induction false} CallsKeepMostRecent(ks: seq<Key>, f: Key -> Outcome, maxsize: int)
    ensures Keys(Run(Calls(ks, f), maxsize)) == Newest(ByLastUse(Returning(ks, f)), Cap(maxsize))
  {
    if ks != [] {
      var init, k := ks[..|ks| - 1], ks[|ks| - 1];
      assert ks == init + [k];
      CallsKeepMostRecent(init, f, maxsize);
      LastCall(init, k, f, maxsize);
      ApplyOnKeys(Run(Calls(init, f), maxsize), Call(k, f(k)), maxsize);
      RecentSnoc(init, k, f);
      RecentCall(ByLastUse(Returning(init, f)), k, f(k), maxsize);
    }
  }

  lemma RecentSnoc(ks: seq<Key>, k: Key, f: Key -> Outcome)
    ensures Distinct(ByLastUse(Returning(ks, f)))
    ensures f(k).Raise? ==> k !in ByLastUse(Returning(ks, f))
    ensures ByLastUse(Returning(ks + [k], f)) ==
      if f(k).Return? then Drop(ByLastUse(Returning(ks, f)), k) + [k] else ByLastUse(Returning(ks, f))
  {
    ReturningSnoc(ks, k, f);
    assert Returning(ks, f) + [] == Returning(ks, f);
    ReturningMembers(ks, f);
    ByLastUseDistinct(Returning(ks, f));
    ByLastUseMembers(Returning(ks, f));
    ByLastUseSnoc(Returning(ks, f), k);
  }

  /** Every value such a cache holds is the one that the function returns for its key. */
  lemma CallsKeepValues(ks: seq<Key>, f: Key -> Outcome, maxsize: int)
    ensures forall e :: e in Run(Calls(ks, f), maxsize) ==> f(e.key) == Return(e.value)
  {
    OneFunctionValues(Calls(ks, f), f, maxsize);
  }

  lemma CallKeepsValues(d: seq<Entry>, k: Key, f: Key -> Outcome, maxsize: int)
    requires forall e :: e in d ==> f(e.key) == Return(e.value)
    ensures forall e :: e in Apply(d, Call(k, f(k)), maxsize) ==> f(e.key) == Return(e.value)
    ensures Has(d, k) ==> f(k) == Return(Lookup(d, k))
  {
    KeysWithout(d, k);
  }

  // The objects.

  /** The ordered-dictionary cache without expiry. */
  class LruCache {
    var data: seq<Entry>
    const maxsize: int

    ghost predicate Valid()
      reads this
    {
      Distinct(Keys(data)) && |data| <= Cap(maxsize)
    }

    constructor (maxsize: int)
      ensures Valid() && data == [] && this.maxsize == maxsize
    {
      this.maxsize := maxsize;
      data := [];
    }

    /** Evicts the oldest entries.  A negative bound empties the dictionary and then fails to pop. */
    method EnsureCapacity() returns (ok: bool)
      requires Distinct(Keys(data))
      modifies this
      ensures data == Newest(old(data), Cap(maxsize))
      ensures ok <==> maxsize >= 0
    {
      ghost var all := data;
      while |data| > maxsize
        invariant Newest(data, Cap(maxsize)) == Newest(all, Cap(maxsize))
        decreases |data|
      {
        if data == [] {
          return false;
        }
        NewestTail(data, Cap(maxsize));
        data := data[1..];
      }
      ok := true;
    }

    method SetItem(k: Key, v: Value) returns (ok: bool)
      requires Valid()
      modifies this
      ensures Valid()
      ensures data == Apply(old(data), Set(k, v), maxsize)
      ensures ok <==> maxsize >= 0
    {
      AssignMoves(data, k, v);
      SetKeepsDistinct(data, k, v, maxsize);
      data := Assign(data, k, v);
      data := MoveToEnd(data, k);
      ok := EnsureCapacity();
    }

    method GetItem(k: Key) returns (r: Option<Value>)
      requires Valid()
      modifies this
      ensures Valid()
      ensures data == Apply(old(data), Get(k), maxsize)
      ensures r == if Has(old(data), k) then Some(Lookup(old(data), k)) else None
    {
      KeysOfGet(data, k);
      DropDistinct(Keys(data), k);
      if Has(data, k) {
        r := Some(Lookup(data, k));
        data := MoveToEnd(data, k);
      } else {
        r := None;
      }
    }

    method DelItem(k: Key) returns (ok: bool)
      requires Valid()
      modifies this
      ensures Valid()
      ensures data == Apply(old(data), Delete(k), maxsize)
      ensures ok <==> Has(old(data), k)
    {
      KeysWithout(data, k);
      DropDistinct(Keys(data), k);
      ok := Has(data, k);
      if ok {
        data := Without(data, k);
      } else {
        WithoutAbsent(data, k);
      }
    }
  }

  /** A function wrapped by the synchronous `cached` decorator, with its hit and miss counters. */
  class CachedFunction {
    const func: Key -> Outcome
    const cache: LruCache
    var hits: nat
    var misses: nat

    ghost predicate Valid()
      reads this, cache
    {
      cache.Valid() && forall e :: e in cache.data ==> func(e.key) == Return(e.value)
    }

    constructor (func: Key -> Outcome, maxsize: int)
      ensures Valid() && fresh(cache) && this.func == func && cache.maxsize == maxsize
      ensures cache.data == [] && hits == 0 && misses == 0
    {
      this.func := func;
      cache := new LruCache(maxsize);
      hits, misses := 0, 0;
    }

    /** One call: exactly one counter moves, and the caller sees what the function itself would give. */
    method Call(k: Key) returns (r: CallResult)
      requires Valid()
      modifies this, cache
      ensures Valid()
      ensures cache.data == Apply(old(cache.data), Op.Call(k, func(k)), cache.maxsize)
      ensures hits == old(hits) + (if Has(old(cache.data), k) then 1 else 0)
      ensures hits + misses == old(hits) + old(misses) + 1
      ensures r == if cache.maxsize < 0 && func(k).Return? then KeyError else Done(func(k))
    {
      CallKeepsValues(cache.data, k, func, cache.maxsize);
      if Has(cache.data, k) {
        hits := hits + 1;
        var v := cache.GetItem(k);
        r := Done(Return(v.value));
      } else {
        misses := misses + 1;
        var result := func(k);
        if result.Raise? {
          return Done(Raise);
        }
        var ok := cache.SetItem(k, result.value);
        r := if ok then Done(result) else KeyError;
      }
    }
  }
}

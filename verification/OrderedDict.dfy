/**
 Ordered dictionaries: sequences of entries with distinct keys, oldest first, and the functions that say
 what assigning, moving to the end, deleting and evicting do to them.
 */
module OrderedDict {
  import opened Options
  import opened Sequences

  type Key = string
  type Value = int

  datatype Entry = Entry(key: Key, value: Value)

  /** What calling the decorated function does. */
  datatype Outcome = Return(value: Value) | Raise

  function Keys(d: seq<Entry>): (ks: seq<Key>)
    ensures |ks| == |d| && forall i :: 0 <= i < |d| ==> ks[i] == d[i].key
  {
    seq(|d|, i requires 0 <= i < |d| => d[i].key)
  }

  predicate Has(d: seq<Entry>, k: Key) {
    k in Keys(d)
  }

  function Lookup(d: seq<Entry>, k: Key): (v: Value)
    requires Has(d, k)
    ensures Entry(k, v) in d
  {
    if d[0].key == k then d[0].value
    else assert Keys(d) == [d[0].key] + Keys(d[1..]); Lookup(d[1..], k)
  }

  /** The dictionary without the entry of `k`. */
  function Without(d: seq<Entry>, k: Key): (r: seq<Entry>) {
    if d == [] then []
    else if d[0].key == k then Without(d[1..], k)
    else [d[0]] + Without(d[1..], k)
  }

  function Drop<T(==,!new)>(s: seq<T>, x: T): (r: seq<T>)
    ensures x !in r && |r| <= |s|
    ensures forall y :: y in r <==> y in s && y != x
  {
    if s == [] then [] else if s[0] == x then Drop(s[1..], x) else [s[0]] + Drop(s[1..], x)
  }

  /** Assigning to a key keeps its position when it is present and appends it when it is not. */
  function Assign(d: seq<Entry>, k: Key, v: Value): seq<Entry> {
    if d == [] then [Entry(k, v)]
    else if d[0].key == k then [Entry(k, v)] + d[1..]
    else [d[0]] + Assign(d[1..], k, v)
  }

  function MoveToEnd(d: seq<Entry>, k: Key): seq<Entry>
    requires Has(d, k)
  {
    Without(d, k) + [Entry(k, Lookup(d, k))]
  }

  function Cap(maxsize: int): nat { if maxsize < 0 then 0 else maxsize }

  /** The newest `n` elements. */
  function Newest<T>(s: seq<T>, n: nat): seq<T> {
    if |s| > n then s[|s| - n..] else s
  }

  function GetEntry(d: seq<Entry>, k: Key): seq<Entry> {
    if Has(d, k) then MoveToEnd(d, k) else d
  }

  /** How a decorated call ends: with the function's own outcome, or with a key error from a negative bound. */
  datatype CallResult = Done(outcome: Outcome) | KeyError

  lemma KeysCons(d: seq<Entry>)
    requires d != []
    ensures Keys(d) == [d[0].key] + Keys(d[1..])
  {}

  lemma DropAbsent<T(!new)>(s: seq<T>, x: T)
    requires x !in s
    ensures Drop(s, x) == s
  {}

  lemma {:induction false} DropDistinct<T(!new)>(s: seq<T>, x: T)
    requires Distinct(s)
    ensures Distinct(Drop(s, x))
    ensures |Drop(s, x)| == |s| - (if x in s then 1 else 0)
  {
    if s != [] {
      DropDistinct(s[1..], x);
      assert s[0] !in s[1..];
    }
  }

  lemma {:induction false} KeysWithout(d: seq<Entry>, k: Key)
    ensures Keys(Without(d, k)) == Drop(Keys(d), k)
    ensures forall e :: e in Without(d, k) <==> e in d && e.key != k
  {
    if d != [] {
      KeysWithout(d[1..], k);
      assert d == [d[0]] + d[1..];
      KeysCons(d);
      assert Keys(d)[1..] == Keys(d[1..]);
      if d[0].key != k {
        KeysCons([d[0]] + Without(d[1..], k));
        assert ([d[0]] + Without(d[1..], k))[1..] == Without(d[1..], k);
      }
    }
  }

  /** Assigning never repeats a key. */
  lemma {:induction false} AssignKeys(d: seq<Entry>, k: Key, v: Value)
    requires Distinct(Keys(d))
    ensures Keys(Assign(d, k, v)) == if Has(d, k) then Keys(d) else Keys(d) + [k]
  {
    if d != [] {
      KeysCons(d);
      KeysCons(Assign(d, k, v));
      if d[0].key == k {
        assert Assign(d, k, v)[1..] == d[1..];
      } else {
        assert Keys(d[1..]) == Keys(d)[1..];
        AssignKeys(d[1..], k, v);
        assert Assign(d, k, v)[1..] == Assign(d[1..], k, v);
      }
    }
  }

  lemma {:induction false} AssignLookup(d: seq<Entry>, k: Key, v: Value)
    ensures Has(Assign(d, k, v), k) && Lookup(Assign(d, k, v), k) == v
    ensures Without(Assign(d, k, v), k) == Without(d, k)
  {
    var a := Assign(d, k, v);
    KeysCons(a);
    if d != [] {
      if d[0].key == k {
        assert a[1..] == d[1..];
      } else {
        AssignLookup(d[1..], k, v);
        assert a[1..] == Assign(d[1..], k, v);
      }
    }
  }

  /** Assigning and then moving to the end leaves the new entry last. */
  lemma AssignMoves(d: seq<Entry>, k: Key, v: Value)
    ensures Has(Assign(d, k, v), k) && MoveToEnd(Assign(d, k, v), k) == Without(d, k) + [Entry(k, v)]
  {
    AssignLookup(d, k, v);
  }

  lemma KeysOfNewest(d: seq<Entry>, n: nat)
    ensures Keys(Newest(d, n)) == Newest(Keys(d), n)
  {}

  lemma KeysOfGet(d: seq<Entry>, k: Key)
    ensures Keys(GetEntry(d, k)) == if k in Keys(d) then Drop(Keys(d), k) + [k] else Keys(d)
  {
    KeysWithout(d, k);
    if Has(d, k) {
      assert Keys(Without(d, k) + [Entry(k, Lookup(d, k))]) == Keys(Without(d, k)) + [k];
    }
  }

  lemma {:induction false} LookupIsOnly(d: seq<Entry>, e: Entry)
    requires Distinct(Keys(d)) && e in d
    ensures Has(d, e.key) && Lookup(d, e.key) == e.value
  {
    KeysCons(d);
    if d[0] != e {
      assert e in d[1..];
      assert Keys(d[1..]) == Keys(d)[1..];
      LookupIsOnly(d[1..], e);
      assert d[0].key != e.key;
    } else {
      assert Keys(d)[0] == e.key;
    }
  }

  lemma NewestTail<T>(s: seq<T>, n: nat)
    requires |s| > n
    ensures Newest(s[1..], n) == Newest(s, n)
  {}

  lemma {:induction false} WithoutConcat(a: seq<Entry>, b: seq<Entry>, k: Key)
    ensures Without(a + b, k) == Without(a, k) + Without(b, k)
  {
    if a == [] {
      assert a + b == b;
    } else {
      WithoutConcat(a[1..], b, k);
      assert (a + b)[1..] == a[1..] + b;
    }
  }

  lemma AbsentKey(d: seq<Entry>, k: Key)
    requires forall e :: e in d ==> e.key != k
    ensures !Has(d, k) && Without(d, k) == d
  {
    forall i | 0 <= i < |d| ensures Keys(d)[i] != k {
      assert d[i] in d;
    }
    WithoutAbsent(d, k);
  }

  /** Without an entry the others keep their order. */
  lemma WithoutAt(d: seq<Entry>, i: nat)
    requires Distinct(Keys(d)) && i < |d|
    ensures Without(d, d[i].key) == d[..i] + d[i + 1..]
  {
    OtherKeys(d, i);
    WithoutMiddle(d[..i], d[i], d[i + 1..]);
    SplitAt(d, i);
  }

  lemma SplitAt(d: seq<Entry>, i: nat)
    requires i < |d|
    ensures d == d[..i] + ([d[i]] + d[i + 1..])
  {}

  lemma WithoutMiddle(a: seq<Entry>, e: Entry, b: seq<Entry>)
    requires forall x :: x in a || x in b ==> x.key != e.key
    ensures Without(a + ([e] + b), e.key) == a + b
  {
    WithoutConcat(a, [e] + b, e.key);
    assert ([e] + b)[1..] == b;
    AbsentKey(a, e.key);
    AbsentKey(b, e.key);
  }

  lemma OtherKeys(d: seq<Entry>, i: nat)
    requires Distinct(Keys(d)) && i < |d|
    ensures (forall e :: e in d[..i] ==> e.key != d[i].key) && forall e :: e in d[i + 1..] ==> e.key != d[i].key
  {
    forall j | 0 <= j < |d| && j != i ensures d[j].key != d[i].key {
      assert Keys(d)[j] != Keys(d)[i];
    }
  }

  lemma {:induction false} DistinctFits<T(!new)>(s: seq<T>, room: set<T>)
    requires Distinct(s) && forall x :: x in s ==> x in room
    ensures |s| <= |room|
  {
    if s != [] {
      assert forall x :: x in s[1..] ==> x in room - {s[0]};
      DistinctFits(s[1..], room - {s[0]});
    }
  }

  lemma {:induction false} WithoutAbsent(d: seq<Entry>, k: Key)
    requires !Has(d, k)
    ensures Without(d, k) == d
  {
    if d != [] {
      KeysCons(d);
      WithoutAbsent(d[1..], k);
    }
  }
}

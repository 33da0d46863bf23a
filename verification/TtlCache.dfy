/**
 The bounded cache whose entries expire.  Time is a parameter: every operation is told the instant at
 which it reads the clock.  Reads purge what has expired; an assignment does not, it only evicts the
 oldest entries beyond the bound, so an expired entry can push out a live one.

 The reference is a map without bound and without purging that remembers each deadline.
 */
module TtlCache {
  import opened Options
  import opened OrderedDict
  import opened Sequences

  type Time = real

  datatype State = State(data: seq<Entry>, expiry: map<Key, Time>)

  /** The two dictionaries of the cache list the same keys. */
  ghost predicate Consistent(s: State) {
    Distinct(Keys(s.data)) && forall k :: k in s.expiry <==> Has(s.data, k)
  }

  function Expired(expiry: map<Key, Time>, now: Time): set<Key> {
    set k | k in expiry && expiry[k] < now
  }

  function Remove(d: seq<Entry>, dead: set<Key>): seq<Entry> {
    if d == [] then [] else if d[0].key in dead then Remove(d[1..], dead) else [d[0]] + Remove(d[1..], dead)
  }

  function Purge(s: State, now: Time): State {
    State(Remove(s.data, Expired(s.expiry, now)), s.expiry - Expired(s.expiry, now))
  }

  /** Evicts the oldest entries beyond the bound together with their deadlines. */
  function Evict(s: State, maxsize: int): State
    decreases |s.data|
  {
    if |s.data| <= Cap(maxsize) then s
    else Evict(State(s.data[1..], s.expiry - {s.data[0].key}), maxsize)
  }

  /** The cache after an assignment, before eviction. */
  function Stored(s: State, k: Key, v: Value, deadline: Time): State {
    State(Without(s.data, k) + [Entry(k, v)], s.expiry[k := deadline])
  }

  datatype Op =
    | Set(key: Key, value: Value, now: Time, ttl: Time)
    | Get(key: Key, now: Time)
    | Delete(key: Key)
    | Scan(now: Time)  // a membership test for a text key, the length, or the start of an iteration

  function Apply(s: State, op: Op, maxsize: int): State {
    match op
    case Set(k, v, now, ttl) =>
      Evict(Stored(s, k, v, now + ttl), maxsize)
    case Get(k, now) => var p := Purge(s, now); p.(data := GetEntry(p.data, k))
    case Delete(k) => if Has(s.data, k) then State(Without(s.data, k), s.expiry - {k}) else s
    case Scan(now) => Purge(s, now)
  }

  function Run(ops: seq<Op>, maxsize: int): State {
    if ops == [] then State([], map[]) else Apply(Run(ops[..|ops| - 1], maxsize), ops[|ops| - 1], maxsize)
  }

  /** A remembered assignment. */
  datatype Cell = Cell(value: Value, deadline: Time)

  function Remember(m: map<Key, Cell>, op: Op): map<Key, Cell> {
    match op
    case Set(k, v, now, ttl) => m[k := Cell(v, now + ttl)]
    case Delete(k) => m - {k}
    case _ => m
  }

  /** The unbounded reference: the last assignment of each key that was not deleted since. */
  function Reference(ops: seq<Op>): map<Key, Cell> {
    if ops == [] then map[]
    else Remember(Reference(ops[..|ops| - 1]), ops[|ops| - 1])
  }

  /** The clock never runs backwards between the operations that purge, up to `now`. */
  ghost predicate Monotone(ops: seq<Op>, now: Time) {
    && (forall i :: 0 <= i < |ops| && (ops[i].Get? || ops[i].Scan?) ==> ops[i].now <= now)
    && (forall i, j :: 0 <= i < j < |ops| && (ops[i].Get? || ops[i].Scan?) && (ops[j].Get? || ops[j].Scan?)
          ==> ops[i].now <= ops[j].now)
  }

  lemma HasEntry(d: seq<Entry>)
    ensures forall e :: e in d ==> Has(d, e.key)
    ensures forall k :: Has(d, k) ==> Entry(k, Lookup(d, k)) in d
  {
    forall e | e in d ensures Has(d, e.key) {
      var i :| 0 <= i < |d| && d[i] == e;
      assert Keys(d)[i] == e.key;
    }
  }

  lemma {:induction false} RemoveEntries(d: seq<Entry>, dead: set<Key>)
    ensures forall e :: e in Remove(d, dead) <==> e in d && e.key !in dead
    ensures |Remove(d, dead)| <= |d|
  {
    if d != [] {
      RemoveEntries(d[1..], dead);
      assert d == [d[0]] + d[1..];
    }
  }

  lemma RemoveKeys(d: seq<Entry>, dead: set<Key>)
    ensures forall k :: Has(Remove(d, dead), k) <==> Has(d, k) && k !in dead
  {
    RemoveEntries(d, dead);
    HasEntry(d);
    HasEntry(Remove(d, dead));
    forall k | Has(d, k) && k !in dead ensures Has(Remove(d, dead), k) {
      assert Entry(k, Lookup(d, k)) in Remove(d, dead);
    }
    forall k | Has(Remove(d, dead), k) ensures Has(d, k) && k !in dead {
      assert Entry(k, Lookup(Remove(d, dead), k)) in d;
    }
  }

  lemma {:induction false} RemoveDistinct(d: seq<Entry>, dead: set<Key>)
    requires Distinct(Keys(d))
    ensures Distinct(Keys(Remove(d, dead)))
  {
    if d != [] {
      assert Keys(d)[1..] == Keys(d[1..]);
      RemoveDistinct(d[1..], dead);
      RemoveKeys(d[1..], dead);
      if d[0].key !in dead {
        var tail := Remove(d[1..], dead);
        assert Keys([d[0]] + tail) == [d[0].key] + Keys(tail);
        assert d[0].key !in Keys(d)[1..];
      }
    }
  }

  lemma RemoveMembers(d: seq<Entry>, dead: set<Key>)
    ensures forall e :: e in Remove(d, dead) <==> e in d && e.key !in dead
    ensures forall k :: Has(Remove(d, dead), k) <==> Has(d, k) && k !in dead
    ensures Distinct(Keys(d)) ==> Distinct(Keys(Remove(d, dead)))
    ensures |Remove(d, dead)| <= |d|
  {
    RemoveEntries(d, dead);
    RemoveKeys(d, dead);
    if Distinct(Keys(d)) {
      RemoveDistinct(d, dead);
    }
  }

  lemma {:induction false} RemoveOneMore(d: seq<Entry>, dead: set<Key>, k: Key)
    ensures Without(Remove(d, dead), k) == Remove(d, dead + {k})
  {
    if d != [] {
      RemoveOneMore(d[1..], dead, k);
      if d[0].key !in dead {
        assert ([d[0]] + Remove(d[1..], dead))[1..] == Remove(d[1..], dead);
      }
    }
  }

  lemma {:induction false} RemoveNothing(d: seq<Entry>)
    ensures Remove(d, {}) == d
  {
    if d != [] {
      RemoveNothing(d[1..]);
    }
  }

  lemma GetMembers(d: seq<Entry>, k: Key)
    requires Distinct(Keys(d))
    ensures Distinct(Keys(GetEntry(d, k))) && |GetEntry(d, k)| == |d|
    ensures forall x :: Has(GetEntry(d, k), x) <==> Has(d, x)
    ensures forall e :: e in GetEntry(d, k) <==> e in d
  {
    KeysOfGet(d, k);
    DropDistinct(Keys(d), k);
    GetEntries(d, k);
  }

  lemma GetEntries(d: seq<Entry>, k: Key)
    requires Distinct(Keys(d))
    ensures forall e :: e in GetEntry(d, k) <==> e in d
  {
    KeysWithout(d, k);
    forall e | e in d && e.key == k ensures Has(d, k) && e.value == Lookup(d, k) {
      LookupIsOnly(d, e);
    }
  }

  lemma SetMembers(d: seq<Entry>, k: Key, v: Value)
    requires Distinct(Keys(d))
    ensures var r := Without(d, k) + [Entry(k, v)];
      && Distinct(Keys(r)) && |r| == |d| + (if Has(d, k) then 0 else 1)
      && (forall x :: Has(r, x) <==> Has(d, x) || x == k)
  {
    KeysWithout(d, k);
    DropDistinct(Keys(d), k);
    var r := Without(d, k) + [Entry(k, v)];
    assert Keys(r) == Drop(Keys(d), k) + [k];
  }

  /** Eviction keeps the newest entries and their own deadlines. */
  lemma {:induction false} EvictKeepsNewest(s: State, maxsize: int)
    requires Consistent(s)
    ensures Consistent(Evict(s, maxsize))
    ensures Evict(s, maxsize).data == Newest(s.data, Cap(maxsize))
    ensures forall k :: k in Evict(s, maxsize).expiry ==> k in s.expiry && Evict(s, maxsize).expiry[k] == s.expiry[k]
    decreases |s.data|
  {
    if |s.data| > Cap(maxsize) {
      WithoutOldest(s);
      NewestTail(s.data, Cap(maxsize));
      EvictKeepsNewest(State(s.data[1..], s.expiry - {s.data[0].key}), maxsize);
    }
  }

  lemma WithoutOldest(s: State)
    requires Consistent(s) && s.data != []
    ensures Consistent(State(s.data[1..], s.expiry - {s.data[0].key}))
  {
    KeysCons(s.data);
    assert Keys(s.data[1..]) == Keys(s.data)[1..];
  }

  lemma {:induction false} RemoveInOrder(d: seq<Entry>, dead: set<Key>)
    ensures Subsequence(Remove(d, dead), d)
    ensures forall e :: e in Remove(d, dead) <==> e in d && e.key !in dead
  {
    if d != [] {
      RemoveInOrder(d[1..], dead);
      assert d == [d[0]] + d[1..];
      if d[0].key !in dead {
        assert Remove(d, dead)[1..] == Remove(d[1..], dead);
      }
    }
  }

  /** Purging keeps, in their order, exactly the entries whose deadline is not past, with their deadlines. */
  lemma PurgeIsExactly(s: State, now: Time)
    requires Consistent(s)
    ensures Subsequence(Purge(s, now).data, s.data) && Consistent(Purge(s, now))
    ensures forall e :: e in Purge(s, now).data <==> e in s.data && e.key in s.expiry && now <= s.expiry[e.key]
    ensures forall k :: k in Purge(s, now).expiry <==> k in s.expiry && now <= s.expiry[k]
    ensures forall k :: k in Purge(s, now).expiry ==> Purge(s, now).expiry[k] == s.expiry[k]
  {
    RemoveInOrder(s.data, Expired(s.expiry, now));
    RemoveMembers(s.data, Expired(s.expiry, now));
    HasEntry(s.data);
  }

  /** A read purges and then makes the entry that it finds the newest; an assignment does not purge. */
  lemma HeldKeyIsExactly(s: State, op: Op, maxsize: int, i: nat)
    requires Consistent(s) && |s.data| <= maxsize
    ensures op.Get? && i < |Purge(s, op.now).data| && Purge(s, op.now).data[i].key == op.key ==>
      var p := Purge(s, op.now);
      Apply(s, op, maxsize) == State(p.data[..i] + p.data[i + 1..] + [p.data[i]], p.expiry)
    ensures op.Set? && i < |s.data| && s.data[i].key == op.key ==>
      Apply(s, op, maxsize) ==
        State(s.data[..i] + s.data[i + 1..] + [Entry(op.key, op.value)], s.expiry[op.key := op.now + op.ttl])
    ensures op.Delete? && i < |s.data| && s.data[i].key == op.key ==>
      Apply(s, op, maxsize) == State(s.data[..i] + s.data[i + 1..], s.expiry - {op.key})
    ensures op.Scan? ==> Apply(s, op, maxsize) == Purge(s, op.now)
  {
    if op.Get? && i < |Purge(s, op.now).data| && Purge(s, op.now).data[i].key == op.key {
      PurgeIsExactly(s, op.now);
      WithoutAt(Purge(s, op.now).data, i);
      LookupIsOnly(Purge(s, op.now).data, Purge(s, op.now).data[i]);
    }
    if i < |s.data| && !op.Scan? && s.data[i].key == op.key {
      WithoutAt(s.data, i);
      LookupIsOnly(s.data, s.data[i]);
    }
  }

  lemma MissingKeyIsExactly(s: State, op: Op, maxsize: int)
    requires Consistent(s) && |s.data| <= Cap(maxsize) && !op.Scan? && forall e :: e in s.data ==> e.key != op.key
    ensures op.Get? ==> Apply(s, op, maxsize) == Purge(s, op.now)
    ensures op.Delete? ==> Apply(s, op, maxsize) == s
    ensures op.Set? ==>
      var e, expiry := Entry(op.key, op.value), s.expiry[op.key := op.now + op.ttl];
      Apply(s, op, maxsize) ==
        if maxsize <= 0 then State([], map[])
        else if |s.data| < maxsize then State(s.data + [e], expiry)
        else State(s.data[1..] + [e], expiry - {s.data[0].key})
  {
    AbsentKey(s.data, op.key);
    if op.Get? {
      PurgeIsExactly(s, op.now);
      AbsentKey(Purge(s, op.now).data, op.key);
    }
    if op.Set? {
      MissingStored(s, op.key, op.value, op.now + op.ttl, maxsize);
    }
  }

  lemma MissingStored(s: State, k: Key, v: Value, deadline: Time, maxsize: int)
    requires Consistent(s) && |s.data| <= Cap(maxsize) && !Has(s.data, k) && Without(s.data, k) == s.data
    ensures var e, expiry := Entry(k, v), s.expiry[k := deadline];
      Evict(Stored(s, k, v, deadline), maxsize) ==
        if maxsize <= 0 then State([], map[])
        else if |s.data| < maxsize then State(s.data + [e], expiry)
        else State(s.data[1..] + [e], expiry - {s.data[0].key})
  {
    var t := Stored(s, k, v, deadline);
    if maxsize <= 0 {
      assert s.data == [] && t.data == [Entry(k, v)] && s.expiry == map[];
      assert t.data[1..] == [] && t.expiry - {k} == map[];
    } else if |s.data| == maxsize {
      assert t.data[0] == s.data[0] && t.data[1..] == s.data[1..] + [Entry(k, v)];
    }
  }

  lemma StoredConsistent(s: State, k: Key, v: Value, deadline: Time)
    requires Consistent(s)
    ensures Consistent(Stored(s, k, v, deadline))
  {
    SetMembers(s.data, k, v);
  }

  /** An assignment keeps the newest entries of what it stored. */
  lemma SetConsistent(s: State, k: Key, v: Value, now: Time, ttl: Time, maxsize: int)
    requires Consistent(s)
    ensures Consistent(Stored(s, k, v, now + ttl))
    ensures var t := Apply(s, Set(k, v, now, ttl), maxsize);
      && t == Evict(Stored(s, k, v, now + ttl), maxsize)
      && Consistent(t) && t.data == Newest(Without(s.data, k) + [Entry(k, v)], Cap(maxsize)) && |t.data| <= Cap(maxsize)
  {
    StoredConsistent(s, k, v, now + ttl);
    EvictKeepsNewest(Stored(s, k, v, now + ttl), maxsize);
  }

  lemma ApplyConsistent(s: State, op: Op, maxsize: int)
    requires Consistent(s) && |s.data| <= Cap(maxsize)
    ensures Consistent(Apply(s, op, maxsize)) && |Apply(s, op, maxsize).data| <= Cap(maxsize)
  {
    match op {
      case Set(k, v, now, ttl) =>
        StoredConsistent(s, k, v, now + ttl);
        EvictKeepsNewest(Stored(s, k, v, now + ttl), maxsize);
      case Get(k, now) =>
        RemoveMembers(s.data, Expired(s.expiry, now));
        GetMembers(Purge(s, now).data, k);
      case Delete(k) =>
        KeysWithout(s.data, k);
        DropDistinct(Keys(s.data), k);
      case Scan(now) =>
        RemoveMembers(s.data, Expired(s.expiry, now));
    }
  }

  /** The two dictionaries never drift apart and stay within the bound. */
  lemma {:induction false} RunConsistent(ops: seq<Op>, maxsize: int)
    ensures Consistent(Run(ops, maxsize)) && |Run(ops, maxsize).data| <= Cap(maxsize)
  {
    if ops != [] {
      RunConsistent(ops[..|ops| - 1], maxsize);
      ApplyConsistent(Run(ops[..|ops| - 1], maxsize), ops[|ops| - 1], maxsize);
    }
  }

  /** Everything the cache holds is a remembered assignment with its own deadline. */
  ghost predicate Remembered(s: State, m: map<Key, Cell>) {
    forall e :: e in s.data ==>
      e.key in m && m[e.key].value == e.value && e.key in s.expiry && s.expiry[e.key] == m[e.key].deadline
  }

  lemma StoredRemembered(s: State, m: map<Key, Cell>, k: Key, v: Value, deadline: Time)
    requires Remembered(s, m)
    ensures Remembered(Stored(s, k, v, deadline), m[k := Cell(v, deadline)])
  {
    KeysWithout(s.data, k);
  }

  lemma EvictRemembered(s: State, m: map<Key, Cell>, maxsize: int)
    requires Consistent(s) && Remembered(s, m)
    ensures Remembered(Evict(s, maxsize), m)
  {
    EvictKeepsNewest(s, maxsize);
    var e := Evict(s, maxsize);
    HasEntry(e.data);
    forall x | x in e.data ensures x in s.data && x.key in e.expiry {
      assert Has(e.data, x.key);
    }
  }

  lemma ApplyRemembered(s: State, m: map<Key, Cell>, op: Op, maxsize: int)
    requires Consistent(s) && Remembered(s, m)
    ensures Remembered(Apply(s, op, maxsize), Remember(m, op))
  {
    match op {
      case Set(k, v, now, ttl) => SetRemembered(s, m, k, v, now + ttl, maxsize);
      case Get(k, now) =>
        PurgeRemembered(s, m, now);
        TouchRemembered(Purge(s, now), m, k);
      case Delete(k) => DeleteRemembered(s, m, k);
      case Scan(now) => PurgeRemembered(s, m, now);
    }
  }

  lemma SetRemembered(s: State, m: map<Key, Cell>, k: Key, v: Value, deadline: Time, maxsize: int)
    requires Consistent(s) && Remembered(s, m)
    ensures Remembered(Evict(Stored(s, k, v, deadline), maxsize), m[k := Cell(v, deadline)])
  {
    StoredRemembered(s, m, k, v, deadline);
    StoredConsistent(s, k, v, deadline);
    EvictRemembered(Stored(s, k, v, deadline), m[k := Cell(v, deadline)], maxsize);
  }

  lemma PurgeRemembered(s: State, m: map<Key, Cell>, now: Time)
    requires Consistent(s) && Remembered(s, m)
    ensures Consistent(Purge(s, now)) && Remembered(Purge(s, now), m)
  {
    RemoveMembers(s.data, Expired(s.expiry, now));
  }

  lemma TouchRemembered(s: State, m: map<Key, Cell>, k: Key)
    requires Consistent(s) && Remembered(s, m)
    ensures Remembered(s.(data := GetEntry(s.data, k)), m)
  {
    GetMembers(s.data, k);
  }

  lemma DeleteRemembered(s: State, m: map<Key, Cell>, k: Key)
    requires Consistent(s) && Remembered(s, m)
    ensures Remembered(Apply(s, Delete(k), 0), m - {k})
  {
    KeysWithout(s.data, k);
    HasEntry(s.data);
  }

  /** The operation at `i` is the last one that assigns or deletes the key, and it assigns. */
  predicate LastAssigned(ops: seq<Op>, k: Key, i: nat) {
    && i < |ops| && ops[i].Set? && ops[i].key == k
    && forall j :: i < j < |ops| && (ops[j].Set? || ops[j].Delete?) ==> ops[j].key != k
  }

  lemma LastOfPrefix(ops: seq<Op>, k: Key)
    requires ops != [] && !(ops[|ops| - 1].Set? && ops[|ops| - 1].key == k)
    ensures forall i: nat :: LastAssigned(ops, k, i) <==>
      !(ops[|ops| - 1].Delete? && ops[|ops| - 1].key == k) && LastAssigned(ops[..|ops| - 1], k, i)
  {
    var init := ops[..|ops| - 1];
    forall i: nat ensures LastAssigned(ops, k, i) <==> !(ops[|ops| - 1].Delete? && ops[|ops| - 1].key == k) && LastAssigned(init, k, i) {
      if LastAssigned(init, k, i) {
        assert forall j :: i < j < |ops| && j != |init| ==> ops[j] == init[j];
      }
    }
  }

  /** The reference remembers exactly the last assignments, each with its instant plus its time to live. */
  lemma {:induction false} ReferenceIsLast(ops: seq<Op>, k: Key)
    ensures k in Reference(ops) <==> exists i: nat :: LastAssigned(ops, k, i)
    ensures forall i: nat :: LastAssigned(ops, k, i) ==>
      k in Reference(ops) && Reference(ops)[k] == Cell(ops[i].value, ops[i].now + ops[i].ttl)
  {
    if ops != [] {
      var init, last := ops[..|ops| - 1], ops[|ops| - 1];
      ReferenceIsLast(init, k);
      if last.Set? && last.key == k {
        assert LastAssigned(ops, k, |init|);
        forall i: nat | LastAssigned(ops, k, i) ensures i == |init| {}
      } else {
        LastOfPrefix(ops, k);
        if k in Reference(init) && !(last.Delete? && last.key == k) {
          var i: nat :| LastAssigned(init, k, i);
          assert LastAssigned(ops, k, i);
        }
        forall i: nat | LastAssigned(ops, k, i) ensures LastAssigned(init, k, i) && ops[i] == init[i] {}
      }
    }
  }

  lemma {:induction false} RunRemembered(ops: seq<Op>, maxsize: int)
    ensures Remembered(Run(ops, maxsize), Reference(ops))
  {
    if ops != [] {
      RunRemembered(ops[..|ops| - 1], maxsize);
      RunConsistent(ops[..|ops| - 1], maxsize);
      ApplyRemembered(Run(ops[..|ops| - 1], maxsize), Reference(ops[..|ops| - 1]), ops[|ops| - 1], maxsize);
    }
  }

  /** A read at `now` only ever returns the last value assigned, and never after its deadline. */
  lemma ReadIsFresh(ops: seq<Op>, maxsize: int, k: Key, now: Time)
    requires Has(Purge(Run(ops, maxsize), now).data, k)
    ensures k in Reference(ops)
    ensures Lookup(Purge(Run(ops, maxsize), now).data, k) == Reference(ops)[k].value
    ensures now <= Reference(ops)[k].deadline
  {
    var s := Run(ops, maxsize);
    RunConsistent(ops, maxsize);
    RunRemembered(ops, maxsize);
    RemoveMembers(s.data, Expired(s.expiry, now));
    assert Entry(k, Lookup(Purge(s, now).data, k)) in s.data;
  }

  /** With room for every key ever assigned, whatever is missing has expired. */
  ghost predicate MissingIsExpired(s: State, m: map<Key, Cell>, now: Time) {
    forall k :: k in m && !Has(s.data, k) ==> m[k].deadline < now
  }

  lemma {:induction false} RoomyRun(ops: seq<Op>, maxsize: int, room: set<Key>, now: Time)
    requires |room| <= maxsize && Monotone(ops, now)
    requires forall i :: 0 <= i < |ops| && ops[i].Set? ==> ops[i].key in room
    ensures MissingIsExpired(Run(ops, maxsize), Reference(ops), now)
    ensures forall k :: Has(Run(ops, maxsize).data, k) ==> k in room
  {
    if ops != [] {
      var init, last := ops[..|ops| - 1], ops[|ops| - 1];
      var s := Run(init, maxsize);
      RunConsistent(init, maxsize);
      RunRemembered(init, maxsize);
      RoomyRun(init, maxsize, room, now);
      match last {
        case Set(k, v, t, ttl) =>
          SetMembers(s.data, k, v);
          DistinctFits(Keys(Stored(s, k, v, t + ttl).data), room);
        case Get(k, t) =>
          RemoveMembers(s.data, Expired(s.expiry, t));
          GetMembers(Purge(s, t).data, k);
        case Delete(k) => KeysWithout(s.data, k);
        case Scan(t) =>
          RemoveMembers(s.data, Expired(s.expiry, t));
      }
    }
  }

  /** Under a monotone clock and a sufficient bound, a read hits exactly the unexpired assignments. */
  lemma RoomyReadIsExact(ops: seq<Op>, maxsize: int, room: set<Key>, k: Key, now: Time)
    requires |room| <= maxsize && Monotone(ops, now)
    requires forall i :: 0 <= i < |ops| && ops[i].Set? ==> ops[i].key in room
    ensures Has(Purge(Run(ops, maxsize), now).data, k) <==> k in Reference(ops) && now <= Reference(ops)[k].deadline
  {
    var s := Run(ops, maxsize);
    RoomyRun(ops, maxsize, room, now);
    RunConsistent(ops, maxsize);
    RunRemembered(ops, maxsize);
    RemoveMembers(s.data, Expired(s.expiry, now));
    if Has(Purge(s, now).data, k) {
      ReadIsFresh(ops, maxsize, k, now);
    }
  }

  /** Assigning does not purge: a full cache gives up its oldest entry, live or not, for a new key. */
  lemma SetEvictsOldest(s: State, k: Key, v: Value, now: Time, ttl: Time, maxsize: int)
    requires Consistent(s) && |s.data| == maxsize > 0 && !Has(s.data, k)
    ensures Apply(s, Set(k, v, now, ttl), maxsize).data == s.data[1..] + [Entry(k, v)]
  {
    WithoutAbsent(s.data, k);
    SetConsistent(s, k, v, now, ttl, maxsize);
    assert |s.data + [Entry(k, v)]| == maxsize + 1;
    assert (s.data + [Entry(k, v)])[1..] == s.data[1..] + [Entry(k, v)];
  }

  class TtlCache {
    var data: seq<Entry>
    var expiry: map<Key, Time>
    const maxsize: int
    var ttl: Time

    ghost function View(): State
      reads this
    {
      State(data, expiry)
    }

    ghost predicate Valid()
      reads this
    {
      Consistent(View()) && |data| <= Cap(maxsize)
    }

    constructor (maxsize: int, ttl: Time)
      ensures Valid() && View() == State([], map[]) && this.maxsize == maxsize && this.ttl == ttl
    {
      this.maxsize, this.ttl := maxsize, ttl;
      data, expiry := [], map[];
    }

    method EvictExpired(now: Time)
      modifies `data, `expiry
      ensures View() == Purge(old(View()), now)
    {
      var todo := Expired(expiry, now);
      ghost var gone := {};
      RemoveNothing(data);
      while todo != {}
        invariant gone + todo == Expired(old(expiry), now) && gone !! todo
        invariant data == Remove(old(data), gone)
        invariant expiry == old(expiry) - gone
        decreases todo
      {
        var k :| k in todo;
        RemoveOneMore(old(data), gone, k);
        data := Without(data, k);
        expiry := expiry - {k};
        todo := todo - {k};
        gone := gone + {k};
      }
    }

    method EnsureCapacity() returns (ok: bool)
      requires Consistent(View())
      modifies `data, `expiry
      ensures View() == Evict(old(View()), maxsize)
      ensures ok <==> maxsize >= 0
    {
      while |data| > maxsize
        invariant Consistent(View())
        invariant Evict(View(), maxsize) == Evict(old(View()), maxsize)
        decreases |data|
      {
        if data == [] {
          return false;
        }
        var k := data[0].key;
        data := data[1..];
        expiry := expiry - {k};
      }
      ok := true;
    }

    /** Assigns the entry and its deadline and makes it the newest. */
    method Place(k: Key, v: Value, deadline: Time)
      modifies `data, `expiry
      ensures View() == Stored(old(View()), k, v, deadline)
    {
      AssignMoves(data, k, v);
      data := Assign(data, k, v);
      expiry := expiry[k := deadline];
      data := MoveToEnd(data, k);
    }

    method SetItem(k: Key, v: Value, now: Time) returns (ok: bool)
      requires Valid()
      modifies `data, `expiry
      ensures Valid()
      ensures View() == Apply(old(View()), Set(k, v, now, ttl), maxsize)
      ensures ok <==> maxsize >= 0
    {
      SetConsistent(View(), k, v, now, ttl, maxsize);
      Place(k, v, now + ttl);
      ok := EnsureCapacity();
    }

    method GetItem(k: Key, now: Time) returns (r: Option<Value>)
      requires Valid()
      modifies `data, `expiry
      ensures Valid()
      ensures View() == Apply(old(View()), Get(k, now), maxsize)
      ensures var p := Purge(old(View()), now).data; r == if Has(p, k) then Some(Lookup(p, k)) else None
    {
      ApplyConsistent(View(), Get(k, now), maxsize);
      EvictExpired(now);
      if Has(data, k) {
        r := Some(Lookup(data, k));
        data := MoveToEnd(data, k);
      } else {
        r := None;
      }
    }

    method DelItem(k: Key) returns (ok: bool)
      requires Valid()
      modifies `data, `expiry
      ensures Valid()
      ensures View() == Apply(old(View()), Delete(k), maxsize)
      ensures ok <==> Has(old(data), k)
    {
      ApplyConsistent(View(), Delete(k), maxsize);
      ok := Has(data, k);
      if ok {
        data := Without(data, k);
        expiry := expiry - {k};
      }
    }

    /** Membership of a text key. */
    method Contains(k: Key, now: Time) returns (r: bool)
      requires Valid()
      modifies `data, `expiry
      ensures Valid()
      ensures View() == Apply(old(View()), Scan(now), maxsize)
      ensures r <==> Has(Purge(old(View()), now).data, k)
    {
      ApplyConsistent(View(), Scan(now), maxsize);
      EvictExpired(now);
      r := Has(data, k);
    }
  }

  /** Every entry is what the function returns for its key. */
  ghost predicate Memoizes(d: seq<Entry>, func: Key -> Outcome) {
    forall e :: e in d ==> func(e.key) == Return(e.value)
  }

  lemma PurgeMemoizes(s: State, now: Time, func: Key -> Outcome)
    requires Memoizes(s.data, func)
    ensures Memoizes(Purge(s, now).data, func)
  {
    RemoveEntries(s.data, Expired(s.expiry, now));
  }

  lemma GetMemoizes(s: State, k: Key, now: Time, func: Key -> Outcome)
    requires Consistent(s) && Memoizes(s.data, func)
    ensures Memoizes(Apply(s, Get(k, now), 0).data, func)
    ensures Has(Purge(s, now).data, k) ==> func(k) == Return(Lookup(Purge(s, now).data, k))
  {
    PurgeMemoizes(s, now, func);
    RemoveMembers(s.data, Expired(s.expiry, now));
    GetMembers(Purge(s, now).data, k);
  }

  lemma SetMemoizes(s: State, k: Key, v: Value, now: Time, ttl: Time, maxsize: int, func: Key -> Outcome)
    requires Consistent(s) && Memoizes(s.data, func) && func(k) == Return(v)
    ensures Memoizes(Apply(s, Set(k, v, now, ttl), maxsize).data, func)
  {
    KeysWithout(s.data, k);
    SetConsistent(s, k, v, now, ttl, maxsize);
    forall e | e in Apply(s, Set(k, v, now, ttl), maxsize).data ensures func(e.key) == Return(e.value) {
      assert e in Without(s.data, k) + [Entry(k, v)];
    }
  }

  /** Purging at two instants leaves what purging at the later one leaves. */
  lemma PurgeTwice(s: State, early: Time, late: Time, k: Key)
    requires Consistent(s) && early <= late
    ensures Has(Purge(Purge(s, early), late).data, k) <==> Has(Purge(s, late).data, k)
  {
    var p := Purge(s, early);
    RemoveKeys(s.data, Expired(s.expiry, early));
    RemoveKeys(s.data, Expired(s.expiry, late));
    RemoveKeys(p.data, Expired(p.expiry, late));
    if Has(p.data, k) {
      assert k in s.expiry && k in p.expiry && p.expiry[k] == s.expiry[k];
    } else if Has(s.data, k) {
      assert k in Expired(s.expiry, early);
    }
  }

  /** A decorated function over an expiring cache; the clock is read once per cache operation. */
  class CachedFunction {
    const func: Key -> Outcome
    const cache: TtlCache
    var hits: nat
    var misses: nat

    ghost predicate Valid()
      reads this, cache
    {
      cache.Valid() && Memoizes(cache.data, func)
    }

    constructor (func: Key -> Outcome, maxsize: int, ttl: Time)
      ensures Valid() && fresh(cache) && this.func == func && cache.maxsize == maxsize && cache.ttl == ttl
      ensures cache.View() == State([], map[]) && hits == 0 && misses == 0
    {
      this.func := func;
      cache := new TtlCache(maxsize, ttl);
      hits, misses := 0, 0;
    }

    /**
     One call whose membership test, read and store see the clock at `test`, `read` and `store`.  It
     fails with a key error exactly when the entry expires between the test and the read, or the bound
     is negative; at one instant only the latter remains.
     */
    method Call(k: Key, test: Time, read: Time, store: Time) returns (r: CallResult)
      requires Valid() && test <= read
      modifies this, cache
      ensures Valid() && cache.ttl == old(cache.ttl)
      ensures var hit := Has(Purge(old(cache.View()), test).data, k);
        && cache.View() == (if hit then Apply(Purge(old(cache.View()), test), Get(k, read), cache.maxsize)
                            else if func(k).Raise? then Purge(old(cache.View()), test)
                            else Apply(Purge(old(cache.View()), test), Set(k, func(k).value, store, cache.ttl), cache.maxsize))
        && hits == old(hits) + (if hit then 1 else 0)
        && hits + misses == old(hits) + old(misses) + 1
        && r == (if hit && !Has(Purge(old(cache.View()), read).data, k) then KeyError
                 else if !hit && cache.maxsize < 0 && func(k).Return? then KeyError
                 else Done(func(k)))
    {
      ghost var s := cache.View();
      PurgeMemoizes(s, test, func);
      PurgeTwice(s, test, read, k);
      var hit := cache.Contains(k, test);
      ghost var p := cache.View();
      if hit {
        hits := hits + 1;
        GetMemoizes(p, k, read, func);
        var v := cache.GetItem(k, read);
        r := if v.Some? then Done(Return(v.value)) else KeyError;
      } else {
        misses := misses + 1;
        var result := func(k);
        if result.Raise? {
          return Done(Raise);
        }
        SetMemoizes(p, k, result.value, store, cache.ttl, cache.maxsize, func);
        var ok := cache.SetItem(k, result.value, store);
        r := if ok then Done(result) else KeyError;
      }
    }
  }
}

/**
 Rolling a candidate-reuse recommendation out into the configuration, with an audit log and a rollback.

 A revision is the hash of a whole configuration, so it is modelled by the configuration itself.  Other
 writers may replace the configuration between any two steps; the history records every content in turn.
 */
module Rollout {
  import opened Options
  import opened Sets

  datatype Mode = Off | Observe | Full | TopK

  datatype Bucket = Tiny | Small | Medium | Large | XLarge | Huge

  const BUCKETS := [Tiny, Small, Medium, Large, XLarge, Huge]

  const ALL_BUCKETS: set<Bucket> := {Tiny, Small, Medium, Large, XLarge, Huge}

  function Threshold(b: Bucket): int { match b case Tiny => 3 case Small => 10 case Medium => 30 case _ => 100 }

  datatype Override = Override(mode: Mode, fixedK: Option<int>)

  /** The part of the configuration that is rolled out, plus the fields its validation looks at. */
  datatype Config = Config(mode: Mode, activation: int, overrides: map<Bucket, Override>, fixedK: int, maxFullTopics: int, rest: int)

  predicate ValidOverride(o: Override, maxFullTopics: int) {
    && (o.fixedK.Some? ==> 1 <= o.fixedK.value <= 24 && o.fixedK.value <= maxFullTopics)
    && (o.mode.TopK? ==> o.fixedK.Some?)
  }

  predicate ValidConfig(c: Config) {
    && 3 <= c.activation <= 100 && 1 <= c.fixedK <= 24 && 1 <= c.maxFullTopics <= 50
    && c.fixedK <= c.maxFullTopics && c.activation <= c.maxFullTopics
    && forall b :: b in c.overrides ==> ValidOverride(c.overrides[b], c.maxFullTopics)
  }

  /** The mode and K in force for a bucket: its override, and without one the global setting. */
  function Effective(c: Config, b: Bucket): (Mode, int) {
    if b in c.overrides then (c.overrides[b].mode, if c.overrides[b].fixedK.Some? then c.overrides[b].fixedK.value else c.fixedK)
    else (c.mode, c.fixedK)
  }

  // Control snapshots.

  datatype RawMode = NoMode | BadMode | IsMode(mode: Mode)
  datatype RawK = NoK | BadK | IsK(k: int)
  datatype RawOverride = NotAMapping | RawOverride(mode: RawMode, fixedK: RawK)

  /** A snapshot as it comes out of the store or the log, with values of the wrong type marked as such. */
  datatype RawControl = RawControl(mode: RawMode, activation: RawK, overrides: Option<map<Bucket, RawOverride>>)

  datatype Control = Control(mode: Mode, activation: int, overrides: map<Bucket, Override>)

  function RawOf(o: Override): RawOverride {
    RawOverride(IsMode(o.mode), if o.fixedK.Some? then IsK(o.fixedK.value) else NoK)
  }

  function RawOverrides(m: map<Bucket, Override>): map<Bucket, RawOverride> { map b | b in m :: RawOf(m[b]) }

  function RawConfig(c: Config): RawControl { RawControl(IsMode(c.mode), IsK(c.activation), Some(RawOverrides(c.overrides))) }

  function RawSnapshot(c: Control): RawControl { RawControl(IsMode(c.mode), IsK(c.activation), Some(RawOverrides(c.overrides))) }

  predicate ReadableOverride(o: RawOverride) {
    o.RawOverride? && !o.mode.BadMode? && !o.fixedK.BadK? && (o.fixedK.IsK? ==> 1 <= o.fixedK.k <= 20)
  }

  predicate Readable(r: RawControl) {
    && r.mode.IsMode? && r.activation.IsK? && 3 <= r.activation.k <= 100 && r.overrides.Some?
    && forall b :: b in r.overrides.value ==> ReadableOverride(r.overrides.value[b])
  }

  function Normalized(m: map<Bucket, RawOverride>, b: Bucket): Override
    requires b in m ==> ReadableOverride(m[b])
  {
    if b !in m then Override(Observe, None)
    else Override(if m[b].mode.IsMode? then m[b].mode.mode else Observe, if m[b].fixedK.IsK? then Some(m[b].fixedK.k) else None)
  }

  /** The normalized snapshot, which has an override for every bucket. */
  function Snapshot(r: RawControl): Option<Control> {
    if !Readable(r) then None
    else Some(Control(r.mode.mode, r.activation.k, map b | b in ALL_BUCKETS :: Normalized(r.overrides.value, b)))
  }

  method ControlSnapshot(r: RawControl) returns (c: Option<Control>)
    ensures c == Snapshot(r)
  {
    if !r.mode.IsMode? || !r.activation.IsK? || !(3 <= r.activation.k <= 100) || r.overrides.None? {
      return None;
    }
    var overrides: map<Bucket, Override> := map[];
    for i := 0 to |BUCKETS|
      invariant forall b :: b in overrides <==> b in BUCKETS[..i]
      invariant forall b :: b in BUCKETS[..i] && b in r.overrides.value ==> ReadableOverride(r.overrides.value[b])
      invariant forall b :: b in overrides ==> overrides[b] == Normalized(r.overrides.value, b)
    {
      var b := BUCKETS[i];
      if b in r.overrides.value && !ReadableOverride(r.overrides.value[b]) {
        assert !Readable(r);
        return None;
      }
      assert BUCKETS[..i + 1] == BUCKETS[..i] + [b];
      overrides := overrides[b := Normalized(r.overrides.value, b)];
    }
    BucketsAreAll();
    assert Readable(r);
    assert overrides == map b | b in ALL_BUCKETS :: Normalized(r.overrides.value, b);
    c := Some(Control(r.mode.mode, r.activation.k, overrides));
  }

  lemma BucketsAreAll()
    ensures forall b: Bucket :: b in BUCKETS && b in ALL_BUCKETS
    ensures BUCKETS[..|BUCKETS|] == BUCKETS
  {
    assert BUCKETS[0] == Tiny && BUCKETS[1] == Small && BUCKETS[2] == Medium;
    assert BUCKETS[3] == Large && BUCKETS[4] == XLarge && BUCKETS[5] == Huge;
    forall b: Bucket ensures b in BUCKETS && b in ALL_BUCKETS {
      assert b == BUCKETS[Rank(b)];
    }
  }

  /** Normalizing a normalized snapshot changes nothing. */
  lemma SnapshotIdempotent(r: RawControl)
    requires Snapshot(r).Some?
    ensures Snapshot(RawSnapshot(Snapshot(r).value)) == Snapshot(r)
  {
    var c := Snapshot(r).value;
    var again := RawSnapshot(c);
    assert forall b :: b in again.overrides.value ==> again.overrides.value[b] == RawOf(c.overrides[b]);
    assert Snapshot(again).value.overrides == c.overrides;
  }

  /** Which snapshots are read, and what a read one says of every bucket. */
  lemma SnapshotIsExactly(r: RawControl, b: Bucket)
    ensures Snapshot(r).Some? <==>
      && r.mode.IsMode? && r.activation.IsK? && 3 <= r.activation.k <= 100 && r.overrides.Some?
      && forall x :: x in r.overrides.value ==>
           var o := r.overrides.value[x];
           o.RawOverride? && !o.mode.BadMode? && (o.fixedK == NoK || (o.fixedK.IsK? && 1 <= o.fixedK.k <= 20))
    ensures Snapshot(r).Some? ==>
      var c := Snapshot(r).value;
      && c.mode == r.mode.mode && c.activation == r.activation.k && b in c.overrides
      && (b !in r.overrides.value ==> c.overrides[b] == Override(Observe, None))
      && (b in r.overrides.value ==>
            && c.overrides[b].mode == (if r.overrides.value[b].mode == NoMode then Observe else r.overrides.value[b].mode.mode)
            && c.overrides[b].fixedK == (if r.overrides.value[b].fixedK == NoK then None else Some(r.overrides.value[b].fixedK.k)))
  {
    BucketsAreAll();
    if Snapshot(r).Some? && b in r.overrides.value {
      assert ReadableOverride(r.overrides.value[b]);
    }
  }

  /** The limits of a configuration. */
  lemma ValidIsExactly(c: Config)
    ensures ValidConfig(c) <==>
      && 3 <= c.activation <= c.maxFullTopics <= 50 && 1 <= c.fixedK <= c.maxFullTopics && c.fixedK <= 24
      && forall b :: b in c.overrides ==>
           var o := c.overrides[b];
           (o.fixedK == None && o.mode != TopK) || (o.fixedK.Some? && 1 <= o.fixedK.value <= c.maxFullTopics && o.fixedK.value <= 24)
  {
    if ValidConfig(c) {
      forall b | b in c.overrides
        ensures (c.overrides[b].fixedK == None && c.overrides[b].mode != TopK)
          || (c.overrides[b].fixedK.Some? && 1 <= c.overrides[b].fixedK.value <= c.maxFullTopics && c.overrides[b].fixedK.value <= 24)
      {
        assert ValidOverride(c.overrides[b], c.maxFullTopics);
      }
    }
  }

  // Recommendations.

  datatype Chat = Private | Group

  datatype Samples = Samples(quality: int, token: int, latency: int, negative: int)

  function Plus(a: Samples, b: Samples): Samples {
    Samples(a.quality + b.quality, a.token + b.token, a.latency + b.latency, a.negative + b.negative)
  }

  const NoSamples := Samples(0, 0, 0, 0)

  datatype Row = Row(bucket: Bucket, chat: Chat, k: int, accept: bool, samples: Samples)

  /** A decision as it is read; a list or a dictionary cannot be looked up in the set of decisions. */
  datatype Decision = Accept | Reject | Other | Unhashable

  /** Sample counts as they are read; `None` stands for a missing value and for one of another type. */
  datatype RawSamples = RawSamples(quality: Option<int>, token: Option<int>, latency: Option<int>, negative: Option<int>)

  /** A row of the report as it is read; `None` stands for a missing value and for one outside the fixed names or types. */
  datatype RawRow = NotAnObject
    | RawRow(bucket: Option<Bucket>, chat: Option<Chat>, k: Option<int>, decision: Decision, samples: RawSamples)

  /** The results are `None` when they are missing or no list. */
  datatype Report = Report(validationOnly: bool, results: Option<seq<RawRow>>)

  datatype Extracted = Rows(rows: seq<Row>) | ValidationOnly | Missing | ResultInvalid | Duplicate | TypeError

  predicate Keyed(r: RawRow) {
    r.RawRow? && r.bucket.Some? && r.chat.Some? && r.k.Some? && 1 <= r.k.value <= 20
  }

  predicate Decided(r: RawRow) { Keyed(r) && (r.decision.Accept? || r.decision.Reject?) }

  predicate IsCount(n: Option<int>) { n.Some? && n.value >= 0 }

  predicate Counted(s: RawSamples) { IsCount(s.quality) && IsCount(s.token) && IsCount(s.latency) && IsCount(s.negative) }

  predicate WellFormed(r: RawRow) { Decided(r) && Counted(r.samples) }

  function RowOf(r: RawRow): Row
    requires WellFormed(r)
  {
    Row(r.bucket.value, r.chat.value, r.k.value, r.decision.Accept?,
        Samples(r.samples.quality.value, r.samples.token.value, r.samples.latency.value, r.samples.negative.value))
  }

  /** The rows that are read: named bucket and chat type, K from 1 to 20, a decision, and four counts of zero or more. */
  lemma WellFormedIsExactly(r: RawRow)
    ensures WellFormed(r) <==> exists row: Row ::
      && r == RawRow(Some(row.bucket), Some(row.chat), Some(row.k), if row.accept then Accept else Reject,
                     RawSamples(Some(row.samples.quality), Some(row.samples.token), Some(row.samples.latency), Some(row.samples.negative)))
      && 1 <= row.k <= 20
      && row.samples.quality >= 0 && row.samples.token >= 0 && row.samples.latency >= 0 && row.samples.negative >= 0
    ensures WellFormed(r) ==>
      var row := RowOf(r);
      r == RawRow(Some(row.bucket), Some(row.chat), Some(row.k), if row.accept then Accept else Reject,
                  RawSamples(Some(row.samples.quality), Some(row.samples.token), Some(row.samples.latency), Some(row.samples.negative)))
  {
    if WellFormed(r) {
      var row := RowOf(r);
      assert 1 <= row.k <= 20;
    }
  }

  function RawKey(r: RawRow): (Bucket, Chat, int)
    requires Keyed(r)
  {
    (r.bucket.value, r.chat.value, r.k.value)
  }

  function KeyOf(r: Row): (Bucket, Chat, int) { (r.bucket, r.chat, r.k) }

  predicate DistinctKeys(rows: seq<Row>) {
    forall i, j :: 0 <= i < j < |rows| ==> KeyOf(rows[i]) != KeyOf(rows[j])
  }

  /** An earlier row has the key of the row at `i`. */
  predicate Repeats(rows: seq<RawRow>, i: nat) {
    i < |rows| && Keyed(rows[i]) && exists j :: 0 <= j < i && Keyed(rows[j]) && RawKey(rows[j]) == RawKey(rows[i])
  }

  /** What is wrong with the row at `i`: a repeated key is noticed after the decision and before the counts. */
  predicate Wrong(rows: seq<RawRow>, i: nat, e: Extracted) {
    && i < |rows|
    && match e
       case ResultInvalid =>
         if Decided(rows[i]) then !Repeats(rows, i) && !Counted(rows[i].samples)
         else !(Keyed(rows[i]) && rows[i].decision.Unhashable?)
       case TypeError => Keyed(rows[i]) && rows[i].decision.Unhashable?
       case Duplicate => Decided(rows[i]) && Repeats(rows, i)
       case _ => false
  }

  predicate Misses(s: RawSamples) {
    exists n :: n in [s.quality, s.token, s.latency, s.negative] && (n == None || n.value < 0)
  }

  /** Which error the first wrong row gives: no key before no decision, a repeated key before a bad count. */
  lemma WrongIsExactly(rows: seq<RawRow>, i: nat)
    requires i < |rows|
    ensures var r := rows[i];
      var keyed := r.RawRow? && r.bucket.Some? && r.chat.Some? && r.k.Some? && 1 <= r.k.value <= 20;
      var repeated := keyed && exists j :: 0 <= j < i && rows[j].RawRow? && rows[j].bucket == r.bucket && rows[j].chat == r.chat && rows[j].k == r.k;
      && (Wrong(rows, i, TypeError) <==> keyed && r.decision == Unhashable)
      && (Wrong(rows, i, Duplicate) <==> keyed && r.decision in {Accept, Reject} && repeated)
      && (Wrong(rows, i, ResultInvalid) <==>
            !keyed || r.decision == Other || (r.decision in {Accept, Reject} && !repeated && Misses(r.samples)))
  {
    if Keyed(rows[i]) {
      forall j | 0 <= j < i && rows[j].RawRow? && rows[j].bucket == rows[i].bucket && rows[j].chat == rows[i].chat && rows[j].k == rows[i].k
        ensures Repeats(rows, i)
      {
        assert Keyed(rows[j]) && RawKey(rows[j]) == RawKey(rows[i]);
      }
    }
    CountedIffNoneMisses(rows[i]);
  }

  lemma CountedIffNoneMisses(r: RawRow)
    ensures r.RawRow? ==> (Counted(r.samples) <==> !Misses(r.samples))
  {
    if r.RawRow? {
      var s := r.samples;
      var counts := [s.quality, s.token, s.latency, s.negative];
      assert counts[0] in counts && counts[1] in counts && counts[2] in counts && counts[3] in counts;
    }
  }

  predicate AllAccepted(rows: seq<RawRow>) {
    && (forall i :: 0 <= i < |rows| ==> WellFormed(rows[i]))
    && (forall i, j :: 0 <= i < j < |rows| ==> RawKey(rows[i]) != RawKey(rows[j]))
  }

  /** Accepts a report exactly when it has rows, all well formed and no two with one key; the first wrong row is reported. */
  method ExtractBucketResults(report: Report) returns (r: Extracted)
    ensures r.ValidationOnly? <==> report.validationOnly
    ensures r.Missing? <==> !report.validationOnly && (report.results.None? || report.results.value == [])
    ensures r.Rows? <==>
      !report.validationOnly && report.results.Some? && report.results.value != [] && AllAccepted(report.results.value)
    ensures r.Rows? ==> |r.rows| == |report.results.value| && DistinctKeys(r.rows)
    ensures r.Rows? ==> forall i :: 0 <= i < |r.rows| ==> r.rows[i] == RowOf(report.results.value[i])
    ensures r.ResultInvalid? || r.Duplicate? || r.TypeError? ==>
      exists i :: 0 <= i < |report.results.value| && Wrong(report.results.value, i, r) && AllAccepted(report.results.value[..i])
  {
    if report.validationOnly {
      return ValidationOnly;
    }
    if report.results.None? || report.results.value == [] {
      return Missing;
    }
    r := ExtractRows(report.results.value);
  }

  method ExtractRows(raw: seq<RawRow>) returns (r: Extracted)
    ensures r.Rows? <==> AllAccepted(raw)
    ensures r.Rows? ==> |r.rows| == |raw| && DistinctKeys(r.rows) && forall i :: 0 <= i < |raw| ==> r.rows[i] == RowOf(raw[i])
    ensures !r.Rows? ==> exists i :: 0 <= i < |raw| && Wrong(raw, i, r) && AllAccepted(raw[..i])
  {
    var keys: set<(Bucket, Chat, int)> := {};
    var rows: seq<Row> := [];
    for i := 0 to |raw|
      invariant |rows| == i && AllAccepted(raw[..i])
      invariant forall j :: 0 <= j < i ==> rows[j] == RowOf(raw[j])
      invariant forall key :: key in keys <==> exists j :: 0 <= j < i && key == RawKey(raw[j])
    {
      var row := raw[i];
      if !Keyed(row) || row.decision.Other? {
        WrongAt(raw, i, ResultInvalid);
        return ResultInvalid;
      }
      if row.decision.Unhashable? {
        WrongAt(raw, i, TypeError);
        return TypeError;
      }
      if RawKey(row) in keys {
        WrongAt(raw, i, Duplicate);
        return Duplicate;
      }
      keys := keys + {RawKey(row)};
      if !Counted(row.samples) {
        WrongAt(raw, i, ResultInvalid);
        return ResultInvalid;
      }
      rows := rows + [RowOf(row)];
      assert raw[..i + 1] == raw[..i] + [row];
    }
    assert raw[..|raw|] == raw;
    r := Rows(rows);
  }

  /** A wrong row keeps the report from being accepted. */
  lemma WrongAt(raw: seq<RawRow>, i: nat, e: Extracted)
    requires Wrong(raw, i, e) && AllAccepted(raw[..i])
    ensures !AllAccepted(raw)
    ensures exists j :: 0 <= j < |raw| && Wrong(raw, j, e) && AllAccepted(raw[..j])
  {
    if Repeats(raw, i) && Decided(raw[i]) && Counted(raw[i].samples) {
      var j :| 0 <= j < i && Keyed(raw[j]) && RawKey(raw[j]) == RawKey(raw[i]);
    }
  }

  /** The grouped results; a later row replaces an earlier one with its key. */
  function Grouped(rows: seq<Row>): map<(Bucket, Chat, int), Row> {
    if rows == [] then map[] else Grouped(rows[..|rows| - 1])[KeyOf(rows[|rows| - 1]) := rows[|rows| - 1]]
  }

  predicate Accepts(m: map<(Bucket, Chat, int), Row>, b: Bucket, c: Chat, k: int) {
    (b, c, k) in m && m[(b, c, k)].accept
  }

  /** The values of K that both chat types accept for a bucket. */
  function CommonAccepted(m: map<(Bucket, Chat, int), Row>, b: Bucket): set<int> {
    set key | key in m && key.0 == b && Accepts(m, b, Private, key.2) && Accepts(m, b, Group, key.2) :: key.2
  }

  ghost predicate IsLeast(k: int, s: set<int>) { k in s && forall x :: x in s ==> k <= x }

  method LeastOf(s: set<int>) returns (k: int)
    requires s != {}
    ensures IsLeast(k, s)
  {
    SomeMember(s);
    k :| k in s;
    var left := s - {k};
    while left != {}
      invariant left <= s && k in s && forall x :: x in s && x !in left ==> k <= x
      decreases left
    {
      SomeMember(left);
      var x :| x in left;
      if x < k {
        k := x;
      }
      left := left - {x};
    }
  }

  datatype BucketChoice = BucketChoice(bucket: Bucket, fixedK: int, samples: Samples)

  datatype Recommendation = Recommendation(activation: int, choices: seq<BucketChoice>, samples: Samples)

  /** The choice is the least K that both chat types accept, with the evidence of both rows. */
  ghost predicate IsChoice(m: map<(Bucket, Chat, int), Row>, c: BucketChoice) {
    && IsLeast(c.fixedK, CommonAccepted(m, c.bucket))
    && (c.bucket, Group, c.fixedK) in m && (c.bucket, Private, c.fixedK) in m
    && c.samples == Plus(m[(c.bucket, Group, c.fixedK)].samples, m[(c.bucket, Private, c.fixedK)].samples)
  }

  function TotalSamples(choices: seq<BucketChoice>): Samples {
    if choices == [] then NoSamples else Plus(TotalSamples(choices[..|choices| - 1]), choices[|choices| - 1].samples)
  }

  function Rank(b: Bucket): nat { match b case Tiny => 0 case Small => 1 case Medium => 2 case Large => 3 case XLarge => 4 case Huge => 5 }

  /** The choices in bucket order, one for every bucket with a commonly accepted K among the first `n`. */
  ghost predicate ChoicesFor(m: map<(Bucket, Chat, int), Row>, choices: seq<BucketChoice>, n: nat) {
    && (forall i :: 0 <= i < |choices| ==> IsChoice(m, choices[i]) && Rank(choices[i].bucket) < n)
    && (forall i, j :: 0 <= i < j < |choices| ==> Rank(choices[i].bucket) < Rank(choices[j].bucket))
    && (forall b: Bucket :: Rank(b) < n && CommonAccepted(m, b) != {} ==> exists i :: 0 <= i < |choices| && choices[i].bucket == b)
  }

  ghost predicate IsThreshold(choices: seq<BucketChoice>, t: int) {
    && (exists i :: 0 <= i < |choices| && Threshold(choices[i].bucket) == t)
    && (forall i :: 0 <= i < |choices| ==> t <= Threshold(choices[i].bucket))
  }

  /** The activation threshold is that of the smallest chosen bucket. */
  lemma ThresholdIsExactly(choices: seq<BucketChoice>, t: int)
    requires IsThreshold(choices, t)
    ensures t ==
      if exists c :: c in choices && c.bucket == Tiny then 3
      else if exists c :: c in choices && c.bucket == Small then 10
      else if exists c :: c in choices && c.bucket == Medium then 30 else 100
  {
    var i :| 0 <= i < |choices| && Threshold(choices[i].bucket) == t;
    assert choices[i] in choices;
    forall c | c in choices ensures t <= Threshold(c.bucket) {
      var j :| 0 <= j < |choices| && choices[j] == c;
    }
  }

  /** The sample counts add up, over the two rows of a choice and over the choices. */
  lemma SamplesAddUp(m: map<(Bucket, Chat, int), Row>, choices: seq<BucketChoice>, c: BucketChoice)
    requires IsChoice(m, c)
    ensures TotalSamples([]) == Samples(0, 0, 0, 0)
    ensures var g, p, t, u := m[(c.bucket, Group, c.fixedK)].samples, m[(c.bucket, Private, c.fixedK)].samples,
                              TotalSamples(choices), TotalSamples(choices + [c]);
      && c.samples == Samples(g.quality + p.quality, g.token + p.token, g.latency + p.latency, g.negative + p.negative)
      && u.quality == t.quality + c.samples.quality && u.token == t.token + c.samples.token
      && u.latency == t.latency + c.samples.latency && u.negative == t.negative + c.samples.negative
  {
    assert (choices + [c])[..|choices|] == choices;
  }

  /** The buckets from the smallest to the largest. */
  lemma BucketsInOrder(b: Bucket)
    ensures BUCKETS == [Tiny, Small, Medium, Large, XLarge, Huge]
    ensures Rank(b) < |BUCKETS| && BUCKETS[Rank(b)] == b
  {}

  lemma AppendChoice(m: map<(Bucket, Chat, int), Row>, choices: seq<BucketChoice>, n: nat, c: BucketChoice)
    requires ChoicesFor(m, choices, n) && IsChoice(m, c) && Rank(c.bucket) == n
    ensures ChoicesFor(m, choices + [c], n + 1)
  {
    var all := choices + [c];
    assert forall i :: 0 <= i < |all| ==> all[i] == if i < |choices| then choices[i] else c;
    forall b: Bucket | Rank(b) < n + 1 && CommonAccepted(m, b) != {} ensures exists i :: 0 <= i < |all| && all[i].bucket == b {
      StillChosen(m, choices, n, c, b);
    }
  }

  lemma StillChosen(m: map<(Bucket, Chat, int), Row>, choices: seq<BucketChoice>, n: nat, c: BucketChoice, b: Bucket)
    requires ChoicesFor(m, choices, n) && Rank(c.bucket) == n && Rank(b) < n + 1 && CommonAccepted(m, b) != {}
    ensures exists i :: 0 <= i < |choices + [c]| && (choices + [c])[i].bucket == b
  {
    var all := choices + [c];
    if Rank(b) < n {
      var i :| 0 <= i < |choices| && choices[i].bucket == b;
      assert all[i].bucket == b;
    } else {
      assert all[|choices|].bucket == b;
    }
  }

  method GroupRows(rows: seq<Row>) returns (m: map<(Bucket, Chat, int), Row>)
    ensures m == Grouped(rows)
  {
    m := map[];
    for i := 0 to |rows|
      invariant m == Grouped(rows[..i])
    {
      assert rows[..i + 1][..i] == rows[..i];
      m := m[KeyOf(rows[i]) := rows[i]];
    }
    assert rows[..|rows|] == rows;
  }

  method ChooseFor(m: map<(Bucket, Chat, int), Row>, b: Bucket) returns (c: Option<BucketChoice>)
    ensures c.None? <==> CommonAccepted(m, b) == {}
    ensures c.Some? ==> IsChoice(m, c.value) && c.value.bucket == b
  {
    var common := CommonAccepted(m, b);
    if common == {} {
      return None;
    }
    var k := LeastOf(common);
    assert Accepts(m, b, Private, k) && Accepts(m, b, Group, k);
    c := Some(BucketChoice(b, k, Plus(m[(b, Group, k)].samples, m[(b, Private, k)].samples)));
  }

  lemma SkipBucket(m: map<(Bucket, Chat, int), Row>, choices: seq<BucketChoice>, b: Bucket)
    requires ChoicesFor(m, choices, Rank(b)) && CommonAccepted(m, b) == {}
    ensures ChoicesFor(m, choices, Rank(b) + 1)
  {
    forall other: Bucket | Rank(other) == Rank(b) ensures other == b {}
  }

  /** What the loop over the buckets has gathered. */
  datatype Gathered = Gathered(choices: seq<BucketChoice>, total: Samples, least: int)

  function Gather(g: Gathered, c: BucketChoice): Gathered {
    Gathered(g.choices + [c], Plus(g.total, c.samples), if Threshold(c.bucket) < g.least then Threshold(c.bucket) else g.least)
  }

  function Gathering(g: Gathered, c: Option<BucketChoice>): Gathered { if c.Some? then Gather(g, c.value) else g }

  ghost predicate Building(m: map<(Bucket, Chat, int), Row>, g: Gathered, n: nat) {
    && ChoicesFor(m, g.choices, n) && g.total == TotalSamples(g.choices)
    && if g.choices == [] then g.least == 100 else IsThreshold(g.choices, g.least)
  }

  lemma GatherStep(m: map<(Bucket, Chat, int), Row>, g: Gathered, c: BucketChoice)
    requires Building(m, g, Rank(c.bucket)) && IsChoice(m, c)
    ensures Building(m, Gather(g, c), Rank(c.bucket) + 1)
  {
    AppendChoice(m, g.choices, Rank(c.bucket), c);
    ThresholdStep(g.choices, g.least, c);
    assert (g.choices + [c])[..|g.choices|] == g.choices;
  }

  lemma SkipStep(m: map<(Bucket, Chat, int), Row>, g: Gathered, b: Bucket)
    requires Building(m, g, Rank(b)) && CommonAccepted(m, b) == {}
    ensures Building(m, g, Rank(b) + 1)
  {
    SkipBucket(m, g.choices, b);
  }

  lemma BucketAt(n: nat)
    requires n < 6
    ensures n < |BUCKETS| && Rank(BUCKETS[n]) == n
  {}

  lemma BuildStep(m: map<(Bucket, Chat, int), Row>, g: Gathered, b: Bucket, c: Option<BucketChoice>)
    requires Building(m, g, Rank(b))
    requires c.None? ==> CommonAccepted(m, b) == {}
    requires c.Some? ==> IsChoice(m, c.value) && c.value.bucket == b
    ensures Building(m, Gathering(g, c), Rank(b) + 1)
  {
    match c
    case Some(choice) => GatherStep(m, g, choice);
    case None => SkipStep(m, g, b);
  }

  lemma NoChoices(m: map<(Bucket, Chat, int), Row>, choices: seq<BucketChoice>)
    requires ChoicesFor(m, choices, 6)
    ensures choices == [] <==> forall b: Bucket :: CommonAccepted(m, b) == {}
  {
    if choices != [] {
      assert IsChoice(m, choices[0]);
    }
    assert forall b: Bucket :: Rank(b) < 6;
  }

  /** Every bucket that both chat types can agree on is enabled with the least K both accept. */
  method BuildRecommendation(rows: seq<Row>) returns (r: Option<Recommendation>)
    ensures r.None? <==> forall b: Bucket :: CommonAccepted(Grouped(rows), b) == {}
    ensures r.Some? ==>
      && r.value.choices != [] && ChoicesFor(Grouped(rows), r.value.choices, 6)
      && IsThreshold(r.value.choices, r.value.activation)
      && r.value.samples == TotalSamples(r.value.choices)
  {
    var m := GroupRows(rows);
    var g := Gathered([], NoSamples, 100);
    for i := 0 to |BUCKETS|
      invariant Building(m, g, i)
    {
      g := BuildFor(m, g, i);
    }
    NoChoices(m, g.choices);
    r := if g.choices == [] then None else Some(Recommendation(g.least, g.choices, g.total));
  }

  /** One turn of the loop over the buckets. */
  method BuildFor(m: map<(Bucket, Chat, int), Row>, g: Gathered, i: nat) returns (g': Gathered)
    requires i < |BUCKETS| && Building(m, g, i)
    ensures Building(m, g', i + 1)
  {
    BucketAt(i);
    var choice := ChooseFor(m, BUCKETS[i]);
    BuildStep(m, g, BUCKETS[i], choice);
    g' := Gathering(g, choice);
  }

  lemma ThresholdStep(choices: seq<BucketChoice>, least: int, c: BucketChoice)
    requires if choices == [] then least == 100 else IsThreshold(choices, least)
    ensures IsThreshold(choices + [c], if Threshold(c.bucket) < least then Threshold(c.bucket) else least)
  {
    var all := choices + [c];
    assert all[|choices|] == c;
    if choices != [] {
      var i :| 0 <= i < |choices| && Threshold(choices[i].bucket) == least;
      assert all[i] == choices[i];
    }
  }

  /** In a report without duplicate keys, a K is commonly accepted exactly when two of its rows say so. */
  lemma CommonAcceptedRows(rows: seq<Row>, b: Bucket, k: int)
    requires DistinctKeys(rows)
    ensures k in CommonAccepted(Grouped(rows), b) <==>
      && (exists r :: r in rows && r.bucket == b && r.chat == Private && r.k == k && r.accept)
      && (exists r :: r in rows && r.bucket == b && r.chat == Group && r.k == k && r.accept)
  {
    GroupedRows(rows);
    var m := Grouped(rows);
    if Accepts(m, b, Private, k) && Accepts(m, b, Group, k) {
      assert (b, Private, k) in m && (b, Private, k).2 == k;
      assert k in CommonAccepted(m, b);
    }
  }

  lemma {:induction false} GroupedRows(rows: seq<Row>)
    requires DistinctKeys(rows)
    ensures forall key :: key in Grouped(rows) ==> Grouped(rows)[key] in rows && KeyOf(Grouped(rows)[key]) == key
    ensures forall r :: r in rows ==> KeyOf(r) in Grouped(rows) && Grouped(rows)[KeyOf(r)] == r
  {
    if rows != [] {
      var init, last := rows[..|rows| - 1], rows[|rows| - 1];
      GroupedRows(init);
      assert rows == init + [last];
      forall r | r in init ensures KeyOf(r) != KeyOf(last) {}
    }
  }

  // Snapshots that are written.

  const Observed := Override(Observe, None)

  function ChoiceFor(choices: seq<BucketChoice>, b: Bucket): Override {
    if choices == [] then Observed
    else if choices[|choices| - 1].bucket == b then Override(TopK, Some(choices[|choices| - 1].fixedK))
    else ChoiceFor(choices[..|choices| - 1], b)
  }

  function ChosenOverrides(choices: seq<BucketChoice>): map<Bucket, Override> {
    map b | b in ALL_BUCKETS :: ChoiceFor(choices, b)
  }

  function RolloutControl(r: Recommendation): Control {
    Control(Observe, r.activation, ChosenOverrides(r.choices))
  }

  lemma NextOverride(choices: seq<BucketChoice>, c: BucketChoice)
    ensures ChosenOverrides(choices + [c]) == ChosenOverrides(choices)[c.bucket := Override(TopK, Some(c.fixedK))]
  {
    assert (choices + [c])[..|choices|] == choices;
    BucketsAreAll();
  }

  method RolloutSnapshot(r: Recommendation) returns (c: Control)
    ensures c == RolloutControl(r)
  {
    var overrides := map b | b in ALL_BUCKETS :: Observed;
    for i := 0 to |r.choices|
      invariant overrides == ChosenOverrides(r.choices[..i])
    {
      assert r.choices[..i + 1] == r.choices[..i] + [r.choices[i]];
      NextOverride(r.choices[..i], r.choices[i]);
      overrides := overrides[r.choices[i].bucket := Override(TopK, Some(r.choices[i].fixedK))];
    }
    assert r.choices[..|r.choices|] == r.choices;
    c := Control(Observe, r.activation, overrides);
  }

  function Fallback(c: Control, mode: Mode): Control {
    Control(mode, c.activation, map b | b in ALL_BUCKETS :: Override(mode, None))
  }

  /** The configuration with the three controlled fields replaced. */
  function With(c: Config, target: Control): Config {
    c.(mode := target.mode, activation := target.activation, overrides := target.overrides)
  }

  // The store.

  /**
   How saving ends.  Another writer may get in between saving and reading back.  A failed save puts the old content
   back, unless another writer got in or putting it back fails as well; then `left` is what stays.
   */
  datatype SaveEnd =
    | Saved(cancelled: bool) | SaveFailed(left: Option<Config>, cancelled: bool) | Overwritten(winner: Config, cancelled: bool)

  datatype ApplyReply = Applied(revision: Config) | ConflictError | ValidationError | PersistenceError | CancelledError

  function Last(h: seq<Config>): Config
    requires h != []
  {
    h[|h| - 1]
  }

  function Changed(h: seq<Config>, expected: Config, target: Control, end: SaveEnd): (seq<Config>, ApplyReply)
    requires h != []
  {
    var candidate := With(Last(h), target);
    if Last(h) != expected then (h, ConflictError)
    else if !ValidConfig(candidate) then (h, ValidationError)
    else match end
      case Saved(cancelled) => (h + [candidate], if cancelled then CancelledError else Applied(candidate))
      case SaveFailed(left, cancelled) =>
        (if left.None? then h else h + [candidate, left.value], if cancelled then CancelledError else PersistenceError)
      case Overwritten(winner, cancelled) =>
        (h + [candidate, winner], if cancelled then CancelledError else if winner == candidate then Applied(candidate) else ConflictError)
  }

  datatype Entry = Entry(id: int, before: RawControl, after: Control, revisionBefore: Option<Config>, revisionAfter: Option<Config>,
                         samples: Samples, rollbackOf: Option<int>)

  datatype State = State(history: seq<Config>, log: seq<Entry>)

  /** How appending to the log ends; the line may be there although the flush failed. */
  datatype AuditEnd = Wrote | AuditRaised(torn: bool)

  function Logged(log: seq<Entry>, e: Entry, end: AuditEnd): seq<Entry> {
    if end.Wrote? || end.torn then log + [e] else log
  }

  /** What others and the calls do during one operation; `w0` to `w3` are writes of others between the steps. */
  datatype Env = Env(w0: seq<Config>, w1: seq<Config>, save: SaveEnd, w2: seq<Config>, audit: AuditEnd, w3: seq<Config>, repair: SaveEnd, id: int)

  datatype Outcome =
    | Done(entry: Entry) | Failed(reply: ApplyReply) | SnapshotInvalid
    | AuditFailed | RepairFailed | RevisionMissing | RevisionConflict

  /** The steps after the audit write: on failure the configuration is replaced by `repair`. */
  function Audited(s: State, e: Entry, revision: Config, repair: Control, env: Env): (State, Outcome)
    requires s.history != []
  {
    var log := Logged(s.log, e, env.audit);
    if env.audit.Wrote? then (State(s.history, log), Done(e))
    else
      var (h, reply) := Changed(s.history + env.w3, revision, repair, env.repair);
      (State(h, log), match reply case Applied(_) => AuditFailed case CancelledError => Failed(CancelledError) case _ => RepairFailed)
  }

  function AppliedTo(s: State, r: Recommendation, fallback: Mode, env: Env): (State, Outcome)
    requires s.history != []
  {
    var h0 := s.history + env.w0;
    var before := Snapshot(RawConfig(Last(h0)));
    if before.None? then (State(h0, s.log), SnapshotInvalid)
    else
      var after := RolloutControl(r);
      var (h, reply) := Changed(h0 + env.w1, Last(h0), after, env.save);
      if !reply.Applied? then (State(h, s.log), Failed(reply))
      else
        var e := Entry(env.id, RawSnapshot(before.value), after, Some(Last(h0)), Some(reply.revision), r.samples, None);
        Audited(State(h + env.w2, s.log), e, reply.revision, Fallback(after, fallback), env)
  }

  function RolledBack(s: State, entry: Entry, env: Env): (State, Outcome)
    requires s.history != []
  {
    if entry.revisionAfter.None? then (s, RevisionMissing)
    else if Snapshot(entry.before).None? then (s, SnapshotInvalid)
    else
      var target := Snapshot(entry.before).value;
      var h0 := s.history + env.w0;
      var current := Snapshot(RawConfig(Last(h0)));
      if current.None? then (State(h0, s.log), SnapshotInvalid)
      else if Last(h0) != entry.revisionAfter.value then (State(h0, s.log), RevisionConflict)
      else
        var (h, reply) := Changed(h0 + env.w1, entry.revisionAfter.value, target, env.save);
        if !reply.Applied? then (State(h, s.log), Failed(reply))
        else
          var e := Entry(env.id, RawSnapshot(current.value), target, Some(Last(h0)), Some(reply.revision), entry.samples, Some(entry.id));
          Audited(State(h + env.w2, s.log), e, reply.revision, current.value, env)
  }

  class ConfigManager {
    var config: Config
    ghost var history: seq<Config>

    ghost predicate Valid()
      reads this
    {
      history != [] && Last(history) == config
    }

    constructor (config: Config)
      ensures Valid() && history == [config]
    {
      this.config := config;
      history := [config];
    }

    /** What other writers do between two steps. */
    method OtherWrites(writes: seq<Config>)
      requires Valid()
      modifies this
      ensures Valid() && history == old(history) + writes
    {
      if writes != [] {
        config := writes[|writes| - 1];
      }
      history := history + writes;
    }

    method ApplyConfigChanges(target: Control, expected: Config, end: SaveEnd) returns (r: ApplyReply)
      requires Valid()
      modifies this
      ensures Valid() && (history, r) == Changed(old(history), expected, target, end)
    {
      if config != expected {
        return ConflictError;
      }
      var candidate := With(config, target);
      if !ValidConfig(candidate) {
        return ValidationError;
      }
      match end
      case Saved(cancelled) =>
        config, history := candidate, history + [candidate];
        r := if cancelled then CancelledError else Applied(candidate);
      case SaveFailed(left, cancelled) =>
        if left.Some? {
          config, history := left.value, history + [candidate, left.value];
        }
        r := if cancelled then CancelledError else PersistenceError;
      case Overwritten(winner, cancelled) =>
        config, history := winner, history + [candidate, winner];
        r := if cancelled then CancelledError else if config == candidate then Applied(candidate) else ConflictError;
    }
  }

  class ControlPlane {
    const manager: ConfigManager
    var log: seq<Entry>

    constructor (manager: ConfigManager)
      ensures this.manager == manager && log == []
    {
      this.manager := manager;
      log := [];
    }

    ghost function Stores(): State
      reads this, manager
    {
      State(manager.history, log)
    }

    method WriteAuditEntry(e: Entry, end: AuditEnd) returns (ok: bool)
      modifies this`log
      ensures log == Logged(old(log), e, end) && ok == end.Wrote?
    {
      if end.Wrote? || end.torn {
        log := log + [e];
      }
      ok := end.Wrote?;
    }

    method AuditOrRepair(e: Entry, revision: Config, repair: Control, env: Env) returns (r: Outcome)
      requires manager.Valid()
      modifies this`log, manager
      ensures manager.Valid() && (Stores(), r) == Audited(old(Stores()), e, revision, repair, env)
    {
      var ok := WriteAuditEntry(e, env.audit);
      if ok {
        return Done(e);
      }
      manager.OtherWrites(env.w3);
      var reply := manager.ApplyConfigChanges(repair, revision, env.repair);
      r := match reply case Applied(_) => AuditFailed case CancelledError => Failed(CancelledError) case _ => RepairFailed;
    }

    method ApplyRecommendation(rec: Recommendation, fallback: Mode, env: Env) returns (r: Outcome)
      requires manager.Valid()
      modifies this`log, manager
      ensures manager.Valid() && (Stores(), r) == AppliedTo(old(Stores()), rec, fallback, env)
    {
      manager.OtherWrites(env.w0);
      var revisionBefore := manager.config;
      var before := ControlSnapshot(RawConfig(revisionBefore));
      if before.None? {
        return SnapshotInvalid;
      }
      var after := RolloutSnapshot(rec);
      manager.OtherWrites(env.w1);
      var reply := manager.ApplyConfigChanges(after, revisionBefore, env.save);
      if !reply.Applied? {
        return Failed(reply);
      }
      manager.OtherWrites(env.w2);
      var e := Entry(env.id, RawSnapshot(before.value), after, Some(revisionBefore), Some(reply.revision), rec.samples, None);
      r := AuditOrRepair(e, reply.revision, Fallback(after, fallback), env);
    }

    method RollbackEntry(entry: Entry, env: Env) returns (r: Outcome)
      requires manager.Valid()
      modifies this`log, manager
      ensures manager.Valid() && (Stores(), r) == RolledBack(old(Stores()), entry, env)
    {
      if entry.revisionAfter.None? {
        return RevisionMissing;
      }
      var target := ControlSnapshot(entry.before);
      if target.None? {
        return SnapshotInvalid;
      }
      manager.OtherWrites(env.w0);
      var revision := manager.config;
      var current := ControlSnapshot(RawConfig(revision));
      if current.None? {
        return SnapshotInvalid;
      }
      if revision != entry.revisionAfter.value {
        return RevisionConflict;
      }
      manager.OtherWrites(env.w1);
      var reply := manager.ApplyConfigChanges(target.value, entry.revisionAfter.value, env.save);
      if !reply.Applied? {
        return Failed(reply);
      }
      manager.OtherWrites(env.w2);
      var e := Entry(env.id, RawSnapshot(current.value), target.value, Some(revision), Some(reply.revision), entry.samples, Some(entry.id));
      r := AuditOrRepair(e, reply.revision, current.value, env);
    }
  }

  // What an operation leaves behind.

  /** The history has the change that an entry claims, and the entry's snapshots are those of its two revisions. */
  ghost predicate Truthful(h: seq<Config>, e: Entry) {
    && e.revisionBefore.Some? && e.revisionAfter.Some?
    && Snapshot(RawConfig(e.revisionBefore.value)).Some?
    && e.before == RawSnapshot(Snapshot(RawConfig(e.revisionBefore.value)).value)
    && e.revisionAfter.value == With(e.revisionBefore.value, e.after)
    && exists i :: 0 < i < |h| && h[i - 1] == e.revisionBefore.value && h[i] == e.revisionAfter.value
  }

  /** An own write replaces exactly the expected content, and a refused one changes nothing. */
  lemma ChangedFacts(h: seq<Config>, expected: Config, target: Control, end: SaveEnd)
    requires h != []
    ensures var (t, r) := Changed(h, expected, target, end);
      && h <= t
      && (r.Applied? ==> r.revision == With(expected, target) == Last(t) && t[|h| - 1] == expected && t[|h|] == r.revision && |t| > |h|)
      && (r.ValidationError? || (r.PersistenceError? && end.left.None?) ==> t == h)
      && (r.PersistenceError? && end.left.Some? ==> Last(t) == end.left.value)
      && (t != h ==> Last(h) == expected && t[|h|] == With(expected, target) && ValidConfig(t[|h|]))
      && (r.ConflictError? ==> (t == h && Last(h) != expected) || (end.Overwritten? && Last(t) == end.winner != With(expected, target)))
  {}

  /** Which reply a change gives, and what it leaves, for every way saving can end. */
  lemma ChangedIsExactly(h: seq<Config>, expected: Config, target: Control, end: SaveEnd)
    requires h != []
    ensures var (t, r) := Changed(h, expected, target, end);
      var candidate := With(expected, target);
      var saving := Last(h) == expected && ValidConfig(candidate);
      && (r == Applied(candidate) <==> saving && (end == Saved(false) || end == Overwritten(candidate, false)))
      && (r == ValidationError <==> Last(h) == expected && !ValidConfig(candidate))
      && (r == PersistenceError <==> saving && end.SaveFailed? && !end.cancelled)
      && (r == CancelledError <==> saving && end.cancelled)
      && (r == ConflictError <==> Last(h) != expected || (saving && end.Overwritten? && end.winner != candidate && !end.cancelled))
      && (r.Applied? ==> r.revision == candidate)
      && (!saving ==> t == h)
      && (saving ==> Last(t) == match end
            case Saved(_) => candidate
            case SaveFailed(left, _) => if left == None then expected else left.value
            case Overwritten(winner, _) => winner)
  {}

  /** A change that takes is recorded as the step of the history that an entry may claim. */
  lemma ChangeIsTruthful(h: seq<Config>, expected: Config, before: Control, target: Control, end: SaveEnd, more: seq<Config>, e: Entry)
    requires h != [] && Changed(h, expected, target, end).1.Applied?
    requires Snapshot(RawConfig(expected)) == Some(before) && e.before == RawSnapshot(before) && e.after == target
    requires e.revisionBefore == Some(expected) && e.revisionAfter == Some(Changed(h, expected, target, end).1.revision)
    ensures Truthful(Changed(h, expected, target, end).0 + more, e)
  {
    var t := Changed(h, expected, target, end).0 + more;
    assert t[|h| - 1] == expected && t[|h|] == e.revisionAfter.value;
  }

  lemma AuditedFacts(s: State, e: Entry, revision: Config, repair: Control, env: Env)
    requires s.history != [] && Truthful(s.history, e)
    ensures var t := Audited(s, e, revision, repair, env).0;
      && s.history <= t.history && Truthful(t.history, e)
      && (t.log == s.log || t.log == s.log + [e])
  {}

  /**
   A successful apply logs one entry, and the entry is true: the history contains the step it describes, from
   a content with the recorded snapshot to that content with only the controlled fields replaced.
   */
  lemma ApplyIsAudited(s: State, r: Recommendation, fallback: Mode, env: Env)
    requires s.history != [] && AppliedTo(s, r, fallback, env).1.Done?
    ensures var (t, o) := AppliedTo(s, r, fallback, env);
      && t.log == s.log + [o.entry] && Truthful(t.history, o.entry)
      && o.entry.after == RolloutControl(r) && o.entry.rollbackOf.None?
      && o.entry.id == env.id && o.entry.samples == r.samples && o.entry.revisionBefore == Some(Last(s.history + env.w0))
      && (env.w2 == [] ==> Last(t.history) == o.entry.revisionAfter.value)
  {
    var h1 := s.history + env.w0 + env.w1;
    var expected, after := Last(s.history + env.w0), RolloutControl(r);
    var before := Snapshot(RawConfig(expected)).value;
    var (h, reply) := Changed(h1, expected, after, env.save);
    var e := Entry(env.id, RawSnapshot(before), after, Some(expected), Some(reply.revision), r.samples, None);
    ChangeIsTruthful(h1, expected, before, after, env.save, env.w2, e);
  }

  /** With the fallback in force every bucket and the global setting are in the fallback mode. */
  lemma FallbackIsConservative(c: Config, after: Control, mode: Mode, b: Bucket)
    ensures With(c, Fallback(after, mode)).mode == mode
    ensures Effective(With(c, Fallback(after, mode)), b) == (mode, c.fixedK)
  {
    BucketsAreAll();
  }

  /** The fallback of an accepted change is never refused by validation. */
  lemma FallbackIsAccepted(c: Config, after: Control, mode: Mode)
    requires ValidConfig(With(c, after)) && !mode.TopK?
    ensures ValidConfig(With(With(c, after), Fallback(after, mode)))
  {}

  /** The content that a repair finds: the last write of others, or the change itself. */
  function Found(applied: Config, others: seq<Config>): Config { if others == [] then applied else Last(others) }

  /** The repair gets as far as saving: it finds the change in place and its target is valid. */
  predicate RepairReached(applied: Config, target: Config, others: seq<Config>) {
    Found(applied, others) == applied && ValidConfig(target)
  }

  /** The content that a save of `candidate` over `before` leaves. */
  function SavedContent(before: Config, candidate: Config, end: SaveEnd): Config {
    match end
    case Saved(_) => candidate
    case SaveFailed(left, _) => if left.None? then before else left.value
    case Overwritten(winner, _) => winner
  }

  /** How an operation ends when its audit write failed. */
  function FailedAuditOutcome(applied: Config, target: Config, others: seq<Config>, repair: SaveEnd): Outcome {
    if !RepairReached(applied, target, others) then RepairFailed
    else if repair.cancelled then Failed(CancelledError)
    else if repair.Saved? || (repair.Overwritten? && repair.winner == target) then AuditFailed
    else RepairFailed
  }

  /** The content in force after it. */
  function FailedAuditContent(applied: Config, target: Config, others: seq<Config>, repair: SaveEnd): Config {
    if !RepairReached(applied, target, others) then Found(applied, others)
    else SavedContent(applied, target, repair)
  }

  lemma FailedAuditEnds(h: seq<Config>, log: seq<Entry>, e: Entry, applied: Config, repair: Control, env: Env)
    requires h != [] && Last(h) == applied && !env.audit.Wrote?
    ensures var (t, o) := Audited(State(h + env.w2, log), e, applied, repair, env);
      && t.log == (if env.audit.torn then log + [e] else log)
      && o == FailedAuditOutcome(applied, With(applied, repair), env.w2 + env.w3, env.repair)
      && Last(t.history) == FailedAuditContent(applied, With(applied, repair), env.w2 + env.w3, env.repair)
  {
    var others := env.w2 + env.w3;
    assert h + env.w2 + env.w3 == h + others;
    assert Last(h + others) == Found(applied, others);
  }

  /** The change of an apply takes: it is saved over the content that was read. */
  predicate ApplyTakes(s: State, r: Recommendation, env: Env)
    requires s.history != []
  {
    var h0 := s.history + env.w0;
    Snapshot(RawConfig(Last(h0))).Some? && Changed(h0 + env.w1, Last(h0), RolloutControl(r), env.save).1.Applied?
  }

  /**
   A change that took and whose audit write failed ends in the fallback, an explicit error or a cancellation.
   The fallback is in force exactly when the repair found the change in place and was saved, cancelled or not,
   or when the last writer wrote the same content.
   */
  lemma AuditFailureIsRepaired(s: State, r: Recommendation, fallback: Mode, env: Env)
    requires s.history != [] && ApplyTakes(s, r, env) && !env.audit.Wrote?
    ensures var (t, o) := AppliedTo(s, r, fallback, env);
      var applied := With(Last(s.history + env.w0), RolloutControl(r));
      var target := With(applied, Fallback(RolloutControl(r), fallback));
      var others := env.w2 + env.w3;
      && o == FailedAuditOutcome(applied, target, others, env.repair)
      && Last(t.history) == FailedAuditContent(applied, target, others, env.repair)
      && (o.AuditFailed? ==> Last(t.history) == target)
      && (!fallback.TopK? ==> ValidConfig(target))
      && (Last(t.history) == target <==>
            if RepairReached(applied, target, others)
            then env.repair.Saved? || (env.repair.Overwritten? && env.repair.winner == target)
              || (env.repair.SaveFailed? && (if env.repair.left.None? then applied else env.repair.left.value) == target)
            else Found(applied, others) == target)
      && (!env.audit.torn ==> t.log == s.log)
  {
    var h1 := s.history + env.w0 + env.w1;
    var expected, after := Last(s.history + env.w0), RolloutControl(r);
    var (h, reply) := Changed(h1, expected, after, env.save);
    var before := Snapshot(RawConfig(expected)).value;
    var e := Entry(env.id, RawSnapshot(before), after, Some(expected), Some(reply.revision), r.samples, None);
    FailedAuditEnds(h, s.log, e, reply.revision, Fallback(after, fallback), env);
  }

  lemma LastFound(applied: Config, env: Env)
    ensures Last([applied] + env.w2 + env.w3) == Found(applied, env.w2 + env.w3)
  {}

  /** How an apply ends: which of its calls fails first decides. */
  lemma ApplyEnds(s: State, r: Recommendation, fallback: Mode, env: Env)
    requires s.history != []
    ensures var o := AppliedTo(s, r, fallback, env).1;
      var before := Last(s.history + env.w0);
      var found, applied := Last(s.history + env.w0 + env.w1), With(before, RolloutControl(r));
      var readable := Snapshot(RawConfig(before)).Some?;
      var saving := readable && found == before && ValidConfig(applied);
      var done := saving && (env.save == Saved(false) || env.save == Overwritten(applied, false));
      && (o == SnapshotInvalid <==> !readable)
      && (o == Failed(ConflictError) <==>
            readable && (found != before || (saving && env.save.Overwritten? && env.save.winner != applied && !env.save.cancelled)))
      && (o == Failed(ValidationError) <==> readable && found == before && !ValidConfig(applied))
      && (o == Failed(PersistenceError) <==> saving && env.save.SaveFailed? && !env.save.cancelled)
      && (o.Done? <==> done && env.audit == Wrote)
      && var target := With(applied, Fallback(RolloutControl(r), fallback));
      var repairing := done && env.audit != Wrote && Last([applied] + env.w2 + env.w3) == applied && ValidConfig(target);
      && (o == Failed(CancelledError) <==> (saving && env.save.cancelled) || (repairing && env.repair.cancelled))
      && (o == AuditFailed <==> repairing && (env.repair == Saved(false) || env.repair == Overwritten(target, false)))
      && (o == RepairFailed <==>
            done && env.audit != Wrote
            && !(repairing && (env.repair.cancelled || env.repair == Saved(false) || env.repair == Overwritten(target, false))))
  {
    var h1 := s.history + env.w0 + env.w1;
    LastFound(With(Last(s.history + env.w0), RolloutControl(r)), env);
    ChangedIsExactly(h1, Last(s.history + env.w0), RolloutControl(r), env.save);
    if ApplyTakes(s, r, env) && env.audit != Wrote {
      AuditFailureIsRepaired(s, r, fallback, env);
    }
  }

  /** The write of `target` over the content read at `h0` gets as far as saving: nobody intervened and it is valid. */
  predicate SaveReached(h0: seq<Config>, w1: seq<Config>, target: Control)
    requires h0 != []
  {
    Last(h0 + w1) == Last(h0) && ValidConfig(With(Last(h0), target))
  }

  /** A save that ends like this is reported as done. */
  predicate ReportsDone(end: SaveEnd, candidate: Config) {
    !end.cancelled && (end.Saved? || (end.Overwritten? && end.winner == candidate))
  }

  /** The candidate is what the save leaves in force: it took, or failed to be put back, or changed nothing. */
  predicate Installed(before: Config, candidate: Config, end: SaveEnd) {
    match end
    case Saved(_) => true
    case SaveFailed(left, _) => (if left.None? then before else left.value) == candidate
    case Overwritten(winner, _) => winner == candidate
  }

  /** The repair leaves the change in force: it finds it in place and is refused, or its save brings it back. */
  predicate RepairLeavesChange(applied: Config, target: Config, others: seq<Config>, repair: SaveEnd) {
    Found(applied, others) == applied && (!ValidConfig(target) || SavedContent(applied, target, repair) == applied)
  }

  /** When the new content is in force and the log has no entry for it. */
  predicate Unaudited(before: Config, applied: Config, target: Config, env: Env) {
    if ReportsDone(env.save, applied) then
      env.audit == AuditRaised(false) && RepairLeavesChange(applied, target, env.w2 + env.w3, env.repair)
    else Installed(before, applied, env.save)
  }

  /**
   An applied content is in force without an entry in the log exactly when the save did not report it although it is
   in place, as after a cancelled save or one that could not be undone, or when the audit write and the repair
   both failed.  After a cancelled save neither an audit write nor the fallback is tried.
   */
  lemma UnauditedChangeStaysIff(s: State, r: Recommendation, fallback: Mode, env: Env)
    requires s.history != [] && Snapshot(RawConfig(Last(s.history + env.w0))).Some?
    requires SaveReached(s.history + env.w0, env.w1, RolloutControl(r))
    ensures var (t, o) := AppliedTo(s, r, fallback, env);
      var before := Last(s.history + env.w0);
      var applied := With(before, RolloutControl(r));
      && (t.log == s.log && Last(t.history) == applied <==>
            Unaudited(before, applied, With(applied, Fallback(RolloutControl(r), fallback)), env))
      && (env.save.cancelled ==> o == Failed(CancelledError) && t.log == s.log)
  {
    if ApplyTakes(s, r, env) && !env.audit.Wrote? {
      AuditFailureIsRepaired(s, r, fallback, env);
    }
  }

  // When a recommendation is accepted.

  /** What validation asks of a recommendation: its threshold and every chosen K fit the topic limit. */
  predicate Fits(r: Recommendation, c: Config) {
    r.activation <= c.maxFullTopics && forall i :: 0 <= i < |r.choices| ==> r.choices[i].fixedK <= c.maxFullTopics
  }

  lemma {:induction false} ChoiceForFacts(choices: seq<BucketChoice>, b: Bucket)
    ensures
      || (ChoiceFor(choices, b) == Observed && forall i :: 0 <= i < |choices| ==> choices[i].bucket != b)
      || (exists i :: 0 <= i < |choices| && choices[i].bucket == b && ChoiceFor(choices, b) == Override(TopK, Some(choices[i].fixedK)))
  {
    if choices != [] {
      ChoiceForFacts(choices[..|choices| - 1], b);
    }
  }

  /** Each choice is the only one for its bucket. */
  predicate OnePerBucket(choices: seq<BucketChoice>) {
    forall i, j :: 0 <= i < j < |choices| ==> choices[i].bucket != choices[j].bucket
  }

  /** Every enabled bucket runs with its chosen K, and every other bucket only observes. */
  lemma RolloutEffect(c: Config, r: Recommendation, b: Bucket)
    requires OnePerBucket(r.choices)
    ensures forall i :: 0 <= i < |r.choices| && r.choices[i].bucket == b ==>
      Effective(With(c, RolloutControl(r)), b) == (TopK, r.choices[i].fixedK)
    ensures (forall i :: 0 <= i < |r.choices| ==> r.choices[i].bucket != b) ==>
      Effective(With(c, RolloutControl(r)), b) == (Observe, c.fixedK)
  {
    BucketsAreAll();
    ChoiceForFacts(r.choices, b);
  }

  /** What an apply writes: the global mode observes, every bucket has an override, and nothing else changes. */
  lemma AppliedIsExactly(c: Config, r: Recommendation, b: Bucket)
    requires OnePerBucket(r.choices)
    ensures var w := With(c, RolloutControl(r));
      && w.mode == Observe && w.activation == r.activation
      && w.fixedK == c.fixedK && w.maxFullTopics == c.maxFullTopics && w.rest == c.rest && b in w.overrides
      && (forall i :: 0 <= i < |r.choices| && r.choices[i].bucket == b ==> w.overrides[b] == Override(TopK, Some(r.choices[i].fixedK)))
      && ((forall i :: 0 <= i < |r.choices| ==> r.choices[i].bucket != b) ==> w.overrides[b] == Override(Observe, None))
  {
    BucketsAreAll();
    ChoiceForFacts(r.choices, b);
  }

  /** What the fallback writes: one mode everywhere, and the threshold of the change that it replaces. */
  lemma FallbackIsExactly(c: Config, after: Control, mode: Mode, b: Bucket)
    ensures var w := With(c, Fallback(after, mode));
      && w.mode == mode && w.activation == after.activation && b in w.overrides && w.overrides[b] == Override(mode, None)
      && w.fixedK == c.fixedK && w.maxFullTopics == c.maxFullTopics && w.rest == c.rest
  {
    BucketsAreAll();
  }

  /** A valid configuration accepts a recommendation built from a report exactly when it fits. */
  lemma AcceptedIffFits(c: Config, r: Recommendation)
    requires ValidConfig(c) && OnePerBucket(r.choices) && IsThreshold(r.choices, r.activation)
    requires forall i :: 0 <= i < |r.choices| ==> 1 <= r.choices[i].fixedK <= 20
    ensures ValidConfig(With(c, RolloutControl(r))) <==> Fits(r, c)
  {
    var d := With(c, RolloutControl(r));
    BucketsAreAll();
    if Fits(r, c) {
      forall b | b in d.overrides ensures ValidOverride(d.overrides[b], d.maxFullTopics) {
        ChoiceForFacts(r.choices, b);
      }
    }
    if ValidConfig(d) {
      forall i | 0 <= i < |r.choices| ensures r.choices[i].fixedK <= c.maxFullTopics {
        ChoiceForFacts(r.choices, r.choices[i].bucket);
        assert r.choices[i].bucket in d.overrides;
      }
    }
  }

  /** A recommendation for large buckets alone is refused by every valid configuration. */
  lemma LargeBucketsAreRefused(c: Config, r: Recommendation)
    requires ValidConfig(c) && OnePerBucket(r.choices) && IsThreshold(r.choices, r.activation)
    requires forall i :: 0 <= i < |r.choices| ==> 1 <= r.choices[i].fixedK <= 20
    requires forall i :: 0 <= i < |r.choices| ==> r.choices[i].bucket in {Large, XLarge, Huge}
    ensures !ValidConfig(With(c, RolloutControl(r)))
  {
    AcceptedIffFits(c, r);
  }

  // From a report to a decision.

  /** Rows of both chat types accept this K for the bucket. */
  ghost predicate Supported(rows: seq<Row>, b: Bucket, k: int) {
    && (exists r :: r in rows && r.bucket == b && r.chat == Private && r.k == k && r.accept)
    && (exists r :: r in rows && r.bucket == b && r.chat == Group && r.k == k && r.accept)
  }

  /** What extraction and building give. */
  ghost predicate Recommended(rows: seq<Row>, r: Recommendation) {
    && DistinctKeys(rows) && (forall row :: row in rows ==> 1 <= row.k <= 20)
    && r.choices != [] && ChoicesFor(Grouped(rows), r.choices, 6)
    && IsThreshold(r.choices, r.activation) && r.samples == TotalSamples(r.choices)
  }

  /** The rows are those of the report, all well formed and without duplicate keys. */
  ghost predicate ReadFrom(report: Report, rows: seq<Row>) {
    && report.results.Some? && AllAccepted(report.results.value) && |rows| == |report.results.value|
    && forall i :: 0 <= i < |rows| ==> rows[i] == RowOf(report.results.value[i])
  }

  /** Reading a report and building its recommendation; there is one exactly when some bucket has a supported K. */
  method Recommend(report: Report) returns (e: Extracted, r: Option<Recommendation>)
    ensures !e.Rows? ==> r.None?
    ensures e.Rows? ==> ReadFrom(report, e.rows)
    ensures e.Rows? ==> (r.None? <==> forall b: Bucket, k :: !Supported(e.rows, b, k))
    ensures r.Some? ==> Recommended(e.rows, r.value)
  {
    e := ExtractBucketResults(report);
    r := None;
    if e.Rows? {
      r := BuildRecommendation(e.rows);
      NoneSupported(e.rows);
      forall row | row in e.rows ensures 1 <= row.k <= 20 {
        var i :| 0 <= i < |e.rows| && e.rows[i] == row;
        assert WellFormed(report.results.value[i]);
      }
    }
  }

  lemma NoneSupported(rows: seq<Row>)
    requires DistinctKeys(rows)
    ensures (forall b: Bucket :: CommonAccepted(Grouped(rows), b) == {}) <==> forall b: Bucket, k :: !Supported(rows, b, k)
  {
    if b: Bucket, k :| Supported(rows, b, k) {
      NoneSupportedFor(rows, b);
      assert CommonAccepted(Grouped(rows), b) != {};
    } else if b: Bucket :| CommonAccepted(Grouped(rows), b) != {} {
      NoneSupportedFor(rows, b);
    }
  }

  lemma NoneSupportedFor(rows: seq<Row>, b: Bucket)
    requires DistinctKeys(rows)
    ensures CommonAccepted(Grouped(rows), b) == {} <==> forall k :: !Supported(rows, b, k)
  {
    var common := CommonAccepted(Grouped(rows), b);
    forall k ensures k in common <==> Supported(rows, b, k) {
      CommonAcceptedRows(rows, b, k);
    }
    if common != {} {
      SomeMember(common);
      var k :| k in common;
      assert Supported(rows, b, k);
    }
  }

  lemma RecommendedFacts(rows: seq<Row>, r: Recommendation)
    requires Recommended(rows, r)
    ensures OnePerBucket(r.choices)
    ensures forall i :: 0 <= i < |r.choices| ==>
      1 <= r.choices[i].fixedK <= 20 && Supported(rows, r.choices[i].bucket, r.choices[i].fixedK)
  {
    forall i, j | 0 <= i < j < |r.choices| ensures r.choices[i].bucket != r.choices[j].bucket {
      assert Rank(r.choices[i].bucket) < Rank(r.choices[j].bucket);
    }
    forall i | 0 <= i < |r.choices|
      ensures 1 <= r.choices[i].fixedK <= 20 && Supported(rows, r.choices[i].bucket, r.choices[i].fixedK)
    {
      assert IsChoice(Grouped(rows), r.choices[i]);
      CommonAcceptedRows(rows, r.choices[i].bucket, r.choices[i].fixedK);
    }
  }

  /**
   A valid configuration accepts the recommendation of a report exactly when it fits, and never when the report
   supports large buckets only.
   */
  lemma ReportIsAcceptedIff(rows: seq<Row>, r: Recommendation, c: Config)
    requires Recommended(rows, r) && ValidConfig(c)
    ensures ValidConfig(With(c, RolloutControl(r))) <==> Fits(r, c)
    ensures (forall b: Bucket, k :: Supported(rows, b, k) ==> b in {Large, XLarge, Huge}) ==> !ValidConfig(With(c, RolloutControl(r)))
  {
    RecommendedFacts(rows, r);
    AcceptedIffFits(c, r);
    if forall b: Bucket, k :: Supported(rows, b, k) ==> b in {Large, XLarge, Huge} {
      LargeBucketsAreRefused(c, r);
    }
  }

  // Rolling back.

  /** The content a rollback of a true entry writes. */
  function Restored(e: Entry): Config
    requires e.revisionBefore.Some? && e.revisionAfter.Some? && Snapshot(RawConfig(e.revisionBefore.value)).Some?
  {
    With(e.revisionAfter.value, Snapshot(RawConfig(e.revisionBefore.value)).value)
  }

  /**
   A successful rollback of a true entry replaces exactly the content the entry left, so no other content is
   overwritten, and writes the recorded normalized snapshot; its own entry is true and names the first one.
   */
  lemma RollbackRestores(s: State, e: Entry, env: Env)
    requires s.history != [] && Truthful(s.history, e) && RolledBack(s, e, env).1.Done?
    ensures var (t, o) := RolledBack(s, e, env);
      && t.log == s.log + [o.entry] && Truthful(t.history, o.entry)
      && o.entry.rollbackOf == Some(e.id) && o.entry.id == env.id && o.entry.samples == e.samples
      && o.entry.revisionBefore == e.revisionAfter && o.entry.revisionAfter == Some(Restored(e))
      && Last(s.history + env.w0) == Last(s.history + env.w0 + env.w1) == e.revisionAfter.value
      && (env.w2 == [] ==> Last(t.history) == Restored(e))
  {
    var h1 := s.history + env.w0 + env.w1;
    var expected := e.revisionAfter.value;
    SnapshotIdempotent(RawConfig(e.revisionBefore.value));
    var target := Snapshot(e.before).value;
    var current := Snapshot(RawConfig(expected)).value;
    var (h, reply) := Changed(h1, expected, target, env.save);
    var e2 := Entry(env.id, RawSnapshot(current), target, Some(expected), Some(reply.revision), e.samples, Some(e.id));
    ChangeIsTruthful(h1, expected, current, target, env.save, env.w2, e2);
  }

  /** A rollback that finds any other content than the entry left writes nothing. */
  lemma RollbackYieldsToOthers(s: State, e: Entry, env: Env)
    requires s.history != [] && Truthful(s.history, e)
    requires Last(s.history + env.w0) != e.revisionAfter.value || Last(s.history + env.w0 + env.w1) != e.revisionAfter.value
    ensures var (t, o) := RolledBack(s, e, env);
      && t.log == s.log && (t.history == s.history + env.w0 || t.history == s.history + env.w0 + env.w1)
      && (o == SnapshotInvalid || o == RevisionConflict || o == Failed(ConflictError))
  {
    SnapshotIdempotent(RawConfig(e.revisionBefore.value));
  }

  /** The change of a rollback takes: it is saved over the content that its entry left. */
  predicate RollbackTakes(s: State, e: Entry, env: Env)
    requires s.history != []
  {
    var h0 := s.history + env.w0;
    && e.revisionAfter.Some? && Last(h0) == e.revisionAfter.value
    && Snapshot(e.before).Some? && Snapshot(RawConfig(Last(h0))).Some?
    && Changed(h0 + env.w1, Last(h0), Snapshot(e.before).value, env.save).1.Applied?
  }

  /**
   A rollback that took and whose own audit write failed puts the normalized content it replaced back, or ends
   in an explicit error or a cancellation, under the same conditions; validation never refuses it.
   */
  lemma RollbackAuditFailure(s: State, e: Entry, env: Env)
    requires s.history != [] && Truthful(s.history, e) && RollbackTakes(s, e, env) && !env.audit.Wrote?
    ensures var (t, o) := RolledBack(s, e, env);
      var left := e.revisionAfter.value;
      var target := With(left, Snapshot(RawConfig(left)).value);
      var others := env.w2 + env.w3;
      && o == FailedAuditOutcome(Restored(e), target, others, env.repair)
      && Last(t.history) == FailedAuditContent(Restored(e), target, others, env.repair)
      && (ValidConfig(left) ==> ValidConfig(target))
      && (target == left <==> left.overrides.Keys == ALL_BUCKETS)
      && (!env.audit.torn ==> t.log == s.log)
  {
    var left, h1 := e.revisionAfter.value, s.history + env.w0 + env.w1;
    SnapshotIdempotent(RawConfig(e.revisionBefore.value));
    var target, current := Snapshot(e.before).value, Snapshot(RawConfig(left)).value;
    var (h, reply) := Changed(h1, left, target, env.save);
    var e2 := Entry(env.id, RawSnapshot(current), target, Some(left), Some(reply.revision), e.samples, Some(e.id));
    FailedAuditEnds(h, s.log, e2, reply.revision, current, env);
    NormalizedFacts(left);
  }

  /** How a rollback of a true entry ends. */
  lemma RollbackEnds(s: State, e: Entry, env: Env)
    requires s.history != [] && Truthful(s.history, e)
    ensures var o := RolledBack(s, e, env).1;
      var found, again, left, restored := Last(s.history + env.w0), Last(s.history + env.w0 + env.w1), e.revisionAfter.value, Restored(e);
      var readable := Snapshot(RawConfig(found)).Some?;
      var saving := readable && found == left && again == left && ValidConfig(restored);
      var done := saving && (env.save == Saved(false) || env.save == Overwritten(restored, false));
      && (o == SnapshotInvalid <==> !readable)
      && (o == RevisionConflict <==> readable && found != left)
      && (o == Failed(ConflictError) <==>
            readable && found == left
            && (again != left || (saving && env.save.Overwritten? && env.save.winner != restored && !env.save.cancelled)))
      && (o == Failed(ValidationError) <==> readable && found == left && again == left && !ValidConfig(restored))
      && (o == Failed(PersistenceError) <==> saving && env.save.SaveFailed? && !env.save.cancelled)
      && (o.Done? <==> done && env.audit == Wrote)
      && var target := if Snapshot(RawConfig(left)).Some? then With(left, Snapshot(RawConfig(left)).value) else left;
      var repairing := done && env.audit != Wrote && Last([restored] + env.w2 + env.w3) == restored && ValidConfig(target);
      && (o == Failed(CancelledError) <==> (saving && env.save.cancelled) || (repairing && env.repair.cancelled))
      && (o == AuditFailed <==> repairing && (env.repair == Saved(false) || env.repair == Overwritten(target, false)))
      && (o == RepairFailed <==>
            done && env.audit != Wrote
            && !(repairing && (env.repair.cancelled || env.repair == Saved(false) || env.repair == Overwritten(target, false))))
      && o != RevisionMissing
  {
    LastFound(Restored(e), env);
    SnapshotIdempotent(RawConfig(e.revisionBefore.value));
    ChangedIsExactly(s.history + env.w0 + env.w1, e.revisionAfter.value, Snapshot(e.before).value, env.save);
    if RollbackTakes(s, e, env) && env.audit != Wrote {
      RollbackAuditFailure(s, e, env);
    }
  }

  /**
   A restored content is in force without an entry of the rollback under the same condition, the repair being the
   normalized content that the rollback replaced.
   */
  lemma UnauditedRollbackStaysIff(s: State, e: Entry, env: Env)
    requires s.history != [] && Truthful(s.history, e) && Last(s.history + env.w0) == e.revisionAfter.value
    requires Snapshot(RawConfig(e.revisionAfter.value)).Some?
    requires SaveReached(s.history + env.w0, env.w1, Snapshot(RawConfig(e.revisionBefore.value)).value)
    ensures var (t, o) := RolledBack(s, e, env);
      var left := e.revisionAfter.value;
      && (t.log == s.log && Last(t.history) == Restored(e) <==>
            Unaudited(left, Restored(e), With(left, Snapshot(RawConfig(left)).value), env))
      && (env.save.cancelled ==> o == Failed(CancelledError) && t.log == s.log)
  {
    SnapshotIdempotent(RawConfig(e.revisionBefore.value));
    if RollbackTakes(s, e, env) && !env.audit.Wrote? {
      RollbackAuditFailure(s, e, env);
    }
  }

  /** The configuration with its own normalized snapshot: as valid, and the same when nothing was missing. */
  lemma NormalizedFacts(c: Config)
    requires Snapshot(RawConfig(c)).Some?
    ensures ValidConfig(c) ==> ValidConfig(With(c, Snapshot(RawConfig(c)).value))
    ensures With(c, Snapshot(RawConfig(c)).value) == c <==> c.overrides.Keys == ALL_BUCKETS
  {
    var normalized := With(c, Snapshot(RawConfig(c)).value);
    if c.overrides.Keys == ALL_BUCKETS {
      assert normalized.overrides == c.overrides;
    }
  }

  /** Restoring a true entry whose earlier content was valid is never refused by validation. */
  lemma RestoredIsAccepted(h: seq<Config>, e: Entry)
    requires Truthful(h, e) && ValidConfig(e.revisionBefore.value)
    ensures ValidConfig(Restored(e))
  {}

  /**
   Apply and rollback together restore every field but the overrides.  The whole configuration comes back
   exactly when it had an override for every bucket.
   */
  lemma RoundTripIff(h: seq<Config>, e: Entry)
    requires Truthful(h, e)
    ensures Restored(e).(overrides := map[]) == e.revisionBefore.value.(overrides := map[])
    ensures Restored(e) == e.revisionBefore.value <==> e.revisionBefore.value.overrides.Keys == ALL_BUCKETS
  {
    var c := e.revisionBefore.value;
    if c.overrides.Keys == ALL_BUCKETS {
      assert Restored(e).overrides == c.overrides;
    }
  }

  /**
   What is in force for a bucket comes back exactly when the bucket had an override or the global mode was
   to observe: without an override the bucket followed the global mode, and the rollback pins it to observe.
   */
  lemma EffectRestoredIff(h: seq<Config>, e: Entry, b: Bucket)
    requires Truthful(h, e)
    ensures Effective(Restored(e), b) == Effective(e.revisionBefore.value, b) <==>
      b in e.revisionBefore.value.overrides || e.revisionBefore.value.mode == Observe
  {
    BucketsAreAll();
  }

  // Runs.

  datatype Op = Apply(rec: Recommendation, fallback: Mode, env: Env) | Rollback(entry: Entry, env: Env) | Others(writes: seq<Config>)

  function Step(s: State, op: Op): State
    requires s.history != []
  {
    match op
    case Apply(rec, fallback, env) => AppliedTo(s, rec, fallback, env).0
    case Rollback(e, env) => RolledBack(s, e, env).0
    case Others(writes) => s.(history := s.history + writes)
  }

  /** Every line of the log describes a step that the history contains. */
  ghost predicate Inv(s: State) {
    s.history != [] && forall i :: 0 <= i < |s.log| ==> Truthful(s.history, s.log[i])
  }

  lemma LogGrows(s: State, t: State, e: Entry)
    requires Inv(s) && s.history <= t.history && (t.log == s.log || (t.log == s.log + [e] && Truthful(t.history, e)))
    ensures Inv(t)
  {
    forall i | 0 <= i < |t.log| ensures Truthful(t.history, t.log[i]) {}
  }

  /** A change, the writes after it and its audit keep the invariant. */
  lemma ChangeKeepsInv(s: State, h1: seq<Config>, expected: Config, before: Control, target: Control, repair: Control, e: Entry, env: Env)
    requires Inv(s) && h1 != [] && s.history <= h1 && Snapshot(RawConfig(expected)) == Some(before)
    requires e.before == RawSnapshot(before) && e.after == target && e.revisionBefore == Some(expected)
    ensures var (h, reply) := Changed(h1, expected, target, env.save);
      && Inv(State(h, s.log))
      && (reply.Applied? && e.revisionAfter == Some(reply.revision) ==>
            Inv(Audited(State(h + env.w2, s.log), e, reply.revision, repair, env).0))
  {
    var (h, reply) := Changed(h1, expected, target, env.save);
    LogGrows(s, State(h, s.log), e);
    if reply.Applied? && e.revisionAfter == Some(reply.revision) {
      ChangeIsTruthful(h1, expected, before, target, env.save, env.w2, e);
      var s2 := State(h + env.w2, s.log);
      AuditedFacts(s2, e, reply.revision, repair, env);
      LogGrows(s, Audited(s2, e, reply.revision, repair, env).0, e);
    }
  }

  lemma StepKeepsInv(s: State, op: Op)
    requires Inv(s)
    ensures Inv(Step(s, op))
  {
    match op
    case Apply(rec, fallback, env) =>
      var expected, after := Last(s.history + env.w0), RolloutControl(rec);
      LogGrowsNot(s, State(s.history + env.w0, s.log));
      if Snapshot(RawConfig(expected)).Some? {
        var before := Snapshot(RawConfig(expected)).value;
        var h1 := s.history + env.w0 + env.w1;
        var reply := Changed(h1, expected, after, env.save).1;
        var revision := if reply.Applied? then Some(reply.revision) else None;
        var e := Entry(env.id, RawSnapshot(before), after, Some(expected), revision, rec.samples, None);
        ChangeKeepsInv(s, h1, expected, before, after, Fallback(after, fallback), e, env);
      }
    case Rollback(e, env) =>
      var expected := Last(s.history + env.w0);
      LogGrowsNot(s, State(s.history + env.w0, s.log));
      if Snapshot(e.before).Some? && Snapshot(RawConfig(expected)).Some? {
        var target, current := Snapshot(e.before).value, Snapshot(RawConfig(expected)).value;
        var h1 := s.history + env.w0 + env.w1;
        var reply := Changed(h1, expected, target, env.save).1;
        var revision := if reply.Applied? then Some(reply.revision) else None;
        var e2 := Entry(env.id, RawSnapshot(current), target, Some(expected), revision, e.samples, Some(e.id));
        ChangeKeepsInv(s, h1, expected, current, target, current, e2, env);
      }
    case Others(writes) =>
      LogGrowsNot(s, Step(s, op));
  }

  lemma LogGrowsNot(s: State, t: State)
    requires Inv(s) && s.history <= t.history && t.log == s.log
    ensures Inv(t)
  {
    forall i | 0 <= i < |t.log| ensures Truthful(t.history, t.log[i]) {}
  }

  function Run(s: State, ops: seq<Op>): State
    requires s.history != []
    ensures Run(s, ops).history != []
  {
    if ops == [] then s else Step(Run(s, ops[..|ops| - 1]), ops[|ops| - 1])
  }

  /** Over any run of applies, rollbacks and other writers the log stays true. */
  lemma {:induction false} LogStaysTrue(c: Config, ops: seq<Op>)
    ensures Inv(Run(State([c], []), ops))
  {
    if ops != [] {
      LogStaysTrue(c, ops[..|ops| - 1]);
      StepKeepsInv(Run(State([c], []), ops[..|ops| - 1]), ops[|ops| - 1]);
    }
  }
}

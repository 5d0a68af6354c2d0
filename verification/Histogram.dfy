/**
 Snapshot histograms: the counting specification, and the accumulators that refine it.

 The specification counts observations directly. The implementation finds one interval per observation by
 binary search, keeps disjoint interval counts per label tuple, and re-materialises cumulative series.
 */
module Histogram {
  import opened Core
  import opened LabelKey

  /** One observation of one histogram column: the row's label tuple and its present value. */
  datatype Sample = Sample(labels: Tuple, value: real)

  datatype HistogramDesc = HistogramDesc(bucket: Desc, count: Desc, sum: Desc)

  /* ---------------- specification ---------------- */

  ghost function Tuples(samples: seq<Sample>): set<Tuple> {
    set s | s in samples :: s.labels
  }

  /** The values observed for one label tuple, in row order. */
  ghost function ValuesOf(samples: seq<Sample>, t: Tuple): seq<real> {
    if samples == [] then []
    else
      var last := samples[|samples| - 1];
      ValuesOf(samples[..|samples| - 1], t) + (if last.labels == t then [last.value] else [])
  }

  ghost function CountAtMost(vals: seq<real>, bound: real): nat {
    if vals == [] then 0
    else CountAtMost(vals[..|vals| - 1], bound) + (if vals[|vals| - 1] <= bound then 1 else 0)
  }

  /** The fold of the values in row order. */
  ghost function Total(vals: seq<real>): real {
    if vals == [] then 0.0 else Total(vals[..|vals| - 1]) + vals[|vals| - 1]
  }

  /** No running sum of any group leaves the range of a float64. */
  ghost predicate SumsStayFinite(samples: seq<Sample>) {
    forall n, t | 0 <= n <= |samples| :: Representable(Total(ValuesOf(samples[..n], t)))
  }

  /** What parse-time validation guarantees of bucket bounds. */
  ghost predicate Increasing(bounds: seq<real>) {
    forall i, j | 0 <= i < j < |bounds| :: bounds[i] < bounds[j]
  }

  /** Every bound is a value of a float64. */
  ghost predicate AreFloat64(bounds: seq<real>) {
    forall b | b in bounds :: IsFloat64(Fin(b))
  }

  ghost function BucketMetric(d: HistogramDesc, t: Tuple, le: Bytes, n: nat): Metric {
    Metric(d.bucket, t + [le], GaugeValue, Fin(n as real))
  }

  /** The series of one group: finite buckets in order, +Inf, count, sum. */
  ghost function GroupSeries(env: Env, d: HistogramDesc, bounds: seq<real>, t: Tuple, vals: seq<real>): seq<Metric> {
    FiniteBuckets(env, d, bounds, t, vals, |bounds|)
    + [BucketMetric(d, t, PLUS_INF, |vals|),
       Metric(d.count, t, GaugeValue, Fin(|vals| as real)),
       Metric(d.sum, t, GaugeValue, Fin(Total(vals)))]
  }

  ghost function FiniteBuckets(env: Env, d: HistogramDesc, bounds: seq<real>, t: Tuple, vals: seq<real>,
      n: nat): seq<Metric>
    requires n <= |bounds|
  {
    seq(n, i requires 0 <= i < n =>
      BucketMetric(d, t, env.formatBound(bounds[i]), CountAtMost(vals, bounds[i])))
  }

  ghost function Sections(env: Env, d: HistogramDesc, bounds: seq<real>, samples: seq<Sample>,
      ts: seq<Tuple>): seq<Metric> {
    if ts == [] then []
    else
      var t := ts[|ts| - 1];
      Sections(env, d, bounds, samples, ts[..|ts| - 1]) + GroupSeries(env, d, bounds, t, ValuesOf(samples, t))
  }

  /** Everything one histogram column publishes: one section per observed label tuple, in key order. */
  ghost function HistogramSeries(env: Env, d: HistogramDesc, bounds: seq<real>, samples: seq<Sample>): seq<Metric> {
    Sections(env, d, bounds, samples, Listing(Tuples(samples)))
  }

  /* ---------------- binary search ---------------- */

  ghost predicate IsSlot(bounds: seq<real>, v: real, i: nat) {
    && i <= |bounds|
    && (forall k | 0 <= k < i :: bounds[k] < v)
    && (forall k | i <= k < |bounds| :: v <= bounds[k])
  }

  /** sort.SearchFloat64s: the first bound that is at least v, or the length. */
  method SearchFloats(bounds: seq<real>, v: real) returns (i: nat)
    requires Increasing(bounds)
    ensures IsSlot(bounds, v, i)
  {
    var lo, hi := 0, |bounds|;
    while lo < hi
      invariant 0 <= lo <= hi <= |bounds|
      invariant forall k | 0 <= k < lo :: bounds[k] < v
      invariant forall k | hi <= k < |bounds| :: v <= bounds[k]
    {
      var mid := (lo + hi) / 2;
      if bounds[mid] < v {
        lo := mid + 1;
      } else {
        hi := mid;
      }
    }
    i := lo;
  }

  ghost function CountInSlot(bounds: seq<real>, vals: seq<real>, i: nat): nat {
    if vals == [] then 0
    else CountInSlot(bounds, vals[..|vals| - 1], i) + (if IsSlot(bounds, vals[|vals| - 1], i) then 1 else 0)
  }

  /** The number of values in the intervals before interval i. */
  ghost function CountBefore(bounds: seq<real>, vals: seq<real>, i: nat): nat
    requires i <= |bounds| + 1
  {
    if i == 0 then 0 else if i == |bounds| + 1 then |vals| else CountAtMost(vals, bounds[i - 1])
  }

  /** Summing disjoint interval counts gives the cumulative count of the next bound. */
  lemma {:induction false} PrefixSumStep(bounds: seq<real>, vals: seq<real>, i: nat)
    requires Increasing(bounds) && i <= |bounds|
    ensures CountBefore(bounds, vals, i) + CountInSlot(bounds, vals, i) == CountBefore(bounds, vals, i + 1)
  {
    if vals != [] {
      PrefixSumStep(bounds, vals[..|vals| - 1], i);
    }
  }

  /* ---------------- accumulators ---------------- */

  datatype Accumulator = Accumulator(labels: Tuple, counts: seq<nat>, count: nat, sum: real)

  ghost function AccumulatorOf(bounds: seq<real>, t: Tuple, vals: seq<real>): Accumulator {
    var counts := seq(|bounds| + 1, i requires 0 <= i <= |bounds| => CountInSlot(bounds, vals, i));
    Accumulator(t, counts, |vals|, Total(vals))
  }

  /** A table of accumulators stands for the observations fed into it. */
  ghost predicate Represents(table: map<Bytes, Accumulator>, bounds: seq<real>, samples: seq<Sample>) {
    && (forall t | t in Tuples(samples) :: Encode(t) in table)
    && (forall k | k in table :: IsEntry(k, table[k], bounds, samples))
  }

  ghost predicate IsEntry(key: Bytes, acc: Accumulator, bounds: seq<real>, samples: seq<Sample>) {
    && key == Encode(acc.labels)
    && acc.labels in Tuples(samples)
    && acc == AccumulatorOf(bounds, acc.labels, ValuesOf(samples, acc.labels))
  }

  lemma {:induction false} ObservedTuplesHaveValues(samples: seq<Sample>, t: Tuple)
    ensures t in Tuples(samples) <==> ValuesOf(samples, t) != []
  {
    if samples != [] {
      var init := samples[..|samples| - 1];
      ObservedTuplesHaveValues(init, t);
      assert samples == init + [samples[|samples| - 1]];
    }
  }

  /** Adds one observation to its group; it fails exactly when the group's running sum overflows. */
  method Observe(table: map<Bytes, Accumulator>, bounds: seq<real>, labels: Tuple, value: real,
                 ghost samples: seq<Sample>)
    returns (ok: bool, table': map<Bytes, Accumulator>)
    requires Increasing(bounds) && Represents(table, bounds, samples)
    ensures ok <==> Representable(Total(ValuesOf(samples + [Sample(labels, value)], labels)))
    ensures ok ==> Represents(table', bounds, samples + [Sample(labels, value)])
  {
    hide Represents, AccumulatorOf;
    var key := EncodeLabelTuple(labels);
    var acc := Lookup(table, key, bounds, labels, samples);
    ghost var before := ValuesOf(samples, labels);
    var slot := SearchFloats(bounds, value);
    AccumulatorFields(bounds, labels, before);
    acc := acc.(counts := acc.counts[slot := acc.counts[slot] + 1], count := acc.count + 1);
    var sum := Normalize(acc.sum + value);
    ValuesOfExtension(samples, labels, value, labels);
    assert (before + [value])[..|before|] == before;
    if !sum.Fin? {
      return false, table;
    }
    acc := acc.(sum := sum.r);
    AccumulatorStep(bounds, labels, before, value, slot);
    TableStep(table, bounds, labels, value, samples);
    return true, table[key := acc];
  }

  /** The group's accumulator, created empty when the tuple is seen for the first time. */
  method Lookup(table: map<Bytes, Accumulator>, key: Bytes, bounds: seq<real>, labels: Tuple,
                ghost samples: seq<Sample>)
    returns (acc: Accumulator)
    requires Represents(table, bounds, samples) && key == Encode(labels)
    ensures acc == AccumulatorOf(bounds, labels, ValuesOf(samples, labels))
  {
    if key in table {
      acc := table[key];
      assert IsEntry(key, acc, bounds, samples);
      EncodeIsInjective(labels, acc.labels);
    } else {
      acc := Accumulator(labels, seq(|bounds| + 1, _ => 0), 0, 0.0);
      ObservedTuplesHaveValues(samples, labels);
    }
  }

  lemma AccumulatorFields(bounds: seq<real>, t: Tuple, vals: seq<real>)
    ensures var a := AccumulatorOf(bounds, t, vals);
            a.labels == t && |a.counts| == |bounds| + 1 && a.count == |vals| && a.sum == Total(vals)
  {
  }

  lemma AccumulatorStep(bounds: seq<real>, t: Tuple, vals: seq<real>, v: real, slot: nat)
    requires IsSlot(bounds, v, slot)
    ensures var a := AccumulatorOf(bounds, t, vals);
            AccumulatorOf(bounds, t, vals + [v])
            == Accumulator(t, a.counts[slot := a.counts[slot] + 1], a.count + 1, a.sum + v)
  {
    SlotsAreUnique(bounds, v, slot);
    assert (vals + [v])[..|vals|] == vals;
    var a, b := AccumulatorOf(bounds, t, vals), AccumulatorOf(bounds, t, vals + [v]);
    assert a.counts[slot := a.counts[slot] + 1] == b.counts;
  }

  lemma TableStep(table: map<Bytes, Accumulator>, bounds: seq<real>, labels: Tuple, value: real, samples: seq<Sample>)
    requires Represents(table, bounds, samples)
    ensures var samples' := samples + [Sample(labels, value)];
            var acc := AccumulatorOf(bounds, labels, ValuesOf(samples', labels));
            Represents(table[Encode(labels) := acc], bounds, samples')
  {
    var samples' := samples + [Sample(labels, value)];
    var key := Encode(labels);
    var table' := table[key := AccumulatorOf(bounds, labels, ValuesOf(samples', labels))];
    TuplesOfExtension(samples, labels, value);
    forall k | k in table' ensures IsEntry(k, table'[k], bounds, samples') {
      if k != key {
        EntryStep(k, table[k], bounds, labels, value, samples);
      }
    }
  }

  lemma EntryStep(k: Bytes, acc: Accumulator, bounds: seq<real>, labels: Tuple, value: real, samples: seq<Sample>)
    requires IsEntry(k, acc, bounds, samples) && k != Encode(labels)
    ensures IsEntry(k, acc, bounds, samples + [Sample(labels, value)])
  {
    TuplesOfExtension(samples, labels, value);
    ValuesOfExtension(samples, labels, value, acc.labels);
  }

  lemma TuplesOfExtension(samples: seq<Sample>, labels: Tuple, value: real)
    ensures Tuples(samples + [Sample(labels, value)]) == Tuples(samples) + {labels}
  {
  }

  lemma SlotsAreUnique(bounds: seq<real>, v: real, slot: nat)
    requires IsSlot(bounds, v, slot)
    ensures forall i: nat :: IsSlot(bounds, v, i) <==> i == slot
  {
    forall i: nat | IsSlot(bounds, v, i) ensures i == slot {
      var atI := if i < |bounds| then bounds[i] else v;
      var atSlot := if slot < |bounds| then bounds[slot] else v;
      assert i < slot ==> atI < v;
    }
  }

  lemma ValuesOfExtension(samples: seq<Sample>, labels: Tuple, value: real, t: Tuple)
    ensures ValuesOf(samples + [Sample(labels, value)], t)
            == if t == labels then ValuesOf(samples, t) + [value] else ValuesOf(samples, t)
  {
  }

  /** Materialises one accumulator; it fails exactly when a label value is not valid text. */
  method HistogramMetrics(env: Env, d: HistogramDesc, bounds: seq<real>, acc: Accumulator, ghost vals: seq<real>)
    returns (r: Option<seq<Metric>>)
    requires env.Valid() && Increasing(bounds)
    requires acc == AccumulatorOf(bounds, acc.labels, vals)
    requires ValidDesc(env, d.bucket) && ValidDesc(env, d.count) && ValidDesc(env, d.sum)
    requires |d.bucket.variableLabels| == |acc.labels| + 1
    requires |d.count.variableLabels| == |d.sum.variableLabels| == |acc.labels|
    ensures r.Some? <==> ValidTexts(env, acc.labels)
    ensures r.Some? ==> r.value == GroupSeries(env, d, bounds, acc.labels, vals)
  {
    var result: seq<Metric> := [];
    var cumulative := 0;
    for i := 0 to |bounds|
      invariant cumulative == CountBefore(bounds, vals, i)
      invariant result == FiniteBuckets(env, d, bounds, acc.labels, vals, i)
      invariant i > 0 ==> ValidTexts(env, acc.labels)
    {
      PrefixSumStep(bounds, vals, i);
      cumulative := cumulative + acc.counts[i];
      var bucketLabels := acc.labels + [env.formatBound(bounds[i])];
      TextsOfExtendedTuple(env, acc.labels, env.formatBound(bounds[i]));
      var metric := NewConstMetric(env, d.bucket, GaugeValue, Fin(cumulative as real), bucketLabels);
      if metric.None? {
        return None;
      }
      result := result + [metric.value];
    }
    PrefixSumStep(bounds, vals, |bounds|);
    cumulative := cumulative + acc.counts[|bounds|];
    TextsOfExtendedTuple(env, acc.labels, PLUS_INF);
    var metric := NewConstMetric(env, d.bucket, GaugeValue, Fin(cumulative as real), acc.labels + [PLUS_INF]);
    if metric.None? {
      return None;
    }
    result := result + [metric.value];
    metric := NewConstMetric(env, d.count, GaugeValue, Fin(acc.count as real), acc.labels);
    if metric.None? {
      return None;
    }
    result := result + [metric.value];
    metric := NewConstMetric(env, d.sum, GaugeValue, Fin(acc.sum), acc.labels);
    if metric.None? {
      return None;
    }
    result := result + [metric.value];
    return Some(result);
  }

  lemma TextsOfExtendedTuple(env: Env, t: Tuple, text: Bytes)
    requires env.validText(text)
    ensures ValidTexts(env, t + [text]) <==> ValidTexts(env, t)
  {
  }
}

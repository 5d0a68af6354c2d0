/** What published histograms mean: their samples count the rows of the result set. */
module SnapshotLaws {
  import opened Core
  import opened Casting
  import opened Histogram
  import opened LabelKey
  import opened Permutations
  import opened Schema
  import opened Snapshot

  ghost predicate IsHistogramColumn(c: Context, m: string) {
    c.Valid() && m in c.q.metricNames && IsHistogram(c.q, m)
  }

  /* ---------------- counting rows ---------------- */

  /** Row r has label tuple t and a present value in column m. */
  ghost predicate Observes(c: Context, m: string, t: Tuple, r: Scanned)
    requires IsHistogramColumn(c, m)
  {
    IsRow(c, r) && LabelsOf(c, r.data) == t && ObservationOf(c, m, r.data).Present?
  }

  ghost predicate ObservesAtMost(c: Context, m: string, t: Tuple, bound: real, r: Scanned)
    requires IsHistogramColumn(c, m)
  {
    Observes(c, m, t, r) && ObservationOf(c, m, r.data).v <= bound
  }

  /** The rows with tuple t and a present value. */
  ghost function RowsObserving(c: Context, m: string, rows: seq<Scanned>, t: Tuple): set<int>
    requires IsHistogramColumn(c, m)
  {
    set i | 0 <= i < |rows| && Observes(c, m, t, rows[i])
  }

  /** The rows with tuple t whose present value is at most `bound`. */
  ghost function RowsAtMost(c: Context, m: string, rows: seq<Scanned>, t: Tuple, bound: real): set<int>
    requires IsHistogramColumn(c, m)
  {
    set i | 0 <= i < |rows| && ObservesAtMost(c, m, t, bound, rows[i])
  }

  /** How one more row changes the values of group t. */
  lemma ValuesOfOneMoreRow(c: Context, m: string, rows: seq<Scanned>, r: Scanned, t: Tuple)
    requires IsHistogramColumn(c, m)
    ensures ValuesOf(Observations(c, m, rows + [r]), t)
            == if Observes(c, m, t, r) then ValuesOf(Observations(c, m, rows), t) + [ObservationOf(c, m, r.data).v]
               else ValuesOf(Observations(c, m, rows), t)
  {
    hide Configured;
    assert (rows + [r])[..|rows|] == rows;
    var before := Observations(c, m, rows);
    if IsRow(c, r) && ObservationOf(c, m, r.data).Present? {
      ValuesOfExtension(before, LabelsOf(c, r.data), ObservationOf(c, m, r.data).v, t);
    } else {
      assert before + [] == before;
    }
  }

  lemma ObservingRowsOfOneMore(c: Context, m: string, rows: seq<Scanned>, r: Scanned, t: Tuple)
    requires IsHistogramColumn(c, m)
    ensures |RowsObserving(c, m, rows + [r], t)| == |RowsObserving(c, m, rows, t)| + (if Observes(c, m, t,
        r) then 1 else 0)
  {
    hide IsHistogramColumn, Observes, Configured;
    var n, rows' := |rows|, rows + [r];
    var more := if Observes(c, m, t, r) then {n} else {};
    assert rows'[n] == r && forall i | 0 <= i < n :: rows'[i] == rows[i];
    assert RowsObserving(c, m, rows', t) == RowsObserving(c, m, rows, t) + more;
  }

  lemma RowsAtMostOfOneMore(c: Context, m: string, rows: seq<Scanned>, r: Scanned, t: Tuple, bound: real)
    requires IsHistogramColumn(c, m)
    ensures |RowsAtMost(c, m, rows + [r], t, bound)|
            == |RowsAtMost(c, m, rows, t, bound)| + (if ObservesAtMost(c, m, t, bound, r) then 1 else 0)
  {
    hide IsHistogramColumn, ObservesAtMost, Configured;
    var n, rows' := |rows|, rows + [r];
    var more := if ObservesAtMost(c, m, t, bound, r) then {n} else {};
    assert rows'[n] == r && forall i | 0 <= i < n :: rows'[i] == rows[i];
    assert RowsAtMost(c, m, rows', t, bound) == RowsAtMost(c, m, rows, t, bound) + more;
  }

  lemma CountsOfOneMoreValue(vals: seq<real>, v: real, bound: real)
    ensures CountAtMost(vals + [v], bound) == CountAtMost(vals, bound) + (if v <= bound then 1 else 0)
    ensures Total(vals + [v]) == Total(vals) + v
  {
  }

  lemma {:induction false} ValuesCountRows(c: Context, m: string, rows: seq<Scanned>, t: Tuple, bound: real)
    requires IsHistogramColumn(c, m)
    ensures |ValuesOf(Observations(c, m, rows), t)| == |RowsObserving(c, m, rows, t)|
    ensures CountAtMost(ValuesOf(Observations(c, m, rows), t), bound) == |RowsAtMost(c, m, rows, t, bound)|
    decreases |rows|
  {
    hide Configured, Observations, ValuesOf, RowsObserving, RowsAtMost, Observes, CountAtMost;
    if rows == [] {
      NoRowsNoValues(c, m, t, bound);
    } else {
      var init, r := rows[..|rows| - 1], rows[|rows| - 1];
      assert rows == init + [r];
      ValuesCountRows(c, m, init, t, bound);
      ValuesOfOneMoreRow(c, m, init, r, t);
      ObservingRowsOfOneMore(c, m, init, r, t);
      RowsAtMostOfOneMore(c, m, init, r, t, bound);
      if Observes(c, m, t, r) {
        ObserversObserve(c, m, t, r);
        CountsOfOneMoreValue(ValuesOf(Observations(c, m, init), t), ObservationOf(c, m, r.data).v, bound);
      }
    }
  }

  lemma ObserversObserve(c: Context, m: string, t: Tuple, r: Scanned)
    requires IsHistogramColumn(c, m) && Observes(c, m, t, r)
    ensures IsRow(c, r) && ObservationOf(c, m, r.data).Present?
  {
  }

  lemma NoRowsNoValues(c: Context, m: string, t: Tuple, bound: real)
    requires IsHistogramColumn(c, m)
    ensures ValuesOf(Observations(c, m, []), t) == [] && CountAtMost([], bound) == 0
    ensures RowsObserving(c, m, [], t) == {} && RowsAtMost(c, m, [], t, bound) == {}
  {
  }

  /** A group exists exactly when its tuple has at least one present observation. */
  lemma GroupExistsIffObserved(c: Context, m: string, rows: seq<Scanned>, t: Tuple)
    requires IsHistogramColumn(c, m)
    ensures t in Tuples(Observations(c, m, rows)) <==> exists i :: 0 <= i < |rows| && Observes(c, m, t, rows[i])
  {
    hide Configured, Observations, Observes;
    ObservedTuplesHaveValues(Observations(c, m, rows), t);
    ValuesCountRows(c, m, rows, t, 0.0);
    var s := RowsObserving(c, m, rows, t);
    assert |s| == 0 <==> s == {};
    if s != {} {
      var i :| i in s;
      assert Observes(c, m, t, rows[i]);
    }
    if exists i :: 0 <= i < |rows| && Observes(c, m, t, rows[i]) {
      var i :| 0 <= i < |rows| && Observes(c, m, t, rows[i]);
      assert i in s;
    }
  }

  /**
   The series of group t of column m: one sample per bound b counting the rows with tuple t whose present value
   is at most b, then +Inf and the count, both the number of such rows, then the sum of their values in row order.
   */
  lemma SeriesCountRows(c: Context, m: string, rows: seq<Scanned>, t: Tuple)
    requires IsHistogramColumn(c, m)
    ensures var d, bounds := HistogramDescs(c.q, c.constLabels, m), c.q.columns[m].Bounds();
            var vals := ValuesOf(Observations(c, m, rows), t);
            var series := GroupSeries(c.env, d, bounds, t, vals);
            var n := |bounds|;
            && |series| == n + 3
            && (forall i | 0 <= i < n ::
                  series[i] == Metric(d.bucket, t + [c.env.formatBound(bounds[i])], GaugeValue,
                                      Fin(|RowsAtMost(c, m, rows, t, bounds[i])| as real)))
            && series[n] == Metric(d.bucket, t + [PLUS_INF], GaugeValue, Fin(|RowsObserving(c, m, rows, t)| as real))
            && series[n + 1] == Metric(d.count, t, GaugeValue, Fin(|RowsObserving(c, m, rows, t)| as real))
            && series[n + 2] == Metric(d.sum, t, GaugeValue, Fin(Total(vals)))
  {
    hide Configured, Observations, RowsAtMost, RowsObserving, ValuesOf, CountAtMost, Total;
    DescribedColumns(c);
    var d, bounds := HistogramDescs(c.q, c.constLabels, m), c.q.columns[m].Bounds();
    var vals := ValuesOf(Observations(c, m, rows), t);
    var series := GroupSeries(c.env, d, bounds, t, vals);
    var n := |bounds|;
    ValuesCountRows(c, m, rows, t, 0.0);
    forall i | 0 <= i < n
      ensures series[i] == Metric(d.bucket, t + [c.env.formatBound(bounds[i])], GaugeValue,
                                  Fin(|RowsAtMost(c, m, rows, t, bounds[i])| as real))
    {
      ValuesCountRows(c, m, rows, t, bounds[i]);
      assert series[i] == FiniteBuckets(c.env, d, bounds, t, vals, n)[i];
    }
  }

  lemma DescribedColumns(c: Context)
    requires c.Valid()
    ensures forall l | l in c.q.labelNames :: l in c.q.columns
  {
  }

  /** A metric is published for column m exactly when it is in the series of some observed group. */
  lemma ColumnPublishesItsGroups(c: Context, m: string, rows: seq<Scanned>, x: Metric)
    requires IsHistogramColumn(c, m)
    ensures var d, bounds, samples := HistogramDescs(c.q, c.constLabels, m), c.q.columns[m].Bounds(),
        Observations(c, m, rows);
            x in ColumnSeries(c, m, rows) <==>
            exists t :: t in Tuples(samples) && x in GroupSeries(c.env, d, bounds, t, ValuesOf(samples, t))
  {
    hide Configured, Observations, GroupSeries;
    DescribedColumns(c);
    var d, bounds, samples := HistogramDescs(c.q, c.constLabels, m), c.q.columns[m].Bounds(), Observations(c, m, rows);
    var ts := Listing(Tuples(samples));
    SectionMembers(c.env, d, bounds, samples, ts, x);
    forall t ensures t in ts <==> t in Tuples(samples) {
      assert t in (set u | u in ts) <==> t in ts;
    }
  }

  lemma {:induction false} SectionMembers(env: Env, d: HistogramDesc, bounds: seq<real>, samples: seq<Sample>,
      ts: seq<Tuple>, x: Metric)
    ensures x in Sections(env, d, bounds, samples, ts) <==>
            exists t :: t in ts && x in GroupSeries(env, d, bounds, t, ValuesOf(samples, t))
  {
    hide GroupSeries, ValuesOf;
    if ts != [] {
      var init, t := ts[..|ts| - 1], ts[|ts| - 1];
      SectionMembers(env, d, bounds, samples, init, x);
      assert ts == init + [t];
      assert forall u | u in init :: u in ts;
      assert t in ts;
    }
  }
}

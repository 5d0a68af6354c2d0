/** An accepted query never publishes two histogram samples of one series, nor a scalar in a histogram family. */
module SeriesIdentity {
  import opened Core
  import opened Histogram
  import opened LabelKey
  import opened Schema
  import opened Snapshot
  import opened SnapshotLaws

  /** Two samples of one series: the same family and the same label values, including "le". */
  predicate SameSeries(x: Metric, y: Metric) {
    x.desc.family == y.desc.family && x.labels == y.labels
  }

  ghost predicate DistinctSeries(s: seq<Metric>) {
    forall i, j | 0 <= i < j < |s| :: !SameSeries(s[i], s[j])
  }

  lemma DistinctConcatenation(a: seq<Metric>, b: seq<Metric>)
    requires DistinctSeries(a) && DistinctSeries(b)
    requires forall x, y | x in a && y in b :: !SameSeries(x, y)
    ensures DistinctSeries(a + b)
  {
  }

  /* ---------------- one group ---------------- */

  /** The descriptors of one histogram column, whose derived names differ. */
  ghost predicate Derived(d: HistogramDesc, base: string) {
    && d.bucket.family == base + "_bucket"
    && d.count.family == base + "_count"
    && d.sum.family == base + "_sum"
  }

  lemma DerivedNamesDiffer(base: string)
    ensures base + "_bucket" != base + "_count" && base + "_bucket" != base + "_sum" && base + "_count" != base + "_sum"
  {
  }

  /** A sample of group t carries t: followed by "le" in the bucket family, alone in the others. */
  ghost predicate BelongsTo(x: Metric, d: HistogramDesc, t: Tuple) {
    || (x.desc == d.bucket && |x.labels| == |t| + 1 && x.labels[..|t|] == t)
    || (x.desc == d.count && x.labels == t)
    || (x.desc == d.sum && x.labels == t)
  }

  lemma GroupMembersBelong(env: Env, d: HistogramDesc, bounds: seq<real>, t: Tuple, vals: seq<real>)
    ensures forall x | x in GroupSeries(env, d, bounds, t, vals) :: BelongsTo(x, d, t)
  {
  }

  lemma GroupsDoNotCollide(x: Metric, y: Metric, d: HistogramDesc, base: string, t: Tuple, u: Tuple)
    requires Derived(d, base) && BelongsTo(x, d, t) && BelongsTo(y, d, u) && SameSeries(x, y)
    ensures t == u
  {
  }

  lemma BucketsDoNotCollide(env: Env, d: HistogramDesc, bounds: seq<real>, t: Tuple, vals: seq<real>)
    requires env.Valid() && Increasing(bounds) && AreFloat64(bounds)
    ensures DistinctSeries(FiniteBuckets(env, d, bounds, t, vals, |bounds|))
    ensures forall x | x in FiniteBuckets(env, d, bounds, t, vals, |bounds|) ::
              x.labels != t + [PLUS_INF] && x.desc == d.bucket
  {
    var fin := FiniteBuckets(env, d, bounds, t, vals, |bounds|);
    forall i, j | 0 <= i < j < |fin| ensures !SameSeries(fin[i], fin[j]) {
      assert fin[i].labels[|t|] == env.formatBound(bounds[i]) && fin[j].labels[|t|] == env.formatBound(bounds[j]);
    }
    forall x | x in fin ensures x.labels != t + [PLUS_INF] && x.desc == d.bucket {
      var i :| 0 <= i < |bounds| && x == fin[i];
      assert x.labels[|t|] == env.formatBound(bounds[i]) && (t + [PLUS_INF])[|t|] == PLUS_INF;
    }
  }

  lemma GroupIsDistinct(env: Env, d: HistogramDesc, base: string, bounds: seq<real>, t: Tuple, vals: seq<real>)
    requires env.Valid() && Increasing(bounds) && AreFloat64(bounds) && Derived(d, base)
    ensures DistinctSeries(GroupSeries(env, d, bounds, t, vals))
  {
    DerivedNamesDiffer(base);
    BucketsDoNotCollide(env, d, bounds, t, vals);
    var rest := [BucketMetric(d, t, PLUS_INF, |vals|),
                 Metric(d.count, t, GaugeValue, Fin(|vals| as real)),
                 Metric(d.sum, t, GaugeValue, Fin(Total(vals)))];
    DistinctConcatenation(FiniteBuckets(env, d, bounds, t, vals, |bounds|), rest);
  }

  /* ---------------- one column ---------------- */

  lemma {:induction false} SectionsAreDistinct(env: Env, d: HistogramDesc, base: string, bounds: seq<real>,
      samples: seq<Sample>, ts: seq<Tuple>)
    requires env.Valid() && Increasing(bounds) && AreFloat64(bounds) && Derived(d, base) && NoDuplicates(ts)
    ensures DistinctSeries(Sections(env, d, bounds, samples, ts))
    decreases |ts|
  {
    hide GroupSeries, ValuesOf;
    if ts != [] {
      var init, t := ts[..|ts| - 1], ts[|ts| - 1];
      var group := GroupSeries(env, d, bounds, t, ValuesOf(samples, t));
      SectionsAreDistinct(env, d, base, bounds, samples, init);
      GroupIsDistinct(env, d, base, bounds, t, ValuesOf(samples, t));
      GroupMembersBelong(env, d, bounds, t, ValuesOf(samples, t));
      forall x, y | x in Sections(env, d, bounds, samples, init) && y in group ensures !SameSeries(x, y) {
        SectionMembers(env, d, bounds, samples, init, x);
        var u :| u in init && x in GroupSeries(env, d, bounds, u, ValuesOf(samples, u));
        GroupMembersBelong(env, d, bounds, u, ValuesOf(samples, u));
        if SameSeries(x, y) { GroupsDoNotCollide(x, y, d, base, u, t); }
      }
      DistinctConcatenation(Sections(env, d, bounds, samples, init), group);
    }
  }

  lemma ListingHasNoDuplicates(ts: seq<Tuple>, s: set<Tuple>)
    requires Lists(ts, s)
    ensures NoDuplicates(ts)
  {
    forall i, j | 0 <= i < j < |ts| ensures ts[i] != ts[j] {
      LessIsIrreflexive(Encode(ts[i]));
    }
  }

  lemma ColumnIsDistinct(c: Context, m: string, rows: seq<Scanned>)
    requires IsHistogramColumn(c, m)
    ensures DistinctSeries(ColumnSeries(c, m, rows))
    ensures forall x | x in ColumnSeries(c, m, rows) :: x.desc.family in Families(c.q, c.q.columns[m])
  {
    hide Observations, Sections;
    DescribedColumns(c);
    var d, bounds := HistogramDescs(c.q, c.constLabels, m), c.q.columns[m].Bounds();
    var base := BaseName(c.q, c.q.columns[m]);
    var samples := Observations(c, m, rows);
    var ts := Listing(Tuples(samples));
    BoundsAreIncreasing(c.q.columns[m]);
    ListingHasNoDuplicates(ts, Tuples(samples));
    SectionsAreDistinct(c.env, d, base, bounds, samples, ts);
    forall x | x in ColumnSeries(c, m, rows) ensures x.desc.family in Families(c.q, c.q.columns[m]) {
      ColumnPublishesItsGroups(c, m, rows, x);
      var t :| t in Tuples(samples) && x in GroupSeries(c.env, d, bounds, t, ValuesOf(samples, t));
      GroupMembersBelong(c.env, d, bounds, t, ValuesOf(samples, t));
      DerivedFamilies(c.q, c.q.columns[m]);
    }
  }

  lemma DerivedFamilies(q: Query, column: Column)
    requires column.IsHistogram()
    ensures var base, f := BaseName(q, column), Families(q, column);
            base + "_bucket" in f && base + "_count" in f && base + "_sum" in f
  {
  }

  /* ---------------- the whole query ---------------- */

  ghost predicate InFamilies(c: Context, x: Metric, n: nat)
    requires c.Valid() && n <= |c.q.metricNames|
  {
    exists i :: 0 <= i < n && IsHistogramColumn(c, c.q.metricNames[i])
                && x.desc.family in Families(c.q, c.q.columns[c.q.metricNames[i]])
  }

  lemma ColumnsDoNotCollide(c: Context, x: Metric, y: Metric, n: nat)
    requires c.Valid() && n < |c.q.metricNames| && InFamilies(c, x, n)
    requires c.q.metricNames[n] in c.q.columns
    requires y.desc.family in Families(c.q, c.q.columns[c.q.metricNames[n]])
    ensures x.desc.family != y.desc.family
  {
  }

  /**
   For every result set, no two histogram samples an accepted query publishes share family and full label
   values, including "le".
   */
  lemma {:induction false} HistogramsNeverCollide(c: Context, rows: seq<Scanned>, n: nat)
    requires c.Valid() && n <= |c.q.metricNames|
    ensures DistinctSeries(Histograms(c, rows, n))
    ensures forall x | x in Histograms(c, rows, n) :: InFamilies(c, x, n)
    decreases n
  {
    hide Configured, ColumnSeries, InFamilies;
    if n > 0 {
      var m := c.q.metricNames[n - 1];
      var before := Histograms(c, rows, n - 1);
      HistogramsNeverCollide(c, rows, n - 1);
      forall x: Metric | InFamilies(c, x, n - 1) ensures InFamilies(c, x, n) {
        FamiliesGrow(c, x, n - 1);
      }
      if IsHistogram(c.q, m) {
        var column := ColumnSeries(c, m, rows);
        ColumnIsDistinct(c, m, rows);
        forall x | x in column ensures InFamilies(c, x, n) {
          FamiliesIncludeLast(c, x, n);
        }
        forall x, y | x in before && y in column ensures !SameSeries(x, y) {
          ColumnsDoNotCollide(c, x, y, n - 1);
        }
        DistinctConcatenation(before, column);
      } else {
        assert Histograms(c, rows, n) == before;
      }
    }
  }

  lemma FamiliesGrow(c: Context, x: Metric, n: nat)
    requires c.Valid() && n < |c.q.metricNames| && InFamilies(c, x, n)
    ensures InFamilies(c, x, n + 1)
  {
  }

  lemma FamiliesIncludeLast(c: Context, x: Metric, n: nat)
    requires c.Valid() && 0 < n <= |c.q.metricNames| && IsHistogramColumn(c, c.q.metricNames[n - 1])
    requires x.desc.family in Families(c.q, c.q.columns[c.q.metricNames[n - 1]])
    ensures InFamilies(c, x, n)
  {
  }

  /** For every result set, no scalar sample shares a family with a histogram sample. */
  lemma ScalarsAvoidHistogramFamilies(c: Context, rows: seq<Scanned>, x: Metric, y: Metric)
    requires c.Valid() && x in Scalars(c, rows) && y in Histograms(c, rows, |c.q.metricNames|)
    ensures x.desc.family != y.desc.family
  {
    hide Configured, Scalars, Histograms, InFamilies;
    var n := |c.q.metricNames|;
    HistogramsNeverCollide(c, rows, n);
    ScalarMembers(c, rows, x);
    FamilyOwners(c, x, y);
  }

  /** A scalar sample carries the base name of some scalar column. */
  ghost predicate IsScalarSample(c: Context, x: Metric)
    requires c.Valid()
  {
    exists i :: 0 <= i < |c.q.metricNames| && !IsHistogram(c.q, c.q.metricNames[i]) && c.q.metricNames[i] in c.q.columns
                && x.desc.family in Families(c.q, c.q.columns[c.q.metricNames[i]])
  }

  lemma FamilyOwners(c: Context, x: Metric, y: Metric)
    requires c.Valid() && IsScalarSample(c, x) && InFamilies(c, y, |c.q.metricNames|)
    ensures x.desc.family != y.desc.family
  {
    var ms := c.q.metricNames;
    var i :| 0 <= i < |ms| && !IsHistogram(c.q, ms[i]) && ms[i] in c.q.columns
             && x.desc.family in Families(c.q, c.q.columns[ms[i]]);
    var j :| 0 <= j < |ms| && IsHistogramColumn(c, ms[j]) && y.desc.family in Families(c.q, c.q.columns[ms[j]]);
    assert i != j;
    assert if i < j then DisjointFamilies(c.q, ms[i], ms[j]) else DisjointFamilies(c.q, ms[j], ms[i]);
  }

  lemma {:induction false} ScalarMembers(c: Context, rows: seq<Scanned>, x: Metric)
    requires c.Valid() && x in Scalars(c, rows)
    ensures IsScalarSample(c, x)
    decreases |rows|
  {
    hide Configured, IsScalarSample, RowScalars;
    if rows != [] {
      var init, r := rows[..|rows| - 1], rows[|rows| - 1];
      if x in Scalars(c, init) {
        ScalarMembers(c, init, x);
      } else {
        RowScalarMembers(c, r.data, |c.q.metricNames|, x);
      }
    }
  }

  lemma {:induction false} RowScalarMembers(c: Context, data: seq<Datum>, n: nat, x: Metric)
    requires c.Valid() && |data| == |c.columns| && n <= |c.q.metricNames| && x in RowScalars(c, data, n)
    ensures IsScalarSample(c, x)
    decreases n
  {
    hide Configured, ScalarOf, IsScalarSample;
    if n > 0 {
      if x in RowScalars(c, data, n - 1) {
        RowScalarMembers(c, data, n - 1, x);
      } else {
        ScalarCell(c, data, n - 1, x);
      }
    }
  }

  lemma ScalarCell(c: Context, data: seq<Datum>, i: nat, x: Metric)
    requires c.Valid() && |data| == |c.columns| && i < |c.q.metricNames| && x in ScalarOf(c, c.q.metricNames[i], data)
    ensures IsScalarSample(c, x)
  {
  }
}

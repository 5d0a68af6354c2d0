/** The main query's result set, from schema check to the complete list of metrics. */
module Publish {
  import opened Core
  import opened Casting
  import opened Histogram
  import opened LabelKey
  import opened Scan
  import opened Schema
  import opened Snapshot

  /* ---------------- running sums ---------------- */

  lemma NoSamplesNoOverflow()
    ensures SumsStayFinite([])
  {
    OverflowIsPositive();
    var none: seq<Sample> := [];
    forall t, n | 0 <= n <= |none| ensures Representable(Total(ValuesOf(none[..n], t))) {
      assert none[..n] == [];
    }
  }

  /** One more observation endangers only its own group's running sum. */
  lemma OneMoreSample(samples: seq<Sample>, labels: Tuple, value: real)
    ensures var samples' := samples + [Sample(labels, value)];
            SumsStayFinite(samples') <==> SumsStayFinite(samples) && Representable(Total(ValuesOf(samples', labels)))
  {
    var samples' := samples + [Sample(labels, value)];
    assert samples'[..|samples'|] == samples' && samples[..|samples|] == samples;
    assert forall n | 0 <= n <= |samples| :: samples'[..n] == samples[..n];
    forall t ensures t != labels ==> ValuesOf(samples', t) == ValuesOf(samples, t) {
      ValuesOfExtension(samples, labels, value, t);
    }
    if SumsStayFinite(samples) && Representable(Total(ValuesOf(samples', labels))) {
      forall n, t | 0 <= n <= |samples'| ensures Representable(Total(ValuesOf(samples'[..n], t))) {
        if n == |samples'| && t != labels {
          assert Representable(Total(ValuesOf(samples[..|samples|], t)));
        }
      }
    }
    if SumsStayFinite(samples') {
      assert Representable(Total(ValuesOf(samples'[..|samples'|], labels)));
      forall n, t | 0 <= n <= |samples| ensures Representable(Total(ValuesOf(samples[..n], t))) {
        assert Representable(Total(ValuesOf(samples'[..n], t)));
      }
    }
  }

  lemma OneMoreRow(c: Context, m: string, rows: seq<Scanned>, data: seq<Datum>)
    requires c.Valid() && m in c.q.metricNames && IsHistogram(c.q, m) && |data| == |c.columns|
    ensures SumsStayFinite(Observations(c, m, rows + [Row(data)]))
            <==> SumsStayFinite(Observations(c, m, rows)) && LastSumOk(c, m, rows + [Row(data)])
  {
    hide Configured;
    var before := Observations(c, m, rows);
    ObservationsOfExtension(c, m, rows, Row(data));
    if ObservationOf(c, m, data).Present? {
      OneMoreSample(before, LabelsOf(c, data), ObservationOf(c, m, data).v);
    } else {
      assert before + [] == before;
    }
  }

  /* ---------------- the row loop ---------------- */

  /** Every row is usable and no running sum overflows. */
  ghost predicate Scannable(c: Context, rows: seq<Scanned>)
    requires c.Valid()
  {
    RowsOk(c, rows) && SumsOk(c, rows)
  }

  lemma NoRowsAreScannable(c: Context)
    requires c.Valid()
    ensures Scannable(c, [])
  {
    NoSamplesNoOverflow();
  }

  lemma ScannableStep(c: Context, rows: seq<Scanned>, data: seq<Datum>)
    requires c.Valid() && |data| == |c.columns|
    ensures Scannable(c, rows + [Row(data)])
            <==> Scannable(c, rows) && CellsFine(c, rows + [Row(data)], |c.q.metricNames|)
  {
    hide Configured, SumsStayFinite, LastSumOk, CellOk;
    var rows' := rows + [Row(data)];
    assert rows'[|rows|] == Row(data) && Row(data) in rows';
    assert forall r | r in rows' :: r in rows || r == Row(data);
    forall m | m in c.q.metricNames && IsHistogram(c.q, m)
      ensures SumsStayFinite(Observations(c, m, rows'))
              <==> SumsStayFinite(Observations(c, m, rows)) && LastSumOk(c, m, rows')
    {
      OneMoreRow(c, m, rows, data);
    }
    assert forall r | r in rows :: r in rows';
    assert CellsFine(c, rows', |c.q.metricNames|) <==> forall m | m in c.q.metricNames :: CellFine(c, m, rows');
  }

  lemma {:induction false} ScannablePrefix(c: Context, rows: seq<Scanned>, n: nat)
    requires c.Valid() && n <= |rows| && Scannable(c, rows)
    ensures Scannable(c, rows[..n])
    decreases |rows|
  {
    hide Configured, SumsOk;
    if n == |rows| {
      assert rows[..n] == rows;
    } else {
      var init, last := rows[..|rows| - 1], rows[|rows| - 1];
      assert rows == init + [last] && last in rows;
      ScannableStep(c, init, last.data);
      ScannablePrefix(c, init, n);
      assert init[..n] == rows[..n];
    }
  }

  method ScanRows(c: Context, descriptors: map<string, Desc>, rows: seq<Scanned>, buffer: array<Metric>)
    returns (ok: bool, buffer': array<Metric>, size: nat, histograms: map<string, Groups>)
    requires c.Valid() && ScalarsDescribed(c, descriptors)
    requires forall r | r in rows && r.Row? :: |r.data| == |c.columns|
    modifies buffer
    ensures buffer' == buffer || fresh(buffer')
    ensures size <= buffer'.Length
    ensures ok <==> Scannable(c, rows)
    ensures ok ==> buffer'[..size] == Scalars(c, rows)
    ensures ok ==> Accumulated(c, histograms, rows, rows, 0)
  {
    hide Configured, Scannable, CellsFine, Accumulates, ScalarsDescribed, RowScalars;
    buffer', size, histograms := buffer, 0, map[];
    var indexes := IndexColumns(c.columns);
    NoRowsAreScannable(c);
    NothingAccumulated(c);
    for i := 0 to |rows|
      invariant buffer' == buffer || fresh(buffer')
      invariant size <= buffer'.Length
      invariant Scannable(c, rows[..i])
      invariant buffer'[..size] == Scalars(c, rows[..i])
      invariant Accumulated(c, histograms, rows[..i], rows[..i], 0)
    {
      ghost var before, after := rows[..i], rows[..i + 1];
      assert after == before + [rows[i]] && after[..i] == before;
      assert rows[i] in rows;
      if rows[i].ScanError? {
        ScanErrorsAreFatal(c, rows, rows[i]);
        return false, buffer', size, histograms;
      }
      ScannableStep(c, before, rows[i].data);
      ok, buffer', size, histograms :=
        ScanRow(c, descriptors, indexes, rows[i].data, buffer', size, histograms, before);
      if !ok {
        if Scannable(c, rows) { ScannablePrefix(c, rows, i + 1); }
        return false, buffer', size, histograms;
      }
    }
    assert rows[..|rows|] == rows;
    ok := true;
  }

  lemma ScanErrorsAreFatal(c: Context, rows: seq<Scanned>, r: Scanned)
    requires c.Valid() && r in rows && r.ScanError?
    ensures !Scannable(c, rows)
  {
  }

  lemma NothingAccumulated(c: Context)
    requires c.Valid()
    ensures Accumulated(c, map[], [], [], 0)
  {
  }

  /* ---------------- emission ---------------- */

  /** The section listing that the emitted keys stand for. */
  ghost function TuplesOfKeys(groups: Groups, keys: seq<Bytes>): seq<Tuple>
    requires forall k | k in keys :: k in groups
  {
    seq(|keys|, i requires 0 <= i < |keys| => groups[keys[i]].labels)
  }

  lemma KeysListTuples(groups: Groups, keys: seq<Bytes>, bounds: seq<real>, samples: seq<Sample>)
    requires Represents(groups, bounds, samples)
    requires Ascending(keys) && (set k | k in keys) == groups.Keys
    ensures forall k | k in keys :: k in groups
    ensures TuplesOfKeys(groups, keys) == Listing(Tuples(samples))
  {
    assert forall k | k in keys :: k in (set x | x in keys);
    var ts := TuplesOfKeys(groups, keys);
    forall i | 0 <= i < |keys| ensures Encode(ts[i]) == keys[i] && ts[i] in Tuples(samples) {
      assert IsEntry(keys[i], groups[keys[i]], bounds, samples);
    }
    forall t ensures t in ts <==> t in Tuples(samples) {
      if t in Tuples(samples) {
        var key := Encode(t);
        assert key in (set x | x in keys);
        var i :| 0 <= i < |keys| && keys[i] == key;
        EncodeIsInjective(ts[i], t);
      }
    }
    ListingIsUnique(ts, Listing(Tuples(samples)), Tuples(samples));
  }

  /** The descriptors fit every group: valid, with one variable label per label value. */
  ghost predicate Fitting(env: Env, d: HistogramDesc, samples: seq<Sample>) {
    && ValidDesc(env, d.bucket) && ValidDesc(env, d.count) && ValidDesc(env, d.sum)
    && |d.bucket.variableLabels| == |d.count.variableLabels| + 1
    && |d.count.variableLabels| == |d.sum.variableLabels|
    && forall t | t in Tuples(samples) :: |t| == |d.count.variableLabels|
  }

  ghost predicate TextsOk(env: Env, samples: seq<Sample>) {
    forall t | t in Tuples(samples) :: ValidTexts(env, t)
  }

  /** Emits all groups of one column in sorted key order; it fails exactly when some label is not valid text. */
  method EmitGroups(env: Env, d: HistogramDesc, bounds: seq<real>, groups: Groups,
                    buffer: array<Metric>, size: nat, ghost samples: seq<Sample>)
    returns (ok: bool, buffer': array<Metric>, size': nat)
    requires env.Valid() && Increasing(bounds) && Fitting(env, d, samples)
    requires Represents(groups, bounds, samples)
    requires size <= buffer.Length
    modifies buffer
    ensures buffer' == buffer || fresh(buffer')
    ensures size' <= buffer'.Length
    ensures ok <==> TextsOk(env, samples)
    ensures ok ==> buffer'[..size'] == old(buffer[..size]) + HistogramSeries(env, d, bounds, samples)
  {
    hide ValidTexts, Sections, GroupSeries, AccumulatorOf, Represents, Listing, Fitting;
    buffer', size' := buffer, size;
    var keys := SortedKeys(groups.Keys);
    KeysListTuples(groups, keys, bounds, samples);
    ghost var ts := Listing(Tuples(samples));
    NoSections(env, d, bounds, samples);
    for i := 0 to |keys|
      invariant buffer' == buffer || fresh(buffer')
      invariant size' <= buffer'.Length
      invariant buffer'[..size'] == old(buffer[..size]) + Sections(env, d, bounds, samples, ts[..i])
      invariant forall j | 0 <= j < i :: ValidTexts(env, ts[j])
    {
      OneMoreSection(env, d, bounds, samples, ts, i);
      var group := groups[keys[i]];
      EntriesOfTable(groups, bounds, samples, keys[i]);
      assert group.labels == ts[i];
      GroupFits(env, d, bounds, samples, group);
      var metrics := HistogramMetrics(env, d, bounds, group, ValuesOf(samples, group.labels));
      if metrics.None? {
        return false, buffer', size';
      }
      buffer', size' := AppendAll(buffer', size', metrics.value);
    }
    ok := true;
    assert ts[..|ts|] == ts;
    forall t | t in Tuples(samples) ensures ValidTexts(env, t) {
      assert t in (set x | x in ts);
    }
  }

  lemma GroupFits(env: Env, d: HistogramDesc, bounds: seq<real>, samples: seq<Sample>, group: Accumulator)
    requires Fitting(env, d, samples) && IsEntry(Encode(group.labels), group, bounds, samples)
    ensures group == AccumulatorOf(bounds, group.labels, ValuesOf(samples, group.labels))
    ensures group.labels in Tuples(samples)
    ensures ValidDesc(env, d.bucket) && ValidDesc(env, d.count) && ValidDesc(env, d.sum)
    ensures |d.bucket.variableLabels| == |group.labels| + 1
    ensures |d.count.variableLabels| == |d.sum.variableLabels| == |group.labels|
  {
  }

  /** Emits one histogram column. */
  method EmitColumn(c: Context, m: string, histogramDesc: map<string, HistogramDesc>, groups: Groups,
                    buffer: array<Metric>, size: nat, ghost rows: seq<Scanned>)
    returns (ok: bool, buffer': array<Metric>, size': nat)
    requires c.Valid() && m in c.q.metricNames && IsHistogram(c.q, m)
    requires m in histogramDesc && histogramDesc[m] == HistogramDescs(c.q, c.constLabels, m)
    requires Represents(groups, c.q.columns[m].Bounds(), Observations(c, m, rows))
    requires size <= buffer.Length
    modifies buffer
    ensures buffer' == buffer || fresh(buffer')
    ensures size' <= buffer'.Length
    ensures ok <==> TextsOk(c.env, Observations(c, m, rows))
    ensures ok ==> buffer'[..size'] == old(buffer[..size]) + ColumnSeries(c, m, rows)
  {
    ColumnFits(c, m, rows);
    ok, buffer', size' := EmitGroups(c.env, histogramDesc[m], c.q.columns[m].Bounds(), groups, buffer, size,
        Observations(c, m, rows));
  }

  lemma ColumnFits(c: Context, m: string, rows: seq<Scanned>)
    requires c.Valid() && m in c.q.metricNames && IsHistogram(c.q, m)
    ensures Increasing(c.q.columns[m].Bounds())
    ensures Fitting(c.env, HistogramDescs(c.q, c.constLabels, m), Observations(c, m, rows))
  {
    ColumnBounds(c, m);
    AcceptedDescriptorsAreValid(c.env, c.q, c.constLabels, m);
    forall t | t in Tuples(Observations(c, m, rows)) ensures |t| == |c.q.labelNames| {
      SampleLabelsFit(c, m, rows, t);
    }
  }

  lemma NoSections(env: Env, d: HistogramDesc, bounds: seq<real>, samples: seq<Sample>)
    ensures Sections(env, d, bounds, samples, []) == []
  {
  }

  lemma OneMoreSection(env: Env, d: HistogramDesc, bounds: seq<real>, samples: seq<Sample>, ts: seq<Tuple>, i: nat)
    requires i < |ts|
    ensures Sections(env, d, bounds, samples, ts[..i + 1])
            == Sections(env, d, bounds, samples, ts[..i]) + GroupSeries(env, d, bounds, ts[i], ValuesOf(samples, ts[i]))
  {
    assert ts[..i + 1][..i] == ts[..i];
  }

  lemma EntriesOfTable(groups: Groups, bounds: seq<real>, samples: seq<Sample>, key: Bytes)
    requires Represents(groups, bounds, samples) && key in groups
    ensures IsEntry(key, groups[key], bounds, samples)
  {
  }

  lemma {:induction false} SampleLabelsFit(c: Context, m: string, rows: seq<Scanned>, t: Tuple)
    requires c.Valid() && m in c.q.metricNames && IsHistogram(c.q, m)
    requires t in Tuples(Observations(c, m, rows))
    ensures |t| == |c.q.labelNames|
    decreases |rows|
  {
    hide Configured;
    if rows != [] {
      var init, last := rows[..|rows| - 1], rows[|rows| - 1];
      assert rows == init + [last];
      ObservationsOfExtension(c, m, init, last);
      if t in Tuples(Observations(c, m, init)) {
        SampleLabelsFit(c, m, init, t);
      }
    }
  }

  method EmitHistograms(c: Context, histogramDesc: map<string, HistogramDesc>, histograms: map<string, Groups>,
                        buffer: array<Metric>, size: nat, ghost rows: seq<Scanned>)
    returns (ok: bool, buffer': array<Metric>, size': nat)
    requires c.Valid() && Accumulated(c, histograms, rows, rows, 0)
    requires forall m | m in c.q.metricNames && IsHistogram(c.q, m) ::
               m in histogramDesc && histogramDesc[m] == HistogramDescs(c.q, c.constLabels, m)
    requires size <= buffer.Length
    modifies buffer
    ensures buffer' == buffer || fresh(buffer')
    ensures size' <= buffer'.Length
    ensures ok <==> GroupsOk(c, rows)
    ensures ok ==> buffer'[..size'] == old(buffer[..size]) + Histograms(c, rows, |c.q.metricNames|)
  {
    hide Configured, ColumnSeries, Represents, Observations, TextsOk, GroupsOk;
    buffer', size' := buffer, size;
    for j := 0 to |c.q.metricNames|
      invariant buffer' == buffer || fresh(buffer')
      invariant size' <= buffer'.Length
      invariant buffer'[..size'] == old(buffer[..size]) + Histograms(c, rows, j)
      invariant forall i | 0 <= i < j && IsHistogram(c.q, c.q.metricNames[i]) ::
                  TextsOk(c.env, Observations(c, c.q.metricNames[i], rows))
    {
      var m := c.q.metricNames[j];
      if m in c.q.columns && c.q.columns[m].IsHistogram() {
        assert Accumulates(c, m, histograms, rows);
        ok, buffer', size' := EmitColumn(c, m, histogramDesc, GroupsOf(histograms, m), buffer', size', rows);
        if !ok {
          TextsOfAllColumns(c, rows);
          return;
        }
      }
    }
    ok := true;
    TextsOfAllColumns(c, rows);
  }

  lemma TextsOfAllColumns(c: Context, rows: seq<Scanned>)
    requires c.Valid()
    ensures GroupsOk(c, rows) <==> forall i | 0 <= i < |c.q.metricNames| && IsHistogram(c.q, c.q.metricNames[i]) ::
                                     TextsOk(c.env, Observations(c, c.q.metricNames[i], rows))
  {
  }

  /* ---------------- the whole result set ---------------- */

  method CheckSchema(q: Query, columns: seq<string>) returns (ok: bool)
    requires MetricColumns(q)
    ensures ok <==> SchemaOk(q, columns)
  {
    for i := 0 to |q.labelNames|
      invariant forall k | 0 <= k < i :: q.labelNames[k] in columns
    {
      if q.labelNames[i] !in columns {
        return false;
      }
    }
    for i := 0 to |q.metricNames|
      invariant forall k | 0 <= k < i && IsHistogram(q, q.metricNames[k]) :: q.metricNames[k] in columns
    {
      var m := q.metricNames[i];
      if q.columns[m].IsHistogram() && m !in columns {
        return false;
      }
    }
    return true;
  }

  /**
   Turns the database's reply to the main query into the new result, building it in the recycled `buffer`.
   It succeeds exactly when the reply is publishable, and then holds the complete result and nothing else,
   whatever the buffer held before.
   */
  method RunMainQuery(env: Env, q: Query, constLabels: map<string, Bytes>, descriptors: map<string, Desc>,
                      histogramDesc: map<string, HistogramDesc>, buffer: array<Metric>, reply: Reply)
    returns (ok: bool, buffer': array<Metric>, size: nat)
    requires Configured(env, q, constLabels) && reply.WellFormed()
    requires forall m | m in q.metricNames && !IsHistogram(q, m) ::
               m in descriptors && descriptors[m] == ScalarDesc(q, constLabels, m)
    requires forall m | m in q.metricNames && IsHistogram(q, m) ::
               m in histogramDesc && histogramDesc[m] == HistogramDescs(q, constLabels, m)
    modifies buffer
    ensures buffer' == buffer || fresh(buffer')
    ensures size <= buffer'.Length
    ensures ok <==> Outcome(env, q, constLabels, reply).Some?
    ensures ok ==> buffer'[..size] == Outcome(env, q, constLabels, reply).value
  {
    buffer', size := buffer, 0;
    if reply.QueryError? || reply.MetadataError? {
      return false, buffer', size;
    }
    ok := CheckSchema(q, reply.columns);
    if !ok {
      return;
    }
    var c := Context(env, q, constLabels, reply.columns);
    ok, buffer', size := RunRows(c, descriptors, histogramDesc, buffer, reply.rows, reply.iterationError);
  }

  method RunRows(c: Context, descriptors: map<string, Desc>, histogramDesc: map<string, HistogramDesc>,
                 buffer: array<Metric>, rows: seq<Scanned>, iterationError: bool)
    returns (ok: bool, buffer': array<Metric>, size: nat)
    requires c.Valid()
    requires forall r | r in rows && r.Row? :: |r.data| == |c.columns|
    requires ScalarsDescribed(c, descriptors)
    requires forall m | m in c.q.metricNames && IsHistogram(c.q, m) ::
               m in histogramDesc && histogramDesc[m] == HistogramDescs(c.q, c.constLabels, m)
    modifies buffer
    ensures buffer' == buffer || fresh(buffer')
    ensures size <= buffer'.Length
    ensures ok <==> Scannable(c, rows) && !iterationError && GroupsOk(c, rows)
    ensures ok ==> buffer'[..size] == Scalars(c, rows) + Histograms(c, rows, |c.q.metricNames|)
  {
    hide Configured, Scannable, GroupsOk, Scalars, Histograms, Accumulated;
    var histograms;
    ok, buffer', size, histograms := ScanRows(c, descriptors, rows, buffer);
    if !ok {
      return;
    }
    if iterationError {
      return false, buffer', size;
    }
    ok, buffer', size := EmitHistograms(c, histogramDesc, histograms, buffer', size, rows);
  }
}

/** What publication makes of a reply, told from the raw data of its rows. */
module PublicationLaws {
  import opened Core
  import opened Casting
  import opened Histogram
  import opened Schema
  import opened Snapshot
  import opened SnapshotLaws

  /** Column k is the last of its name. */
  predicate LastOf(columns: seq<string>, k: int, name: string) {
    0 <= k < |columns| && columns[k] == name && forall l | k < l < |columns| :: columns[l] != name
  }

  lemma FieldIsLast(columns: seq<string>, data: seq<Datum>, name: string, k: int)
    requires |data| == |columns| && LastOf(columns, k, name)
    ensures name in columns && Field(columns, data, name) == data[k]
  {
  }

  /* ---------------- labels ---------------- */

  /** Label value i of a row shows the datum of its column, and a repeated column counts with its last occurrence. */
  lemma LabelsShowData(c: Context, data: seq<Datum>, i: nat, k: int)
    requires c.Valid() && |data| == |c.columns| && i < |c.q.labelNames| && LastOf(c.columns, k, c.q.labelNames[i])
    ensures |LabelsOf(c, data)| == |c.q.labelNames| && Shows(c.env, data[k], LabelsOf(c, data)[i])
  {
    hide Configured, Shows, CastString;
    FieldIsLast(c.columns, data, c.q.labelNames[i], k);
    LabelCastShowsDatum(c.env, data[k]);
  }

  /** The text a datum carries, if it is text. */
  function TextOf(d: Datum): Option<Bytes> {
    match d case Text(s) => Some(s) case Raw(s) => Some(s) case _ => None
  }

  /** Every label column of the row carries text. */
  ghost predicate TextLabels(c: Context, data: seq<Datum>)
    requires |data| == |c.columns|
  {
    forall i, k | 0 <= i < |c.q.labelNames| && LastOf(c.columns, k, c.q.labelNames[i]) :: TextOf(data[k]).Some?
  }

  /** The label columns of the row carry exactly the texts of the tuple. */
  ghost predicate Carries(c: Context, data: seq<Datum>, t: Tuple)
    requires |data| == |c.columns|
  {
    && |t| == |c.q.labelNames|
    && forall i, k | 0 <= i < |t| && LastOf(c.columns, k, c.q.labelNames[i]) :: TextOf(data[k]) == Some(t[i])
  }

  lemma LastExists(columns: seq<string>, name: string) returns (k: int)
    requires name in columns
    ensures LastOf(columns, k, name)
  {
    k := LastIndex(columns, name);
  }

  /** A row with text labels is in group t exactly if its label columns carry the texts of t, byte for byte. */
  lemma TextRowsAreGroupedByText(c: Context, data: seq<Datum>, t: Tuple)
    requires c.Valid() && |data| == |c.columns| && TextLabels(c, data)
    ensures LabelsOf(c, data) == t <==> Carries(c, data, t)
  {
    hide Configured;
    var labels := LabelsOf(c, data);
    forall i, k | 0 <= i < |labels| && LastOf(c.columns, k, c.q.labelNames[i])
      ensures TextOf(data[k]) == Some(labels[i])
    {
      LabelsShowData(c, data, i, k);
    }
    if Carries(c, data, t) {
      forall i | 0 <= i < |t| ensures labels[i] == t[i] {
        var k := LastExists(c.columns, c.q.labelNames[i]);
      }
      assert labels == t;
    }
  }

  /** Two rows with text labels share a group exactly if all their label texts are equal. */
  lemma TextRowsShareAGroupIff(c: Context, data: seq<Datum>, data': seq<Datum>)
    requires c.Valid() && |data| == |c.columns| == |data'| && TextLabels(c, data) && TextLabels(c, data')
    ensures LabelsOf(c, data) == LabelsOf(c, data') <==>
              forall i, k | 0 <= i < |c.q.labelNames| && LastOf(c.columns, k, c.q.labelNames[i]) ::
                TextOf(data[k]) == TextOf(data'[k])
  {
    hide Configured, LastOf;
    var t := LabelsOf(c, data');
    TextRowsAreGroupedByText(c, data, t);
    TextRowsAreGroupedByText(c, data', t);
  }

  /** Rows of a column whose label texts are those of t and whose present value is at most the bound. */
  ghost predicate CarriesAtMost(c: Context, m: string, t: Tuple, bound: real, r: Scanned)
    requires IsHistogramColumn(c, m)
  {
    && IsRow(c, r) && Carries(c, r.data, t)
    && ObservationOf(c, m, r.data).Present? && ObservationOf(c, m, r.data).v <= bound
  }

  /** With text labels, what the series of group t count are the rows that carry the texts of t. */
  lemma SeriesCountTextRows(c: Context, m: string, rows: seq<Scanned>, t: Tuple, bound: real)
    requires IsHistogramColumn(c, m)
    requires forall r | r in rows && IsRow(c, r) :: TextLabels(c, r.data)
    ensures RowsAtMost(c, m, rows, t, bound) == set i | 0 <= i < |rows| && CarriesAtMost(c, m, t, bound, rows[i])
  {
    hide Configured, TextLabels, Carries;
    forall i | 0 <= i < |rows|
      ensures ObservesAtMost(c, m, t, bound, rows[i]) <==> CarriesAtMost(c, m, t, bound, rows[i])
    {
      if IsRow(c, rows[i]) {
        assert rows[i] in rows;
        TextRowsAreGroupedByText(c, rows[i].data, t);
      }
    }
  }

  /* ---------------- names ---------------- */

  /** A family is named after the query and the column as it is shown; histograms add the generated suffixes and le. */
  lemma FamiliesAreNamed(c: Context, m: string)
    requires c.Valid() && m in c.q.metricNames
    ensures var column := c.q.columns[m];
            var base := c.q.name + "_" + (if column.rename == "" then column.name else column.rename);
            var d, h := ScalarDesc(c.q, c.constLabels, m), HistogramDescs(c.q, c.constLabels, m);
            && d == Desc(base, d.variableLabels, c.constLabels)
            && h.bucket == Desc(base + "_bucket", d.variableLabels + ["le"], c.constLabels)
            && h.count == Desc(base + "_count", d.variableLabels, c.constLabels)
            && h.sum == Desc(base + "_sum", d.variableLabels, c.constLabels)
            && |d.variableLabels| == |c.q.labelNames|
            && forall i | 0 <= i < |c.q.labelNames| ::
                 var l := c.q.columns[c.q.labelNames[i]];
                 d.variableLabels[i] == if l.rename == "" then l.name else l.rename
  {
  }

  /* ---------------- scalar samples ---------------- */

  /** The scalar columns among the first n metric columns that the result carries, in configured order. */
  ghost function ScalarColumns(c: Context, n: nat): seq<string>
    requires n <= |c.q.metricNames|
  {
    if n == 0 then []
    else
      var m := c.q.metricNames[n - 1];
      ScalarColumns(c, n - 1) + (if !IsHistogram(c.q, m) && m in c.columns then [m] else [])
  }

  /** The sample of one scalar column of a row. */
  ghost predicate SampleOfCell(c: Context, m: string, data: seq<Datum>, x: Metric)
    requires c.Valid() && m in c.q.metricNames && |data| == |c.columns|
  {
    && x.desc == ScalarDesc(c.q, c.constLabels, m) && x.labels == LabelsOf(c, data)
    && (x.kind == CounterValue <==> c.q.columns[m].usage == Usage.Counter)
    && forall k | LastOf(c.columns, k, m) :: x.value == CastFloat(c.env, data[k], c.q.columns[m])
  }

  lemma CellHasSample(c: Context, m: string, data: seq<Datum>)
    requires c.Valid() && m in c.q.metricNames && |data| == |c.columns|
    requires !IsHistogram(c.q, m) && m in c.columns
    ensures |ScalarOf(c, m, data)| == 1 && SampleOfCell(c, m, data, ScalarOf(c, m, data)[0])
  {
    hide CastFloat;
    forall k | LastOf(c.columns, k, m)
      ensures ScalarOf(c, m, data)[0].value == CastFloat(c.env, data[k], c.q.columns[m])
    {
      FieldIsLast(c.columns, data, m, k);
    }
  }

  lemma {:induction false} RowScalarsByColumn(c: Context, data: seq<Datum>, n: nat)
    requires c.Valid() && n <= |c.q.metricNames| && |data| == |c.columns|
    ensures |RowScalars(c, data, n)| == |ScalarColumns(c, n)|
    ensures forall j | 0 <= j < |ScalarColumns(c, n)| ::
              && ScalarColumns(c, n)[j] in c.q.metricNames
              && SampleOfCell(c, ScalarColumns(c, n)[j], data, RowScalars(c, data, n)[j])
  {
    hide Configured, ScalarOf, SampleOfCell;
    if n > 0 {
      RowScalarsByColumn(c, data, n - 1);
      var m := c.q.metricNames[n - 1];
      if !IsHistogram(c.q, m) && m in c.columns {
        CellHasSample(c, m, data);
      } else {
        NoScalarOf(c, m, data);
      }
    }
  }

  lemma NoScalarOf(c: Context, m: string, data: seq<Datum>)
    requires c.Valid() && m in c.q.metricNames && |data| == |c.columns|
    requires IsHistogram(c.q, m) || m !in c.columns
    ensures ScalarOf(c, m, data) == []
  {
  }

  /** Scalar samples come row by row, one for each scalar column of the result in configured order. */
  lemma {:induction false} ScalarsAreRowMajor(c: Context, rows: seq<Scanned>, i: nat, j: nat)
    requires c.Valid() && (forall r | r in rows :: IsRow(c, r)) && i < |rows|
    requires j < |ScalarColumns(c, |c.q.metricNames|)|
    ensures var columns, before := ScalarColumns(c, |c.q.metricNames|), |Scalars(c, rows[..i])|;
            && columns[j] in c.q.metricNames && before + |columns| <= |Scalars(c, rows)|
            && IsRow(c, rows[i]) && SampleOfCell(c, columns[j], rows[i].data, Scalars(c, rows)[before + j])
  {
    hide Configured, RowScalars, ScalarColumns, SampleOfCell, Scalars;
    var n := |rows| - 1;
    var init, r := rows[..n], rows[n];
    assert r in rows && rows[i] in rows && forall x | x in init :: x in rows;
    ScalarsOneMore(c, rows);
    RowScalarsByColumn(c, r.data, |c.q.metricNames|);
    if i < n {
      ScalarsAreRowMajor(c, init, i, j);
      assert init[..i] == rows[..i];
    }
  }

  lemma ScalarsOneMore(c: Context, rows: seq<Scanned>)
    requires c.Valid() && rows != [] && IsRow(c, rows[|rows| - 1])
    ensures Scalars(c, rows)
            == Scalars(c, rows[..|rows| - 1]) + RowScalars(c, rows[|rows| - 1].data, |c.q.metricNames|)
  {
    hide Configured;
  }

  /** Every row contributes as many samples as there are scalar columns. */
  lemma {:induction false} ScalarsHaveWidth(c: Context, rows: seq<Scanned>)
    requires c.Valid() && forall r | r in rows :: IsRow(c, r)
    ensures |Scalars(c, rows)| == |rows| * |ScalarColumns(c, |c.q.metricNames|)|
  {
    hide Configured, RowScalars, ScalarColumns;
    if rows != [] {
      var init, r := rows[..|rows| - 1], rows[|rows| - 1];
      assert r in rows && forall x | x in init :: x in rows;
      ScalarsHaveWidth(c, init);
      RowScalarsByColumn(c, r.data, |c.q.metricNames|);
      OneMoreTimes(|init|, |ScalarColumns(c, |c.q.metricNames|)|);
    }
  }

  lemma OneMoreTimes(n: nat, width: nat)
    ensures (n + 1) * width == n * width + width
  {
  }

  /* ---------------- order of the histogram columns ---------------- */

  /** The sections of the columns follow each other in configured order. */
  lemma {:induction false} HistogramsFollowConfiguration(c: Context, rows: seq<Scanned>, i: nat, n: nat)
    requires c.Valid() && i < n <= |c.q.metricNames|
    ensures var m, before := c.q.metricNames[i], Histograms(c, rows, i);
            before + (if IsHistogram(c.q, m) then ColumnSeries(c, m, rows) else []) <= Histograms(c, rows, n)
    decreases n
  {
    hide Configured, ColumnSeries;
    if i < n - 1 {
      HistogramsFollowConfiguration(c, rows, i, n - 1);
    }
  }

  /* ---------------- exactly when a refresh fails ---------------- */

  /** Some column that every result must carry is missing. */
  ghost predicate LacksColumn(q: Query, columns: seq<string>) {
    || (exists l | l in q.labelNames :: l !in columns)
    || (exists m | m in q.metricNames && IsHistogram(q, m) :: m !in columns)
  }

  /** The cell of a histogram column is neither absent nor a finite number. */
  ghost predicate BadCell(c: Context, m: string, data: seq<Datum>)
    requires IsHistogramColumn(c, m) && |data| == |c.columns|
  {
    exists k | LastOf(c.columns, k, m) ::
      && !(data[k].Null? && c.q.columns[m].default.None?)
      && !CastFloat(c.env, data[k], c.q.columns[m]).Fin?
  }

  /** The row would be published: it has a scalar column, or a present observation. */
  ghost predicate Shown(c: Context, data: seq<Datum>)
    requires c.Valid() && |data| == |c.columns|
  {
    || (exists m | m in c.q.metricNames && !IsHistogram(c.q, m) :: m in c.columns)
    || (exists m | m in c.q.metricNames && IsHistogram(c.q, m) :: ObservationOf(c, m, data).Present?)
  }

  ghost predicate BadRow(c: Context, r: Scanned)
    requires c.Valid()
  {
    || !IsRow(c, r)
    || (exists m | m in c.q.metricNames && IsHistogram(c.q, m) :: BadCell(c, m, r.data))
    || (Shown(c, r.data) && exists l | l in LabelsOf(c, r.data) :: !c.env.validText(l))
  }

  /** The running sum of some group of some column leaves the float64 range. */
  ghost predicate SumOverflows(c: Context, rows: seq<Scanned>)
    requires c.Valid()
  {
    exists m, n, t | m in c.q.metricNames && IsHistogram(c.q, m) && 0 <= n <= |Observations(c, m, rows)| ::
      !Representable(Total(ValuesOf(Observations(c, m, rows)[..n], t)))
  }

  /**
   A refresh fails exactly if the query fails, the iteration breaks off, a needed column is missing, some row cannot
   be used, or some running sum overflows.
   */
  lemma RefreshFailsIff(env: Env, q: Query, constLabels: map<string, Bytes>, reply: Reply)
    requires Configured(env, q, constLabels)
    ensures var c := Context(env, q, constLabels, if reply.ResultSet? then reply.columns else []);
            !Publishable(env, q, constLabels, reply) <==>
              || !reply.ResultSet? || reply.iterationError || LacksColumn(q, reply.columns)
              || (exists r | r in reply.rows :: BadRow(c, r))
              || SumOverflows(c, reply.rows)
  {
    hide Configured, BadRow, SumOverflows, RowsOk, SumsOk, GroupsOk;
    if reply.ResultSet? && !LacksColumn(q, reply.columns) {
      var c := Context(env, q, constLabels, reply.columns);
      RowsAreUsableIff(c, reply.rows);
      SumsAreOkIff(c, reply.rows);
    }
  }

  lemma SumsAreOkIff(c: Context, rows: seq<Scanned>)
    requires c.Valid()
    ensures SumsOk(c, rows) <==> !SumOverflows(c, rows)
  {
    hide Configured, Representable, Total, ValuesOf, Observations;
  }

  lemma RowsAreUsableIff(c: Context, rows: seq<Scanned>)
    requires c.Valid()
    ensures RowsOk(c, rows) && GroupsOk(c, rows) <==> !exists r | r in rows :: BadRow(c, r)
  {
    hide Configured, RowOk, BadRow, Observations, Tuples;
    forall r | r in rows ensures !BadRow(c, r) <==> RowOk(c, r) && TextsOfRow(c, r) {
      RowIsUsableIff(c, r);
    }
    if RowsOk(c, rows) {
      TextsAreOkIff(c, rows);
    }
  }

  /** The labels of a row with a present observation are valid text. */
  ghost predicate TextsOfRow(c: Context, r: Scanned)
    requires c.Valid()
  {
    forall m | m in c.q.metricNames && IsHistogram(c.q, m) && IsRow(c, r) && ObservationOf(c, m, r.data).Present? ::
      ValidTexts(c.env, LabelsOf(c, r.data))
  }

  lemma RowIsUsableIff(c: Context, r: Scanned)
    requires c.Valid()
    ensures !BadRow(c, r) <==> RowOk(c, r) && TextsOfRow(c, r)
  {
    hide Configured, LastOf, ObservationOf, LabelsOf;
    if IsRow(c, r) {
      forall m | m in c.q.metricNames && IsHistogram(c.q, m)
        ensures BadCell(c, m, r.data) <==> ObservationOf(c, m, r.data).Invalid?
      {
        BadCellIff(c, m, r.data);
      }
    }
  }

  lemma BadCellIff(c: Context, m: string, data: seq<Datum>)
    requires IsHistogramColumn(c, m) && |data| == |c.columns|
    ensures BadCell(c, m, data) <==> ObservationOf(c, m, data).Invalid?
  {
    hide Configured, CastFloat, CastHistogram;
    var k := LastExists(c.columns, m);
    FieldIsLast(c.columns, data, m, k);
    HistogramCastMirrorsScalarCast(c.env, data[k], c.q.columns[m]);
    forall l | LastOf(c.columns, l, m) ensures data[l] == data[k] {
      FieldIsLast(c.columns, data, m, l);
    }
  }

  lemma TextsAreOkIff(c: Context, rows: seq<Scanned>)
    requires c.Valid()
    ensures GroupsOk(c, rows) <==> forall r | r in rows :: TextsOfRow(c, r)
  {
    hide Configured, Observations, Tuples, LabelsOf, ObservationOf, ValidTexts;
    forall m, t | m in c.q.metricNames && IsHistogram(c.q, m)
      ensures t in Tuples(Observations(c, m, rows)) <==> exists i :: 0 <= i < |rows| && Observes(c, m, t, rows[i])
    {
      GroupExistsIffObserved(c, m, rows, t);
    }
    if GroupsOk(c, rows) {
      forall r, m | r in rows && m in c.q.metricNames && IsHistogram(c.q, m) && IsRow(c, r)
                    && ObservationOf(c, m, r.data).Present?
        ensures ValidTexts(c.env, LabelsOf(c, r.data))
      {
        var i :| 0 <= i < |rows| && rows[i] == r;
        assert Observes(c, m, LabelsOf(c, r.data), rows[i]);
      }
    }
    if forall r | r in rows :: TextsOfRow(c, r) {
      forall m, t | m in c.q.metricNames && IsHistogram(c.q, m) && t in Tuples(Observations(c, m, rows))
        ensures ValidTexts(c.env, t)
      {
        var i :| 0 <= i < |rows| && Observes(c, m, t, rows[i]);
        assert TextsOfRow(c, rows[i]);
      }
    }
  }
}

/**
 Turning one result set into metrics: the row scan into a recycled buffer and into accumulators, and the
 emission of histogram sections. Proved against the specification of Snapshot.
 */
module Scan {
  import opened Core
  import opened Casting
  import opened Histogram
  import opened LabelKey
  import opened Schema
  import opened Snapshot

  /* ---------------- the recycled slice ---------------- */

  /** Appends to the slice holding the first `size` elements of `buffer`, reusing its backing array if there is room. */
  method Append(buffer: array<Metric>, size: nat, metric: Metric) returns (buffer': array<Metric>)
    requires size <= buffer.Length
    modifies buffer
    ensures buffer' == buffer || fresh(buffer')
    ensures size < buffer'.Length
    ensures buffer'[..size + 1] == old(buffer[..size]) + [metric]
  {
    if size < buffer.Length {
      buffer[size] := metric;
      return buffer;
    }
    buffer' := new Metric[2 * size + 1](_ => metric);
    forall i | 0 <= i < size {
      buffer'[i] := buffer[i];
    }
  }

  method AppendAll(buffer: array<Metric>, size: nat, metrics: seq<Metric>) returns (buffer': array<Metric>, size': nat)
    requires size <= buffer.Length
    modifies buffer
    ensures buffer' == buffer || fresh(buffer')
    ensures size' <= buffer'.Length
    ensures buffer'[..size'] == old(buffer[..size]) + metrics
  {
    buffer' := buffer;
    for i := 0 to |metrics|
      invariant buffer' == buffer || fresh(buffer')
      invariant size + i <= buffer'.Length
      invariant buffer'[..size + i] == old(buffer[..size]) + metrics[..i]
    {
      buffer' := Append(buffer', size + i, metrics[i]);
    }
    size' := size + |metrics|;
    assert metrics[..|metrics|] == metrics;
  }

  /* ---------------- columns ---------------- */

  ghost predicate Indexes(columns: seq<string>, indexes: map<string, nat>) {
    && (forall n :: n in indexes <==> n in columns)
    && (forall n | n in indexes :: indexes[n] == LastIndex(columns, n))
  }

  method IndexColumns(columns: seq<string>) returns (indexes: map<string, nat>)
    ensures Indexes(columns, indexes)
  {
    indexes := map[];
    for i := 0 to |columns|
      invariant Indexes(columns[..i], indexes)
    {
      indexes := indexes[columns[i] := i];
      assert columns[..i + 1] == columns[..i] + [columns[i]];
    }
    assert columns[..|columns|] == columns;
  }

  method RowLabels(c: Context, indexes: map<string, nat>, data: seq<Datum>) returns (labels: Tuple)
    requires c.Valid() && Indexes(c.columns, indexes) && |data| == |c.columns|
    ensures labels == LabelsOf(c, data)
  {
    labels := [];
    for i := 0 to |c.q.labelNames|
      invariant labels == LabelsOf(c, data)[..i]
    {
      labels := labels + [CastString(c.env, data[indexes[c.q.labelNames[i]]])];
    }
  }

  /* ---------------- accumulators of all columns ---------------- */

  type Groups = map<Bytes, Accumulator>

  /** The accumulators of one histogram column; a column without observations has none. */
  function GroupsOf(histograms: map<string, Groups>, m: string): Groups {
    if m in histograms then histograms[m] else map[]
  }

  ghost predicate Accumulates(c: Context, m: string, histograms: map<string, Groups>, rows: seq<Scanned>)
    requires c.Valid() && m in c.q.metricNames && IsHistogram(c.q, m)
  {
    Represents(GroupsOf(histograms, m), c.q.columns[m].Bounds(), Observations(c, m, rows))
  }

  /** Part-way through a row: the first n metric columns have seen `after`, the others `before`. */
  ghost predicate Accumulated(c: Context, histograms: map<string, Groups>, before: seq<Scanned>,
      after: seq<Scanned>, n: nat)
    requires c.Valid() && n <= |c.q.metricNames|
  {
    forall i | 0 <= i < |c.q.metricNames| && IsHistogram(c.q, c.q.metricNames[i]) ::
      Accumulates(c, c.q.metricNames[i], histograms, if i < n then after else before)
  }

  /** The running sum that the last row of `rows` updates in column m stays finite. */
  ghost predicate LastSumOk(c: Context, m: string, rows: seq<Scanned>)
    requires c.Valid() && m in c.q.metricNames && IsHistogram(c.q, m) && rows != [] && IsRow(c, rows[|rows| - 1])
  {
    var data := rows[|rows| - 1].data;
    ObservationOf(c, m, data).Present? ==>
      Representable(Total(ValuesOf(Observations(c, m, rows), LabelsOf(c, data))))
  }

  lemma ObservationsOfExtension(c: Context, m: string, rows: seq<Scanned>, r: Scanned)
    requires c.Valid() && m in c.q.metricNames && IsHistogram(c.q, m)
    ensures Observations(c, m, rows + [r]) == Observations(c, m, rows) + SampleOf(c, m, r)
  {
  }

  /** Feeds one histogram cell to its column's accumulators. */
  method ScanHistogram(c: Context, m: string, datum: Datum, labels: Tuple, histograms: map<string, Groups>,
                       ghost rows: seq<Scanned>, ghost data: seq<Datum>)
    returns (ok: bool, histograms': map<string, Groups>)
    requires c.Valid() && m in c.q.metricNames && IsHistogram(c.q, m) && |data| == |c.columns|
    requires datum == Field(c.columns, data, m) && labels == LabelsOf(c, data)
    requires Accumulates(c, m, histograms, rows)
    ensures ok <==> CellOk(c, m, data) && LastSumOk(c, m, rows + [Row(data)])
    ensures ok ==> Accumulates(c, m, histograms', rows + [Row(data)])
    ensures ok ==> forall x | x != m :: GroupsOf(histograms', x) == GroupsOf(histograms, x)
  {
    hide Configured, Represents, LabelsOf, CastHistogram, CellOk, LastSumOk, Observations;
    var column := c.q.columns[m];
    var observation := CastHistogram(c.env, datum, column);
    CellOutcome(c, m, rows, data);
    match observation {
      case Invalid =>
        return false, histograms;
      case Absent =>
        return true, histograms;
      case Present(value) =>
        ColumnBounds(c, m);
        var fine, groups := Observe(GroupsOf(histograms, m), column.Bounds(), labels, value, Observations(c, m, rows));
        return fine, histograms[m := groups];
    }
  }

  /** What one histogram cell does to its column's observations and to whether the row is fine. */
  lemma CellOutcome(c: Context, m: string, rows: seq<Scanned>, data: seq<Datum>)
    requires c.Valid() && m in c.q.metricNames && IsHistogram(c.q, m) && |data| == |c.columns|
    ensures var before, after := Observations(c, m, rows), Observations(c, m, rows + [Row(data)]);
            match ObservationOf(c, m, data)
            case Invalid => !CellOk(c, m, data)
            case Absent => CellOk(c, m, data) && LastSumOk(c, m, rows + [Row(data)]) && after == before
            case Present(v) =>
              && CellOk(c, m, data)
              && after == before + [Sample(LabelsOf(c, data), v)]
              && (LastSumOk(c, m, rows + [Row(data)]) <==> Representable(Total(ValuesOf(after, LabelsOf(c, data)))))
  {
  }

  lemma ColumnBounds(c: Context, m: string)
    requires c.Valid() && m in c.q.metricNames && IsHistogram(c.q, m)
    ensures Increasing(c.q.columns[m].Bounds())
  {
  }

  ghost predicate ScalarsDescribed(c: Context, descriptors: map<string, Desc>)
    requires c.Valid()
  {
    forall m | m in c.q.metricNames && !IsHistogram(c.q, m) ::
      m in descriptors && descriptors[m] == ScalarDesc(c.q, c.constLabels, m)
  }

  /** Turns one scalar cell into a sample at the end of the slice. */
  method ScanScalar(c: Context, descriptors: map<string, Desc>, m: string, datum: Datum, labels: Tuple,
                    buffer: array<Metric>, size: nat, ghost data: seq<Datum>)
    returns (ok: bool, buffer': array<Metric>, size': nat)
    requires c.Valid() && m in c.q.metricNames && !IsHistogram(c.q, m) && m in c.columns && |data| == |c.columns|
    requires datum == Field(c.columns, data, m) && labels == LabelsOf(c, data)
    requires ScalarsDescribed(c, descriptors)
    requires size <= buffer.Length
    modifies buffer
    ensures buffer' == buffer || fresh(buffer')
    ensures ok <==> CellOk(c, m, data)
    ensures size' <= buffer'.Length
    ensures ok ==> buffer'[..size'] == old(buffer[..size]) + ScalarOf(c, m, data)
  {
    var column := c.q.columns[m];
    AcceptedDescriptorsAreValid(c.env, c.q, c.constLabels, m);
    var metric := NewConstMetric(c.env, descriptors[m], KindOf(column.usage), CastFloat(c.env, datum, column), labels);
    if metric.None? {
      return false, buffer, size;
    }
    ok := true;
    buffer' := Append(buffer, size, metric.value);
    size' := size + 1;
  }

  /** Column m of the last row of `rows` is fine: castable, and its running sum stays finite. */
  ghost predicate CellFine(c: Context, m: string, rows: seq<Scanned>)
    requires c.Valid() && m in c.q.metricNames && rows != [] && IsRow(c, rows[|rows| - 1])
  {
    CellOk(c, m, rows[|rows| - 1].data) && (IsHistogram(c.q, m) ==> LastSumOk(c, m, rows))
  }

  /** The first n metric columns of the last row are fine. */
  ghost predicate CellsFine(c: Context, rows: seq<Scanned>, n: nat)
    requires c.Valid() && n <= |c.q.metricNames| && rows != [] && IsRow(c, rows[|rows| - 1])
  {
    forall i | 0 <= i < n :: CellFine(c, c.q.metricNames[i], rows)
  }

  /** Scans one cell: a scalar goes to the buffer, an observation to its column's accumulators. */
  method ScanCell(c: Context, descriptors: map<string, Desc>, indexes: map<string, nat>, data: seq<Datum>,
                  labels: Tuple,
                  buffer: array<Metric>, size: nat, histograms: map<string, Groups>, ghost rows: seq<Scanned>, j: nat)
    returns (ok: bool, buffer': array<Metric>, size': nat, histograms': map<string, Groups>)
    requires c.Valid() && Indexes(c.columns, indexes) && |data| == |c.columns| && j < |c.q.metricNames|
    requires ScalarsDescribed(c, descriptors) && labels == LabelsOf(c, data)
    requires size <= buffer.Length
    requires Accumulated(c, histograms, rows, rows + [Row(data)], j)
    modifies buffer
    ensures buffer' == buffer || fresh(buffer')
    ensures ok <==> CellFine(c, c.q.metricNames[j], rows + [Row(data)])
    ensures size' <= buffer'.Length
    ensures ok ==> buffer'[..size'] == old(buffer[..size]) + ScalarOf(c, c.q.metricNames[j], data)
    ensures ok ==> Accumulated(c, histograms', rows, rows + [Row(data)], j + 1)
  {
    hide Configured, Accumulates, LastSumOk;
    ScanFacts(c);
    buffer', size', histograms' := buffer, size, histograms;
    var m := c.q.metricNames[j];
    if m in indexes {
      var datum := data[indexes[m]];
      if c.q.columns[m].IsHistogram() {
        ok, histograms' := ScanHistogram(c, m, datum, labels, histograms, rows, data);
        if ok {
          StepAccumulated(c, histograms, histograms', rows, rows + [Row(data)], j);
        }
      } else {
        ok, buffer', size' := ScanScalar(c, descriptors, m, datum, labels, buffer, size, data);
      }
    } else {
      MissingScalarsAreSkipped(c, m, data);
      ok := true;
    }
  }

  lemma ScanFacts(c: Context)
    requires c.Valid()
    ensures NoDuplicates(c.q.metricNames)
    ensures forall m | m in c.q.metricNames :: m in c.q.columns
  {
  }

  /** Scans one row: scalar samples go to the buffer, observations to the accumulators. */
  method ScanRow(c: Context, descriptors: map<string, Desc>, indexes: map<string, nat>, data: seq<Datum>,
                 buffer: array<Metric>, size: nat, histograms: map<string, Groups>, ghost rows: seq<Scanned>)
    returns (ok: bool, buffer': array<Metric>, size': nat, histograms': map<string, Groups>)
    requires c.Valid() && Indexes(c.columns, indexes) && |data| == |c.columns|
    requires ScalarsDescribed(c, descriptors)
    requires size <= buffer.Length
    requires Accumulated(c, histograms, rows, rows + [Row(data)], 0)
    modifies buffer
    ensures buffer' == buffer || fresh(buffer')
    ensures size' <= buffer'.Length
    ensures ok <==> CellsFine(c, rows + [Row(data)], |c.q.metricNames|)
    ensures ok ==> buffer'[..size'] == old(buffer[..size]) + RowScalars(c, data, |c.q.metricNames|)
    ensures ok ==> Accumulated(c, histograms', rows, rows + [Row(data)], |c.q.metricNames|)
  {
    hide Configured, Accumulates, Accumulated, CellFine, ScalarOf, ScalarsDescribed, LabelsOf;
    buffer', size', histograms' := buffer, size, histograms;
    var labels := RowLabels(c, indexes, data);
    ok := true;
    var j := 0;
    while j < |c.q.metricNames| && ok
      invariant j <= |c.q.metricNames|
      invariant buffer' == buffer || fresh(buffer')
      invariant size' <= buffer'.Length
      invariant ok ==> CellsFine(c, rows + [Row(data)], j)
      invariant !ok ==> !CellsFine(c, rows + [Row(data)], |c.q.metricNames|)
      invariant ok ==> buffer'[..size'] == old(buffer[..size]) + RowScalars(c, data, j)
      invariant ok ==> Accumulated(c, histograms', rows, rows + [Row(data)], j)
    {
      ok, buffer', size', histograms' :=
        ScanCell(c, descriptors, indexes, data, labels, buffer', size', histograms', rows, j);
      j := j + 1;
    }
  }

  lemma MissingScalarsAreSkipped(c: Context, m: string, data: seq<Datum>)
    requires c.Valid() && m in c.q.metricNames && |data| == |c.columns| && m !in c.columns
    ensures !IsHistogram(c.q, m) && ScalarOf(c, m, data) == [] && CellOk(c, m, data)
  {
  }

  lemma StepAccumulated(c: Context, histograms: map<string, Groups>, next: map<string, Groups>,
                        before: seq<Scanned>, after: seq<Scanned>, j: nat)
    requires c.Valid() && j < |c.q.metricNames|
    requires Accumulated(c, histograms, before, after, j)
    requires IsHistogram(c.q, c.q.metricNames[j]) && Accumulates(c, c.q.metricNames[j], next, after)
    requires forall x | x != c.q.metricNames[j] :: GroupsOf(next, x) == GroupsOf(histograms, x)
    ensures Accumulated(c, next, before, after, j + 1)
  {
    hide Configured, Represents;
    ScanFacts(c);
    assert forall i | 0 <= i < |c.q.metricNames| && i != j :: c.q.metricNames[i] != c.q.metricNames[j];
  }
}

/**
 The specification of one query execution: when a result set may be published at all, and the complete
 sequence of metrics it then becomes.
 */
module Snapshot {
  import opened Core
  import opened Casting
  import opened Histogram
  import opened LabelKey
  import opened Schema

  /** One step of row iteration. */
  datatype Scanned = Row(data: seq<Datum>) | ScanError

  /** What the database answers to the main query. */
  datatype Reply =
    | QueryError
    | MetadataError
    | ResultSet(columns: seq<string>, rows: seq<Scanned>, iterationError: bool)
  {
    /** database/sql scans exactly one datum per column. */
    ghost predicate WellFormed() {
      ResultSet? ==> forall r | r in rows && r.Row? :: |r.data| == |columns|
    }
  }

  /** A query bound to its server's constant labels and to the columns of one result set. */
  datatype Context = Context(env: Env, q: Query, constLabels: map<string, Bytes>, columns: seq<string>) {
    ghost predicate Valid() {
      && Configured(env, q, constLabels)
      && (forall l | l in q.labelNames :: l in columns)
      && (forall m | m in q.metricNames && IsHistogram(q, m) :: m in columns)
    }
  }

  /** The query and the constant labels have passed validation. */
  ghost predicate Configured(env: Env, q: Query, constLabels: map<string, Bytes>) {
    && env.Valid()
    && Accepted(env, q)
    && NoConflict(constLabels, q)
    && (forall l | l in constLabels :: env.validLabelName(l))
  }

  /** The last position of a column name: a later duplicate overwrites an earlier one. */
  function LastIndex(columns: seq<string>, name: string): (i: nat)
    requires name in columns
    ensures i < |columns| && columns[i] == name && forall k | i < k < |columns| :: columns[k] != name
  {
    if columns[|columns| - 1] == name then |columns| - 1
    else
      assert columns == columns[..|columns| - 1] + [columns[|columns| - 1]];
      LastIndex(columns[..|columns| - 1], name)
  }

  function Field(columns: seq<string>, data: seq<Datum>, name: string): Datum
    requires name in columns && |data| == |columns|
  {
    data[LastIndex(columns, name)]
  }

  /** A row that the context can interpret. */
  ghost predicate IsRow(c: Context, r: Scanned) {
    r.Row? && |r.data| == |c.columns|
  }

  ghost function LabelsOf(c: Context, data: seq<Datum>): Tuple
    requires c.Valid() && |data| == |c.columns|
  {
    seq(|c.q.labelNames|, i requires 0 <= i < |c.q.labelNames| =>
      CastString(c.env, Field(c.columns, data, c.q.labelNames[i])))
  }

  /* ---------------- histogram columns ---------------- */

  ghost function ObservationOf(c: Context, m: string, data: seq<Datum>): Observation
    requires c.Valid() && m in c.q.metricNames && IsHistogram(c.q, m) && |data| == |c.columns|
  {
    CastHistogram(c.env, Field(c.columns, data, m), c.q.columns[m])
  }

  ghost function SampleOf(c: Context, m: string, r: Scanned): seq<Sample>
    requires c.Valid() && m in c.q.metricNames && IsHistogram(c.q, m)
  {
    if IsRow(c, r) && ObservationOf(c, m, r.data).Present?
    then [Sample(LabelsOf(c, r.data), ObservationOf(c, m, r.data).v)]
    else []
  }

  /** The observations of one histogram column, in row order. */
  ghost function Observations(c: Context, m: string, rows: seq<Scanned>): seq<Sample>
    requires c.Valid() && m in c.q.metricNames && IsHistogram(c.q, m)
  {
    if rows == [] then []
    else Observations(c, m, rows[..|rows| - 1]) + SampleOf(c, m, rows[|rows| - 1])
  }

  ghost function ColumnSeries(c: Context, m: string, rows: seq<Scanned>): seq<Metric>
    requires c.Valid() && m in c.q.metricNames && IsHistogram(c.q, m)
  {
    HistogramSeries(c.env, HistogramDescs(c.q, c.constLabels, m), c.q.columns[m].Bounds(), Observations(c, m, rows))
  }

  /** All histogram samples of a result set, over the first n metric columns in configured order. */
  ghost function Histograms(c: Context, rows: seq<Scanned>, n: nat): seq<Metric>
    requires c.Valid() && n <= |c.q.metricNames|
  {
    if n == 0 then []
    else
      var m := c.q.metricNames[n - 1];
      Histograms(c, rows, n - 1) + (if IsHistogram(c.q, m) then ColumnSeries(c, m, rows) else [])
  }

  /* ---------------- scalar columns ---------------- */

  function KindOf(u: Usage): ValueType {
    if u.Counter? then CounterValue else GaugeValue
  }

  ghost function ScalarOf(c: Context, m: string, data: seq<Datum>): seq<Metric>
    requires c.Valid() && m in c.q.metricNames && |data| == |c.columns|
  {
    if IsHistogram(c.q, m) || m !in c.columns then []
    else
      var column := c.q.columns[m];
      [Metric(ScalarDesc(c.q, c.constLabels, m), LabelsOf(c, data), KindOf(column.usage),
              CastFloat(c.env, Field(c.columns, data, m), column))]
  }

  ghost function RowScalars(c: Context, data: seq<Datum>, n: nat): seq<Metric>
    requires c.Valid() && n <= |c.q.metricNames| && |data| == |c.columns|
  {
    if n == 0 then [] else RowScalars(c, data, n - 1) + ScalarOf(c, c.q.metricNames[n - 1], data)
  }

  ghost function Scalars(c: Context, rows: seq<Scanned>): seq<Metric>
    requires c.Valid()
  {
    if rows == [] then []
    else
      var r := rows[|rows| - 1];
      Scalars(c, rows[..|rows| - 1]) + (if IsRow(c, r) then RowScalars(c, r.data, |c.q.metricNames|) else [])
  }

  /* ---------------- publication ---------------- */

  /** One metric column of one row can be turned into an observation or a sample. */
  ghost predicate CellOk(c: Context, m: string, data: seq<Datum>)
    requires c.Valid() && m in c.q.metricNames && |data| == |c.columns|
  {
    if IsHistogram(c.q, m) then !ObservationOf(c, m, data).Invalid?
    else m in c.columns ==> ValidTexts(c.env, LabelsOf(c, data))
  }

  ghost predicate RowOk(c: Context, r: Scanned)
    requires c.Valid()
  {
    IsRow(c, r) && forall m | m in c.q.metricNames :: CellOk(c, m, r.data)
  }

  ghost predicate RowsOk(c: Context, rows: seq<Scanned>)
    requires c.Valid()
  {
    forall r | r in rows :: RowOk(c, r)
  }

  /** No running sum of the column overflows. */
  ghost predicate SumsOk(c: Context, rows: seq<Scanned>)
    requires c.Valid()
  {
    forall m | m in c.q.metricNames && IsHistogram(c.q, m) :: SumsStayFinite(Observations(c, m, rows))
  }

  ghost predicate GroupsOk(c: Context, rows: seq<Scanned>)
    requires c.Valid()
  {
    forall m, t | m in c.q.metricNames && IsHistogram(c.q, m) && t in Tuples(Observations(c, m, rows)) ::
      ValidTexts(c.env, t)
  }

  /** The result set carries every label column and every histogram column. */
  ghost predicate SchemaOk(q: Query, columns: seq<string>) {
    && (forall l | l in q.labelNames :: l in columns)
    && (forall m | m in q.metricNames && IsHistogram(q, m) :: m in columns)
  }

  /** Exactly when a reply may be published. */
  ghost predicate Publishable(env: Env, q: Query, constLabels: map<string, Bytes>, reply: Reply)
    requires Configured(env, q, constLabels)
  {
    && reply.ResultSet?
    && SchemaOk(q, reply.columns)
    && !reply.iterationError
    && var c := Context(env, q, constLabels, reply.columns);
       RowsOk(c, reply.rows) && SumsOk(c, reply.rows) && GroupsOk(c, reply.rows)
  }

  /** The complete new result: scalar samples in row order, then histogram sections in configured order. */
  ghost function Published(env: Env, q: Query, constLabels: map<string, Bytes>, reply: Reply): seq<Metric>
    requires Configured(env, q, constLabels) && Publishable(env, q, constLabels, reply)
  {
    var c := Context(env, q, constLabels, reply.columns);
    Scalars(c, reply.rows) + Histograms(c, reply.rows, |q.metricNames|)
  }

  /** The outcome of the main query of a configured collector: None is an error. */
  ghost function Outcome(env: Env, q: Query, constLabels: map<string, Bytes>, reply: Reply): Option<seq<Metric>> {
    if Configured(env, q, constLabels) && Publishable(env, q, constLabels, reply)
    then Some(Published(env, q, constLabels, reply))
    else None
  }
}

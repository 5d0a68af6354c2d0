/** Writing queries as configuration: a configuration is accepted exactly if it writes an accepted query. */
module ConfigRoundTrip {
  import opened Config
  import opened Core
  import opened Schema

  /* ---------------- writing ---------------- */

  function NumberOf(f: Option<Float>): RawNumber {
    if f.Some? then Number(f.value) else Unset
  }

  /** The entry has one key and writes the column out; its name is given outright or by the key. */
  ghost predicate WritesColumn(entry: map<string, Option<RawColumn>>, c: Column) {
    exists key, name ::
      && entry == map[key := Some(RawColumn(name, Known(c.usage), c.rename, c.bucket, NumberOf(c.scale),
                                            NumberOf(c.default)))]
      && c.name == (if name != "" then name else key)
  }

  ghost predicate WritesPredicate(raw: RawPredicate, p: Predicate) {
    raw == RawPredicate(p.name, false, p.ttl)
  }

  function ColumnsIn(q: Query): seq<Column>
    requires forall n | n in q.columnNames :: n in q.columns
  {
    seq(|q.columnNames|, i requires 0 <= i < |q.columnNames| => q.columns[q.columnNames[i]])
  }

  /** The configuration of a branch says option by option what the query is; an unnamed one is named by its branch. */
  ghost predicate Writes(branch: string, raw: RawQuery, q: Query)
    requires forall n | n in q.columnNames :: n in q.columns
  {
    && q.branch == branch && q.name == (if raw.name != "" then raw.name else branch) && !raw.blankSql
    && raw.tags == q.tags && raw.ttl == q.ttl && raw.timeout == q.timeout && raw.priority == q.priority
    && raw.minVersion == q.minVersion && raw.maxVersion == q.maxVersion
    && raw.fatal == q.fatal && raw.skip == q.skip
    && |raw.predicates| == |q.predicates| && |raw.metrics| == |q.columnNames|
    && (forall i | 0 <= i < |q.predicates| :: WritesPredicate(raw.predicates[i], q.predicates[i]))
    && forall i | 0 <= i < |q.columnNames| :: WritesColumn(raw.metrics[i], ColumnsIn(q)[i])
  }

  /* ---------------- what a parsed query looks like ---------------- */

  /** The names of the first n columns whose usage is one of these, in configured order. */
  function Having(q: Query, n: nat, usages: set<Usage>): seq<string>
    requires n <= |q.columnNames| && forall m | m in q.columnNames :: m in q.columns
  {
    if n == 0 then []
    else
      var m := q.columnNames[n - 1];
      Having(q, n - 1, usages) + (if q.columns[m].usage in usages then [m] else [])
  }

  /** The columns are listed once each, and the labels and metrics are those of them that are used as such. */
  ghost predicate Arranged(q: Query) {
    && q.columns.Keys == (set n | n in q.columnNames) && NoDuplicates(q.columnNames)
    && (forall n | n in q.columns :: q.columns[n].name == n)
    && q.labelNames == Having(q, |q.columnNames|, {Usage.Label})
    && q.metricNames == Having(q, |q.columnNames|, {Gauge, Counter, Usage.Histogram})
    && q.metricNames != []
  }

  /* ---------------- reading back ---------------- */

  lemma WrittenColumnIsReadBack(entry: map<string, Option<RawColumn>>, c: Column)
    requires WritesColumn(entry, c) && (c.usage.Histogram? ==> ValidBuckets(c.bucket))
    ensures EntryOk(entry) && ColumnOfEntry(entry) == c
  {
    var key, name :|
      && entry == map[key := Some(RawColumn(name, Known(c.usage), c.rename, c.bucket, NumberOf(c.scale),
                                            NumberOf(c.default)))]
      && c.name == (if name != "" then name else key);
    assert entry.Keys == {key};
    assert |entry| == |entry.Keys|;
  }

  lemma ReadColumnIsWritten(entry: map<string, Option<RawColumn>>)
    requires EntryOk(entry)
    ensures WritesColumn(entry, ColumnOfEntry(entry))
  {
    var key :| key in entry && ColumnOfEntry(entry) == ColumnFrom(key, entry[key].value);
    forall n | n in entry ensures n == key {
      OnlyKey(entry, n, key);
    }
    var c, raw := ColumnOfEntry(entry), entry[key].value;
    assert raw == RawColumn(raw.name, Known(c.usage), c.rename, c.bucket, NumberOf(c.scale), NumberOf(c.default));
    assert entry == map[key := Some(raw)];
  }

  ghost predicate ReadBack(q: Query, n: nat, cols: seq<Column>)
    requires n <= |q.columnNames| && (forall m | m in q.columnNames :: m in q.columns)
  {
    && Names(cols) == q.columnNames[..n]
    && LabelNames(cols) == Having(q, n, {Usage.Label})
    && MetricNames(cols) == Having(q, n, {Gauge, Counter, Usage.Histogram})
    && ColumnMap(cols).Keys == (set m | m in q.columnNames[..n])
    && forall m | m in ColumnMap(cols) :: m in q.columns && ColumnMap(cols)[m] == q.columns[m]
  }

  lemma NothingIsReadBack(q: Query)
    requires forall m | m in q.columnNames :: m in q.columns
    ensures ReadBack(q, 0, ColumnsIn(q)[..0])
  {
  }

  lemma OneMoreIsReadBack(q: Query, n: nat, cols: seq<Column>)
    requires n < |q.columnNames| && (forall m | m in q.columnNames :: m in q.columns)
    requires ReadBack(q, n, cols) && q.columns[q.columnNames[n]].name == q.columnNames[n]
    ensures ReadBack(q, n + 1, cols + [q.columns[q.columnNames[n]]])
  {
    var c := q.columns[q.columnNames[n]];
    assert (cols + [c])[..|cols|] == cols;
    assert Names(cols + [c]) == Names(cols) + [c.name];
    assert q.columnNames[..n + 1] == q.columnNames[..n] + [c.name];
  }

  lemma {:induction false} ColumnsAreReadBack(q: Query, n: nat)
    requires n <= |q.columnNames| && (forall m | m in q.columnNames :: m in q.columns)
    requires forall m | m in q.columns :: q.columns[m].name == m
    ensures ReadBack(q, n, ColumnsIn(q)[..n])
  {
    hide ReadBack;
    if n == 0 {
      NothingIsReadBack(q);
    } else {
      ColumnsAreReadBack(q, n - 1);
      OneMoreIsReadBack(q, n - 1, ColumnsIn(q)[..n - 1]);
      assert ColumnsIn(q)[..n] == ColumnsIn(q)[..n - 1] + [ColumnsIn(q)[n - 1]];
    }
  }

  lemma {:induction false} HistogramsAreMetrics(q: Query, n: nat, m: string)
    requires n <= |q.columnNames| && (forall k | k in q.columnNames :: k in q.columns)
    requires m in q.columnNames[..n] && q.columns[m].usage.Histogram?
    ensures m in Having(q, n, {Gauge, Counter, Usage.Histogram})
  {
    if q.columnNames[n - 1] != m {
      assert m in q.columnNames[..n - 1];
      HistogramsAreMetrics(q, n - 1, m);
    }
  }

  lemma EntriesAreReadBack(env: Env, branch: string, raw: RawQuery, q: Query)
    requires Accepted(env, q) && Arranged(q) && Writes(branch, raw, q)
    ensures forall e | e in raw.metrics :: EntryOk(e)
    ensures ColumnsOf(raw.metrics) == ColumnsIn(q)
  {
    hide Having, EntryOk, WritesColumn, ColumnOfEntry, ValidLabels, ValidFamilies;
    forall i | 0 <= i < |raw.metrics|
      ensures EntryOk(raw.metrics[i]) && ColumnOfEntry(raw.metrics[i]) == ColumnsIn(q)[i]
    {
      var m := q.columnNames[i];
      assert m in q.columnNames && q.columnNames[..|q.columnNames|] == q.columnNames;
      if q.columns[m].usage.Histogram? {
        HistogramsAreMetrics(q, |q.columnNames|, m);
      }
      WrittenColumnIsReadBack(raw.metrics[i], q.columns[m]);
    }
  }

  /** The configuration of an accepted query is accepted, and parsed back to the query itself. */
  lemma WrittenQueriesAreReadBack(env: Env, branch: string, raw: RawQuery, q: Query)
    requires Accepted(env, q) && Arranged(q) && Writes(branch, raw, q)
    ensures Acceptable(env, branch, raw) && ParsedQuery(branch, raw) == q
  {
    hide EntryOk, WritesColumn, ColumnOfEntry, ValidLabels, ValidFamilies, Having, ColumnMap, LabelNames, MetricNames;
    hide LabelColumns, MetricColumns;
    EntriesAreReadBack(env, branch, raw, q);
    ColumnsAreReadBack(q, |q.columnNames|);
    assert ColumnsIn(q)[..|q.columnNames|] == ColumnsIn(q) && q.columnNames[..|q.columnNames|] == q.columnNames;
    assert ColumnMap(ColumnsIn(q)) == q.columns;
    PredicatesAreReadBack(raw, q);
    NoColumnsNoMetrics(q);
  }

  lemma PredicatesAreReadBack(raw: RawQuery, q: Query)
    requires |raw.predicates| == |q.predicates| && forall p | p in q.predicates :: p.ttl >= 0
    requires forall i | 0 <= i < |q.predicates| :: WritesPredicate(raw.predicates[i], q.predicates[i])
    ensures PredicatesOf(raw.predicates) == q.predicates
    ensures forall p | p in raw.predicates :: !p.blankSql && p.ttl >= 0
  {
    var ps := raw.predicates;
    forall p | p in ps ensures !p.blankSql && p.ttl >= 0 {
      var i :| 0 <= i < |ps| && ps[i] == p;
      assert q.predicates[i] in q.predicates;
    }
  }

  /** Parsing yields the query that its configuration writes. */
  lemma ParsedQueriesAreWritten(branch: string, raw: RawQuery)
    requires ShapeOk(raw)
    ensures Arranged(ParsedQuery(branch, raw)) && Writes(branch, raw, ParsedQuery(branch, raw))
  {
    hide EntryOk, ColumnOfEntry, WritesColumn, ColumnMap, LabelNames, MetricNames, Having;
    var q, cols := ParsedQuery(branch, raw), ColumnsOf(raw.metrics);
    ParsedQueriesAreArranged(branch, raw);
    ColumnMapHolds(cols);
    ColumnsOfAssembled(q, cols);
    forall i | 0 <= i < |raw.predicates| ensures WritesPredicate(raw.predicates[i], q.predicates[i]) {
      assert raw.predicates[i] in raw.predicates;
    }
    forall i | 0 <= i < |raw.metrics| ensures WritesColumn(raw.metrics[i], cols[i]) {
      assert raw.metrics[i] in raw.metrics;
      ReadColumnIsWritten(raw.metrics[i]);
    }
  }

  /**
   Parsing accepts a configuration exactly if it writes some accepted query, and that is then the query it yields: no
   option is lost, changed or mixed up, nothing malformed passes, and nothing usable is rejected.
   */
  lemma ConfigurationIsAcceptedIff(env: Env, branch: string, raw: RawQuery)
    ensures Acceptable(env, branch, raw) <==>
            exists q :: Arranged(q) && Accepted(env, q) && Writes(branch, raw, q)
    ensures forall q :: Arranged(q) && Accepted(env, q) && Writes(branch, raw, q) ==> q == ParsedQuery(branch, raw)
  {
    hide Writes, Accepted, ShapeOk, ParsedQuery, Having, NoDuplicates;
    if Acceptable(env, branch, raw) {
      ParsedQueriesAreAccepted(env, branch, raw);
      ParsedQueriesAreWritten(branch, raw);
    }
    forall q | Arranged(q) && Accepted(env, q) && Writes(branch, raw, q)
      ensures Acceptable(env, branch, raw) && q == ParsedQuery(branch, raw)
    {
      WrittenQueriesAreReadBack(env, branch, raw, q);
    }
  }

  lemma NoColumnsNoMetrics(q: Query)
    requires Arranged(q)
    ensures q.columnNames != []
  {
  }

  /** What parsing yields is arranged, so it can always be written and read back. */
  lemma ParsedQueriesAreArranged(branch: string, raw: RawQuery)
    requires ShapeOk(raw)
    ensures Arranged(ParsedQuery(branch, raw))
  {
    hide EntryOk, ColumnOfEntry, LabelNames, ColumnMap, Having;
    var q, cols := ParsedQuery(branch, raw), ColumnsOf(raw.metrics);
    ColumnMapHolds(cols);
    ColumnsOfAssembled(q, cols);
    ColumnsAreReadBack(q, |cols|);
    assert q.columnNames[..|cols|] == q.columnNames && cols[..|cols|] == cols;
  }

  lemma ColumnsOfAssembled(q: Query, cols: seq<Column>)
    requires q.columnNames == Names(cols)
    requires forall c | c in cols :: c.name in q.columns && q.columns[c.name] == c
    requires forall n :: n in q.columns <==> n in q.columnNames
    ensures ColumnsIn(q) == cols && forall n | n in q.columns :: q.columns[n].name == n
  {
    forall i | 0 <= i < |cols| ensures ColumnsIn(q)[i] == cols[i] {
      assert cols[i] in cols && q.columnNames[i] == cols[i].name;
    }
    forall n | n in q.columns ensures q.columns[n].name == n {
      var i :| 0 <= i < |cols| && q.columnNames[i] == n;
      assert cols[i] in cols;
    }
  }
}

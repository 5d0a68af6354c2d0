/** Parsing a configuration after YAML decoding: classification of columns, and acceptance of a query. */
module Config {
  import opened Clock
  import opened Core
  import opened Schema

  /* ---------------- decoded YAML ---------------- */

  /** A numeric option: absent, not a number, or a parsed number. */
  datatype RawNumber = Unset | Malformed | Number(f: Float) {
    function Parsed(): Option<Float> { if Number? then Some(f) else None }
  }

  /** A usage after trimming and upper-casing: empty, unsupported, or known. */
  datatype RawUsage = NoUsage | UnknownUsage | Known(usage: Usage)

  datatype RawColumn = RawColumn(
    name: string, usage: RawUsage, rename: string, bucket: seq<Float64>, scale: RawNumber, default: RawNumber)

  datatype RawPredicate = RawPredicate(name: string, blankSql: bool, ttl: Duration)

  /** A null YAML value is None; times to live are in nanoseconds. */
  datatype RawQuery = RawQuery(
    name: string, blankSql: bool, predicates: seq<RawPredicate>, tags: seq<string>, ttl: Duration, timeout: real,
    priority: int, minVersion: int, maxVersion: int, fatal: bool, skip: bool,
    metrics: seq<map<string, Option<RawColumn>>>)

  type RawConfig = map<string, Option<RawQuery>>

  /* ---------------- what parsing means ---------------- */

  ghost predicate ColumnOk(c: RawColumn) {
    && c.usage.Known? && !c.scale.Malformed? && !c.default.Malformed?
    && (c.usage.usage.Histogram? ==> ValidBuckets(c.bucket))
  }

  /** A metrics entry has exactly one column, and that column is usable. */
  ghost predicate EntryOk(entry: map<string, Option<RawColumn>>) {
    |entry| == 1 && forall n | n in entry :: entry[n].Some? && ColumnOk(entry[n].value)
  }

  function ColumnFrom(n: string, c: RawColumn): Column
    requires c.usage.Known?
  {
    Column(if c.name == "" then n else c.name, c.usage.usage, c.rename, c.bucket, c.scale.Parsed(), c.default.Parsed())
  }

  ghost function ColumnOfEntry(entry: map<string, Option<RawColumn>>): Column
    requires EntryOk(entry)
  {
    var n :| n in entry;
    ColumnFrom(n, entry[n].value)
  }

  lemma OnlyKey(entry: map<string, Option<RawColumn>>, a: string, b: string)
    requires |entry| == 1 && a in entry && b in entry
    ensures a == b
  {
    assert {a} <= entry.Keys;
    if a != b {
      assert {a, b} <= entry.Keys;
      SubsetSize({a, b}, entry.Keys);
    }
  }

  lemma {:induction false} SubsetSize<T>(s: set<T>, t: set<T>)
    requires s <= t
    ensures |s| <= |t|
    decreases s
  {
    if s != {} {
      var x :| x in s;
      SubsetSize(s - {x}, t - {x});
    }
  }

  /** The columns of a query in configured order. */
  ghost function ColumnsOf(metrics: seq<map<string, Option<RawColumn>>>): seq<Column>
    requires forall e | e in metrics :: EntryOk(e)
  {
    seq(|metrics|, i requires 0 <= i < |metrics| => ColumnOfEntry(metrics[i]))
  }

  function Names(cols: seq<Column>): seq<string> {
    seq(|cols|, i requires 0 <= i < |cols| => cols[i].name)
  }

  function LabelNames(cols: seq<Column>): seq<string> {
    if cols == [] then []
    else LabelNames(cols[..|cols| - 1]) + (if cols[|cols| - 1].usage.Label? then [cols[|cols| - 1].name] else [])
  }

  predicate IsMetric(u: Usage) { u in {Gauge, Counter, Histogram} }

  function MetricNames(cols: seq<Column>): seq<string> {
    if cols == [] then []
    else MetricNames(cols[..|cols| - 1]) + (if IsMetric(cols[|cols| - 1].usage) then [cols[|cols| - 1].name] else [])
  }

  function ColumnMap(cols: seq<Column>): map<string, Column> {
    if cols == [] then map[] else ColumnMap(cols[..|cols| - 1])[cols[|cols| - 1].name := cols[|cols| - 1]]
  }

  function PredicatesOf(ps: seq<RawPredicate>): seq<Predicate> {
    seq(|ps|, i requires 0 <= i < |ps| => Predicate(ps[i].name, ps[i].ttl))
  }

  /** The query that parsing produces from its branch name, its decoded form and its columns. */
  function Assemble(branch: string, raw: RawQuery, cols: seq<Column>): Query {
    Query(if raw.name == "" then branch else raw.name, branch, PredicatesOf(raw.predicates), raw.tags, raw.ttl,
          raw.timeout, raw.priority, raw.minVersion, raw.maxVersion, raw.fatal, raw.skip,
          ColumnMap(cols), Names(cols), LabelNames(cols), MetricNames(cols))
  }

  ghost predicate ShapeOk(raw: RawQuery) {
    && !raw.blankSql && raw.ttl >= 0
    && (forall p | p in raw.predicates :: !p.blankSql && p.ttl >= 0)
    && raw.metrics != []
    && (forall e | e in raw.metrics :: EntryOk(e))
    && NoDuplicates(Names(ColumnsOf(raw.metrics)))
    && MetricNames(ColumnsOf(raw.metrics)) != []
  }

  ghost function ParsedQuery(branch: string, raw: RawQuery): Query
    requires ShapeOk(raw)
  {
    Assemble(branch, raw, ColumnsOf(raw.metrics))
  }

  /** Exactly the decoded queries that parsing lets through. */
  ghost predicate Acceptable(env: Env, branch: string, raw: RawQuery) {
    && ShapeOk(raw)
    && var q := ParsedQuery(branch, raw);
       LabelColumns(q) && MetricColumns(q) && ValidLabels(env, q) && ValidFamilies(env, q)
  }

  ghost predicate AcceptableConfig(env: Env, raw: RawConfig) {
    forall b | b in raw :: raw[b].Some? && Acceptable(env, b, raw[b].value)
  }

  /** Every query that parsing produces is accepted in the sense the collector relies on. */
  lemma ParsedQueriesAreAccepted(env: Env, branch: string, raw: RawQuery)
    requires Acceptable(env, branch, raw)
    ensures Accepted(env, ParsedQuery(branch, raw))
  {
    var q := ParsedQuery(branch, raw);
    forall p | p in q.predicates ensures p.ttl >= 0 {
      var i :| 0 <= i < |q.predicates| && q.predicates[i] == p;
      assert raw.predicates[i] in raw.predicates;
    }
  }

  /* ---------------- classification ---------------- */

  lemma NamesOfPrefix(cols: seq<Column>)
    requires cols != [] && NoDuplicates(Names(cols))
    ensures NoDuplicates(Names(cols[..|cols| - 1])) && cols[|cols| - 1].name !in Names(cols[..|cols| - 1])
  {
    var init, last := cols[..|cols| - 1], cols[|cols| - 1];
    assert forall i | 0 <= i < |init| :: Names(cols)[i] == Names(init)[i];
    assert Names(cols)[|init|] == last.name;
  }

  lemma {:induction false} ColumnMapHolds(cols: seq<Column>)
    requires NoDuplicates(Names(cols))
    ensures forall c | c in cols :: c.name in ColumnMap(cols) && ColumnMap(cols)[c.name] == c
    ensures forall n :: n in ColumnMap(cols) <==> n in Names(cols)
  {
    if cols != [] {
      var init, last := cols[..|cols| - 1], cols[|cols| - 1];
      assert Names(cols) == Names(init) + [last.name];
      NamesOfPrefix(cols);
      ColumnMapHolds(init);
      forall c | c in init ensures c.name != last.name {
        var i :| 0 <= i < |init| && init[i] == c;
        assert Names(init)[i] == c.name;
      }
    }
  }

  lemma {:induction false} ClassifiedNames(cols: seq<Column>)
    ensures forall n | n in LabelNames(cols) :: exists c :: c in cols && c.name == n && c.usage.Label?
    ensures forall n | n in MetricNames(cols) :: exists c :: c in cols && c.name == n && IsMetric(c.usage)
  {
    if cols != [] {
      var init := cols[..|cols| - 1];
      ClassifiedNames(init);
      assert forall c | c in init :: c in cols;
      assert cols[|cols| - 1] in cols;
    }
  }

  lemma {:induction false} MetricNamesAreDistinct(cols: seq<Column>)
    requires NoDuplicates(Names(cols))
    ensures NoDuplicates(MetricNames(cols))
  {
    if cols != [] {
      var init, last := cols[..|cols| - 1], cols[|cols| - 1];
      NamesOfPrefix(cols);
      MetricNamesAreDistinct(init);
      ClassifiedNames(init);
      forall n | n in MetricNames(init) ensures n != last.name {
        var c :| c in init && c.name == n;
        var i :| 0 <= i < |init| && init[i] == c;
        assert Names(init)[i] == n;
      }
      var before := MetricNames(init);
      assert forall i | 0 <= i < |before| :: before[i] in before && before[i] != last.name;
      assert MetricNames(cols) == if IsMetric(last.usage) then before + [last.name] else before;
    }
  }

  /** Parsing classifies columns consistently. */
  lemma ClassificationIsConsistent(branch: string, raw: RawQuery, cols: seq<Column>)
    requires NoDuplicates(Names(cols))
    requires forall c | c in cols && c.IsHistogram() :: ValidBuckets(c.bucket)
    ensures var q := Assemble(branch, raw, cols); LabelColumns(q) && MetricColumns(q)
  {
    ColumnMapHolds(cols);
    ClassifiedNames(cols);
    MetricNamesAreDistinct(cols);
  }

  lemma ColumnsOfValidEntries(metrics: seq<map<string, Option<RawColumn>>>)
    requires forall e | e in metrics :: EntryOk(e)
    ensures forall c | c in ColumnsOf(metrics) && c.IsHistogram() :: ValidBuckets(c.bucket)
  {
    var cols := ColumnsOf(metrics);
    forall c | c in cols && c.IsHistogram() ensures ValidBuckets(c.bucket) {
      var i :| 0 <= i < |cols| && cols[i] == c;
      assert metrics[i] in metrics;
    }
  }

  /* ---------------- validation ---------------- */

  method ValidateHistogramBuckets(bucket: seq<Float64>) returns (ok: bool)
    ensures ok <==> ValidBuckets(bucket)
  {
    if |bucket| == 0 {
      return false;
    }
    for i := 0 to |bucket|
      invariant forall k | 0 <= k < i :: bucket[k].Fin?
      invariant forall j, k | 0 <= j < k < i :: bucket[j].r < bucket[k].r
    {
      if bucket[i].NaN? || bucket[i].PosInf? || bucket[i].NegInf? {
        return false;
      }
      if i > 0 && bucket[i].r <= bucket[i - 1].r {
        return false;
      }
    }
    return true;
  }

  method SearchHistogram(q: Query) returns (found: bool)
    ensures found <==> HasHistogram(q)
  {
    for i := 0 to |q.metricNames|
      invariant forall k | 0 <= k < i :: !IsHistogram(q, q.metricNames[k])
    {
      if q.metricNames[i] in q.columns && q.columns[q.metricNames[i]].IsHistogram() {
        assert IsHistogram(q, q.metricNames[i]);
        return true;
      }
    }
    return false;
  }

  lemma NothingRepeats()
    ensures NoDuplicates<string>([])
  {
  }

  lemma OneMoreRepeats(s: seq<string>, x: string)
    requires NoDuplicates(s)
    ensures NoDuplicates(s + [x]) <==> x !in s
  {
    if x in s {
      var j :| 0 <= j < |s| && s[j] == x;
      assert (s + [x])[j] == (s + [x])[|s|];
    }
  }

  lemma RepeatedPrefix(s: seq<string>, n: nat)
    requires n <= |s| && !NoDuplicates(s[..n])
    ensures !NoDuplicates(s)
  {
    var i, j :| 0 <= i < j < n && s[..n][i] == s[..n][j];
    assert s[i] == s[j];
  }

  method ValidateLabels(env: Env, q: Query) returns (ok: bool)
    requires LabelColumns(q)
    ensures ok <==> ValidLabels(env, q)
  {
    hide HasHistogram, NoDuplicates;
    NothingRepeats();
    var hasHistogram := SearchHistogram(q);
    var seenLabels: set<string> := {};
    ghost var list := LabelList(q);
    for i := 0 to |q.labelNames|
      invariant forall l :: l in seenLabels <==> l in list[..i]
      invariant forall l | l in list[..i] :: env.validLabelName(l) && (hasHistogram ==> l != "le")
      invariant NoDuplicates(list[..i])
    {
      var c := q.columns[q.labelNames[i]];
      var lbl := c.name;
      if c.rename != "" {
        lbl := c.rename;
      }
      assert lbl == list[i] && lbl in list && list[..i + 1] == list[..i] + [lbl];
      OneMoreRepeats(list[..i], lbl);
      if !env.validLabelName(lbl) {
        return false;
      }
      if hasHistogram && lbl == "le" {
        return false;
      }
      if lbl in seenLabels {
        RepeatedPrefix(list, i + 1);
        return false;
      }
      seenLabels := seenLabels + {lbl};
    }
    assert list[..|list|] == list;
    return true;
  }

  /** The reserved names of the first n metric columns are valid and pairwise disjoint. */
  ghost predicate FamiliesOk(env: Env, q: Query, n: nat)
    requires MetricColumns(q) && n <= |q.metricNames|
  {
    && (forall i, f | 0 <= i < n && f in Families(q, q.columns[q.metricNames[i]]) :: env.validMetricName(f))
    && (forall i, j | 0 <= i < j < n :: DisjointFamilies(q, q.metricNames[i], q.metricNames[j]))
  }

  /** The names reserved by the first n metric columns. */
  ghost predicate Reserved(q: Query, seen: map<string, string>, n: nat)
    requires MetricColumns(q) && n <= |q.metricNames|
  {
    forall f :: f in seen <==> exists i :: 0 <= i < n && f in Families(q, q.columns[q.metricNames[i]])
  }

  lemma OwnFamiliesDiffer(q: Query, c: Column)
    ensures NoDuplicates(Families(q, c))
  {
  }

  /** Reserves the names of one metric column. */
  method ReserveFamilies(env: Env, q: Query, n: nat, seen: map<string, string>)
    returns (ok: bool, seen': map<string, string>)
    requires MetricColumns(q) && n < |q.metricNames| && FamiliesOk(env, q, n) && Reserved(q, seen, n)
    ensures ok <==> FamiliesOk(env, q, n + 1)
    ensures ok ==> Reserved(q, seen', n + 1)
  {
    var c := q.columns[q.metricNames[n]];
    var suffix := c.name;
    if c.rename != "" {
      suffix := c.rename;
    }
    var metricName := q.name + "_" + suffix;
    var familyNames := [metricName];
    if c.IsHistogram() {
      familyNames := familyNames + [metricName + "_bucket", metricName + "_count", metricName + "_sum"];
    }
    assert familyNames == Families(q, c);
    OwnFamiliesDiffer(q, c);
    seen' := seen;
    for k := 0 to |familyNames|
      invariant forall f :: f in seen' <==> f in seen || f in familyNames[..k]
      invariant forall j | 0 <= j < k :: env.validMetricName(familyNames[j]) && familyNames[j] !in seen
    {
      var family := familyNames[k];
      if !env.validMetricName(family) {
        InvalidFamily(env, q, n, k);
        return false, seen';
      }
      if family in seen' {
        TakenFamily(env, q, n, k, seen);
        return false, seen';
      }
      seen' := seen'[family := metricName];
    }
    ok := true;
    assert familyNames[..|familyNames|] == familyNames;
    FreeFamilies(env, q, n, seen, seen');
  }

  lemma InvalidFamily(env: Env, q: Query, n: nat, k: nat)
    requires MetricColumns(q) && n < |q.metricNames|
    requires var f := Families(q, q.columns[q.metricNames[n]]); k < |f| && !env.validMetricName(f[k])
    ensures !FamiliesOk(env, q, n + 1)
  {
  }

  lemma TakenFamily(env: Env, q: Query, n: nat, k: nat, seen: map<string, string>)
    requires MetricColumns(q) && n < |q.metricNames| && Reserved(q, seen, n)
    requires var f := Families(q, q.columns[q.metricNames[n]]); k < |f| && f[k] in seen
    ensures !FamiliesOk(env, q, n + 1)
  {
  }

  lemma FreeFamilies(env: Env, q: Query, n: nat, seen: map<string, string>, seen': map<string, string>)
    requires MetricColumns(q) && n < |q.metricNames| && FamiliesOk(env, q, n) && Reserved(q, seen, n)
    requires var families := Families(q, q.columns[q.metricNames[n]]);
             && (forall j | 0 <= j < |families| :: env.validMetricName(families[j]) && families[j] !in seen)
             && (forall f :: f in seen' <==> f in seen || f in families)
    ensures FamiliesOk(env, q, n + 1) && Reserved(q, seen', n + 1)
  {
    hide Families;
    var families := Families(q, q.columns[q.metricNames[n]]);
    forall i | 0 <= i < n ensures DisjointFamilies(q, q.metricNames[i], q.metricNames[n]) {
      forall f | f in Families(q, q.columns[q.metricNames[i]]) ensures f !in families { assert f in seen; }
    }
  }

  method ValidateFamilies(env: Env, q: Query) returns (ok: bool)
    requires MetricColumns(q)
    ensures ok <==> ValidFamilies(env, q)
  {
    var seenMetrics: map<string, string> := map[];
    for n := 0 to |q.metricNames|
      invariant FamiliesOk(env, q, n) && Reserved(q, seenMetrics, n)
    {
      ok, seenMetrics := ReserveFamilies(env, q, n, seenMetrics);
      if !ok {
        return;
      }
    }
    return true;
  }

  /* ---------------- parsing ---------------- */

  /** Checks one metrics entry and yields its column. */
  method ParseEntry(entry: map<string, Option<RawColumn>>) returns (r: Option<Column>)
    ensures r.Some? <==> EntryOk(entry)
    ensures r.Some? ==> r.value == ColumnOfEntry(entry)
  {
    if |entry| != 1 {
      return None;
    }
    assert entry.Keys != {};
    var colName :| colName in entry;
    forall n | n in entry ensures n == colName {
      OnlyKey(entry, n, colName);
    }
    if entry[colName].None? {
      return None;
    }
    var column := entry[colName].value;
    if !column.usage.Known? {
      return None;
    }
    if column.scale.Malformed? || column.default.Malformed? {
      return None;
    }
    if column.usage.usage.Histogram? {
      var ok := ValidateHistogramBuckets(column.bucket);
      if !ok {
        return None;
      }
    }
    return Some(ColumnFrom(colName, column));
  }

  /** What has been collected after some columns. */
  ghost predicate Classified(cols: seq<Column>, columns: map<string, Column>, all: seq<string>,
      labels: seq<string>, metrics: seq<string>) {
    && NoDuplicates(Names(cols))
    && columns == ColumnMap(cols) && all == Names(cols) && labels == LabelNames(cols) && metrics == MetricNames(cols)
  }

  lemma ClassifyOneMore(cols: seq<Column>, column: Column)
    requires NoDuplicates(Names(cols))
    ensures column.name in ColumnMap(cols) <==> !NoDuplicates(Names(cols + [column]))
    ensures ColumnMap(cols + [column]) == ColumnMap(cols)[column.name := column]
    ensures Names(cols + [column]) == Names(cols) + [column.name]
    ensures LabelNames(cols + [column]) == LabelNames(cols) + (if column.usage.Label? then [column.name] else [])
    ensures MetricNames(cols + [column]) == MetricNames(cols) + (if IsMetric(column.usage) then [column.name] else [])
  {
    ColumnMapHolds(cols);
    assert (cols + [column])[..|cols|] == cols;
    var names := Names(cols + [column]);
    assert names == Names(cols) + [column.name];
    if column.name in ColumnMap(cols) {
      var k :| 0 <= k < |cols| && Names(cols)[k] == column.name;
      assert names[k] == names[|cols|];
    }
  }

  /** Classifies the columns of one query. */
  method ParseColumns(metrics: seq<map<string, Option<RawColumn>>>)
    returns (ok: bool, columns: map<string, Column>, allColumns: seq<string>, labelColumns: seq<string>,
             metricColumns: seq<string>, ghost cols: seq<Column>)
    ensures ok <==> (forall e | e in metrics :: EntryOk(e)) && NoDuplicates(Names(ColumnsOf(metrics)))
    ensures ok ==> cols == ColumnsOf(metrics) && Classified(cols, columns, allColumns, labelColumns, metricColumns)
  {
    hide EntryOk, ColumnOfEntry, ColumnMap, Names, LabelNames, MetricNames, NoDuplicates;
    columns, allColumns, labelColumns, metricColumns, cols := map[], [], [], [], [];
    NothingClassified();
    for i := 0 to |metrics|
      invariant |cols| == i && forall k | 0 <= k < i :: EntryOk(metrics[k]) && cols[k] == ColumnOfEntry(metrics[k])
      invariant Classified(cols, columns, allColumns, labelColumns, metricColumns)
    {
      assert metrics[i] in metrics;
      var parsed := ParseEntry(metrics[i]);
      if parsed.None? {
        ok := false;
        return;
      }
      var column := parsed.value;
      ClassifyOneMore(cols, column);
      if column.usage.Label? {
        labelColumns := labelColumns + [column.name];
      } else if IsMetric(column.usage) {
        metricColumns := metricColumns + [column.name];
      }
      allColumns := allColumns + [column.name];
      cols := cols + [column];
      if column.name in columns {
        RepeatedName(metrics, cols);
        ok := false;
        return;
      }
      columns := columns[column.name := column];
    }
    ok := true;
    assert forall e | e in metrics :: EntryOk(e);
    assert cols == ColumnsOf(metrics);
  }

  lemma NothingClassified()
    ensures Classified([], map[], [], [], [])
  {
  }

  lemma RepeatedName(metrics: seq<map<string, Option<RawColumn>>>, cols: seq<Column>)
    requires |cols| <= |metrics| && !NoDuplicates(Names(cols))
    requires forall k | 0 <= k < |cols| :: EntryOk(metrics[k]) && cols[k] == ColumnOfEntry(metrics[k])
    ensures (forall e | e in metrics :: EntryOk(e)) ==> !NoDuplicates(Names(ColumnsOf(metrics)))
  {
    if forall e | e in metrics :: EntryOk(e) {
      var names := Names(ColumnsOf(metrics));
      var i, j :| 0 <= i < j < |cols| && Names(cols)[i] == Names(cols)[j];
      assert names[i] == names[j];
    }
  }

  /** Parses one query: it is accepted exactly when it is acceptable, and then is the query it stands for. */
  method ParseQuery(env: Env, branch: string, raw: RawQuery) returns (r: Option<Query>)
    ensures r.Some? <==> Acceptable(env, branch, raw)
    ensures r.Some? ==> r.value == ParsedQuery(branch, raw)
  {
    if raw.blankSql || raw.ttl < 0 {
      return None;
    }
    for i := 0 to |raw.predicates|
      invariant forall k | 0 <= k < i :: !raw.predicates[k].blankSql && raw.predicates[k].ttl >= 0
    {
      if raw.predicates[i].blankSql || raw.predicates[i].ttl < 0 {
        assert raw.predicates[i] in raw.predicates;
        return None;
      }
    }
    if |raw.metrics| == 0 {
      return None;
    }
    var ok, columns, allColumns, labelColumns, metricColumns, cols := ParseColumns(raw.metrics);
    if !ok {
      return None;
    }
    if |metricColumns| == 0 {
      return None;
    }
    ColumnsOfValidEntries(raw.metrics);
    ClassificationIsConsistent(branch, raw, cols);
    var query := Query(if raw.name == "" then branch else raw.name, branch, PredicatesOf(raw.predicates), raw.tags,
                       raw.ttl, raw.timeout, raw.priority, raw.minVersion, raw.maxVersion, raw.fatal, raw.skip,
                       columns, allColumns, labelColumns, metricColumns);
    ok := ValidateLabels(env, query);
    if !ok {
      return None;
    }
    ok := ValidateFamilies(env, query);
    if !ok {
      return None;
    }
    return Some(query);
  }

  /** Parses a whole configuration: one bad query rejects it. */
  method ParseConfig(env: Env, raw: RawConfig) returns (r: Option<map<string, Query>>)
    ensures r.Some? <==> AcceptableConfig(env, raw)
    ensures r.Some? ==> r.value.Keys == raw.Keys
                        && forall b | b in raw :: r.value[b] == ParsedQuery(b, raw[b].value)
  {
    var queries: map<string, Query> := map[];
    var rest := raw.Keys;
    while rest != {}
      invariant rest <= raw.Keys && queries.Keys == raw.Keys - rest
      invariant forall b | b in queries :: raw[b].Some? && Acceptable(env, b, raw[b].value)
                                           && queries[b] == ParsedQuery(b, raw[b].value)
      decreases rest
    {
      var branch :| branch in rest;
      rest := rest - {branch};
      if raw[branch].None? {
        return None;
      }
      var query := ParseQuery(env, branch, raw[branch].value);
      if query.None? {
        return None;
      }
      queries := queries[branch := query.value];
    }
    return Some(queries);
  }
}

/** The metric families and descriptors of a query, and what an accepted query guarantees about them. */
module Schema {
  import opened Core
  import opened Histogram

  /* ---------------- families ---------------- */

  function BaseName(q: Query, c: Column): string {
    q.name + "_" + c.Shown()
  }

  /** Every name a metric column reserves: its base name, and three derived families if it is a histogram. */
  function Families(q: Query, c: Column): seq<string> {
    var base := BaseName(q, c);
    if c.IsHistogram() then [base, base + "_bucket", base + "_count", base + "_sum"] else [base]
  }

  predicate HasHistogram(q: Query) {
    exists m | m in q.metricNames :: IsHistogram(q, m)
  }

  predicate IsHistogram(q: Query, m: string) {
    m in q.columns && q.columns[m].IsHistogram()
  }

  /** The label names after renaming. */
  function LabelList(q: Query): seq<string>
    requires forall l | l in q.labelNames :: l in q.columns
  {
    seq(|q.labelNames|, i requires 0 <= i < |q.labelNames| => q.columns[q.labelNames[i]].Shown())
  }

  /* ---------------- accepted queries ---------------- */

  /** Finite, strictly increasing, and at least one. */
  ghost predicate ValidBuckets(bucket: seq<Float>) {
    && bucket != []
    && (forall i | 0 <= i < |bucket| :: bucket[i].Fin?)
    && (forall i, j | 0 <= i < j < |bucket| :: bucket[i].Fin? && bucket[j].Fin? && bucket[i].r < bucket[j].r)
  }

  ghost predicate LabelColumns(q: Query) {
    forall l | l in q.labelNames :: l in q.columns && q.columns[l].usage.Label? && q.columns[l].name == l
  }

  ghost predicate MetricColumns(q: Query) {
    && NoDuplicates(q.metricNames)
    && forall m | m in q.metricNames ::
         && m in q.columns
         && q.columns[m].name == m
         && q.columns[m].usage in {Gauge, Counter, Histogram}
         && (q.columns[m].IsHistogram() ==> ValidBuckets(q.columns[m].bucket))
  }

  ghost predicate DisjointFamilies(q: Query, a: string, b: string)
    requires a in q.columns && b in q.columns
  {
    forall f | f in Families(q, q.columns[a]) :: f !in Families(q, q.columns[b])
  }

  ghost predicate ValidFamilies(env: Env, q: Query)
    requires MetricColumns(q)
  {
    && (forall m, f | m in q.metricNames && f in Families(q, q.columns[m]) :: env.validMetricName(f))
    && (forall i, j | 0 <= i < j < |q.metricNames| :: DisjointFamilies(q, q.metricNames[i], q.metricNames[j]))
  }

  ghost predicate ValidLabels(env: Env, q: Query)
    requires LabelColumns(q)
  {
    && (forall l | l in LabelList(q) :: env.validLabelName(l))
    && NoDuplicates(LabelList(q))
    && (HasHistogram(q) ==> "le" !in LabelList(q))
  }

  /** What parse-time validation guarantees of every query it lets through. */
  ghost predicate Accepted(env: Env, q: Query) {
    && LabelColumns(q) && ValidLabels(env, q)
    && MetricColumns(q) && ValidFamilies(env, q)
    && q.ttl >= 0
    && (forall p | p in q.predicates :: p.ttl >= 0)
  }

  /** What validateConstLabelConflicts guarantees of one query. */
  ghost predicate NoConflict(constLabels: map<string, Bytes>, q: Query)
    requires LabelColumns(q)
  {
    && (forall l | l in LabelList(q) :: l !in constLabels)
    && (HasHistogram(q) ==> "le" !in constLabels)
  }

  predicate Rises(bucket: seq<Float>, i: nat)
    requires i + 1 < |bucket|
  {
    bucket[i].Fin? && bucket[i + 1].Fin? && bucket[i].r < bucket[i + 1].r
  }

  /** Bounds are valid exactly if there is one and each is finite and less than the next. */
  lemma {:induction false} BucketsAreValidIff(bucket: seq<Float>)
    ensures ValidBuckets(bucket) <==>
              |bucket| > 0 && bucket[0].Fin? && forall i: nat | i + 1 < |bucket| :: Rises(bucket, i)
  {
    if |bucket| > 1 {
      var init := bucket[..|bucket| - 1];
      BucketsAreValidIff(init);
      forall i: nat | i + 1 < |init| ensures Rises(init, i) <==> Rises(bucket, i) {
      }
      if ValidBuckets(init) && Rises(bucket, |bucket| - 2) {
        forall i, j | 0 <= i < j < |bucket| ensures bucket[i].r < bucket[j].r {
          assert i < |init| - 1 ==> init[i].r < init[|init| - 1].r;
        }
      }
    }
  }

  lemma BoundsAreIncreasing(c: Column)
    requires ValidBuckets(c.bucket)
    ensures Increasing(c.Bounds()) && AreFloat64(c.Bounds())
  {
  }

  /* ---------------- descriptors ---------------- */

  function ScalarDesc(q: Query, constLabels: map<string, Bytes>, m: string): Desc
    requires m in q.columns
    requires forall l | l in q.labelNames :: l in q.columns
  {
    Desc(BaseName(q, q.columns[m]), LabelList(q), constLabels)
  }

  function HistogramDescs(q: Query, constLabels: map<string, Bytes>, m: string): HistogramDesc
    requires m in q.columns
    requires forall l | l in q.labelNames :: l in q.columns
  {
    var base := BaseName(q, q.columns[m]);
    HistogramDesc(
      Desc(base + "_bucket", LabelList(q) + ["le"], constLabels),
      Desc(base + "_count", LabelList(q), constLabels),
      Desc(base + "_sum", LabelList(q), constLabels))
  }

  /** The two descriptor maps built when a collector is created. */
  method MakeDescMap(q: Query, constLabels: map<string, Bytes>)
    returns (descriptors: map<string, Desc>, histogramDesc: map<string, HistogramDesc>)
    requires LabelColumns(q) && MetricColumns(q)
    ensures forall m :: m in descriptors <==> m in q.metricNames && !IsHistogram(q, m)
    ensures forall m | m in descriptors :: descriptors[m] == ScalarDesc(q, constLabels, m)
    ensures forall m :: m in histogramDesc <==> m in q.metricNames && IsHistogram(q, m)
    ensures forall m | m in histogramDesc :: histogramDesc[m] == HistogramDescs(q, constLabels, m)
  {
    descriptors, histogramDesc := map[], map[];
    var labelNames := RenamedLabels(q);
    for i := 0 to |q.metricNames|
      invariant forall m :: m in descriptors <==> m in q.metricNames[..i] && !IsHistogram(q, m)
      invariant forall m | m in descriptors :: m in q.columns && descriptors[m] == ScalarDesc(q, constLabels, m)
      invariant forall m :: m in histogramDesc <==> m in q.metricNames[..i] && IsHistogram(q, m)
      invariant forall m | m in histogramDesc :: m in q.columns && histogramDesc[m] == HistogramDescs(q, constLabels, m)
    {
      var m := q.metricNames[i];
      var column := q.columns[m];
      var prometheusName := q.name + "_" + column.name;
      if column.rename != "" {
        prometheusName := q.name + "_" + column.rename;
      }
      if column.IsHistogram() {
        histogramDesc := histogramDesc[m := HistogramDesc(
          Desc(prometheusName + "_bucket", labelNames + ["le"], constLabels),
          Desc(prometheusName + "_count", labelNames, constLabels),
          Desc(prometheusName + "_sum", labelNames, constLabels))];
      } else {
        descriptors := descriptors[column.name := Desc(prometheusName, labelNames, constLabels)];
      }
    }
  }

  method RenamedLabels(q: Query) returns (labelNames: seq<string>)
    requires LabelColumns(q)
    ensures labelNames == LabelList(q)
  {
    labelNames := [];
    for i := 0 to |q.labelNames|
      invariant labelNames == LabelList(q)[..i]
    {
      var column := q.columns[q.labelNames[i]];
      labelNames := labelNames + [if column.rename != "" then column.rename else column.name];
    }
  }

  /**
   If parsing and the constant-label check both accept, every descriptor of every metric column is one that
   NewDesc records no error for; in particular renamed labels, the generated "le" and constant labels are
   pairwise distinct.
   */
  lemma AcceptedDescriptorsAreValid(env: Env, q: Query, constLabels: map<string, Bytes>, m: string)
    requires env.validLabelName("le") && Accepted(env, q) && NoConflict(constLabels, q)
    requires forall l | l in constLabels :: env.validLabelName(l)
    requires m in q.metricNames
    ensures !IsHistogram(q, m) ==> ValidDesc(env, ScalarDesc(q, constLabels, m))
    ensures IsHistogram(q, m) ==>
              var d := HistogramDescs(q, constLabels, m);
              ValidDesc(env, d.bucket) && ValidDesc(env, d.count) && ValidDesc(env, d.sum)
  {
    var base := BaseName(q, q.columns[m]);
    var families := Families(q, q.columns[m]);
    assert base == families[0];
    if IsHistogram(q, m) {
      assert HasHistogram(q);
      assert base + "_bucket" == families[1] && base + "_count" == families[2] && base + "_sum" == families[3];
    }
  }

  /** The descriptors of a metric column are those NewDesc records no error for, and its base name is a valid name. */
  ghost predicate ValidDescs(env: Env, q: Query, m: string)
    requires LabelColumns(q) && m in q.columns
  {
    if IsHistogram(q, m)
    then && env.validMetricName(BaseName(q, q.columns[m]))
         && var d := HistogramDescs(q, map[], m);
            ValidDesc(env, d.bucket) && ValidDesc(env, d.count) && ValidDesc(env, d.sum)
    else ValidDesc(env, ScalarDesc(q, map[], m))
  }

  /**
   Parsing rejects no names that would do no harm: labels and families are accepted exactly if all descriptors are
   valid and no two metric columns reserve the same name.
   */
  lemma NamesAreAcceptedIff(env: Env, q: Query)
    requires LabelColumns(q) && MetricColumns(q) && q.metricNames != [] && env.validLabelName("le")
    ensures ValidLabels(env, q) && ValidFamilies(env, q) <==>
              && (forall m | m in q.metricNames :: ValidDescs(env, q, m))
              && forall i, j | 0 <= i < j < |q.metricNames| :: DisjointFamilies(q, q.metricNames[i], q.metricNames[j])
  {
    hide DisjointFamilies, ValidDesc, Families;
    if ValidLabels(env, q) && ValidFamilies(env, q) {
      forall m | m in q.metricNames ensures ValidDescs(env, q, m) {
        ValidNamesGiveDescs(env, q, m);
      }
    }
    if forall m | m in q.metricNames :: ValidDescs(env, q, m) {
      forall m | m in q.metricNames
        ensures forall f | f in Families(q, q.columns[m]) :: env.validMetricName(f)
        ensures ValidLabelsFor(env, q, m)
      {
        DescsGiveValidNames(env, q, m);
      }
      assert q.metricNames[0] in q.metricNames;
    }
  }

  ghost predicate ValidLabelsFor(env: Env, q: Query, m: string)
    requires LabelColumns(q)
  {
    && (forall l | l in LabelList(q) :: env.validLabelName(l)) && NoDuplicates(LabelList(q))
    && (IsHistogram(q, m) ==> "le" !in LabelList(q))
  }

  lemma ValidNamesGiveDescs(env: Env, q: Query, m: string)
    requires LabelColumns(q) && MetricColumns(q) && m in q.metricNames && env.validLabelName("le")
    requires ValidLabels(env, q) && ValidFamilies(env, q)
    ensures ValidDescs(env, q, m)
  {
    var families := Families(q, q.columns[m]);
    assert families[0] == BaseName(q, q.columns[m]);
    if IsHistogram(q, m) {
      assert HasHistogram(q);
      assert families[1] in families && families[2] in families && families[3] in families;
    }
  }

  lemma DescsGiveValidNames(env: Env, q: Query, m: string)
    requires LabelColumns(q) && MetricColumns(q) && m in q.metricNames && ValidDescs(env, q, m)
    ensures forall f | f in Families(q, q.columns[m]) :: env.validMetricName(f)
    ensures ValidLabelsFor(env, q, m)
  {
    if IsHistogram(q, m) {
      var labels := LabelList(q) + ["le"];
      assert forall i | 0 <= i < |LabelList(q)| :: labels[i] == LabelList(q)[i];
      assert labels[|LabelList(q)|] == "le";
    }
  }
}

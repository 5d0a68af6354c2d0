/** Published histograms do not depend on the order of result rows, and when the order can matter to success. */
module OrderLaws {
  import opened Core
  import opened Histogram
  import opened LabelKey
  import opened Permutations
  import Casting
  import Publish
  import Scan
  import opened Schema
  import opened Snapshot
  import opened SnapshotLaws

  /* ---------------- what one row adds ---------------- */

  ghost function Present(c: Context, m: string, t: Tuple): Scanned -> real
    requires IsHistogramColumn(c, m)
  {
    r => if IsHistogramColumn(c, m) && Observes(c, m, t, r) then 1.0 else 0.0
  }

  ghost function AtMost(c: Context, m: string, t: Tuple, bound: real): Scanned -> real
    requires IsHistogramColumn(c, m)
  {
    r => if IsHistogramColumn(c, m) && ObservesAtMost(c, m, t, bound, r) then 1.0 else 0.0
  }

  ghost function Value(c: Context, m: string, t: Tuple): Scanned -> real
    requires IsHistogramColumn(c, m)
  {
    r => if IsHistogramColumn(c, m) && Observes(c, m, t, r) then ObservationOf(c, m, r.data).v else 0.0
  }

  lemma {:induction false} GroupsAreSums(c: Context, m: string, rows: seq<Scanned>, t: Tuple, bound: real)
    requires IsHistogramColumn(c, m)
    ensures var vals := ValuesOf(Observations(c, m, rows), t);
            && |vals| as real == Sum(Present(c, m, t), rows)
            && CountAtMost(vals, bound) as real == Sum(AtMost(c, m, t, bound), rows)
            && Total(vals) == Sum(Value(c, m, t), rows)
    decreases |rows|
  {
    hide Configured, Observations, ValuesOf, CountAtMost, Total;
    if rows == [] {
      NoRowsNoValues(c, m, t, bound);
      NoValues(bound);
    } else {
      var init, r := rows[..|rows| - 1], rows[|rows| - 1];
      assert rows == init + [r];
      GroupsAreSums(c, m, init, t, bound);
      ValuesOfOneMoreRow(c, m, init, r, t);
      if Observes(c, m, t, r) {
        CountsOfOneMoreValue(ValuesOf(Observations(c, m, init), t), ObservationOf(c, m, r.data).v, bound);
      }
    }
  }

  lemma NoValues(bound: real)
    ensures CountAtMost([], bound) == 0 && Total([]) == 0.0
  {
  }

  /* ---------------- order independence ---------------- */

  lemma GroupsOfPermutedRows(c: Context, m: string, rows: seq<Scanned>, rows': seq<Scanned>, t: Tuple)
    requires IsHistogramColumn(c, m) && multiset(rows) == multiset(rows')
    ensures var d, bounds := HistogramDescs(c.q, c.constLabels, m), c.q.columns[m].Bounds();
            GroupSeries(c.env, d, bounds, t, ValuesOf(Observations(c, m, rows), t))
            == GroupSeries(c.env, d, bounds, t, ValuesOf(Observations(c, m, rows'), t))
  {
    hide Configured, Observations, ValuesOf, CountAtMost, Total, Present, AtMost, Value, Sum;
    DescribedColumns(c);
    var bounds := c.q.columns[m].Bounds();
    var vals, vals' := ValuesOf(Observations(c, m, rows), t), ValuesOf(Observations(c, m, rows'), t);
    forall bound: real ensures CountAtMost(vals, bound) == CountAtMost(vals', bound) {
      GroupsAreSums(c, m, rows, t, bound);
      GroupsAreSums(c, m, rows', t, bound);
      SumIsOrderFree(AtMost(c, m, t, bound), rows, rows');
    }
    GroupsAreSums(c, m, rows, t, 0.0);
    GroupsAreSums(c, m, rows', t, 0.0);
    SumIsOrderFree(Present(c, m, t), rows, rows');
    SumIsOrderFree(Value(c, m, t), rows, rows');
  }

  lemma TuplesOfPermutedRows(c: Context, m: string, rows: seq<Scanned>, rows': seq<Scanned>)
    requires IsHistogramColumn(c, m) && multiset(rows) == multiset(rows')
    ensures Tuples(Observations(c, m, rows)) == Tuples(Observations(c, m, rows'))
  {
    hide Configured, Observations, Observes;
    forall t ensures t in Tuples(Observations(c, m, rows)) <==> t in Tuples(Observations(c, m, rows')) {
      GroupExistsIffObserved(c, m, rows, t);
      GroupExistsIffObserved(c, m, rows', t);
      if exists i :: 0 <= i < |rows| && Observes(c, m, t, rows[i]) { ObserversOfPermutedRows(c, m, rows, rows', t); }
      if exists i :: 0 <= i < |rows'| && Observes(c, m, t, rows'[i]) { ObserversOfPermutedRows(c, m, rows', rows, t); }
    }
  }

  lemma ObserversOfPermutedRows(c: Context, m: string, rows: seq<Scanned>, rows': seq<Scanned>, t: Tuple)
    requires IsHistogramColumn(c, m) && multiset(rows) == multiset(rows')
    requires exists i :: 0 <= i < |rows| && Observes(c, m, t, rows[i])
    ensures exists i :: 0 <= i < |rows'| && Observes(c, m, t, rows'[i])
  {
    var i :| 0 <= i < |rows| && Observes(c, m, t, rows[i]);
    SameElements(rows, rows', rows[i]);
    var j :| 0 <= j < |rows'| && rows'[j] == rows[i];
  }

  lemma {:induction false} SectionsOfPermutedRows(c: Context, m: string, rows: seq<Scanned>, rows': seq<Scanned>,
      ts: seq<Tuple>)
    requires IsHistogramColumn(c, m) && multiset(rows) == multiset(rows')
    ensures var d, bounds := HistogramDescs(c.q, c.constLabels, m), c.q.columns[m].Bounds();
            Sections(c.env, d, bounds, Observations(c, m, rows), ts)
            == Sections(c.env, d, bounds, Observations(c, m, rows'), ts)
    decreases |ts|
  {
    hide Configured, Observations, GroupSeries, ValuesOf;
    if ts != [] {
      SectionsOfPermutedRows(c, m, rows, rows', ts[..|ts| - 1]);
      GroupsOfPermutedRows(c, m, rows, rows', ts[|ts| - 1]);
    }
  }

  /** The histogram samples of a result set are the same sequence for every order of its rows. */
  lemma {:induction false} HistogramsIgnoreRowOrder(c: Context, rows: seq<Scanned>, rows': seq<Scanned>, n: nat)
    requires c.Valid() && multiset(rows) == multiset(rows') && n <= |c.q.metricNames|
    ensures Histograms(c, rows, n) == Histograms(c, rows', n)
  {
    hide Configured, Observations, Sections;
    if n > 0 {
      HistogramsIgnoreRowOrder(c, rows, rows', n - 1);
      var m := c.q.metricNames[n - 1];
      if IsHistogram(c.q, m) {
        DescribedColumns(c);
        TuplesOfPermutedRows(c, m, rows, rows');
        SectionsOfPermutedRows(c, m, rows, rows', Listing(Tuples(Observations(c, m, rows))));
      }
    }
  }

  /** An unusable row fails the refresh in any position: all conditions but the running sums ignore row order. */
  lemma UsabilityIgnoresRowOrder(c: Context, rows: seq<Scanned>, rows': seq<Scanned>)
    requires c.Valid() && multiset(rows) == multiset(rows')
    ensures RowsOk(c, rows) <==> RowsOk(c, rows')
    ensures GroupsOk(c, rows) <==> GroupsOk(c, rows')
  {
    hide Configured, Observations, RowOk;
    forall r ensures r in rows <==> r in rows' {
      SameElements(rows, rows', r);
    }
    forall m | m in c.q.metricNames && IsHistogram(c.q, m)
      ensures Tuples(Observations(c, m, rows)) == Tuples(Observations(c, m, rows'))
    {
      TuplesOfPermutedRows(c, m, rows, rows');
    }
  }

  /* ---------------- when the order of rows can make a sum overflow ---------------- */

  /** The part of a value above zero, and the part below. */
  function Up(v: real): real { if v > 0.0 then v else 0.0 }
  function Down(v: real): real { if v < 0.0 then v else 0.0 }

  ghost function Rising(c: Context, m: string, t: Tuple): Scanned -> real
    requires IsHistogramColumn(c, m)
  {
    r => if IsHistogramColumn(c, m) && Observes(c, m, t, r) then Up(ObservationOf(c, m, r.data).v) else 0.0
  }

  ghost function Falling(c: Context, m: string, t: Tuple): Scanned -> real
    requires IsHistogramColumn(c, m)
  {
    r => if IsHistogramColumn(c, m) && Observes(c, m, t, r) then Down(ObservationOf(c, m, r.data).v) else 0.0
  }

  /** Every group's positive values sum below the overflow bound, and its negative values above its negation. */
  ghost predicate BoundedBothWays(c: Context, m: string, rows: seq<Scanned>)
    requires IsHistogramColumn(c, m)
  {
    forall t :: Sum(Rising(c, m, t), rows) < OVERFLOW && -OVERFLOW < Sum(Falling(c, m, t), rows)
  }

  ghost predicate SafeInEveryOrder(c: Context, m: string, rows: seq<Scanned>)
    requires IsHistogramColumn(c, m)
  {
    forall rows' | multiset(rows') == multiset(rows) :: SumsStayFinite(Observations(c, m, rows'))
  }

  lemma {:induction false} SumIsMonotone<T>(f: T -> real, g: T -> real, s: seq<T>)
    requires forall x | x in s :: f(x) <= g(x)
    ensures Sum(f, s) <= Sum(g, s)
  {
    if s != [] {
      var init := s[..|s| - 1];
      assert forall x | x in init :: x in s;
      SumIsMonotone(f, g, init);
      assert s[|s| - 1] in s;
    }
  }

  ghost function Zero<T>(): T -> real { x => 0.0 }

  lemma {:induction false} SumOfZeros<T>(s: seq<T>)
    ensures Sum(Zero<T>(), s) == 0.0
  {
    if s != [] {
      SumOfZeros(s[..|s| - 1]);
    }
  }

  /** A running sum lies between the group's falling and rising parts. */
  lemma RunningSumIsBounded(c: Context, m: string, rows: seq<Scanned>, k: nat, t: Tuple)
    requires IsHistogramColumn(c, m) && k <= |rows|
    ensures Sum(Falling(c, m, t), rows) <= Total(ValuesOf(Observations(c, m, rows[..k]), t))
    ensures Total(ValuesOf(Observations(c, m, rows[..k]), t)) <= Sum(Rising(c, m, t), rows)
  {
    hide Configured, Observations, ValuesOf, Total, Observes;
    var seen, rest := rows[..k], rows[k..];
    assert rows == seen + rest;
    GroupsAreSums(c, m, seen, t, 0.0);
    SumIsMonotone(Value(c, m, t), Rising(c, m, t), seen);
    SumIsMonotone(Falling(c, m, t), Value(c, m, t), seen);
    SumIsMonotone(Zero(), Rising(c, m, t), rest);
    SumIsMonotone(Falling(c, m, t), Zero(), rest);
    SumOfZeros(rest);
    SumOfConcatenation(Rising(c, m, t), seen, rest);
    SumOfConcatenation(Falling(c, m, t), seen, rest);
  }

  lemma {:induction false} BoundedSumsStayFinite(c: Context, m: string, rows: seq<Scanned>, k: nat)
    requires IsHistogramColumn(c, m) && k <= |rows| && BoundedBothWays(c, m, rows)
    ensures SumsStayFinite(Observations(c, m, rows[..k]))
  {
    hide Configured, Observations, SumsStayFinite, Rising, Falling;
    if k == 0 {
      Publish.NoSamplesNoOverflow();
      NoRowsNoSamples(c, m);
      assert rows[..0] == [];
    } else {
      BoundedSumsStayFinite(c, m, rows, k - 1);
      var before, r := rows[..k - 1], rows[k - 1];
      assert rows[..k] == before + [r];
      if IsRow(c, r) {
        Publish.OneMoreRow(c, m, before, r.data);
        RunningSumIsBounded(c, m, rows, k, LabelsOf(c, r.data));
        assert (before + [r])[|before + [r]| - 1] == r;
      } else {
        Scan.ObservationsOfExtension(c, m, before, r);
        assert Observations(c, m, before) + [] == Observations(c, m, before);
      }
    }
  }

  lemma NoRowsNoSamples(c: Context, m: string)
    requires IsHistogramColumn(c, m)
    ensures Observations(c, m, []) == []
  {
  }

  lemma BoundsIgnoreRowOrder(c: Context, m: string, rows: seq<Scanned>, rows': seq<Scanned>)
    requires IsHistogramColumn(c, m) && multiset(rows) == multiset(rows') && BoundedBothWays(c, m, rows)
    ensures BoundedBothWays(c, m, rows')
  {
    hide Configured, Rising, Falling, Sum;
    forall t ensures Sum(Rising(c, m, t), rows') < OVERFLOW && -OVERFLOW < Sum(Falling(c, m, t), rows') {
      SumIsOrderFree(Rising(c, m, t), rows, rows');
      SumIsOrderFree(Falling(c, m, t), rows, rows');
    }
  }

  /** The rows that satisfy p, then the others: an order in which the sum over p is a running sum. */
  lemma SelectedRowsFirst(c: Context, m: string, rows: seq<Scanned>, t: Tuple, p: Scanned -> bool)
    requires IsHistogramColumn(c, m) && SafeInEveryOrder(c, m, rows)
    ensures Representable(Sum(Value(c, m, t), Filter(p, rows)))
  {
    hide Configured, Observations, Observes, ValuesOf, Total, SumsStayFinite, Value, Filter, Sum;
    var first, rest := Filter(p, rows), Filter(Not(p), rows);
    FilterSplits(p, rows);
    assert SumsStayFinite(Observations(c, m, first + rest));
    ObservationsOfConcatenation(c, m, first, rest);
    PrefixSumsAreFinite(Observations(c, m, first), Observations(c, m, rest), t);
    GroupsAreSums(c, m, first, t, 0.0);
  }

  lemma PrefixSumsAreFinite(a: seq<Sample>, b: seq<Sample>, t: Tuple)
    requires SumsStayFinite(a + b)
    ensures Representable(Total(ValuesOf(a, t)))
  {
    assert (a + b)[..|a|] == a;
  }

  lemma {:induction false} ObservationsOfConcatenation(c: Context, m: string, a: seq<Scanned>, b: seq<Scanned>)
    requires IsHistogramColumn(c, m)
    ensures Observations(c, m, a + b) == Observations(c, m, a) + Observations(c, m, b)
    decreases |b|
  {
    hide Configured, SampleOf;
    if b == [] {
      assert a + b == a;
    } else {
      assert (a + b)[..|a + b| - 1] == a + b[..|b| - 1];
      ObservationsOfConcatenation(c, m, a, b[..|b| - 1]);
    }
  }

  /** The sum of f over all rows is the sum of v over the selected rows, if f is v on those and zero elsewhere. */
  lemma {:induction false} SumOverSelected<T>(f: T -> real, v: T -> real, p: T -> bool, s: seq<T>)
    requires forall x | x in s :: f(x) == if p(x) then v(x) else 0.0
    ensures Sum(f, s) == Sum(v, Filter(p, s))
  {
    if s != [] {
      var init, last := s[..|s| - 1], s[|s| - 1];
      assert last in s && forall x | x in init :: x in s;
      SumOverSelected(f, v, p, init);
      if p(last) {
        SumOfConcatenation(v, Filter(p, init), [last]);
        assert [last][..0] == [];
        assert Sum(v, [last]) == v(last);
      } else {
        assert Filter(p, s) == Filter(p, init);
      }
    }
  }

  lemma SafetyBoundsBothWays(c: Context, m: string, rows: seq<Scanned>, t: Tuple)
    requires IsHistogramColumn(c, m) && SafeInEveryOrder(c, m, rows)
    ensures Sum(Rising(c, m, t), rows) < OVERFLOW && -OVERFLOW < Sum(Falling(c, m, t), rows)
  {
    hide Configured, Observes, SafeInEveryOrder;
    var up: Scanned -> bool := r => Value(c, m, t)(r) > 0.0;
    var down: Scanned -> bool := r => Value(c, m, t)(r) < 0.0;
    SelectedRowsFirst(c, m, rows, t, up);
    SelectedRowsFirst(c, m, rows, t, down);
    SumOverSelected(Rising(c, m, t), Value(c, m, t), up, rows);
    SumOverSelected(Falling(c, m, t), Value(c, m, t), down, rows);
  }

  /**
   Exactly when the row order cannot make the refresh fail by overflow: a column's running sums stay finite in
   every order of the rows if and only if, for every group, the positive values alone and the negative values
   alone stay within the range.
   */
  lemma EveryOrderIsSafeIffBounded(c: Context, m: string, rows: seq<Scanned>)
    requires IsHistogramColumn(c, m)
    ensures SafeInEveryOrder(c, m, rows) <==> BoundedBothWays(c, m, rows)
  {
    hide Configured, Observations, SumsStayFinite, Rising, Falling;
    if SafeInEveryOrder(c, m, rows) {
      forall t ensures Sum(Rising(c, m, t), rows) < OVERFLOW && -OVERFLOW < Sum(Falling(c, m, t), rows) {
        SafetyBoundsBothWays(c, m, rows, t);
      }
    }
    if BoundedBothWays(c, m, rows) {
      forall rows' | multiset(rows') == multiset(rows) ensures SumsStayFinite(Observations(c, m, rows')) {
        BoundsIgnoreRowOrder(c, m, rows, rows');
        BoundedSumsStayFinite(c, m, rows', |rows'|);
        assert rows'[..|rows'|] == rows';
      }
    }
  }

  /* ---------------- the order does matter ---------------- */

  /** x, x, -x overflows; x, -x, x does not. */
  ghost predicate OverflowsInOneOrderOnly(t: Tuple, x: real) {
    var a, b := [Sample(t, x), Sample(t, x), Sample(t, -x)], [Sample(t, x), Sample(t, -x), Sample(t, x)];
    multiset(a) == multiset(b) && !SumsStayFinite(a) && SumsStayFinite(b)
  }

  lemma OverflowDependsOnOrder(t: Tuple, x: real)
    requires Representable(0.0 + x) && !Representable(x + x) && Representable(x + -x) && Representable(x + -x + x)
    ensures OverflowsInOneOrderOnly(t, x)
  {
    hide SumsStayFinite;
    EqualSignsOverflow(t, x);
    AlternatingSignsDoNot(t, x);
    SwapLastTwo(Sample(t, x), Sample(t, -x));
  }

  lemma EqualSignsOverflow(t: Tuple, x: real)
    requires !Representable(x + x)
    ensures !SumsStayFinite([Sample(t, x), Sample(t, x), Sample(t, -x)])
  {
    hide SumsStayFinite, ValuesOf, Total, Representable;
    var p, q := Sample(t, x), Sample(t, -x);
    NoObservations(t);
    assert [] + [p] == [p] && [p] + [p] == [p, p] && [p, p] + [q] == [p, p, q];
    OneMoreValue(t, [], [], x);
    OneMoreValue(t, [p], [x], x);
    OneMoreValue(t, [p, p], [x] + [x], -x);
  }

  lemma AlternatingSignsDoNot(t: Tuple, x: real)
    requires Representable(0.0 + x) && Representable(x + -x) && Representable(x + -x + x)
    ensures SumsStayFinite([Sample(t, x), Sample(t, -x), Sample(t, x)])
  {
    hide SumsStayFinite, ValuesOf, Total, Representable;
    var p, q := Sample(t, x), Sample(t, -x);
    Publish.NoSamplesNoOverflow();
    NoObservations(t);
    assert [] + [p] == [p] && [p] + [q] == [p, q] && [p, q] + [p] == [p, q, p];
    OneMoreValue(t, [], [], x);
    OneMoreValue(t, [p], [x], -x);
    OneMoreValue(t, [p, q], [x] + [-x], x);
  }

  lemma SwapLastTwo<T>(p: T, q: T)
    ensures multiset([p, p, q]) == multiset([p, q, p])
  {
  }

  /** Half the range: two to the power of 1023. */
  lemma HalfTheRange(x: real)
    requires x == Pow2(1023)
    ensures Representable(0.0 + x) && !Representable(x + x)
    ensures Representable(x + -x) && Representable(x + -x + x)
  {
    Pow2Grows(970, 1023);
    assert Pow2(1024) == 2.0 * Pow2(1023);
    OverflowIsPositive();
  }

  lemma NoObservations(t: Tuple)
    ensures ValuesOf([], t) == [] && Total([]) == 0.0
  {
  }

  lemma OneMoreValue(t: Tuple, samples: seq<Sample>, vals: seq<real>, v: real)
    requires ValuesOf(samples, t) == vals
    ensures ValuesOf(samples + [Sample(t, v)], t) == vals + [v]
    ensures Total(vals + [v]) == Total(vals) + v
    ensures SumsStayFinite(samples + [Sample(t, v)]) <==> SumsStayFinite(samples) && Representable(Total(vals) + v)
  {
    hide SumsStayFinite;
    Publish.OneMoreSample(samples, t, v);
    ValuesOfExtension(samples, t, v, t);
    CountsOfOneMoreValue(vals, v, 0.0);
  }

  /** A query with no label and one histogram column. */
  function ExampleQuery(): Query {
    assert Encodes(0, 0, 0.0);
    var column := Column("v", Usage.Histogram, "", [Fin(0.0)], None, None);
    Query("q", "q", [], [], 0, 0.1, 1, 0, 0, false, false, map["v" := column], ["v"], [], ["v"])
  }

  lemma ExampleIsConfigured() returns (c: Context)
    ensures c.Valid() && c.q == ExampleQuery() && c.columns == ["v"] && c.constLabels == map[]
  {
    var env := ValidEnvExists();
    var q := ExampleQuery();
    c := Context(env, q, map[], ["v"]);
    ExampleIsAccepted(env);
    assert NoConflict(map[], q);
  }

  lemma ExampleIsAccepted(env: Env)
    requires forall name :: env.validMetricName(name)
    ensures Accepted(env, ExampleQuery())
  {
    var q := ExampleQuery();
    assert LabelList(q) == [];
    assert LabelColumns(q) && ValidLabels(env, q);
    assert MetricColumns(q) && ValidFamilies(env, q);
  }

  function ExampleRows(vs: seq<real>): seq<Scanned> {
    seq(|vs|, i requires 0 <= i < |vs| => Row([Double(Fin(vs[i]))]))
  }

  function ExampleSamples(vs: seq<real>): seq<Sample> {
    seq(|vs|, i requires 0 <= i < |vs| => Sample([], vs[i]))
  }

  lemma {:induction false} ExampleObservations(c: Context, vs: seq<real>)
    requires c.Valid() && c.q == ExampleQuery() && c.columns == ["v"]
    requires forall v | v in vs :: Representable(v)
    ensures Observations(c, "v", ExampleRows(vs)) == ExampleSamples(vs) && RowsOk(c, ExampleRows(vs))
  {
    hide Configured;
    if vs != [] {
      var init, v := vs[..|vs| - 1], vs[|vs| - 1];
      ExampleObservations(c, init);
      assert ExampleRows(vs) == ExampleRows(init) + [Row([Double(Fin(v))])];
      assert ExampleSamples(vs) == ExampleSamples(init) + [Sample([], v)];
      assert v in vs;
      ExampleObservation(c, v);
      Scan.ObservationsOfExtension(c, "v", ExampleRows(init), Row([Double(Fin(v))]));
    }
  }

  lemma ExampleObservation(c: Context, v: real)
    requires c.Valid() && c.q == ExampleQuery() && c.columns == ["v"] && Representable(v)
    ensures ObservationOf(c, "v", [Double(Fin(v))]) == Casting.Present(v)
    ensures RowOk(c, Row([Double(Fin(v))])) && LabelsOf(c, [Double(Fin(v))]) == []
  {
    hide Configured;
    assert v * 1.0 == v;
  }

  /** One result set whose refresh fails for its rows in one order and succeeds for them in another. */
  lemma OrderCanFailARefresh() returns (c: Context, rows: seq<Scanned>, rows': seq<Scanned>)
    ensures c.Valid() && multiset(rows) == multiset(rows')
    ensures !Publishable(c.env, c.q, c.constLabels, ResultSet(c.columns, rows, false))
    ensures Publishable(c.env, c.q, c.constLabels, ResultSet(c.columns, rows', false))
  {
    hide Configured, Observations, SumsStayFinite, OverflowsInOneOrderOnly, RowsOk, Representable;
    c := ExampleIsConfigured();
    var x := Pow2(1023);
    HalfTheRange(x);
    OverflowDependsOnOrder([], x);
    rows, rows' := ExampleRows([x, x, -x]), ExampleRows([x, -x, x]);
    ExampleOutcomes(c, x, rows, rows');
  }

  lemma ExampleOutcomes(c: Context, x: real, rows: seq<Scanned>, rows': seq<Scanned>)
    requires c.Valid() && c.q == ExampleQuery() && c.columns == ["v"] && OverflowsInOneOrderOnly([], x)
    requires rows == ExampleRows([x, x, -x]) && rows' == ExampleRows([x, -x, x]) && Representable(x)
    ensures multiset(rows) == multiset(rows')
    ensures !Publishable(c.env, c.q, c.constLabels, ResultSet(c.columns, rows, false))
    ensures Publishable(c.env, c.q, c.constLabels, ResultSet(c.columns, rows', false))
  {
    hide Configured, SumsStayFinite, RowsOk, Observations;
    var p, q := Row([Double(Fin(x))]), Row([Double(Fin(-x))]);
    assert rows == [p, p, q] && rows' == [p, q, p];
    SwapLastTwo(p, q);
    ExampleIsPublishableIff(c, [x, x, -x]);
    ExampleIsPublishableIff(c, [x, -x, x]);
    assert ExampleSamples([x, x, -x]) == [Sample([], x), Sample([], x), Sample([], -x)];
    assert ExampleSamples([x, -x, x]) == [Sample([], x), Sample([], -x), Sample([], x)];
  }

  lemma ExampleIsPublishableIff(c: Context, vs: seq<real>)
    requires c.Valid() && c.q == ExampleQuery() && c.columns == ["v"]
    requires forall v | v in vs :: Representable(v)
    ensures Publishable(c.env, c.q, c.constLabels, ResultSet(c.columns, ExampleRows(vs), false))
            <==> SumsStayFinite(ExampleSamples(vs))
  {
    hide Configured, SumsStayFinite, RowsOk, Observations;
    ExampleObservations(c, vs);
    assert c == Context(c.env, c.q, c.constLabels, c.columns);
    assert forall t | t in Tuples(ExampleSamples(vs)) :: t == [];
    assert IsHistogram(c.q, "v") && "v" in c.q.metricNames;
  }
}

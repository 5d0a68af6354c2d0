/**
 Values shared by every component: byte strings, floating-point numbers, SQL data,
 columns, queries, descriptors and metrics.
 */
module Core {
  import Clock

  datatype Option<+T> = None | Some(value: T)

  newtype byte = x: int | 0 <= x < 256

  /** A Go string, whose length counts bytes. */
  type Bytes = seq<byte>

  /** The ordered values of a query's label columns. */
  type Tuple = seq<Bytes>

  /* ---------------- floating point ---------------- */

  /** A float64. Finite values are exact reals: rounding is not modelled, overflow is. */
  datatype Float = NaN | PosInf | NegInf | Fin(r: real) {
    predicate Negative() { NegInf? || (Fin? && r < 0.0) }
  }

  function Pow2(n: nat): (r: real)
    ensures r >= 1.0
  {
    if n == 0 then 1.0 else 2.0 * Pow2(n - 1)
  }

  /** The magnitude at which round-to-nearest turns a float64 result into an infinity. */
  const OVERFLOW: real := Pow2(1024) - Pow2(970)

  predicate Representable(r: real) { -OVERFLOW < r < OVERFLOW }

  function Normalize(r: real): Float {
    if OVERFLOW <= r then PosInf else if r <= -OVERFLOW then NegInf else Fin(r)
  }

  function Multiply(a: Float, b: Float): Float {
    if a.NaN? || b.NaN? then NaN
    else if a.Fin? && b.Fin? then Normalize(a.r * b.r)
    else if a == Fin(0.0) || b == Fin(0.0) then NaN
    else if a.Negative() == b.Negative() then PosInf
    else NegInf
  }

  /** m times two to the power of e */
  function Binary(m: int, e: int): real {
    if e >= 0 then m as real * Pow2(e) else m as real / Pow2(-e)
  }

  /** A significand of 53 bits and an exponent in the range of a float64. */
  predicate Encodes(m: int, e: int, r: real) {
    -0x20_0000_0000_0000 < m < 0x20_0000_0000_0000 && -1074 <= e <= 971 && r == Binary(m, e)
  }

  /** A value that a float64 holds without rounding. */
  ghost predicate IsFloat64(f: Float) {
    f.Fin? ==> exists m, e :: Encodes(m, e, f.r)
  }

  /** A number as it stands in the configuration: read into a float64. */
  type Float64 = f: Float | IsFloat64(f) witness NaN

  lemma {:induction false} Pow2Grows(m: nat, n: nat)
    requires m <= n
    ensures 1.0 <= Pow2(m) <= Pow2(n)
    ensures m < n ==> 2.0 * Pow2(m) <= Pow2(n)
    decreases n
  {
    if n == 0 {
    } else if m == n {
      Pow2Grows(m - 1, m - 1);
    } else {
      Pow2Grows(m, n - 1);
    }
  }

  lemma OverflowIsPositive()
    ensures 1.0 <= OVERFLOW
  {
    Pow2Grows(970, 1024);
  }

  /* ---------------- library behaviour taken as given ---------------- */

  /**
   The library functions the exporter relies on. They are parameters of the model:
   strconv.ParseFloat, strconv.FormatFloat(_, 'g', -1, 64), fmt's %v for a float64, and the
   validity tests of client_golang for label values, label names and metric names.
   */
  datatype Env = Env(
    parseFloat: Bytes -> Option<Float>,
    formatBound: real -> Bytes,
    formatFloat: Float -> Bytes,
    validText: Bytes -> bool,
    validLabelName: string -> bool,
    validMetricName: string -> bool)
  {
    /**
     Formatting is injective on the values of a float64, produces valid text, and never produces the text of the
     generated bucket.
     */
    ghost predicate Valid() {
      && (forall a, b | IsFloat64(Fin(a)) && IsFloat64(Fin(b)) && formatBound(a) == formatBound(b) :: a == b)
      && (forall a :: formatBound(a) != PLUS_INF && validText(formatBound(a)))
      && validText(PLUS_INF)
      && validLabelName("le")
    }
  }

  /** "+Inf" */
  const PLUS_INF: Bytes := [0x2B, 0x49, 0x6E, 0x66]

  /** A number of its own for every finite value of a float64. */
  ghost function Code(r: real): nat
    requires IsFloat64(Fin(r))
  {
    var m, e :| Encodes(m, e, r);
    (m + 0x20_0000_0000_0000) * 2046 + (e + 1074)
  }

  lemma CodesDiffer(a: real, b: real)
    requires IsFloat64(Fin(a)) && IsFloat64(Fin(b)) && Code(a) == Code(b)
    ensures a == b
  {
    hide Binary;
    var m, e :| Code(a) == (m + 0x20_0000_0000_0000) * 2046 + (e + 1074) && Encodes(m, e, a);
    var n, f :| Code(b) == (n + 0x20_0000_0000_0000) * 2046 + (f + 1074) && Encodes(n, f, b);
    assert m == n && e == f;
  }

  /** A format that writes a value as that many zero bytes. */
  ghost function SomeFormat(): real -> Bytes {
    (r: real) => if IsFloat64(Fin(r)) then seq(Code(r), _ => 0) else []
  }

  /** The assumptions can be met, even with every metric name valid. */
  lemma ValidEnvExists() returns (env: Env)
    ensures env.Valid() && forall name :: env.validMetricName(name)
  {
    env := Env(_ => None, SomeFormat(), _ => [], _ => true, _ => true, _ => true);
    forall a, b | IsFloat64(Fin(a)) && IsFloat64(Fin(b)) && env.formatBound(a) == env.formatBound(b) ensures a == b {
      assert |env.formatBound(a)| == Code(a) && |env.formatBound(b)| == Code(b);
      CodesDiffer(a, b);
    }
    forall a ensures env.formatBound(a) != PLUS_INF {
      assert PLUS_INF[0] == 0x2B;
      assert env.formatBound(a) != [] ==> env.formatBound(a)[0] == 0;
    }
  }

  /* ---------------- SQL data ---------------- */

  /** A datum as database/sql scans it into an interface value. */
  datatype Datum =
    | Null
    | Int(i: int)
    | Double(f: Float)
    | Timestamp(unix: int)
    | Raw(raw: Bytes)
    | Text(text: Bytes)
    | Bool(b: bool)
    | Unknown

  /* ---------------- configuration ---------------- */

  datatype Usage = Discard | Label | Gauge | Counter | Histogram

  datatype Column = Column(
    name: string,
    usage: Usage,
    rename: string,
    bucket: seq<Float64>,
    scale: Option<Float>,
    default: Option<Float>)
  {
    predicate IsHistogram() { usage.Histogram? }

    /** The name shown to Prometheus. */
    function Shown(): string { if rename != "" then rename else name }

    function ScaleFactor(): Float {
      if scale.Some? then scale.value else Fin(1.0)
    }

    /** The finite bounds of a validated bucket list. */
    function Bounds(): seq<real> {
      seq(|bucket|, i requires 0 <= i < |bucket| => if bucket[i].Fin? then bucket[i].r else 0.0)
    }
  }

  datatype Predicate = Predicate(name: string, ttl: Clock.Duration)

  datatype Query = Query(
    name: string,
    branch: string,
    predicates: seq<Predicate>,
    tags: seq<string>,
    ttl: Clock.Duration,
    timeout: real,
    priority: int,
    minVersion: int,
    maxVersion: int,
    fatal: bool,
    skip: bool,
    columns: map<string, Column>,
    columnNames: seq<string>,
    labelNames: seq<string>,
    metricNames: seq<string>)

  /* ---------------- Prometheus ---------------- */

  datatype Desc = Desc(family: string, variableLabels: seq<string>, constLabels: map<string, Bytes>)

  datatype ValueType = GaugeValue | CounterValue

  datatype Metric = Metric(desc: Desc, labels: Tuple, kind: ValueType, value: Float)

  predicate NoDuplicates<T(==)>(s: seq<T>) {
    forall i, j | 0 <= i < j < |s| :: s[i] != s[j]
  }

  /** Variable and constant label names of a descriptor are pairwise distinct. */
  predicate DistinctLabels(d: Desc) {
    && NoDuplicates(d.variableLabels)
    && (forall l | l in d.variableLabels :: l !in d.constLabels)
  }

  /** The descriptors NewDesc builds without recording an error. */
  predicate ValidDesc(env: Env, d: Desc) {
    && env.validMetricName(d.family)
    && (forall l | l in d.variableLabels :: env.validLabelName(l))
    && (forall l | l in d.constLabels :: env.validLabelName(l))
    && DistinctLabels(d)
  }

  predicate ValidTexts(env: Env, labels: Tuple) {
    forall l | l in labels :: env.validText(l)
  }

  /** NewConstMetric fails on a bad descriptor, a wrong number of label values, or invalid text. */
  function NewConstMetric(env: Env, d: Desc, kind: ValueType, value: Float, labels: Tuple): Option<Metric> {
    if ValidDesc(env, d) && |labels| == |d.variableLabels| && ValidTexts(env, labels)
    then Some(Metric(d, labels, kind, value))
    else None
  }
}

/** Metric families, the JSON they are written as, and what reading that JSON gives back. */
module Metrics {
  import opened Basics
  import opened Json

  // ---- metric families (prometheus/metric_family.h) ----

  type int64 = x: int | -0x8000_0000_0000_0000 <= x < 0x8000_0000_0000_0000

  type uint64 = x: int | 0 <= x < 0x1_0000_0000_0000_0000

  datatype Double = Finite(r: real) | Infinity | MinusInfinity | NaN

  const ZERO := Finite(0.0)

  datatype MetricType = Counter | Gauge | Summary | Untyped | Histogram

  datatype Label = Label(name: string, value: string)

  datatype Quantile = Quantile(quantile: Double, value: Double)

  datatype Bucket = Bucket(cumulativeCount: uint64, upperBound: Double)

  datatype SummaryValue = SummaryValue(sampleCount: uint64, sampleSum: Double, quantiles: seq<Quantile>)

  datatype HistogramValue = HistogramValue(sampleCount: uint64, sampleSum: Double, buckets: seq<Bucket>)

  datatype ClientMetric = ClientMetric(
    labels: seq<Label>, counter: Double, gauge: Double, untyped: Double,
    summary: SummaryValue, histogram: HistogramValue, timestampMs: int64)

  const EMPTY_METRIC := ClientMetric([], ZERO, ZERO, ZERO, SummaryValue(0, ZERO, []), HistogramValue(0, ZERO, []), 0)

  datatype MetricFamily = MetricFamily(name: string, help: string, kind: MetricType, metrics: seq<ClientMetric>)

  // ---- numbers as text ----

  /** How doubles are printed and read back (`operator<<` with 16 digits, `std::stod`; `None` is a
      thrown exception), and how integers become doubles. Nothing is assumed about these: the 16
      digits of the largest double, for one, denote a number out of range, so reading them throws. */
  datatype Doubles = Doubles(show: Double -> string, parse: string -> Option<Double>, ofInt: int -> Double) {
    /** What is printed can be read. */
    predicate Legible(x: Double) { parse(show(x)).Some? }

    /** What a number is after it has been printed and read. */
    function Round(x: Double): Double {
      if Legible(x) then parse(show(x)).value else x
    }

    /** Reading it loses nothing that would show when it is printed again. */
    predicate Steady(x: Double) { show(Round(x)) == show(x) }

    /** Reading it loses nothing. */
    predicate Exact(x: Double) { parse(show(x)) == Some(x) }
  }

  // ---- ordered keys ----

  /** `std::string` order. */
  predicate Leq(a: string, b: string) {
    a == [] || (b != [] && (a[0] < b[0] || (a[0] == b[0] && Leq(a[1..], b[1..]))))
  }

  lemma {:induction false} LeqTotal(a: string, b: string)
    ensures Leq(a, b) || Leq(b, a)
    ensures Leq(a, b) && Leq(b, a) ==> a == b
  {
    if a != [] && b != [] {
      LeqTotal(a[1..], b[1..]);
      assert a == [a[0]] + a[1..] && b == [b[0]] + b[1..];
    }
  }

  lemma {:induction false} LeqTransitive(a: string, b: string, c: string)
    requires Leq(a, b) && Leq(b, c)
    ensures Leq(a, c)
  {
    if a != [] && b[0] == a[0] == c[0] {
      LeqTransitive(a[1..], b[1..], c[1..]);
    }
  }

  lemma LeastKey(s: set<string>) returns (k: string)
    requires s != {}
    ensures k in s && forall x <- s :: Leq(k, x)
    decreases |s|
  {
    k :| k in s;
    if s == {k} {
      LeqTotal(k, k);
    } else {
      var m := LeastKey(s - {k});
      forall x | x in s ensures Leq(if Leq(k, m) then k else m, x) {
        LeqTotal(k, m);
        LeqTotal(k, k);
        if x != k && Leq(k, m) {
          LeqTransitive(k, m, x);
        }
      }
      k := if Leq(k, m) then k else m;
    }
  }

  lemma LeastExists(s: set<string>)
    requires s != {}
    ensures exists k :: k in s && forall x <- s :: Leq(k, x)
  {
    var k := LeastKey(s);
  }

  lemma LeastUnique()
    ensures forall a, b :: Leq(a, b) && Leq(b, a) ==> a == b
  {
    forall a, b | Leq(a, b) && Leq(b, a) ensures a == b {
      LeqTotal(a, b);
    }
  }

  /** Strictly increasing. */
  predicate Increasing(ks: seq<string>) {
    forall i, j | 0 <= i < j < |ks| :: ks[i] != ks[j] && Leq(ks[i], ks[j])
  }

  function LeastOf(s: set<string>): (k: string)
    requires s != {}
    ensures k in s && forall x <- s :: Leq(k, x)
  {
    LeastExists(s);
    LeastUnique();
    var k :| k in s && forall x <- s :: Leq(k, x);
    k
  }

  lemma IncreasingCons(k: string, ks: seq<string>)
    requires Increasing(ks) && forall x <- ks :: k != x && Leq(k, x)
    ensures Increasing([k] + ks)
  {
    hide Leq;
    forall i, j | 0 <= i < j < |[k] + ks| ensures ([k] + ks)[i] != ([k] + ks)[j] && Leq(([k] + ks)[i], ([k] + ks)[j]) {
      assert ([k] + ks)[j] == ks[j - 1] && ks[j - 1] in ks;
    }
  }

  /** The order in which the keys of an object are visited. */
  function SortedKeys(s: set<string>): (ks: seq<string>)
    ensures Increasing(ks)
    ensures forall k :: k in ks <==> k in s
    decreases |s|
  {
    if s == {} then []
    else
      var k := LeastOf(s);
      var rest := SortedKeys(s - {k});
      IncreasingCons(k, rest);
      [k] + rest
  }

  /** Only one increasing sequence holds exactly the keys of a set. */
  lemma {:induction false} IncreasingUnique(a: seq<string>, b: seq<string>)
    requires Increasing(a) && Increasing(b) && (forall k :: k in a <==> k in b)
    ensures a == b
    decreases |a|
  {
    if b != [] {
      assert b[0] in b;
    }
    if a != [] {
      assert a[0] in b && b != [] && b[0] in a;
      var i :| 0 <= i < |b| && b[i] == a[0];
      var j :| 0 <= j < |a| && a[j] == b[0];
      LeqTotal(a[0], b[0]);
      assert a[0] == b[0];
      forall k ensures k in a[1..] <==> k in b[1..] {
        if k in a[1..] {
          var n :| 0 <= n < |a| - 1 && a[1..][n] == k;
          assert a[n + 1] in b && a[0] != a[n + 1];
          var m :| 0 <= m < |b| && b[m] == k;
          assert b[1..][m - 1] == k;
        }
        if k in b[1..] {
          var n :| 0 <= n < |b| - 1 && b[1..][n] == k;
          assert b[n + 1] in a && b[0] != b[n + 1];
          var m :| 0 <= m < |a| && a[m] == k;
          assert a[1..][m - 1] == k;
        }
      }
      IncreasingUnique(a[1..], b[1..]);
      assert a == [a[0]] + a[1..] && b == [b[0]] + b[1..];
    }
  }

  // ---- the writer ----

  /** A list under construction is a null value until its first element. */
  function ListJson(js: seq<Json>): Json {
    if js == [] then Null else Array(js)
  }

  function WriteAll<T>(write: T -> Json, xs: seq<T>): (js: seq<Json>)
    ensures |js| == |xs|
  {
    seq(|xs|, i requires 0 <= i < |xs| => write(xs[i]))
  }

  function DoubleJson(d: Doubles, x: Double): Json { String(d.show(x)) }

  function TypeJson(t: MetricType): Json {
    match t
    case Counter => String("Counter")
    case Gauge => String("Gauge")
    case Summary => String("Summary")
    case Untyped => String("Untyped")
    case Histogram => String("Histogram")
  }

  function BucketJson(d: Doubles): Bucket -> Json {
    (b: Bucket) => Object(map["max" := DoubleJson(d, b.upperBound), "count" := Number(b.cumulativeCount)])
  }

  function QuantileJson(d: Doubles): Quantile -> Json {
    (q: Quantile) => Object(map["quantile" := DoubleJson(d, q.quantile), "value" := DoubleJson(d, q.value)])
  }

  /** Labels are assigned one after the other into an object. */
  function LabelsMap(labels: seq<Label>): map<string, Json>
    decreases |labels|
  {
    if labels == [] then map[]
    else
      var l := labels[|labels| - 1];
      LabelsMap(labels[..|labels| - 1])[l.name := String(l.value)]
  }

  /** What a metric writes besides its value. */
  function MetadataMap(m: ClientMetric): map<string, Json> {
    (if m.labels == [] then map[] else map["labels" := Object(LabelsMap(m.labels))])
    + (if m.timestampMs == 0 then map[] else map["timestamp_ms" := Number(m.timestampMs)])
  }

  /** The value of a metric, of which only the part of its family's type is written. */
  function ValueMap(d: Doubles, m: ClientMetric, kind: MetricType): map<string, Json> {
    match kind
    case Counter => map["value" := DoubleJson(d, m.counter)]
    case Gauge => map["value" := DoubleJson(d, m.gauge)]
    case Untyped => map["value" := DoubleJson(d, m.untyped)]
    case Histogram =>
      map["count" := Number(m.histogram.sampleCount), "sum" := DoubleJson(d, m.histogram.sampleSum),
          "buckets" := ListJson(WriteAll(BucketJson(d), m.histogram.buckets))]
    case Summary =>
      map["count" := Number(m.summary.sampleCount), "sum" := DoubleJson(d, m.summary.sampleSum),
          "quantiles" := ListJson(WriteAll(QuantileJson(d), m.summary.quantiles))]
  }

  function MetricJson(d: Doubles, kind: MetricType): ClientMetric -> Json {
    (m: ClientMetric) => Object(MetadataMap(m) + ValueMap(d, m, kind))
  }

  function FamilyJson(d: Doubles): MetricFamily -> Json {
    (f: MetricFamily) => Object(map[
      "name" := String(f.name), "help" := String(f.help), "type" := TypeJson(f.kind),
      "metrics" := ListJson(WriteAll(MetricJson(d, f.kind), f.metrics))])
  }

  function FamiliesJson(d: Doubles, fs: seq<MetricFamily>): Json {
    Object(map["families" := ListJson(WriteAll(FamilyJson(d), fs))])
  }

  // ---- the reader; `None` is an exception ----

  function Decimal(n: nat): string {
    if n < 10 then [DIGITS[n]] else Decimal(n / 10) + [DIGITS[n % 10]]
  }

  const DIGITS := "0123456789"

  /** What iterating over a JSON value visits, with the key each value is given. */
  function Entries(j: Json): seq<(string, Json)> {
    match j
    case Null => []
    case Array(a) => seq(|a|, i requires 0 <= i < |a| => (Decimal(i), a[i]))
    case Object(o) =>
      var ks := SortedKeys(o.Keys);
      assert forall k <- ks :: k in o;
      seq(|ks|, i requires 0 <= i < |ks| => (ks[i], o[ks[i]]))
    case _ => [("", j)]
  }

  function Items(j: Json): (js: seq<Json>)
    ensures j == Null ==> js == []
    ensures j.Array? ==> js == j.a
  {
    var es := Entries(j);
    seq(|es|, i requires 0 <= i < |es| => es[i].1)
  }

  /** A constant `operator[]`. */
  function Field(j: Json, key: string): Option<Json> {
    if j.Has(key) then Some(j.o[key]) else None
  }

  function ReadString(j: Json): Option<string> {
    if j.String? then Some(j.s) else None
  }

  function ReadDouble(d: Doubles, j: Json): Option<Double> {
    match j
    case String(s) => d.parse(s)
    case Number(i) => Some(d.ofInt(i))
    case _ => None
  }

  /** The integer under a `get` of one of the number types of the JSON library, which takes no boolean. */
  function ReadNumber(j: Json): Option<int> {
    if j.Number? then Some(j.i) else None
  }

  function ToUint64(i: int): (r: uint64)
    ensures (i - r) % 0x1_0000_0000_0000_0000 == 0
  {
    i % 0x1_0000_0000_0000_0000
  }

  function ToInt64(i: int): (r: int64)
    ensures (i - r) % 0x1_0000_0000_0000_0000 == 0
  {
    var u := i % 0x1_0000_0000_0000_0000;
    if u < 0x8000_0000_0000_0000 then u else u - 0x1_0000_0000_0000_0000
  }

  /** Only the first letter counts, and what has none of the five is untyped. */
  function ReadType(j: Json): MetricType {
    if !j.String? || j.s == "" then Untyped
    else if j.s[0] == 'C' then Counter
    else if j.s[0] == 'G' then Gauge
    else if j.s[0] == 'S' then Summary
    else if j.s[0] == 'U' then Untyped
    else if j.s[0] == 'H' then Histogram
    else Untyped
  }

  function ReadAll<T>(read: Json -> Option<T>, js: seq<Json>): (r: Option<seq<T>>)
    ensures r.Some? ==> |r.value| == |js|
    decreases |js|
  {
    if js == [] then Some([])
    else
      var front, last := ReadAll(read, js[..|js| - 1]), read(js[|js| - 1]);
      if front.None? || last.None? then None else Some(front.value + [last.value])
  }

  function ReadCount(j: Json, key: string): Option<uint64> {
    var f := Field(j, key);
    if f.None? || ReadNumber(f.value).None? then None else Some(ToUint64(ReadNumber(f.value).value))
  }

  function ReadDoubleAt(d: Doubles, j: Json, key: string): Option<Double> {
    var f := Field(j, key);
    if f.None? then None else ReadDouble(d, f.value)
  }

  function ReadBucket(d: Doubles): Json -> Option<Bucket> {
    (j: Json) =>
      var count, max := ReadCount(j, "count"), ReadDoubleAt(d, j, "max");
      if count.None? || max.None? then None else Some(Bucket(count.value, max.value))
  }

  function ReadQuantile(d: Doubles): Json -> Option<Quantile> {
    (j: Json) =>
      var q, v := ReadDoubleAt(d, j, "quantile"), ReadDoubleAt(d, j, "value");
      if q.None? || v.None? then None else Some(Quantile(q.value, v.value))
  }

  function ReadLabels(es: seq<(string, Json)>): (r: Option<seq<Label>>)
    ensures r.Some? ==> |r.value| == |es|
    decreases |es|
  {
    if es == [] then Some([])
    else
      var front, last := ReadLabels(es[..|es| - 1]), es[|es| - 1];
      if front.None? || !last.1.String? then None else Some(front.value + [Label(last.0, last.1.s)])
  }

  /** `emplace_metric_metadata` */
  function ReadMetadata(j: Json): Option<ClientMetric> {
    var labels := if j.Has("labels") then ReadLabels(Entries(j.o["labels"])) else Some([]);
    var ts := if j.Has("timestamp_ms") then ReadNumber(j.o["timestamp_ms"]) else Some(0);
    if labels.None? || ts.None? then None
    else Some(EMPTY_METRIC.(labels := labels.value, timestampMs := ToInt64(ts.value)))
  }

  function ReadSummary(d: Doubles, j: Json): Option<SummaryValue> {
    var count, sum, list := ReadCount(j, "count"), ReadDoubleAt(d, j, "sum"), Field(j, "quantiles");
    if count.None? || sum.None? || list.None? then None
    else
      var qs := ReadAll(ReadQuantile(d), Items(list.value));
      if qs.None? then None else Some(SummaryValue(count.value, sum.value, qs.value))
  }

  function ReadHistogram(d: Doubles, j: Json): Option<HistogramValue> {
    var count, sum, list := ReadCount(j, "count"), ReadDoubleAt(d, j, "sum"), Field(j, "buckets");
    if count.None? || sum.None? || list.None? then None
    else
      var bs := ReadAll(ReadBucket(d), Items(list.value));
      if bs.None? then None else Some(HistogramValue(count.value, sum.value, bs.value))
  }

  function ReadMetric(d: Doubles, kind: MetricType): Json -> Option<ClientMetric> {
    (j: Json) =>
      var m := ReadMetadata(j);
      if m.None? then None
      else if kind.Summary? then
        var v := ReadSummary(d, j);
        if v.None? then None else Some(m.value.(summary := v.value))
      else if kind.Histogram? then
        var v := ReadHistogram(d, j);
        if v.None? then None else Some(m.value.(histogram := v.value))
      else
        var v := ReadDoubleAt(d, j, "value");
        if v.None? then None
        else Some(match kind
                  case Counter => m.value.(counter := v.value)
                  case Gauge => m.value.(gauge := v.value)
                  case _ => m.value.(untyped := v.value))
  }

  function ReadFamily(d: Doubles): Json -> Option<MetricFamily> {
    (j: Json) =>
      var name, help, kind, list := Field(j, "name"), Field(j, "help"), Field(j, "type"), Field(j, "metrics");
      if name.None? || help.None? || kind.None? || list.None? then None
      else if !name.value.String? || !help.value.String? then None
      else
        var ms := ReadAll(ReadMetric(d, ReadType(kind.value)), Items(list.value));
        if ms.None? then None else Some(MetricFamily(name.value.s, help.value.s, ReadType(kind.value), ms.value))
  }

  /** `parse_metrics` */
  function ReadFamilies(d: Doubles, j: Json): Option<seq<MetricFamily>> {
    var f := Field(j, "families");
    if f.None? then None else ReadAll(ReadFamily(d), Items(f.value))
  }
}

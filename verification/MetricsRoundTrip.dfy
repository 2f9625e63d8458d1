/** Reading back what was written gives a normal form of it, and what the normal form is. */
module MetricsRoundTrip {
  import opened Basics
  import opened Json
  import opened Metrics

  // ---- the normal form ----

  function Names(labels: seq<Label>): set<string> {
    set l <- labels :: l.name
  }

  /** The value of the last label called `k`. */
  function LastValue(labels: seq<Label>, k: string): (v: string)
    requires k in Names(labels)
    ensures Label(k, v) in labels
    decreases |labels|
  {
    var n := |labels| - 1;
    assert labels == labels[..n] + [labels[n]];
    if labels[n].name == k then labels[n].value else LastValue(labels[..n], k)
  }

  /** No later label has the name. */
  lemma {:induction false} LastValueIsLast(labels: seq<Label>, k: string) returns (i: nat)
    requires k in Names(labels)
    ensures i < |labels| && labels[i] == Label(k, LastValue(labels, k))
    ensures forall j | i < j < |labels| :: labels[j].name != k
    decreases |labels|
  {
    var n := |labels| - 1;
    assert labels == labels[..n] + [labels[n]];
    if labels[n].name == k {
      i := n;
    } else {
      i := LastValueIsLast(labels[..n], k);
    }
  }

  /** One label a name, in the order of the names. */
  function NormalLabels(labels: seq<Label>): (r: seq<Label>)
    ensures |r| == |Keys(labels)|
    ensures forall i | 0 <= i < |r| :: r[i].name == Keys(labels)[i] && r[i].name in Names(labels)
                                       && r[i].value == LastValue(labels, r[i].name)
  {
    var ks := Keys(labels);
    assert forall k <- ks :: k in Names(labels);
    seq(|ks|, i requires 0 <= i < |ks| => Label(ks[i], LastValue(labels, ks[i])))
  }

  function Keys(labels: seq<Label>): (ks: seq<string>)
    ensures Increasing(ks) && forall k :: k in ks <==> k in Names(labels)
  {
    SortedKeys(Names(labels))
  }

  function NormalBucket(d: Doubles): Bucket -> Bucket {
    (b: Bucket) => Bucket(b.cumulativeCount, d.Round(b.upperBound))
  }

  function NormalQuantile(d: Doubles): Quantile -> Quantile {
    (q: Quantile) => Quantile(d.Round(q.quantile), d.Round(q.value))
  }

  function Mapped<T, U>(f: T -> U, xs: seq<T>): (r: seq<U>)
    ensures |r| == |xs| && forall i | 0 <= i < |xs| :: r[i] == f(xs[i])
  {
    seq(|xs|, i requires 0 <= i < |xs| => f(xs[i]))
  }

  function NormalSummary(d: Doubles, v: SummaryValue): SummaryValue {
    SummaryValue(v.sampleCount, d.Round(v.sampleSum), Mapped(NormalQuantile(d), v.quantiles))
  }

  function NormalHistogram(d: Doubles, v: HistogramValue): HistogramValue {
    HistogramValue(v.sampleCount, d.Round(v.sampleSum), Mapped(NormalBucket(d), v.buckets))
  }

  /** The labels sorted by name, the last of equal names winning; of the value, the part of the
      family's type with every number as printing leaves it; nothing else. */
  function NormalMetric(d: Doubles, kind: MetricType): ClientMetric -> ClientMetric {
    (m: ClientMetric) =>
      var n := EMPTY_METRIC.(labels := NormalLabels(m.labels), timestampMs := m.timestampMs);
      match kind
      case Counter => n.(counter := d.Round(m.counter))
      case Gauge => n.(gauge := d.Round(m.gauge))
      case Untyped => n.(untyped := d.Round(m.untyped))
      case Summary => n.(summary := NormalSummary(d, m.summary))
      case Histogram => n.(histogram := NormalHistogram(d, m.histogram))
  }

  /** Field by field. */
  lemma NormalFields(d: Doubles, kind: MetricType, m: ClientMetric)
    ensures var n := NormalMetric(d, kind)(m);
            && n.labels == NormalLabels(m.labels) && n.timestampMs == m.timestampMs
            && n.counter == (if kind == Counter then d.Round(m.counter) else ZERO)
            && n.gauge == (if kind == Gauge then d.Round(m.gauge) else ZERO)
            && n.untyped == (if kind == Untyped then d.Round(m.untyped) else ZERO)
            && n.summary == (if kind == Summary then NormalSummary(d, m.summary) else EMPTY_METRIC.summary)
            && n.histogram == (if kind == Histogram then NormalHistogram(d, m.histogram) else EMPTY_METRIC.histogram)
  {
    hide NormalLabels, NormalSummary, NormalHistogram, Doubles.Round;
  }

  function NormalFamily(d: Doubles): MetricFamily -> MetricFamily {
    (f: MetricFamily) => f.(metrics := Mapped(NormalMetric(d, f.kind), f.metrics))
  }

  function Normal(d: Doubles, fs: seq<MetricFamily>): seq<MetricFamily> {
    Mapped(NormalFamily(d), fs)
  }

  // ---- the numbers that are written ----

  predicate All<T>(p: T -> bool, xs: seq<T>) {
    forall i | 0 <= i < |xs| :: p(xs[i])
  }

  function BucketIs(p: Double -> bool): Bucket -> bool {
    (b: Bucket) => p(b.upperBound)
  }

  function QuantileIs(p: Double -> bool): Quantile -> bool {
    (q: Quantile) => p(q.quantile) && p(q.value)
  }

  function MetricIs(p: Double -> bool, kind: MetricType): ClientMetric -> bool {
    (m: ClientMetric) =>
      match kind
      case Counter => p(m.counter)
      case Gauge => p(m.gauge)
      case Untyped => p(m.untyped)
      case Summary => p(m.summary.sampleSum) && All(QuantileIs(p), m.summary.quantiles)
      case Histogram => p(m.histogram.sampleSum) && All(BucketIs(p), m.histogram.buckets)
  }

  function FamilyIs(p: Double -> bool): MetricFamily -> bool {
    (f: MetricFamily) => All(MetricIs(p, f.kind), f.metrics)
  }

  /** Every number that is written of `fs` satisfies `p`. */
  predicate EveryNumber(p: Double -> bool, fs: seq<MetricFamily>) {
    All(FamilyIs(p), fs)
  }

  function Legible(d: Doubles): Double -> bool { (x: Double) => d.Legible(x) }

  function Steady(d: Doubles): Double -> bool { (x: Double) => d.Steady(x) }

  function Exact(d: Doubles): Double -> bool { (x: Double) => d.Exact(x) }

  // ---- round trips ----

  /** Reading a list back element by element: it works exactly when it does for every element. */
  lemma {:induction false} ReadWritten<T(!new), U(!new)>(
    read: Json -> Option<U>, write: T -> Json, ok: T -> bool, norm: T -> U, xs: seq<T>)
    requires forall x :: read(write(x)) == if ok(x) then Some(norm(x)) else None
    ensures ReadAll(read, Items(ListJson(WriteAll(write, xs)))) == if All(ok, xs) then Some(Mapped(norm, xs)) else None
    decreases |xs|
  {
    hide WriteAll, Mapped, All, ReadAll;
    ItemsOfList(WriteAll(write, xs));
    if xs == [] {
      NothingWritten(read, write, ok, norm);
    } else {
      var front, last := xs[..|xs| - 1], xs[|xs| - 1];
      assert xs == front + [last];
      ReadWritten(read, write, ok, norm, front);
      ItemsOfList(WriteAll(write, front));
      OneMoreWritten(write, ok, norm, front, last);
      ReadOneMore(read, WriteAll(write, front), write(last));
    }
  }

  lemma ItemsOfList(js: seq<Json>)
    ensures Items(ListJson(js)) == js
  {
  }

  lemma NothingWritten<T, U>(read: Json -> Option<U>, write: T -> Json, ok: T -> bool, norm: T -> U)
    ensures ReadAll(read, WriteAll(write, [])) == Some(Mapped(norm, [])) && All(ok, [])
  {
  }

  lemma OneMoreWritten<T, U>(write: T -> Json, ok: T -> bool, norm: T -> U, xs: seq<T>, x: T)
    ensures WriteAll(write, xs + [x]) == WriteAll(write, xs) + [write(x)]
    ensures Mapped(norm, xs + [x]) == Mapped(norm, xs) + [norm(x)]
    ensures All(ok, xs + [x]) <==> All(ok, xs) && ok(x)
  {
    assert (xs + [x])[|xs|] == x;
    assert forall i | 0 <= i < |xs| :: (xs + [x])[i] == xs[i];
  }

  lemma ReadOneMore<U>(read: Json -> Option<U>, js: seq<Json>, j: Json)
    ensures ReadAll(read, js + [j]) == if ReadAll(read, js).None? || read(j).None? then None
                                       else Some(ReadAll(read, js).value + [read(j).value])
  {
    assert (js + [j])[..|js|] == js;
  }

  lemma {:induction false} LabelsMapIs(labels: seq<Label>)
    ensures LabelsMap(labels).Keys == Names(labels)
    ensures forall k <- Names(labels) :: LabelsMap(labels)[k] == String(LastValue(labels, k))
    decreases |labels|
  {
    if labels != [] {
      var n := |labels| - 1;
      LabelsMapIs(labels[..n]);
      assert labels == labels[..n] + [labels[n]];
      assert Names(labels) == Names(labels[..n]) + {labels[n].name};
    }
  }

  lemma {:induction false} ReadLabelsIs(es: seq<(string, Json)>, ls: seq<Label>)
    requires |es| == |ls| && forall i | 0 <= i < |es| :: es[i] == (ls[i].name, String(ls[i].value))
    ensures ReadLabels(es) == Some(ls)
    decreases |es|
  {
    if es != [] {
      var n := |es| - 1;
      ReadLabelsIs(es[..n], ls[..n]);
      assert ls == ls[..n] + [ls[n]];
    }
  }

  lemma LabelsRoundTrip(labels: seq<Label>)
    ensures ReadLabels(Entries(Object(LabelsMap(labels)))) == Some(NormalLabels(labels))
  {
    LabelsMapIs(labels);
    ReadLabelsIs(Entries(Object(LabelsMap(labels))), NormalLabels(labels));
  }

  lemma NoLabels()
    ensures NormalLabels([]) == []
  {
    assert Names([]) == {};
  }

  lemma KeyLengths()
    ensures |"labels"| == 6 && |"timestamp_ms"| == 12 && |"value"| == 5 && |"count"| == 5 && |"sum"| == 3
    ensures |"buckets"| == 7 && |"quantiles"| == 9 && |"quantile"| == 8 && |"max"| == 3
  {
  }

  /** What is read of the metadata depends only on the two metadata fields. */
  lemma MetadataRoundTrip(m: ClientMetric, v: map<string, Json>)
    requires "labels" !in v && "timestamp_ms" !in v
    ensures ReadMetadata(Object(MetadataMap(m) + v))
         == Some(EMPTY_METRIC.(labels := NormalLabels(m.labels), timestampMs := m.timestampMs))
  {
    hide LabelsMap, Entries, ReadLabels, NormalLabels;
    KeyLengths();
    NoLabels();
    LabelsRoundTrip(m.labels);
  }

  lemma BucketRoundTrip(d: Doubles, b: Bucket)
    ensures ReadBucket(d)(BucketJson(d)(b)) == if BucketIs(Legible(d))(b) then Some(NormalBucket(d)(b)) else None
  {
    KeyLengths();
  }

  lemma QuantileRoundTrip(d: Doubles, q: Quantile)
    ensures ReadQuantile(d)(QuantileJson(d)(q)) == if QuantileIs(Legible(d))(q) then Some(NormalQuantile(d)(q)) else None
  {
    KeyLengths();
  }

  lemma BucketsRoundTrip(d: Doubles, bs: seq<Bucket>)
    ensures ReadAll(ReadBucket(d), Items(ListJson(WriteAll(BucketJson(d), bs))))
         == if All(BucketIs(Legible(d)), bs) then Some(Mapped(NormalBucket(d), bs)) else None
  {
    hide ReadAll, WriteAll, Items, ListJson, Mapped, ReadBucket, BucketJson, NormalBucket, BucketIs, All;
    forall b ensures ReadBucket(d)(BucketJson(d)(b)) == if BucketIs(Legible(d))(b) then Some(NormalBucket(d)(b)) else None {
      BucketRoundTrip(d, b);
    }
    ReadWritten(ReadBucket(d), BucketJson(d), BucketIs(Legible(d)), NormalBucket(d), bs);
  }

  lemma QuantilesRoundTrip(d: Doubles, qs: seq<Quantile>)
    ensures ReadAll(ReadQuantile(d), Items(ListJson(WriteAll(QuantileJson(d), qs))))
         == if All(QuantileIs(Legible(d)), qs) then Some(Mapped(NormalQuantile(d), qs)) else None
  {
    hide ReadAll, WriteAll, Items, ListJson, Mapped, ReadQuantile, QuantileJson, NormalQuantile, QuantileIs, All;
    forall q
      ensures ReadQuantile(d)(QuantileJson(d)(q)) == if QuantileIs(Legible(d))(q) then Some(NormalQuantile(d)(q)) else None
    {
      QuantileRoundTrip(d, q);
    }
    ReadWritten(ReadQuantile(d), QuantileJson(d), QuantileIs(Legible(d)), NormalQuantile(d), qs);
  }

  /** The fields of a value are found under its metadata. */
  lemma ValueFields(d: Doubles, kind: MetricType, m: ClientMetric)
    ensures var v, j := ValueMap(d, m, kind), MetricJson(d, kind)(m);
            && "labels" !in v && "timestamp_ms" !in v
            && forall k <- v :: Field(j, k) == Some(v[k])
  {
    hide MetadataMap, ListJson, WriteAll;
    KeyLengths();
  }

  lemma SummaryRoundTrip(d: Doubles, m: ClientMetric)
    ensures ReadSummary(d, MetricJson(d, Summary)(m))
         == if MetricIs(Legible(d), Summary)(m) then Some(NormalSummary(d, m.summary)) else None
  {
    hide ReadAll, WriteAll, Items, ListJson, Mapped, ReadQuantile, QuantileJson, NormalQuantile, Field, MetricJson, QuantileIs, All;
    KeyLengths();
    ValueFields(d, Summary, m);
    QuantilesRoundTrip(d, m.summary.quantiles);
  }

  lemma HistogramRoundTrip(d: Doubles, m: ClientMetric)
    ensures ReadHistogram(d, MetricJson(d, Histogram)(m))
         == if MetricIs(Legible(d), Histogram)(m) then Some(NormalHistogram(d, m.histogram)) else None
  {
    hide ReadAll, WriteAll, Items, ListJson, Mapped, ReadBucket, BucketJson, NormalBucket, Field, MetricJson, BucketIs, All;
    KeyLengths();
    ValueFields(d, Histogram, m);
    BucketsRoundTrip(d, m.histogram.buckets);
  }

  lemma ScalarRoundTrip(d: Doubles, m: ClientMetric)
    ensures ReadDoubleAt(d, MetricJson(d, Counter)(m), "value")
         == if d.Legible(m.counter) then Some(d.Round(m.counter)) else None
    ensures ReadDoubleAt(d, MetricJson(d, Gauge)(m), "value")
         == if d.Legible(m.gauge) then Some(d.Round(m.gauge)) else None
    ensures ReadDoubleAt(d, MetricJson(d, Untyped)(m), "value")
         == if d.Legible(m.untyped) then Some(d.Round(m.untyped)) else None
  {
    hide Field, MetricJson;
    ValueFields(d, Counter, m);
    ValueFields(d, Gauge, m);
    ValueFields(d, Untyped, m);
  }

  lemma MetricRoundTrip(d: Doubles, kind: MetricType, m: ClientMetric)
    ensures ReadMetric(d, kind)(MetricJson(d, kind)(m))
         == if MetricIs(Legible(d), kind)(m) then Some(NormalMetric(d, kind)(m)) else None
  {
    hide ReadMetadata, NormalLabels, ReadSummary, ReadHistogram, NormalSummary, NormalHistogram;
    hide ReadDoubleAt, MetricJson, All;
    MetadataOfMetric(d, kind, m);
    ScalarRoundTrip(d, m);
    SummaryRoundTrip(d, m);
    HistogramRoundTrip(d, m);
  }

  lemma MetadataOfMetric(d: Doubles, kind: MetricType, m: ClientMetric)
    ensures ReadMetadata(MetricJson(d, kind)(m))
         == Some(EMPTY_METRIC.(labels := NormalLabels(m.labels), timestampMs := m.timestampMs))
  {
    hide MetadataMap, ReadMetadata, NormalLabels, ListJson, WriteAll, ValueMap;
    ValueFields(d, kind, m);
    MetadataRoundTrip(m, ValueMap(d, m, kind));
  }

  /** The first letter of a type name is enough to tell the type. */
  lemma TypeRoundTrip(t: MetricType)
    ensures ReadType(TypeJson(t)) == t
  {
  }

  lemma FamilyRoundTrip(d: Doubles, f: MetricFamily)
    ensures ReadFamily(d)(FamilyJson(d)(f)) == if FamilyIs(Legible(d))(f) then Some(NormalFamily(d)(f)) else None
  {
    hide ReadAll, WriteAll, Items, ListJson, Mapped, ReadMetric, MetricJson, NormalMetric, ReadType, TypeJson;
    hide MetricIs, All;
    FamilyKeys();
    TypeRoundTrip(f.kind);
    forall m ensures ReadMetric(d, f.kind)(MetricJson(d, f.kind)(m))
                  == if MetricIs(Legible(d), f.kind)(m) then Some(NormalMetric(d, f.kind)(m)) else None {
      MetricRoundTrip(d, f.kind, m);
    }
    ReadWritten(ReadMetric(d, f.kind), MetricJson(d, f.kind), MetricIs(Legible(d), f.kind), NormalMetric(d, f.kind),
                f.metrics);
  }

  lemma FamilyKeys()
    ensures "name" != "help" && "name" != "type" && "help" != "type"
    ensures |"metrics"| == 7 && |"name"| == |"help"| == |"type"| == 4
  {
    assert "name"[0] != "help"[0] && "name"[0] != "type"[0] && "help"[0] != "type"[0];
  }

  /** Reading the JSON of any list of families gives its normal form if every number written can be
      read, and throws otherwise. */
  lemma MetricsRoundTrip(d: Doubles, fs: seq<MetricFamily>)
    ensures ReadFamilies(d, FamiliesJson(d, fs)) == if EveryNumber(Legible(d), fs) then Some(Normal(d, fs)) else None
  {
    hide ReadAll, WriteAll, Items, ListJson, Mapped, ReadFamily, FamilyJson, NormalFamily, FamilyIs, All;
    forall f ensures ReadFamily(d)(FamilyJson(d)(f)) == if FamilyIs(Legible(d))(f) then Some(NormalFamily(d)(f)) else None {
      FamilyRoundTrip(d, f);
    }
    ReadWritten(ReadFamily(d), FamilyJson(d), FamilyIs(Legible(d)), NormalFamily(d), fs);
  }

  // ---- the normal form is canonical ----

  lemma NormalNames(labels: seq<Label>)
    ensures Names(NormalLabels(labels)) == Names(labels)
    ensures NormalLabels(labels) == [] <==> labels == []
  {
    hide LastValue, Increasing;
    var ns := NormalLabels(labels);
    forall k ensures k in Names(ns) <==> k in Names(labels) {
      if k in Names(labels) {
        assert k in Keys(labels);
        var i :| 0 <= i < |ns| && Keys(labels)[i] == k;
        assert ns[i] in ns;
      }
    }
    if labels != [] {
      assert labels[0] in labels && labels[0].name in Names(labels);
    }
    NamesOfNone();
  }

  lemma NamesOfNone()
    ensures Names([]) == {}
  {
  }

  lemma NormalLastValue(labels: seq<Label>, k: string)
    requires k in Names(labels) && k in Names(NormalLabels(labels))
    ensures LastValue(NormalLabels(labels), k) == LastValue(labels, k)
  {
    var ns := NormalLabels(labels);
    var l := Label(k, LastValue(ns, k));
    assert l in ns;
    var i :| 0 <= i < |ns| && ns[i] == l;
  }

  lemma NormalLabelsWriteTheSame(labels: seq<Label>)
    ensures LabelsMap(NormalLabels(labels)) == LabelsMap(labels)
    ensures NormalLabels(labels) == [] <==> labels == []
  {
    hide LabelsMap, LastValue, NormalLabels, Names;
    var ns := NormalLabels(labels);
    NormalNames(labels);
    LabelsMapIs(labels);
    LabelsMapIs(ns);
    forall k | k in Names(labels) ensures LabelsMap(ns)[k] == LabelsMap(labels)[k] {
      NormalLastValue(labels, k);
    }
  }

  /** Writing a list of normal forms gives the same JSON exactly when it does for every element. */
  lemma WriteNormal<T(!new)>(write: T -> Json, norm: T -> T, ok: T -> bool, xs: seq<T>)
    requires forall x :: write(norm(x)) == write(x) <==> ok(x)
    ensures ListJson(WriteAll(write, Mapped(norm, xs))) == ListJson(WriteAll(write, xs)) <==> All(ok, xs)
  {
    var a, b := WriteAll(write, Mapped(norm, xs)), WriteAll(write, xs);
    assert ListJson(a) == ListJson(b) <==> a == b;
    assert forall i | 0 <= i < |xs| :: a[i] == write(norm(xs[i])) && b[i] == write(xs[i]);
    if All(ok, xs) {
      assert a == b;
    } else {
      var i :| 0 <= i < |xs| && !ok(xs[i]);
      assert a[i] != b[i];
    }
  }

  lemma BucketsWrittenAgain(d: Doubles, bs: seq<Bucket>)
    ensures ListJson(WriteAll(BucketJson(d), Mapped(NormalBucket(d), bs))) == ListJson(WriteAll(BucketJson(d), bs))
            <==> All(BucketIs(Steady(d)), bs)
  {
    hide WriteAll, Mapped, ListJson, All;
    KeyLengths();
    forall b ensures BucketJson(d)(NormalBucket(d)(b)) == BucketJson(d)(b) <==> BucketIs(Steady(d))(b) {
      var j, k := BucketJson(d)(NormalBucket(d)(b)), BucketJson(d)(b);
      assert j == k ==> j.o["max"] == k.o["max"];
    }
    WriteNormal(BucketJson(d), NormalBucket(d), BucketIs(Steady(d)), bs);
  }

  lemma QuantilesWrittenAgain(d: Doubles, qs: seq<Quantile>)
    ensures ListJson(WriteAll(QuantileJson(d), Mapped(NormalQuantile(d), qs))) == ListJson(WriteAll(QuantileJson(d), qs))
            <==> All(QuantileIs(Steady(d)), qs)
  {
    hide WriteAll, Mapped, ListJson, All;
    KeyLengths();
    forall q ensures QuantileJson(d)(NormalQuantile(d)(q)) == QuantileJson(d)(q) <==> QuantileIs(Steady(d))(q) {
      var j, k := QuantileJson(d)(NormalQuantile(d)(q)), QuantileJson(d)(q);
      assert j == k ==> j.o["quantile"] == k.o["quantile"] && j.o["value"] == k.o["value"];
    }
    WriteNormal(QuantileJson(d), NormalQuantile(d), QuantileIs(Steady(d)), qs);
  }

  lemma ValueWrittenAgain(d: Doubles, kind: MetricType, m: ClientMetric)
    ensures ValueMap(d, NormalMetric(d, kind)(m), kind) == ValueMap(d, m, kind) <==> MetricIs(Steady(d), kind)(m)
  {
    hide WriteAll, Mapped, NormalLabels, ListJson, BucketJson, QuantileJson, NormalBucket, NormalQuantile;
    hide All, BucketIs, QuantileIs, NormalMetric, Doubles.Round;
    KeyLengths();
    NormalFields(d, kind, m);
    BucketsWrittenAgain(d, m.histogram.buckets);
    QuantilesWrittenAgain(d, m.summary.quantiles);
    var v, w := ValueMap(d, NormalMetric(d, kind)(m), kind), ValueMap(d, m, kind);
    match kind {
      case Counter | Gauge | Untyped =>
        assert v == w ==> v["value"] == w["value"];
      case Histogram =>
        assert v == w ==> v["sum"] == w["sum"] && v["buckets"] == w["buckets"];
      case Summary =>
        assert v == w ==> v["sum"] == w["sum"] && v["quantiles"] == w["quantiles"];
    }
  }

  lemma MetricWrittenAgain(d: Doubles, kind: MetricType, m: ClientMetric)
    ensures MetricJson(d, kind)(NormalMetric(d, kind)(m)) == MetricJson(d, kind)(m) <==> MetricIs(Steady(d), kind)(m)
  {
    hide ValueMap, MetadataMap, NormalMetric, MetricIs;
    var n := NormalMetric(d, kind)(m);
    ValueWrittenAgain(d, kind, m);
    MetadataWrittenAgain(d, kind, m);
    ValueKeys(d, kind, n, m);
    SameRest(MetadataMap(m), ValueMap(d, n, kind), ValueMap(d, m, kind));
  }

  lemma MetadataWrittenAgain(d: Doubles, kind: MetricType, m: ClientMetric)
    ensures MetadataMap(NormalMetric(d, kind)(m)) == MetadataMap(m)
  {
    hide LabelsMap, NormalLabels, NormalMetric;
    NormalFields(d, kind, m);
    NormalLabelsWriteTheSame(m.labels);
  }

  lemma ValueKeys(d: Doubles, kind: MetricType, m: ClientMetric, n: ClientMetric)
    ensures ValueMap(d, m, kind).Keys == ValueMap(d, n, kind).Keys
  {
    hide ListJson, WriteAll;
  }

  lemma SameRest(m: map<string, Json>, v: map<string, Json>, w: map<string, Json>)
    requires v.Keys == w.Keys
    ensures m + v == m + w <==> v == w
  {
    if m + v == m + w {
      assert forall k <- v :: v[k] == (m + v)[k] == (m + w)[k] == w[k];
    }
  }

  /** Writing what was read gives the same JSON again exactly when this holds of every number written. */
  lemma WrittenAgain(d: Doubles, fs: seq<MetricFamily>)
    ensures FamiliesJson(d, Normal(d, fs)) == FamiliesJson(d, fs) <==> EveryNumber(Steady(d), fs)
  {
    hide WriteAll, Mapped, ListJson, FamilyJson, NormalFamily, FamilyIs, All;
    forall f ensures FamilyJson(d)(NormalFamily(d)(f)) == FamilyJson(d)(f) <==> FamilyIs(Steady(d))(f) {
      FamilyWrittenAgain(d, f);
    }
    WriteNormal(FamilyJson(d), NormalFamily(d), FamilyIs(Steady(d)), fs);
    var j, k := FamiliesJson(d, Normal(d, fs)), FamiliesJson(d, fs);
    assert j == k ==> j.o["families"] == k.o["families"];
  }

  lemma FamilyWrittenAgain(d: Doubles, f: MetricFamily)
    ensures FamilyJson(d)(NormalFamily(d)(f)) == FamilyJson(d)(f) <==> FamilyIs(Steady(d))(f)
  {
    hide WriteAll, Mapped, ListJson, MetricJson, NormalMetric, MetricIs, All;
    FamilyKeys();
    forall m
      ensures MetricJson(d, f.kind)(NormalMetric(d, f.kind)(m)) == MetricJson(d, f.kind)(m)
              <==> MetricIs(Steady(d), f.kind)(m)
    {
      MetricWrittenAgain(d, f.kind, m);
    }
    WriteNormal(MetricJson(d, f.kind), NormalMetric(d, f.kind), MetricIs(Steady(d), f.kind), f.metrics);
    var j, k := FamilyJson(d)(NormalFamily(d)(f)), FamilyJson(d)(f);
    assert j == k ==> j.o["metrics"] == k.o["metrics"];
  }

  /** Two lists of families, one of which can be read and both of which are written again as they were,
      are written as the same JSON exactly when their normal forms are equal. */
  lemma SameJsonExactly(d: Doubles, a: seq<MetricFamily>, b: seq<MetricFamily>)
    requires EveryNumber(Legible(d), a) && EveryNumber(Steady(d), a) && EveryNumber(Steady(d), b)
    ensures FamiliesJson(d, a) == FamiliesJson(d, b) <==> Normal(d, a) == Normal(d, b)
  {
    hide FamiliesJson, Normal, ReadFamilies, EveryNumber;
    MetricsRoundTrip(d, a);
    MetricsRoundTrip(d, b);
    WrittenAgain(d, a);
    WrittenAgain(d, b);
  }

  // ---- what survives unchanged ----

  predicate InOrder(labels: seq<Label>) {
    forall i, j | 0 <= i < j < |labels| :: labels[i].name != labels[j].name && Leq(labels[i].name, labels[j].name)
  }

  /** Label names are in order without repetition, and only the value of the family's type is set. */
  predicate Tidy(kind: MetricType, m: ClientMetric) {
    && InOrder(m.labels)
    && (kind == Counter || m.counter == ZERO)
    && (kind == Gauge || m.gauge == ZERO)
    && (kind == Untyped || m.untyped == ZERO)
    && (kind == Summary || m.summary == EMPTY_METRIC.summary)
    && (kind == Histogram || m.histogram == EMPTY_METRIC.histogram)
  }

  lemma LabelsKeptExactly(labels: seq<Label>)
    ensures NormalLabels(labels) == labels <==> InOrder(labels)
  {
    hide LastValue, Leq;
    var ks := Keys(labels);
    if InOrder(labels) {
      var ns := seq(|labels|, i requires 0 <= i < |labels| => labels[i].name);
      NamesAre(labels, ns);
      IncreasingUnique(ns, ks);
      forall i | 0 <= i < |labels| ensures NormalLabels(labels)[i] == labels[i] {
        assert labels[i] in labels && ns[i] == ks[i];
        assert Label(ns[i], LastValue(labels, ns[i])) in labels;
      }
    }
  }

  lemma NamesAre(labels: seq<Label>, ns: seq<string>)
    requires |ns| == |labels| && forall i | 0 <= i < |ns| :: ns[i] == labels[i].name
    ensures forall k :: k in ns <==> k in Keys(labels)
  {
    forall k ensures k in ns <==> k in Names(labels) {
      if k in Names(labels) {
        var l :| l in labels && l.name == k;
        var i :| 0 <= i < |labels| && labels[i] == l;
        assert ns[i] == k;
      }
      if k in ns {
        var i :| 0 <= i < |ns| && ns[i] == k;
        assert labels[i] in labels;
      }
    }
  }

  lemma MappedKept<T>(f: T -> T, xs: seq<T>)
    ensures Mapped(f, xs) == xs <==> forall i | 0 <= i < |xs| :: f(xs[i]) == xs[i]
  {
  }

  /** The numbers that come back as they were. */
  function Kept(d: Doubles): Double -> bool { (x: Double) => d.Round(x) == x }

  lemma SummaryKeptExactly(d: Doubles, v: SummaryValue)
    ensures NormalSummary(d, v) == v <==> Kept(d)(v.sampleSum) && All(QuantileIs(Kept(d)), v.quantiles)
  {
    hide Mapped;
    MappedKept(NormalQuantile(d), v.quantiles);
  }

  lemma HistogramKeptExactly(d: Doubles, v: HistogramValue)
    ensures NormalHistogram(d, v) == v <==> Kept(d)(v.sampleSum) && All(BucketIs(Kept(d)), v.buckets)
  {
    hide Mapped;
    MappedKept(NormalBucket(d), v.buckets);
  }

  lemma MetricKeptExactly(d: Doubles, kind: MetricType, m: ClientMetric)
    ensures NormalMetric(d, kind)(m) == m <==> MetricIs(Kept(d), kind)(m) && Tidy(kind, m)
  {
    hide NormalLabels, NormalSummary, NormalHistogram, QuantileIs, BucketIs, All, InOrder, NormalMetric, Doubles.Round;
    NormalFields(d, kind, m);
    LabelsKeptExactly(m.labels);
    SummaryKeptExactly(d, m.summary);
    HistogramKeptExactly(d, m.histogram);
  }

  lemma FamilyKeptExactly(d: Doubles, f: MetricFamily)
    ensures NormalFamily(d)(f) == f <==>
              FamilyIs(Kept(d))(f) && forall j | 0 <= j < |f.metrics| :: Tidy(f.kind, f.metrics[j])
  {
    hide Mapped, NormalMetric, MetricIs, Tidy;
    MappedKept(NormalMetric(d, f.kind), f.metrics);
    forall m ensures NormalMetric(d, f.kind)(m) == m <==> MetricIs(Kept(d), f.kind)(m) && Tidy(f.kind, m) {
      MetricKeptExactly(d, f.kind, m);
    }
  }

  /** Families come back exactly as they were written if and only if every number written does and every
      metric is tidy. */
  lemma RoundTripExactly(d: Doubles, fs: seq<MetricFamily>)
    ensures ReadFamilies(d, FamiliesJson(d, fs)) == Some(fs) <==>
              && EveryNumber(Exact(d), fs)
              && forall i | 0 <= i < |fs| :: forall j | 0 <= j < |fs[i].metrics| :: Tidy(fs[i].kind, fs[i].metrics[j])
  {
    hide ReadFamilies, FamiliesJson, Mapped, NormalFamily, Tidy, FamilyIs;
    MetricsRoundTrip(d, fs);
    MappedKept(NormalFamily(d), fs);
    forall i | 0 <= i < |fs|
      ensures NormalFamily(d)(fs[i]) == fs[i] <==>
                FamilyIs(Kept(d))(fs[i]) && forall j | 0 <= j < |fs[i].metrics| :: Tidy(fs[i].kind, fs[i].metrics[j])
      ensures FamilyIs(Exact(d))(fs[i]) <==> FamilyIs(Legible(d))(fs[i]) && FamilyIs(Kept(d))(fs[i])
    {
      FamilyKeptExactly(d, fs[i]);
      ExactIs(d, fs[i]);
    }
  }

  lemma ExactIs(d: Doubles, f: MetricFamily)
    ensures FamilyIs(Exact(d))(f) <==> FamilyIs(Legible(d))(f) && FamilyIs(Kept(d))(f)
  {
    forall m: ClientMetric
      ensures MetricIs(Exact(d), f.kind)(m) <==> MetricIs(Legible(d), f.kind)(m) && MetricIs(Kept(d), f.kind)(m)
    {
      BothAre(Exact(d), Legible(d), Kept(d), f.kind, m);
    }
  }

  lemma AllBoth<T(!new)>(p: T -> bool, q: T -> bool, r: T -> bool, xs: seq<T>)
    requires forall x :: p(x) <==> q(x) && r(x)
    ensures All(p, xs) <==> All(q, xs) && All(r, xs)
  {
    assert forall i | 0 <= i < |xs| :: p(xs[i]) <==> q(xs[i]) && r(xs[i]);
  }

  lemma BothAre(p: Double -> bool, q: Double -> bool, r: Double -> bool, kind: MetricType, m: ClientMetric)
    requires forall x :: p(x) <==> q(x) && r(x)
    ensures MetricIs(p, kind)(m) <==> MetricIs(q, kind)(m) && MetricIs(r, kind)(m)
  {
    hide All;
    forall x: Quantile ensures QuantileIs(p)(x) <==> QuantileIs(q)(x) && QuantileIs(r)(x) {
      assert p(x.quantile) <==> q(x.quantile) && r(x.quantile);
      assert p(x.value) <==> q(x.value) && r(x.value);
    }
    forall x: Bucket ensures BucketIs(p)(x) <==> BucketIs(q)(x) && BucketIs(r)(x) {
      assert p(x.upperBound) <==> q(x.upperBound) && r(x.upperBound);
    }
    AllBoth(QuantileIs(p), QuantileIs(q), QuantileIs(r), m.summary.quantiles);
    AllBoth(BucketIs(p), BucketIs(q), BucketIs(r), m.histogram.buckets);
    forall x | x in [m.counter, m.gauge, m.untyped, m.summary.sampleSum, m.histogram.sampleSum]
      ensures p(x) <==> q(x) && r(x)
    {
    }
  }
}

/** The JSON of metric families key by key, as whoever knows only the schema finds it, and what is read of
    JSON that another program wrote. */
module MetricsSchema {
  import opened Basics
  import opened Json
  import opened Metrics
  import opened MetricsRoundTrip

  // ---- what is written ----

  /** A reader that goes by whole names. */
  function TypeNamed(s: string): Option<MetricType> {
    if s == "Counter" then Some(Counter)
    else if s == "Gauge" then Some(Gauge)
    else if s == "Summary" then Some(Summary)
    else if s == "Untyped" then Some(Untyped)
    else if s == "Histogram" then Some(Histogram)
    else None
  }

  lemma TypeNames(t: MetricType)
    ensures TypeJson(t).String? && TypeNamed(TypeJson(t).s) == Some(t)
  {
    assert "Counter"[0] == 'C' && "Gauge"[0] == 'G' && "Summary"[0] == 'S' && "Untyped"[0] == 'U' && "Histogram"[0] == 'H';
  }

  /** A list is null when it is empty. */
  predicate IsList(j: Json, elements: seq<Json>) {
    if elements == [] then j == Null else j == Array(elements)
  }

  lemma FamiliesSchema(d: Doubles, fs: seq<MetricFamily>)
    ensures var j := FamiliesJson(d, fs);
            && j.Object? && j.o.Keys == {"families"} && IsList(j.o["families"], WriteAll(FamilyJson(d), fs))
  {
  }

  lemma FamilySchema(d: Doubles, f: MetricFamily)
    ensures var j := FamilyJson(d)(f);
            && j.Object? && j.o.Keys == {"name", "help", "type", "metrics"}
            && j.o["name"] == String(f.name) && j.o["help"] == String(f.help)
            && j.o["type"].String? && TypeNamed(j.o["type"].s) == Some(f.kind)
            && IsList(j.o["metrics"], WriteAll(MetricJson(d, f.kind), f.metrics))
  {
    hide MetricJson, TypeJson, TypeNamed, WriteAll;
    FamilyKeys();
    TypeNames(f.kind);
  }

  /** The keys of the value of a metric. */
  function ValueKeys(kind: MetricType): set<string> {
    match kind
    case Histogram => {"count", "sum", "buckets"}
    case Summary => {"count", "sum", "quantiles"}
    case _ => {"value"}
  }

  /** What a metric says besides its value: nothing for absent labels and a zero timestamp. */
  lemma MetadataSchema(m: ClientMetric)
    ensures var o := MetadataMap(m);
            && o.Keys == (if m.labels == [] then {} else {"labels"}) + (if m.timestampMs == 0 then {} else {"timestamp_ms"})
            && (m.labels != [] ==> o["labels"].Object? && o["labels"].o.Keys == Names(m.labels)
                                   && forall k <- Names(m.labels) :: o["labels"].o[k] == String(LastValue(m.labels, k)))
            && (m.timestampMs != 0 ==> o["timestamp_ms"] == Number(m.timestampMs))
  {
    hide LabelsMap, LastValue, Names;
    KeyLengths();
    LabelsMapIs(m.labels);
  }

  lemma ValueSchema(d: Doubles, kind: MetricType, m: ClientMetric)
    ensures var o := ValueMap(d, m, kind);
            && o.Keys == ValueKeys(kind)
            && match kind
               case Counter => o["value"] == String(d.show(m.counter))
               case Gauge => o["value"] == String(d.show(m.gauge))
               case Untyped => o["value"] == String(d.show(m.untyped))
               case Histogram =>
                 && o["count"] == Number(m.histogram.sampleCount) && o["sum"] == String(d.show(m.histogram.sampleSum))
                 && IsList(o["buckets"], WriteAll(BucketJson(d), m.histogram.buckets))
               case Summary =>
                 && o["count"] == Number(m.summary.sampleCount) && o["sum"] == String(d.show(m.summary.sampleSum))
                 && IsList(o["quantiles"], WriteAll(QuantileJson(d), m.summary.quantiles))
  {
    hide WriteAll, BucketJson, QuantileJson;
    KeyLengths();
  }

  /** A metric is the two together. */
  lemma MetricSchema(d: Doubles, kind: MetricType, m: ClientMetric)
    ensures var j, o, v := MetricJson(d, kind)(m), MetadataMap(m), ValueMap(d, m, kind);
            && j.Object? && j.o.Keys == o.Keys + v.Keys && o.Keys !! v.Keys
            && (forall k <- o :: j.o[k] == o[k]) && (forall k <- v :: j.o[k] == v[k])
  {
    hide MetadataMap, ValueMap, IsList, WriteAll, BucketJson, QuantileJson, Names, LastValue;
    MetadataSchema(m);
    ValueSchema(d, kind, m);
    KeyLengths();
    assert "labels" !in ValueKeys(kind) && "timestamp_ms" !in ValueKeys(kind);
  }

  lemma ElementSchemas(d: Doubles, b: Bucket, q: Quantile)
    ensures var j := BucketJson(d)(b);
            && j.Object? && j.o.Keys == {"max", "count"}
            && j.o["max"] == String(d.show(b.upperBound)) && j.o["count"] == Number(b.cumulativeCount)
    ensures var j := QuantileJson(d)(q);
            && j.Object? && j.o.Keys == {"quantile", "value"}
            && j.o["quantile"] == String(d.show(q.quantile)) && j.o["value"] == String(d.show(q.value))
  {
    KeyLengths();
  }

  // ---- what is read ----

  /** The first letter decides, and what is no string or has another one is untyped. */
  lemma ReadTypeExactly(j: Json)
    ensures ReadType(j) == Counter <==> j.String? && j.s != "" && j.s[0] == 'C'
    ensures ReadType(j) == Gauge <==> j.String? && j.s != "" && j.s[0] == 'G'
    ensures ReadType(j) == Summary <==> j.String? && j.s != "" && j.s[0] == 'S'
    ensures ReadType(j) == Histogram <==> j.String? && j.s != "" && j.s[0] == 'H'
  {
  }

  /** A metric as another program may write it, with JSON numbers for values. */
  function NativeMetric(): int -> Json {
    (i: int) => Object(map["value" := Number(i)])
  }

  function ScalarMetric(d: Doubles, kind: MetricType): int -> ClientMetric {
    (i: int) =>
      match kind
      case Counter => EMPTY_METRIC.(counter := d.ofInt(i))
      case Gauge => EMPTY_METRIC.(gauge := d.ofInt(i))
      case _ => EMPTY_METRIC.(untyped := d.ofInt(i))
  }

  function Always(): int -> bool { (i: int) => true }

  /** A family of counters, gauges or untyped values that are JSON numbers is read as these numbers. */
  lemma NativeNumbersAreRead(d: Doubles, name: string, help: string, kind: MetricType, values: seq<int>)
    requires kind in {Counter, Gauge, Untyped}
    ensures var j := Object(map["name" := String(name), "help" := String(help), "type" := TypeJson(kind),
                                "metrics" := ListJson(WriteAll(NativeMetric(), values))]);
            ReadFamily(d)(j) == Some(MetricFamily(name, help, kind, Mapped(ScalarMetric(d, kind), values)))
  {
    hide ReadAll, WriteAll, Items, ListJson, Mapped, ReadMetric, NativeMetric, ScalarMetric, ReadType, TypeJson, All, Always;
    FamilyKeys();
    TypeRoundTrip(kind);
    forall i: int
      ensures ReadMetric(d, kind)(NativeMetric()(i)) == if Always()(i) then Some(ScalarMetric(d, kind)(i)) else None
    {
      NativeNumberIsRead(d, kind, i);
    }
    ReadWritten(ReadMetric(d, kind), NativeMetric(), Always(), ScalarMetric(d, kind), values);
    assert All(Always(), values) by { AlwaysTrue(values); }
  }

  lemma AlwaysTrue(values: seq<int>)
    ensures All(Always(), values)
  {
  }

  lemma NativeNumberIsRead(d: Doubles, kind: MetricType, i: int)
    requires kind in {Counter, Gauge, Untyped}
    ensures Always()(i) && ReadMetric(d, kind)(NativeMetric()(i)) == Some(ScalarMetric(d, kind)(i))
  {
    KeyLengths();
  }

  /** The numbers of buckets and quantiles may be JSON numbers too; counts may not be anything else, and
      wrap around at 64 bits. */
  lemma NativeElementsAreRead(d: Doubles, count: uint64, a: int, b: int)
    ensures ReadBucket(d)(Object(map["count" := Number(count), "max" := Number(a)])) == Some(Bucket(count, d.ofInt(a)))
    ensures ReadBucket(d)(Object(map["count" := Number(count - 0x1_0000_0000_0000_0000), "max" := Number(a)]))
         == Some(Bucket(count, d.ofInt(a)))
    ensures ReadBucket(d)(Object(map["count" := String("1"), "max" := Number(a)])) == None
    ensures ReadQuantile(d)(Object(map["quantile" := Number(a), "value" := Number(b)]))
         == Some(Quantile(d.ofInt(a), d.ofInt(b)))
    ensures ReadDouble(d, Null) == None && ReadDouble(d, Boolean(true)) == None
  {
    KeyLengths();
  }

  /** Labels that are a list are named by their positions, and a lone string is a label without name. */
  lemma LabelsOfOtherShapes(a: string, b: string)
    ensures ReadLabels(Entries(Array([String(a), String(b)]))) == Some([Label("0", a), Label("1", b)])
    ensures ReadLabels(Entries(String(a))) == Some([Label("", a)]) && ReadLabels(Entries(Null)) == Some([])
    ensures Decimal(10) == "10"
    ensures ReadLabels(Entries(Array([Null]))) == None
  {
    assert Decimal(0) == "0" && Decimal(1) == "1";
    var es := Entries(Array([String(a), String(b)]));
    assert es == [("0", String(a)), ("1", String(b))];
    ReadLabelsIs(es, [Label("0", a), Label("1", b)]);
    ReadLabelsIs(Entries(String(a)), [Label("", a)]);
    var n := Entries(Array([Null]));
    assert n == [("0", Null)] && n[..0] == [];
    assert Decimal(10) == Decimal(1) + "0";
  }

  /** The order of the keys is that of strings: a prefix comes first, else the first difference decides. */
  lemma {:induction false} LeqIsLexicographic(a: string, b: string)
    ensures Leq(a, b) <==>
              a <= b || exists i :: 0 <= i < |a| && i < |b| && a[..i] == b[..i] && a[i] < b[i]
  {
    if a != [] && b != [] {
      var x, y := a[1..], b[1..];
      LeqIsLexicographic(x, y);
      assert a == [a[0]] + x && b == [b[0]] + y;
      if a[0] == b[0] {
        forall i | 0 <= i < |x| && i < |y| && x[..i] == y[..i] && x[i] < y[i]
          ensures a[..i + 1] == b[..i + 1] && a[i + 1] < b[i + 1]
        {
          assert a[..i + 1] == [a[0]] + x[..i] && b[..i + 1] == [b[0]] + y[..i];
        }
        forall i | 0 < i < |a| && i < |b| && a[..i] == b[..i] && a[i] < b[i]
          ensures x[..i - 1] == y[..i - 1] && x[i - 1] < y[i - 1]
        {
          assert x[..i - 1] == a[..i][1..] && y[..i - 1] == b[..i][1..];
        }
      } else {
        assert a[..0] == b[..0];
        assert forall i | 0 < i < |a| && i < |b| && a[..i] == b[..i] :: a[..i][0] == b[..i][0];
      }
    }
  }
}

/** The loops of the JSON writer and reader, proved against the functions of `Metrics`. */
module MetricsCode {
  import opened Basics
  import opened Json
  import opened Metrics

  /** `val[key] = x` on a value that is null or an object. */
  function Assign(val: Json, key: string, x: Json): Json
    requires val.Null? || val.Object?
  {
    Object(Fields(val)[key := x])
  }

  /** `list[list.size()] = x` on a value that is null or an array. */
  function Append(list: Json, x: Json): Json
    requires list.Null? || list.Array?
  {
    Array((if list.Null? then [] else list.a) + [x])
  }

  function Fields(val: Json): map<string, Json>
    requires val.Null? || val.Object?
  {
    if val.Null? then map[] else val.o
  }

  lemma AssignThree(start: Json, val: Json, a: string, b: string, c: string, v: map<string, Json>)
    requires (start.Null? || start.Object?) && v.Keys == {a, b, c}
    requires val == Object(Fields(start)[a := v[a]][b := v[b]][c := v[c]])
    ensures val == Object(Fields(start) + v)
  {
  }

  class JsonWriter {
    const d: Doubles

    constructor (d: Doubles)
      ensures this.d == d
    {
      this.d := d;
    }

    method WriteBuckets(buckets: seq<Bucket>) returns (list: Json)
      ensures list == ListJson(WriteAll(BucketJson(d), buckets))
    {
      list := Null;
      for i := 0 to |buckets|
        invariant list == ListJson(WriteAll(BucketJson(d), buckets)[..i])
      {
        list := Append(list, BucketJson(d)(buckets[i]));
      }
    }

    method WriteQuantiles(quantiles: seq<Quantile>) returns (list: Json)
      ensures list == ListJson(WriteAll(QuantileJson(d), quantiles))
    {
      list := Null;
      for i := 0 to |quantiles|
        invariant list == ListJson(WriteAll(QuantileJson(d), quantiles)[..i])
      {
        list := Append(list, QuantileJson(d)(quantiles[i]));
      }
    }

    method WriteLabels(labels: seq<Label>) returns (val: Json)
      requires labels != []
      ensures val == Object(LabelsMap(labels))
    {
      val := Null;
      for i := 0 to |labels|
        invariant if i == 0 then val == Null else val == Object(LabelsMap(labels[..i]))
      {
        assert labels[..i + 1][..i] == labels[..i];
        val := Assign(val, labels[i].name, String(labels[i].value));
      }
      assert labels[..|labels|] == labels;
    }

    method WriteMetric(m: ClientMetric, kind: MetricType) returns (val: Json)
      ensures val == MetricJson(d, kind)(m)
    {
      hide LabelsMap, ValueMap;
      val := Null;
      if m.labels != [] {
        var labels := WriteLabels(m.labels);
        val := Assign(val, "labels", labels);
      }
      if m.timestampMs != 0 {
        val := Assign(val, "timestamp_ms", Number(m.timestampMs));
      }
      assert Fields(val) == MetadataMap(m) by { KeysDiffer(); }
      val := WriteValue(val, m, kind);
    }

    /** Adds to `start` the value of `m` that belongs to `kind`. */
    method WriteValue(start: Json, m: ClientMetric, kind: MetricType) returns (val: Json)
      requires start.Null? || start.Object?
      ensures val == Object(Fields(start) + ValueMap(d, m, kind))
    {
      hide WriteAll, ListJson, BucketJson, QuantileJson;
      match kind {
        case Counter =>
          val := Assign(start, "value", DoubleJson(d, m.counter));
        case Gauge =>
          val := Assign(start, "value", DoubleJson(d, m.gauge));
        case Untyped =>
          val := Assign(start, "value", DoubleJson(d, m.untyped));
        case Histogram =>
          val := Assign(start, "count", Number(m.histogram.sampleCount));
          val := Assign(val, "sum", DoubleJson(d, m.histogram.sampleSum));
          var buckets := WriteBuckets(m.histogram.buckets);
          val := Assign(val, "buckets", buckets);
          AssignThree(start, val, "count", "sum", "buckets", ValueMap(d, m, kind));
        case Summary =>
          val := Assign(start, "count", Number(m.summary.sampleCount));
          val := Assign(val, "sum", DoubleJson(d, m.summary.sampleSum));
          var quantiles := WriteQuantiles(m.summary.quantiles);
          val := Assign(val, "quantiles", quantiles);
          AssignThree(start, val, "count", "sum", "quantiles", ValueMap(d, m, kind));
      }
    }

    method WriteFamily(f: MetricFamily) returns (val: Json)
      ensures val == FamilyJson(d)(f)
      ensures val.Object? && "type" in val.o && val.o["type"] == String(
                match f.kind
                case Counter => "Counter"
                case Gauge => "Gauge"
                case Summary => "Summary"
                case Untyped => "Untyped"
                case Histogram => "Histogram")
    {
      hide MetricJson;
      FamilyKeysDiffer();
      val := Assign(Null, "name", String(f.name));
      val := Assign(val, "help", String(f.help));
      val := Assign(val, "type", TypeJson(f.kind));
      var metrics := Null;
      for i := 0 to |f.metrics|
        invariant metrics == ListJson(WriteAll(MetricJson(d, f.kind), f.metrics)[..i])
      {
        var m := WriteMetric(f.metrics[i], f.kind);
        metrics := Append(metrics, m);
      }
      assert WriteAll(MetricJson(d, f.kind), f.metrics)[..|f.metrics|] == WriteAll(MetricJson(d, f.kind), f.metrics);
      val := Assign(val, "metrics", metrics);
    }

    method WriteFamilies(fs: seq<MetricFamily>) returns (val: Json)
      ensures val == FamiliesJson(d, fs)
    {
      hide FamilyJson;
      var families := Null;
      for i := 0 to |fs|
        invariant families == ListJson(WriteAll(FamilyJson(d), fs)[..i])
      {
        var f := WriteFamily(fs[i]);
        families := Append(families, f);
      }
      assert WriteAll(FamilyJson(d), fs)[..|fs|] == WriteAll(FamilyJson(d), fs);
      val := Assign(Null, "families", families);
    }
  }

  lemma FamilyKeysDiffer()
    ensures |"type"| == 4 && |"metrics"| == 7
  {
  }

  lemma KeysDiffer()
    ensures "labels" != "timestamp_ms"
  {
    assert |"labels"| != |"timestamp_ms"|;
  }

  /** Reading element by element, and where it stops. */
  lemma {:induction false} ReadAllPrefix<T>(read: Json -> Option<T>, js: seq<Json>, i: nat)
    requires i <= |js| && ReadAll(read, js[..i]).None?
    ensures ReadAll(read, js).None?
    decreases |js|
  {
    if i < |js| {
      assert js[..|js| - 1][..i] == js[..i];
      ReadAllPrefix(read, js[..|js| - 1], i);
    } else {
      assert js[..i] == js;
    }
  }

  lemma ReadAllNext<T>(read: Json -> Option<T>, js: seq<Json>, i: nat)
    requires i < |js| && ReadAll(read, js[..i]).Some?
    ensures ReadAll(read, js[..i + 1]) ==
              (if read(js[i]).None? then None else Some(ReadAll(read, js[..i]).value + [read(js[i]).value]))
    ensures read(js[i]).None? ==> ReadAll(read, js).None?
    ensures js[..|js|] == js
  {
    assert js[..i + 1][..i] == js[..i];
    if read(js[i]).None? {
      ReadAllPrefix(read, js, i + 1);
    }
  }

  lemma {:induction false} ReadLabelsPrefix(es: seq<(string, Json)>, i: nat)
    requires i <= |es| && ReadLabels(es[..i]).None?
    ensures ReadLabels(es).None?
    decreases |es|
  {
    if i < |es| {
      assert es[..|es| - 1][..i] == es[..i];
      ReadLabelsPrefix(es[..|es| - 1], i);
    } else {
      assert es[..i] == es;
    }
  }

  class JsonReader {
    const d: Doubles

    constructor (d: Doubles)
      ensures this.d == d
    {
      this.d := d;
    }

    method EmplaceMetricMetadata(j: Json) returns (r: Option<ClientMetric>)
      ensures r == ReadMetadata(j)
    {
      hide Entries;
      var metric := EMPTY_METRIC;
      if j.Has("labels") {
        var es := Entries(j.o["labels"]);
        for i := 0 to |es|
          invariant metric == EMPTY_METRIC.(labels := metric.labels)
          invariant ReadLabels(es[..i]) == Some(metric.labels)
        {
          assert es[..i + 1][..i] == es[..i];
          if !es[i].1.String? {
            ReadLabelsPrefix(es, i + 1);
            return None;
          }
          metric := metric.(labels := metric.labels + [Label(es[i].0, es[i].1.s)]);
        }
        assert es[..|es|] == es;
      }
      if j.Has("timestamp_ms") {
        var n := ReadNumber(j.o["timestamp_ms"]);
        if n.None? {
          return None;
        }
        metric := metric.(timestampMs := ToInt64(n.value));
      }
      r := Some(metric);
    }

    method ParseQuantiles(js: seq<Json>) returns (r: Option<seq<Quantile>>)
      ensures r == ReadAll(ReadQuantile(d), js)
    {
      hide ReadAll, ReadQuantile;
      var quantiles := [];
      ReadNone(ReadQuantile(d), js);
      for i := 0 to |js|
        invariant ReadAll(ReadQuantile(d), js[..i]) == Some(quantiles)
      {
        ReadAllNext(ReadQuantile(d), js, i);
        var q := ReadQuantile(d)(js[i]);
        if q.None? {
          return None;
        }
        quantiles := quantiles + [q.value];
      }
      r := Some(quantiles);
    }

    method ParseBuckets(js: seq<Json>) returns (r: Option<seq<Bucket>>)
      ensures r == ReadAll(ReadBucket(d), js)
    {
      hide ReadAll, ReadBucket;
      var buckets := [];
      ReadNone(ReadBucket(d), js);
      for i := 0 to |js|
        invariant ReadAll(ReadBucket(d), js[..i]) == Some(buckets)
      {
        ReadAllNext(ReadBucket(d), js, i);
        var b := ReadBucket(d)(js[i]);
        if b.None? {
          return None;
        }
        buckets := buckets + [b.value];
      }
      r := Some(buckets);
    }

    /** One turn of the loop of the `parse_*_values` function for `kind`. */
    method ParseMetric(kind: MetricType, j: Json) returns (r: Option<ClientMetric>)
      ensures r == ReadMetric(d, kind)(j)
    {
      hide ReadMetadata, ReadAll, ReadQuantile, ReadBucket, Items, ReadCount, ReadDoubleAt;
      var metric := EmplaceMetricMetadata(j);
      if metric.None? {
        return None;
      }
      if kind.Summary? || kind.Histogram? {
        var count := ReadCount(j, "count");
        var sum := ReadDoubleAt(d, j, "sum");
        var list := Field(j, if kind.Summary? then "quantiles" else "buckets");
        if count.None? || sum.None? || list.None? {
          return None;
        }
        if kind.Summary? {
          var quantiles := ParseQuantiles(Items(list.value));
          if quantiles.None? {
            return None;
          }
          return Some(metric.value.(summary := SummaryValue(count.value, sum.value, quantiles.value)));
        }
        var buckets := ParseBuckets(Items(list.value));
        if buckets.None? {
          return None;
        }
        return Some(metric.value.(histogram := HistogramValue(count.value, sum.value, buckets.value)));
      }
      var value := ReadDoubleAt(d, j, "value");
      if value.None? {
        return None;
      }
      if kind.Counter? {
        r := Some(metric.value.(counter := value.value));
      } else if kind.Gauge? {
        r := Some(metric.value.(gauge := value.value));
      } else {
        r := Some(metric.value.(untyped := value.value));
      }
    }

    /** `parse_family_values`: the loop of whichever function the type of the family selects. */
    method ParseFamilyValues(kind: MetricType, js: seq<Json>) returns (r: Option<seq<ClientMetric>>)
      ensures r == ReadAll(ReadMetric(d, kind), js)
    {
      hide ReadAll, ReadMetric;
      var metrics := [];
      ReadNone(ReadMetric(d, kind), js);
      for i := 0 to |js|
        invariant ReadAll(ReadMetric(d, kind), js[..i]) == Some(metrics)
      {
        ReadAllNext(ReadMetric(d, kind), js, i);
        var m := ParseMetric(kind, js[i]);
        if m.None? {
          return None;
        }
        metrics := metrics + [m.value];
      }
      r := Some(metrics);
    }

    method ParseMetrics(j: Json) returns (r: Option<seq<MetricFamily>>)
      ensures r == ReadFamilies(d, j)
    {
      hide ReadAll, ReadMetric, Items;
      var list := Field(j, "families");
      if list.None? {
        return None;
      }
      var js := Items(list.value);
      var result := [];
      ReadNone(ReadFamily(d), js);
      for i := 0 to |js|
        invariant ReadAll(ReadFamily(d), js[..i]) == Some(result)
      {
        ReadAllNext(ReadFamily(d), js, i);
        var name, help := Field(js[i], "name"), Field(js[i], "help");
        var kind, metrics := Field(js[i], "type"), Field(js[i], "metrics");
        if name.None? || help.None? || kind.None? || metrics.None? || !name.value.String? || !help.value.String? {
          return None;
        }
        var ms := ParseFamilyValues(ReadType(kind.value), Items(metrics.value));
        if ms.None? {
          return None;
        }
        result := result + [MetricFamily(name.value.s, help.value.s, ReadType(kind.value), ms.value)];
      }
      r := Some(result);
    }
  }

  lemma ReadNone<T>(read: Json -> Option<T>, js: seq<Json>)
    ensures ReadAll(read, js[..0]) == Some([]) && js[..|js|] == js
  {
  }
}

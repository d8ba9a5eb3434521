/** The two unpackers as they run: loops over reused buffers, driving a writer
    (receiver/prometheus.go, receiver/prometheus_metric.go, helper/tags/prometheus.go). */
module PrometheusReceiver {
  import opened ByteStrings
  import opened Varint
  import opened Escape
  import opened TaggedNames
  import opened TagSort
  import opened WriteBuffers
  import opened RowWriter
  import opened Pb
  import opened Prompb
  import opened Prometheus
  import opened PrometheusAgreement
  import opened PrometheusStores

  /** `prometheusMetricBuffer`: reused from series to series. */
  class MetricBuffer {
    var labels: seq<Tag>
    var queryEscape: map<bytes, bytes>
    var metric: seq<bytes>
    var metricUsed: nat

    /** The cache only ever holds true escapes. */
    ghost predicate Valid()
      reads this
    {
      && |metric| >= 1 && metricUsed <= |metric|
      && (forall k | k in queryEscape :: queryEscape[k] == Escaped(k, EncodeQuery))
    }

    constructor ()
      ensures Valid()
    {
      labels := seq(16, _ => Tag([], []));
      queryEscape := map[];
      metric := seq(128, _ => []);
      metricUsed := 0;
    }

    /** `urlQueryEscape`. */
    method UrlQueryEscape(b: bytes) returns (r: bytes)
      requires Valid()
      modifies this`queryEscape
      ensures Valid() && r == Escaped(b, EncodeQuery)
    {
      var needed := ShouldQueryEscape(b);
      if !needed {
        EscapedUnchanged(b, EncodeQuery);
        return b;
      }
      if b in queryEscape {
        return queryEscape[b];
      }
      r := Escape.Escape(b, EncodeQuery);
      queryEscape := queryEscape[b := r];
    }

    /** The fields of one label. */
    method Label(body: bytes) returns (r: LabelResult)
      ensures r == ParseLabel(body, None, None)
    {
      hide Pb.Bytes, Pb.Skip;
      var key, value: Option<bytes> := None, None;
      var rest := body;
      while rest != []
        invariant ParseLabel(rest, key, value) == ParseLabel(body, None, None)
        decreases |rest|
      {
        if rest[0] == TAG_NAME {
          var v := ReadBytes(rest[1..]);
          if v.Err? {
            return LabelErr(v.error);
          }
          key, rest := Some(v.value), v.rest;
        } else if rest[0] == TAG_VALUE {
          var v := ReadBytes(rest[1..]);
          if v.Err? {
            return LabelErr(v.error);
          }
          value, rest := Some(v.value), v.rest;
        } else {
          var s := SkipField(rest);
          if s.Err? {
            return LabelErr(s.error);
          }
          rest := s.rest;
        }
      }
      return LabelOk(key, value);
    }

    /** The walk over a series: fills `labels` from the start, growing it when needed. */
    method Collect(tsBody: bytes) returns (r: Walk)
      modifies this`labels
      ensures r == WalkSeries(|tsBody|, tsBody, [], 0)
      ensures r.Walked? ==> |r.labels| <= |labels| && labels[..|r.labels|] == r.labels
    {
      hide Pb.Bytes, Pb.Skip, ParseLabel;
      var ts := tsBody;
      var labelIndex, samplesOffset: nat := 0, 0;
      ghost var kept: seq<Tag> := [];
      while ts != []
        invariant |ts| <= |tsBody| && samplesOffset <= |tsBody|
        invariant |kept| == labelIndex <= |labels| && labels[..labelIndex] == kept
        invariant WalkSeries(|tsBody|, ts, kept, samplesOffset) == WalkSeries(|tsBody|, tsBody, [], 0)
        decreases |ts|
      {
        if ts[0] == TAG_LABELS {
          if |labels| < labelIndex + 1 {
            labels := labels + [Tag([], [])];
          }
          assert labels[..labelIndex] == kept;
          var field := ReadBytes(ts[1..]);
          if field.Err? {
            return WalkErr(field.error);
          }
          ts := field.rest;
          var l := Label(field.value);
          if l.LabelErr? {
            return WalkErr(l.error);
          }
          if l.key.Some? && l.value.Some? {
            labels := labels[labelIndex := Tag(l.key.value, l.value.value)];
            labelIndex := labelIndex + 1;
            kept := kept + [Tag(l.key.value, l.value.value)];
            assert labels[..labelIndex] == kept;
          } else {
            assert kept + [] == kept;
          }
        } else {
          if ts[0] == TAG_SAMPLES && samplesOffset == 0 {
            samplesOffset := |tsBody| - |ts|;
          }
          var s := SkipField(ts);
          if s.Err? {
            return WalkErr(s.error);
          }
          ts := s.rest;
        }
      }
      return Walked(labels[..labelIndex], samplesOffset);
    }

    /** `timeSeries`: the metric and where its samples start, whatever the buffer held before. */
    method TimeSeries(tsBody: bytes) returns (r: SeriesResult)
      requires Valid()
      modifies this
      ensures Valid() && r == ParseSeries(tsBody)
    {
      var walk := Collect(tsBody);
      if walk.WalkErr? {
        return SeriesErr(Malformed(walk.error));
      }
      var n := |walk.labels|;
      var found := PutNameFirst(n);
      if !found {
        return SeriesErr(NameNotFound);
      }
      SortRest(n);
      var m := Print(n);
      return SeriesOk(m, walk.offset);
    }

    /** Moves the first label called `__name__` to the front. */
    method PutNameFirst(n: nat) returns (found: bool)
      requires n <= |labels|
      modifies this`labels
      ensures found <==> NameIndex(old(labels)[..n], 0) >= 0
      ensures |labels| == |old(labels)| && labels[..n] == NameFirst(old(labels)[..n])
    {
      ghost var was := labels[..n];
      for i := 0 to n
        invariant labels == old(labels)
        invariant NameIndex(was, i) == NameIndex(was, 0)
      {
        if labels[i].key == NAME_LABEL {
          if i != 0 {
            labels := labels[0 := labels[i]][i := labels[0]];
            assert labels[..n] == Swap(was, 0, i);
          }
          return true;
        }
      }
      return false;
    }

    /** The check for order and the exchange sort of the labels after the name. */
    method SortRest(n: nat)
      requires n <= |labels|
      modifies this`labels
      ensures |labels| == |old(labels)| && labels[..n] == ExchangeSort(old(labels)[..n], 1, n)
    {
      ghost var was := labels;
      var sortRequired := NeedsSort(n);
      if !sortRequired {
        AdjacentSorted(labels, 1, n);
        ExchangeSortKeepsSorted(labels, 1, n);
      } else {
        var i := 1;
        while i < n - 1
          invariant 1 <= i && |labels| == |was|
          invariant ExchangeSort(labels, i, n) == ExchangeSort(was, 1, n)
        {
          var j := i + 1;
          while j < n
            invariant i < j <= n && |labels| == |was|
            invariant ExchangeSort(ExchangeRow(labels, i, j, n), i + 1, n) == ExchangeSort(was, 1, n)
          {
            if Less(labels[j].key, labels[i].key) {
              labels := labels[i := labels[j]][j := labels[i]];
            }
            j := j + 1;
          }
          i := i + 1;
        }
      }
      ExchangeSortPrefix(was, 1, n);
    }

    method NeedsSort(n: nat) returns (required: bool)
      requires n <= |labels|
      ensures !required ==> forall k | 1 <= k < n - 1 :: !Less(labels[k + 1].key, labels[k].key)
    {
      var i := 1;
      while i < n - 1
        invariant 1 <= i
        invariant forall k | 1 <= k < i && k < n - 1 :: !Less(labels[k + 1].key, labels[k].key)
      {
        if Less(labels[i + 1].key, labels[i].key) {
          return true;
        }
        i := i + 1;
      }
      return false;
    }

    /** Fills `metric` and returns the part in use. */
    method Print(n: nat) returns (r: seq<bytes>)
      requires Valid() && 1 <= n <= |labels|
      modifies this`metric, this`metricUsed, this`queryEscape
      ensures Valid() && r == [labels[0].value] + EscapedFrom(labels[..n], 1)
    {
      hide Escaped, EscapedFrom;
      metric := metric[0 := labels[0].value];
      metricUsed := 1;
      if n * 2 > |metric| {
        metric := metric + seq(n * 2 - |metric|, _ => []);
      }
      ghost var all := EscapedFrom(labels[..n], 1);
      ghost var done := [labels[0].value];
      assert metric[..1] == done;
      for i := 1 to n
        invariant Valid() && metricUsed == 2 * i - 1 && 2 * n <= |metric|
        invariant metric[..metricUsed] == done
        invariant done + EscapedFrom(labels[..n], i) == [labels[0].value] + all
      {
        var k := UrlQueryEscape(labels[i].key);
        ghost var before := metric[..metricUsed];
        metric := metric[metricUsed := k];
        metricUsed := metricUsed + 1;
        var v := UrlQueryEscape(labels[i].value);
        metric := metric[metricUsed := v];
        metricUsed := metricUsed + 1;
        assert metric[..metricUsed] == before + [k, v];
        EscapedFromStep(labels[..n], i);
        Assoc(done, [k, v], EscapedFrom(labels[..n], i + 1));
        done := done + [k, v];
      }
      EscapedFromEnd(labels[..n]);
      return metric[..metricUsed];
    }
  }

  lemma EscapedFromStep(labels: seq<Tag>, i: nat)
    requires i < |labels|
    ensures EscapedFrom(labels, i) ==
            [Escaped(labels[i].key, EncodeQuery), Escaped(labels[i].value, EncodeQuery)] + EscapedFrom(labels, i + 1)
  {
  }

  lemma EscapedFromEnd(labels: seq<Tag>)
    ensures EscapedFrom(labels, |labels|) == []
  {
  }

  method ShouldQueryEscape(b: bytes) returns (r: bool)
    ensures !r <==> EscapeFree(b, EncodeQuery)
  {
    for i := 0 to |b|
      invariant forall k | 0 <= k < i :: !ShouldEscape(b[k], EncodeQuery)
    {
      if ShouldEscapeByte(b[i]) {
        return true;
      }
    }
    return false;
  }

  /** The receiver's own copy of the rule for query components. */
  predicate ShouldEscapeByte(c: byte)
    ensures ShouldEscapeByte(c) == ShouldEscape(c, EncodeQuery)
  {
    if 65 <= c <= 90 || 97 <= c <= 122 || 48 <= c <= 57 then false
    else if c == 45 || c == 95 || c == 46 || c == 126 then false
    else true
  }

  lemma {:induction false} ExchangeRowPrefix(s: seq<Tag>, i: nat, j: nat, n: nat)
    requires i < j && n <= |s|
    ensures ExchangeRow(s, i, j, n)[..n] == ExchangeRow(s[..n], i, j, n)
    decreases n - j
  {
    if j < n {
      var s' := if Less(s[j].key, s[i].key) then Swap(s, i, j) else s;
      assert Less(s[j].key, s[i].key) ==> Swap(s, i, j)[..n] == Swap(s[..n], i, j);
      ExchangeRowPrefix(s', i, j + 1, n);
    }
  }

  /** What the sort does to the labels in use does not depend on the stale ones after them. */
  lemma {:induction false} ExchangeSortPrefix(s: seq<Tag>, i: nat, n: nat)
    requires n <= |s|
    ensures ExchangeSort(s, i, n)[..n] == ExchangeSort(s[..n], i, n)
    decreases n - i
  {
    if i + 1 < n {
      ExchangeRowPrefix(s, i, i + 1, n);
      ExchangeSortPrefix(ExchangeRow(s, i, i + 1, n), i + 1, n);
    }
  }

  /** `isDropString`. */
  function IsDropString(c: Setup, name: bytes, timestamp: uint32): bool
  {
    IsDrop(c.rules, |name|, c.now, timestamp)
  }

  method UnpackSample(sample: bytes) returns (r: SampleResult)
    ensures r == ParseSample(sample, 0, 0)
  {
    hide Pb.Double, Pb.Int64, Pb.Skip;
    var value: uint64, timestamp: int64 := 0, 0;
    var rest := sample;
    while rest != []
      invariant ParseSample(rest, value, timestamp) == ParseSample(sample, 0, 0)
      decreases |rest|
    {
      if rest[0] == TAG_SAMPLE_VALUE {
        var v := ReadDouble(rest[1..]);
        if v.Err? {
          return SampleErr(v.error);
        }
        value, rest := v.value, v.rest;
      } else if rest[0] == TAG_TIMESTAMP {
        var t := ReadInt64(rest[1..]);
        if t.Err? {
          return SampleErr(t.error);
        }
        timestamp, rest := t.value, t.rest;
      } else {
        var s := SkipField(rest);
        if s.Err? {
          return SampleErr(s.error);
        }
        rest := s.rest;
      }
    }
    return SampleOk(value, timestamp);
  }

  /** The loop over the samples of one series. */
  method UnpackSamples(c: Setup, samples: bytes, metric: seq<bytes>, writer: Writer) returns (failure: Option<Failure>)
    requires writer.Valid() && metric != [] && writer.now == c.now && writer.toDays == c.toDays
    modifies writer.Repr()
    ensures writer.Valid() && fresh(writer.Repr() - old(writer.Repr()))
    ensures OutcomeOf(writer.State(), failure) == FastSamples(c, samples, TaggedName(metric), old(writer.State()))
  {
    hide Pb.Bytes, Pb.Skip, ParseSample, TaggedName, Written;
    var ts := samples;
    while ts != []
      invariant writer.Valid() && fresh(writer.Repr() - old(writer.Repr()))
      invariant FastSamples(c, ts, TaggedName(metric), writer.State()) ==
          FastSamples(c, samples, TaggedName(metric), old(writer.State()))
      decreases |ts|
    {
      if ts[0] != TAG_SAMPLES {
        var s := SkipField(ts);
        if s.Err? {
          return Some(Malformed(s.error));
        }
        ts := s.rest;
      } else {
        var field := ReadBytes(ts[1..]);
        if field.Err? {
          return Some(Malformed(field.error));
        }
        ts := field.rest;
        var s := UnpackSample(field.value);
        if s.SampleErr? {
          return Some(Malformed(s.error));
        }
        if !IsNaN(s.value) && !IsDropString(c, [], Timestamp32(s.timestamp)) {
          writer.WritePointTagged(metric, s.value, Timestamp32(s.timestamp));
        }
      }
    }
    return None;
  }

  function OutcomeOf(state: WriterState, failure: Option<Failure>): Outcome
  {
    match failure { case None => Done(state) case Some(f) => Failed(state, f) }
  }

  /** What a request leads to: the error returned, if any, the buffers sent, and the counters. */
  datatype Report = Report(failure: Option<Failure>, sent: seq<bytes>, written: uint32, errors: uint32)

  function Observed(o: Outcome): Report
  {
    Report(if o.Done? then None else Some(o.failure), o.state.sent, o.state.written, o.state.errors)
  }

  /** `unpackFast`: on an error, what is in the current buffer is not sent. */
  method UnpackFast(c: Setup, bufBody: bytes) returns (r: Report)
    ensures r == Observed(FastRequest(c, bufBody, EMPTY))
    ensures forall req | bufBody == MarshalRequest(req) && |bufBody| < TWO63 && PlainSeries(req) ::
              r.failure.None? && RequestStored(AnyLength(c), Decoded(req), r.sent)
  {
    hide Pb.Bytes, Pb.Skip, ParseSeries, FastSamples, TaggedName, Flushed, RequestStored, MarshalRequest, PlainSeries;
    MarshalledStores(c, bufBody);
    var writer := new Writer(c.now, c.toDays);
    var metricBuffer := new MetricBuffer();
    var failure: Option<Failure> := None;
    var b := bufBody;
    while b != []
      invariant writer.Valid() && fresh(writer.Repr()) && writer.now == c.now && writer.toDays == c.toDays
      invariant metricBuffer.Valid() && fresh(metricBuffer) && failure.None?
      invariant FastRequest(c, b, writer.State()) == FastRequest(c, bufBody, EMPTY)
      decreases |b|
    {
      if b[0] != TAG_LABELS {
        var s := SkipField(b);
        if s.Err? {
          return Report(Some(Malformed(s.error)), writer.sent, writer.pointsWritten, writer.writeErrors);
        }
        b := s.rest;
        continue;
      }
      var ts := ReadBytes(b[1..]);
      if ts.Err? {
        return Report(Some(Malformed(ts.error)), writer.sent, writer.pointsWritten, writer.writeErrors);
      }
      b := ts.rest;
      var series := metricBuffer.TimeSeries(ts.value);
      if series.SeriesErr? {
        return Report(Some(series.failure), writer.sent, writer.pointsWritten, writer.writeErrors);
      }
      failure := UnpackSamples(c, ts.value[series.offset..], series.metric, writer);
      if failure.Some? {
        return Report(failure, writer.sent, writer.pointsWritten, writer.writeErrors);
      }
    }
    writer.Flush();
    return Report(None, writer.sent, writer.pointsWritten, writer.writeErrors);
  }

  /** `tags.Prometheus`: moves the name to the front, sorts the rest, prints. */
  method PrintPrometheus(series: seq<Tag>) returns (res: bytes)
    ensures res == PrometheusName(series)
  {
    var labels, nameOffset := NameToFront(series);
    var sorted := labels[..nameOffset] + StableSort(labels[nameOffset..]);
    ghost var rest := if sorted == [] then [] else sorted[1..];
    res := [];
    if nameOffset > 0 {
      assert StableSort(labels[1..]) == rest && sorted[0] == labels[0];
      res := Escape.Escape(sorted[0].value, EncodePath);
    } else {
      assert labels[0..] == labels && sorted == StableSort(labels);
    }
    res := res + [QUESTION];
    var printed := PrintRest(sorted);
    res := res + printed;
  }

  /** The labels from the second on, separated. */
  method PrintRest(sorted: seq<Tag>) returns (res: bytes)
    ensures res == PrintTags(if sorted == [] then [] else sorted[1..])
  {
    hide Escaped;
    ghost var rest := if sorted == [] then [] else sorted[1..];
    res := [];
    var i := 1;
    PrintTagsFromEnds(rest);
    while i < |sorted|
      invariant 1 <= i && (sorted != [] ==> i <= |sorted|) && (sorted == [] ==> i == 1)
      invariant res + PrintTagsFrom(rest, i - 1) == PrintTags(rest)
    {
      ghost var before := res;
      ghost var sep: bytes := if i > 1 then [AMPERSAND] else [];
      if i > 1 {
        res := res + [AMPERSAND];
      }
      assert res == before + sep;
      var k := Escape.Escape(sorted[i].key, EncodeQuery);
      var v := Escape.Escape(sorted[i].value, EncodeQuery);
      res := res + k;
      res := res + [EQUALS];
      res := res + v;
      PrintTagsFromStep(rest, i - 1);
      AssocFive(before, sep, k, [EQUALS], v);
      Assoc(before, sep + PrintTag(sorted[i]), PrintTagsFrom(rest, i));
      i := i + 1;
    }
  }

  method NameToFront(series: seq<Tag>) returns (labels: seq<Tag>, nameOffset: nat)
    ensures labels == NameFirst(series)
    ensures nameOffset == if NameIndex(series, 0) < 0 then 0 else 1
    ensures nameOffset <= |labels|
  {
    labels := series;
    nameOffset := 0;
    for i := 0 to |labels|
      invariant labels == series && nameOffset == 0
      invariant NameIndex(series, i) == NameIndex(series, 0)
    {
      if labels[i].key == NAME_LABEL {
        if i != 0 {
          labels := labels[0 := labels[i]][i := labels[0]];
        }
        nameOffset := 1;
        break;
      }
    }
  }

  method UnpackPlainSamples(c: Setup, samples: seq<Sample>, metric: bytes, writer: Writer)
    requires writer.Valid() && writer.now == c.now && writer.toDays == c.toDays
    modifies writer.Repr()
    ensures writer.Valid() && fresh(writer.Repr() - old(writer.Repr()))
    ensures writer.State() == PlainSamples(c, samples, metric, old(writer.State()))
  {
    hide Written;
    var j := 0;
    assert samples[0..] == samples;
    while j < |samples|
      invariant 0 <= j <= |samples|
      invariant writer.Valid() && fresh(writer.Repr() - old(writer.Repr()))
      invariant PlainSamples(c, samples[j..], metric, writer.State()) ==
          PlainSamples(c, samples, metric, old(writer.State()))
    {
      assert samples[j..][1..] == samples[j + 1..] && samples[j..][0] == samples[j];
      if !IsNaN(samples[j].value) && !IsDropString(c, metric, Timestamp32(samples[j].timestamp)) {
        writer.WritePoint(metric, samples[j].value, Timestamp32(samples[j].timestamp));
      }
      j := j + 1;
    }
  }

  /** `unpackDefault`, from the decoded request on. */
  method UnpackDefault(c: Setup, req: seq<Series>) returns (r: Report)
    ensures r == Observed(Done(PlainRequest(c, req, EMPTY)))
    ensures r.failure.None? && RequestStored(c, req, r.sent)
  {
    hide PlainSamples, PrometheusName, Flushed, RequestStored;
    RequestStores(c, req);
    var writer := new Writer(c.now, c.toDays);
    var i := 0;
    assert req[0..] == req;
    while i < |req|
      invariant 0 <= i <= |req|
      invariant writer.Valid() && fresh(writer.Repr()) && writer.now == c.now && writer.toDays == c.toDays
      invariant PlainRequest(c, req[i..], writer.State()) == PlainRequest(c, req, EMPTY)
    {
      assert req[i..][1..] == req[i + 1..] && req[i..][0] == req[i];
      var metric := PrintPrometheus(req[i].labels);
      UnpackPlainSamples(c, req[i].samples, metric, writer);
      i := i + 1;
    }
    writer.Flush();
    return Report(None, writer.sent, writer.pointsWritten, writer.writeErrors);
  }
}

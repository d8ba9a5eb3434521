/** The generated encoder as it runs: sizes added up first, then bytes put into an array of that size
    (helper/prompb/types.pb.go, helper/prompb/remote.pb.go). */
module PrompbEncoder {
  import opened ByteArrays
  import opened ByteStrings
  import opened Varint
  import opened TaggedNames
  import opened Pb
  import opened Prompb

  /** `sovTypes` */
  method VarintLength(x: uint64) returns (n: nat)
    ensures n == |PutUvarint(x)|
  {
    n := 0;
    var v: nat := x;
    while true
      invariant n + |PutUvarint(v)| == |PutUvarint(x)|
      decreases v
    {
      n := n + 1;
      if v < 128 {
        break;
      }
      v := v / 128;
    }
  }

  /** `encodeVarintTypes` */
  method EncodeVarint(data: array<byte>, offset: nat, x: uint64) returns (i: nat)
    requires offset + |PutUvarint(x)| <= data.Length
    modifies data
    ensures i == offset + |PutUvarint(x)| && data[..i] == old(data[..offset]) + PutUvarint(x)
  {
    ghost var head, done: bytes := data[..offset], [];
    var v: nat := x;
    i := offset;
    EmptyFirst(PutUvarint(x));
    while v >= 128
      invariant offset <= i && i + |PutUvarint(v)| == offset + |PutUvarint(x)|
      invariant data[..i] == head + done && done + PutUvarint(v) == PutUvarint(x)
      decreases v
    {
      var b := (v % 128 + 128) as byte;
      data[i] := b;
      assert data[..i + 1] == data[..i] + [b];
      Assoc(head, done, [b]);
      Assoc(done, [b], PutUvarint(v / 128));
      done := done + [b];
      v := v / 128;
      i := i + 1;
    }
    data[i] := v as byte;
    assert data[..i + 1] == data[..i] + [v as byte];
    Assoc(head, done, [v as byte]);
    i := i + 1;
  }

  /** A length-delimited field. */
  method EncodeDelimited(data: array<byte>, offset: nat, tag: byte, body: bytes) returns (i: nat)
    requires |body| < TWO64 && offset + |Delimited(tag, body)| <= data.Length
    modifies data
    ensures i == offset + |Delimited(tag, body)| && data[..i] == old(data[..offset]) + Delimited(tag, body)
  {
    ghost var head := data[..offset];
    i := EncodeTagAndLength(data, offset, tag, |body|);
    Append(data, i, body);
    i := i + |body|;
    RegroupField(head, [tag], PutUvarint(|body|), body);
  }

  method EncodeTagAndLength(data: array<byte>, offset: nat, tag: byte, length: uint64) returns (i: nat)
    requires offset + 1 + |PutUvarint(length)| <= data.Length
    modifies data
    ensures i == offset + 1 + |PutUvarint(length)|
    ensures data[..i] == old(data[..offset]) + [tag] + PutUvarint(length)
  {
    data[offset] := tag;
    assert data[..offset + 1] == old(data[..offset]) + [tag];
    i := EncodeVarint(data, offset + 1, length);
  }

  lemma RegroupField(head: bytes, tag: bytes, length: bytes, body: bytes)
    ensures head + tag + length + body == head + (tag + (length + body))
  {
  }

  method LabelSize(l: Tag) returns (n: nat)
    requires |MarshalLabel(l)| < TWO63
    ensures n == |MarshalLabel(l)|
  {
    n := 0;
    if l.key != [] {
      var k := VarintLength(|l.key|);
      n := n + (1 + |l.key| + k);
    }
    if l.value != [] {
      var k := VarintLength(|l.value|);
      n := n + (1 + |l.value| + k);
    }
  }

  method MarshalLabelTo(l: Tag, data: array<byte>, offset: nat) returns (i: nat)
    requires |MarshalLabel(l)| < TWO63 && offset + |MarshalLabel(l)| <= data.Length
    modifies data
    ensures i == offset + |MarshalLabel(l)| && data[..i] == old(data[..offset]) + MarshalLabel(l)
  {
    ghost var head := data[..offset];
    ghost var k: bytes := if l.key == [] then [] else Delimited(TAG_NAME, l.key);
    ghost var v: bytes := if l.value == [] then [] else Delimited(TAG_VALUE, l.value);
    i := offset;
    assert head + [] == head;
    if l.key != [] {
      i := EncodeDelimited(data, i, TAG_NAME, l.key);
    }
    assert data[..i] == head + k;
    assert head + k + [] == head + k;
    if l.value != [] {
      i := EncodeDelimited(data, i, TAG_VALUE, l.value);
    }
    Assoc(head, k, v);
  }

  method SampleSize(s: Sample) returns (n: nat)
    ensures n == |MarshalSample(s)|
  {
    n := 0;
    if !IsZero(s.value) {
      n := n + 9;
    }
    if s.timestamp != 0 {
      var k := VarintLength(ToUint64(s.timestamp));
      n := n + (1 + k);
    }
  }

  method MarshalSampleTo(s: Sample, data: array<byte>, offset: nat) returns (i: nat)
    requires offset + |MarshalSample(s)| <= data.Length
    modifies data
    ensures i == offset + |MarshalSample(s)| && data[..i] == old(data[..offset]) + MarshalSample(s)
  {
    ghost var head := data[..offset];
    ghost var v: bytes := if IsZero(s.value) then [] else [TAG_SAMPLE_VALUE] + LittleEndian(s.value, 8);
    ghost var t: bytes := if s.timestamp == 0 then [] else [TAG_TIMESTAMP] + PutUvarint(ToUint64(s.timestamp));
    hide LittleEndian, PutUvarint;
    i := offset;
    assert head + [] == head;
    if !IsZero(s.value) {
      data[i] := TAG_SAMPLE_VALUE;
      assert data[..i + 1] == head + [TAG_SAMPLE_VALUE];
      i := i + 1;
      Append(data, i, LittleEndian(s.value, 8));
      Assoc(head, [TAG_SAMPLE_VALUE], LittleEndian(s.value, 8));
      i := i + 8;
    }
    assert data[..i] == head + v;
    assert head + v + [] == head + v;
    if s.timestamp != 0 {
      i := EncodeTagAndLength(data, i, TAG_TIMESTAMP, ToUint64(s.timestamp));
      Assoc(head + v, [TAG_TIMESTAMP], PutUvarint(ToUint64(s.timestamp)));
    }
    Assoc(head, v, t);
  }

  lemma LabelsStep(labels: seq<Tag>, k: nat, rest: bytes)
    requires k < |labels|
    ensures MarshalLabels(labels[k..], rest) ==
            Delimited(TAG_LABELS, MarshalLabel(labels[k])) + MarshalLabels(labels[k + 1..], rest)
  {
    assert labels[k..][1..] == labels[k + 1..];
  }

  lemma SamplesStep(samples: seq<Sample>, k: nat)
    requires k < |samples|
    ensures MarshalSamples(samples[k..]) ==
            Delimited(TAG_SAMPLES, MarshalSample(samples[k])) + MarshalSamples(samples[k + 1..])
  {
    assert samples[k..][1..] == samples[k + 1..];
  }

  lemma RequestStep(req: seq<Series>, k: nat)
    requires k < |req|
    ensures MarshalRequest(req[k..]) == Delimited(TAG_LABELS, MarshalSeries(req[k])) + MarshalRequest(req[k + 1..])
  {
    assert req[k..][1..] == req[k + 1..];
  }

  lemma Ends(s: Series, req: seq<Series>)
    ensures s.labels[0..] == s.labels && s.samples[0..] == s.samples && req[0..] == req
    ensures MarshalLabels(s.labels[|s.labels|..], MarshalSamples(s.samples)) == MarshalSamples(s.samples)
    ensures MarshalSamples(s.samples[|s.samples|..]) == [] && MarshalRequest(req[|req|..]) == []
  {
  }

  method SeriesSize(s: Series) returns (n: nat)
    requires |MarshalSeries(s)| < TWO63
    ensures n == |MarshalSeries(s)|
  {
    Ends(s, []);
    n := 0;
    var rest := MarshalSamples(s.samples);
    for k := 0 to |s.labels|
      invariant n + |MarshalLabels(s.labels[k..], rest)| == |MarshalSeries(s)|
    {
      LabelsStep(s.labels, k, rest);
      DelimitedLength(TAG_LABELS, MarshalLabel(s.labels[k]));
      var l := LabelSize(s.labels[k]);
      var v := VarintLength(l);
      n := n + (1 + l + v);
    }
    for k := 0 to |s.samples|
      invariant n + |MarshalSamples(s.samples[k..])| == |MarshalSeries(s)|
    {
      SamplesStep(s.samples, k);
      DelimitedLength(TAG_SAMPLES, MarshalSample(s.samples[k]));
      var l := SampleSize(s.samples[k]);
      var v := VarintLength(l);
      n := n + (1 + l + v);
    }
  }

  /** A message of a repeated field: tag, size, bytes. */
  method MarshalLabelField(l: Tag, data: array<byte>, offset: nat) returns (i: nat)
    requires |MarshalLabel(l)| < TWO63 && offset + |Delimited(TAG_LABELS, MarshalLabel(l))| <= data.Length
    modifies data
    ensures i == offset + |Delimited(TAG_LABELS, MarshalLabel(l))|
    ensures data[..i] == old(data[..offset]) + Delimited(TAG_LABELS, MarshalLabel(l))
  {
    ghost var head := data[..offset];
    hide MarshalLabel, PutUvarint;
    var size := LabelSize(l);
    i := EncodeTagAndLength(data, offset, TAG_LABELS, size);
    i := MarshalLabelTo(l, data, i);
    RegroupField(head, [TAG_LABELS], PutUvarint(size), MarshalLabel(l));
  }

  method MarshalSampleField(s: Sample, data: array<byte>, offset: nat) returns (i: nat)
    requires |MarshalSample(s)| < TWO63 && offset + |Delimited(TAG_SAMPLES, MarshalSample(s))| <= data.Length
    modifies data
    ensures i == offset + |Delimited(TAG_SAMPLES, MarshalSample(s))|
    ensures data[..i] == old(data[..offset]) + Delimited(TAG_SAMPLES, MarshalSample(s))
  {
    ghost var head := data[..offset];
    hide MarshalSample, PutUvarint;
    var size := SampleSize(s);
    i := EncodeTagAndLength(data, offset, TAG_SAMPLES, size);
    i := MarshalSampleTo(s, data, i);
    RegroupField(head, [TAG_SAMPLES], PutUvarint(size), MarshalSample(s));
  }

  /** The labels of a series, before the samples that `rest` stands for. */
  method MarshalLabelsTo(labels: seq<Tag>, data: array<byte>, offset: nat, ghost rest: bytes) returns (i: nat)
    requires |MarshalLabels(labels, rest)| < TWO63 && offset + |MarshalLabels(labels, rest)| <= data.Length
    modifies data
    ensures offset <= i && i + |rest| == offset + |MarshalLabels(labels, rest)|
    ensures data[..i] + rest == old(data[..offset]) + MarshalLabels(labels, rest)
  {
    ghost var head, all := data[..offset], MarshalLabels(labels, rest);
    assert labels[0..] == labels && MarshalLabels(labels[|labels|..], rest) == rest;
    hide MarshalLabel, MarshalLabels, Delimited;
    i := offset;
    for k := 0 to |labels|
      invariant offset <= i && i + |MarshalLabels(labels[k..], rest)| == offset + |all|
      invariant data[..i] + MarshalLabels(labels[k..], rest) == head + all
    {
      LabelsStep(labels, k, rest);
      DelimitedLength(TAG_LABELS, MarshalLabel(labels[k]));
      Assoc(data[..i], Delimited(TAG_LABELS, MarshalLabel(labels[k])), MarshalLabels(labels[k + 1..], rest));
      i := MarshalLabelField(labels[k], data, i);
    }
  }

  method MarshalSamplesTo(samples: seq<Sample>, data: array<byte>, offset: nat) returns (i: nat)
    requires |MarshalSamples(samples)| < TWO63 && offset + |MarshalSamples(samples)| <= data.Length
    modifies data
    ensures i == offset + |MarshalSamples(samples)| && data[..i] == old(data[..offset]) + MarshalSamples(samples)
  {
    ghost var head, all := data[..offset], MarshalSamples(samples);
    assert samples[0..] == samples && MarshalSamples(samples[|samples|..]) == [];
    hide MarshalSample, MarshalSamples, Delimited;
    i := offset;
    for k := 0 to |samples|
      invariant offset <= i && i + |MarshalSamples(samples[k..])| == offset + |all|
      invariant data[..i] + MarshalSamples(samples[k..]) == head + all
    {
      SamplesStep(samples, k);
      DelimitedLength(TAG_SAMPLES, MarshalSample(samples[k]));
      Assoc(data[..i], Delimited(TAG_SAMPLES, MarshalSample(samples[k])), MarshalSamples(samples[k + 1..]));
      i := MarshalSampleField(samples[k], data, i);
    }
    assert data[..i] + [] == data[..i];
  }

  method MarshalSeriesTo(s: Series, data: array<byte>, offset: nat) returns (i: nat)
    requires |MarshalSeries(s)| < TWO63 && offset + |MarshalSeries(s)| <= data.Length
    modifies data
    ensures i == offset + |MarshalSeries(s)| && data[..i] == old(data[..offset]) + MarshalSeries(s)
  {
    i := MarshalLabelsTo(s.labels, data, offset, MarshalSamples(s.samples));
    i := MarshalSamplesTo(s.samples, data, i);
  }

  method RequestSize(req: seq<Series>) returns (n: nat)
    requires |MarshalRequest(req)| < TWO63
    ensures n == |MarshalRequest(req)|
  {
    Ends(Series([], []), req);
    hide MarshalSeries;
    n := 0;
    for k := 0 to |req|
      invariant n + |MarshalRequest(req[k..])| == |MarshalRequest(req)|
    {
      RequestStep(req, k);
      DelimitedLength(TAG_LABELS, MarshalSeries(req[k]));
      var l := SeriesSize(req[k]);
      var v := VarintLength(l);
      n := n + (1 + l + v);
    }
  }

  /** `WriteRequest.Marshal`: the array is exactly as long as the bytes. */
  method Marshal(req: seq<Series>) returns (data: array<byte>)
    requires |MarshalRequest(req)| < TWO63
    ensures fresh(data) && data[..] == MarshalRequest(req)
  {
    hide MarshalSeries, MarshalRequest, Delimited;
    var size := RequestSize(req);
    data := new byte[size];
    Ends(Series([], []), req);
    var i := 0;
    EmptyFirst(MarshalRequest(req));
    for k := 0 to |req|
      invariant 0 <= i <= data.Length && i + |MarshalRequest(req[k..])| == size == data.Length
      invariant data[..i] + MarshalRequest(req[k..]) == MarshalRequest(req)
    {
      RequestStep(req, k);
      DelimitedLength(TAG_LABELS, MarshalSeries(req[k]));
      Assoc(data[..i], Delimited(TAG_LABELS, MarshalSeries(req[k])), MarshalRequest(req[k + 1..]));
      i := MarshalSeriesField(req[k], data, i);
    }
    assert data[..i] + [] == data[..i];
  }

  method MarshalSeriesField(s: Series, data: array<byte>, offset: nat) returns (i: nat)
    requires |MarshalSeries(s)| < TWO63 && offset + |Delimited(TAG_LABELS, MarshalSeries(s))| <= data.Length
    modifies data
    ensures i == offset + |Delimited(TAG_LABELS, MarshalSeries(s))|
    ensures data[..i] == old(data[..offset]) + Delimited(TAG_LABELS, MarshalSeries(s))
  {
    ghost var head := data[..offset];
    hide MarshalSeries, PutUvarint;
    var size := SeriesSize(s);
    i := EncodeTagAndLength(data, offset, TAG_LABELS, size);
    i := MarshalSeriesTo(s, data, i);
    RegroupField(head, [TAG_LABELS], PutUvarint(size), MarshalSeries(s));
  }
}

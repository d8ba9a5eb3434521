/** When the fast unpacker and the plain one send the same bytes. */
module PrometheusAgreement {
  import opened ByteStrings
  import opened Varint
  import opened Escape
  import opened TaggedNames
  import opened TagSort
  import opened WriteBuffers
  import opened RowWriter
  import opened Pb
  import opened Prompb
  import opened Prometheus

  /* ---- decoding what the encoder printed ---- */

  lemma ParseKeyField(x: bytes, rest: bytes, key: Option<bytes>, value: Option<bytes>)
    requires |x| < TWO63
    ensures ParseLabel(Delimited(TAG_NAME, x) + rest, key, value) == ParseLabel(rest, Some(x), value)
  {
    hide Delimited, Pb.Bytes;
    ReadDelimited(TAG_NAME, x, rest);
  }

  lemma ParseValueField(x: bytes, rest: bytes, key: Option<bytes>, value: Option<bytes>)
    requires |x| < TWO63
    ensures ParseLabel(Delimited(TAG_VALUE, x) + rest, key, value) == ParseLabel(rest, key, Some(x))
  {
    hide Delimited, Pb.Bytes;
    ReadDelimited(TAG_VALUE, x, rest);
  }

  function Present(x: bytes): Option<bytes>
  {
    if x == [] then None else Some(x)
  }

  lemma ParsePrintedLabel(l: Tag)
    requires |l.key| < TWO63 && |l.value| < TWO63
    ensures ParseLabel(MarshalLabel(l), None, None) == LabelOk(Present(l.key), Present(l.value))
  {
    var v: bytes := if l.value == [] then [] else Delimited(TAG_VALUE, l.value);
    assert v + [] == v;
    if l.value != [] {
      ParseValueField(l.value, [], Present(l.key), None);
    }
    if l.key != [] {
      ParseKeyField(l.key, v, None, None);
    } else {
      assert MarshalLabel(l) == v;
    }
    assert ParseLabel([], Present(l.key), Present(l.value)) == LabelOk(Present(l.key), Present(l.value));
  }

  predicate Complete(l: Tag)
  {
    l.key != [] && l.value != []
  }

  /** The labels the walker keeps. */
  function KeptLabels(labels: seq<Tag>): seq<Tag>
  {
    if labels == [] then [] else (if Complete(labels[0]) then [labels[0]] else []) + KeptLabels(labels[1..])
  }

  /** What has to fit an `int`: nothing here is longer than the encoded message. */
  ghost predicate LabelsFit(labels: seq<Tag>)
  {
    forall i | 0 <= i < |labels| :: |labels[i].key| < TWO63 && |labels[i].value| < TWO63
        && |MarshalLabel(labels[i])| < TWO63
  }

  ghost predicate SamplesFit(samples: seq<Sample>)
  {
    forall i | 0 <= i < |samples| :: |MarshalSample(samples[i])| < TWO63
  }

  lemma WalkLabel(total: nat, l: Tag, rest: bytes, kept: seq<Tag>, offset: nat)
    requires |Delimited(TAG_LABELS, MarshalLabel(l)) + rest| <= total && offset <= total
    requires LabelsFit([l])
    ensures WalkSeries(total, Delimited(TAG_LABELS, MarshalLabel(l)) + rest, kept, offset) ==
            WalkSeries(total, rest, kept + (if Complete(l) then [l] else []), offset)
  {
    assert [l][0] == l;
    ParsePrintedLabel(l);
    ReadDelimited(TAG_LABELS, MarshalLabel(l), rest);
    hide Delimited, Pb.Bytes, MarshalLabel, ParseLabel, LabelsFit;
  }

  lemma {:induction false} WalkPrintedLabels(total: nat, labels: seq<Tag>, rest: bytes, kept: seq<Tag>, offset: nat)
    requires |MarshalLabels(labels, rest)| <= total && offset <= total && LabelsFit(labels)
    ensures |rest| <= total
    ensures WalkSeries(total, MarshalLabels(labels, rest), kept, offset) ==
        WalkSeries(total, rest, kept + KeptLabels(labels), offset)
    decreases |labels|
  {
    if labels == [] {
      assert kept + [] == kept;
    } else {
      var first := if Complete(labels[0]) then [labels[0]] else [];
      assert LabelsFit([labels[0]]) && LabelsFit(labels[1..]);
      Assoc(kept, first, KeptLabels(labels[1..]));
      WalkLabel(total, labels[0], MarshalLabels(labels[1..], rest), kept, offset);
      WalkPrintedLabels(total, labels[1..], rest, kept + first, offset);
    }
  }

  lemma WalkSample(total: nat, body: bytes, rest: bytes, kept: seq<Tag>, offset: nat)
    requires |body| < TWO63 && |Delimited(TAG_SAMPLES, body) + rest| <= total && offset <= total
    ensures
      var p := Delimited(TAG_SAMPLES, body) + rest;
      WalkSeries(total, p, kept, offset) == WalkSeries(total, rest, kept, if offset == 0 then total - |p| else offset)
  {
    SkipDelimited(TAG_SAMPLES, body, rest);
    var p := Delimited(TAG_SAMPLES, body) + rest;
    assert p[0] == TAG_SAMPLES;
    hide Pb.Skip, Delimited;
  }

  /** Past the first sample the walk only skips. */
  lemma {:induction false} WalkPrintedSamples(total: nat, samples: seq<Sample>, kept: seq<Tag>, offset: nat)
    requires |MarshalSamples(samples)| <= total && offset <= total && SamplesFit(samples)
    requires offset > 0 || |MarshalSamples(samples)| < total || samples == []
    ensures WalkSeries(total, MarshalSamples(samples), kept, offset) ==
            Walked(kept, if offset == 0 && samples != [] then total - |MarshalSamples(samples)| else offset)
    decreases |samples|
  {
    hide *;
    if samples == [] {
      WalkNoSamples(total, kept, offset);
    } else {
      var body, rest, p := MarshalSample(samples[0]), MarshalSamples(samples[1..]), MarshalSamples(samples);
      FirstSample(samples);
      WalkSample(total, body, rest, kept, offset);
      WalkPrintedSamples(total, samples[1..], kept, if offset == 0 then total - |p| else offset);
    }
  }

  lemma WalkNoSamples(total: nat, kept: seq<Tag>, offset: nat)
    requires offset <= total
    ensures MarshalSamples([]) == [] && WalkSeries(total, [], kept, offset) == Walked(kept, offset)
  {
  }

  lemma FirstSample(samples: seq<Sample>)
    requires samples != [] && SamplesFit(samples)
    ensures MarshalSamples(samples) == Delimited(TAG_SAMPLES, MarshalSample(samples[0])) + MarshalSamples(samples[1..])
    ensures |MarshalSample(samples[0])| < TWO63 && SamplesFit(samples[1..])
  {
  }

  lemma {:induction false} MarshalLabelsSplit(labels: seq<Tag>, rest: bytes)
    ensures MarshalLabels(labels, rest) == MarshalLabels(labels, []) + rest
    ensures |MarshalLabels(labels, [])| >= |labels|
  {
    if labels != [] {
      MarshalLabelsSplit(labels[1..], rest);
      Assoc(Delimited(TAG_LABELS, MarshalLabel(labels[0])), MarshalLabels(labels[1..], []), rest);
    }
  }

  /** Where the samples start, or 0 without any. */
  function SamplesOffset(s: Series): nat
  {
    if s.samples == [] then 0 else |MarshalLabels(s.labels, [])|
  }

  lemma WalkPrintedSeries(s: Series)
    requires LabelsFit(s.labels) && SamplesFit(s.samples) && s.labels != []
    ensures
      var body := MarshalSeries(s);
      WalkSeries(|body|, body, [], 0) == Walked(KeptLabels(s.labels), SamplesOffset(s))
  {
    hide LabelsFit, SamplesFit, KeptLabels;
    var body, rest := MarshalSeries(s), MarshalSamples(s.samples);
    MarshalLabelsSplit(s.labels, rest);
    WalkPrintedLabels(|body|, s.labels, rest, [], 0);
    assert [] + KeptLabels(s.labels) == KeptLabels(s.labels);
    WalkPrintedSamples(|body|, s.samples, KeptLabels(s.labels), 0);
  }

  lemma ParseTimestampField(t: int64, value: uint64)
    ensures ParseSample([TAG_TIMESTAMP] + PutUvarint(ToUint64(t)), value, 0) == SampleOk(value, t)
  {
    var v := PutUvarint(ToUint64(t));
    var p := [TAG_TIMESTAMP] + v;
    assert p[1..] == v && v + [] == v;
    Uint64OfVarint(ToUint64(t), []);
    assert ToInt64(ToUint64(t)) == t;
    hide PutUvarint, Uint64;
    assert ParseSample(p, value, 0) == ParseSample([], value, t);
  }

  lemma ParseValueBits(value: uint64, rest: bytes)
    ensures ParseSample([TAG_SAMPLE_VALUE] + LittleEndian(value, 8) + rest, 0, 0) == ParseSample(rest, value, 0)
  {
    var b := LittleEndian(value, 8);
    var p := [TAG_SAMPLE_VALUE] + b + rest;
    assert p[1..] == b + rest && (b + rest)[..8] == b && (b + rest)[8..] == rest;
    Pow256Values();
    LittleEndianRoundTrip(value, 8);
    hide LittleEndian, FromLittleEndian;
    assert Double(p[1..]) == Ok(value, rest);
  }

  lemma ParsePrintedSample(s: Sample)
    ensures ParseSample(MarshalSample(s), 0, 0) == SampleOk(DecodedSample(s).value, s.timestamp)
  {
    var t: bytes := if s.timestamp == 0 then [] else [TAG_TIMESTAMP] + PutUvarint(ToUint64(s.timestamp));
    var value := DecodedSample(s).value;
    if s.timestamp != 0 {
      ParseTimestampField(s.timestamp, value);
    }
    if IsZero(s.value) {
      assert MarshalSample(s) == t;
    } else {
      ParseValueBits(s.value, t);
    }
    hide PutUvarint, LittleEndian;
    assert ParseSample([], value, 0) == SampleOk(value, 0);
  }

  /* ---- the samples ---- */

  lemma FastSampleStep(c: Setup, s: Sample, rest: bytes, name: bytes, w: WriterState)
    requires |MarshalSample(s)| < TWO63
    ensures FastSamples(c, Delimited(TAG_SAMPLES, MarshalSample(s)) + rest, name, w) ==
            FastSamples(c, rest, name, EmitSample(c, name, 0, DecodedSample(s).value, s.timestamp, w))
  {
    ReadDelimited(TAG_SAMPLES, MarshalSample(s), rest);
    ParsePrintedSample(s);
    hide MarshalSample, Delimited, Pb.Bytes, EmitSample, ParseSample;
  }

  /** The rule for long names, which the fast form never applies, would not drop this one either. */
  predicate ShortEnough(c: Setup, name: bytes)
  {
    c.rules.tooLong == 0 || |name| <= c.rules.tooLong
  }

  lemma PlainSampleStep(c: Setup, samples: seq<Sample>, name: bytes, w: WriterState)
    requires samples != [] && ShortEnough(c, name)
    ensures PlainSamples(c, DecodedSamples(samples), name, w) ==
            PlainSamples(c, DecodedSamples(samples[1..]), name,
                         EmitSample(c, name, 0, DecodedSample(samples[0]).value, samples[0].timestamp, w))
  {
    var d := DecodedSamples(samples);
    assert d[1..] == DecodedSamples(samples[1..]) && d[0].timestamp == samples[0].timestamp;
    hide Written, IsDropTime, IsNaN, Timestamp32;
  }

  lemma {:induction false} SamplesAgree(c: Setup, samples: seq<Sample>, name: bytes, w: WriterState)
    requires SamplesFit(samples) && ShortEnough(c, name)
    ensures FastSamples(c, MarshalSamples(samples), name, w) == Done(PlainSamples(c, DecodedSamples(samples), name, w))
    decreases |samples|
  {
    if samples != [] {
      var s, rest := samples[0], MarshalSamples(samples[1..]);
      assert MarshalSamples(samples) == Delimited(TAG_SAMPLES, MarshalSample(s)) + rest;
      assert SamplesFit(samples[1..]) && |MarshalSample(s)| < TWO63;
      hide *;
      FastSampleStep(c, s, rest, name, w);
      PlainSampleStep(c, samples, name, w);
      SamplesAgree(c, samples[1..], name, EmitSample(c, name, 0, DecodedSample(s).value, s.timestamp, w));
    }
  }

  /** Without samples the labels are walked once more, and skipped. */
  lemma {:induction false} LabelsAreSkipped(c: Setup, labels: seq<Tag>, name: bytes, w: WriterState)
    requires LabelsFit(labels)
    ensures FastSamples(c, MarshalLabels(labels, []), name, w) == Done(w)
    decreases |labels|
  {
    if labels != [] {
      var rest, p := MarshalLabels(labels[1..], []), MarshalLabels(labels, []);
      SkipDelimited(TAG_LABELS, MarshalLabel(labels[0]), rest);
      assert p[0] == TAG_LABELS;
      assert LabelsFit(labels[1..]);
      hide MarshalLabel, Pb.Skip, LabelsFit;
      LabelsAreSkipped(c, labels[1..], name, w);
    }
  }

  /* ---- the names ---- */

  lemma {:induction false} EscapedFromParts(labels: seq<Tag>, i: nat)
    requires i <= |labels|
    ensures |EscapedFrom(labels, i)| == 2 * (|labels| - i)
    ensures forall k | i <= k < |labels| ::
              && EscapedFrom(labels, i)[2 * (k - i)] == Escaped(labels[k].key, EncodeQuery)
              && EscapedFrom(labels, i)[2 * (k - i) + 1] == Escaped(labels[k].value, EncodeQuery)
    decreases |labels| - i
  {
    hide Escaped;
    if i < |labels| {
      EscapedFromParts(labels, i + 1);
    }
  }

  /** The parts of a metric, as the fast form hands them to the writer. */
  function Parts(sorted: seq<Tag>): seq<bytes>
    requires sorted != []
  {
    [sorted[0].value] + EscapedFrom(sorted, 1)
  }

  lemma PartsAt(sorted: seq<Tag>, i: nat)
    requires 1 <= i < |sorted|
    ensures |Parts(sorted)| == 2 * |sorted| - 1
    ensures Parts(sorted)[2 * i - 1] == Escaped(sorted[i].key, EncodeQuery)
    ensures Parts(sorted)[2 * i] == Escaped(sorted[i].value, EncodeQuery)
  {
    hide Escaped, EscapedFrom;
    EscapedFromParts(sorted, 1);
    var e := EscapedFrom(sorted, 1);
    assert e[2 * (i - 1)] == Escaped(sorted[i].key, EncodeQuery);
    assert e[2 * (i - 1) + 1] == Escaped(sorted[i].value, EncodeQuery);
  }

  lemma RegroupTag(sep: bytes, k: bytes, eq: bytes, v: bytes, rest: bytes)
    ensures sep + k + (eq + v + rest) == sep + (k + eq + v) + rest
  {
  }

  lemma TaggedRestStep(parts: seq<bytes>, j: nat)
    requires j % 2 == 1 && j + 1 < |parts|
    ensures TaggedRest(parts, j) ==
            (if j == 1 then [QUESTION] else [AMPERSAND]) + parts[j] +
            ([EQUALS] + parts[j + 1] + TaggedRest(parts, j + 2))
  {
    var more := TaggedRest(parts, j + 2);
    assert TaggedRest(parts, j + 1) == [EQUALS] + parts[j + 1] + more;
  }

  /** Between the parts the writer puts what the plain printer puts between the tags. */
  lemma {:induction false} PartsPrintAsTags(sorted: seq<Tag>, i: nat)
    requires 1 <= i <= |sorted|
    ensures TaggedRest(Parts(sorted), 2 * i - 1) ==
            (if i == 1 && |sorted| > 1 then [QUESTION] else []) + PrintTagsFrom(sorted[1..], i - 1)
    decreases |sorted| - i
  {
    hide Parts, Escaped, PrintTagsFrom;
    var parts, rest := Parts(sorted), sorted[1..];
    PartsLength(sorted);
    if i == |sorted| {
      PrintTagsFromEnds(rest);
    } else {
      hide TaggedRest;
      PartsAt(sorted, i);
      PartsPrintAsTags(sorted, i + 1);
      PrintTagsFromStep(rest, i - 1);
      TaggedRestStep(parts, 2 * i - 1);
      var k, v, more := parts[2 * i - 1], parts[2 * i], PrintTagsFrom(rest, i);
      var sep: bytes := if i == 1 then [QUESTION] else [AMPERSAND];
      EmptyFirst(more);
      EmptyFirst(PrintTag(sorted[i]));
      RegroupTag(sep, k, [EQUALS], v, more);
      Assoc(sep, PrintTag(sorted[i]), more);
    }
  }

  lemma PartsLength(sorted: seq<Tag>)
    requires sorted != []
    ensures |Parts(sorted)| == 2 * |sorted| - 1
  {
    hide Escaped, EscapedFrom;
    EscapedFromParts(sorted, 1);
  }

  lemma TaggedNameHead(parts: seq<bytes>)
    requires parts != []
    ensures TaggedName(parts) == parts[0] + TaggedRest(parts, 1)
  {
    assert TaggedName(parts) == [] + parts[0] + TaggedRest(parts, 1);
  }

  /** The fast form's name: the name itself, and a `?` only when there are tags. */
  lemma FastName(labels: seq<Tag>)
    requires labels != []
    ensures
      var sorted := ExchangeSort(NameFirst(labels), 1, |labels|);
      TaggedName(MetricOf(labels)) ==
      sorted[0].value + ((if |labels| > 1 then [QUESTION] else []) + PrintTags(sorted[1..]))
  {
    var sorted := ExchangeSort(NameFirst(labels), 1, |labels|);
    assert MetricOf(labels) == Parts(sorted);
    assert Parts(sorted)[0] == sorted[0].value;
    hide *;
    PartsPrintAsTags(sorted, 1);
    PrintTagsFromEnds(sorted[1..]);
    TaggedNameHead(Parts(sorted));
  }

  /* ---- when the names are the same ---- */

  /** The name a series gets from the fast form, if it gets one. */
  function FastMetric(labels: seq<Tag>): Option<bytes>
  {
    var kept := KeptLabels(labels);
    if NameIndex(kept, 0) < 0 then None else Some(TaggedName(MetricOf(kept)))
  }

  /** A name that path escaping leaves alone, some other label, and nothing empty. */
  predicate Plain(labels: seq<Tag>)
  {
    var i := NameIndex(labels, 0);
    && i >= 0 && EscapeFree(labels[i].value, EncodePath)
    && |labels| >= 2 && forall k | 0 <= k < |labels| :: Complete(labels[k])
  }

  lemma {:induction false} KeptLabelsCount(labels: seq<Tag>)
    ensures |KeptLabels(labels)| <= |labels|
    ensures |KeptLabels(labels)| == |labels| <==> forall k | 0 <= k < |labels| :: Complete(labels[k])
    ensures |KeptLabels(labels)| == |labels| ==> KeptLabels(labels) == labels
  {
    if labels != [] {
      KeptLabelsCount(labels[1..]);
      hide Complete;
      assert labels == [labels[0]] + labels[1..];
    }
  }

  lemma {:induction false} KeptLabelsMembers(labels: seq<Tag>)
    ensures forall l | l in KeptLabels(labels) :: l in labels && Complete(l)
  {
    if labels != [] {
      KeptLabelsMembers(labels[1..]);
      hide Complete;
      assert forall l | l in labels[1..] :: l in labels;
    }
  }

  lemma {:induction false} NameIndexFinds(labels: seq<Tag>, i: nat)
    requires i <= |labels|
    ensures NameIndex(labels, i) < 0 ==> forall k | i <= k < |labels| :: labels[k].key != NAME_LABEL
    decreases |labels| - i
  {
    if i < |labels| && labels[i].key != NAME_LABEL {
      NameIndexFinds(labels, i + 1);
    }
  }

  /** With one value for each label name it is the same label that gives the name in both forms. */
  lemma KeptName(labels: seq<Tag>)
    requires OneValueEach(labels)
    ensures
      var kept := KeptLabels(labels);
      var i, j := NameIndex(labels, 0), NameIndex(kept, 0);
      j >= 0 ==> i >= 0 && kept[j] == labels[i]
  {
    var kept := KeptLabels(labels);
    var i, j := NameIndex(labels, 0), NameIndex(kept, 0);
    KeptLabelsMembers(labels);
    NameIndexFinds(labels, 0);
    hide KeptLabels, NameIndex;
    if j >= 0 {
      assert kept[j] in kept;
      var m :| 0 <= m < |labels| && labels[m] == kept[j];
    }
  }

  lemma NameFirstOneValue(labels: seq<Tag>)
    requires OneValueEach(labels)
    ensures OneValueEach(NameFirst(labels))
    ensures NameIndex(labels, 0) >= 0 ==> NameFirst(labels)[0] == labels[NameIndex(labels, 0)]
  {
    assert forall t | t in NameFirst(labels) :: t in labels;
  }

  lemma TailOneValue(l: seq<Tag>)
    requires l != [] && OneValueEach(l)
    ensures OneValueEach(l[1..])
  {
    assert forall t | t in l[1..] :: t in l;
  }

  lemma SortedFirst(l: seq<Tag>)
    requires l != []
    ensures ExchangeSort(l, 1, |l|)[0] == l[0]
  {
    ExchangeSortSorts(l, 1, 1, |l|);
  }

  lemma OutsideFirst(l: seq<Tag>, r: seq<Tag>)
    requires l != [] && |l| == |r| && SameOutside(l, r, 1, |l|)
    ensures l[0] == r[0]
  {
  }

  /** The sort leaves the first label, and puts the others in the order the stable sort gives. */
  lemma SortedRest(l: seq<Tag>)
    requires l != [] && OneValueEach(l)
    ensures ExchangeSort(l, 1, |l|)[0] == l[0]
    ensures ExchangeSort(l, 1, |l|)[1..] == StableSort(l[1..])
  {
    hide *;
    var r := ExchangeSort(l, 1, |l|);
    TailOneValue(l);
    assert l[1..|l|] == l[1..] && r[1..|l|] == r[1..];
    ExchangeSortIsStableSort(l, 1, |l|);
    OutsideFirst(l, r);
  }

  /** The names of a plain label set agree exactly when the exchange sort puts the labels after
      the name in the order the stable sort gives. */
  lemma PlainNamesAgreeIfSorted(labels: seq<Tag>)
    requires Plain(labels)
    ensures
      var l := NameFirst(labels);
      FastMetric(labels) == Some(PrometheusName(labels)) <==> ExchangeSort(l, 1, |l|)[1..] == StableSort(l[1..])
  {
    PlainFastName(labels);
    var l := NameFirst(labels);
    var fast, plain := ExchangeSort(l, 1, |l|)[1..], StableSort(l[1..]);
    hide *;
    var v := l[0].value;
    Assoc(v, [QUESTION], PrintTags(plain));
    EscapedUnchanged(v, EncodePath);
    if FastMetric(labels) == Some(PrometheusName(labels)) {
      SamePrintedName(v, PrintTags(fast), PrintTags(plain));
      PrintTagsInjective(fast, plain);
    }
  }

  lemma PlainFastName(labels: seq<Tag>)
    requires Plain(labels)
    ensures
      var l := NameFirst(labels);
      && l != [] && EscapeFree(l[0].value, EncodePath)
      && FastMetric(labels) == Some(l[0].value + ([QUESTION] + PrintTags(ExchangeSort(l, 1, |l|)[1..])))
      && PrometheusName(labels) == Escaped(l[0].value, EncodePath) + [QUESTION] + PrintTags(StableSort(l[1..]))
  {
    KeptLabelsCount(labels);
    var l := NameFirst(labels);
    SortedFirst(l);
    FastName(labels);
    hide Escaped, PrintTags, StableSort, ExchangeSort, MetricOf, TaggedName, EscapeFree;
  }

  lemma PlainNamesAgree(labels: seq<Tag>)
    requires OneValueEach(labels) && Plain(labels)
    ensures FastMetric(labels) == Some(PrometheusName(labels))
  {
    PlainNamesAgreeIfSorted(labels);
    NameFirstOneValue(labels);
    SortedRest(NameFirst(labels));
  }

  /** The first `?` tells where the name ends. */
  lemma SamePrintedName(v: bytes, a: bytes, b: bytes)
    requires v + ([QUESTION] + a) == Escaped(v, EncodePath) + [QUESTION] + b
    ensures EscapeFree(v, EncodePath) && a == b
  {
    var e := Escaped(v, EncodePath);
    EscapedUnchanged(v, EncodePath);
    PathAlphabet(v);
    hide Escaped, EscapeFree, IndexByte;
    var x, y := v + ([QUESTION] + a), e + [QUESTION] + b;
    assert forall k | 0 <= k < |e| :: y[k] == e[k];
    IndexByteUnique(y, QUESTION, |e|);
    IndexByteFinds(x, QUESTION);
    assert x[|v|] == QUESTION;
    assert x[..|v|] == v && y[..|e|] == e;
    assert x[|v| + 1..] == a && y[|e| + 1..] == b;
  }

  lemma SameNamesArePlain(labels: seq<Tag>)
    requires OneValueEach(labels) && FastMetric(labels) == Some(PrometheusName(labels))
    ensures Plain(labels)
  {
    var kept, l := KeptLabels(labels), NameFirst(labels);
    KeptName(labels);
    NameFirstOneValue(labels);
    KeptLabelsCount(labels);
    FastName(kept);
    var sorted := ExchangeSort(NameFirst(kept), 1, |kept|);
    var rest := StableSort(l[1..]);
    var v := l[0].value;
    KeptNameFirst(kept);
    StableSortSorts(l[1..]);
    assert |rest| == |multiset(rest)| == |l| - 1;
    hide Escaped, StableSort, ExchangeSort, NameFirst, MetricOf, TaggedName;
    EscapedUnchanged(v, EncodePath);
    assert |sorted[1..]| == |kept| - 1;
    assert |kept| > 1;
    hide PrintTags;
    SamePrintedName(v, PrintTags(sorted[1..]), PrintTags(rest));
    PrintTagsInjective(sorted[1..], rest);
  }

  /** The exchange sort never moves the first label. */
  lemma KeptNameFirst(kept: seq<Tag>)
    requires NameIndex(kept, 0) >= 0
    ensures ExchangeSort(NameFirst(kept), 1, |kept|)[0] == kept[NameIndex(kept, 0)]
  {
    ExchangeSortSorts(NameFirst(kept), 1, 1, |kept|);
  }

  /** For label sets that give no name two values, the fast form names a series as the plain one does
      exactly when the labels are plain. */
  lemma NamesAgree(labels: seq<Tag>)
    requires OneValueEach(labels)
    ensures FastMetric(labels) == Some(PrometheusName(labels)) <==> Plain(labels)
  {
    if Plain(labels) {
      PlainNamesAgree(labels);
    }
    if FastMetric(labels) == Some(PrometheusName(labels)) {
      SameNamesArePlain(labels);
    }
  }

  /* ---- whole requests ---- */

  lemma LabelFits(l: Tag)
    requires |MarshalLabel(l)| < TWO63
    ensures LabelsFit([l])
  {
    DelimitedLength(TAG_NAME, l.key);
    DelimitedLength(TAG_VALUE, l.value);
  }

  lemma {:induction false} LabelsFitMessage(labels: seq<Tag>, rest: bytes)
    requires |MarshalLabels(labels, rest)| < TWO63
    ensures LabelsFit(labels) && |rest| < TWO63
  {
    if labels != [] {
      DelimitedLength(TAG_LABELS, MarshalLabel(labels[0]));
      LabelFits(labels[0]);
      LabelsFitMessage(labels[1..], rest);
      hide MarshalLabel, Delimited;
      assert [labels[0]][0] == labels[0];
      assert forall i | 1 <= i < |labels| :: labels[i] == labels[1..][i - 1];
    }
  }

  lemma {:induction false} SamplesFitMessage(samples: seq<Sample>)
    requires |MarshalSamples(samples)| < TWO63
    ensures SamplesFit(samples)
  {
    if samples != [] {
      DelimitedLength(TAG_SAMPLES, MarshalSample(samples[0]));
      SamplesFitMessage(samples[1..]);
      hide MarshalSample, Delimited;
      assert forall i | 1 <= i < |samples| :: samples[i] == samples[1..][i - 1];
    }
  }

  /** What the walker makes of a printed series: one result for the labels, whatever the samples. */
  lemma ParsePrintedSeries(s: Series)
    requires LabelsFit(s.labels) && SamplesFit(s.samples) && s.labels != []
    ensures
      var kept := KeptLabels(s.labels);
      ParseSeries(MarshalSeries(s)) ==
      if NameIndex(kept, 0) < 0 then SeriesErr(NameNotFound) else SeriesOk(MetricOf(kept), SamplesOffset(s))
  {
    WalkPrintedSeries(s);
    hide KeptLabels, WalkSeries, MarshalSeries, MetricOf, NameIndex, LabelsFit, SamplesFit, SamplesOffset;
  }

  lemma FastSeriesIs(c: Setup, s: Series, w: WriterState)
    requires |MarshalSeries(s)| < TWO63 && OneValueEach(s.labels) && Plain(s.labels)
    ensures SamplesOffset(s) <= |MarshalSeries(s)| && LabelsFit(s.labels) && SamplesFit(s.samples)
    ensures FastSeries(c, MarshalSeries(s), w) ==
            FastSamples(c, MarshalSeries(s)[SamplesOffset(s)..], PrometheusName(s.labels), w)
  {
    LabelsFitMessage(s.labels, MarshalSamples(s.samples));
    SamplesFitMessage(s.samples);
    PlainNamesAgree(s.labels);
    assert s.labels != [];
    ParsePrintedSeries(s);
    hide ParseSeries, KeptLabels, MetricOf, TaggedName, PrometheusName, NameIndex, MarshalSeries, Plain, OneValueEach,
         LabelsFit, SamplesFit, SamplesOffset, FastSamples;
  }

  /** From the offset on there are the samples, or, without any, the labels again. */
  lemma FromOffset(s: Series)
    ensures SamplesOffset(s) <= |MarshalSeries(s)|
    ensures MarshalSeries(s)[SamplesOffset(s)..] ==
            if s.samples == [] then MarshalLabels(s.labels, []) else MarshalSamples(s.samples)
  {
    MarshalLabelsSplit(s.labels, MarshalSamples(s.samples));
    hide MarshalLabels;
  }

  /** A series without a sample has its labels walked, and skipped, once more. */
  lemma SeriesAgree(c: Setup, s: Series, w: WriterState)
    requires |MarshalSeries(s)| < TWO63 && ShortEnough(c, PrometheusName(s.labels))
    requires OneValueEach(s.labels) && Plain(s.labels)
    ensures FastSeries(c, MarshalSeries(s), w) ==
            Done(PlainSamples(c, DecodedSamples(s.samples), PrometheusName(s.labels), w))
  {
    hide *;
    var name := PrometheusName(s.labels);
    FastSeriesIs(c, s, w);
    FromOffset(s);
    if s.samples == [] {
      LabelsAreSkipped(c, s.labels, name, w);
      NoSamples(c, name, w);
    } else {
      SamplesAgree(c, s.samples, name, w);
    }
  }

  lemma NoSamples(c: Setup, name: bytes, w: WriterState)
    ensures PlainSamples(c, DecodedSamples([]), name, w) == w
  {
  }

  lemma FastRequestStep(c: Setup, body: bytes, rest: bytes, w: WriterState, w': WriterState)
    requires |body| < TWO63 && FastSeries(c, body, w) == Done(w')
    ensures FastRequest(c, Delimited(TAG_LABELS, body) + rest, w) == FastRequest(c, rest, w')
  {
    ReadDelimited(TAG_LABELS, body, rest);
    hide Delimited, FastSeries, Pb.Bytes, Flushed;
  }

  lemma PlainRequestStep(c: Setup, req: seq<Series>, w: WriterState)
    requires req != []
    ensures
      PlainRequest(c, Decoded(req), w) ==
      PlainRequest(c, Decoded(req[1..]),
          PlainSamples(c, DecodedSamples(req[0].samples), PrometheusName(req[0].labels), w))
  {
    var d := Decoded(req);
    assert d[1..] == Decoded(req[1..]);
    hide PlainSamples, PrometheusName, DecodedSamples, Flushed;
  }

  /** On every marshalled request whose label sets are plain and without repeated names, and whose
      names the rule for long names lets through, the fast walk leads to the state the plain form
      leads to: the same buffers, byte for byte, and the same counters. */
  lemma {:induction false} RequestsAgree(c: Setup, req: seq<Series>, w: WriterState)
    requires |MarshalRequest(req)| < TWO63
    requires forall s | s in req ::
               OneValueEach(s.labels) && Plain(s.labels) && ShortEnough(c, PrometheusName(s.labels))
    ensures FastRequest(c, MarshalRequest(req), w) == Done(PlainRequest(c, Decoded(req), w))
    decreases |req|
  {
    if req == [] {
      assert FastRequest(c, [], w) == Done(Flushed(w));
    } else {
      var body, rest := MarshalSeries(req[0]), MarshalRequest(req[1..]);
      assert MarshalRequest(req) == Delimited(TAG_LABELS, body) + rest;
      assert req[0] in req;
      hide *;
      DelimitedLength(TAG_LABELS, body);
      SeriesAgree(c, req[0], w);
      PlainRequestStep(c, req, w);
      var w' := PlainSamples(c, DecodedSamples(req[0].samples), PrometheusName(req[0].labels), w);
      FastRequestStep(c, body, rest, w, w');
      RequestsAgree(c, req[1..], w');
    }
  }

  /** The setup without the rule for long names. */
  function AnyLength(c: Setup): Setup
  {
    c.(rules := c.rules.(tooLong := 0))
  }

  lemma {:induction false} FastSamplesAnyLength(c: Setup, ts: bytes, name: bytes, w: WriterState)
    ensures FastSamples(c, ts, name, w) == FastSamples(AnyLength(c), ts, name, w)
    decreases |ts|
  {
    hide Pb.Bytes, Pb.Skip, ParseSample, Written;
    if ts != [] {
      if ts[0] != TAG_SAMPLES {
        if Pb.Skip(ts).Ok? { FastSamplesAnyLength(c, Pb.Skip(ts).rest, name, w); }
      } else if Pb.Bytes(ts[1..]).Ok? && ParseSample(Pb.Bytes(ts[1..]).value, 0, 0).SampleOk? {
        var r := ParseSample(Pb.Bytes(ts[1..]).value, 0, 0);
        FastSamplesAnyLength(c, Pb.Bytes(ts[1..]).rest, name, EmitSample(c, name, 0, r.value, r.timestamp, w));
      }
    }
  }

  /** On any input, well-formed or not, the rule for long names has no effect on the fast form. */
  lemma {:induction false} FastIgnoresLength(c: Setup, b: bytes, w: WriterState)
    ensures FastRequest(c, b, w) == FastRequest(AnyLength(c), b, w)
    decreases |b|
  {
    hide Pb.Bytes, Pb.Skip, ParseSeries, FastSamples, Flushed, TaggedName;
    if b != [] {
      if b[0] != TAG_LABELS {
        if Pb.Skip(b).Ok? { FastIgnoresLength(c, Pb.Skip(b).rest, w); }
      } else if Pb.Bytes(b[1..]).Ok? {
        var ts := Pb.Bytes(b[1..]).value;
        if ParseSeries(ts).SeriesOk? {
          FastSamplesAnyLength(c, ts[ParseSeries(ts).offset..], TaggedName(ParseSeries(ts).metric), w);
          if FastSeries(c, ts, w).Done? { FastIgnoresLength(c, Pb.Bytes(b[1..]).rest, FastSeries(c, ts, w).state); }
        }
      }
    }
  }

  /** On every marshalled request whose label sets are plain and give no name two values, the fast walk
      leads to the state the plain form leads to with the rule for long names switched off. */
  lemma RequestsAgreeAnyLength(c: Setup, req: seq<Series>, w: WriterState)
    requires |MarshalRequest(req)| < TWO63
    requires forall s | s in req :: OneValueEach(s.labels) && Plain(s.labels)
    ensures FastRequest(c, MarshalRequest(req), w) == Done(PlainRequest(AnyLength(c), Decoded(req), w))
  {
    FastIgnoresLength(c, MarshalRequest(req), w);
    assert forall s | s in req :: ShortEnough(AnyLength(c), PrometheusName(s.labels));
    hide FastRequest, PlainRequest, Decoded, MarshalRequest, OneValueEach, Plain, ShortEnough;
    RequestsAgree(AnyLength(c), req, w);
  }

  /** The series `{__name__="n", b="1", b="2", a="3"}`, and its labels as the exchange sort leaves
      them. */
  const REPEATED: seq<Tag> := [Tag(NAME_LABEL, [110]), Tag([98], [49]), Tag([98], [50]), Tag([97], [51])]
  const EXCHANGED: seq<Tag> := [Tag(NAME_LABEL, [110]), Tag([97], [51]), Tag([98], [50]), Tag([98], [49])]

  lemma RepeatedExchanged()
    ensures ExchangeSort(REPEATED, 1, 4) == EXCHANGED
  {
    assert !Less([98], [98]) && Less([97], [98]);
    assert ExchangeRow(EXCHANGED, 1, 4, 4) == EXCHANGED;
    assert Swap(REPEATED, 1, 3) == EXCHANGED;
    assert ExchangeRow(REPEATED, 1, 3, 4) == EXCHANGED;
    assert ExchangeRow(REPEATED, 1, 2, 4) == EXCHANGED;
    assert ExchangeRow(EXCHANGED, 2, 3, 4) == EXCHANGED;
    assert ExchangeSort(EXCHANGED, 2, 4) == EXCHANGED;
  }

  lemma RepeatedSorted()
    ensures StableSort(REPEATED[1..]) == [REPEATED[3], REPEATED[1], REPEATED[2]]
  {
    var a, b, c := REPEATED[3], REPEATED[1], REPEATED[2];
    assert !Less([98], [98]) && Less([97], [98]) && !Less([98], [97]);
    assert REPEATED[1..] == [b, c, a] && [b, c, a][1..] == [c, a] && [c, a][1..] == [a] && [a, c][1..] == [c];
    assert StableSort([a]) == [a];
    assert Insert(c, []) == [c] && Insert(c, [a]) == [a] + Insert(c, []);
    assert Insert(c, [a]) == [a, c];
    assert Insert(b, [c]) == [b] + [c] && Insert(b, [a, c]) == [a] + Insert(b, [c]);
    assert Insert(b, [a, c]) == [a, b, c];
    assert StableSort([c, a]) == [a, c];
  }

  lemma RepeatedIsPlain()
    ensures Plain(REPEATED) && NameFirst(REPEATED) == REPEATED
  {
  }

  /** A label name with two values is enough for the forms to differ: the exchange sort is not
      stable. */
  lemma RepeatedNamesDiffer()
    ensures Plain(REPEATED) && FastMetric(REPEATED) != Some(PrometheusName(REPEATED))
  {
    RepeatedIsPlain();
    RepeatedExchanged();
    RepeatedSorted();
    PlainNamesAgreeIfSorted(REPEATED);
    hide ExchangeSort, StableSort, FastMetric, PrometheusName, NameFirst, Plain;
    assert EXCHANGED[1..][1] == REPEATED[2] && [REPEATED[3], REPEATED[1], REPEATED[2]][1] == REPEATED[1];
  }
}

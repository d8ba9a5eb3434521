/** What a remote-write request stores: its samples, told apart from the code that stores them. */
module PrometheusStores {
  import opened ByteStrings
  import opened Varint
  import opened Escape
  import opened TaggedNames
  import opened TagSort
  import opened RowBinary
  import opened WriteBuffers
  import opened RowWriter
  import opened Pb
  import opened Prompb
  import opened Prometheus
  import opened PrometheusAgreement

  /** Milliseconds to whole seconds, toward zero. */
  predicate TruncatedSeconds(t: int, q: int)
  {
    if t >= 0 then 1000 * q <= t < 1000 * q + 1000 else 1000 * q - 1000 < t <= 1000 * q
  }

  /** The stored timestamp: those seconds, in 32 bits. */
  ghost predicate IsStored(t: int64, x: uint32)
  {
    exists q :: TruncatedSeconds(t, q) && (q - x) % 0x1_0000_0000 == 0
  }

  lemma StoredIsUnique(t: int64, x: uint32, y: uint32)
    requires IsStored(t, x) && IsStored(t, y)
    ensures x == y
  {
    var a :| TruncatedSeconds(t, a) && (a - x) % 0x1_0000_0000 == 0;
    var b :| TruncatedSeconds(t, b) && (b - y) % 0x1_0000_0000 == 0;
    assert a == b;
    SameRemainder(a, x, y);
  }

  lemma SameRemainder(a: int, x: uint32, y: uint32)
    requires (a - x) % 0x1_0000_0000 == 0 && (a - y) % 0x1_0000_0000 == 0
    ensures x == y
  {
    var k, l := (a - x) / 0x1_0000_0000, (a - y) / 0x1_0000_0000;
    assert a - x == k * 0x1_0000_0000 && a - y == l * 0x1_0000_0000;
  }

  /** For the time from 1970 to 2106, in milliseconds, it is the second that the time lies in. */
  lemma StoredSecond(t: int64, x: uint32)
    requires 0 <= t < 1000 * 0x1_0000_0000
    ensures IsStored(t, x) <==> 1000 * x <= t < 1000 * x + 1000
  {
    if 1000 * x <= t < 1000 * x + 1000 {
      assert TruncatedSeconds(t, x);
    }
    if IsStored(t, x) {
      var y := t / 1000;
      assert TruncatedSeconds(t, y);
      StoredIsUnique(t, x, y);
    }
  }

  /** A NaN has every bit of the exponent set and some bit of the fraction. */
  predicate NotANumber(value: uint64)
  {
    (value / 0x10_0000_0000_0000) % 0x800 == 0x7FF && value % 0x10_0000_0000_0000 != 0
  }

  /** The drop rules: too far ahead, too long ago, or too long a name. Sums are in 32 bits. */
  predicate Refused(rules: DropRules, now: uint32, nameLen: nat, x: uint32)
  {
    var ahead, until := now + rules.future, x + rules.past;
    || (rules.future > 0 && x > if ahead < 0x1_0000_0000 then ahead else ahead - 0x1_0000_0000)
    || (rules.past > 0 && now > if until < 0x1_0000_0000 then until else until - 0x1_0000_0000)
    || (0 < rules.tooLong < nameLen)
  }

  /** A sample that is stored. */
  ghost predicate Passes(c: Setup, nameLen: nat, s: Sample)
  {
    !NotANumber(s.value) && exists x :: IsStored(s.timestamp, x) && !Refused(c.rules, c.now, nameLen, x)
  }

  /** How it is stored. */
  ghost predicate StoredAs(c: Setup, name: bytes, s: Sample, p: Point)
  {
    p.name == name && p.value == s.value && p.version == c.now && IsStored(s.timestamp, p.timestamp)
  }

  ghost function PassingSamples(c: Setup, name: bytes, samples: seq<Sample>): seq<(bytes, Sample)>
  {
    if samples == [] then []
    else (if Passes(c, |name|, samples[0]) then [(name, samples[0])] else []) + PassingSamples(c, name, samples[1..])
  }

  /** All samples of a request that pass, in order, each with the name of its series. */
  ghost function Passing(c: Setup, req: seq<Series>): seq<(bytes, Sample)>
  {
    if req == [] then []
    else PassingSamples(c, PrometheusName(req[0].labels), req[0].samples) + Passing(c, req[1..])
  }

  ghost predicate AllStoredAs(c: Setup, named: seq<(bytes, Sample)>, points: seq<Point>)
  {
    |points| == |named| && forall i | 0 <= i < |named| :: StoredAs(c, named[i].0, named[i].1, points[i])
  }

  lemma SecondsStored(t: int64)
    ensures IsStored(t, Timestamp32(t))
  {
    assert TruncatedSeconds(t, Seconds(t));
    Remainder(Seconds(t));
  }

  lemma Remainder(q: int)
    ensures (q - q % TWO32) % 0x1_0000_0000 == 0
  {
    assert q == q / TWO32 * TWO32 + q % TWO32;
  }

  lemma NaNBits(value: uint64)
    ensures IsNaN(value) <==> NotANumber(value)
  {
    var e, f := value / 0x10_0000_0000_0000, value % 0x10_0000_0000_0000;
    assert value == e * 0x10_0000_0000_0000 + f;
    assert value % TWO63 == (e % 0x800) * 0x10_0000_0000_0000 + f;
  }

  lemma DropsAreRefused(rules: DropRules, now: uint32, nameLen: nat, x: uint32)
    ensures IsDrop(rules, nameLen, now, x) <==> Refused(rules, now, nameLen, x)
  {
  }

  lemma EmitsIfPasses(c: Setup, name: bytes, s: Sample, w: WriterState)
    ensures
      var w', p := EmitSample(c, name, |name|, s.value, s.timestamp, w),
          Point(name, s.value, Timestamp32(s.timestamp), c.now);
      && StoredAs(c, name, s, p)
      && w' == if Passes(c, |name|, s) then Written(w, p, c.toDays) else w
  {
    var x := Timestamp32(s.timestamp);
    SecondsStored(s.timestamp);
    NaNBits(s.value);
    DropsAreRefused(c.rules, c.now, |name|, x);
    if y :| IsStored(s.timestamp, y) && !Refused(c.rules, c.now, |name|, y) {
      StoredIsUnique(s.timestamp, x, y);
    }
    hide Written, IsStored, Refused, NotANumber, IsDrop, IsNaN;
  }

  lemma {:induction false} SamplesStore(c: Setup, name: bytes, samples: seq<Sample>, w: WriterState)
      returns (points: seq<Point>)
    ensures AllStoredAs(c, PassingSamples(c, name, samples), points)
    ensures PlainSamples(c, samples, name, w) == WrittenAll(w, points, c.toDays)
    decreases |samples|
  {
    hide Written, StoredAs, EmitSample, Passes;
    if samples == [] {
      points := [];
    } else {
      var s := samples[0];
      var w' := EmitSample(c, name, |name|, s.value, s.timestamp, w);
      EmitsIfPasses(c, name, s, w);
      var rest := SamplesStore(c, name, samples[1..], w');
      points := (if Passes(c, |name|, s) then [Point(name, s.value, Timestamp32(s.timestamp), c.now)] else []) + rest;
      if Passes(c, |name|, s) {
        assert points[1..] == rest;
      } else {
        assert points == rest;
      }
    }
  }

  lemma {:induction false} WrittenAllAppend(w: WriterState, a: seq<Point>, b: seq<Point>, toDays: ToDays)
    ensures WrittenAll(w, a + b, toDays) == WrittenAll(WrittenAll(w, a, toDays), b, toDays)
    decreases |a|
  {
    hide Written;
    if a == [] {
      EmptyFirst(b);
    } else {
      assert (a + b)[1..] == a[1..] + b;
      WrittenAllAppend(Written(w, a[0], toDays), a[1..], b, toDays);
    }
  }

  lemma {:induction false} RequestWrites(c: Setup, req: seq<Series>, w: WriterState) returns (points: seq<Point>)
    ensures AllStoredAs(c, Passing(c, req), points)
    ensures PlainRequest(c, req, w) == Flushed(WrittenAll(w, points, c.toDays))
    decreases |req|
  {
    hide Flushed, StoredAs, PlainSamples, PassingSamples, PrometheusName;
    if req == [] {
      points := [];
    } else {
      var name := PrometheusName(req[0].labels);
      var first := SamplesStore(c, name, req[0].samples, w);
      var rest := RequestWrites(c, req[1..], WrittenAll(w, first, c.toDays));
      WrittenAllAppend(w, first, rest, c.toDays);
      points := first + rest;
    }
  }

  /** The buffers sent, read one after the other, hold these points, whole and in order; only names
      too long for a buffer may be missing. */
  ghost predicate BuffersHold(sent: seq<bytes>, points: seq<Point>, toDays: ToDays)
  {
    exists groups ::
      && |groups| == |sent|
      && (forall i | 0 <= i < |groups| :: sent[i] == EncodeAll(groups[i], toDays) && 0 < |sent[i]| <= BUFFER_SIZE)
      && ((forall p | p in points :: |p.name| <= MAX_NAME) ==> Flatten(groups) == points)
  }

  /** The buffers hold one point for each sample that passes, in order: with its series' name, its bits,
      the time of the request as version, and its time in seconds. */
  ghost predicate RequestStored(c: Setup, req: seq<Series>, sent: seq<bytes>)
  {
    exists points :: AllStoredAs(c, Passing(c, req), points) && BuffersHold(sent, points, c.toDays)
  }

  lemma PointsStored(c: Setup, points: seq<Point>)
    ensures BuffersHold(Flushed(WrittenAll(EMPTY, points, c.toDays)).sent, points, c.toDays)
  {
    var groups := BuffersHoldAccepted(points, c.toDays);
    AcceptedNames(EMPTY, points, c.toDays);
    hide WrittenAll, Accepted, EncodeAll, Flatten;
  }

  /** What a request leads to, in any buffers. */
  lemma {:induction false} RequestStores(c: Setup, req: seq<Series>)
    ensures RequestStored(c, req, PlainRequest(c, req, EMPTY).sent)
  {
    var points := RequestWrites(c, req, EMPTY);
    PointsStored(c, points);
    hide PlainRequest, AllStoredAs, Passing, WrittenAll, BuffersHold;
  }

  /** A request whose series the fast form treats as the plain one does. */
  ghost predicate PlainSeries(req: seq<Series>)
  {
    forall s | s in req :: OneValueEach(s.labels) && Plain(s.labels)
  }

  lemma FastRequestStores(c: Setup, req: seq<Series>)
    requires |MarshalRequest(req)| < TWO63 && PlainSeries(req)
    ensures
      var o := FastRequest(c, MarshalRequest(req), EMPTY);
      o.Done? && RequestStored(AnyLength(c), Decoded(req), o.state.sent)
  {
    hide MarshalRequest, FastRequest, RequestStored, PlainRequest;
    RequestsAgreeAnyLength(c, req, EMPTY);
    RequestStores(AnyLength(c), Decoded(req));
  }

  lemma MarshalledStores(c: Setup, b: bytes)
    ensures forall req | b == MarshalRequest(req) && |b| < TWO63 && PlainSeries(req) ::
              FastRequest(c, b, EMPTY).Done?
                  && RequestStored(AnyLength(c), Decoded(req), FastRequest(c, b, EMPTY).state.sent)
  {
    hide RequestStored, MarshalRequest, FastRequest, PlainSeries;
    forall req | b == MarshalRequest(req) && |b| < TWO63 && PlainSeries(req)
      ensures FastRequest(c, b, EMPTY).Done?
          && RequestStored(AnyLength(c), Decoded(req), FastRequest(c, b, EMPTY).state.sent)
    {
      FastRequestStores(c, req);
    }
  }

  /** With the drop rules off a sample passes unless it is a NaN. */
  lemma NoRules(c: Setup, nameLen: nat, s: Sample)
    requires c.rules == DropRules(0, 0, 0)
    ensures Passes(c, nameLen, s) <==> !NotANumber(s.value)
  {
    SecondsStored(s.timestamp);
    hide IsStored;
  }

  /* ---- the name of a series ---- */

  /** What the tagged uploader makes of a series: its name, with spaces for `+`, and its other labels,
      sorted, and in their order where they share a key. */
  lemma PrometheusThenTagged(labels: seq<Tag>) returns (others: seq<Tag>)
    requires NameIndex(labels, 0) >= 0 && labels[NameIndex(labels, 0)].value != []
    ensures
      var l := labels[NameIndex(labels, 0)];
      var plain := SpaceForPlus(l.value);
      && l.key == NAME_LABEL && Sorted(others) && multiset(labels) == multiset(others) + multiset{l}
      && ParseName(PrometheusName(labels)) == Parsed(plain, NAME_LABEL + [EQUALS] + plain, PlainTags(others))
  {
    var l := NameFirst(labels);
    others := StableSort(l[1..]);
    StableSortSorts(l[1..]);
    NameFirstMembers(labels);
    TailMembers(l);
    ParsePrintedMetric(l[0].value, others);
    assert PrometheusName(labels) == PrintMetric(l[0].value, others);
    assert l[0] in multiset(l);
    hide StableSort, PrintMetric, ParseName, PrometheusName, Sorted, SpaceForPlus;
  }

  lemma NameFirstMembers(labels: seq<Tag>)
    requires NameIndex(labels, 0) >= 0
    ensures multiset(NameFirst(labels)) == multiset(labels) && NameFirst(labels)[0] == labels[NameIndex(labels, 0)]
  {
    SwapMembers(labels, 0, NameIndex(labels, 0));
  }

  /* ---- requests that are cut or malformed ---- */

  /** Whatever the bytes, the fast form only ever hands points to the writer, each with the time of the
      request as version, and flushes it exactly when it got through. */
  lemma {:induction false} FastWrites(c: Setup, b: bytes, w: WriterState) returns (points: seq<Point>)
    ensures forall p | p in points :: p.version == c.now
    ensures
      var o := FastRequest(c, b, w);
      o.state == if o.Done? then Flushed(WrittenAll(w, points, c.toDays)) else WrittenAll(w, points, c.toDays)
    decreases |b|
  {
    hide Pb.Bytes, Pb.Skip, ParseSeries, FastSamples, Flushed, TaggedName, Written;
    points := [];
    if b != [] {
      if b[0] != TAG_LABELS {
        if Pb.Skip(b).Ok? { points := FastWrites(c, Pb.Skip(b).rest, w); }
      } else if Pb.Bytes(b[1..]).Ok? && ParseSeries(Pb.Bytes(b[1..]).value).SeriesOk? {
        var ts := Pb.Bytes(b[1..]).value;
        var s := ParseSeries(ts);
        points := FastSamplesWrite(c, ts[s.offset..], TaggedName(s.metric), w);
        var o := FastSeries(c, ts, w);
        if o.Done? {
          var rest := FastWrites(c, Pb.Bytes(b[1..]).rest, o.state);
          WrittenAllAppend(w, points, rest, c.toDays);
          points := points + rest;
        }
      }
    }
  }

  lemma {:induction false} FastSamplesWrite(c: Setup, ts: bytes, name: bytes, w: WriterState)
      returns (points: seq<Point>)
    ensures forall p | p in points :: p.version == c.now && p.name == name
    ensures FastSamples(c, ts, name, w).state == WrittenAll(w, points, c.toDays)
    decreases |ts|
  {
    hide Pb.Bytes, Pb.Skip, ParseSample, Written;
    points := [];
    if ts != [] {
      if ts[0] != TAG_SAMPLES {
        if Pb.Skip(ts).Ok? { points := FastSamplesWrite(c, Pb.Skip(ts).rest, name, w); }
      } else if Pb.Bytes(ts[1..]).Ok? && ParseSample(Pb.Bytes(ts[1..]).value, 0, 0).SampleOk? {
        var r := ParseSample(Pb.Bytes(ts[1..]).value, 0, 0);
        var w' := EmitSample(c, name, 0, r.value, r.timestamp, w);
        var rest := FastSamplesWrite(c, Pb.Bytes(ts[1..]).rest, name, w');
        if w' != w {
          points := [Point(name, r.value, Timestamp32(r.timestamp), c.now)] + rest;
          assert points[1..] == rest;
        } else {
          points := rest;
        }
      }
    }
  }

  lemma CutVarint(n: nat, j: nat)
    requires j < |PutUvarint(n)|
    ensures VarintEnd(PutUvarint(n)[..j]) == None
  {
    VarintRoundTrip(n, []);
    var v := PutUvarint(n);
    assert v + [] == v && VarintEnd(v) == Some(|v|);
    assert forall i | 0 <= i < j :: v[..j][i] == v[i] >= 128;
  }

  /** A field that is not all there is reported as cut. */
  lemma CutField(body: bytes, k: nat)
    requires |body| < TWO63 && k < |PutUvarint(|body|) + body|
    ensures Pb.Bytes((PutUvarint(|body|) + body)[..k]) == Err(Truncated)
  {
    var n, v := |body|, PutUvarint(|body|);
    var p := (v + body)[..k];
    if k < |v| {
      assert p == v[..k];
      CutVarint(n, k);
    } else {
      assert p == v + body[..k - |v|];
      Uint64OfVarint(n, body[..k - |v|]);
    }
    hide PutUvarint, VarintEnd, VarintValue;
  }

  lemma CutSeries(c: Setup, body: bytes, k: nat, w: WriterState)
    requires |body| < TWO63 && 0 < k < |Delimited(TAG_LABELS, body)|
    ensures FastRequest(c, Delimited(TAG_LABELS, body)[..k], w) == Failed(w, Malformed(Truncated))
  {
    var d := Delimited(TAG_LABELS, body);
    CutField(body, k - 1);
    assert d[..k][0] == TAG_LABELS && d[..k][1..] == (PutUvarint(|body|) + body)[..k - 1];
    hide PutUvarint, Pb.Bytes, FastSeries, Flushed;
  }

  /** One series at the head. */
  lemma SeriesAtHead(c: Setup, s: Series, more: bytes, w: WriterState) returns (points: seq<Point>)
    requires |MarshalSeries(s)| < TWO63 && OneValueEach(s.labels) && Plain(s.labels)
    ensures AllStoredAs(AnyLength(c),
        PassingSamples(AnyLength(c), PrometheusName(s.labels), DecodedSamples(s.samples)), points)
    ensures FastRequest(c, Delimited(TAG_LABELS, MarshalSeries(s)) + more, w) ==
            FastRequest(c, more, WrittenAll(w, points, c.toDays))
  {
    var d, name, samples := AnyLength(c), PrometheusName(s.labels), DecodedSamples(s.samples);
    assert ShortEnough(d, name) && d.toDays == c.toDays;
    hide *;
    points := SamplesStore(d, name, samples, w);
    SeriesAgree(d, s, w);
    FastSeriesAnyLength(c, MarshalSeries(s), w);
    FastRequestStep(c, MarshalSeries(s), more, w, WrittenAll(w, points, c.toDays));
  }

  lemma PassingFirst(c: Setup, req: seq<Series>)
    requires req != []
    ensures Passing(c, Decoded(req)) ==
            PassingSamples(c, PrometheusName(req[0].labels), DecodedSamples(req[0].samples)) +
                Passing(c, Decoded(req[1..]))
    ensures MarshalRequest(req) == Delimited(TAG_LABELS, MarshalSeries(req[0])) + MarshalRequest(req[1..])
  {
    hide PassingSamples, PrometheusName, DecodedSamples, Delimited, MarshalSeries;
    assert Decoded(req)[1..] == Decoded(req[1..]);
  }

  /** The series before are stored as they are, whatever follows. */
  lemma {:induction false} SeriesBefore(c: Setup, req: seq<Series>, more: bytes, w: WriterState)
      returns (points: seq<Point>)
    requires |MarshalRequest(req)| < TWO63 && PlainSeries(req)
    ensures AllStoredAs(AnyLength(c), Passing(AnyLength(c), Decoded(req)), points)
    ensures FastRequest(c, MarshalRequest(req) + more, w) == FastRequest(c, more, WrittenAll(w, points, c.toDays))
    decreases |req|
  {
    if req == [] {
      EmptyFirst(more);
      points := [];
    } else {
      var d, first, rest := AnyLength(c), Delimited(TAG_LABELS, MarshalSeries(req[0])), MarshalRequest(req[1..]);
      assert req[0] in req && PlainSeries(req[1..]);
      DelimitedLength(TAG_LABELS, MarshalSeries(req[0]));
      PassingFirst(c, req);
      PassingFirst(d, req);
      Assoc(first, rest, more);
      hide *;
      var own := SeriesAtHead(c, req[0], rest + more, w);
      var others := SeriesBefore(c, req[1..], more, WrittenAll(w, own, c.toDays));
      WrittenAllAppend(w, own, others, c.toDays);
      points := own + others;
      StoredConcat(d, PassingSamples(d, PrometheusName(req[0].labels), DecodedSamples(req[0].samples)),
                   Passing(d, Decoded(req[1..])), own, others);
    }
  }

  lemma StoredConcat(c: Setup, a: seq<(bytes, Sample)>, b: seq<(bytes, Sample)>, x: seq<Point>, y: seq<Point>)
    requires AllStoredAs(c, a, x) && AllStoredAs(c, b, y)
    ensures AllStoredAs(c, a + b, x + y)
  {
    hide StoredAs;
  }

  lemma FastSeriesAnyLength(c: Setup, ts: bytes, w: WriterState)
    ensures FastSeries(c, ts, w) == FastSeries(AnyLength(c), ts, w)
  {
    hide ParseSeries, FastSamples, TaggedName;
    if ParseSeries(ts).SeriesOk? {
      FastSamplesAnyLength(c, ts[ParseSeries(ts).offset..], TaggedName(ParseSeries(ts).metric), w);
    }
  }

  /** A request that is cut within a series: an error, the points of the series before handed to the
      writer, no point of the cut one, and no flush. */
  lemma CutRequest(c: Setup, req: seq<Series>, next: Series, k: nat) returns (points: seq<Point>)
    requires |MarshalRequest(req)| < TWO63 && PlainSeries(req) && |MarshalSeries(next)| < TWO63
    requires 0 < k < |Delimited(TAG_LABELS, MarshalSeries(next))|
    ensures AllStoredAs(AnyLength(c), Passing(AnyLength(c), Decoded(req)), points)
    ensures FastRequest(c, MarshalRequest(req) + Delimited(TAG_LABELS, MarshalSeries(next))[..k], EMPTY) ==
            Failed(WrittenAll(EMPTY, points, c.toDays), Malformed(Truncated))
  {
    hide *;
    points := SeriesBefore(c, req, Delimited(TAG_LABELS, MarshalSeries(next))[..k], EMPTY);
    CutSeries(c, MarshalSeries(next), k, WrittenAll(EMPTY, points, c.toDays));
  }
}

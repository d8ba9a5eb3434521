/** Reading a remote-write request (receiver/prometheus.go, receiver/prometheus_metric.go,
    helper/tags/prometheus.go): once by walking the protobuf bytes with reused buffers, and once,
    plainly, from the decoded messages. */
module Prometheus {
  import opened ByteStrings
  import opened Varint
  import opened Escape
  import opened TaggedNames
  import opened TagSort
  import opened RowBinary
  import opened WriteBuffers
  import opened RowWriter
  import opened Pb
  import opened Prompb

  /** A decoding error, or a series without a name. */
  datatype Failure = Malformed(error: Error) | NameNotFound

  /* ---- the fast form, as functions ---- */

  datatype LabelResult = LabelOk(key: Option<bytes>, value: Option<bytes>) | LabelErr(error: Error)

  /** The fields of one label; a field that comes twice counts the last time. */
  function ParseLabel(field: bytes, key: Option<bytes>, value: Option<bytes>): LabelResult
    decreases |field|
  {
    if field == [] then LabelOk(key, value)
    else if field[0] == TAG_NAME then
      match Bytes(field[1..]) { case Err(e) => LabelErr(e) case Ok(v, rest) => ParseLabel(rest, Some(v), value) }
    else if field[0] == TAG_VALUE then
      match Bytes(field[1..]) { case Err(e) => LabelErr(e) case Ok(v, rest) => ParseLabel(rest, key, Some(v)) }
    else
      match Skip(field) { case Err(e) => LabelErr(e) case Ok(_, rest) => ParseLabel(rest, key, value) }
  }

  /** Labels without a key or without a value are dropped. */
  function Kept(r: LabelResult): seq<Tag>
  {
    if r.LabelOk? && r.key.Some? && r.value.Some? then [Tag(r.key.value, r.value.value)] else []
  }

  datatype Walk = Walked(labels: seq<Tag>, offset: nat) | WalkErr(error: Error)

  /** The fields of one series of `total` bytes, from `ts` on: its labels, and where its samples
      start. An offset of 0 means that none was recorded yet. */
  function WalkSeries(total: nat, ts: bytes, labels: seq<Tag>, offset: nat): (r: Walk)
    requires |ts| <= total && offset <= total
    ensures r.Walked? ==> r.offset <= total
    decreases |ts|
  {
    if ts == [] then Walked(labels, offset)
    else if ts[0] == TAG_LABELS then
      match Bytes(ts[1..])
      case Err(e) => WalkErr(e)
      case Ok(field, rest) =>
        var l := ParseLabel(field, None, None);
        if l.LabelErr? then WalkErr(l.error) else WalkSeries(total, rest, labels + Kept(l), offset)
    else
      var offset' := if ts[0] == TAG_SAMPLES && offset == 0 then total - |ts| else offset;
      match Skip(ts)
      case Err(e) => WalkErr(e)
      case Ok(_, rest) => WalkSeries(total, rest, labels, offset')
  }

  /** The first label called `__name__`, or -1. */
  function NameIndex(labels: seq<Tag>, i: nat): (r: int)
    requires i <= |labels|
    ensures r == -1 || (i <= r < |labels| && labels[r].key == NAME_LABEL)
    decreases |labels| - i
  {
    if i == |labels| then -1 else if labels[i].key == NAME_LABEL then i else NameIndex(labels, i + 1)
  }

  function NameFirst(labels: seq<Tag>): (r: seq<Tag>)
    ensures |r| == |labels|
  {
    var i := NameIndex(labels, 0);
    if i > 0 then Swap(labels, 0, i) else labels
  }

  /** The escaped keys and values from label `i` on. */
  function EscapedFrom(labels: seq<Tag>, i: nat): seq<bytes>
    decreases |labels| - i
  {
    if i >= |labels| then []
    else [Escaped(labels[i].key, EncodeQuery), Escaped(labels[i].value, EncodeQuery)] + EscapedFrom(labels, i + 1)
  }

  /** `[name, key, value, ...]`: the name as it is, the other labels sorted by key and escaped. */
  function MetricOf(labels: seq<Tag>): (r: seq<bytes>)
    requires labels != []
    ensures r != []
  {
    var sorted := ExchangeSort(NameFirst(labels), 1, |labels|);
    [sorted[0].value] + EscapedFrom(sorted, 1)
  }

  datatype SeriesResult = SeriesOk(metric: seq<bytes>, offset: nat) | SeriesErr(failure: Failure)

  function ParseSeries(body: bytes): (r: SeriesResult)
    ensures r.SeriesOk? ==> r.metric != [] && r.offset <= |body|
  {
    match WalkSeries(|body|, body, [], 0)
    case WalkErr(e) => SeriesErr(Malformed(e))
    case Walked(labels, offset) =>
      if NameIndex(labels, 0) < 0 then SeriesErr(NameNotFound) else SeriesOk(MetricOf(labels), offset)
  }

  datatype SampleResult = SampleOk(value: uint64, timestamp: int64) | SampleErr(error: Error)

  function ParseSample(sample: bytes, value: uint64, timestamp: int64): SampleResult
    decreases |sample|
  {
    if sample == [] then SampleOk(value, timestamp)
    else if sample[0] == TAG_SAMPLE_VALUE then
      match Double(sample[1..]) { case Err(e) => SampleErr(e) case Ok(v, rest) => ParseSample(rest, v, timestamp) }
    else if sample[0] == TAG_TIMESTAMP then
      match Int64(sample[1..]) { case Err(e) => SampleErr(e) case Ok(t, rest) => ParseSample(rest, value, t) }
    else
      match Skip(sample) { case Err(e) => SampleErr(e) case Ok(_, rest) => ParseSample(rest, value, timestamp) }
  }

  predicate IsNaN(value: uint64)
  {
    value % TWO63 > 0x7FF0_0000_0000_0000
  }

  /** Go's division truncates toward zero. */
  function Seconds(timestamp: int64): int
  {
    var t: int := timestamp;
    if t < 0 then -((-t) / 1000) else t / 1000
  }

  /** `uint32(timestamp / 1000)`. */
  function Timestamp32(timestamp: int64): uint32
  {
    Seconds(timestamp) % TWO32
  }

  /** The receiver's drop rules; 0 switches a rule off. */
  datatype DropRules = DropRules(future: uint32, past: uint32, tooLong: uint16)

  /** `isDrop`, with `uint32` sums. */
  predicate IsDropTime(rules: DropRules, now: uint32, timestamp: uint32)
  {
    || (rules.future != 0 && timestamp > (now + rules.future) % TWO32)
    || (rules.past != 0 && now > (timestamp + rules.past) % TWO32)
  }

  predicate IsDrop(rules: DropRules, nameLen: nat, now: uint32, timestamp: uint32)
  {
    IsDropTime(rules, now, timestamp) || (rules.tooLong != 0 && nameLen > rules.tooLong)
  }

  /** What the receiver is set up with, and the time the request came. */
  datatype Setup = Setup(rules: DropRules, now: uint32, toDays: ToDays)

  /** One sample of the metric `name`; `checked` is the length the drop rules see. */
  function EmitSample(c: Setup, name: bytes, checked: nat, value: uint64, timestamp: int64, w: WriterState): WriterState
  {
    if IsNaN(value) || IsDrop(c.rules, checked, c.now, Timestamp32(timestamp)) then w
    else Written(w, Point(name, value, Timestamp32(timestamp), c.now), c.toDays)
  }

  datatype Outcome = Done(state: WriterState) | Failed(state: WriterState, failure: Failure)

  /** The samples of a series. The drop rules get an empty name here. */
  function FastSamples(c: Setup, ts: bytes, name: bytes, w: WriterState): Outcome
    decreases |ts|
  {
    if ts == [] then Done(w)
    else if ts[0] != TAG_SAMPLES then
      match Skip(ts) { case Err(e) => Failed(w, Malformed(e)) case Ok(_, rest) => FastSamples(c, rest, name, w) }
    else
      match Bytes(ts[1..])
      case Err(e) => Failed(w, Malformed(e))
      case Ok(sample, rest) =>
        match ParseSample(sample, 0, 0)
        case SampleErr(e) => Failed(w, Malformed(e))
        case SampleOk(value, timestamp) => FastSamples(c, rest, name, EmitSample(c, name, 0, value, timestamp, w))
  }

  function FastSeries(c: Setup, ts: bytes, w: WriterState): Outcome
  {
    match ParseSeries(ts)
    case SeriesErr(f) => Failed(w, f)
    case SeriesOk(metric, offset) =>
      FastSamples(c, ts[offset..], TaggedName(metric), w)
  }

  function FastRequest(c: Setup, b: bytes, w: WriterState): Outcome
    decreases |b|
  {
    if b == [] then Done(Flushed(w))
    else if b[0] != TAG_LABELS then
      match Skip(b) { case Err(e) => Failed(w, Malformed(e)) case Ok(_, rest) => FastRequest(c, rest, w) }
    else
      match Bytes(b[1..])
      case Err(e) => Failed(w, Malformed(e))
      case Ok(ts, rest) =>
        match FastSeries(c, ts, w)
        case Failed(w', f) => Failed(w', f)
        case Done(w') => FastRequest(c, rest, w')
  }

  /* ---- the plain form, as functions ---- */

  /** `tags.Prometheus`: without a name the first label, after sorting, is not printed. */
  function PrometheusName(labels: seq<Tag>): bytes
  {
    var l := NameFirst(labels);
    if NameIndex(labels, 0) < 0 then
      var sorted := StableSort(l);
      [QUESTION] + PrintTags(if sorted == [] then [] else sorted[1..])
    else
      Escaped(l[0].value, EncodePath) + [QUESTION] + PrintTags(StableSort(l[1..]))
  }

  function PlainSamples(c: Setup, samples: seq<Sample>, name: bytes, w: WriterState): WriterState
    decreases |samples|
  {
    if samples == [] then w
    else PlainSamples(c, samples[1..], name, EmitSample(c, name, |name|, samples[0].value, samples[0].timestamp, w))
  }

  function PlainRequest(c: Setup, req: seq<Series>, w: WriterState): WriterState
    decreases |req|
  {
    if req == [] then Flushed(w)
    else PlainRequest(c, req[1..], PlainSamples(c, req[0].samples, PrometheusName(req[0].labels), w))
  }

  /** Unmarshalling a marshalled message gives it back, but for the sign of a zero. */
  function DecodedSample(s: Sample): Sample
  {
    if IsZero(s.value) then s.(value := 0) else s
  }

  function DecodedSamples(samples: seq<Sample>): seq<Sample>
  {
    seq(|samples|, i requires 0 <= i < |samples| => DecodedSample(samples[i]))
  }

  function Decoded(req: seq<Series>): seq<Series>
  {
    seq(|req|, i requires 0 <= i < |req| => Series(req[i].labels, DecodedSamples(req[i].samples)))
  }
}

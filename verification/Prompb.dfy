/** The remote-write messages and their generated encoder (helper/prompb). */
module Prompb {
  import opened ByteStrings
  import opened Varint
  import opened TaggedNames
  import opened Pb

  /** The value as the bits of the float; a label is a tag. */
  datatype Sample = Sample(value: uint64, timestamp: int64)
  datatype Series = Series(labels: seq<Tag>, samples: seq<Sample>)

  const TAG_LABELS: byte := 0x0a
  const TAG_SAMPLES: byte := 0x12
  const TAG_NAME: byte := 0x0a
  const TAG_VALUE: byte := 0x12
  const TAG_SAMPLE_VALUE: byte := 0x09
  const TAG_TIMESTAMP: byte := 0x10

  /** Both zeros compare equal to 0 in Go. */
  predicate IsZero(value: uint64)
  {
    value == 0 || value == TWO63
  }

  function Delimited(tag: byte, body: bytes): bytes
  {
    [tag] + (PutUvarint(|body|) + body)
  }

  /** Empty strings and zeros are not written. */
  function MarshalLabel(l: Tag): bytes
  {
    (if l.key == [] then [] else Delimited(TAG_NAME, l.key)) +
    (if l.value == [] then [] else Delimited(TAG_VALUE, l.value))
  }

  function MarshalSample(s: Sample): bytes
  {
    (if IsZero(s.value) then [] else [TAG_SAMPLE_VALUE] + LittleEndian(s.value, 8)) +
    (if s.timestamp == 0 then [] else [TAG_TIMESTAMP] + PutUvarint(ToUint64(s.timestamp)))
  }

  /** The labels and then the samples. */
  function MarshalLabels(labels: seq<Tag>, rest: bytes): bytes
  {
    if labels == [] then rest
    else Delimited(TAG_LABELS, MarshalLabel(labels[0])) + MarshalLabels(labels[1..], rest)
  }

  function MarshalSamples(samples: seq<Sample>): bytes
  {
    if samples == [] then []
    else Delimited(TAG_SAMPLES, MarshalSample(samples[0])) + MarshalSamples(samples[1..])
  }

  function MarshalSeries(s: Series): bytes
  {
    MarshalLabels(s.labels, MarshalSamples(s.samples))
  }

  function MarshalRequest(req: seq<Series>): bytes
  {
    if req == [] then []
    else Delimited(TAG_LABELS, MarshalSeries(req[0])) + MarshalRequest(req[1..])
  }

  lemma Uint64OfVarint(n: uint64, rest: bytes)
    ensures Uint64(PutUvarint(n) + rest) == Ok(n, rest)
  {
    VarintRoundTrip(n, rest);
    hide PutUvarint, VarintValue, VarintEnd;
    assert (PutUvarint(n) + rest)[|PutUvarint(n)|..] == rest;
  }

  lemma BytesAfterLength(p: bytes, body: bytes, rest: bytes)
    requires |body| < TWO63 && Uint64(p) == Ok(|body|, body + rest)
    ensures Bytes(p) == Ok(body, rest)
  {
    hide Uint64;
    assert (body + rest)[..|body|] == body && (body + rest)[|body|..] == rest;
  }

  /** A length-delimited field is read back, whatever follows. */
  lemma BytesOfDelimited(body: bytes, rest: bytes)
    requires |body| < TWO63
    ensures Bytes(PutUvarint(|body|) + body + rest) == Ok(body, rest)
  {
    hide PutUvarint, Uint64, Bytes;
    Assoc(PutUvarint(|body|), body, rest);
    Uint64OfVarint(|body|, body + rest);
    BytesAfterLength(PutUvarint(|body|) + (body + rest), body, rest);
  }

  lemma ReadDelimited(tag: byte, body: bytes, rest: bytes)
    requires |body| < TWO63
    ensures
      var p := Delimited(tag, body) + rest;
      p != [] && p[0] == tag && Bytes(p[1..]) == Ok(body, rest)
  {
    var p := Delimited(tag, body) + rest;
    assert p[1..] == PutUvarint(|body|) + body + rest;
    BytesOfDelimited(body, rest);
  }

  lemma SkipDelimited(tag: byte, body: bytes, rest: bytes)
    requires |body| < TWO63 && tag < 128 && tag % 8 == 2
    ensures Skip(Delimited(tag, body) + rest) == Ok((), rest)
  {
    ReadDelimited(tag, body, rest);
    var p := Delimited(tag, body) + rest;
    assert VarintEnd(p) == Some(1);
  }

  lemma DelimitedLength(tag: byte, body: bytes)
    ensures |Delimited(tag, body)| > |body|
  {
  }
}

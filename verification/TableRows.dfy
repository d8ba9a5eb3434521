/** The rows of the tagged and index tables in RowBinary, and their decoding. */
module TableRows {
  import opened ByteStrings
  import opened Varint
  import opened RowBinary

  /** `(Date, Tag1, Path, Tags, Version)` */
  datatype TaggedRow = TaggedRow(days: uint16, tag: bytes, path: bytes, tags: seq<bytes>, version: uint32)

  /** `(Date, Level, Path, Version)` */
  datatype IndexRow = IndexRow(days: uint16, level: uint32, path: bytes, version: uint32)

  function Fields(tags: seq<bytes>): bytes
  {
    if tags == [] then [] else Field(tags[0]) + Fields(tags[1..])
  }

  function EncodeTagged(r: TaggedRow): bytes
  {
    LittleEndian(r.days, 2) +
    (Field(r.tag) + (Field(r.path) + (PutUvarint(|r.tags|) + (Fields(r.tags) + LittleEndian(r.version, 4)))))
  }

  function EncodeTaggedAll(rows: seq<TaggedRow>): bytes
  {
    if rows == [] then [] else EncodeTagged(rows[0]) + EncodeTaggedAll(rows[1..])
  }

  function EncodeIndex(r: IndexRow): bytes
  {
    LittleEndian(r.days, 2) + (LittleEndian(r.level, 4) + (Field(r.path) + LittleEndian(r.version, 4)))
  }

  function EncodeIndexAll(rows: seq<IndexRow>): bytes
  {
    if rows == [] then [] else EncodeIndex(rows[0]) + EncodeIndexAll(rows[1..])
  }

  /* ---- decoding ---- */

  /** A value and what follows it. */
  datatype Decoded<+T> = Value(value: T, rest: bytes) | Broken

  function DecodeNumber(s: bytes, size: nat): (r: Decoded<nat>)
    ensures r.Value? ==> r.value < Pow256(size)
  {
    if |s| < size then Broken
    else
      FromLittleEndianBound(s[..size]);
      Value(FromLittleEndian(s[..size]), s[size..])
  }

  function DecodeCount(s: bytes): Decoded<nat>
  {
    match ReadUvarint(s)
    case Read(n, k) => if k <= |s| then Value(n, s[k..]) else Broken
    case _ => Broken
  }

  function DecodeField(s: bytes): Decoded<bytes>
  {
    match DecodeCount(s)
    case Broken => Broken
    case Value(n, rest) => if n <= |rest| then Value(rest[..n], rest[n..]) else Broken
  }

  function DecodeFields(s: bytes, n: nat): Decoded<seq<bytes>>
    decreases n
  {
    if n == 0 then Value([], s)
    else
      match DecodeField(s)
      case Broken => Broken
      case Value(x, rest) =>
        match DecodeFields(rest, n - 1)
        case Broken => Broken
        case Value(xs, rest') => Value([x] + xs, rest')
  }

  function DecodeTagged(s: bytes): Decoded<TaggedRow>
  {
    Pow256Values();
    var days := DecodeNumber(s, 2);
    if days.Broken? then Broken else
    var tag := DecodeField(days.rest);
    if tag.Broken? then Broken else
    var path := DecodeField(tag.rest);
    if path.Broken? then Broken else
    var count := DecodeCount(path.rest);
    if count.Broken? then Broken else
    var tags := DecodeFields(count.rest, count.value);
    if tags.Broken? then Broken else
    var version := DecodeNumber(tags.rest, 4);
    if version.Broken? then Broken else
    Value(TaggedRow(days.value, tag.value, path.value, tags.value, version.value), version.rest)
  }

  function DecodeIndex(s: bytes): Decoded<IndexRow>
  {
    Pow256Values();
    var days := DecodeNumber(s, 2);
    if days.Broken? then Broken else
    var level := DecodeNumber(days.rest, 4);
    if level.Broken? then Broken else
    var path := DecodeField(level.rest);
    if path.Broken? then Broken else
    var version := DecodeNumber(path.rest, 4);
    if version.Broken? then Broken else
    Value(IndexRow(days.value, level.value, path.value, version.value), version.rest)
  }

  /** All of `s` as rows. */
  function DecodeTaggedAll(s: bytes): Decoded<seq<TaggedRow>>
    decreases |s|
  {
    if s == [] then Value([], [])
    else
      match DecodeTagged(s)
      case Broken => Broken
      case Value(r, rest) =>
        if |rest| >= |s| then Broken
        else match DecodeTaggedAll(rest) { case Broken => Broken case Value(rs, end) => Value([r] + rs, end) }
  }

  function DecodeIndexAll(s: bytes): Decoded<seq<IndexRow>>
    decreases |s|
  {
    if s == [] then Value([], [])
    else
      match DecodeIndex(s)
      case Broken => Broken
      case Value(r, rest) =>
        if |rest| >= |s| then Broken
        else match DecodeIndexAll(rest) { case Broken => Broken case Value(rs, end) => Value([r] + rs, end) }
  }

  lemma NumberRoundTrip(n: nat, size: nat, rest: bytes)
    requires n < Pow256(size)
    ensures DecodeNumber(LittleEndian(n, size) + rest, size) == Value(n, rest)
  {
    var s := LittleEndian(n, size) + rest;
    LittleEndianRoundTrip(n, size);
    hide LittleEndian, FromLittleEndian;
    assert s[..size] == LittleEndian(n, size) && s[size..] == rest;
  }

  lemma CountRoundTrip(n: uint64, rest: bytes)
    ensures DecodeCount(PutUvarint(n) + rest) == Value(n, rest)
  {
    ReadUvarintRoundTrip(n, rest);
    hide PutUvarint, ReadUvarint;
    assert (PutUvarint(n) + rest)[|PutUvarint(n)|..] == rest;
  }

  lemma FieldRoundTrip(x: bytes, rest: bytes)
    requires |x| < TWO64
    ensures DecodeField(Field(x) + rest) == Value(x, rest)
  {
    Assoc(PutUvarint(|x|), x, rest);
    CountRoundTrip(|x|, x + rest);
    hide PutUvarint, DecodeCount;
    assert (x + rest)[..|x|] == x && (x + rest)[|x|..] == rest;
  }

  lemma {:induction false} FieldsRoundTrip(xs: seq<bytes>, rest: bytes)
    requires forall x | x in xs :: |x| < TWO64
    ensures DecodeFields(Fields(xs) + rest, |xs|) == Value(xs, rest)
    decreases |xs|
  {
    if xs == [] {
      assert Fields(xs) == [];
      EmptyFirst(rest);
    } else {
      assert xs[0] in xs;
      Assoc(Field(xs[0]), Fields(xs[1..]), rest);
      FieldRoundTrip(xs[0], Fields(xs[1..]) + rest);
      FieldsRoundTrip(xs[1..], rest);
      hide Field, DecodeField;
      assert xs == [xs[0]] + xs[1..];
    }
  }

  /** What has to fit a `uint64` length. */
  ghost predicate RowFits(r: TaggedRow)
  {
    |r.tag| < TWO64 && |r.path| < TWO64 && |r.tags| < TWO64 && forall t | t in r.tags :: |t| < TWO64
  }

  lemma AssocSix(a: bytes, b: bytes, c: bytes, d: bytes, e: bytes, f: bytes, rest: bytes)
    ensures (a + (b + (c + (d + (e + f))))) + rest == a + (b + (c + (d + (e + (f + rest)))))
  {
  }

  lemma AssocFour(a: bytes, b: bytes, c: bytes, d: bytes, rest: bytes)
    ensures (a + (b + (c + d))) + rest == a + (b + (c + (d + rest)))
  {
  }

  lemma TaggedRoundTrip(r: TaggedRow, rest: bytes)
    requires RowFits(r)
    ensures DecodeTagged(EncodeTagged(r) + rest) == Value(r, rest)
  {
    Pow256Values();
    var a, b, c, d, e, f := LittleEndian(r.days, 2), Field(r.tag), Field(r.path), PutUvarint(|r.tags|),
        Fields(r.tags), LittleEndian(r.version, 4);
    AssocSix(a, b, c, d, e, f, rest);
    NumberRoundTrip(r.days, 2, b + (c + (d + (e + (f + rest)))));
    FieldRoundTrip(r.tag, c + (d + (e + (f + rest))));
    FieldRoundTrip(r.path, d + (e + (f + rest)));
    CountRoundTrip(|r.tags|, e + (f + rest));
    FieldsRoundTrip(r.tags, f + rest);
    NumberRoundTrip(r.version, 4, rest);
    hide Field, Fields, LittleEndian, PutUvarint, DecodeField, DecodeFields, DecodeNumber, DecodeCount, RowFits;
  }

  lemma IndexRoundTrip(r: IndexRow, rest: bytes)
    requires |r.path| < TWO64
    ensures DecodeIndex(EncodeIndex(r) + rest) == Value(r, rest)
  {
    Pow256Values();
    var a, b, c, d := LittleEndian(r.days, 2), LittleEndian(r.level, 4), Field(r.path), LittleEndian(r.version, 4);
    AssocFour(a, b, c, d, rest);
    NumberRoundTrip(r.days, 2, b + (c + (d + rest)));
    NumberRoundTrip(r.level, 4, c + (d + rest));
    FieldRoundTrip(r.path, d + rest);
    NumberRoundTrip(r.version, 4, rest);
    hide Field, LittleEndian, DecodeField, DecodeNumber;
  }

  lemma TaggedStep(r: TaggedRow, more: bytes, rs: seq<TaggedRow>)
    requires RowFits(r) && DecodeTaggedAll(more) == Value(rs, [])
    ensures DecodeTaggedAll(EncodeTagged(r) + more) == Value([r] + rs, [])
  {
    TaggedRoundTrip(r, more);
    assert |EncodeTagged(r)| > 0;
    hide EncodeTagged, DecodeTagged, RowFits;
  }

  lemma IndexStep(r: IndexRow, more: bytes, rs: seq<IndexRow>)
    requires |r.path| < TWO64 && DecodeIndexAll(more) == Value(rs, [])
    ensures DecodeIndexAll(EncodeIndex(r) + more) == Value([r] + rs, [])
  {
    IndexRoundTrip(r, more);
    assert |EncodeIndex(r)| > 0;
    hide EncodeIndex, DecodeIndex;
  }

  lemma NoRows()
    ensures EncodeTaggedAll([]) == [] && DecodeTaggedAll([]) == Value([], [])
    ensures EncodeIndexAll([]) == [] && DecodeIndexAll([]) == Value([], [])
  {
  }

  /** The bytes of any rows decode to exactly those rows. */
  lemma {:induction false} TaggedRowsRoundTrip(rows: seq<TaggedRow>)
    requires forall r | r in rows :: RowFits(r)
    ensures DecodeTaggedAll(EncodeTaggedAll(rows)) == Value(rows, [])
  {
    NoRows();
    if rows != [] {
      hide EncodeTagged, DecodeTaggedAll, RowFits;
      assert rows == [rows[0]] + rows[1..] && rows[0] in rows;
      TaggedRowsRoundTrip(rows[1..]);
      TaggedStep(rows[0], EncodeTaggedAll(rows[1..]), rows[1..]);
    }
  }

  lemma {:induction false} IndexRowsRoundTrip(rows: seq<IndexRow>)
    requires forall r | r in rows :: |r.path| < TWO64
    ensures DecodeIndexAll(EncodeIndexAll(rows)) == Value(rows, [])
  {
    NoRows();
    if rows != [] {
      hide EncodeIndex, DecodeIndexAll;
      assert rows == [rows[0]] + rows[1..] && rows[0] in rows;
      IndexRowsRoundTrip(rows[1..]);
      IndexStep(rows[0], EncodeIndexAll(rows[1..]), rows[1..]);
    }
  }

  lemma {:induction false} EncodeIndexAppend(a: seq<IndexRow>, b: seq<IndexRow>)
    ensures EncodeIndexAll(a + b) == EncodeIndexAll(a) + EncodeIndexAll(b)
  {
    if a == [] {
      assert a + b == b;
    } else {
      assert (a + b)[1..] == a[1..] + b;
      EncodeIndexAppend(a[1..], b);
      Assoc(EncodeIndex(a[0]), EncodeIndexAll(a[1..]), EncodeIndexAll(b));
    }
  }

  lemma {:induction false} FieldsAppend(a: seq<bytes>, b: seq<bytes>)
    ensures Fields(a + b) == Fields(a) + Fields(b)
  {
    if a == [] {
      assert a + b == b;
    } else {
      assert (a + b)[1..] == a[1..] + b;
      FieldsAppend(a[1..], b);
      Assoc(Field(a[0]), Fields(a[1..]), Fields(b));
    }
  }
}

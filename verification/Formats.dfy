/** The formats, told byte by byte: RowBinary rows as ClickHouse reads them, remote-write messages as
    Protocol Buffers has them, escaped names as in RFC 3986, and the keys of the caches. */
module Formats {
  import opened ByteStrings
  import opened Varint
  import opened Escape
  import opened TaggedNames
  import opened DottedPath
  import opened RowBinary
  import opened WriteBuffers
  import opened TableRows
  import opened SeriesKeys
  import opened RecordReader
  import Pb
  import Prompb

  /* ---- fixed-width numbers ---- */

  function TwoBytes(n: uint16): bytes
  {
    [(n % 256) as byte, (n / 256) as byte]
  }

  function FourBytes(n: uint32): bytes
  {
    [(n % 256) as byte, (n / 256 % 256) as byte, (n / 0x1_0000 % 256) as byte, (n / 0x100_0000) as byte]
  }

  function EightBytes(n: uint64): bytes
  {
    [(n % 256) as byte, (n / 256 % 256) as byte, (n / 0x1_0000 % 256) as byte, (n / 0x100_0000 % 256) as byte,
     (n / 0x1_0000_0000 % 256) as byte, (n / 0x100_0000_0000 % 256) as byte, (n / 0x1_0000_0000_0000 % 256) as byte,
     (n / 0x100_0000_0000_0000) as byte]
  }

  lemma TwoBytesAre(n: uint16)
    ensures LittleEndian(n, 2) == TwoBytes(n)
  {
    assert LittleEndian(n / 256 / 256, 0) == [];
    assert LittleEndian(n / 256, 1) == [(n / 256 % 256) as byte] + [];
  }

  /** The four low bytes of any number. */
  lemma LowFourBytes(n: nat)
    ensures LittleEndian(n, 4) ==
            [(n % 256) as byte, (n / 256 % 256) as byte, (n / 0x1_0000 % 256) as byte, (n / 0x100_0000 % 256) as byte]
  {
    var a, b, c := n / 256, n / 0x1_0000, n / 0x100_0000;
    assert a / 256 == b && b / 256 == c;
    assert LittleEndian(c / 256, 0) == [];
    assert LittleEndian(c, 1) == [(c % 256) as byte] + [];
    assert LittleEndian(b, 2) == [(b % 256) as byte] + LittleEndian(c, 1);
    assert LittleEndian(a, 3) == [(a % 256) as byte] + LittleEndian(b, 2);
    assert LittleEndian(n, 4) == [(n % 256) as byte] + LittleEndian(a, 3);
  }

  lemma FourBytesAre(n: uint32)
    ensures LittleEndian(n, 4) == FourBytes(n)
  {
    LowFourBytes(n);
  }

  lemma EightBytesAre(n: uint64)
    ensures LittleEndian(n, 8) == EightBytes(n)
  {
    var a, b, c, d := n / 256, n / 0x1_0000, n / 0x100_0000, n / 0x1_0000_0000;
    assert a / 256 == b && b / 256 == c && c / 256 == d;
    assert d / 256 == n / 0x100_0000_0000 && d / 0x1_0000 == n / 0x1_0000_0000_0000;
    assert d / 0x100_0000 == n / 0x100_0000_0000_0000;
    FourBytesAre(d);
    var l := LittleEndian(d, 4);
    assert l == FourBytes(d);
    EightUnfold(n, a, b, c, d);
    hide LittleEndian;
  }

  lemma EightUnfold(n: nat, a: nat, b: nat, c: nat, d: nat)
    requires a == n / 256 && b == a / 256 && c == b / 256 && d == c / 256
    ensures LittleEndian(n, 8) ==
            [(n % 256) as byte, (a % 256) as byte, (b % 256) as byte, (c % 256) as byte] + LittleEndian(d, 4)
  {
    assert LittleEndian(c, 5) == [(c % 256) as byte] + LittleEndian(d, 4);
    assert LittleEndian(b, 6) == [(b % 256) as byte] + LittleEndian(c, 5);
    assert LittleEndian(a, 7) == [(a % 256) as byte] + LittleEndian(b, 6);
    assert LittleEndian(n, 8) == [(n % 256) as byte] + LittleEndian(a, 7);
    hide LittleEndian;
  }

  /* ---- RowBinary ---- */

  /** A string is its length as a varint, and its bytes. */
  function Str(s: bytes): bytes
  {
    PutUvarint(|s|) + s
  }

  /** Name, value, timestamp, day, version. */
  lemma PointLayout(p: Point, toDays: ToDays)
    ensures Encode(p, toDays) ==
            Str(p.name) + (EightBytes(p.value) + FourBytes(p.timestamp) + TwoBytes(toDays(p.timestamp)) +
                FourBytes(p.version))
  {
    EightBytesAre(p.value);
    FourBytesAre(p.timestamp);
    TwoBytesAre(toDays(p.timestamp));
    FourBytesAre(p.version);
    hide PutUvarint, LittleEndian;
  }

  /** Day, level, path, version. */
  lemma IndexRowLayout(r: IndexRow)
    ensures EncodeIndex(r) == TwoBytes(r.days) + (FourBytes(r.level) + (Str(r.path) + FourBytes(r.version)))
  {
    TwoBytesAre(r.days);
    FourBytesAre(r.level);
    FourBytesAre(r.version);
    hide PutUvarint, LittleEndian;
  }

  function Strs(tags: seq<bytes>): bytes
  {
    if tags == [] then [] else Str(tags[0]) + Strs(tags[1..])
  }

  lemma {:induction false} StrsAre(tags: seq<bytes>)
    ensures Fields(tags) == Strs(tags)
  {
    hide PutUvarint;
    if tags != [] { StrsAre(tags[1..]); }
  }

  /** Day, tag, path, the tags as an array, version. */
  lemma TaggedRowLayout(r: TaggedRow)
    ensures EncodeTagged(r) ==
            TwoBytes(r.days) + (Str(r.tag) +
                (Str(r.path) + (PutUvarint(|r.tags|) + (Strs(r.tags) + FourBytes(r.version)))))
  {
    TwoBytesAre(r.days);
    StrsAre(r.tags);
    FourBytesAre(r.version);
    hide PutUvarint, LittleEndian, Fields, Strs;
  }

  /* ---- Protocol Buffers ---- */

  /** The numbers 150 and 300 of the encoding specification, and the largest of 64 bits. */
  lemma KnownVarints()
    ensures PutUvarint(150) == [0x96, 0x01] && PutUvarint(300) == [0xac, 0x02]
    ensures PutUvarint(TWO64 - 1) == [255, 255, 255, 255, 255, 255, 255, 255, 255, 1]
  {
    assert PutUvarint(1) == [1] && PutUvarint(2) == [2];
    assert PutUvarint(0xff) == [255] + PutUvarint(1);
    assert PutUvarint(0x7fff) == [255] + PutUvarint(0xff);
    assert PutUvarint(0x3f_ffff) == [255] + PutUvarint(0x7fff);
    assert PutUvarint(0x1fff_ffff) == [255] + PutUvarint(0x3f_ffff);
    assert PutUvarint(0xf_ffff_ffff) == [255] + PutUvarint(0x1fff_ffff);
    assert PutUvarint(0x7ff_ffff_ffff) == [255] + PutUvarint(0xf_ffff_ffff);
    assert PutUvarint(0x3_ffff_ffff_ffff) == [255] + PutUvarint(0x7ff_ffff_ffff);
    assert PutUvarint(0x1ff_ffff_ffff_ffff) == [255] + PutUvarint(0x3_ffff_ffff_ffff);
    assert PutUvarint(TWO64 - 1) == [255] + PutUvarint(0x1ff_ffff_ffff_ffff);
  }

  const ONE := 0x3ff0_0000_0000_0000

  const LABEL: bytes := [0x0a, 1, 97, 0x12, 1, 98]
  const SAMPLE: bytes := [0x09, 0, 0, 0, 0, 0, 0, 0xf0, 0x3f, 0x10, 5]

  lemma KnownDouble()
    ensures LittleEndian(ONE, 8) == [0, 0, 0, 0, 0, 0, 0xf0, 0x3f]
  {
    EightBytesAre(ONE);
    hide LittleEndian;
    LowZeros(ONE);
  }

  lemma LowZeros(n: uint64)
    requires n == 0x3ff0_0000_0000_0000
    ensures EightBytes(n) == [0, 0, 0, 0, 0, 0, 0xf0, 0x3f]
  {
    assert n / 256 == 0x3f_f000_0000_0000 && n / 0x1_0000 == 0x3ff0_0000_0000 && n / 0x100_0000 == 0x3f_f000_0000;
    assert n / 0x1_0000_0000 == 0x3ff0_0000 && n / 0x100_0000_0000 == 0x3f_f000;
  }

  lemma KnownSample()
    ensures Prompb.MarshalSample(Prompb.Sample(ONE, 5)) == SAMPLE
    ensures Prompb.MarshalSample(Prompb.Sample(0, 0)) ==
        Prompb.MarshalSample(Prompb.Sample(0x8000_0000_0000_0000, 0)) == []
    ensures Prompb.MarshalSample(Prompb.Sample(0, -1)) == [0x10, 255, 255, 255, 255, 255, 255, 255, 255, 255, 1]
  {
    KnownDouble();
    KnownVarints();
    assert PutUvarint(5) == [5];
    hide LittleEndian, PutUvarint;
  }

  lemma KnownLabel()
    ensures Prompb.MarshalLabel(Tag([97], [98])) == LABEL
  {
    assert PutUvarint(1) == [1];
    hide PutUvarint;
  }

  lemma KnownSeries()
    ensures Prompb.MarshalSeries(Prompb.Series([Tag([97], [98])], [Prompb.Sample(ONE, 5)])) ==
            [0x0a, 6] + LABEL + ([0x12, 11] + SAMPLE)
  {
    var l, s := Tag([97], [98]), Prompb.Sample(ONE, 5);
    KnownLabel();
    KnownSample();
    assert Prompb.MarshalLabel(l) == LABEL && Prompb.MarshalSample(s) == SAMPLE && |LABEL| == 6 && |SAMPLE| == 11;
    assert PutUvarint(6) == [6] && PutUvarint(11) == [11];
    assert [s][1..] == [] && [l][1..] == [];
    hide *;
    SeriesOfOne(l, s);
    DelimitedIs(0x12, SAMPLE);
    DelimitedIs(0x0a, LABEL);
    assert [0x0a] + ([6] + LABEL) == [0x0a, 6] + LABEL && [0x12] + ([11] + SAMPLE) == [0x12, 11] + SAMPLE;
  }

  lemma DelimitedIs(tag: byte, body: bytes)
    ensures Prompb.Delimited(tag, body) == [tag] + (PutUvarint(|body|) + body)
  {
  }

  lemma SeriesOfOne(l: Tag, s: Prompb.Sample)
    ensures Prompb.MarshalSeries(Prompb.Series([l], [s])) ==
            Prompb.Delimited(0x0a, Prompb.MarshalLabel(l)) + Prompb.Delimited(0x12, Prompb.MarshalSample(s))
  {
    hide Prompb.MarshalLabel, Prompb.MarshalSample, Prompb.Delimited;
    assert [s][1..] == [] && [l][1..] == [];
    assert Prompb.MarshalSamples([s]) == Prompb.Delimited(0x12, Prompb.MarshalSample(s)) + [];
    assert Prompb.MarshalLabels([l], Prompb.MarshalSamples([s])) ==
           Prompb.Delimited(0x0a, Prompb.MarshalLabel(l)) + Prompb.MarshalSamples([s]);
  }

  /** The request with the one series `{a="b"}` and the one sample 1.0 at 5 ms: a series is field 1 of the
      request; its labels are field 1 and its samples field 2; name and value are the fields 1 and 2 of
      a label, a double of field 1 and a varint of field 2 those of a sample. */
  lemma KnownRequest()
    ensures Prompb.MarshalRequest([Prompb.Series([Tag([97], [98])], [Prompb.Sample(ONE, 5)])]) ==
            [0x0a, 21] + ([0x0a, 6] + LABEL + ([0x12, 11] + SAMPLE))
  {
    var series := Prompb.Series([Tag([97], [98])], [Prompb.Sample(ONE, 5)]);
    var body := [0x0a, 6] + LABEL + ([0x12, 11] + SAMPLE);
    assert PutUvarint(21) == [21] && |body| == 21;
    hide *;
    KnownSeries();
    assert Prompb.MarshalSeries(series) == body;
    SeriesAlone(series, body);
  }

  lemma SeriesAlone(series: Prompb.Series, body: bytes)
    requires Prompb.MarshalSeries(series) == body && PutUvarint(|body|) == [21]
    ensures Prompb.MarshalRequest([series]) == [0x0a, 21] + body
  {
    hide *;
    RequestOfOne(series);
    DelimitedIs(0x0a, body);
    assert [0x0a] + ([21] + body) == [0x0a, 21] + body;
  }

  lemma RequestOfOne(series: Prompb.Series)
    ensures Prompb.MarshalRequest([series]) == Prompb.Delimited(0x0a, Prompb.MarshalSeries(series))
  {
    hide Prompb.MarshalSeries, Prompb.Delimited;
    assert [series][1..] == [];
    assert Prompb.MarshalRequest([series]) == Prompb.Delimited(0x0a, Prompb.MarshalSeries(series)) + [];
  }

  /** A field of any number and of each wire type is skipped exactly; the others are refused. */
  lemma SkippedFields(tag: nat, value: bytes, rest: bytes)
    ensures
      var p, wire := PutUvarint(tag) + (value + rest), tag % 8;
      && (wire == 0 && (exists n: nat :: value == PutUvarint(n)) ==> Pb.Skip(p) == Pb.Ok((), rest))
      && (wire == 1 && |value| == 8 ==> Pb.Skip(p) == Pb.Ok((), rest))
      && (wire == 2 && (exists body: bytes :: |body| < TWO63 && value == Str(body)) ==> Pb.Skip(p) == Pb.Ok((), rest))
      && (wire == 5 && |value| == 4 ==> Pb.Skip(p) == Pb.Ok((), rest))
      && (wire == 3 || wire == 4 || wire == 6 || wire == 7 ==> Pb.Skip(p) == Pb.Err(Pb.UnknownWireType))
      && ((wire == 1 && |value + rest| < 8) || (wire == 5 && |value + rest| < 4) ==> Pb.Skip(p) == Pb.Err(Pb.Truncated))
  {
    var p, wire := PutUvarint(tag) + (value + rest), tag % 8;
    VarintRoundTrip(tag, value + rest);
    FirstByte(tag);
    assert p[|PutUvarint(tag)|..] == value + rest && p[0] == PutUvarint(tag)[0];
    assert Pb.Skip(p) == Pb.SkipValue(wire as byte, value + rest);
    if wire == 0 && exists n: nat :: value == PutUvarint(n) {
      var n: nat :| value == PutUvarint(n);
      VarintRoundTrip(n, rest);
      assert (value + rest)[|value|..] == rest;
    }
    if wire == 2 && exists body: bytes :: |body| < TWO63 && value == Str(body) {
      var body: bytes :| |body| < TWO63 && value == Str(body);
      Prompb.BytesOfDelimited(body, rest);
    }
    hide PutUvarint, VarintEnd, Pb.Bytes;
    if |value| == 8 || |value| == 4 { assert (value + rest)[|value|..] == rest; }
  }

  lemma FirstByte(n: nat)
    ensures (PutUvarint(n)[0] % 8) as int == n % 8
  {
  }

  /* ---- escaping ---- */

  const UPPER := "ABCDEFGHIJKLMNOPQRSTUVWXYZ"
  const LOWER := "abcdefghijklmnopqrstuvwxyz"
  const DIGITS := "0123456789"
  const MARKS := "-_.~"
  const KEPT_IN_PATHS := "$&+,/:;=@"
  const HEX := "0123456789ABCDEF"

  /** The unreserved characters of RFC 3986. */
  predicate IsUnreserved(c: byte)
  {
    var x := c as char;
    x in UPPER || x in LOWER || x in DIGITS || x in MARKS
  }

  lemma InUpper(c: byte)
    ensures (c as char) in UPPER <==> 65 <= c <= 90
  {
    if 65 <= c <= 90 { assert UPPER[c as int - 65] == c as char; }
  }

  lemma InLower(c: byte)
    ensures (c as char) in LOWER <==> 97 <= c <= 122
  {
    if 97 <= c <= 122 { assert LOWER[c as int - 97] == c as char; }
  }

  lemma InDigits(c: byte)
    ensures (c as char) in DIGITS <==> 48 <= c <= 57
  {
    if 48 <= c <= 57 { assert DIGITS[c as int - 48] == c as char; }
  }

  lemma InMarks(c: byte)
    ensures (c as char) in MARKS <==> c == 45 || c == 95 || c == 46 || c == 126
  {
    assert MARKS[0] == 45 as char && MARKS[1] == 95 as char && MARKS[2] == 46 as char && MARKS[3] == 126 as char;
  }

  lemma InPaths(c: byte)
    ensures (c as char) in KEPT_IN_PATHS <==> Reserved(c) && c != QUESTION
  {
    var k := KEPT_IN_PATHS;
    assert k[0] == 36 as char && k[1] == 38 as char && k[2] == 43 as char && k[3] == 44 as char && k[4] == 47 as char;
    assert k[5] == 58 as char && k[6] == 59 as char && k[7] == 61 as char && k[8] == 64 as char;
  }

  /** A query keeps the unreserved characters, a path also some of the reserved ones; a space in a query
      becomes a `+`; and everything else `%` with two upper-case digits. */
  lemma EscapedCharacters(c: byte)
    ensures IsUnreserved(c) ==> EscapeByte(c, EncodeQuery) == EscapeByte(c, EncodePath) == [c]
    ensures (c as char) in KEPT_IN_PATHS ==> EscapeByte(c, EncodePath) == [c]
    ensures c == 32 ==> EscapeByte(c, EncodeQuery) == [43]
    ensures !IsUnreserved(c) && c != 32 ==>
              EscapeByte(c, EncodeQuery) == [37, HEX[c / 16] as byte, HEX[c % 16] as byte]
    ensures !IsUnreserved(c) && (c as char) !in KEPT_IN_PATHS ==>
              EscapeByte(c, EncodePath) == [37, HEX[c / 16] as byte, HEX[c % 16] as byte]
  {
    InUpper(c);
    InLower(c);
    InDigits(c);
    InMarks(c);
    InPaths(c);
    HexIs(c / 16);
    HexIs(c % 16);
    assert Unreserved(c) <==> IsUnreserved(c);
    hide IsUnreserved, Unreserved, HexDigit;
  }

  lemma HexIs(n: byte)
    requires n < 16
    ensures HexDigit(n) == HEX[n] as byte
  {
  }

  /* ---- names and keys ---- */

  /** The bytes of a text. */
  predicate Spells(s: bytes, text: string)
  {
    |s| == |text| && forall i | 0 <= i < |s| :: s[i] as char == text[i]
  }

  lemma KnownBytes()
    ensures Spells([DOT, QUESTION, AMPERSAND, EQUALS, SEMICOLON, PERCENT, PLUS, SPACE, COLON], ".?&=;%+ :")
    ensures Spells(NAME_LABEL, "__name__") && NEWLINE as char == '\n'
  {
  }

  /** A name given in parts: `n?k=v&l=w`. */
  lemma KnownParts()
    ensures TaggedName([[110], [107], [118], [108], [119]]) == [110, 63, 107, 61, 118, 38, 108, 61, 119]
  {
    var parts: seq<bytes> := [[110], [107], [118], [108], [119]];
    assert TaggedRest(parts, 5) == [];
    assert TaggedRest(parts, 4) == [61, 119] && TaggedRest(parts, 3) == [38, 108, 61, 119];
    assert TaggedRest(parts, 2) == [61, 118, 38, 108, 61, 119];
    assert TaggedRest(parts, 1) == [63, 107, 61, 118, 38, 108, 61, 119];
  }

  lemma EscapedOne(c: byte, rest: bytes, mode: Mode)
    ensures Escaped([c] + rest, mode) == EscapeByte(c, mode) + Escaped(rest, mode)
  {
    assert ([c] + rest)[1..] == rest;
  }

  /** The name `a ` with the tags `k=v ` and `l=`: `a%20?k=v+&l=`. */
  lemma KnownPrinted()
    ensures PrintMetric([97, 32], [Tag([107], [118, 32]), Tag([108], [])]) ==
        [97, 37, 50, 48, 63, 107, 61, 118, 43, 38, 108, 61]
  {
    var a, b := Tag([107], [118, 32]), Tag([108], []);
    EscapedOne(97, [32], EncodePath);
    EscapedOne(32, [], EncodePath);
    EscapedOne(107, [], EncodeQuery);
    EscapedOne(118, [32], EncodeQuery);
    EscapedOne(32, [], EncodeQuery);
    EscapedOne(108, [], EncodeQuery);
    assert [97] + [32] == [97, 32] && [118] + [32] == [118, 32] && [32] + [] == [32] && [107] + [] == [107]
        && [108] + [] == [108];
    assert Escaped([97, 32], EncodePath) == [97, 37, 50, 48];
    assert PrintTag(a) == [107, 61, 118, 43] && PrintTag(b) == [108, 61];
    assert [a, b][1..] == [b];
    hide Escaped, PrintTag, EscapeByte;
    assert PrintTags([a, b]) == [107, 61, 118, 43] + [38] + [108, 61];
  }

  /** The day 19000 and the name `a.b` have the key `19000:a.b`. */
  lemma KnownKey()
    ensures Key(19000, [97, 46, 98]) == [49, 57, 48, 48, 48, 58, 97, 46, 98]
  {
    assert Decimal(1) == [49] && Decimal(19) == Decimal(1) + [57] && Decimal(190) == Decimal(19) + [48];
    assert Decimal(1900) == Decimal(190) + [48] && Decimal(19000) == Decimal(1900) + [48];
  }

  /** Keys are ordered byte by byte, and a prefix comes first. */
  lemma {:induction false} LessIsLexicographic(a: bytes, b: bytes)
    ensures Less(a, b) <==>
            exists k :: 0 <= k <= |a| && k < |b| && a[..k] == b[..k] && (k == |a| || a[k] < b[k])
    decreases |a|
  {
    if a != [] && b != [] && a[0] == b[0] {
      var x, y := a[1..], b[1..];
      LessIsLexicographic(x, y);
      if Less(x, y) {
        var k :| 0 <= k <= |x| && k < |y| && x[..k] == y[..k] && (k == |x| || x[k] < y[k]);
        assert a[..k + 1] == [a[0]] + x[..k] && b[..k + 1] == [b[0]] + y[..k];
      }
      if k :| 0 <= k <= |a| && k < |b| && a[..k] == b[..k] && (k == |a| || a[k] < b[k]) {
        assert k > 0 && x[..k - 1] == a[..k][1..] && y[..k - 1] == b[..k][1..];
      }
    } else if a != [] && b != [] {
      assert a[..0] == b[..0];
      forall k | 0 < k <= |a| && k < |b|
        ensures a[..k] != b[..k]
      {
        assert a[..k][0] == a[0] && b[..k][0] == b[0];
      }
    } else if a == [] && b != [] {
      assert a[..0] == b[..0];
    }
  }

  /* ---- the record at the head of a file ---- */

  lemma ReadUnfold(o: Options, n: uint64, more: bytes)
    ensures
      var v, r := |PutUvarint(n)|, ReadOne(o, PutUvarint(n) + more);
      && (r.Panic? <==> v + n > BUFFER_SIZE || (|more| >= n && v + n + 18 > BUFFER_SIZE))
      && (r.Good? <==> v + n + 18 <= BUFFER_SIZE && |more| >= n + 18 && DaysMatch(o, more[n..n + 18]))
      && (r.Good? ==> r.rest == more[n + 18..])
  {
    var input := PutUvarint(n) + more;
    ReadUvarintRoundTrip(n, more);
    assert input[|PutUvarint(n)|..] == more;
    hide PutUvarint, ReadUvarint, ShownName, ShownTail, DaysMatch;
  }

  lemma DayOfTail(o: Options, more: bytes, n: nat)
    requires |more| >= n + 18
    ensures DaysMatch(o, more[n..n + 18]) <==>
            more[n + 12] as int + 256 * (more[n + 13] as int) == o.toDays(NumberAt(more, n + 8))
  {
    var tail := more[n..n + 18];
    var day, time := tail[12..14], tail[8..12];
    assert day[0] == tail[12] == more[n + 12] && day[1] == tail[13] == more[n + 13];
    assert time[0] == tail[8] == more[n + 8] && time[1] == tail[9] == more[n + 9];
    assert time[2] == tail[10] == more[n + 10] && time[3] == tail[11] == more[n + 11];
    TwoByteNumber(tail[12..14]);
    FourByteNumber(tail[8..12]);
    hide FromLittleEndian, Number16, Number32;
  }

  /** What the reader makes of a length and what follows it: a record exactly when all of it is there,
      fits the buffer of 524288 bytes, and the day is that of the timestamp. */
  lemma FirstRecord(o: Options, n: uint64, more: bytes)
    ensures
      var v := |PutUvarint(n)|;
      var r := ReadOne(o, PutUvarint(n) + more);
      && (r.Panic? <==> v + n > 524288 || (|more| >= n && v + n + 18 > 524288))
      && (r.Good? <==>
            && v + n + 18 <= 524288 && |more| >= n + 18
            && more[n + 12] as int + 256 * (more[n + 13] as int) ==
               o.toDays(NumberAt(more, n + 8)))
      && (r.Good? ==> r.rest == more[n + 18..])
  {
    assert BUFFER_SIZE == 524288;
    hide *;
    ReadUnfold(o, n, more);
    if |more| >= n + 18 { DayOfTail(o, more, n); }
  }

  /** Which names a reader reverses: plain ones, if it is asked to, segment by segment. */
  lemma ShownNames(o: Options, name: bytes)
    ensures !o.reverse || (63 as byte) in name ==> ShownName(o, name) == name
    ensures o.reverse && (63 as byte) !in name ==>
              Split(ShownName(o, name), 46) == Reversed(Split(name, 46))
  {
    SplitParts(name, DOT);
    var parts := Split(name, DOT);
    hide Split, Join;
    assert forall k | 0 <= k < |parts| :: Reversed(parts)[k] == parts[|parts| - 1 - k];
    SplitJoin(Reversed(parts), DOT);
  }

  /** Four bytes as a number, low byte first. */
  function NumberAt(s: bytes, i: nat): uint32
    requires i + 4 <= |s|
  {
    s[i] as int + 256 * (s[i + 1] as int) + 0x1_0000 * (s[i + 2] as int) + 0x100_0000 * (s[i + 3] as int)
  }

  lemma TwoByteNumber(s: bytes)
    requires |s| == 2
    ensures Number16(s) == s[0] as int + 256 * (s[1] as int)
  {
    var x := s[1..];
    assert x[1..] == [] && FromLittleEndian(x) == x[0] as nat;
    assert FromLittleEndian(s) == s[0] as nat + 256 * FromLittleEndian(x);
    assert Number16(s) == FromLittleEndian(s);
  }

  lemma FourByteNumber(s: bytes)
    requires |s| == 4
    ensures Number32(s) == NumberAt(s, 0)
  {
    var x, y, z := s[1..], s[2..], s[3..];
    assert x[1..] == y && y[1..] == z && z[1..] == [];
    assert FromLittleEndian(z) == z[0] as nat;
    assert FromLittleEndian(y) == y[0] as nat + 256 * FromLittleEndian(z);
    assert FromLittleEndian(x) == x[0] as nat + 256 * FromLittleEndian(y);
    assert FromLittleEndian(s) == s[0] as nat + 256 * FromLittleEndian(x);
    assert Number32(s) == FromLittleEndian(s);
  }
}

/** What the tagged table gets for one name (uploader/tagged.go, `parseName`): one row per tag, in a
    buffer of fixed size whose overflow is predicted, not detected. */
module TaggedUploader {
  import opened ByteStrings
  import opened Varint
  import opened Escape
  import opened TaggedNames
  import opened RowBinary
  import opened WriteBuffers
  import opened TableRows

  /** An ignored metric of this name stands for all of them. */
  const STAR: bytes := [42]

  datatype Outcome = Incomplete | BufOverflow | Rows(rows: seq<TaggedRow>)

  function AllTags(p: Parsed): seq<bytes>
    requires p.Parsed?
  {
    [p.nameTag] + p.tags
  }

  predicate Ignored(p: Parsed, ignored: set<bytes>)
    requires p.Parsed?
  {
    p.name in ignored || STAR in ignored
  }

  /** The tags that get a row of their own: of an ignored metric, only the name. */
  function RowTags(p: Parsed, ignored: set<bytes>): (r: seq<bytes>)
    requires p.Parsed?
    ensures 1 <= |r| <= |p.tags| + 1
  {
    if Ignored(p, ignored) then [p.nameTag] else AllTags(p)
  }

  function RowsOf(name: bytes, days: uint16, version: uint32, tags: seq<bytes>, all: seq<bytes>): (r: seq<TaggedRow>)
    ensures |r| == |tags|
  {
    seq(|tags|, i requires 0 <= i < |tags| => TaggedRow(days, tags[i], name, all, version))
  }

  /** The estimate after `i` tags: 8 bytes for each of three lengths, 2 for the day, 2 for the
      version, and the strings but for the tag list. */
  function EstimateTo(nameLen: nat, p: Parsed, i: nat): nat
    requires p.Parsed? && i <= |p.tags|
  {
    if i == 0 then 28 + |p.name| + nameLen else EstimateTo(nameLen, p, i - 1) + (28 + |p.tags[i - 1]| + nameLen)
  }

  /** The whole estimate: every row repeats the tag list. */
  function Estimate(nameLen: nat, p: Parsed, ignored: set<bytes>): nat
    requires p.Parsed?
  {
    EstimateTo(nameLen, p, |p.tags|) + |RowTags(p, ignored)| * |Fields(AllTags(p))|
  }

  function OutcomeOf(name: bytes, days: uint16, version: uint32, ignored: set<bytes>): Outcome
  {
    var p := ParseName(name);
    if p.IncompleteTags? then Incomplete
    else if Estimate(|name|, p, ignored) >= BUFFER_SIZE then BufOverflow
    else Rows(RowsOf(name, days, version, RowTags(p, ignored), AllTags(p)))
  }

  /** The name tag is as long as the name and its label. */
  ghost predicate WellParsed(p: Parsed)
  {
    p.Parsed? && |p.nameTag| == |p.name| + 9
  }

  lemma ParseNameWell(name: bytes)
    ensures ParseName(name).Parsed? ==> WellParsed(ParseName(name))
  {
  }

  lemma ParsedLength(name: bytes)
    ensures ParseName(name).Parsed? ==> |ParseName(name).name| <= |name|
  {
    var delim := IndexByte(name, QUESTION);
    if delim >= 1 {
      UnescapedLength(name[..delim]);
    }
  }

  lemma {:induction false} EstimateGrows(nameLen: nat, p: Parsed, i: nat, j: nat)
    requires p.Parsed? && i <= j <= |p.tags|
    ensures EstimateTo(nameLen, p, i) <= EstimateTo(nameLen, p, j)
  {
    if i < j {
      EstimateGrows(nameLen, p, i, j - 1);
    }
  }

  /** No length that a small enough estimate speaks of takes more than four bytes. */
  const FOUR_BYTES := 0x1000_0000

  lemma FieldSize(x: bytes)
    requires |x| < FOUR_BYTES
    ensures |Field(x)| <= |x| + 4
  {
    VarintSizeFour(|x|);
  }

  lemma {:induction false} EstimateBoundsFields(nameLen: nat, p: Parsed, i: nat)
    requires WellParsed(p) && i <= |p.tags| && EstimateTo(nameLen, p, i) < FOUR_BYTES
    ensures |Fields(AllTags(p)[..i + 1])| + 15 <= EstimateTo(nameLen, p, i)
  {
    var all := AllTags(p);
    FieldSize(all[i]);
    assert all[..i + 1] == all[..i] + [all[i]];
    FieldsAppend(all[..i], [all[i]]);
    FieldsOne(all[i]);
    hide Field;
    if i > 0 {
      EstimateBoundsFields(nameLen, p, i - 1);
    } else {
      assert Fields(all[..0]) == [];
    }
  }

  lemma FieldsOne(x: bytes)
    ensures Fields([x]) == Field(x)
  {
    assert [x][1..] == [];
    assert Fields([x]) == Field(x) + [];
  }

  lemma EncodeTaggedOne(r: TaggedRow)
    ensures EncodeTaggedAll([r]) == EncodeTagged(r)
  {
    assert [r][1..] == [];
    assert EncodeTaggedAll([r]) == EncodeTagged(r) + [];
  }

  lemma {:induction false} EncodeTaggedAppend(a: seq<TaggedRow>, b: seq<TaggedRow>)
    ensures EncodeTaggedAll(a + b) == EncodeTaggedAll(a) + EncodeTaggedAll(b)
  {
    if a == [] {
      assert a + b == b;
    } else {
      assert (a + b)[1..] == a[1..] + b;
      EncodeTaggedAppend(a[1..], b);
      Assoc(EncodeTagged(a[0]), EncodeTaggedAll(a[1..]), EncodeTaggedAll(b));
    }
  }

  /** One row's share of the estimate. */
  lemma RowSize(r: TaggedRow)
    requires |r.tag| < FOUR_BYTES && |r.path| < FOUR_BYTES && |r.tags| < FOUR_BYTES
    ensures |EncodeTagged(r)| <= |r.tag| + |r.path| + |Fields(r.tags)| + 18
  {
    FieldSize(r.tag);
    FieldSize(r.path);
    VarintSizeFour(|r.tags|);
  }

  lemma {:induction false} TagsCounted(nameLen: nat, p: Parsed, i: nat)
    requires WellParsed(p) && i <= |p.tags|
    ensures i + 1 + nameLen <= EstimateTo(nameLen, p, i)
    ensures |AllTags(p)[i]| + nameLen + 18 <=
            (if i == 0 then EstimateTo(nameLen, p, 0) else EstimateTo(nameLen, p, i) - EstimateTo(nameLen, p, i - 1))
  {
    if i > 0 {
      TagsCounted(nameLen, p, i - 1);
    }
  }

  ghost predicate RowsMatch(name: bytes, p: Parsed, rows: seq<TaggedRow>)
    requires p.Parsed? && |rows| <= |p.tags| + 1
  {
    forall i | 0 <= i < |rows| :: rows[i].tag == AllTags(p)[i] && rows[i].path == name && rows[i].tags == AllTags(p)
  }

  lemma RowsOfMatch(name: bytes, days: uint16, version: uint32, p: Parsed, ignored: set<bytes>)
    requires p.Parsed?
    ensures RowsMatch(name, p, RowsOf(name, days, version, RowTags(p, ignored), AllTags(p)))
  {
  }

  lemma {:induction false} FirstRowsBound(name: bytes, p: Parsed, rows: seq<TaggedRow>, j: nat, l: nat)
    requires WellParsed(p) && 1 <= j <= |rows| <= |p.tags| + 1 && EstimateTo(|name|, p, |p.tags|) < FOUR_BYTES
    requires RowsMatch(name, p, rows)
    requires l == |Fields(AllTags(p))|
    ensures |EncodeTaggedAll(rows[..j])| <= EstimateTo(|name|, p, j - 1) + j * l
  {
    var r := rows[j - 1];
    assert rows[..j] == rows[..j - 1] + [r];
    EncodeTaggedAppend(rows[..j - 1], [r]);
    EncodeTaggedOne(r);
    TagsCounted(|name|, p, j - 1);
    TagsCounted(|name|, p, |p.tags|);
    EstimateGrows(|name|, p, j - 1, |p.tags|);
    RowSize(r);
    hide EncodeTagged, Fields, RowsMatch;
    if j > 1 {
      FirstRowsBound(name, p, rows, j - 1, l);
      assert (j - 1) * l + l == j * l;
    } else {
      assert EncodeTaggedAll(rows[..0]) == [];
    }
  }

  lemma EstimateShare(nameLen: nat, p: Parsed, ignored: set<bytes>, j: nat)
    requires p.Parsed? && 1 <= j <= |RowTags(p, ignored)|
    ensures EstimateTo(nameLen, p, j - 1) + j * |Fields(AllTags(p))| <= Estimate(nameLen, p, ignored)
  {
    hide Fields, RowTags, AllTags, EstimateTo;
    EstimateGrows(nameLen, p, j - 1, |p.tags|);
    Product(j, |RowTags(p, ignored)|, |Fields(AllTags(p))|);
  }

  /** The estimate is never below the true size of the rows. */
  lemma EstimateBounds(name: bytes, days: uint16, version: uint32, p: Parsed, ignored: set<bytes>, j: nat)
    requires WellParsed(p) && EstimateTo(|name|, p, |p.tags|) < FOUR_BYTES
    requires j <= |RowTags(p, ignored)|
    ensures
      var rows := RowsOf(name, days, version, RowTags(p, ignored), AllTags(p));
      |EncodeTaggedAll(rows[..j])| <= Estimate(|name|, p, ignored)
  {
    var tags, l := RowTags(p, ignored), |Fields(AllTags(p))|;
    var rows := RowsOf(name, days, version, tags, AllTags(p));
    if j == 0 {
      assert EncodeTaggedAll(rows[..0]) == [];
    } else {
      RowsOfMatch(name, days, version, p, ignored);
      EstimateShare(|name|, p, ignored, j);
      hide *;
      FirstRowsBound(name, p, rows, j, l);
    }
  }

  /** Without tags the estimate leaves 12 bytes for the two lengths, and holds as long as they take no
      more: each would have to be near 2^42. */
  lemma UntaggedEstimate(name: bytes, days: uint16, version: uint32, p: Parsed, ignored: set<bytes>)
    requires WellParsed(p) && p.tags == []
    ensures
      var rows := RowsOf(name, days, version, RowTags(p, ignored), AllTags(p));
      |EncodeTaggedAll(rows)| <= Estimate(|name|, p, ignored) <==>
      |PutUvarint(|p.nameTag|)| + |PutUvarint(|name|)| <= 12
  {
    var rows := RowsOf(name, days, version, RowTags(p, ignored), AllTags(p));
    assert RowTags(p, ignored) == [p.nameTag] && AllTags(p) == [p.nameTag];
    var r := TaggedRow(days, p.nameTag, name, [p.nameTag], version);
    assert rows == [r] && |PutUvarint(1)| == 1;
    EncodeTaggedOne(r);
    hide EncodeTaggedAll, Fields, PutUvarint, LittleEndian, RowTags;
  }

  lemma Product(j: nat, n: nat, l: nat)
    requires j <= n
    ensures j * l <= n * l
  {
    assert n * l == j * l + (n - j) * l;
  }

  /** Without an error, the buffer holds all of the rows and nothing else: decoding it gives one row
      for the metric's name and one for each of its tags, in order, or for the name alone if this
      metric or every metric is ignored; and each row has the whole tag list. */
  lemma {:induction false} RowsDecode(name: bytes, days: uint16, version: uint32, ignored: set<bytes>)
    requires |name| < TWO63
    ensures
      var o, p := OutcomeOf(name, days, version, ignored), ParseName(name);
      o.Rows? ==>
        && p.Parsed?
        && |EncodeTaggedAll(o.rows)| < BUFFER_SIZE
        && DecodeTaggedAll(EncodeTaggedAll(o.rows)) == Value(o.rows, [])
        && var all := [p.nameTag] + p.tags;
           var own := if p.name in ignored || [42] in ignored then [p.nameTag] else all;
           && |o.rows| == |own|
           && forall i | 0 <= i < |own| :: o.rows[i] == TaggedRow(days, own[i], name, all, version)
  {
    var o, p := OutcomeOf(name, days, version, ignored), ParseName(name);
    if o.Rows? {
      var tags, all := RowTags(p, ignored), AllTags(p);
      ParseNameWell(name);
      RowsShape(name, days, version, tags, all);
      assert o.rows == RowsOf(name, days, version, tags, all) && Estimate(|name|, p, ignored) < BUFFER_SIZE;
      assert all == [p.nameTag] + p.tags;
      assert tags == if p.name in ignored || STAR in ignored then [p.nameTag] else all;
      hide *;
      RowsRoundTrip(name, days, version, p, ignored);
    }
  }

  lemma RowsRoundTrip(name: bytes, days: uint16, version: uint32, p: Parsed, ignored: set<bytes>)
    requires |name| < TWO63 && WellParsed(p) && Estimate(|name|, p, ignored) < BUFFER_SIZE
    ensures
      var rows := RowsOf(name, days, version, RowTags(p, ignored), AllTags(p));
      |EncodeTaggedAll(rows)| < BUFFER_SIZE && DecodeTaggedAll(EncodeTaggedAll(rows)) == Value(rows, [])
  {
    var tags, all := RowTags(p, ignored), AllTags(p);
    var rows := RowsOf(name, days, version, tags, all);
    RowsShape(name, days, version, tags, all);
    AllTagsFit(|name|, p, |p.tags|);
    EstimateWithin(|name|, p, ignored);
    RowTagsAmongAll(p, ignored);
    hide EncodeTaggedAll, DecodeTaggedAll, Estimate, EstimateTo, RowsOf, RowTags, AllTags, WellParsed, Fields;
    EstimateBounds(name, days, version, p, ignored, |rows|);
    assert rows[..|rows|] == rows;
    RowsFit(rows, name, tags, all);
    TaggedRowsRoundTrip(rows);
  }

  lemma RowTagsAmongAll(p: Parsed, ignored: set<bytes>)
    requires p.Parsed?
    ensures forall t | t in RowTags(p, ignored) :: t in AllTags(p)
  {
  }

  lemma RowsShape(name: bytes, days: uint16, version: uint32, tags: seq<bytes>, all: seq<bytes>)
    ensures forall i | 0 <= i < |tags| ::
              RowsOf(name, days, version, tags, all)[i] == TaggedRow(days, tags[i], name, all, version)
  {
  }

  lemma RowsFit(rows: seq<TaggedRow>, name: bytes, tags: seq<bytes>, all: seq<bytes>)
    requires |name| < TWO64 && |all| < TWO64 && (forall t | t in all :: |t| < TWO64)
        && (forall t | t in tags :: t in all)
    requires |rows| == |tags|
    requires forall i | 0 <= i < |rows| :: rows[i].tag == tags[i] && rows[i].path == name && rows[i].tags == all
    ensures forall r | r in rows :: RowFits(r)
  {
  }

  lemma {:induction false} AllTagsFit(nameLen: nat, p: Parsed, i: nat)
    requires WellParsed(p) && i <= |p.tags|
    ensures forall t | t in AllTags(p)[..i + 1] :: |t| + 18 <= EstimateTo(nameLen, p, i)
    ensures i == |p.tags| ==> AllTags(p)[..i + 1] == AllTags(p) && |AllTags(p)| <= EstimateTo(nameLen, p, i)
  {
    TagsCounted(nameLen, p, i);
    assert AllTags(p)[..i + 1] == AllTags(p)[..i] + [AllTags(p)[i]];
    if i > 0 {
      AllTagsFit(nameLen, p, i - 1);
    }
  }

  /** From the printer to the table: a name printed from a metric and its tags is stored with exactly
      those tags, `key=value`, after the name's own, in which a `+` has become a space: one row for
      each, or for the name alone if the metric is ignored. Only an empty name is refused. */
  lemma {:induction false} PrintedTagsAreStored(name: bytes, tags: seq<Tag>, days: uint16, version: uint32,
      ignored: set<bytes>)
    ensures
      var path, plain := PrintMetric(name, tags), SpaceForPlus(name);
      var o, all := OutcomeOf(path, days, version, ignored), [NAME_LABEL + [EQUALS] + plain] + PlainTags(tags);
      && (o.Incomplete? <==> name == [])
      && (o.Rows? ==>
            var own := if plain in ignored || [42] in ignored then all[..1] else all;
            && |o.rows| == |own|
            && forall i | 0 <= i < |own| :: o.rows[i] == TaggedRow(days, own[i], path, all, version))
  {
    ParsePrintedMetric(name, tags);
    hide ParseName, PrintMetric, PlainTags, Estimate, SpaceForPlus;
  }

  lemma EstimateWithin(nameLen: nat, p: Parsed, ignored: set<bytes>)
    requires p.Parsed?
    ensures EstimateTo(nameLen, p, |p.tags|) <= Estimate(nameLen, p, ignored)
    ensures |RowTags(p, ignored)| * |Fields(AllTags(p))| >= |Fields(AllTags(p))|
  {
    Product(1, |RowTags(p, ignored)|, |Fields(AllTags(p))|);
  }

  /* ---- names that fit ---- */

  function Total(tags: seq<bytes>): nat
  {
    if tags == [] then 0 else |tags[0]| + Total(tags[1..])
  }

  lemma {:induction false} TotalAppend(a: seq<bytes>, b: seq<bytes>)
    ensures Total(a + b) == Total(a) + Total(b)
  {
    if a == [] {
      assert a + b == b;
    } else {
      assert (a + b)[1..] == a[1..] + b;
      TotalAppend(a[1..], b);
    }
  }

  lemma ParsedStep(args: bytes)
    ensures
      var delim := IndexByte(args, EQUALS);
      if delim < 0 then ParseTags(args) == []
      else
        var end := IndexByte(args[delim + 1..], AMPERSAND);
        if end < 0 then ParseTags(args) == [Unescaped(args)]
        else ParseTags(args) == [Unescaped(args[..end + delim + 1])] + ParseTags(args[end + delim + 2..])
  {
    hide IndexByte, Unescaped;
  }

  lemma TotalFirst(t: bytes, rest: seq<bytes>)
    ensures Total([t] + rest) == |t| + Total(rest) && Total([]) == 0
  {
    assert ([t] + rest)[1..] == rest;
  }

  lemma CountOne(s: bytes, i: nat)
    requires i < |s| && s[i] == EQUALS
    ensures multiset(s)[EQUALS] >= 1
  {
  }

  lemma CountFirst(s: bytes, i: nat, j: nat)
    requires i < j < |s| && s[i] == EQUALS
    ensures multiset(s)[EQUALS] >= 1 + multiset(s[j + 1..])[EQUALS]
  {
    var first, c, rest := s[..j], [s[j]], s[j + 1..];
    CountOne(first, i);
    assert s == first + c + rest;
    assert multiset(s) == multiset(first) + multiset(c) + multiset(rest);
  }

  /** Decoding makes nothing longer, and there is a `=` for each tag. */
  lemma {:induction false} ParsedTotal(args: bytes)
    ensures Total(ParseTags(args)) <= |args| && |ParseTags(args)| <= multiset(args)[EQUALS]
    decreases |args|
  {
    var delim := IndexByte(args, EQUALS);
    IndexByteFinds(args, EQUALS);
    ParsedStep(args);
    TotalFirst([], []);
    hide *;
    if delim >= 0 {
      var end := IndexByte(args[delim + 1..], AMPERSAND);
      if end < 0 {
        UnescapedLength(args);
        TotalFirst(Unescaped(args), []);
        assert [Unescaped(args)] + [] == [Unescaped(args)];
        CountOne(args, delim);
      } else {
        var first, rest := args[..end + delim + 1], args[end + delim + 2..];
        CountFirst(args, delim, end + delim + 1);
        UnescapedLength(first);
        ParsedTotal(rest);
        TotalFirst(Unescaped(first), ParseTags(rest));
      }
    }
  }

  lemma {:induction false} EstimateIs(nameLen: nat, p: Parsed, i: nat)
    requires p.Parsed? && i <= |p.tags|
    ensures EstimateTo(nameLen, p, i) == (i + 1) * (28 + nameLen) + |p.name| + Total(p.tags[..i])
  {
    if i > 0 {
      EstimateIs(nameLen, p, i - 1);
      assert p.tags[..i] == p.tags[..i - 1] + [p.tags[i - 1]];
      TotalAppend(p.tags[..i - 1], [p.tags[i - 1]]);
      assert [p.tags[i - 1]][1..] == [];
    }
  }

  lemma {:induction false} FieldsSize(tags: seq<bytes>)
    requires Total(tags) < FOUR_BYTES
    ensures |Fields(tags)| <= Total(tags) + 4 * |tags|
  {
    if tags != [] {
      FieldSize(tags[0]);
      FieldsSize(tags[1..]);
    }
  }

  /** A bound on the rows of a name with at most `k - 1` tags. */
  predicate Small(name: bytes)
  {
    var k := 1 + multiset(name)[EQUALS];
    k * (37 + 2 * |name| + 4 * k) + |name| < 524288
  }

  lemma SmallBound(n: nat, a: nat, b: nat, est: nat, rows: nat, list: nat)
    requires 1 <= a <= b && b * (37 + 2 * n + 4 * b) + n < 524288 && rows <= a
    requires est <= a * (28 + n) + n && list <= n + 9 + 4 * a
    ensures est + rows * list < 524288
  {
    Product(rows, a, list);
    assert a * list <= a * (n + 9 + 4 * a) by { Scaled(a, list, n + 9 + 4 * a); }
    assert a * (28 + n) + a * (n + 9 + 4 * a) == a * (37 + 2 * n + 4 * a);
    Scaled(a, 37 + 2 * n + 4 * a, 37 + 2 * n + 4 * b);
    Product(a, b, 37 + 2 * n + 4 * b);
  }

  lemma Scaled(a: nat, x: nat, y: nat)
    requires x <= y
    ensures a * x <= a * y
  {
    assert a * y == a * x + a * (y - x);
  }

  lemma ParsedParts(name: bytes)
    requires ParseName(name).Parsed?
    ensures
      var p := ParseName(name);
      |p.name| + Total(p.tags) <= |name| && |p.tags| <= multiset(name)[EQUALS]
  {
    var delim := IndexByte(name, QUESTION);
    UnescapedLength(name[..delim]);
    ParsedTotal(name[delim + 1..]);
    assert name == name[..delim] + name[delim..delim + 1] + name[delim + 1..];
  }

  lemma SmallEstimate(name: bytes, p: Parsed, ignored: set<bytes>, k: nat)
    requires WellParsed(p) && |p.name| + Total(p.tags) <= |name| && |p.tags| < k
    requires k * (37 + 2 * |name| + 4 * k) + |name| < 524288
    ensures Estimate(|name|, p, ignored) < 524288
  {
    var n, all := |p.tags| + 1, AllTags(p);
    var est, rows, list := EstimateTo(|name|, p, |p.tags|), |RowTags(p, ignored)|, |Fields(all)|;
    EstimateIs(|name|, p, |p.tags|);
    assert p.tags[..|p.tags|] == p.tags && all[1..] == p.tags;
    assert Total(all) == |p.nameTag| + Total(p.tags);
    assert Estimate(|name|, p, ignored) == est + rows * list;
    SmallLength(|name|, k);
    FieldsSize(all);
    assert est <= n * (28 + |name|) + |name| && list <= |name| + 9 + 4 * n && rows <= n;
    hide *;
    SmallBound(|name|, n, k, est, rows, list);
  }

  lemma SmallLength(n: nat, k: nat)
    requires k >= 1 && k * (37 + 2 * n + 4 * k) + n < 524288
    ensures n < 524288
  {
    Product(1, k, 37 + 2 * n + 4 * k);
  }

  /** A small name is never an overflow; one with 15 `=` may have 15800 bytes. */
  lemma {:induction false} SmallNamesFit(name: bytes, days: uint16, version: uint32, ignored: set<bytes>)
    requires Small(name)
    ensures
      var o := OutcomeOf(name, days, version, ignored);
      !o.BufOverflow? && (o.Incomplete? <==> IndexByte(name, QUESTION) < 1)
  {
    var p := ParseName(name);
    if p.Parsed? {
      ParseNameWell(name);
      ParsedParts(name);
      SmallEstimate(name, p, ignored, 1 + multiset(name)[EQUALS]);
      hide Estimate, RowTags, AllTags;
    }
  }

  lemma RegroupRow(w: bytes, a: bytes, b: bytes, c: bytes, d: bytes, e: bytes, f: bytes)
    ensures w + a + b + c + d + e + f == w + (a + (b + (c + (d + (e + f)))))
  {
  }

  /** The reusable buffers of one upload. */
  class TagsBuffers {
    const wb: WriteBuffer
    const tagsBuf: WriteBuffer
    const names: NameBuffers
    var tag1: seq<bytes>

    ghost predicate Valid()
      reads this, wb, tagsBuf
    {
      wb.Valid() && tagsBuf.Valid() && wb != tagsBuf && wb.body != tagsBuf.body
    }

    constructor ()
      ensures Valid() && fresh(wb) && fresh(wb.body) && fresh(tagsBuf) && fresh(tagsBuf.body)
      ensures fresh(names) && fresh(names.nameBuf)
    {
      wb := new WriteBuffer();
      tagsBuf := new WriteBuffer();
      names := new NameBuffers();
      tag1 := [];
    }

    /** The first tag goes in before any check, cut short if it is too long. */
    method WriteNameTag(tag: bytes)
      requires Valid() && tagsBuf.used == 0 && |tag| < TWO64
      modifies tagsBuf`used, tagsBuf.body
      ensures Valid()
      ensures if |Field(tag)| <= BUFFER_SIZE then tagsBuf.Contents() == Fields([tag]) else tagsBuf.used == BUFFER_SIZE
      ensures |Field(tag)| <= |tag| + 10
    {
      VarintSize(|tag|);
      FieldsOne(tag);
      tagsBuf.WriteBytes(tag);
      EmptyFirst(Field(tag));
    }

    method WriteTag(ghost done: seq<bytes>, tag: bytes)
      requires Valid() && tagsBuf.Contents() == Fields(done) && |Fields(done + [tag])| <= BUFFER_SIZE
      modifies tagsBuf`used, tagsBuf.body
      ensures Valid() && tagsBuf.Contents() == Fields(done + [tag])
    {
      FieldsAppend(done, [tag]);
      FieldsOne(tag);
      tagsBuf.WriteBytes(tag);
    }

    /** The loop over the tags: adds up the estimate, and puts the tag list together. */
    method CollectTags(nameLen: nat, p: Parsed, ignored: set<bytes>) returns (sizeTags: nat, ok: bool)
      requires Valid() && WellParsed(p) && |p.nameTag| < TWO64 && wb.used == 0 && tagsBuf.used == 0
      modifies this, tagsBuf, tagsBuf.body
      ensures Valid()
      ensures !ok ==> EstimateTo(nameLen, p, |p.tags|) >= BUFFER_SIZE
      ensures ok ==> sizeTags == EstimateTo(nameLen, p, |p.tags|) && tag1 == RowTags(p, ignored)
      ensures ok && tagsBuf.used < BUFFER_SIZE ==> tagsBuf.Contents() == Fields(AllTags(p))
      ensures ok && tagsBuf.used == BUFFER_SIZE ==> |Fields(AllTags(p))| >= BUFFER_SIZE
    {
      hide Fields, Field;
      ghost var all := AllTags(p);
      tag1 := [p.nameTag];
      WriteNameTag(p.nameTag);
      FieldsOne(p.nameTag);
      assert all[..1] == [p.nameTag] && all[..|p.tags| + 1] == all;
      ok := true;
      sizeTags := 2 + 8 + |p.name| + 8 + nameLen + 8 + 2;
      var ignoreAllButName := p.name in ignored || STAR in ignored;
      for i := 0 to |p.tags|
        invariant Valid() && sizeTags == EstimateTo(nameLen, p, i)
        invariant tag1 == if ignoreAllButName then [p.nameTag] else all[..i + 1]
        invariant i > 0 || |Field(p.nameTag)| <= BUFFER_SIZE ==> tagsBuf.Contents() == Fields(all[..i + 1])
        invariant i == 0 && |Field(p.nameTag)| > BUFFER_SIZE ==> tagsBuf.used == BUFFER_SIZE
      {
        sizeTags := sizeTags + (2 + 8 + |p.tags[i]| + 8 + nameLen + 8 + 2);
        if sizeTags >= wb.FreeSize() {
          EstimateGrows(nameLen, p, i + 1, |p.tags|);
          return sizeTags, false;
        }
        EstimateBoundsFields(nameLen, p, i + 1);
        EstimateGrows(nameLen, p, 0, i);
        assert all[..i + 2] == all[..i + 1] + [p.tags[i]];
        WriteTag(all[..i + 1], p.tags[i]);
        if !ignoreAllButName {
          tag1 := tag1 + [p.tags[i]];
        }
      }
    }

    /** One row; it must fit. */
    method WriteRow(days: uint16, tag: bytes, name: bytes, count: nat, version: uint32, ghost all: seq<bytes>)
      requires Valid() && tagsBuf.Contents() == Fields(all) && count == |all|
      requires wb.used + |EncodeTagged(TaggedRow(days, tag, name, all, version))| <= BUFFER_SIZE
      modifies wb`used, wb.body
      ensures Valid() && wb.Contents() == old(wb.Contents()) + EncodeTagged(TaggedRow(days, tag, name, all, version))
    {
      hide Fields, LittleEndian, PutUvarint;
      ghost var before, f := wb.Contents(), Fields(all);
      ghost var d, v := LittleEndian(days, 2), LittleEndian(version, 4);
      wb.Put(LittleEndian(days, 2));
      wb.WriteBytes(tag);
      wb.WriteBytes(name);
      wb.Put(PutUvarint(count));
      wb.Put(tagsBuf.body[..tagsBuf.used]);
      wb.Put(LittleEndian(version, 4));
      RegroupRow(before, d, Field(tag), Field(name), PutUvarint(count), f, v);
    }

    /** The loop over the rows. */
    method WriteRows(name: bytes, days: uint16, version: uint32, p: Parsed, ignored: set<bytes>)
      requires Valid() && WellParsed(p) && wb.used == 0 && tag1 == RowTags(p, ignored)
      requires tagsBuf.Contents() == Fields(AllTags(p)) && Estimate(|name|, p, ignored) < BUFFER_SIZE
      modifies wb`used, wb.body
      ensures Valid() && wb.Contents() == EncodeTaggedAll(RowsOf(name, days, version, tag1, AllTags(p)))
    {
      hide Fields, EncodeTagged, EncodeTaggedAll, Estimate;
      ghost var rows := RowsOf(name, days, version, tag1, AllTags(p));
      EstimateWithin(|name|, p, ignored);
      NoRows();
      assert rows[..0] == [] && rows[..|rows|] == rows;
      for i := 0 to |tag1|
        invariant Valid() && tagsBuf.Contents() == Fields(AllTags(p))
        invariant wb.Contents() == EncodeTaggedAll(rows[..i])
      {
        assert rows[..i + 1] == rows[..i] + [rows[i]];
        EncodeTaggedAppend(rows[..i], [rows[i]]);
        EncodeTaggedOne(rows[i]);
        EstimateBounds(name, days, version, p, ignored, i + 1);
        WriteRow(days, tag1[i], name, |p.tags| + 1, version, AllTags(p));
      }
    }

    /** `parseName`, whatever the buffers held before. */
    method Parse(name: bytes, days: uint16, version: uint32, ignored: set<bytes>) returns (o: Outcome)
      requires Valid() && |name| < TWO63
      modifies this, names, names.nameBuf, wb, wb.body, tagsBuf, tagsBuf.body
      ensures Valid() && o == OutcomeOf(name, days, version, ignored)
      ensures o.Rows? ==> wb.Contents() == EncodeTaggedAll(o.rows)
    {
      hide ParseName, Fields;
      var p := names.TagsParseToSlice(name);
      if p.IncompleteTags? {
        return Incomplete;
      }
      wb.Reset();
      tagsBuf.Reset();
      ParseNameWell(name);
      ParsedLength(name);
      var sizeTags, ok := CollectTags(|name|, p, ignored);
      if !ok {
        return BufOverflow;
      }
      ghost var l := |Fields(AllTags(p))|;
      EstimateWithin(|name|, p, ignored);
      if tagsBuf.used == BUFFER_SIZE {
        Product(1, |tag1|, tagsBuf.used);
      }
      sizeTags := sizeTags + |tag1| * tagsBuf.used;
      if sizeTags >= wb.FreeSize() {
        return BufOverflow;
      }
      WriteRows(name, days, version, p, ignored);
      return Rows(RowsOf(name, days, version, tag1, AllTags(p)));
    }
  }
}

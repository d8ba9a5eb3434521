/** How long a canonical name can get, so that a validated request always fits a buffer
    (receiver/grpc.go checks the length before the name is printed). */
module GraphiteLength {
  import opened ByteStrings
  import opened Escape
  import opened TaggedNames
  import opened TagSort
  import opened Graphite
  import opened RowBinary

  /** The bytes that a tag takes in `;key=value`. */
  function TagWeight(t: Tag): nat
  {
    |t.key| + |t.value| + 2
  }

  function Weight(tags: seq<Tag>): nat
  {
    if tags == [] then 0 else Weight(tags[..|tags| - 1]) + TagWeight(tags[|tags| - 1])
  }

  lemma {:induction false} WeightConcat(a: seq<Tag>, b: seq<Tag>)
    ensures Weight(a + b) == Weight(a) + Weight(b)
  {
    hide TagWeight;
    if b == [] {
      assert a + b == a;
    } else {
      var n := |b| - 1;
      assert (a + b)[..|a + b| - 1] == a + b[..n] && (a + b)[|a + b| - 1] == b[n];
      WeightConcat(a, b[..n]);
    }
  }

  lemma WeightOne(t: Tag)
    ensures Weight([t]) == TagWeight(t)
  {
    assert [t][..0] == [];
  }

  lemma {:induction false} WeightInsert(t: Tag, s: seq<Tag>)
    ensures Weight(Insert(t, s)) == TagWeight(t) + Weight(s)
  {
    hide TagWeight, Less;
    if s != [] && Less(s[0].key, t.key) {
      WeightInsert(t, s[1..]);
      WeightConcat([s[0]], Insert(t, s[1..]));
      WeightConcat([s[0]], s[1..]);
      assert s == [s[0]] + s[1..];
    } else {
      WeightConcat([t], s);
      WeightOne(t);
    }
  }

  lemma {:induction false} WeightSorted(s: seq<Tag>)
    ensures Weight(StableSort(s)) == Weight(s)
  {
    if s != [] {
      WeightSorted(s[1..]);
      WeightInsert(s[0], StableSort(s[1..]));
      WeightConcat([s[0]], s[1..]);
      WeightOne(s[0]);
      assert s == [s[0]] + s[1..];
    }
  }

  lemma {:induction false} WeightOfRuns(s: seq<Tag>, n: nat)
    requires n <= |s|
    ensures Weight(LastOfRuns(s, n)) <= Weight(s[..n])
  {
    if n > 0 {
      WeightOfRuns(s, n - 1);
      var init := LastOfRuns(s, n - 1);
      hide TagWeight;
      assert s[..n] == s[..n - 1] + [s[n - 1]];
      WeightConcat(s[..n - 1], [s[n - 1]]);
      WeightConcat(init, [s[n - 1]]);
      if n >= 2 {
        WeightConcat(init[..|init| - 1], [s[n - 1]]);
      }
    }
  }

  lemma SegmentWeight(seg: bytes)
    ensures ParseSegment(seg).Ok? ==> TagWeight(ParseSegment(seg).value) == |seg| + 1
  {
  }

  lemma ParseUnfold(s: bytes)
    ensures
      var pos := IndexByte(s, SEMICOLON);
      ParseSegments(s).Ok? ==>
        if pos < 0 then ParseSegment(s).Ok? && ParseSegments(s).value == [ParseSegment(s).value]
        else
          && pos > 0 && ParseSegment(s[..pos]).Ok? && ParseSegments(s[pos + 1..]).Ok?
          && ParseSegments(s).value == [ParseSegment(s[..pos]).value] + ParseSegments(s[pos + 1..]).value
  {
    hide IndexByte, ParseSegment;
  }

  lemma {:induction false} WeightParsed(s: bytes)
    ensures ParseSegments(s).Ok? ==> Weight(ParseSegments(s).value) == |s| + 1
    decreases |s|
  {
    hide *;
    ParseUnfold(s);
    var pos := IndexByte(s, SEMICOLON);
    if ParseSegments(s).Ok? {
      var seg := if pos < 0 then s else s[..pos];
      SegmentWeight(seg);
      WeightOne(ParseSegment(seg).value);
      if pos >= 0 {
        WeightParsed(s[pos + 1..]);
        WeightConcat([ParseSegment(seg).value], ParseSegments(s[pos + 1..]).value);
      }
    }
  }

  lemma EscapedToLength(s: bytes, mode: Mode)
    ensures |EscapedTo(s, mode)| <= 3 * |s|
  {
    EscapedLength(s, mode);
    HexCountBound(s, mode);
    EscapeToAgreesWithEscape(s, mode);
  }

  lemma {:induction false} HexCountBound(s: bytes, mode: Mode)
    ensures HexCount(s, mode) <= |s|
  {
    if s != [] {
      HexCountBound(s[..|s| - 1], mode);
    }
  }

  lemma {:induction false} PrintedTagsLength(tags: seq<Tag>, i: nat)
    requires i <= |tags|
    ensures |PrintTagsTo(tags, i)| <= 3 * Weight(tags[i..])
    decreases |tags| - i
  {
    if i < |tags| {
      PrintedTagsLength(tags, i + 1);
      EscapedToLength(tags[i].key, EncodeQuery);
      EscapedToLength(tags[i].value, EncodeQuery);
      assert tags[i..] == [tags[i]] + tags[i + 1..];
      hide EscapedTo;
      WeightConcat([tags[i]], tags[i + 1..]);
      WeightOne(tags[i]);
    }
  }

  /** Printing at most triples a name. */
  lemma {:induction false} NameLength(s: bytes)
    ensures Name(s).Ok? ==> |Name(s).value| <= 3 * |s| + 1
  {
    var pos := IndexByte(s, SEMICOLON);
    if pos > 0 {
      var rest := s[pos + 1..];
      var parsed := ParseSegments(rest);
      if parsed.Ok? {
        var sorted := StableSort(parsed.value);
        WeightParsed(rest);
        WeightSorted(parsed.value);
        WeightOfRuns(sorted, |sorted|);
        assert sorted[..|sorted|] == sorted;
        var tags := Canonical(parsed.value);
        assert tags[0..] == tags;
        PrintedTagsLength(tags, 0);
        EscapedToLength(s[..pos], EncodePath);
        hide EscapedTo, PrintTagsTo, Canonical, Weight, ParseSegments, IndexByte;
      }
    }
  }

  /** Every name that passes the check, 16384 bytes at most, fits an empty buffer when it is printed. */
  lemma {:induction false} ValidNamesFit(s: bytes)
    requires |s| <= 16384 && Name(s).Ok?
    ensures CanWrite(0, |Name(s).value|)
  {
    NameLength(s);
  }
}

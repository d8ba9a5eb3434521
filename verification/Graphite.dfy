/** Canonical names for tagged Graphite metrics, `name;key=value;key=value` (helper/tags/graphite.go),
    with templates off. */
module Graphite {
  import opened ByteStrings
  import opened Escape
  import opened TaggedNames
  import opened TagSort

  datatype ParseError = NoMetric | EmptySegment | NoEquals

  datatype Result<+T> = Ok(value: T) | Err(error: ParseError)

  /** One `key=value` segment. */
  function ParseSegment(seg: bytes): Result<Tag>
  {
    var kpos := IndexByte(seg, EQUALS);
    if kpos < 1 then Err(NoEquals) else Ok(Tag(seg[..kpos], seg[kpos + 1..]))
  }

  /** The segments after the metric name. */
  function ParseSegments(s: bytes): Result<seq<Tag>>
    decreases |s|
  {
    var pos := IndexByte(s, SEMICOLON);
    if pos == 0 then Err(EmptySegment)
    else
      match ParseSegment(if pos > 0 then s[..pos] else s)
      case Err(e) => Err(e)
      case Ok(tag) => After([tag], if pos < 0 then Ok([]) else ParseSegments(s[pos + 1..]))
  }

  /** The result for the whole, given the tags read so far and the result for the rest. */
  function After(done: seq<Tag>, rest: Result<seq<Tag>>): Result<seq<Tag>>
  {
    match rest
    case Ok(tags) => Ok(done + tags)
    case Err(e) => Err(e)
  }

  lemma AfterNothing(rest: Result<seq<Tag>>)
    ensures After([], rest) == rest
  {
    assert rest.Ok? ==> [] + rest.value == rest.value;
  }

  lemma AfterOneMore(done: seq<Tag>, t: Tag, rest: Result<seq<Tag>>)
    ensures After(done, After([t], rest)) == After(done + [t], rest)
  {
    if rest.Ok? {
      Assoc(done, [t], rest.value);
    }
  }

  lemma AfterNoMore(done: seq<Tag>)
    ensures After(done, Ok([])) == Ok(done)
  {
    assert done + [] == done;
  }

  ghost predicate NonEmptyKeys(s: seq<Tag>)
  {
    forall i | 0 <= i < |s| :: s[i].key != []
  }

  lemma {:induction false} ParsedKeysNonEmpty(s: bytes)
    ensures ParseSegments(s).Ok? ==> NonEmptyKeys(ParseSegments(s).value)
    decreases |s|
  {
    var pos := IndexByte(s, SEMICOLON);
    if pos > 0 {
      ParsedKeysNonEmpty(s[pos + 1..]);
    }
  }

  /** A segment that parses: a key that is not empty and has no `=`, and no `;` anywhere. */
  predicate IsSegment(t: Tag)
  {
    t.key != [] && EQUALS !in t.key && SEMICOLON !in t.key && SEMICOLON !in t.value
  }

  function Segment(t: Tag): bytes
  {
    t.key + [EQUALS] + t.value
  }

  function Joined(tags: seq<Tag>): bytes
    requires tags != []
  {
    if |tags| == 1 then Segment(tags[0]) else Segment(tags[0]) + [SEMICOLON] + Joined(tags[1..])
  }

  lemma SegmentParses(t: Tag)
    requires IsSegment(t)
    ensures ParseSegment(Segment(t)) == Ok(t) && SEMICOLON !in Segment(t) && Segment(t) != []
  {
    var s := Segment(t);
    assert s[|t.key|] == EQUALS && forall i | 0 <= i < |t.key| :: s[i] == t.key[i] && t.key[i] in t.key;
    IndexByteUnique(s, EQUALS, |t.key|);
    assert s[..|t.key|] == t.key && s[|t.key| + 1..] == t.value;
  }

  lemma ParsesAsSegment(s: bytes)
    requires SEMICOLON !in s && ParseSegment(s).Ok?
    ensures IsSegment(ParseSegment(s).value) && Segment(ParseSegment(s).value) == s
  {
    IndexByteFinds(s, EQUALS);
    var k := IndexByte(s, EQUALS);
    assert s == s[..k] + [EQUALS] + s[k + 1..];
  }

  lemma ParseFirst(seg: bytes, rest: bytes)
    requires SEMICOLON !in seg && seg != [] && ParseSegment(seg).Ok?
    ensures ParseSegments(seg) == Ok([ParseSegment(seg).value])
    ensures ParseSegments(seg + [SEMICOLON] + rest) == After([ParseSegment(seg).value], ParseSegments(rest))
  {
    IndexByteNone(seg, SEMICOLON);
    CutAtFirst(seg, SEMICOLON, rest);
    assert [ParseSegment(seg).value] + [] == [ParseSegment(seg).value];
    hide IndexByte, ParseSegment;
  }

  lemma {:induction false} JoinedParses(tags: seq<Tag>)
    requires tags != [] && forall t | t in tags :: IsSegment(t)
    ensures ParseSegments(Joined(tags)) == Ok(tags)
  {
    var t := tags[0];
    assert t in tags && forall u | u in tags[1..] :: u in tags;
    SegmentParses(t);
    assert tags == [t] + tags[1..];
    hide ParseSegment, Segment, IsSegment, IndexByte, ParseSegments;
    if |tags| == 1 {
      ParseFirst(Segment(t), []);
    } else {
      ParseFirst(Segment(t), Joined(tags[1..]));
      JoinedParses(tags[1..]);
    }
  }

  lemma {:induction false} ParsesAsJoined(s: bytes)
    requires ParseSegments(s).Ok?
    ensures
      var tags := ParseSegments(s).value;
      tags != [] && (forall t | t in tags :: IsSegment(t)) && s == Joined(tags)
    decreases |s|
  {
    var pos := IndexByte(s, SEMICOLON);
    IndexByteFinds(s, SEMICOLON);
    hide IndexByte, ParseSegment, Segment, IsSegment;
    if pos < 0 {
      ParsesAsSegment(s);
      assert ParseSegments(s).value == [ParseSegment(s).value];
    } else {
      var rest := s[pos + 1..];
      ParsesAsSegment(s[..pos]);
      ParsesAsJoined(rest);
      var t, more := ParseSegment(s[..pos]).value, ParseSegments(rest).value;
      assert ParseSegments(s).value == [t] + more && ([t] + more)[1..] == more;
      assert s == s[..pos] + [SEMICOLON] + rest;
    }
  }

  /** Which tag parts are accepted, and as what: exactly those that are segments `key=value` put
      together with `;`. */
  lemma {:induction false} SegmentsExactly(s: bytes, tags: seq<Tag>)
    ensures ParseSegments(s) == Ok(tags) <==> tags != [] && (forall t | t in tags :: IsSegment(t)) && s == Joined(tags)
  {
    if ParseSegments(s) == Ok(tags) { ParsesAsJoined(s); }
    if tags != [] && (forall t | t in tags :: IsSegment(t)) && s == Joined(tags) { JoinedParses(tags); }
  }

  /** `name;key=value;...` */
  ghost predicate IsTagged(s: bytes, name: bytes, tags: seq<Tag>)
  {
    && name != [] && SEMICOLON !in name && tags != [] && (forall t | t in tags :: IsSegment(t))
    && s == name + [SEMICOLON] + Joined(tags)
  }

  lemma TaggedParts(s: bytes, name: bytes, tags: seq<Tag>)
    requires IsTagged(s, name, tags)
    ensures Name(s) == Ok(PrintMetricTo(name, Canonical(tags)))
  {
    JoinedParses(tags);
    CutAtFirst(name, SEMICOLON, Joined(tags));
    hide Joined, ParseSegments, Canonical, PrintMetricTo, IndexByte;
  }

  lemma NameOfTagged(s: bytes)
    requires SEMICOLON in s && Name(s).Ok?
    ensures
      var pos := IndexByte(s, SEMICOLON);
      && pos > 0 && ParseSegments(s[pos + 1..]).Ok?
      && SEMICOLON !in s[..pos] && s == s[..pos] + [SEMICOLON] + s[pos + 1..]
  {
    var pos := IndexByte(s, SEMICOLON);
    IndexByteFinds(s, SEMICOLON);
    assert s == s[..pos] + [s[pos]] + s[pos + 1..];
    hide ParseSegments, Canonical, PrintMetricTo, IndexByte;
  }

  lemma PartsOfTagged(s: bytes)
    requires SEMICOLON in s && Name(s).Ok?
    ensures
      var pos := IndexByte(s, SEMICOLON);
      pos > 0 && ParseSegments(s[pos + 1..]).Ok? && IsTagged(s, s[..pos], ParseSegments(s[pos + 1..]).value)
  {
    NameOfTagged(s);
    ParsesAsJoined(s[IndexByte(s, SEMICOLON) + 1..]);
    hide Joined, ParseSegments, Canonical, PrintMetricTo, IndexByte, IsSegment, Name;
  }

  /** What is accepted, and as what: names without a `;` as they are, and names with tags printed with
      these tags in their canonical form; everything else is refused. */
  lemma NameExactly(s: bytes)
    ensures SEMICOLON !in s ==> Name(s) == Ok(s)
    ensures forall name, tags | IsTagged(s, name, tags) :: Name(s) == Ok(PrintMetricTo(name, Canonical(tags)))
    ensures SEMICOLON in s && Name(s).Ok? ==> exists name, tags :: IsTagged(s, name, tags)
  {
    if SEMICOLON !in s { IndexByteNone(s, SEMICOLON); }
    forall name, tags | IsTagged(s, name, tags)
      ensures Name(s) == Ok(PrintMetricTo(name, Canonical(tags)))
    {
      TaggedParts(s, name, tags);
    }
    if SEMICOLON in s && Name(s).Ok? { PartsOfTagged(s); }
    hide Name, IsTagged, PrintMetricTo, Canonical, ParseSegments;
  }

  /** Keeps the last of each run of equal keys among the first `n` tags. */
  function LastOfRuns(s: seq<Tag>, n: nat): (r: seq<Tag>)
    requires n <= |s|
    ensures |r| <= n
    ensures n > 0 ==> r != [] && r[|r| - 1] == s[n - 1]
  {
    if n == 0 then []
    else
      var init := LastOfRuns(s, n - 1);
      (if n >= 2 && s[n - 2].key == s[n - 1].key then init[..|init| - 1] else init) + [s[n - 1]]
  }

  lemma LastOfNone(s: seq<Tag>)
    ensures LastOfRuns(s, 0) == []
  {
  }

  lemma LastOfRunsStep(s: seq<Tag>, i: nat)
    requires i < |s|
    ensures
      var init, r := LastOfRuns(s, i), LastOfRuns(s, i + 1);
      && |r| == |init| + (if i > 0 && s[i - 1].key == s[i].key then 0 else 1)
      && r[|r| - 1] == s[i]
      && forall k | 0 <= k < |r| - 1 :: r[k] == init[k]
  {
  }

  function Canonical(tags: seq<Tag>): seq<Tag>
  {
    var sorted := StableSort(tags);
    LastOfRuns(sorted, |sorted|)
  }

  function PrintTagTo(t: Tag): bytes
  {
    EscapedTo(t.key, EncodeQuery) + [EQUALS] + EscapedTo(t.value, EncodeQuery)
  }

  /** The tags from `i` on, as the printing loop writes them. */
  function PrintTagsTo(tags: seq<Tag>, i: nat): bytes
    decreases |tags| - i
  {
    if i >= |tags| then []
    else (if i > 0 then [AMPERSAND] else []) + PrintTagTo(tags[i]) + PrintTagsTo(tags, i + 1)
  }

  function PrintMetricTo(name: bytes, tags: seq<Tag>): bytes
  {
    EscapedTo(name, EncodePath) + [QUESTION] + PrintTagsTo(tags, 0)
  }

  /** What both implementations compute. */
  function Name(s: bytes): Result<bytes>
  {
    var pos := IndexByte(s, SEMICOLON);
    if pos < 0 then Ok(s)
    else if pos == 0 then Err(NoMetric)
    else
      NameOf(s[..pos], ParseSegments(s[pos + 1..]))
  }

  function NameOf(name: bytes, parsed: Result<seq<Tag>>): Result<bytes>
  {
    match parsed
    case Err(e) => Err(e)
    case Ok(tags) => Ok(PrintMetricTo(name, Canonical(tags)))
  }

  /** The `uniq` loop: compacts the sorted list in place, later tags overwriting earlier ones. */
  method Uniq(sorted: seq<Tag>) returns (arr: seq<Tag>)
    requires NonEmptyKeys(sorted)
    ensures arr == LastOfRuns(sorted, |sorted|)
  {
    LastOfNone(sorted);
    hide LastOfRuns;
    arr := sorted;
    var toDel := 0;
    var prevKey: bytes := [];
    ghost var kept: seq<Tag> := [];
    for i := 0 to |arr|
      invariant |arr| == |sorted| && 0 <= toDel <= i
      invariant i == 0 ==> toDel == 0 && prevKey == []
      invariant i > 0 ==> prevKey == sorted[i - 1].key
      invariant forall k | i <= k < |sorted| :: arr[k] == sorted[k]
      invariant kept == LastOfRuns(sorted, i) && |kept| == i - toDel
      invariant forall k | 0 <= k < |kept| :: arr[k] == kept[k]
    {
      LastOfRunsStep(sorted, i);
      kept := LastOfRuns(sorted, i + 1);
      if arr[i].key == prevKey {
        toDel := toDel + 1;
      } else {
        prevKey := arr[i].key;
      }
      if toDel > 0 {
        arr := arr[i - toDel := arr[i]];
      }
    }
    arr := arr[..|arr| - toDel];
  }

  /** `GraphiteBuf`: a tag list and a builder, reused from call to call. */
  class GraphiteBuf {
    var kv: seq<Tag>
    const b: Builder

    constructor ()
      ensures fresh(b) && kv == []
    {
      kv := [];
      b := new Builder();
    }

    /** `kvParse`: appends one segment after another. */
    method KvParse(path: bytes) returns (r: Result<seq<Tag>>)
      modifies this`kv
      ensures r == ParseSegments(path)
      ensures r.Ok? ==> kv == r.value
    {
      kv := [];
      var s := path;
      AfterNothing(ParseSegments(path));
      while true
        invariant ParseSegments(path) == After(kv, ParseSegments(s))
        decreases |s|
      {
        var seg := s;
        var pos := IndexByte(s, SEMICOLON);
        if pos == 0 {
          return Err(EmptySegment);
        } else if pos > 0 {
          seg := s[..pos];
        }
        var kpos := IndexByte(seg, EQUALS);
        if kpos < 1 {
          assert ParseSegment(seg) == Err(NoEquals);
          return Err(NoEquals);
        }
        var tag := Tag(seg[..kpos], seg[kpos + 1..]);
        assert ParseSegment(seg) == Ok(tag);
        ghost var rest := if pos < 0 then Ok([]) else ParseSegments(s[pos + 1..]);
        assert ParseSegments(s) == After([tag], rest);
        AfterOneMore(kv, tag, rest);
        kv := kv + [tag];
        if pos < 0 {
          AfterNoMore(kv);
          return Ok(kv);
        }
        s := s[pos + 1..];
      }
    }

    /** One round of the printing loop. */
    method PrintAt(i: nat)
      requires i < |kv|
      modifies b
      ensures b.buf == old(b.buf) + ((if i > 0 then [AMPERSAND] else []) + PrintTagTo(kv[i]))
    {
      ghost var k, v := EscapedTo(kv[i].key, EncodeQuery), EscapedTo(kv[i].value, EncodeQuery);
      ghost var sep: bytes := if i > 0 then [AMPERSAND] else [];
      ghost var before := b.buf;
      if i > 0 {
        b.WriteByte(AMPERSAND);
      }
      assert b.buf == before + sep;
      EscapeTo(kv[i].key, EncodeQuery, b);
      b.WriteByte(EQUALS);
      EscapeTo(kv[i].value, EncodeQuery, b);
      AssocFive(before, sep, k, [EQUALS], v);
    }

    /** The printing loop. */
    method PrintTags()
      modifies b
      ensures b.buf == old(b.buf) + PrintTagsTo(kv, 0)
    {
      ghost var head := b.buf;
      ghost var done: bytes := [];
      for i := 0 to |kv|
        invariant b.buf == head + done
        invariant done + PrintTagsTo(kv, i) == PrintTagsTo(kv, 0)
      {
        ghost var piece := (if i > 0 then [AMPERSAND] else []) + PrintTagTo(kv[i]);
        PrintAt(i);
        Assoc(head, done, piece);
        Assoc(done, piece, PrintTagsTo(kv, i + 1));
        done := done + piece;
      }
      assert done + [] == done;
    }

    method Print(name: bytes)
      modifies b
      ensures b.buf == old(b.buf) + PrintMetricTo(name, kv)
    {
      ghost var before := b.buf;
      EscapeTo(name, EncodePath, b);
      b.WriteByte(QUESTION);
      PrintTags();
      ghost var n, t := EscapedTo(name, EncodePath), PrintTagsTo(kv, 0);
      Assoc(before, n, [QUESTION]);
      Assoc(before, n + [QUESTION], t);
    }

    /** Sorting, compacting and printing, for a list just parsed. */
    method Finish(name: bytes) returns (r: bytes)
      requires NonEmptyKeys(kv)
      modifies this`kv, b
      ensures r == PrintMetricTo(name, Canonical(old(kv)))
    {
      b.Reset();
      SortedKeysNonEmpty(kv);
      kv := StableSort(kv);
      kv := Uniq(kv);
      Print(name);
      r := b.buf;
    }
  }

  /** `GraphiteBuffered`: the result does not depend on what the buffer held. */
  method GraphiteBuffered(s: bytes, tagBuf: GraphiteBuf) returns (r: Result<bytes>)
    modifies tagBuf`kv, tagBuf.b
    ensures r == Name(s)
  {
    hide Canonical, PrintMetricTo, ParseSegments, IndexByte;
    var pos := IndexByte(s, SEMICOLON);
    if pos < 0 {
      return Ok(s);
    } else if pos == 0 {
      return Err(NoMetric);
    }
    var name := s[..pos];
    var arr := tagBuf.KvParse(s[pos + 1..]);
    if arr.Err? {
      return Err(arr.error);
    }
    ParsedKeysNonEmpty(s[pos + 1..]);
    var printed := tagBuf.Finish(name);
    return Ok(printed);
  }

  /** `Graphite`: the same with a buffer of its own. */
  method Graphite(s: bytes) returns (r: Result<bytes>)
    ensures r == Name(s)
  {
    var tagBuf := new GraphiteBuf();
    r := GraphiteBuffered(s, tagBuf);
  }

  lemma {:induction false} SortedKeysNonEmpty(s: seq<Tag>)
    requires NonEmptyKeys(s)
    ensures NonEmptyKeys(StableSort(s))
  {
    assert KeyFree(s, []);
    SortKeepsKeyFree(s, []);
  }

  lemma {:induction false} SortKeepsKeyFree(s: seq<Tag>, k: bytes)
    requires KeyFree(s, k)
    ensures KeyFree(StableSort(s), k)
  {
    StableSortStable(s, k);
    WithKeyFree(s, k);
    WithKeyFree(StableSort(s), k);
  }

  lemma {:induction false} WithKeyFree(s: seq<Tag>, k: bytes)
    ensures WithKey(s, k) == [] <==> KeyFree(s, k)
  {
    if s != [] {
      WithKeyFree(s[1..], k);
      assert KeyFree(s, k) <==> s[0].key != k && KeyFree(s[1..], k) by {
        assert forall i | 1 <= i < |s| :: s[i] == s[1..][i - 1];
      }
    }
  }

  /** The first `n` tags as a map: a later value for a key replaces an earlier one. */
  function LastWinsTo(tags: seq<Tag>, n: nat): map<bytes, bytes>
    requires n <= |tags|
  {
    if n == 0 then map[] else LastWinsTo(tags, n - 1)[tags[n - 1].key := tags[n - 1].value]
  }

  function LastWins(tags: seq<Tag>): map<bytes, bytes>
  {
    LastWinsTo(tags, |tags|)
  }

  /** A list that is strictly ascending by key and holds exactly the entries of `m`. */
  ghost predicate Represents(r: seq<Tag>, m: map<bytes, bytes>)
  {
    && StrictlyAscending(r)
    && (forall t | t in r :: t.key in m && m[t.key] == t.value)
    && (forall k | k in m :: Tag(k, m[k]) in r)
  }

  /** What is last among the tags of one key is what the map holds. */
  lemma {:induction false} LastWinsIsLastWithKey(tags: seq<Tag>, n: nat, k: bytes)
    requires n <= |tags|
    ensures
      var w, m := WithKey(tags[..n], k), LastWinsTo(tags, n);
      if w == [] then k !in m else k in m && Tag(k, m[k]) == w[|w| - 1]
  {
    if n > 0 {
      var last := tags[n - 1];
      LastWinsIsLastWithKey(tags, n - 1, k);
      assert tags[..n] == tags[..n - 1] + [last];
      WithKeyAppend(tags[..n - 1], [last], k);
      assert [last][1..] == [];
    }
  }

  lemma {:induction false} WithKeyAppend(a: seq<Tag>, b: seq<Tag>, k: bytes)
    ensures WithKey(a + b, k) == WithKey(a, k) + WithKey(b, k)
  {
    if a == [] {
      assert a + b == b;
    } else {
      assert (a + b)[1..] == a[1..] + b;
      WithKeyAppend(a[1..], b, k);
      Assoc(if a[0].key == k then [a[0]] else [], WithKey(a[1..], k), WithKey(b, k));
    }
  }

  lemma LastWinsSorted(tags: seq<Tag>)
    ensures LastWins(StableSort(tags)) == LastWins(tags)
  {
    forall k
      ensures k in LastWins(StableSort(tags)) <==> k in LastWins(tags)
      ensures k in LastWins(tags) ==> LastWins(StableSort(tags))[k] == LastWins(tags)[k]
    {
      StableSortStable(tags, k);
      var sorted := StableSort(tags);
      LastWinsIsLastWithKey(tags, |tags|, k);
      LastWinsIsLastWithKey(sorted, |sorted|, k);
      assert tags[..|tags|] == tags && sorted[..|sorted|] == sorted;
    }
  }

  /** On a sorted list, keeping the last of each run yields the last-wins map in ascending order. */
  lemma {:induction false} LastOfRunsRepresents(s: seq<Tag>, n: nat)
    requires n <= |s| && Sorted(s)
    ensures Represents(LastOfRuns(s, n), LastWinsTo(s, n))
  {
    if n == 1 {
      LessIrreflexive(s[0].key);
      assert LastOfRuns(s, 0) == [] && LastOfRuns(s, 1) == [s[0]];
    } else if n > 1 {
      hide Represents, Less;
      LastOfRunsRepresents(s, n - 1);
      LessTotal(s[n - 2].key, s[n - 1].key);
      RepresentsExtended(LastOfRuns(s, n - 1), LastWinsTo(s, n - 1), s[n - 1]);
    }
  }

  lemma RepresentsExtended(r: seq<Tag>, m: map<bytes, bytes>, t: Tag)
    requires Represents(r, m) && r != []
    requires r[|r| - 1].key == t.key || Less(r[|r| - 1].key, t.key)
    ensures Represents(if r[|r| - 1].key == t.key then r[..|r| - 1] + [t] else r + [t], m[t.key := t.value])
  {
    var n := |r| - 1;
    var r' := if r[n].key == t.key then r[..n] + [t] else r + [t];
    var m' := m[t.key := t.value];
    LessIrreflexive(t.key);
    forall i | 0 <= i < |r'| - 1
      ensures r'[i] == r[i] && Less(r[i].key, t.key)
    {
      if i < n && r[n].key != t.key {
        LessTransitive(r[i].key, r[n].key, t.key);
      }
    }
    assert StrictlyAscending(r');
    forall k | k in m'
      ensures Tag(k, m'[k]) in r'
    {
      if k == t.key {
        assert r'[|r'| - 1] == t;
      } else {
        var i :| 0 <= i < |r| && r[i] == Tag(k, m[k]);
        assert r'[i] == r[i];
      }
    }
  }

  lemma {:induction false} RepresentationUnique(a: seq<Tag>, b: seq<Tag>)
    requires StrictlyAscending(a) && StrictlyAscending(b)
    requires forall t :: t in a <==> t in b
    ensures a == b
  {
    assert b != [] ==> b[0] in b;
    if a != [] {
      assert a[0] in b && b != [] && b[0] in a;
      AscendingHead(a, b);
      AscendingTail(a);
      AscendingTail(b);
      RepresentationUnique(a[1..], b[1..]);
      assert a == [a[0]] + a[1..] && b == [b[0]] + b[1..];
    }
  }

  lemma AscendingHead(a: seq<Tag>, b: seq<Tag>)
    requires StrictlyAscending(a) && StrictlyAscending(b)
    requires a != [] && b != [] && a[0] in b && b[0] in a
    ensures a[0] == b[0]
  {
    var i :| 0 <= i < |b| && b[i] == a[0];
    var j :| 0 <= j < |a| && a[j] == b[0];
    LessTotal(a[0].key, b[0].key);
  }

  lemma AscendingTail(a: seq<Tag>)
    requires StrictlyAscending(a) && a != []
    ensures forall t :: t in a[1..] <==> t in a && t != a[0]
  {
    LessIrreflexive(a[0].key);
    assert forall i | 1 <= i < |a| :: a[i] == a[1..][i - 1] && Less(a[0].key, a[i].key);
  }

  /** The canonical list is strictly ascending by key and pairs each key with its last value. */
  lemma CanonicalIsLastWins(tags: seq<Tag>)
    ensures Represents(Canonical(tags), LastWins(tags))
  {
    StableSortSorts(tags);
    LastOfRunsRepresents(StableSort(tags), |StableSort(tags)|);
    LastWinsSorted(tags);
  }

  /** Order and repetition of tags do not matter beyond the last-wins map. */
  lemma CanonicalDependsOnLastWins(a: seq<Tag>, b: seq<Tag>)
    ensures Canonical(a) == Canonical(b) <==> LastWins(a) == LastWins(b)
  {
    CanonicalIsLastWins(a);
    CanonicalIsLastWins(b);
    if LastWins(a) == LastWins(b) {
      RepresentationUnique(Canonical(a), Canonical(b));
    }
    if Canonical(a) == Canonical(b) {
      assert forall k | k in LastWins(a) :: Tag(k, LastWins(a)[k]) in Canonical(b);
      assert forall k | k in LastWins(b) :: Tag(k, LastWins(b)[k]) in Canonical(a);
      assert LastWins(a) == LastWins(b);
    }
  }

  /** The canonical name depends on the metric name and the last-wins map only. */
  lemma NameDependsOnLastWins(s: bytes, t: bytes, tagsS: seq<Tag>, tagsT: seq<Tag>)
    requires IndexByte(s, SEMICOLON) > 0 && IndexByte(t, SEMICOLON) == IndexByte(s, SEMICOLON)
    requires s[..IndexByte(s, SEMICOLON)] == t[..IndexByte(s, SEMICOLON)]
    requires ParseSegments(s[IndexByte(s, SEMICOLON) + 1..]) == Ok(tagsS)
    requires ParseSegments(t[IndexByte(t, SEMICOLON) + 1..]) == Ok(tagsT)
    requires LastWins(tagsS) == LastWins(tagsT)
    ensures Name(s) == Name(t)
  {
    CanonicalDependsOnLastWins(tagsS, tagsT);
  }

  lemma EscapedToSubset(s: bytes, mode: Mode)
    ensures forall c | c in EscapedTo(s, mode) :: c in Escaped(s, mode)
  {
    EscapeToAgreesWithEscape(s, mode);
    if LosesLastByte(s, mode) {
      assert Escaped(s, mode) == EscapedTo(s, mode) + [s[|s| - 1]];
    }
  }

  lemma {:induction false} PrintedTagsHaveNoSemicolon(tags: seq<Tag>, i: nat)
    ensures SEMICOLON !in PrintTagsTo(tags, i)
    decreases |tags| - i
  {
    if i < |tags| {
      PrintedTagsHaveNoSemicolon(tags, i + 1);
      EscapedToSubset(tags[i].key, EncodeQuery);
      EscapedToSubset(tags[i].value, EncodeQuery);
      QueryAlphabet(tags[i].key);
      QueryAlphabet(tags[i].value);
      assert SEMICOLON !in PrintTagTo(tags[i]);
    }
  }

  lemma UntaggedName(s: bytes)
    requires SEMICOLON !in s
    ensures Name(s) == Ok(s)
  {
    IndexByteNone(s, SEMICOLON);
  }

  /** A canonical name is its own canonical name. */
  lemma NameIdempotent(s: bytes)
    ensures Name(s).Ok? ==> Name(Name(s).value) == Name(s)
  {
    var pos := IndexByte(s, SEMICOLON);
    IndexByteFinds(s, SEMICOLON);
    if pos < 0 {
      UntaggedName(s);
    } else if pos > 0 && Name(s).Ok? {
      var tags := ParseSegments(s[pos + 1..]).value;
      assert SEMICOLON !in s[..pos];
      PrintedNameHasNoSemicolon(s[..pos], Canonical(tags));
      UntaggedName(Name(s).value);
    }
  }

  lemma PrintedNameHasNoSemicolon(name: bytes, tags: seq<Tag>)
    requires SEMICOLON !in name
    ensures SEMICOLON !in PrintMetricTo(name, tags)
  {
    PrintedTagsHaveNoSemicolon(tags, 0);
    EscapedToSubset(name, EncodePath);
    PathAlphabet(name);
  }

  /** Some part of the printed name ends the way that makes `escapeTo` lose a byte. */
  ghost predicate Lossy(name: bytes, tags: seq<Tag>)
  {
    || LosesLastByte(name, EncodePath)
    || exists i :: 0 <= i < |tags| && LossyTag(tags[i])
  }

  predicate LossyTag(t: Tag)
  {
    LosesLastByte(t.key, EncodeQuery) || LosesLastByte(t.value, EncodeQuery)
  }

  lemma PrintTagToAgrees(t: Tag)
    ensures LossyTag(t) ==> |PrintTagTo(t)| < |PrintTag(t)|
    ensures !LossyTag(t) ==> PrintTagTo(t) == PrintTag(t)
  {
    EscapeToAgreesWithEscape(t.key, EncodeQuery);
    EscapeToAgreesWithEscape(t.value, EncodeQuery);
  }

  lemma {:induction false} PrintTagsToAgrees(tags: seq<Tag>, i: nat)
    requires i <= |tags|
    ensures |PrintTagsTo(tags, i)| <= |PrintTagsFrom(tags, i)|
    ensures (exists k :: i <= k < |tags| && LossyTag(tags[k])) ==> |PrintTagsTo(tags, i)| < |PrintTagsFrom(tags, i)|
    ensures !(exists k :: i <= k < |tags| && LossyTag(tags[k])) ==> PrintTagsTo(tags, i) == PrintTagsFrom(tags, i)
    decreases |tags| - i
  {
    if i < |tags| {
      PrintTagsToAgrees(tags, i + 1);
      PrintTagToAgrees(tags[i]);
      PrintTagsFromStep(tags, i);
    }
  }

  /** The canonical name is the plain printed form exactly when no part of it is lossy. */
  lemma PrintMetricToAgrees(name: bytes, tags: seq<Tag>)
    ensures PrintMetricTo(name, tags) == PrintMetric(name, tags) <==> !Lossy(name, tags)
  {
    EscapeToAgreesWithEscape(name, EncodePath);
    PrintTagsToAgrees(tags, 0);
    assert tags[0..] == tags;
    assert PrintTagsFrom(tags, 0) == PrintTags(tags);
  }

  /** What of a string survives `escapeTo`. */
  function Kept(s: bytes, mode: Mode): bytes
  {
    if LosesLastByte(s, mode) then s[..|s| - 1] else s
  }

  function KeptTag(t: Tag): Tag
  {
    Tag(Kept(t.key, EncodeQuery), Kept(t.value, EncodeQuery))
  }

  function KeptTags(tags: seq<Tag>): seq<Tag>
  {
    seq(|tags|, i requires 0 <= i < |tags| => KeptTag(tags[i]))
  }

  lemma {:induction false} PrintKeptTags(tags: seq<Tag>, i: nat)
    requires i <= |tags|
    ensures PrintTagsTo(tags, i) == PrintTagsFrom(KeptTags(tags), i)
    decreases |tags| - i
  {
    var kept := KeptTags(tags);
    if i < |tags| {
      PrintKeptTags(tags, i + 1);
      PrintTagsFromStep(kept, i);
      assert PrintTagTo(tags[i]) == PrintTag(kept[i]);
    } else {
      PrintTagsFromEnds(kept);
    }
  }

  /** The canonical name is the plain printed form of what survives. */
  lemma PrintKept(name: bytes, tags: seq<Tag>)
    ensures PrintMetricTo(name, tags) == PrintMetric(Kept(name, EncodePath), KeptTags(tags))
  {
    PrintKeptTags(tags, 0);
    PrintTagsFromEnds(KeptTags(tags));
  }

  lemma KeptAll(name: bytes, tags: seq<Tag>)
    ensures SpaceForPlus(Kept(name, EncodePath)) == name <==> PLUS !in name && !LosesLastByte(name, EncodePath)
    ensures PlainTags(KeptTags(tags)) == PlainTags(tags) <==> forall i | 0 <= i < |tags| :: !LossyTag(tags[i])
  {
    SpaceForPlusUnchanged(Kept(name, EncodePath));
    SpaceForPlusLength(Kept(name, EncodePath));
    var kept := KeptTags(tags);
    if PlainTags(kept) == PlainTags(tags) {
      forall i | 0 <= i < |tags|
        ensures !LossyTag(tags[i])
      {
        assert PlainTags(kept)[i] == PlainTag(KeptTag(tags[i])) && PlainTags(tags)[i] == PlainTag(tags[i]);
        assert |PlainTag(KeptTag(tags[i]))| == |PlainTag(tags[i])|;
      }
    }
    if forall i | 0 <= i < |tags| :: !LossyTag(tags[i]) {
      assert kept == tags;
    }
  }

  lemma {:induction false} SpaceForPlusLength(s: bytes)
    ensures |SpaceForPlus(s)| == |s|
  {
    if s != [] { SpaceForPlusLength(s[1..]); }
  }

  /** A point sent as `name;key=value;...` reaches the tagged uploader as what survives `escapeTo`
      of that name, its `+` read as spaces, and of its tags, sorted and last-wins; so it arrives
      unchanged if and only if the name holds no `+` and no part is lossy. */
  lemma {:induction false} GraphiteThenTagged(s: bytes)
    ensures
      var pos := IndexByte(s, SEMICOLON);
      pos > 0 && ParseSegments(s[pos + 1..]).Ok? ==>
        Name(s).Ok? &&
        var name, tags := s[..pos], Canonical(ParseSegments(s[pos + 1..]).value);
        var plain := SpaceForPlus(Kept(name, EncodePath));
        && ParseName(Name(s).value) == Parsed(plain, NAME_LABEL + [EQUALS] + plain, PlainTags(KeptTags(tags)))
        && (ParseName(Name(s).value) == Parsed(name, NAME_LABEL + [EQUALS] + name, PlainTags(tags))
            <==> PLUS !in name && !Lossy(name, tags))
  {
    var pos := IndexByte(s, SEMICOLON);
    if pos > 0 && ParseSegments(s[pos + 1..]).Ok? {
      var name, tags := s[..pos], Canonical(ParseSegments(s[pos + 1..]).value);
      assert Name(s) == Ok(PrintMetricTo(name, tags));
      hide *;
      KeptNotEmpty(name);
      PrintKept(name, tags);
      ParsePrintedMetric(Kept(name, EncodePath), KeptTags(tags));
      KeptAll(name, tags);
      LossyParts(name, tags);
    }
  }

  lemma KeptNotEmpty(name: bytes)
    requires name != []
    ensures Kept(name, EncodePath) != []
  {
  }

  lemma LossyParts(name: bytes, tags: seq<Tag>)
    ensures !Lossy(name, tags) <==>
              !LosesLastByte(name, EncodePath) && forall i | 0 <= i < |tags| :: !LossyTag(tags[i])
  {
  }
}

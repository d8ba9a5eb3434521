/** The printed form of a tagged metric, `name?key=value&key=value`: printing it
    (helper/tags) and taking it apart again (uploader/tagged.go, `tagsParseToSlice`). */
module TaggedNames {
  import opened ByteStrings
  import opened Escape

  /** A tag, a Prometheus label or a Graphite `key=value` segment. */
  datatype Tag = Tag(key: bytes, value: bytes)

  function PrintTag(t: Tag): bytes
  {
    Escaped(t.key, EncodeQuery) + [EQUALS] + Escaped(t.value, EncodeQuery)
  }

  function PrintTags(tags: seq<Tag>): bytes
  {
    if |tags| == 0 then []
    else if |tags| == 1 then PrintTag(tags[0])
    else PrintTag(tags[0]) + [AMPERSAND] + PrintTags(tags[1..])
  }

  /** The tags from `i` on, as a printing loop adds them. */
  function PrintTagsFrom(tags: seq<Tag>, i: nat): bytes
    requires i <= |tags|
  {
    (if 0 < i < |tags| then [AMPERSAND] else []) + PrintTags(tags[i..])
  }

  lemma PrintTagsFromEnds(tags: seq<Tag>)
    ensures PrintTagsFrom(tags, 0) == PrintTags(tags) && PrintTagsFrom(tags, |tags|) == []
  {
    assert tags[0..] == tags;
  }

  lemma PrintTagsFromStep(tags: seq<Tag>, i: nat)
    requires i < |tags|
    ensures PrintTagsFrom(tags, i) ==
            (if i > 0 then [AMPERSAND] else []) + PrintTag(tags[i]) + PrintTagsFrom(tags, i + 1)
  {
    var sep: bytes := if i > 0 then [AMPERSAND] else [];
    assert tags[i..][1..] == tags[i + 1..];
    if i + 1 < |tags| {
      Assoc(PrintTag(tags[i]), [AMPERSAND], PrintTags(tags[i + 1..]));
    } else {
      assert PrintTags(tags[i + 1..]) == [];
    }
    Assoc(sep, PrintTag(tags[i]), PrintTagsFrom(tags, i + 1));
  }

  function PrintMetric(name: bytes, tags: seq<Tag>): bytes
  {
    Escaped(name, EncodePath) + [QUESTION] + PrintTags(tags)
  }

  /** A parsed name: the metric's name, the name as a tag, and each `key=value` decoded. */
  datatype Parsed = Parsed(name: bytes, nameTag: bytes, tags: seq<bytes>) | IncompleteTags

  /** The tag part: from the next `=` on, a tag ends at the next `&`; what follows without any `=`
      is ignored. */
  function ParseTags(args: bytes): seq<bytes>
    decreases |args|
  {
    var delim := IndexByte(args, EQUALS);
    if delim < 0 then []
    else
      var end := IndexByte(args[delim + 1..], AMPERSAND);
      if end < 0 then [Unescaped(args)]
      else [Unescaped(args[..end + delim + 1])] + ParseTags(args[end + delim + 2..])
  }

  function ParseName(path: bytes): Parsed
  {
    var delim := IndexByte(path, QUESTION);
    if delim < 1 then IncompleteTags
    else
      var name := Unescaped(path[..delim]);
      Parsed(name, NAME_LABEL + [EQUALS] + name, ParseTags(path[delim + 1..]))
  }

  /** The reusable part of the parser's state. */
  class NameBuffers {
    const nameBuf: Builder
    var tagsParse: seq<bytes>

    constructor ()
      ensures fresh(nameBuf)
    {
      nameBuf := new Builder();
      tagsParse := [];
    }

    /** `tagsParseToSlice`: whatever the buffers held before. */
    method TagsParseToSlice(path: bytes) returns (r: Parsed)
      modifies this, nameBuf
      ensures r == ParseName(path)
      ensures r.Parsed? ==> tagsParse == r.tags
    {
      var delim := IndexByte(path, QUESTION);
      if delim < 1 {
        return IncompleteTags;
      }
      nameBuf.Reset();
      var name, nameTag := UnescapeNameTo(path[..delim], nameBuf);
      var tags := ParseArgs(path[delim + 1..]);
      return Parsed(name, nameTag, tags);
    }

    /** Its loop over the tag part. */
    method ParseArgs(rest: bytes) returns (tags: seq<bytes>)
      modifies this, nameBuf
      ensures tags == ParseTags(rest) == tagsParse
    {
      hide Unescaped, IndexByte;
      tags := [];
      var args := rest;
      while true
        invariant tags + ParseTags(args) == ParseTags(rest)
        decreases |args|
      {
        var delim := IndexByte(args, EQUALS);
        if delim == -1 {
          break;
        }
        var end := IndexByte(args[delim + 1..], AMPERSAND);
        ghost var more := if end == -1 then [] else ParseTags(args[end + delim + 2..]);
        if end == -1 {
          var t := UnescapeTo(args, nameBuf);
          Assoc(tags, [t], []);
          tags := tags + [t];
          args := [];
          break;
        }
        var t := UnescapeTo(args[..end + delim + 1], nameBuf);
        Assoc(tags, [t], more);
        tags := tags + [t];
        args := args[end + delim + 2..];
      }
      tagsParse := tags;
    }
  }

  function PlainTag(t: Tag): bytes
  {
    t.key + [EQUALS] + t.value
  }

  function PlainTags(tags: seq<Tag>): seq<bytes>
  {
    seq(|tags|, i requires 0 <= i < |tags| => PlainTag(tags[i]))
  }

  lemma UnescapePrintTag(t: Tag)
    ensures Unescaped(PrintTag(t)) == PlainTag(t)
  {
    var v := Escaped(t.value, EncodeQuery);
    Assoc(Escaped(t.key, EncodeQuery), [EQUALS], v);
    UnescapeQuery(t.key, [EQUALS] + v);
    assert ([EQUALS] + v)[1..] == v;
    UnescapeUndoesQuery(t.value);
    Assoc(t.key, [EQUALS], t.value);
  }

  /** In a printed tag the first `=` ends the key, and no `&` follows it. */
  lemma PrintTagShape(t: Tag, rest: bytes)
    ensures IndexByte(PrintTag(t) + rest, EQUALS) == |Escaped(t.key, EncodeQuery)|
    ensures AMPERSAND !in PrintTag(t)
  {
    var k, v := Escaped(t.key, EncodeQuery), Escaped(t.value, EncodeQuery);
    QueryAlphabet(t.key);
    QueryAlphabet(t.value);
    var s := PrintTag(t) + rest;
    assert s[|k|] == EQUALS;
    assert forall i | 0 <= i < |k| :: s[i] == k[i] && k[i] in k;
    IndexByteUnique(s, EQUALS, |k|);
  }

  lemma ParseLastTag(t: Tag)
    ensures ParseTags(PrintTag(t)) == [PlainTag(t)]
  {
    var s := PrintTag(t);
    PrintTagShape(t, []);
    assert s + [] == s;
    UnescapePrintTag(t);
    IndexByteNone(s[|Escaped(t.key, EncodeQuery)| + 1..], AMPERSAND);
  }

  lemma ParseFirstTag(t: Tag, more: bytes)
    ensures ParseTags(PrintTag(t) + [AMPERSAND] + more) == [PlainTag(t)] + ParseTags(more)
  {
    var p := PrintTag(t);
    var s := p + [AMPERSAND] + more;
    var d := |Escaped(t.key, EncodeQuery)|;
    Assoc(p, [AMPERSAND], more);
    PrintTagShape(t, [AMPERSAND] + more);
    var end := |p| - d - 1;
    var v := s[d + 1..];
    assert forall i | 0 <= i < end :: v[i] == p[d + 1 + i];
    IndexByteUnique(v, AMPERSAND, end);
    assert s[..end + d + 1] == p && s[end + d + 2..] == more;
    UnescapePrintTag(t);
  }

  lemma FewTags(tags: seq<Tag>)
    ensures |tags| == 0 ==> ParseTags(PrintTags(tags)) == PlainTags(tags)
    ensures |tags| == 1 ==> PrintTags(tags) == PrintTag(tags[0]) && PlainTags(tags) == [PlainTag(tags[0])]
  {
    hide PrintTag, PlainTag;
    assert ParseTags([]) == [];
  }

  lemma ManyTags(tags: seq<Tag>)
    requires |tags| > 1
    ensures PrintTags(tags) == PrintTag(tags[0]) + [AMPERSAND] + PrintTags(tags[1..])
    ensures PlainTags(tags) == [PlainTag(tags[0])] + PlainTags(tags[1..])
  {
    hide PrintTag, PlainTag;
  }

  /** Parsing the printed tags gives the list back. */
  lemma {:induction false} ParsePrintedTags(tags: seq<Tag>)
    ensures ParseTags(PrintTags(tags)) == PlainTags(tags)
  {
    hide *;
    if |tags| > 1 {
      ManyTags(tags);
      ParseFirstTag(tags[0], PrintTags(tags[1..]));
      ParsePrintedTags(tags[1..]);
    } else {
      FewTags(tags);
      if |tags| == 1 {
        ParseLastTag(tags[0]);
      }
    }
  }

  /** Printing a tagged metric and parsing it gives back exactly the name and the tags, for the
      names that are not empty and hold no `+`, and for no others. */
  lemma ParsePrintedMetric(name: bytes, tags: seq<Tag>)
    ensures ParseName(PrintMetric(name, tags)) == Parsed(name, NAME_LABEL + [EQUALS] + name, PlainTags(tags))
            <==> name != [] && PLUS !in name
    ensures name == [] ==> ParseName(PrintMetric(name, tags)) == IncompleteTags
    ensures name != [] ==>
              var plain := SpaceForPlus(name);
              ParseName(PrintMetric(name, tags)) == Parsed(plain, NAME_LABEL + [EQUALS] + plain, PlainTags(tags))
  {
    var p, q := Escaped(name, EncodePath), PrintTags(tags);
    PathAlphabet(name);
    CutAtFirst(p, QUESTION, q);
    UnescapePath(name);
    SpaceForPlusUnchanged(name);
    ParsePrintedTags(tags);
    hide Escaped, PrintTags, PlainTags, IndexByte, SpaceForPlus, Unescaped, ParseTags;
  }

  /** The printed form of the first tag ends its key at the first `=`, so it shows the whole key. */
  lemma FirstKey(a: Tag, b: Tag, restA: bytes, restB: bytes)
    requires PrintTag(a) + restA == PrintTag(b) + restB
    ensures a.key == b.key
  {
    PrintTagShape(a, restA);
    PrintTagShape(b, restB);
    var d := |Escaped(a.key, EncodeQuery)|;
    assert (PrintTag(a) + restA)[..d] == Escaped(a.key, EncodeQuery);
    assert (PrintTag(b) + restB)[..d] == Escaped(b.key, EncodeQuery);
    UnescapeUndoesQuery(a.key);
    UnescapeUndoesQuery(b.key);
  }

  lemma SameTag(a: Tag, b: Tag)
    requires a.key == b.key && PlainTag(a) == PlainTag(b)
    ensures a == b
  {
    assert a.value == PlainTag(a)[|a.key| + 1..] && b.value == PlainTag(b)[|b.key| + 1..];
  }

  lemma PrintTagsFirst(tags: seq<Tag>)
    requires tags != []
    ensures PrintTags(tags) ==
            PrintTag(tags[0]) + (if |tags| == 1 then [] else [AMPERSAND] + PrintTags(tags[1..]))
  {
    hide PrintTags, PrintTag, PlainTags, PlainTag;
    if |tags| == 1 {
      FewTags(tags);
      assert PrintTag(tags[0]) + [] == PrintTag(tags[0]);
    } else {
      ManyTags(tags);
      Assoc(PrintTag(tags[0]), [AMPERSAND], PrintTags(tags[1..]));
    }
  }

  lemma SameRest(p: bytes, restA: bytes, restB: bytes)
    requires p + restA == p + restB
    ensures restA == restB
  {
    assert (p + restA)[|p|..] == restA && (p + restB)[|p|..] == restB;
  }

  /** Two printed tag lists are the same only if the lists are. */
  lemma {:induction false} PrintTagsInjective(a: seq<Tag>, b: seq<Tag>)
    requires PrintTags(a) == PrintTags(b)
    ensures a == b
  {
    ParsePrintedTags(a);
    ParsePrintedTags(b);
    assert |PlainTags(a)| == |a| && |PlainTags(b)| == |b|;
    hide PrintTags, PlainTags, PrintTag;
    if a != [] {
      PrintTagsFirst(a);
      PrintTagsFirst(b);
      var restA: bytes := if |a| == 1 then [] else [AMPERSAND] + PrintTags(a[1..]);
      var restB: bytes := if |b| == 1 then [] else [AMPERSAND] + PrintTags(b[1..]);
      FirstKey(a[0], b[0], restA, restB);
      assert PlainTag(a[0]) == PlainTags(a)[0] == PlainTags(b)[0] == PlainTag(b[0]);
      SameTag(a[0], b[0]);
      SameRest(PrintTag(a[0]), restA, restB);
      if |a| > 1 {
        SameRest([AMPERSAND], PrintTags(a[1..]), PrintTags(b[1..]));
        PrintTagsInjective(a[1..], b[1..]);
      }
      assert a == [a[0]] + a[1..] && b == [b[0]] + b[1..];
    }
  }
}

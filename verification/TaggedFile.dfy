/** A whole file of names for the tagged table (uploader/tagged.go, `parseFile`), and its place
    behind the cache. */
module TaggedFile {
  import opened ByteStrings
  import opened Varint
  import opened TaggedNames
  import opened TableRows
  import opened SeriesKeys
  import opened TaggedUploader
  import opened CachedUpload

  /** A record of the file, and what the cache answered about its key. */
  datatype Entry = Entry(name: bytes, days: uint16, cached: bool)

  datatype Progress = Progress(newTagged: set<bytes>, rows: seq<TaggedRow>, n: nat)

  const START := Progress({}, [], 0)

  datatype Setup = Setup(version: uint32, ignored: set<bytes>)

  predicate Skipped(p: Progress, e: Entry)
  {
    QUESTION !in e.name || e.cached || Key(e.days, e.name) in p.newTagged
  }

  /** The rows of one name, none after an error. */
  function RowsFor(c: Setup, name: bytes, days: uint16): seq<TaggedRow>
  {
    var o := OutcomeOf(name, days, c.version, c.ignored);
    if o.Rows? then o.rows else []
  }

  /** A name is marked as done only when its rows have been written. */
  function Next(c: Setup, p: Progress, e: Entry): Progress
  {
    if Skipped(p, e) then p
    else
      var o := OutcomeOf(e.name, e.days, c.version, c.ignored);
      Progress(p.newTagged + (if o.Rows? then {Key(e.days, e.name)} else {}),
               p.rows + RowsFor(c, e.name, e.days), p.n + 1)
  }

  function Run(c: Setup, p: Progress, entries: seq<Entry>): Progress
    decreases |entries|
  {
    if entries == [] then p else Run(c, Next(c, p, entries[0]), entries[1..])
  }

  /** `parseFile`: the bytes written, the keys to remember, and how many names were parsed. */
  method ParseFile(c: Setup, entries: seq<Entry>) returns (out: bytes, newTagged: set<bytes>, n: nat)
    requires forall e | e in entries :: |e.name| < TWO63
    ensures
      var p := Run(c, START, entries);
      out == EncodeTaggedAll(p.rows) && newTagged == p.newTagged && n == p.n
  {
    hide OutcomeOf, EncodeTaggedAll, Key;
    var buffers := new TagsBuffers();
    out, newTagged, n := [], {}, 0;
    ghost var p := START;
    NoRows();
    assert entries[0..] == entries;
    for i := 0 to |entries|
      invariant buffers.Valid() && fresh(buffers) && fresh(buffers.wb) && fresh(buffers.wb.body)
      invariant fresh(buffers.tagsBuf) && fresh(buffers.tagsBuf.body) && fresh(buffers.names)
          && fresh(buffers.names.nameBuf)
      invariant p.newTagged == newTagged && out == EncodeTaggedAll(p.rows) && n == p.n
      invariant Run(c, p, entries[i..]) == Run(c, START, entries)
    {
      var e := entries[i];
      assert e in entries && entries[i..][0] == e && entries[i..][1..] == entries[i + 1..];
      if QUESTION in e.name && !e.cached && Key(e.days, e.name) !in newTagged {
        n := n + 1;
        var o := buffers.Parse(e.name, e.days, c.version, c.ignored);
        EncodeTaggedAppend(p.rows, RowsFor(c, e.name, e.days));
        if o.Rows? {
          out := out + buffers.wb.body[..buffers.wb.used];
          newTagged := newTagged + {Key(e.days, e.name)};
        } else {
          assert p.rows + RowsFor(c, e.name, e.days) == p.rows;
        }
        p := Next(c, p, e);
      }
    }
    assert entries[|entries|..] == [];
  }

  /* ---- behind the cache ---- */

  /** Rows as a set, without their versions. */
  ghost function Plain(rows: seq<TaggedRow>): set<TaggedRow>
  {
    set r | r in rows :: r.(version := 0)
  }

  ghost predicate IsKey(key: bytes)
  {
    exists d: uint16, n: bytes :: key == Key(d, n)
  }

  /** What a key's name stands for in the table. */
  ghost function RowsOfKey(ignored: set<bytes>, key: bytes): set<TaggedRow>
  {
    if !IsKey(key) then {}
    else
      var d: uint16, n: bytes :| key == Key(d, n);
      Plain(RowsFor(Setup(0, ignored), n, d))
  }

  /** Files read at other times get other versions, and else the same rows. */
  lemma PlainRowsFor(c: Setup, name: bytes, days: uint16)
    ensures Plain(RowsFor(c, name, days)) == Plain(RowsFor(Setup(0, c.ignored), name, days))
  {
    var a, b := RowsFor(c, name, days), RowsFor(Setup(0, c.ignored), name, days);
    hide ParseName, Estimate, Fields;
    assert |a| == |b| && forall i | 0 <= i < |a| :: a[i].(version := 0) == b[i].(version := 0);
    forall r | r in Plain(a)
      ensures r in Plain(b)
    {
      var i :| 0 <= i < |a| && r == a[i].(version := 0);
      assert b[i] in b;
    }
    forall r | r in Plain(b)
      ensures r in Plain(a)
    {
      var i :| 0 <= i < |b| && r == b[i].(version := 0);
      assert a[i] in a;
    }
  }

  lemma RowsOfOwnKey(c: Setup, name: bytes, days: uint16)
    ensures RowsOfKey(c.ignored, Key(days, name)) == Plain(RowsFor(c, name, days))
  {
    var key := Key(days, name);
    assert IsKey(key);
    var d: uint16, n: bytes :| key == Key(d, n)
        && RowsOfKey(c.ignored, key) == Plain(RowsFor(Setup(0, c.ignored), n, d));
    KeyInjective(days, name, d, n);
    PlainRowsFor(c, name, days);
  }

  /** A name without tags has no rows. */
  lemma UntaggedHasNone(c: Setup, name: bytes, days: uint16)
    requires QUESTION !in name
    ensures RowsFor(c, name, days) == []
  {
    IndexByteNone(name, QUESTION);
  }

  ghost function RowsByKey(ignored: set<bytes>): Rows<TaggedRow>
  {
    key => RowsOfKey(ignored, key)
  }

  /** Each record read is a parsing step of the cached upload: what is written are all of the name's
      rows, and what is marked has been written. */
  lemma {:induction false} NextParses(c: Setup, p: Progress, e: Entry, s: State<TaggedRow>, job: Job<TaggedRow>)
    requires job.Parsing? && job.next < |job.records| && job.records[job.next] == Key(e.days, e.name)
    requires e.cached == (Key(e.days, e.name) in s.cache) && job.newKeys == p.newTagged
    ensures
      var p' := Next(c, p, e);
      var mark, added := p'.newTagged != p.newTagged, p'.rows[|p.rows|..];
      && p.rows <= p'.rows && p'.newTagged == job.newKeys + (if mark then {Key(e.days, e.name)} else {})
      && Parses(RowsByKey(c.ignored), s, job, mark, Plain(added))
  {
    RowsOfOwnKey(c, e.name, e.days);
    var p' := Next(c, p, e);
    if Skipped(p, e) {
      assert p'.rows[|p.rows|..] == [];
      if QUESTION !in e.name {
        UntaggedHasNone(c, e.name, e.days);
      }
    } else {
      assert p'.rows[|p.rows|..] == RowsFor(c, e.name, e.days);
    }
  }

  /** One record as the parser reads it, after what the other workers do before. */
  ghost function ReadOf(c: Setup, p: Progress, e: Entry, before: seq<Step<TaggedRow>>): Read<TaggedRow>
  {
    var p' := Next(c, p, e);
    var added := if p.rows <= p'.rows then p'.rows[|p.rows|..] else [];
    Read.Read(before, Key(e.days, e.name), e.cached, p'.newTagged != p.newTagged, Plain(added))
  }

  ghost function Reads(c: Setup, p: Progress, entries: seq<Entry>,
      before: seq<seq<Step<TaggedRow>>>): seq<Read<TaggedRow>>
    requires |before| == |entries|
    decreases |entries|
  {
    if entries == [] then []
    else [ReadOf(c, p, entries[0], before[0])] + Reads(c, Next(c, p, entries[0]), entries[1..], before[1..])
  }

  function KeysOf(entries: seq<Entry>): seq<bytes>
  {
    if entries == [] then [] else [Key(entries[0].days, entries[0].name)] + KeysOf(entries[1..])
  }

  lemma PlainConcat(a: seq<TaggedRow>, b: seq<TaggedRow>)
    ensures Plain(a + b) == Plain(a) + Plain(b)
  {
  }

  lemma NextAllowed(c: Setup, p: Progress, e: Entry, before: seq<Step<TaggedRow>>)
    ensures
      var p', r := Next(c, p, e), ReadOf(c, p, e, before);
      && p'.newTagged == p.newTagged + (if r.mark then {r.key} else {}) && Plain(p'.rows) == Plain(p.rows) + r.added
      && Allowed(RowsByKey(c.ignored), r.key, r.cached, p.newTagged, Plain(p.rows), r.mark, r.added)
  {
    var key, p' := Key(e.days, e.name), Next(c, p, e);
    var s := State(if e.cached then {key} else {}, {}, map[], []);
    NextParses(c, p, e, s, Parsing([key], 0, p.newTagged, Plain(p.rows)));
    hide Next, Plain, Key, RowsOfKey;
    PlainConcat(p.rows, p'.rows[|p.rows|..]);
    assert p'.rows == p.rows + p'.rows[|p.rows|..];
  }

  /** The parser is allowed every step, whatever the cache answers; it marks the keys and writes the
      rows of the run over the file. */
  lemma {:induction false} ReadsAllowed(c: Setup, p: Progress, entries: seq<Entry>, before: seq<seq<Step<TaggedRow>>>)
    requires |before| == |entries|
    ensures
      var file, end := Reads(c, p, entries, before), Run(c, p, entries);
      && AllAllowed(RowsByKey(c.ignored), p.newTagged, Plain(p.rows), file)
      && end.newTagged == p.newTagged + MarkedBy(file) && Plain(end.rows) == Plain(p.rows) + AddedBy(file)
      && Keys(file) == KeysOf(entries)
    decreases |entries|
  {
    hide Next, Plain, Key, Allowed, RowsByKey, AllAllowed, MarkedBy, AddedBy, Keys, ReadOf;
    if entries == [] {
      NothingRead(RowsByKey(c.ignored), p.newTagged, Plain(p.rows));
    } else {
      var e, p', rest := entries[0], Next(c, p, entries[0]),
          Reads(c, Next(c, p, entries[0]), entries[1..], before[1..]);
      var r := ReadOf(c, p, e, before[0]);
      NextAllowed(c, p, e, before[0]);
      ReadsAllowed(c, p', entries[1..], before[1..]);
      FirstRead(RowsByKey(c.ignored), p.newTagged, Plain(p.rows), r, rest);
      KeyOfRead(c, p, e, before[0]);
    }
  }

  lemma KeyOfRead(c: Setup, p: Progress, e: Entry, before: seq<Step<TaggedRow>>)
    ensures ReadOf(c, p, e, before).key == Key(e.days, e.name)
  {
  }

  /** A whole file of tagged names, read by a worker at any time and beside any others: when its rows
      have been inserted the worker goes on to remember exactly the keys that the parser marked, and
      the table holds what it would hold without a cache. */
  lemma FileAgreesWithoutCache(
    c: Setup, s0: State<TaggedRow>, first: seq<Step<TaggedRow>>, w: nat, entries: seq<Entry>,
    before: seq<seq<Step<TaggedRow>>>)
    requires |before| == |entries|
    requires ReadAfter(RowsByKey(c.ignored), s0, first, w, Reads(c, START, entries, before))
    ensures
      var steps := first + FileSteps(w, Reads(c, START, entries, before));
      AgreesAfter(RowsByKey(c.ignored), s0, steps, w, KeysOf(entries), Run(c, START, entries).newTagged)
  {
    var rows, file := RowsByKey(c.ignored), Reads(c, START, entries, before);
    assert START.newTagged == {} && Plain(START.rows) == {};
    hide *;
    ReadsAllowed(c, START, entries, before);
    assert {} + MarkedBy(file) == MarkedBy(file);
    FileAgrees(rows, s0, first, w, file);
  }

  /** Each key marked is a name counted. */
  lemma {:induction false} MarksAreCounted(c: Setup, p: Progress, entries: seq<Entry>)
    ensures
      var end := Run(c, p, entries);
      && p.newTagged <= end.newTagged
      && end.n - p.n >= |end.newTagged| - |p.newTagged|
    decreases |entries|
  {
    if entries != [] {
      var p', key := Next(c, p, entries[0]), Key(entries[0].days, entries[0].name);
      assert p'.newTagged == p.newTagged || (key !in p.newTagged && p'.newTagged == p.newTagged + {key});
      MarksAreCounted(c, p', entries[1..]);
      hide OutcomeOf, Key;
    }
  }

  /** A name that has tags, was not met before and raises no error is counted, marked and written; one
      that raises an error is counted alone. */
  lemma ReadName(c: Setup, p: Progress, e: Entry)
    requires QUESTION in e.name && !e.cached && Key(e.days, e.name) !in p.newTagged
    ensures
      var p', o := Next(c, p, e), OutcomeOf(e.name, e.days, c.version, c.ignored);
      && p'.n == p.n + 1
      && (o.Rows? ==> p'.newTagged == p.newTagged + {Key(e.days, e.name)} && p'.rows == p.rows + o.rows)
      && (!o.Rows? ==> p'.newTagged == p.newTagged && p'.rows == p.rows)
  {
    assert p.rows + [] == p.rows;
    hide OutcomeOf, Key;
  }
}

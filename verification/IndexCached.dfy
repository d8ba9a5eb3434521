/** The index uploader behind the cache. */
module IndexCached {
  import opened ByteStrings
  import opened Varint
  import opened DottedPath
  import opened RowBinary
  import opened TableRows
  import opened SeriesKeys
  import opened IndexUploader
  import opened IndexFile
  import CachedUpload

  /** Rows as a set, without their versions. */
  ghost function Plain(rows: seq<IndexRow>): set<IndexRow>
  {
    set r | r in rows :: r.(version := 0)
  }

  /** All rows of a name, with those of all of its prefixes. */
  function RowsFor(c: Config, name: bytes, days: uint16): seq<IndexRow>
  {
    if QUESTION in name then [] else RowsOf(c, name, days, Ancestors(name))
  }

  ghost predicate IsKey(key: bytes)
  {
    exists d: uint16, n: bytes :: key == Key(d, n)
  }

  ghost function RowsOfKey(c: Config, key: bytes): set<IndexRow>
  {
    if !IsKey(key) then {}
    else
      var d: uint16, n: bytes :| key == Key(d, n);
      Plain(RowsFor(c, n, d))
  }

  lemma SamePlain(a: seq<IndexRow>, b: seq<IndexRow>)
    requires |a| == |b| && forall i | 0 <= i < |a| :: a[i].(version := 0) == b[i].(version := 0)
    ensures Plain(a) == Plain(b)
  {
    forall r | r in Plain(a)
      ensures r in Plain(b)
    {
      var i :| 0 <= i < |a| && r == a[i].(version := 0);
      assert b[i] in b;
    }
    forall r | r in Plain(b)
      ensures r in Plain(a)
    {
      var i :| 0 <= i < |b| && r == b[i].(version := 0);
      assert a[i] in a;
    }
  }

  lemma PlainConcat(a: seq<IndexRow>, b: seq<IndexRow>)
    ensures Plain(a + b) == Plain(a) + Plain(b)
  {
  }

  lemma PlainRowsOf(c: Config, name: bytes, days: uint16, segments: seq<bytes>)
    ensures Plain(RowsOf(c, name, days, segments)) == Plain(RowsOf(c.(version := 0), name, days, segments))
  {
    hide Dots, Level;
    SamePlain(RowsOf(c, name, days, segments), RowsOf(c.(version := 0), name, days, segments));
  }

  /** Files read at other times get other versions, and else the same rows. */
  lemma RowsOfOwnKey(c: Config, name: bytes, days: uint16)
    ensures RowsOfKey(c.(version := 0), Key(days, name)) == Plain(RowsFor(c, name, days))
  {
    var key, c0 := Key(days, name), c.(version := 0);
    PlainRowsOf(c, name, days, Ancestors(name));
    hide RowsOf, Ancestors, Plain;
    assert IsKey(key);
    var d: uint16, n: bytes :| key == Key(d, n) && RowsOfKey(c0, key) == Plain(RowsFor(c0, n, d));
    KeyInjective(days, name, d, n);
    assert n == name && d == days;
    assert Plain(RowsFor(c0, name, days)) == Plain(RowsFor(c, name, days));
  }

  /* ---- which rows are there ---- */

  predicate IsDayRow(r: IndexRow)
  {
    r.level == Level(Dots(r.path) + 1, 0)
  }

  predicate IsTreeRow(r: IndexRow)
  {
    r.level == Level(Dots(r.path) + 1, TREE_LEVEL_OFFSET)
  }

  function ReversedRow(c: Config, name: bytes): IndexRow
  {
    IndexRow(c.treeDate, Level(Dots(name) + 1, REVERSE_TREE_LEVEL_OFFSET), ReversePath(name), c.version)
  }

  /** A row of the day is there only for a key that is marked, and a leaf row only, and always, with
      the reversed row of a name that is stored. */
  ghost predicate Named(c: Config, s: State)
  {
    && (forall r | r in s.rows ::
          && r.version == c.version
          && (IsDayRow(r) ==> Key(r.days, r.path) in s.newSeries) && (IsTreeRow(r) ==> r.path in s.stored))
    && (forall n | n in s.stored :: TreeRow(c, n) in s.rows && ReversedRow(c, n) in s.rows)
  }

  /** The levels tell the rows of a name apart. */
  lemma KindOf(c: Config, r: IndexRow, d: nat, offset: nat)
    requires Dots(r.path) == d && offset < TWO32 - 1 && r.level == Level(d + 1, offset)
    ensures IsDayRow(r) <==> offset == 0
    ensures IsTreeRow(r) <==> offset == TREE_LEVEL_OFFSET
  {
    if offset != 0 { LevelsDiffer(d + 1, offset, 0); }
    if offset != TREE_LEVEL_OFFSET { LevelsDiffer(d + 1, offset, TREE_LEVEL_OFFSET); }
  }

  lemma PrefixKind(c: Config, a: bytes)
    ensures !IsDayRow(PrefixRow(c, a)) && !IsTreeRow(PrefixRow(c, a))
  {
    LevelsDiffer(Dots(a), TREE_LEVEL_OFFSET, 1);
    LevelsDiffer(Dots(a), TREE_LEVEL_OFFSET, TREE_LEVEL_OFFSET + 1);
  }

  lemma RowKinds(c: Config, name: bytes, days: uint16, segments: seq<bytes>)
    ensures forall r | r in RowsOf(c, name, days, segments) ::
              && r.version == c.version
              && (IsDayRow(r) ==> r.days == days && r.path == name) && (IsTreeRow(r) ==> r.path == name)
  {
    var d, reversed, last := Dots(name), ReversePath(name), LastRows(c, name, days);
    ReversePathMembers(name);
    assert Dots(reversed) == d;
    forall i | 0 <= i < |segments|
      ensures !IsDayRow(PrefixRow(c, segments[i])) && !IsTreeRow(PrefixRow(c, segments[i]))
    {
      PrefixKind(c, segments[i]);
    }
    KindOf(c, last[0], d, REVERSE_TREE_LEVEL_OFFSET);
    if !c.disableDaily { KindOf(c, last[2], d, REVERSE_LEVEL_OFFSET); }
    hide Dots, ReversePath, Level, IsDayRow, IsTreeRow;
  }

  lemma StepNames(c: Config, s: State, e: Entry)
    requires Named(c, s) && Step(c, s, e).Some?
    ensures Named(c, Step(c, s, e).value)
  {
    var s' := Step(c, s, e).value;
    if Stores(c, s, e) {
      var segments := ParseOne(c, s, e).segments;
      RowKinds(c, e.name, e.days, segments);
      OwnRows(c, e.name, e.days, segments);
      hide RowsOf, IsDayRow, IsTreeRow, TreeRow, ReversedRow, OutcomeOf, Key, UsedAfter;
      assert s'.rows == s.rows + RowsOf(c, e.name, e.days, segments);
    } else {
      hide RowsOf, IsDayRow, IsTreeRow, TreeRow, ReversedRow, OutcomeOf, Key, UsedAfter;
      assert s'.rows == s.rows && s'.stored == s.stored && s.newSeries <= s'.newSeries;
    }
  }

  lemma OwnRows(c: Config, name: bytes, days: uint16, segments: seq<bytes>)
    ensures
      var rows := RowsOf(c, name, days, segments);
      && TreeRow(c, name) in rows && ReversedRow(c, name) in rows
      && (!c.disableDaily ==> IndexRow(days, Level(Dots(name) + 1, 0), name, c.version) in rows)
      && (forall a | a in segments :: PrefixRow(c, a) in rows)
  {
    var rows, prefixes := RowsOf(c, name, days, segments), PrefixRows(c, segments);
    hide Level, Dots, PrefixRow, ReversePath;
    assert rows[0] == TreeRow(c, name);
    assert rows[1 + |segments|] == ReversedRow(c, name);
    if !c.disableDaily { assert rows[2 + |segments|] == LastRows(c, name, days)[1]; }
    forall a | a in segments
      ensures PrefixRow(c, a) in rows
    {
      var i :| 0 <= i < |segments| && segments[i] == a;
      assert rows[1 + i] == prefixes[i];
    }
  }

  /** The rows of the prefixes that the climb leaves out are in the file already. */
  lemma WrittenRows(c: Config, s: State, e: Entry)
    requires Recorded(c, s) && Covered(c, s) && Sound(c, s, e.name) && Stores(c, s, e)
    ensures
      var rows := RowsOf(c, e.name, e.days, ParseOne(c, s, e).segments);
      Plain(rows) <= Plain(RowsFor(c, e.name, e.days)) <= Plain(s.rows) + Plain(rows)
  {
    var name, segments, all := e.name, ParseOne(c, s, e).segments, Ancestors(e.name);
    StepChanges(c, s, e);
    StoredIsCovered(c, s, e);
    var first, last := [TreeRow(c, name)], LastRows(c, name, e.days);
    hide Ancestors, LastRows, TreeRow, PrefixRow, Plain, IsDotPrefix, PrefixPaths, ParseOne, Step;
    PlainConcat(first + PrefixRows(c, segments), last);
    PlainConcat(first, PrefixRows(c, segments));
    PlainConcat(first + PrefixRows(c, all), last);
    PlainConcat(first, PrefixRows(c, all));
    forall a | a in segments
      ensures a in all
    {
      AncestorsArePrefixes(name, a);
    }
    forall a | a in all
      ensures a in segments || PrefixRow(c, a) in s.rows
    {
      AncestorsArePrefixes(name, a);
      PrefixPathsMember(c, s.rows, a);
    }
    PrefixesCovered(c, segments, all, []);
    PrefixesCovered(c, all, segments, s.rows);
  }

  lemma PrefixesCovered(c: Config, a: seq<bytes>, b: seq<bytes>, rows: seq<IndexRow>)
    requires forall x | x in a :: x in b || PrefixRow(c, x) in rows
    ensures Plain(PrefixRows(c, a)) <= Plain(rows) + Plain(PrefixRows(c, b))
  {
    hide PrefixRow;
    forall r | r in Plain(PrefixRows(c, a))
      ensures r in Plain(rows) + Plain(PrefixRows(c, b))
    {
      var i :| 0 <= i < |a| && r == PrefixRow(c, a[i]).(version := 0);
      assert a[i] in a;
      if a[i] in b {
        var j :| 0 <= j < |b| && b[j] == a[i];
        assert PrefixRows(c, b)[j] == PrefixRow(c, a[i]);
      }
    }
  }

  lemma InPlain(c: Config, rows: seq<IndexRow>, r: IndexRow)
    requires r.version == c.version && forall x | x in rows :: x.version == c.version
    ensures r.(version := 0) in Plain(rows) <==> r in rows
  {
    if r.(version := 0) in Plain(rows) {
      var x :| x in rows && x.(version := 0) == r.(version := 0);
      assert x == r;
    }
  }

  /** Without the row of a lost prefix the name's rows are not complete. */
  lemma LostRowMissing(c: Config, s: State, e: Entry, a: bytes)
    requires Named(c, s) && Stores(c, s, e) && IsDotPrefix(a, e.name) && Lost(c, s, a)
    ensures
      var added := RowsOf(c, e.name, e.days, ParseOne(c, s, e).segments);
      !(Plain(RowsFor(c, e.name, e.days)) <= Plain(s.rows) + Plain(added))
  {
    var segments, all := ParseOne(c, s, e).segments, Ancestors(e.name);
    var added, whole, r := RowsOf(c, e.name, e.days, segments), RowsOf(c, e.name, e.days, all), PrefixRow(c, a);
    assert r.version == c.version && a !in segments by { StepChanges(c, s, e); }
    AncestorsArePrefixes(e.name, a);
    OwnRows(c, e.name, e.days, all);
    RowKinds(c, e.name, e.days, segments);
    RowsOfPaths(c, e.name, e.days, segments);
    hide Ancestors, RowsOf, PrefixRow, Plain, IsDotPrefix, PrefixPaths, ParseOne, Step, IsDayRow, IsTreeRow, TreeRow,
         ReversedRow;
    PrefixPathsMember(c, s.rows, a);
    PrefixPathsMember(c, added, a);
    InPlain(c, s.rows, r);
    InPlain(c, added, r);
    VersionsDropped(whole, r);
  }

  lemma VersionsDropped(rows: seq<IndexRow>, r: IndexRow)
    requires r in rows
    ensures r.(version := 0) in Plain(rows)
  {
  }

  /** After an overflow the name's rows are in the file only if the name was stored for another day
      and there are no rows for the day. */
  lemma OverflowedRows(c: Config, s: State, e: Entry)
    requires Recorded(c, s) && Covered(c, s) && Named(c, s) && Overflows(c, s, e)
    ensures Plain(RowsFor(c, e.name, e.days)) <= Plain(s.rows) <==> c.disableDaily && e.name in s.stored
  {
    var name, all := e.name, Ancestors(e.name);
    var whole := RowsOf(c, name, e.days, all);
    var day := IndexRow(e.days, Level(Dots(name) + 1, 0), name, c.version);
    assert IsTreeRow(TreeRow(c, name)) && IsDayRow(day) && day.path == TreeRow(c, name).path == name;
    assert TreeRow(c, name).version == c.version && Key(e.days, name) !in s.newSeries;
    OwnRows(c, name, e.days, all);
    if c.disableDaily && name in s.stored {
      StoredRows(c, s, name, e.days);
    }
    hide Ancestors, RowsOf, Plain, PrefixPaths, IsDayRow, IsTreeRow, TreeRow, ReversedRow, Level, Dots, Key, OutcomeOf;
    VersionsDropped(whole, TreeRow(c, name));
    InPlain(c, s.rows, TreeRow(c, name));
    if !c.disableDaily {
      VersionsDropped(whole, day);
      InPlain(c, s.rows, day);
    }
  }

  lemma StoredRows(c: Config, s: State, name: bytes, days: uint16)
    requires Covered(c, s) && Named(c, s) && c.disableDaily && name in s.stored
    ensures Plain(RowsFor(c, name, days)) <= Plain(s.rows)
  {
    var all := Ancestors(name);
    var rows := RowsOf(c, name, days, all);
    forall r | r in rows
      ensures r in s.rows
    {
      var i :| 0 <= i < |rows| && rows[i] == r;
      if 0 < i <= |all| {
        AncestorsArePrefixes(name, all[i - 1]);
        PrefixPathsMember(c, s.rows, all[i - 1]);
      }
    }
  }

  /* ---- a record as a step of the cached upload ---- */

  ghost function RowsByKey(c: Config): CachedUpload.Rows<IndexRow>
  {
    key => RowsOfKey(c.(version := 0), key)
  }

  /** Whether a record, read in state `p`, leaves the file with all rows of its name if it marks its
      key: it does unless it overflows, or a prefix of its name was lost to an overflow before. */
  ghost predicate Complete(c: Config, p: State, e: Entry)
  {
    || Skipped(p, e)
    || (Stores(c, p, e) && Sound(c, p, e.name))
    || (Overflows(c, p, e) && c.disableDaily && e.name in p.stored)
  }

  /** Each record read is a parsing step of the cached upload exactly when it is complete. With the
      rows of the day an overflow never is: the name is marked as done without having been stored. */
  lemma {:induction false} StepParses(c: Config, p: State, e: Entry, s: CachedUpload.State<IndexRow>,
      job: CachedUpload.Job<IndexRow>)
    requires Recorded(c, p) && Covered(c, p) && Named(c, p) && Step(c, p, e).Some?
    requires job.Parsing? && job.next < |job.records| && job.records[job.next] == Key(e.days, e.name)
    requires e.cached == (Key(e.days, e.name) in s.cache) && job.newKeys == p.newSeries && job.pending == Plain(p.rows)
    ensures
      var p' := Step(c, p, e).value;
      var mark, added := p'.newSeries != p.newSeries, p'.rows[|p.rows|..];
      && p.rows <= p'.rows && p'.newSeries == job.newKeys + (if mark then {Key(e.days, e.name)} else {})
      && (CachedUpload.Parses(RowsByKey(c), s, job, mark, Plain(added)) <==> Complete(c, p, e))
  {
    RowsOfOwnKey(c, e.name, e.days);
    var p' := Step(c, p, e).value;
    NewRows(c, p, e);
    if Stores(c, p, e) {
      StoringParses(c, p, e);
    } else if Overflows(c, p, e) {
      OverflowedRows(c, p, e);
    } else if QUESTION in e.name {
      assert RowsFor(c, e.name, e.days) == [];
    }
    hide Step, ParseOne, Key, RowsOf, Recorded, Covered, Named, Plain, RowsFor, Sound, RowsOfKey;
  }

  /** What a record adds to rows and keys. */
  lemma NewRows(c: Config, p: State, e: Entry)
    requires Step(c, p, e).Some?
    ensures
      var p', key := Step(c, p, e).value, Key(e.days, e.name);
      && p.rows <= p'.rows
      && p'.rows[|p.rows|..] == (if Stores(c, p, e) then RowsOf(c, e.name, e.days, ParseOne(c, p, e).segments) else [])
      && p'.newSeries == p.newSeries + (if Skipped(p, e) then {} else {key})
      && (!Skipped(p, e) ==> key !in p.newSeries && (Stores(c, p, e) || Overflows(c, p, e)))
      && Plain([]) == {}
  {
    hide OutcomeOf, Key, RowsOf, UsedAfter;
  }

  lemma StoringParses(c: Config, p: State, e: Entry)
    requires Recorded(c, p) && Covered(c, p) && Named(c, p) && Stores(c, p, e)
    ensures
      var rows := RowsOf(c, e.name, e.days, ParseOne(c, p, e).segments);
      Plain(rows) <= Plain(RowsFor(c, e.name, e.days)) <= Plain(p.rows) + Plain(rows) <==> Sound(c, p, e.name)
  {
    hide ParseOne, Plain, RowsFor, RowsOf, Recorded, Covered, Named, IsDotPrefix, Lost;
    if Sound(c, p, e.name) {
      WrittenRows(c, p, e);
    } else {
      var a :| IsDotPrefix(a, e.name) && Lost(c, p, a);
      LostRowMissing(c, p, e, a);
    }
  }

  /** The step that fails: a name of 65529 bytes ending in three dots overflows, and is marked as done
      with no row written. */
  lemma {:induction false} OverflowedIsNotParsed(
    c: Config, x: bytes, days: uint16, s: CachedUpload.State<IndexRow>, job: CachedUpload.Job<IndexRow>)
    requires |x| == 65526 && QUESTION !in x
    requires job == CachedUpload.Parsing([Key(days, x + DOT3)], 0, {}, {}) && Key(days, x + DOT3) !in s.cache
    ensures
      var p' := Step(c, START, Entry(x + DOT3, days, false));
      && p'.Some? && p'.value.newSeries == {Key(days, x + DOT3)} && p'.value.rows == []
      && !CachedUpload.Parses(RowsByKey(c), s, job, true, {})
  {
    var e := Entry(x + DOT3, days, false);
    AfterOverflow(c, x, days);
    ThreeDotsOverflow(c, x, days);
    NothingYet(c);
    assert Named(c, START) && QUESTION !in e.name && Plain([]) == {} && START == State({}, {}, 0, [], 0, []);
    hide OutcomeOf, Key, Named, Recorded, Covered, Step, Sound, Plain;
    StepParses(c, START, e, s, job);
    var p' := Step(c, START, e).value;
    assert p'.rows[0..] == [] && p'.newSeries != {};
  }

  /* ---- a whole file ---- */

  /** Every record of the file is complete. */
  ghost predicate AllComplete(c: Config, p: State, entries: seq<Entry>)
    decreases |entries|
  {
    entries == [] ||
    (&& Step(c, p, entries[0]).Some? && Complete(c, p, entries[0])
     && AllComplete(c, Step(c, p, entries[0]).value, entries[1..]))
  }

  /** One record as the parser reads it, after what the other workers do before. */
  ghost function ReadOf(
    c: Config, p: State, e: Entry, before: seq<CachedUpload.Step<IndexRow>>): CachedUpload.Read<IndexRow>
    requires Step(c, p, e).Some?
  {
    var p' := Step(c, p, e).value;
    var added := if p.rows <= p'.rows then p'.rows[|p.rows|..] else [];
    CachedUpload.Read(before, Key(e.days, e.name), e.cached, p'.newSeries != p.newSeries, Plain(added))
  }

  ghost function Reads(
    c: Config, p: State, entries: seq<Entry>,
    before: seq<seq<CachedUpload.Step<IndexRow>>>): seq<CachedUpload.Read<IndexRow>>
    requires |before| == |entries| && Run(c, p, entries).Some?
    decreases |entries|
  {
    if entries == [] then []
    else [ReadOf(c, p, entries[0], before[0])] + Reads(c, Step(c, p, entries[0]).value, entries[1..], before[1..])
  }

  function KeysOf(entries: seq<Entry>): seq<bytes>
  {
    if entries == [] then [] else [Key(entries[0].days, entries[0].name)] + KeysOf(entries[1..])
  }

  lemma StepAllowed(c: Config, p: State, e: Entry, before: seq<CachedUpload.Step<IndexRow>>)
    requires Recorded(c, p) && Covered(c, p) && Named(c, p) && Step(c, p, e).Some?
    ensures
      var p', r := Step(c, p, e).value, ReadOf(c, p, e, before);
      && r.key == Key(e.days, e.name) && p'.newSeries == p.newSeries + (if r.mark then {r.key} else {})
      && Plain(p'.rows) == Plain(p.rows) + r.added
      && (CachedUpload.Allowed(RowsByKey(c), r.key, r.cached, p.newSeries, Plain(p.rows), r.mark, r.added)
          <==> Complete(c, p, e))
  {
    var key, p' := Key(e.days, e.name), Step(c, p, e).value;
    var s := CachedUpload.State(if e.cached then {key} else {}, {}, map[], []);
    StepParses(c, p, e, s, CachedUpload.Parsing([key], 0, p.newSeries, Plain(p.rows)));
    hide Step, Plain, Key, RowsOfKey, Recorded, Covered, Named, Complete;
    PlainConcat(p.rows, p'.rows[|p.rows|..]);
    assert p'.rows == p.rows + p'.rows[|p.rows|..];
  }

  lemma CompleteKeeps(c: Config, p: State, e: Entry)
    requires Recorded(c, p) && Covered(c, p) && Named(c, p) && Step(c, p, e).Some? && Complete(c, p, e)
    ensures var p' := Step(c, p, e).value; Recorded(c, p') && Covered(c, p') && Named(c, p')
  {
    hide Recorded, Covered, Named, Step, Sound, ParseOne;
    StepRecords(c, p, e);
    StepCovers(c, p, e);
    StepNames(c, p, e);
  }

  /** The parser is allowed every step, whatever the cache answers, exactly when every record is
      complete; it marks the keys and writes the rows of the run over the file. */
  lemma {:induction false} ReadsAllowed(c: Config, p: State, entries: seq<Entry>,
      before: seq<seq<CachedUpload.Step<IndexRow>>>)
    requires Recorded(c, p) && Covered(c, p) && Named(c, p)
    requires |before| == |entries| && Run(c, p, entries).Some?
    ensures
      var file, end := Reads(c, p, entries, before), Run(c, p, entries).value;
      && CachedUpload.Keys(file) == KeysOf(entries)
      && (CachedUpload.AllAllowed(RowsByKey(c), p.newSeries, Plain(p.rows), file) <==> AllComplete(c, p, entries))
      && (AllComplete(c, p, entries) ==>
            && end.newSeries == p.newSeries + CachedUpload.MarkedBy(file)
            && Plain(end.rows) == Plain(p.rows) + CachedUpload.AddedBy(file))
    decreases |entries|
  {
    hide Recorded, Covered, Named, Step, Plain, Key, RowsByKey, Complete, ReadOf;
    hide CachedUpload.Allowed, CachedUpload.AllAllowed, CachedUpload.MarkedBy, CachedUpload.AddedBy, CachedUpload.Keys;
    if entries == [] {
      CachedUpload.NothingRead(RowsByKey(c), p.newSeries, Plain(p.rows));
    } else {
      var e, p' := entries[0], Step(c, p, entries[0]).value;
      var r, rest := ReadOf(c, p, e, before[0]), Reads(c, p', entries[1..], before[1..]);
      StepAllowed(c, p, e, before[0]);
      CachedUpload.FirstRead(RowsByKey(c), p.newSeries, Plain(p.rows), r, rest);
      if Complete(c, p, e) {
        CompleteKeeps(c, p, e);
        ReadsAllowed(c, p', entries[1..], before[1..]);
      }
      ReadKeys(c, p', entries[1..], before[1..]);
    }
  }

  lemma {:induction false} ReadKeys(c: Config, p: State, entries: seq<Entry>,
      before: seq<seq<CachedUpload.Step<IndexRow>>>)
    requires |before| == |entries| && Run(c, p, entries).Some?
    ensures CachedUpload.Keys(Reads(c, p, entries, before)) == KeysOf(entries)
    decreases |entries|
  {
    if entries != [] {
      var p' := Step(c, p, entries[0]).value;
      var r, rest := ReadOf(c, p, entries[0], before[0]), Reads(c, p', entries[1..], before[1..]);
      ReadKeys(c, p', entries[1..], before[1..]);
      CachedUpload.FirstRead(RowsByKey(c), {}, {}, r, rest);
      hide Step, Plain, Key, CachedUpload.Keys;
    }
  }

  lemma FileAllowed(c: Config, entries: seq<Entry>, before: seq<seq<CachedUpload.Step<IndexRow>>>)
    requires |before| == |entries| && Run(c, START, entries).Some? && AllComplete(c, START, entries)
    ensures
      var file := Reads(c, START, entries, before);
      && CachedUpload.AllAllowed(RowsByKey(c), {}, {}, file)
      && CachedUpload.Keys(file) == KeysOf(entries)
      && CachedUpload.MarkedBy(file) == Run(c, START, entries).value.newSeries
  {
    assert START.newSeries == {} && Plain(START.rows) == {} && Named(c, START);
    hide *;
    NothingYet(c);
    ReadsAllowed(c, START, entries, before);
    var marked := CachedUpload.MarkedBy(Reads(c, START, entries, before));
    assert {} + marked == marked;
  }

  /** A whole file of names, read by a worker at any time and beside any others: when every record is
      complete and the rows have been inserted, the worker goes on to remember exactly the keys that
      the parser marked, and the table holds what it would hold without a cache. */
  lemma FileAgreesWithoutCache(
    c: Config, s0: CachedUpload.State<IndexRow>, first: seq<CachedUpload.Step<IndexRow>>, w: nat,
    entries: seq<Entry>, before: seq<seq<CachedUpload.Step<IndexRow>>>)
    requires |before| == |entries| && Run(c, START, entries).Some? && AllComplete(c, START, entries)
    requires CachedUpload.ReadAfter(RowsByKey(c), s0, first, w, Reads(c, START, entries, before))
    ensures
      var steps := first + CachedUpload.FileSteps(w, Reads(c, START, entries, before));
      CachedUpload.AgreesAfter(RowsByKey(c), s0, steps, w, KeysOf(entries), Run(c, START, entries).value.newSeries)
  {
    hide *;
    FileAllowed(c, entries, before);
    CachedUpload.FileAgrees(RowsByKey(c), s0, first, w, Reads(c, START, entries, before));
  }

  /** Small names are all complete. */
  lemma {:induction false} SmallIsComplete(c: Config, p: State, entries: seq<Entry>)
    requires Recorded(c, p) && (forall a :: !Lost(c, p, a)) && p.used <= BUFFER_SIZE / 2
    requires forall e | e in entries && QUESTION !in e.name :: Small(e.name)
    ensures AllComplete(c, p, entries)
    decreases |entries|
  {
    if entries != [] {
      var e := entries[0];
      assert e in entries;
      if !Skipped(p, e) { SmallFits(c, e.name, e.days, p.known, p.used); }
      var p' := Step(c, p, e).value;
      hide OutcomeOf, UsedAfter, Small, RowsOf, Key, Recorded, Lost;
      StepRecords(c, p, e);
      forall a
        ensures !Lost(c, p', a)
      {
        StepLoses(c, p, e, a);
      }
      SmallIsComplete(c, p', entries[1..]);
    }
  }
}

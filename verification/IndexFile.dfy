/** A whole file of names for the index table (uploader/index.go, `parseFile`). */
module IndexFile {
  import opened ByteStrings
  import opened Varint
  import opened RowBinary
  import opened DottedPath
  import opened TableRows
  import opened SeriesKeys
  import opened IndexUploader

  /** A record of the file, and what the cache answered about its key. */
  datatype Entry = Entry(name: bytes, days: uint16, cached: bool)

  /** The keys marked as done, the prefixes marked as known, how full the buffer is, the rows written
      out, how many names were parsed, and those of them whose rows were written. */
  datatype State = State(newSeries: set<bytes>, known: set<bytes>, used: nat, rows: seq<IndexRow>, n: nat,
      stored: seq<bytes>)

  const START := State({}, {}, 0, [], 0, [])

  predicate Skipped(s: State, e: Entry)
  {
    QUESTION in e.name || e.cached || Key(e.days, e.name) in s.newSeries
  }

  function ParseOne(c: Config, s: State, e: Entry): Outcome
  {
    OutcomeOf(c, e.name, e.days, s.known, s.used)
  }

  /** One record; `None` after a write out of range. A name is marked as done before it is parsed. */
  function Step(c: Config, s: State, e: Entry): Option<State>
  {
    if Skipped(s, e) then Some(s)
    else
      var o := ParseOne(c, s, e);
      if o.Panic? then None
      else
        Some(State(s.newSeries + {Key(e.days, e.name)}, s.known + (set a | a in Marked(o)),
                   UsedAfter(c, e.name, e.days, s.used, o),
                   s.rows + (if o.Rows? then RowsOf(c, e.name, e.days, o.segments) else []),
                   s.n + 1, s.stored + (if o.Rows? then [e.name] else [])))
  }

  function Run(c: Config, s: State, entries: seq<Entry>): Option<State>
    decreases |entries|
  {
    if entries == [] then Some(s)
    else
      var s' := Step(c, s, entries[0]);
      if s'.None? then None else Run(c, s'.value, entries[1..])
  }

  /** `parseFile`: the bytes written, and the keys to remember. */
  datatype Parsed = Parsed(out: bytes, newSeries: set<bytes>, n: nat) | Panicked

  method ParseFile(c: Config, entries: seq<Entry>) returns (r: Parsed)
    ensures
      match Run(c, START, entries)
      case None => r == Panicked
      case Some(s) => r == Parsed(EncodeIndexAll(s.rows), s.newSeries, s.n)
  {
    hide OutcomeOf, EncodeIndexAll, RowsOf, Key;
    var buffers := new IndexBuffers();
    var out: bytes, newSeries: set<bytes>, n := [], {}, 0;
    ghost var s := START;
    NoRows();
    assert entries[0..] == entries;
    for i := 0 to |entries|
      invariant buffers.Valid() && fresh(buffers) && fresh(buffers.wb) && fresh(buffers.wb.body)
          && fresh(buffers.reverseName)
      invariant s.newSeries == newSeries && s.known == buffers.newUniq && s.used == buffers.wb.used
      invariant out == EncodeIndexAll(s.rows) && n == s.n
      invariant Run(c, s, entries[i..]) == Run(c, START, entries)
    {
      var e := entries[i];
      assert entries[i..][0] == e && entries[i..][1..] == entries[i + 1..];
      if QUESTION !in e.name && !e.cached && Key(e.days, e.name) !in newSeries {
        newSeries := newSeries + {Key(e.days, e.name)};
        n := n + 1;
        var reversed := buffers.Reverse(e.name);
        var o := buffers.Parse(c, e.name, reversed, e.days);
        if o.Panic? {
          return Panicked;
        }
        ghost var rows := if o.Rows? then RowsOf(c, e.name, e.days, o.segments) else [];
        EncodeIndexAppend(s.rows, rows);
        if o.Rows? {
          out := out + buffers.wb.body[..buffers.wb.used];
        } else {
          assert s.rows + rows == s.rows;
        }
        s := Step(c, s, e).value;
      }
    }
    assert entries[|entries|..] == [];
    return Parsed(out, newSeries, n);
  }

  /* ---- prefixes are stored once, and all of them ---- */

  ghost predicate Distinct(s: seq<bytes>)
  {
    forall i, j | 0 <= i < j < |s| :: s[i] != s[j]
  }

  lemma {:induction false} AncestorsShrink(p: bytes)
    ensures forall a | a in Ancestors(p) :: |a| <= |p|
    ensures forall i, j | 0 <= i < j < |Ancestors(p)| :: |Ancestors(p)[i]| > |Ancestors(p)[j]|
    decreases |p|
  {
    var i := LastIndexByte(p, DOT);
    AncestorsStep(p);
    hide Ancestors, LastIndexByte;
    if i >= 0 {
      AncestorsShrink(p[..i]);
      var rest := Ancestors(p[..i]);
      assert forall j | 0 <= j < |rest| :: rest[j] in rest;
    }
  }

  /** A climb writes the first prefixes, none of them known, up to a known one or the end. */
  lemma {:induction false} ClimbTakes(c: Config, p: bytes, known: set<bytes>, estimate: nat, used: nat)
    ensures
      var climb := ClimbFrom(c, p, known, estimate, used);
      var k := |climb.segments|;
      && k <= |Ancestors(p)| && climb.segments == Ancestors(p)[..k]
      && (forall a | a in climb.segments :: a !in known)
      && (climb.ok && k < |Ancestors(p)| ==> Ancestors(p)[k] in known)
    decreases |p|
  {
    var i := LastIndexByte(p, DOT);
    AncestorsStep(p);
    hide Ancestors, LastIndexByte, EncodeIndex, PrefixRow;
    if i >= 0 && p[..i + 1] !in known && estimate + Share(p[..i + 1]) < BUFFER_SIZE - used {
      var a := p[..i + 1];
      ClimbTakes(c, p[..i], known, estimate + Share(a), used + |EncodeIndex(PrefixRow(c, a))|);
    }
  }

  /** With every known prefix of `p`, its own prefixes are known. */
  ghost predicate Closed(known: set<bytes>, p: bytes)
  {
    forall b, a | b in known && IsDotPrefix(b, p) && IsDotPrefix(a, b) :: a in known
  }

  lemma ShorterPrefix(a: bytes, b: bytes, p: bytes)
    requires IsDotPrefix(a, p) && IsDotPrefix(b, p) && |a| <= |b|
    ensures IsDotPrefix(a, b)
  {
    assert a == p[..|a|] == p[..|b|][..|a|];
  }

  lemma PrefixTransitive(a: bytes, b: bytes, p: bytes)
    requires IsDotPrefix(a, b) && IsDotPrefix(b, p)
    ensures IsDotPrefix(a, p)
  {
    assert p[..|b|][..|a|] == p[..|a|];
  }

  /** Stopping at the first known prefix leaves out none. */
  lemma ClimbComplete(c: Config, p: bytes, known: set<bytes>, estimate: nat, used: nat, a: bytes)
    requires Closed(known, p) && IsDotPrefix(a, p) && ClimbFrom(c, p, known, estimate, used).ok
    ensures a in known || a in ClimbFrom(c, p, known, estimate, used).segments
  {
    ClimbTakes(c, p, known, estimate, used);
    AncestorsArePrefixes(p, a);
    AncestorsShrink(p);
    var all, k := Ancestors(p), |ClimbFrom(c, p, known, estimate, used).segments|;
    hide Ancestors, ClimbFrom, IsDotPrefix;
    var j :| 0 <= j < |all| && all[j] == a;
    if j >= k {
      AncestorsArePrefixes(p, all[k]);
      ShorterPrefix(a, all[k], p);
    } else {
      assert all[..k][j] == a;
    }
  }

  lemma ClimbDistinct(c: Config, p: bytes, known: set<bytes>, estimate: nat, used: nat)
    ensures
      var segments := ClimbFrom(c, p, known, estimate, used).segments;
      Distinct(segments) && forall a | a in segments :: IsDotPrefix(a, p) && a !in known
  {
    ClimbTakes(c, p, known, estimate, used);
    AncestorsShrink(p);
    var all, segments := Ancestors(p), ClimbFrom(c, p, known, estimate, used).segments;
    hide Ancestors, ClimbFrom, IsDotPrefix;
    forall a | a in segments
      ensures IsDotPrefix(a, p)
    {
      assert a in all;
      AncestorsArePrefixes(p, a);
    }
  }

  /** The paths of the prefix rows among `rows`. */
  function PrefixPaths(c: Config, rows: seq<IndexRow>): seq<bytes>
  {
    if rows == [] then []
    else (if rows[0] == PrefixRow(c, rows[0].path) then [rows[0].path] else []) + PrefixPaths(c, rows[1..])
  }

  lemma {:induction false} PrefixPathsAppend(c: Config, a: seq<IndexRow>, b: seq<IndexRow>)
    ensures PrefixPaths(c, a + b) == PrefixPaths(c, a) + PrefixPaths(c, b)
  {
    hide PrefixRow;
    if a == [] {
      assert a + b == b;
    } else {
      assert (a + b)[1..] == a[1..] + b;
      PrefixPathsAppend(c, a[1..], b);
    }
  }

  lemma {:induction false} PrefixPathsMember(c: Config, rows: seq<IndexRow>, a: bytes)
    ensures a in PrefixPaths(c, rows) <==> PrefixRow(c, a) in rows
  {
    PrefixRowIs(c, a);
    hide Dots, Level;
    if rows != [] {
      PrefixPathsMember(c, rows[1..], a);
      assert rows == [rows[0]] + rows[1..];
    }
  }

  lemma {:induction false} PrefixPathsOfPrefixes(c: Config, segments: seq<bytes>)
    ensures PrefixPaths(c, PrefixRows(c, segments)) == segments
  {
    hide Dots, Level;
    if segments != [] {
      assert PrefixRows(c, segments)[1..] == PrefixRows(c, segments[1..]);
      PrefixPathsOfPrefixes(c, segments[1..]);
    }
  }

  lemma LevelsDiffer(d: nat, x: nat, y: nat)
    requires x < TWO32 && y < TWO32 && x != y
    ensures Level(d, x) != Level(d, y)
  {
  }

  lemma {:induction false} NoPaths(c: Config, rows: seq<IndexRow>)
    requires forall r | r in rows :: r != PrefixRow(c, r.path)
    ensures PrefixPaths(c, rows) == []
  {
    hide PrefixRow;
    if rows != [] {
      assert rows[0] in rows;
      NoPaths(c, rows[1..]);
    }
  }

  lemma OtherLevel(c: Config, r: IndexRow, offset: nat)
    requires offset < TWO32 - 1 && offset + 1 != TREE_LEVEL_OFFSET && r.level == Level(Dots(r.path) + 1, offset)
    ensures r != PrefixRow(c, r.path)
  {
    LevelsDiffer(Dots(r.path), offset + 1, TREE_LEVEL_OFFSET);
  }

  /** No other row of a name looks like a prefix row: the levels differ. */
  lemma OtherRows(c: Config, name: bytes, days: uint16)
    ensures PrefixPaths(c, [TreeRow(c, name)]) == [] && PrefixPaths(c, LastRows(c, name, days)) == []
  {
    var rows := LastRows(c, name, days);
    ReversePathMembers(name);
    assert Dots(ReversePath(name)) == Dots(name);
    OtherLevel(c, TreeRow(c, name), TREE_LEVEL_OFFSET);
    OtherLevel(c, rows[0], REVERSE_TREE_LEVEL_OFFSET);
    if !c.disableDaily {
      OtherLevel(c, rows[1], 0);
      OtherLevel(c, rows[2], REVERSE_LEVEL_OFFSET);
    }
    hide Dots, ReversePath, PrefixRow, Level;
    NoPaths(c, [TreeRow(c, name)]);
    NoPaths(c, rows);
  }

  lemma RowsOfPaths(c: Config, name: bytes, days: uint16, segments: seq<bytes>)
    ensures PrefixPaths(c, RowsOf(c, name, days, segments)) == segments
  {
    OtherRows(c, name, days);
    PrefixPathsOfPrefixes(c, segments);
    var tree, prefixes, last := [TreeRow(c, name)], PrefixRows(c, segments), LastRows(c, name, days);
    hide PrefixPaths, PrefixRows, LastRows, TreeRow;
    PrefixPathsAppend(c, tree + prefixes, last);
    PrefixPathsAppend(c, tree, prefixes);
  }

  ghost predicate PrefixOfAny(a: bytes, names: seq<bytes>)
  {
    exists n | n in names :: IsDotPrefix(a, n)
  }

  /** A prefix has one row at most, and then it is known and a stored name has it. */
  ghost predicate Recorded(c: Config, s: State)
  {
    var paths := PrefixPaths(c, s.rows);
    Distinct(paths) && forall a | a in paths :: a in s.known && PrefixOfAny(a, s.stored)
  }

  /** Every prefix of a stored name has its row. */
  ghost predicate Covered(c: Config, s: State)
  {
    forall n, a | n in s.stored && IsDotPrefix(a, n) :: a in PrefixPaths(c, s.rows)
  }

  /** Marked as known, without a row. */
  predicate Lost(c: Config, s: State, a: bytes)
  {
    a in s.known && a !in PrefixPaths(c, s.rows)
  }

  predicate Stores(c: Config, s: State, e: Entry)
  {
    !Skipped(s, e) && ParseOne(c, s, e).Rows?
  }

  predicate Overflows(c: Config, s: State, e: Entry)
  {
    !Skipped(s, e) && ParseOne(c, s, e).BufOverflow?
  }

  /** The names whose rows are stored from here on. */
  function StoredBy(c: Config, s: State, entries: seq<Entry>): seq<bytes>
    requires Run(c, s, entries).Some?
    decreases |entries|
  {
    if entries == [] then []
    else
      (if Stores(c, s, entries[0]) then [entries[0].name] else []) +
      StoredBy(c, Step(c, s, entries[0]).value, entries[1..])
  }

  /** No prefix that an overflow marked is a prefix of a name stored later. */
  ghost predicate Harmless(c: Config, s: State, entries: seq<Entry>)
    requires Run(c, s, entries).Some?
    decreases |entries|
  {
    entries == [] ||
    var s' := Step(c, s, entries[0]).value;
    && (Overflows(c, s, entries[0]) ==>
          forall a | a in ParseOne(c, s, entries[0]).marked :: !PrefixOfAny(a, StoredBy(c, s', entries[1..])))
    && Harmless(c, s', entries[1..])
  }

  lemma StoredPrefixes(a: bytes, names: seq<bytes>, more: seq<bytes>)
    ensures PrefixOfAny(a, names + more) <==> PrefixOfAny(a, names) || PrefixOfAny(a, more)
  {
    if PrefixOfAny(a, names) {
      var n :| n in names && IsDotPrefix(a, n);
      assert n in names + more;
    }
    if PrefixOfAny(a, more) {
      var n :| n in more && IsDotPrefix(a, n);
      assert n in names + more;
    }
  }

  lemma PrefixOfOne(a: bytes, name: bytes)
    ensures PrefixOfAny(a, [name]) <==> IsDotPrefix(a, name)
  {
    assert name in [name];
  }

  lemma DistinctConcat(a: seq<bytes>, b: seq<bytes>)
    requires Distinct(a) && Distinct(b) && forall x | x in b :: x !in a
    ensures Distinct(a + b)
  {
    assert forall i | 0 <= i < |b| :: b[i] in b;
  }

  /** What one record changes: the rows and marks of a stored name, or the marks of an overflow. */
  lemma StepChanges(c: Config, s: State, e: Entry)
    requires Step(c, s, e).Some?
    ensures
      var s' := Step(c, s, e).value;
      var paths, paths' := PrefixPaths(c, s.rows), PrefixPaths(c, s'.rows);
      if Stores(c, s, e) then
        var segments := ParseOne(c, s, e).segments;
        && paths' == paths + segments && s'.known == s.known + (set a | a in segments)
        && s'.stored == s.stored + [e.name]
        && Distinct(segments) && (forall a | a in segments :: IsDotPrefix(a, e.name) && a !in s.known)
      else if Overflows(c, s, e) then
        var marked := ParseOne(c, s, e).marked;
        && s'.rows == s.rows && s'.known == s.known + (set a | a in marked) && s'.stored == s.stored
        && (forall a | a in marked :: a !in s.known)
      else s' == s
  {
    var o, estimate, used := ParseOne(c, s, e), 2 * Share(e.name), |EncodeIndex(TreeRow(c, e.name))|;
    ClimbDistinct(c, e.name, s.known, estimate, used);
    ClimbOrNothing(c, e.name, e.days, s.known, s.used);
    if Stores(c, s, e) {
      RowsOfPaths(c, e.name, e.days, o.segments);
      PrefixPathsAppend(c, s.rows, RowsOf(c, e.name, e.days, o.segments));
    }
    hide PrefixPaths, RowsOf, ClimbFrom, EncodeIndex, TreeRow, Share, IsDotPrefix, OutcomeOf, UsedAfter, Key, Distinct;
    if Overflows(c, s, e) {
      assert s.rows + [] == s.rows && s.stored + [] == s.stored;
    }
  }

  lemma ClimbOrNothing(c: Config, name: bytes, days: uint16, known: set<bytes>, used: nat)
    ensures
      var o := OutcomeOf(c, name, days, known, used);
      var segments := ClimbFrom(c, name, known, 2 * Share(name), |EncodeIndex(TreeRow(c, name))|).segments;
      (o.Rows? ==> o.segments == segments) && (o.BufOverflow? ==> o.marked == segments || o.marked == [])
  {
    hide EncodeIndexAll, RowsOf, ClimbFrom, EncodeIndex;
  }

  lemma StepRecords(c: Config, s: State, e: Entry)
    requires Recorded(c, s) && Step(c, s, e).Some?
    ensures Recorded(c, Step(c, s, e).value)
  {
    StepChanges(c, s, e);
    var s' := Step(c, s, e).value;
    hide Step, ParseOne, PrefixPaths, PrefixOfAny, IsDotPrefix, Skipped;
    if Stores(c, s, e) {
      var segments := ParseOne(c, s, e).segments;
      DistinctConcat(PrefixPaths(c, s.rows), segments);
      forall a | a in PrefixPaths(c, s'.rows)
        ensures a in s'.known && PrefixOfAny(a, s'.stored)
      {
        StoredPrefixes(a, s.stored, [e.name]);
        PrefixOfOne(a, e.name);
      }
    }
  }

  /** What is lost stays lost, and only an overflow loses more. */
  lemma StepLoses(c: Config, s: State, e: Entry, a: bytes)
    requires Recorded(c, s) && Step(c, s, e).Some?
    ensures Lost(c, Step(c, s, e).value, a) <==> Lost(c, s, a) || (Overflows(c, s, e) && a in ParseOne(c, s, e).marked)
  {
    StepChanges(c, s, e);
    hide Step, ParseOne, PrefixPaths, PrefixOfAny, IsDotPrefix, Skipped, Distinct;
  }

  /** No prefix of the name is lost. */
  ghost predicate Sound(c: Config, s: State, name: bytes)
  {
    forall a | IsDotPrefix(a, name) :: !Lost(c, s, a)
  }

  lemma KnownIsClosed(c: Config, s: State, name: bytes)
    requires Recorded(c, s) && Covered(c, s) && Sound(c, s, name)
    ensures Closed(s.known, name)
  {
    hide PrefixPaths, IsDotPrefix;
    forall b, a | b in s.known && IsDotPrefix(b, name) && IsDotPrefix(a, b)
      ensures a in s.known
    {
      assert !Lost(c, s, b);
      var n :| n in s.stored && IsDotPrefix(b, n);
      PrefixTransitive(a, b, n);
    }
  }

  /** The climb may stop at the first known prefix unless a prefix of the name was lost. */
  lemma StepCovers(c: Config, s: State, e: Entry)
    requires Recorded(c, s) && Covered(c, s) && Step(c, s, e).Some?
    requires Stores(c, s, e) ==> Sound(c, s, e.name)
    ensures Covered(c, Step(c, s, e).value)
  {
    StepChanges(c, s, e);
    if Stores(c, s, e) {
      StoredIsCovered(c, s, e);
    }
    hide Step, ParseOne, PrefixPaths, PrefixOfAny, IsDotPrefix, Skipped, Distinct, Recorded, Sound;
  }

  lemma StoredIsCovered(c: Config, s: State, e: Entry)
    requires Recorded(c, s) && Covered(c, s) && Stores(c, s, e) && Sound(c, s, e.name)
    ensures forall a | IsDotPrefix(a, e.name) :: a in PrefixPaths(c, s.rows) || a in ParseOne(c, s, e).segments
  {
    var estimate, used := 2 * Share(e.name), |EncodeIndex(TreeRow(c, e.name))|;
    assert ClimbFrom(c, e.name, s.known, estimate, used) == Climb(ParseOne(c, s, e).segments, true);
    KnownIsClosed(c, s, e.name);
    hide Step, ParseOne, PrefixPaths, PrefixOfAny, IsDotPrefix, Skipped, ClimbFrom, Recorded, Covered, TreeRow,
         EncodeIndex;
    forall a | IsDotPrefix(a, e.name)
      ensures a in PrefixPaths(c, s.rows) || a in ParseOne(c, s, e).segments
    {
      ClimbComplete(c, e.name, s.known, estimate, used, a);
      assert !Lost(c, s, a);
    }
  }

  /** No prefix lost so far belongs to a name stored from here on. */
  ghost predicate NoneLost(c: Config, s: State, entries: seq<Entry>)
    requires Run(c, s, entries).Some?
  {
    forall a | Lost(c, s, a) :: !PrefixOfAny(a, StoredBy(c, s, entries))
  }

  lemma {:induction false} RunRecords(c: Config, s: State, entries: seq<Entry>)
    requires Recorded(c, s) && Run(c, s, entries).Some?
    ensures
      var end := Run(c, s, entries).value;
      && Recorded(c, end) && end.stored == s.stored + StoredBy(c, s, entries)
      && forall a | Lost(c, s, a) :: Lost(c, end, a)
    decreases |entries|
  {
    if entries != [] {
      var e, s' := entries[0], Step(c, s, entries[0]).value;
      StepRecords(c, s, e);
      StepChanges(c, s, e);
      forall a | Lost(c, s, a)
        ensures Lost(c, s', a)
      {
        StepLoses(c, s, e, a);
      }
      RunRecords(c, s', entries[1..]);
      hide Recorded, Step, ParseOne, Skipped, Lost, PrefixPaths, Distinct, IsDotPrefix;
      Assoc(s.stored, [e.name], StoredBy(c, s', entries[1..]));
      EmptyFirst(StoredBy(c, s', entries[1..]));
    }
  }

  lemma SoundNext(c: Config, s: State, entries: seq<Entry>)
    requires entries != [] && Run(c, s, entries).Some? && NoneLost(c, s, entries) && Stores(c, s, entries[0])
    ensures Sound(c, s, entries[0].name)
  {
    var name, rest := entries[0].name, StoredBy(c, Step(c, s, entries[0]).value, entries[1..]);
    assert StoredBy(c, s, entries) == [name] + rest;
    hide Lost, Run, StoredBy, Step, Stores, IsDotPrefix;
    forall a | IsDotPrefix(a, name)
      ensures !Lost(c, s, a)
    {
      PrefixOfOne(a, name);
      StoredPrefixes(a, [name], rest);
    }
  }

  lemma NoneLostNext(c: Config, s: State, entries: seq<Entry>)
    requires entries != [] && Run(c, s, entries).Some? && Recorded(c, s)
    requires NoneLost(c, s, entries) && Harmless(c, s, entries)
    ensures NoneLost(c, Step(c, s, entries[0]).value, entries[1..])
  {
    var e, s' := entries[0], Step(c, s, entries[0]).value;
    var first: seq<bytes> := if Stores(c, s, e) then [e.name] else [];
    var rest := StoredBy(c, s', entries[1..]);
    assert StoredBy(c, s, entries) == first + rest;
    assert Overflows(c, s, e) ==> forall a | a in ParseOne(c, s, e).marked :: !PrefixOfAny(a, rest);
    hide Harmless, Lost, Recorded, Step, ParseOne, Stores, Skipped, Overflows, PrefixOfAny, Run, StoredBy;
    forall a | Lost(c, s', a)
      ensures !PrefixOfAny(a, rest)
    {
      StepLoses(c, s, e, a);
      StoredPrefixes(a, first, rest);
    }
  }

  lemma {:induction false} HarmlessCovers(c: Config, s: State, entries: seq<Entry>)
    requires Recorded(c, s) && Covered(c, s) && Run(c, s, entries).Some?
    requires NoneLost(c, s, entries) && Harmless(c, s, entries)
    ensures Covered(c, Run(c, s, entries).value)
    decreases |entries|
  {
    hide Recorded, Covered, Step, NoneLost, Stores;
    if entries != [] {
      var e, s' := entries[0], Step(c, s, entries[0]).value;
      StepRecords(c, s, e);
      if Stores(c, s, e) { SoundNext(c, s, entries); }
      StepCovers(c, s, e);
      NoneLostNext(c, s, entries);
      HarmlessCovers(c, s', entries[1..]);
    }
  }

  /** At the end nothing lost is a prefix of a stored name, so nothing lost before was of one stored
      later. */
  lemma CoveredMeansNoneLost(c: Config, s: State, entries: seq<Entry>)
    requires Recorded(c, s) && Run(c, s, entries).Some? && Covered(c, Run(c, s, entries).value)
    ensures NoneLost(c, s, entries)
  {
    RunRecords(c, s, entries);
    var end, more := Run(c, s, entries).value, StoredBy(c, s, entries);
    hide Run, StoredBy, PrefixPaths, IsDotPrefix, Recorded;
    forall a | Lost(c, s, a)
      ensures !PrefixOfAny(a, more)
    {
      forall n | n in more
        ensures !IsDotPrefix(a, n)
      {
        assert n in end.stored && Lost(c, end, a);
      }
    }
  }

  lemma {:induction false} CoveredMeansHarmless(c: Config, s: State, entries: seq<Entry>)
    requires Recorded(c, s) && Run(c, s, entries).Some? && Covered(c, Run(c, s, entries).value)
    ensures Harmless(c, s, entries)
    decreases |entries|
  {
    if entries != [] {
      var e, s' := entries[0], Step(c, s, entries[0]).value;
      hide Recorded, Covered, Lost, PrefixPaths, PrefixOfAny, Step, ParseOne, Skipped, StoredBy, Stores, Overflows;
      StepRecords(c, s, e);
      CoveredMeansNoneLost(c, s', entries[1..]);
      CoveredMeansHarmless(c, s', entries[1..]);
      if Overflows(c, s, e) {
        forall a | a in ParseOne(c, s, e).marked
          ensures !PrefixOfAny(a, StoredBy(c, s', entries[1..]))
        {
          StepLoses(c, s, e, a);
        }
      }
    }
  }

  lemma NothingYet(c: Config)
    ensures Recorded(c, START) && Covered(c, START) && forall a :: !Lost(c, START, a)
  {
  }

  /** In any file, no prefix has two rows, and each that has one is a prefix of a stored name, at
      level 20000 plus its dots. Every prefix of every stored name has its row if and only if no
      prefix that an overflow marked is one of a name stored later: then the climb may stop at the
      first known prefix. */
  lemma {:induction false} PrefixesStoredOnce(c: Config, entries: seq<Entry>)
    requires Run(c, START, entries).Some?
    ensures
      var s := Run(c, START, entries).value;
      && (forall a | PrefixRow(c, a) in s.rows :: PrefixOfAny(a, s.stored))
      && Distinct(PrefixPaths(c, s.rows))
      && ((forall n, a | n in s.stored && IsDotPrefix(a, n) :: PrefixRow(c, a) in s.rows)
          <==> Harmless(c, START, entries))
  {
    NothingYet(c);
    RunRecords(c, START, entries);
    if Harmless(c, START, entries) {
      assert NoneLost(c, START, entries);
      HarmlessCovers(c, START, entries);
    }
    var s := Run(c, START, entries).value;
    if Covered(c, s) {
      CoveredMeansHarmless(c, START, entries);
    }
    hide PrefixPaths, IsDotPrefix, Run, Harmless, PrefixRow, PrefixOfAny;
    forall a
      ensures PrefixRow(c, a) in s.rows <==> a in PrefixPaths(c, s.rows)
    {
      PrefixPathsMember(c, s.rows, a);
    }
  }

  /* ---- names for which nothing overflows ---- */

  /** A name whose rows take half the buffer at most. */
  predicate Small(name: bytes)
  {
    2 * (Dots(name) + 4) * (|name| + 13) <= BUFFER_SIZE
  }

  lemma OneMore(d: nat, w: nat)
    ensures 2 * (d + 1) * w == 2 * d * w + 2 * w && (d + 1) * w == d * w + w
  {
  }

  lemma {:induction false} ClimbHasRoom(c: Config, p: bytes, known: set<bytes>, estimate: nat, used: nat, w: nat)
    requires |p| + 13 <= w < BUFFER_SIZE && estimate + used + 2 * Dots(p) * w < BUFFER_SIZE
    ensures ClimbFrom(c, p, known, estimate, used).ok
    decreases |p|
  {
    var i := LastIndexByte(p, DOT);
    LastDot(p);
    if i >= 0 {
      var a, d := p[..i + 1], Dots(p[..i]);
      RowSize(PrefixRow(c, a));
      OneMore(d, w);
      assert Share(a) <= w - 3 && |EncodeIndex(PrefixRow(c, a))| <= w && 2 * Dots(p) * w == 2 * d * w + 2 * w;
      hide EncodeIndex, LastIndexByte, PrefixRow, Dots;
      RoomLeft(d, w);
      ClimbHasRoom(c, p[..i], known, estimate + Share(a), used + |EncodeIndex(PrefixRow(c, a))|, w);
    }
  }

  lemma RoomLeft(d: nat, w: nat)
    ensures 2 * d * w >= 0
  {
  }

  lemma {:induction false} PrefixRowsSize(c: Config, segments: seq<bytes>, w: nat)
    requires forall a | a in segments :: |a| + 13 <= w < BUFFER_SIZE
    ensures |EncodeIndexAll(PrefixRows(c, segments))| <= |segments| * w
  {
    if segments == [] {
      NoPrefixRows(c, []);
    } else {
      assert segments[0] in segments;
      PrefixRowsFirst(c, segments);
      RowSize(PrefixRow(c, segments[0]));
      OneMore(|segments| - 1, w);
      hide EncodeIndex, EncodeIndexAll, PrefixRows;
      PrefixRowsSize(c, segments[1..], w);
    }
  }

  lemma TimesMore(a: nat, b: nat, w: nat)
    requires a <= b
    ensures a * w <= b * w
  {
  }

  lemma SmallInNumbers(d: nat, w: nat)
    requires 2 * (d + 4) * w <= BUFFER_SIZE && w > 0
    ensures 3 * w + 2 * d * w < BUFFER_SIZE
    ensures d * w + 4 * w <= BUFFER_SIZE / 2 && 8 * w <= BUFFER_SIZE
  {
    assert 2 * (d + 4) * w == 2 * (d * w) + 8 * w;
    RoomLeft(d, w);
  }

  lemma SmallRowsSize(c: Config, name: bytes, days: uint16, known: set<bytes>)
    requires Small(name)
    ensures
      var climb := ClimbFrom(c, name, known, 2 * Share(name), |EncodeIndex(TreeRow(c, name))|);
      climb.ok && |EncodeIndexAll(RowsOf(c, name, days, climb.segments))| <= BUFFER_SIZE / 2
  {
    var w, tree := |name| + 13, |EncodeIndex(TreeRow(c, name))|;
    var climb := ClimbFrom(c, name, known, 2 * Share(name), tree);
    RowSize(TreeRow(c, name));
    LastRowsSize(c, name, days);
    EncodeRowsOf(c, name, days, climb.segments);
    assert Share(name) + 3 == w && TreeRow(c, name).path == name;
    SmallInNumbers(Dots(name), w);
    hide EncodeIndex, EncodeIndexAll, RowsOf, PrefixRows, LastRows, ClimbFrom, TreeRow, Dots, Ancestors;
    ClimbHasRoom(c, name, known, 2 * Share(name), tree, w);
    ClimbSegments(c, name, known, 2 * Share(name), tree);
    ClimbTakes(c, name, known, 2 * Share(name), tree);
    AncestorsCount(name);
    PrefixRowsSize(c, climb.segments, w);
    TimesMore(|climb.segments|, Dots(name), w);
  }

  lemma SmallFits(c: Config, name: bytes, days: uint16, known: set<bytes>, used: nat)
    requires Small(name) && used <= BUFFER_SIZE / 2
    ensures
      var o := OutcomeOf(c, name, days, known, used);
      o.Rows? && UsedAfter(c, name, days, used, o) <= BUFFER_SIZE / 2
  {
    SmallRowsSize(c, name, days, known);
    SmallInNumbers(Dots(name), |name| + 13);
    hide EncodeIndex, EncodeIndexAll, RowsOf, PrefixRows, ClimbFrom, TreeRow, Dots;
  }

  lemma {:induction false} SmallRun(c: Config, s: State, entries: seq<Entry>)
    requires s.used <= BUFFER_SIZE / 2 && forall e | e in entries && QUESTION !in e.name :: Small(e.name)
    ensures Run(c, s, entries).Some? && Harmless(c, s, entries)
    decreases |entries|
  {
    if entries != [] {
      var e := entries[0];
      assert e in entries;
      if !Skipped(s, e) { SmallFits(c, e.name, e.days, s.known, s.used); }
      hide OutcomeOf, UsedAfter, Small, RowsOf, Key;
      SmallRun(c, Step(c, s, e).value, entries[1..]);
    }
  }

  /** So a file of small names, such as those of up to 10 dots and 18711 bytes, is stored with every
      prefix of every name. */
  lemma SmallNamesStored(c: Config, entries: seq<Entry>)
    requires forall e | e in entries && QUESTION !in e.name :: Small(e.name)
    ensures Run(c, START, entries).Some? &&
            var s := Run(c, START, entries).value;
            forall n, a | n in s.stored && IsDotPrefix(a, n) :: PrefixRow(c, a) in s.rows
  {
    SmallRun(c, START, entries);
    PrefixesStoredOnce(c, entries);
  }

  /* ---- what an overflow leaves behind ---- */

  const DOT3: bytes := [DOT, DOT, DOT]

  lemma DotsAtTheEnd(x: bytes)
    ensures
      var p3, p2, p1, n := x + DOT3, x + DOT2, x + DOT1, |x| + 3;
      && p3[..n] == p3 && p3[..n - 1] == p2 && p2[..n - 1] == p2 && p2[..n - 2] == p1 && p1[..n - 2] == p1
      && p3[n - 1] == p2[n - 2] == p1[n - 3] == DOT
  {
  }

  /** A name of 65529 bytes, ending in three dots: two prefixes are marked before the third has no
      room left. */
  lemma ThreeDotsOverflow(c: Config, x: bytes, days: uint16)
    requires |x| == 65526
    ensures OutcomeOf(c, x + DOT3, days, {}, 0) == BufOverflow([x + DOT3, x + DOT2])
  {
    var p3, p2, p1 := x + DOT3, x + DOT2, x + DOT1;
    var n := |p3|;
    DotsAtTheEnd(x);
    RowSize(TreeRow(c, p3));
    RowSize(PrefixRow(c, p3));
    RowSize(PrefixRow(c, p2));
    var u, r3, r2 := |EncodeIndex(TreeRow(c, p3))|, |EncodeIndex(PrefixRow(c, p3))|, |EncodeIndex(PrefixRow(c, p2))|;
    hide EncodeIndex, ClimbFrom, EncodeIndexAll, RowsOf, Dots;
    var e := 2 * Share(p3);
    ClimbOnce(c, p1, n - 3, {}, e + Share(p3) + Share(p2), u + r3 + r2);
    assert ClimbFrom(c, p1, {}, e + Share(p3) + Share(p2), u + r3 + r2) == Climb([], false);
    ClimbOnce(c, p2, n - 2, {}, e + Share(p3), u + r3);
    assert ClimbFrom(c, p2, {}, e + Share(p3), u + r3) == Climb([p2], false);
    ClimbOnce(c, p3, n - 1, {}, e, u);
    assert [p3] + [p2] == [p3, p2];
  }

  lemma AfterOverflow(c: Config, x: bytes, days: uint16)
    requires |x| == 65526 && QUESTION !in x
    ensures
      var first := x + DOT3;
      var s := Step(c, START, Entry(first, days, false));
      && s.Some? && s.value.used < 200000
      && s.value.(used := 0) == State({Key(days, first)}, {first, x + DOT2}, 0, [], 1, [])
  {
    var first := x + DOT3;
    ThreeDotsOverflow(c, x, days);
    UsedAfterOverflow(c, x, days);
    hide OutcomeOf, Key;
    assert QUESTION !in first;
  }

  lemma UsedAfterOverflow(c: Config, x: bytes, days: uint16)
    requires |x| == 65526
    ensures UsedAfter(c, x + DOT3, days, 0, BufOverflow([x + DOT3, x + DOT2])) < 200000
  {
    var a, b := x + DOT3, x + DOT2;
    var tree := TreeRow(c, a);
    RowSize(tree);
    PrefixBytes(c, [a, b]);
    assert [a, b][1..] == [b] && [b][1..] == [];
    assert Cost([]) == 0 && Cost([b]) == Share(b) + Cost([]);
    assert Cost([a, b]) == Share(a) + Cost([b]);
    hide EncodeIndex, EncodeIndexAll, PrefixRows, Cost;
  }

  lemma KnownStops(c: Config, name: bytes, days: uint16, i: nat, known: set<bytes>, used: nat)
    requires i < |name| <= LongestName(c) && name[i] == DOT && Free(name, DOT, i + 1, |name|) && name[..i + 1] in known
    requires 2 * Share(name) < BUFFER_SIZE - used
    ensures OutcomeOf(c, name, days, known, used) == Rows([])
  {
    ClimbOnce(c, name, i, known, 2 * Share(name), |EncodeIndex(TreeRow(c, name))|);
    NamesFit(c, name, days, known, used);
    hide ClimbFrom, RowsOf, EncodeIndexAll, EncodeIndex;
  }

  lemma OtherName(x: bytes, days: uint16)
    ensures Key(days, x + DOT2 + [98]) != Key(days, x + DOT3)
    ensures (x + DOT2 + [98])[..|x| + 2] == x + DOT2 && IsDotPrefix(x + DOT2, x + DOT2 + [98])
  {
    var first, name := x + DOT3, x + DOT2 + [98];
    assert name[|name| - 1] != first[|first| - 1];
    assert name[..|x| + 2] == x + DOT2;
    if Key(days, name) == Key(days, first) {
      KeyInjective(days, name, days, first);
    }
  }

  /** After it, a name below the second prefix is stored without it: the mark stayed, the row did
      not. */
  lemma {:induction false} MarkedButNotStored(c: Config, x: bytes, days: uint16)
    requires |x| == 65526 && QUESTION !in x
    ensures
      var lost, name := x + DOT2, x + DOT2 + [98];
      var s := Run(c, START, [Entry(x + DOT3, days, false), Entry(name, days, false)]);
      s.Some? && s.value.stored == [name] && IsDotPrefix(lost, name) && PrefixRow(c, lost) !in s.value.rows
  {
    var lost, name := x + DOT2, x + DOT2 + [98];
    var e1, e2 := Entry(x + DOT3, days, false), Entry(name, days, false);
    AfterOverflow(c, x, days);
    var s1 := Step(c, START, e1).value;
    OtherName(x, days);
    assert QUESTION !in name;
    KnownStops(c, name, days, |x| + 1, s1.known, s1.used);
    SecondStep(c, s1, e2);
    PrefixPathsMember(c, RowsOf(c, name, days, []), lost);
    RowsOfPaths(c, name, days, []);
    hide PrefixRow, RowsOf, PrefixPaths, IsDotPrefix, Step, Run, OutcomeOf, Key;
    RunTwo(c, START, e1, e2);
  }

  lemma SecondStep(c: Config, s: State, e: Entry)
    requires !Skipped(s, e) && ParseOne(c, s, e) == Rows([]) && s.rows == [] && s.stored == []
    ensures
      var s' := Step(c, s, e);
      s'.Some? && s'.value.stored == [e.name] && s'.value.rows == RowsOf(c, e.name, e.days, [])
  {
    hide OutcomeOf, RowsOf;
  }

  lemma RunTwo(c: Config, s: State, e1: Entry, e2: Entry)
    requires Step(c, s, e1).Some? && Step(c, Step(c, s, e1).value, e2).Some?
    ensures Run(c, s, [e1, e2]) == Step(c, Step(c, s, e1).value, e2)
  {
    hide Step;
    var s1 := Step(c, s, e1).value;
    var s2 := Step(c, s1, e2).value;
    assert [e1, e2][1..] == [e2] && [e2][1..] == [];
    assert Run(c, s2, []) == Some(s2);
    assert Run(c, s1, [e2]) == Some(s2);
  }

  /* ---- what is counted ---- */

  lemma {:induction false} CountedRun(c: Config, s: State, entries: seq<Entry>)
    requires Run(c, s, entries).Some?
    ensures
      var end := Run(c, s, entries).value;
      && s.newSeries <= end.newSeries
      && end.n - s.n == |end.newSeries| - |s.newSeries|
    decreases |entries|
  {
    if entries != [] {
      var s', key := Step(c, s, entries[0]).value, Key(entries[0].days, entries[0].name);
      assert s'.newSeries == s.newSeries || (key !in s.newSeries && s'.newSeries == s.newSeries + {key});
      CountedRun(c, s', entries[1..]);
      hide ParseOne, UsedAfter, Key, RowsOf;
    }
  }

  /** Each name counted is one key marked. */
  lemma CountIsKeys(c: Config, entries: seq<Entry>)
    requires Run(c, START, entries).Some?
    ensures var s := Run(c, START, entries).value; s.n == |s.newSeries| && |s.stored| <= s.n
  {
    CountedRun(c, START, entries);
    StoredCount(c, START, entries);
  }

  lemma {:induction false} StoredCount(c: Config, s: State, entries: seq<Entry>)
    requires Run(c, s, entries).Some? && |s.stored| <= s.n
    ensures var end := Run(c, s, entries).value; |end.stored| <= end.n
    decreases |entries|
  {
    if entries != [] {
      StoredCount(c, Step(c, s, entries[0]).value, entries[1..]);
      hide ParseOne, UsedAfter, Key, RowsOf;
    }
  }
}

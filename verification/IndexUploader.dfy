/** What the index table gets (uploader/index.go): for each plain name a leaf row, a row for each
    prefix that ends in a dot, a reversed row, and two rows for the day. */
module IndexUploader {
  import opened ByteStrings
  import opened Varint
  import opened RowBinary
  import opened DottedPath
  import opened WriteBuffers
  import opened TableRows

  const REVERSE_LEVEL_OFFSET := 10000
  const TREE_LEVEL_OFFSET := 20000
  const REVERSE_TREE_LEVEL_OFFSET := 30000

  datatype Config = Config(treeDate: uint16, version: uint32, disableDaily: bool)

  function Dots(s: bytes): nat
  {
    multiset(s)[DOT]
  }

  lemma DotsAround(a: bytes, b: bytes)
    ensures Dots(a + [DOT] + b) == Dots(a) + 1 + Dots(b)
  {
  }

  lemma NoDots(s: bytes)
    requires DOT !in s
    ensures Dots(s) == 0
  {
    assert DOT !in multiset(s);
  }

  /** `pathLevel` */
  method PathLevel(name: bytes) returns (level: nat)
    ensures level == Dots(name) + 1
  {
    hide IndexByte;
    var p := name;
    level := 1;
    var index := IndexByte(p, DOT);
    while index >= 0
      invariant index == IndexByte(p, DOT) && level + Dots(p) == Dots(name) + 1
      decreases |p|
    {
      IndexByteFinds(p, DOT);
      assert p == p[..index] + [DOT] + p[index + 1..];
      DotsAround(p[..index], p[index + 1..]);
      NoDots(p[..index]);
      p := p[index + 1..];
      level := level + 1;
      index := IndexByte(p, DOT);
    }
    IndexByteFinds(p, DOT);
    NoDots(p);
  }

  /* ---- prefixes ---- */

  /** The prefixes that end in a dot, longest first. */
  function Ancestors(p: bytes): seq<bytes>
    decreases |p|
  {
    var i := LastIndexByte(p, DOT);
    if i < 0 then [] else [p[..i + 1]] + Ancestors(p[..i])
  }

  lemma LastDot(p: bytes)
    ensures var i := LastIndexByte(p, DOT);
            if i < 0 then Dots(p) == 0 else Dots(p) == Dots(p[..i]) + 1 == Dots(p[..i + 1])
  {
    LastIndexByteFinds(p, DOT);
    var i := LastIndexByte(p, DOT);
    hide LastIndexByte;
    if i < 0 {
      NoDots(p);
    } else {
      var rest := p[i + 1..];
      assert p == p[..i] + [DOT] + rest;
      NoDots(rest);
      DotsAround(p[..i], rest);
      assert p[..i + 1] == p[..i] + [DOT] + [];
      DotsAround(p[..i], []);
      NoDots([]);
    }
  }

  lemma AncestorsStep(p: bytes)
    ensures var i := LastIndexByte(p, DOT);
            Ancestors(p) == if i < 0 then [] else [p[..i + 1]] + Ancestors(p[..i])
  {
  }

  lemma {:induction false} AncestorsCount(p: bytes)
    ensures |Ancestors(p)| == Dots(p)
    ensures forall j | 0 <= j < |Ancestors(p)| :: Dots(Ancestors(p)[j]) == Dots(p) - j
    decreases |p|
  {
    var i := LastIndexByte(p, DOT);
    LastDot(p);
    AncestorsStep(p);
    hide LastIndexByte, Dots, Ancestors;
    if i >= 0 {
      AncestorsCount(p[..i]);
    }
  }

  ghost predicate IsDotPrefix(a: bytes, p: bytes)
  {
    a != [] && |a| <= |p| && a == p[..|a|] && a[|a| - 1] == DOT
  }

  lemma DotPrefixStep(a: bytes, p: bytes, i: nat)
    requires i < |p| && p[i] == DOT && Free(p, DOT, i + 1, |p|)
    ensures IsDotPrefix(a, p) <==> a == p[..i + 1] || IsDotPrefix(a, p[..i])
  {
    if IsDotPrefix(a, p) && |a| <= i {
      assert p[..i][..|a|] == p[..|a|];
    }
    if IsDotPrefix(a, p[..i]) {
      assert p[..i][..|a|] == p[..|a|];
    }
  }

  lemma NoDotPrefix(a: bytes, p: bytes)
    requires DOT !in p
    ensures !IsDotPrefix(a, p)
  {
    if 0 < |a| <= |p| {
      assert p[..|a|][|a| - 1] in p;
    }
  }

  /** They are exactly the prefixes that end in a dot. */
  lemma {:induction false} AncestorsArePrefixes(p: bytes, a: bytes)
    ensures a in Ancestors(p) <==> IsDotPrefix(a, p)
    decreases |p|
  {
    var i := LastIndexByte(p, DOT);
    LastIndexByteFinds(p, DOT);
    AncestorsStep(p);
    if i >= 0 {
      hide LastIndexByte, Ancestors;
      AncestorsArePrefixes(p[..i], a);
      DotPrefixStep(a, p, i);
    } else {
      NoDotPrefix(a, p);
    }
  }

  /* ---- the rows of one name ---- */

  /** What one prefix adds to the size estimate. */
  function Share(p: bytes): nat
  {
    2 + 4 + |p| + 4
  }

  function Level(level: nat, offset: nat): uint32
  {
    (level + offset) % TWO32
  }

  function PrefixRow(c: Config, a: bytes): IndexRow
  {
    IndexRow(c.treeDate, Level(Dots(a), TREE_LEVEL_OFFSET), a, c.version)
  }

  function PrefixRows(c: Config, segments: seq<bytes>): (r: seq<IndexRow>)
    ensures |r| == |segments|
  {
    seq(|segments|, i requires 0 <= i < |segments| => PrefixRow(c, segments[i]))
  }

  /** The prefixes that the climb from `p` writes: up to the first known one, or to the first that
      the estimate has no room for. */
  datatype Climb = Climb(segments: seq<bytes>, ok: bool)

  function ClimbFrom(c: Config, p: bytes, known: set<bytes>, estimate: nat, used: nat): Climb
    decreases |p|
  {
    var i := LastIndexByte(p, DOT);
    if i < 0 || p[..i + 1] in known then Climb([], true)
    else
      var a := p[..i + 1];
      if estimate + Share(a) >= BUFFER_SIZE - used then Climb([], false)
      else
        var more := ClimbFrom(c, p[..i], known, estimate + Share(a), used + |EncodeIndex(PrefixRow(c, a))|);
        Climb([a] + more.segments, more.ok)
  }

  function TreeRow(c: Config, name: bytes): IndexRow
  {
    IndexRow(c.treeDate, Level(Dots(name) + 1, TREE_LEVEL_OFFSET), name, c.version)
  }

  /** The reversed row, and the two of the day. */
  function LastRows(c: Config, name: bytes, days: uint16): seq<IndexRow>
  {
    var level, reversed := Dots(name) + 1, ReversePath(name);
    [IndexRow(c.treeDate, Level(level, REVERSE_TREE_LEVEL_OFFSET), reversed, c.version)] +
    if c.disableDaily then []
    else [IndexRow(days, Level(level, 0), name, c.version),
        IndexRow(days, Level(level, REVERSE_LEVEL_OFFSET), reversed, c.version)]
  }

  function RowsOf(c: Config, name: bytes, days: uint16, segments: seq<bytes>): seq<IndexRow>
  {
    [TreeRow(c, name)] + PrefixRows(c, segments) + LastRows(c, name, days)
  }

  /** `Panic` is a write past the end of the buffer. On an overflow some prefixes may have been marked
      as known although their rows are thrown away. */
  datatype Outcome = BufOverflow(marked: seq<bytes>) | Panic | Rows(segments: seq<bytes>)

  /** `used` is what the buffer holds of the name before. */
  function OutcomeOf(c: Config, name: bytes, days: uint16, known: set<bytes>, used: nat): Outcome
  {
    var estimate := 2 * Share(name);
    if estimate >= BUFFER_SIZE - used then BufOverflow([])
    else
      var climb := ClimbFrom(c, name, known, estimate, |EncodeIndex(TreeRow(c, name))|);
      if !climb.ok then BufOverflow(climb.segments)
      else if |EncodeIndexAll(RowsOf(c, name, days, climb.segments))| > BUFFER_SIZE then Panic
      else Rows(climb.segments)
  }

  /** The prefixes that one name makes known. */
  function Marked(o: Outcome): seq<bytes>
    requires !o.Panic?
  {
    if o.Rows? then o.segments else o.marked
  }

  /** What the buffer holds after a name. */
  function UsedAfter(c: Config, name: bytes, days: uint16, used: nat, o: Outcome): nat
    requires !o.Panic?
  {
    if o.Rows? then |EncodeIndexAll(RowsOf(c, name, days, o.segments))|
    else if 2 * Share(name) >= BUFFER_SIZE - used then used
    else |EncodeIndex(TreeRow(c, name))| + |EncodeIndexAll(PrefixRows(c, o.marked))|
  }

  class IndexBuffers {
    const wb: WriteBuffer
    var newUniq: set<bytes>
    var reverseName: array<byte>

    ghost predicate Valid()
      reads this, wb
    {
      wb.Valid() && reverseName != wb.body
    }

    constructor ()
      ensures Valid() && fresh(wb) && fresh(wb.body) && fresh(reverseName)
      ensures newUniq == {} && wb.used == 0
    {
      wb := new WriteBuffer();
      newUniq := {};
      reverseName := new byte[256];
    }

    /** The reversed name, in the reusable buffer, which grows when it must. */
    method Reverse(name: bytes) returns (reversed: bytes)
      requires Valid()
      modifies this`reverseName, reverseName
      ensures Valid() && reversed == ReversePath(name)
      ensures reverseName == old(reverseName) || fresh(reverseName)
    {
      if |name| > reverseName.Length {
        reverseName := new byte[|name| * 2];
      }
      ReverseBytesTo(reverseName, name);
      return reverseName[..|name|];
    }

    /** One row, field by field; `false` is a write out of range. */
    method WriteRow(r: IndexRow) returns (ok: bool)
      requires Valid()
      modifies wb`used, wb.body
      ensures Valid()
      ensures ok <==> old(wb.used) + |EncodeIndex(r)| <= BUFFER_SIZE
      ensures ok ==> wb.Contents() == old(wb.Contents()) + EncodeIndex(r)
    {
      hide LittleEndian, PutUvarint;
      ghost var before, d, l, v := wb.Contents(), LittleEndian(r.days, 2), LittleEndian(r.level, 4),
          LittleEndian(r.version, 4);
      if wb.used + 2 > BUFFER_SIZE {
        return false;
      }
      wb.Put(LittleEndian(r.days, 2));
      if wb.used + 4 > BUFFER_SIZE {
        return false;
      }
      wb.Put(LittleEndian(r.level, 4));
      if wb.used + |PutUvarint(|r.path|)| > BUFFER_SIZE {
        return false;
      }
      wb.WriteBytes(r.path);
      if wb.used + 4 > BUFFER_SIZE {
        return false;
      }
      wb.Put(LittleEndian(r.version, 4));
      RegroupRow(before, d, l, Field(r.path), v);
      return true;
    }

    /** The rows of the prefixes, walking up until a known one. */
    method WritePrefixes(c: Config, name: bytes, level: nat, estimate: nat) returns (segments: seq<bytes>, ok: bool)
      requires Valid() && level == Dots(name) + 1 && estimate >= 3
      modifies wb`used, wb.body, this`newUniq
      ensures Valid() && Climb(segments, ok) == ClimbFrom(c, name, old(newUniq), estimate, old(wb.used))
      ensures newUniq == old(newUniq) + (set a | a in segments)
      ensures wb.Contents() == old(wb.Contents()) + EncodeIndexAll(PrefixRows(c, segments))
    {
      hide EncodeIndex, EncodeIndexAll, LastIndexByte, Dots, PrefixRow, PrefixRows, ClimbFrom;
      ghost var known, head := newUniq, wb.Contents();
      var p, l, sizeIndex := name, level - 1, estimate;
      segments := [];
      NoPrefixRows(c, head);
      EmptyFirst(ClimbFrom(c, name, known, estimate, wb.used).segments);
      while l > 0
        invariant Valid() && l == Dots(p) && sizeIndex >= 3
        invariant newUniq == known + (set a | a in segments)
        invariant forall a | a in segments :: |a| > |p|
        invariant wb.Contents() == head + EncodeIndexAll(PrefixRows(c, segments))
        invariant After(segments, ClimbFrom(c, p, known, sizeIndex, wb.used)) ==
            ClimbFrom(c, name, known, estimate, old(wb.used))
        decreases |p|
      {
        LastDot(p);
        var index := LastIndexByte(p, DOT);
        var segment := p[..index + 1];
        ClimbStep(c, p, known, sizeIndex, wb.used, segments);
        if segment in newUniq {
          return segments, true;
        }
        sizeIndex := sizeIndex + (2 + 4 + |segment| + 4);
        if sizeIndex >= wb.FreeSize() {
          return segments, false;
        }
        newUniq := newUniq + {segment};
        RowSize(PrefixRow(c, segment));
        PrefixRowIs(c, segment);
        PrefixRowsSnoc(c, segments, segment);
        ghost var before := wb.Contents();
        var fits := WriteRow(IndexRow(c.treeDate, Level(l, TREE_LEVEL_OFFSET), segment, c.version));
        Assoc(head, EncodeIndexAll(PrefixRows(c, segments)), EncodeIndex(PrefixRow(c, segment)));
        segments := segments + [segment];
        p := p[..index];
        l := l - 1;
      }
      assert segments + [] == segments;
      NoMorePrefixes(c, p, known, sizeIndex, wb.used);
      ok := true;
    }

    /** The rows after the prefixes. */
    method WriteLast(c: Config, name: bytes, reversed: bytes, days: uint16, level: nat) returns (ok: bool)
      requires Valid() && level == Dots(name) + 1 && reversed == ReversePath(name)
      modifies wb`used, wb.body
      ensures Valid() && (ok <==> old(wb.used) + |EncodeIndexAll(LastRows(c, name, days))| <= BUFFER_SIZE)
      ensures ok ==> wb.Contents() == old(wb.Contents()) + EncodeIndexAll(LastRows(c, name, days))
    {
      hide EncodeIndex, Dots, ReversePath;
      ghost var rows, before := LastRows(c, name, days), wb.Contents();
      EncodeIndexFew(rows);
      ok := WriteRow(IndexRow(c.treeDate, Level(level, REVERSE_TREE_LEVEL_OFFSET), reversed, c.version));
      if !ok || c.disableDaily {
        return ok;
      }
      ok := WriteRow(IndexRow(days, Level(level, 0), name, c.version));
      if !ok {
        return false;
      }
      ok := WriteRow(IndexRow(days, Level(level, REVERSE_LEVEL_OFFSET), reversed, c.version));
      RegroupThree(before, EncodeIndex(rows[0]), EncodeIndex(rows[1]), EncodeIndex(rows[2]));
    }

    /** `parseName`. The first guard looks at the buffer before it is emptied. */
    method Parse(c: Config, name: bytes, reversed: bytes, days: uint16) returns (o: Outcome)
      requires Valid() && reversed == ReversePath(name)
      modifies wb`used, wb.body, this`newUniq
      ensures Valid() && o == OutcomeOf(c, name, days, old(newUniq), old(wb.used))
      ensures o.Rows? ==> wb.Contents() == EncodeIndexAll(RowsOf(c, name, days, o.segments))
      ensures !o.Panic? ==> newUniq == old(newUniq) + (set a | a in Marked(o))
      ensures !o.Panic? ==> wb.used == UsedAfter(c, name, days, old(wb.used), o)
    {
      hide EncodeIndex, EncodeIndexAll, ReversePath, Dots, ClimbFrom, PrefixRows, LastRows;
      var sizeIndex := 2 * (2 + 4 + |name| + 4);
      if sizeIndex >= wb.FreeSize() {
        return BufOverflow([]);
      }
      wb.Reset();
      var level := PathLevel(name);
      var tree := IndexRow(c.treeDate, Level(level, TREE_LEVEL_OFFSET), name, c.version);
      assert tree == TreeRow(c, name);
      RowSize(tree);
      var ok := WriteRow(tree);
      EmptyFirst(EncodeIndex(tree));
      var segments;
      segments, ok := WritePrefixes(c, name, level, sizeIndex);
      if !ok {
        return BufOverflow(segments);
      }
      EncodeRowsOf(c, name, days, segments);
      ok := WriteLast(c, name, reversed, days, level);
      if !ok {
        return Panic;
      }
      return Rows(segments);
    }
  }

  lemma EncodeRowsOf(c: Config, name: bytes, days: uint16, segments: seq<bytes>)
    ensures EncodeIndexAll(RowsOf(c, name, days, segments)) ==
            EncodeIndex(TreeRow(c, name)) + EncodeIndexAll(PrefixRows(c, segments)) +
            EncodeIndexAll(LastRows(c, name, days))
  {
    var tree, prefixes, last := TreeRow(c, name), PrefixRows(c, segments), LastRows(c, name, days);
    hide EncodeIndex, PrefixRows, LastRows;
    EncodeIndexAppend([tree] + prefixes, last);
    EncodeIndexAppend([tree], prefixes);
    EncodeIndexOne(tree);
  }

  lemma EncodeIndexFew(rows: seq<IndexRow>)
    requires |rows| == 1 || |rows| == 3
    ensures |rows| == 1 ==> EncodeIndexAll(rows) == EncodeIndex(rows[0])
    ensures |rows| == 3 ==> EncodeIndexAll(rows) == EncodeIndex(rows[0]) + (EncodeIndex(rows[1]) + EncodeIndex(rows[2]))
  {
    hide EncodeIndex;
    EncodeIndexOne(rows[|rows| - 1]);
    if |rows| == 3 {
      assert rows[1..][1..] == [rows[2]];
      assert EncodeIndexAll(rows[1..]) == EncodeIndex(rows[1]) + EncodeIndexAll([rows[2]]);
    } else {
      assert rows == [rows[0]];
    }
  }

  lemma RegroupThree(w: bytes, a: bytes, b: bytes, c: bytes)
    ensures w + a + b + c == w + (a + (b + c))
  {
  }

  lemma NoPrefixRows(c: Config, head: bytes)
    ensures head + EncodeIndexAll(PrefixRows(c, [])) == head
  {
    assert PrefixRows(c, []) == [];
  }

  /** A climb that has written `done` before. */
  function After(done: seq<bytes>, climb: Climb): Climb
  {
    Climb(done + climb.segments, climb.ok)
  }

  lemma ClimbStep(c: Config, p: bytes, known: set<bytes>, estimate: nat, used: nat, done: seq<bytes>)
    requires LastIndexByte(p, DOT) >= 0
    ensures
      var i := LastIndexByte(p, DOT);
      var a := p[..i + 1];
      var estimate' := estimate + Share(a);
      After(done, ClimbFrom(c, p, known, estimate, used)) ==
      if a in known then Climb(done, true)
      else if estimate' >= BUFFER_SIZE - used then Climb(done, false)
      else After(done + [a], ClimbFrom(c, p[..i], known, estimate', used + |EncodeIndex(PrefixRow(c, a))|))
  {
    var i := LastIndexByte(p, DOT);
    var a := p[..i + 1];
    hide EncodeIndex, PrefixRow, LastIndexByte;
    assert done + [] == done;
    Assoc(done, [a], ClimbFrom(c, p[..i], known, estimate + Share(a), used + |EncodeIndex(PrefixRow(c, a))|).segments);
  }

  lemma NoMorePrefixes(c: Config, p: bytes, known: set<bytes>, estimate: nat, used: nat)
    requires Dots(p) == 0
    ensures ClimbFrom(c, p, known, estimate, used) == Climb([], true)
  {
    LastDot(p);
  }

  lemma PrefixRowIs(c: Config, a: bytes)
    ensures PrefixRow(c, a) == IndexRow(c.treeDate, Level(Dots(a), TREE_LEVEL_OFFSET), a, c.version)
  {
  }

  lemma EncodeIndexOne(r: IndexRow)
    ensures EncodeIndexAll([r]) == EncodeIndex(r)
  {
    assert [r][1..] == [];
    assert EncodeIndexAll([r]) == EncodeIndex(r) + [];
  }

  lemma PrefixRowsSnoc(c: Config, segments: seq<bytes>, a: bytes)
    ensures PrefixRows(c, segments + [a]) == PrefixRows(c, segments) + [PrefixRow(c, a)]
    ensures EncodeIndexAll(PrefixRows(c, segments + [a])) ==
        EncodeIndexAll(PrefixRows(c, segments)) + EncodeIndex(PrefixRow(c, a))
  {
    assert PrefixRows(c, segments + [a]) == PrefixRows(c, segments) + [PrefixRow(c, a)];
    EncodeIndexAppend(PrefixRows(c, segments), [PrefixRow(c, a)]);
    EncodeIndexOne(PrefixRow(c, a));
  }

  /** The estimate forgets the length's own bytes: one to three of them. */
  lemma RowSize(r: IndexRow)
    ensures |EncodeIndex(r)| >= Share(r.path) + 1
    ensures |r.path| < BUFFER_SIZE ==> |EncodeIndex(r)| <= Share(r.path) + 3
  {
    VarintSize(|r.path|);
  }

  lemma RegroupRow(w: bytes, a: bytes, b: bytes, c: bytes, d: bytes)
    ensures w + a + b + c + d == w + (a + (b + (c + d)))
  {
  }

  /* ---- what the rows are ---- */

  lemma FewDots(s: bytes)
    ensures Dots(s) <= |s|
  {
    assert |multiset(s)| == |s|;
  }

  lemma PrefixRowAt(c: Config, name: bytes, days: uint16, segments: seq<bytes>, i: nat)
    requires i < |segments|
    ensures RowsOf(c, name, days, segments)[1 + i] == PrefixRow(c, segments[i])
  {
    hide PrefixRow, TreeRow, LastRows;
    var prefixes := PrefixRows(c, segments);
    assert prefixes[i] == PrefixRow(c, segments[i]);
    assert (([TreeRow(c, name)] + prefixes) + LastRows(c, name, days))[1 + i] == prefixes[i];
  }

  lemma LastRowAt(c: Config, name: bytes, days: uint16, segments: seq<bytes>)
    ensures
      var rows, k, last := RowsOf(c, name, days, segments), |segments|, LastRows(c, name, days);
      |rows| == 1 + k + |last| && rows[0] == TreeRow(c, name) && rows[1 + k..] == last
  {
    hide TreeRow, LastRows;
  }

  lemma {:induction false} IndexRowsFit(rows: seq<IndexRow>)
    requires |EncodeIndexAll(rows)| <= BUFFER_SIZE
    ensures forall r | r in rows :: |r.path| < BUFFER_SIZE
  {
    if rows != [] {
      RowSize(rows[0]);
      hide EncodeIndex;
      IndexRowsFit(rows[1..]);
      assert rows == [rows[0]] + rows[1..];
    }
  }

  /** A row of the day `days`, at a level that does not wrap around. */
  ghost predicate IsRow(r: IndexRow, c: Config, days: uint16, level: nat, path: bytes)
  {
    r.days == days && r.level == level && r.path == path && r.version == c.version
  }

  /** Exactly these rows, in order: the name, at level 20001 plus its dots; each prefix written, at
      20000 plus its dots; the reversed name, at 30001 plus the dots; and, unless they are disabled,
      the name and the reversed name of the day, at 1 and 10001 plus the dots. */
  ghost predicate AreRowsOf(c: Config, name: bytes, days: uint16, segments: seq<bytes>, rows: seq<IndexRow>)
  {
    var k, dots, reversed := |segments|, multiset(name)[DOT], ReversePath(name);
    && |rows| == k + (if c.disableDaily then 2 else 4)
    && IsRow(rows[0], c, c.treeDate, 20001 + dots, name)
    && (forall i | 0 <= i < k :: IsRow(rows[1 + i], c, c.treeDate, 20000 + multiset(segments[i])[DOT], segments[i]))
    && IsRow(rows[1 + k], c, c.treeDate, 30001 + dots, reversed)
    && (!c.disableDaily ==>
          IsRow(rows[2 + k], c, days, 1 + dots, name) && IsRow(rows[3 + k], c, days, 10001 + dots, reversed))
  }

  lemma LastRowsAre(c: Config, name: bytes, days: uint16)
    requires |name| < BUFFER_SIZE
    ensures
      var rows, dots := LastRows(c, name, days), multiset(name)[DOT];
      && IsRow(TreeRow(c, name), c, c.treeDate, 20001 + dots, name)
      && |rows| == (if c.disableDaily then 1 else 3)
      && IsRow(rows[0], c, c.treeDate, 30001 + dots, ReversePath(name))
      && (!c.disableDaily ==>
            IsRow(rows[1], c, days, 1 + dots, name) && IsRow(rows[2], c, days, 10001 + dots, ReversePath(name)))
  {
    FewDots(name);
    hide ReversePath;
  }

  lemma RowsAre(c: Config, name: bytes, days: uint16, segments: seq<bytes>)
    requires |name| < BUFFER_SIZE && forall a | a in segments :: |a| < BUFFER_SIZE
    ensures AreRowsOf(c, name, days, segments, RowsOf(c, name, days, segments))
  {
    var rows, k := RowsOf(c, name, days, segments), |segments|;
    LastRowAt(c, name, days, segments);
    LastRowsAre(c, name, days);
    hide RowsOf, LastRows, TreeRow, ReversePath;
    var last := LastRows(c, name, days);
    assert last[0] == rows[1 + k] && (!c.disableDaily ==> last[1] == rows[2 + k] && last[2] == rows[3 + k]);
    forall i | 0 <= i < k
      ensures IsRow(rows[1 + i], c, c.treeDate, 20000 + multiset(segments[i])[DOT], segments[i])
    {
      PrefixRowAt(c, name, days, segments, i);
      FewDots(segments[i]);
    }
  }

  /** Without an error the buffer decodes to exactly the rows of the name and of the prefixes written. */
  lemma {:induction false} RowsDecode(c: Config, name: bytes, days: uint16, known: set<bytes>, used: nat)
    ensures
      var o := OutcomeOf(c, name, days, known, used);
      o.Rows? ==>
        var s := EncodeIndexAll(RowsOf(c, name, days, o.segments));
        && |s| <= BUFFER_SIZE
        && match DecodeIndexAll(s)
           case Broken => false
           case Value(rows, rest) => rest == [] && AreRowsOf(c, name, days, o.segments, rows)
  {
    var o := OutcomeOf(c, name, days, known, used);
    if o.Rows? {
      var segments := o.segments;
      var rows := RowsOf(c, name, days, segments);
      assert |EncodeIndexAll(rows)| <= BUFFER_SIZE;
      hide *;
      IndexRowsFit(rows);
      IndexRowsRoundTrip(rows);
      PathsAmongRows(c, name, days, segments);
      RowsAre(c, name, days, segments);
    }
  }

  lemma PathsAmongRows(c: Config, name: bytes, days: uint16, segments: seq<bytes>)
    requires forall r | r in RowsOf(c, name, days, segments) :: |r.path| < BUFFER_SIZE
    ensures |name| < BUFFER_SIZE && forall a | a in segments :: |a| < BUFFER_SIZE
  {
    var rows := RowsOf(c, name, days, segments);
    LastRowAt(c, name, days, segments);
    assert rows[0] in rows && rows[0].path == name;
    forall a | a in segments
      ensures |a| < BUFFER_SIZE
    {
      var i :| 0 <= i < |segments| && segments[i] == a;
      PrefixRowAt(c, name, days, segments, i);
      assert rows[1 + i] in rows && rows[1 + i].path == a;
    }
  }

  /* ---- whether the rows fit ---- */

  function Cost(segments: seq<bytes>): nat
  {
    if segments == [] then 0 else Share(segments[0]) + Cost(segments[1..])
  }

  lemma PrefixRowsFirst(c: Config, segments: seq<bytes>)
    requires segments != []
    ensures EncodeIndexAll(PrefixRows(c, segments)) ==
        EncodeIndex(PrefixRow(c, segments[0])) + EncodeIndexAll(PrefixRows(c, segments[1..]))
  {
    assert PrefixRows(c, segments)[1..] == PrefixRows(c, segments[1..]);
  }

  /** A length's own bytes are few beside the rest of the row. */
  lemma VarintShare(r: IndexRow)
    requires 1 <= |r.path| < BUFFER_SIZE
    ensures 11 * |EncodeIndex(r)| <= 12 * Share(r.path)
  {
    RowSize(r);
    if |r.path| < 128 { assert |PutUvarint(|r.path|)| == 1; }
  }

  /** How many bytes the rows of the prefixes take, beside what the estimate counts for them. */
  lemma {:induction false} PrefixBytes(c: Config, segments: seq<bytes>)
    requires forall a | a in segments :: 1 <= |a| < BUFFER_SIZE
    ensures
      var n, cost := |EncodeIndexAll(PrefixRows(c, segments))|, Cost(segments);
      cost <= n <= cost + 3 * |segments| && 11 * n <= 12 * cost
  {
    if segments == [] {
      assert PrefixRows(c, segments) == [];
    } else {
      assert segments[0] in segments;
      PrefixRowsFirst(c, segments);
      RowSize(PrefixRow(c, segments[0]));
      VarintShare(PrefixRow(c, segments[0]));
      hide EncodeIndex, EncodeIndexAll, PrefixRows;
      PrefixBytes(c, segments[1..]);
    }
  }

  /** Each prefix is shorter than the one before. */
  ghost predicate Shrinking(segments: seq<bytes>, n: nat)
  {
    && (forall a | a in segments :: 1 <= |a| <= n)
    && (forall i, j | 0 <= i < j < |segments| :: |segments[i]| > |segments[j]|)
  }

  lemma {:induction false} ClimbShrinks(c: Config, p: bytes, known: set<bytes>, estimate: nat, used: nat)
    ensures Shrinking(ClimbFrom(c, p, known, estimate, used).segments, |p|)
    decreases |p|
  {
    var i := LastIndexByte(p, DOT);
    hide EncodeIndex, LastIndexByte, PrefixRow;
    if i >= 0 && ClimbFrom(c, p, known, estimate, used).segments != [] {
      var a := p[..i + 1];
      var used' := used + |EncodeIndex(PrefixRow(c, a))|;
      ClimbShrinks(c, p[..i], known, estimate + Share(a), used');
      var more := ClimbFrom(c, p[..i], known, estimate + Share(a), used').segments;
      assert forall k | 0 <= k < |more| :: more[k] in more;
    }
  }

  /** The last of several prefixes is a small part of what they cost. */
  lemma ShrinkingCost(segments: seq<bytes>, n: nat)
    requires Shrinking(segments, n) && segments != []
    ensures
      var last := Share(segments[|segments| - 1]);
      && last <= n + 10
      && (|segments| == 1 ==> Cost(segments) == last)
      && (|segments| == 2 ==> Cost(segments) <= 2 * n + 19)
      && (|segments| >= 3 ==> 3 * last + 3 <= Cost(segments))
  {
    assert segments[|segments| - 1] in segments && segments[0] in segments;
    if |segments| > 1 {
      assert Cost(segments) == Share(segments[0]) + Cost(segments[1..]);
      assert Cost(segments[1..]) == Share(segments[1]) + Cost(segments[1..][1..]);
      if |segments| == 2 {
        assert segments[1..][1..] == [];
      } else {
        var rest := segments[1..][1..];
        assert rest[|rest| - 1] == segments[|segments| - 1];
        CostOfLast(rest);
      }
    }
  }

  lemma {:induction false} CostOfLast(segments: seq<bytes>)
    requires segments != []
    ensures Cost(segments) >= Share(segments[|segments| - 1])
  {
    if |segments| > 1 { CostOfLast(segments[1..]); }
  }

  lemma {:induction false} ClimbSegments(c: Config, p: bytes, known: set<bytes>, estimate: nat, used: nat)
    ensures forall a | a in ClimbFrom(c, p, known, estimate, used).segments :: 1 <= |a| <= |p|
  {
    ClimbShrinks(c, p, known, estimate, used);
  }

  /** When the last prefix was written, what had been written and the estimate together were below
      the buffer's size. */
  lemma {:induction false} ClimbBudget(c: Config, p: bytes, known: set<bytes>, estimate: nat, used: nat)
    ensures
      var climb := ClimbFrom(c, p, known, estimate, used);
      var k := |climb.segments|;
      k > 0 ==>
        used + |EncodeIndexAll(PrefixRows(c, climb.segments))| + estimate + Cost(climb.segments) <
        BUFFER_SIZE + |EncodeIndex(PrefixRow(c, climb.segments[k - 1]))|
    decreases |p|
  {
    var climb := ClimbFrom(c, p, known, estimate, used);
    hide EncodeIndex, EncodeIndexAll, PrefixRows, LastIndexByte, PrefixRow;
    if climb.segments != [] {
      var i := LastIndexByte(p, DOT);
      var a := p[..i + 1];
      var used' := used + |EncodeIndex(PrefixRow(c, a))|;
      var more := ClimbFrom(c, p[..i], known, estimate + Share(a), used').segments;
      PrefixRowsFirst(c, climb.segments);
      ClimbBudget(c, p[..i], known, estimate + Share(a), used');
      NoPrefixRows(c, []);
      assert climb.segments == [a] + more && climb.segments[1..] == more;
    }
  }

  lemma LastRowsSize(c: Config, name: bytes, days: uint16)
    ensures |EncodeIndexAll(LastRows(c, name, days))| ==
        (if c.disableDaily then 1 else 3) * |EncodeIndex(TreeRow(c, name))|
  {
    var rows := LastRows(c, name, days);
    EncodeIndexFew(rows);
    ReversePathLength(name);
    RowSize(rows[0]);
    RowSize(rows[|rows| - 1]);
    if |rows| == 3 {
      RowSize(rows[1]);
    }
    hide EncodeIndexAll, PutUvarint, ReversePath, Level;
  }

  /** The longest names of which none is written out of range. */
  function LongestName(c: Config): nat
  {
    if c.disableDaily then 262131 else 87368
  }

  /** What the climb's rows come to, in numbers. */
  lemma ClimbNumbers(c: Config, name: bytes, known: set<bytes>, tree: nat)
    requires |name| < BUFFER_SIZE
    ensures
      var segments := ClimbFrom(c, name, known, 2 * Share(name), tree).segments;
      var prefixes, cost, k := |EncodeIndexAll(PrefixRows(c, segments))|, Cost(segments), |segments|;
      && (k == 0 ==> prefixes == 0)
      && (k > 0 ==>
            var last := Share(segments[k - 1]);
            var row := |EncodeIndex(PrefixRow(c, segments[k - 1]))|;
            && cost <= prefixes <= cost + 3 * k && 11 * prefixes <= 12 * cost
            && last < row <= last + 3 && last <= |name| + 10 && last <= cost
            && tree + prefixes + 2 * (|name| + 10) + cost < BUFFER_SIZE + row
            && (k == 1 ==> cost == last) && (k == 2 ==> cost <= 2 * |name| + 19) && (k >= 3 ==> 3 * last + 3 <= cost))
  {
    var segments := ClimbFrom(c, name, known, 2 * Share(name), tree).segments;
    ClimbShrinks(c, name, known, 2 * Share(name), tree);
    ClimbBudget(c, name, known, 2 * Share(name), tree);
    assert |TreeRow(c, name).path| == |name| && Share(name) == |name| + 10;
    hide *;
    if segments == [] {
      NoPrefixRows(c, []);
    } else {
      RowsInNumbers(c, segments, |name|);
    }
  }

  lemma RowsInNumbers(c: Config, segments: seq<bytes>, n: nat)
    requires Shrinking(segments, n) && segments != [] && n < BUFFER_SIZE
    ensures
      var prefixes, cost, k := |EncodeIndexAll(PrefixRows(c, segments))|, Cost(segments), |segments|;
      var last := Share(segments[k - 1]);
      var row := |EncodeIndex(PrefixRow(c, segments[k - 1]))|;
      && cost <= prefixes <= cost + 3 * k && 11 * prefixes <= 12 * cost
      && last < row <= last + 3 && last <= n + 10 && last <= cost
      && (k == 1 ==> cost == last) && (k == 2 ==> cost <= 2 * n + 19) && (k >= 3 ==> 3 * last + 3 <= cost)
  {
    var last := segments[|segments| - 1];
    assert last in segments && 1 <= |last| <= n && (forall a | a in segments :: 1 <= |a| <= n);
    RowSize(PrefixRow(c, last));
    assert PrefixRow(c, last).path == last;
    hide *;
    ShrinkingCost(segments, n);
    CostOfLast(segments);
    PrefixBytes(c, segments);
  }

  lemma TreeRowNumbers(c: Config, name: bytes)
    requires |name| < BUFFER_SIZE
    ensures |name| + 11 <= |EncodeIndex(TreeRow(c, name))| <= |name| + 13
  {
    RowSize(TreeRow(c, name));
  }

  lemma ClimbFits(c: Config, name: bytes, known: set<bytes>)
    requires |name| <= LongestName(c)
    ensures
      var tree := |EncodeIndex(TreeRow(c, name))|;
      var climb := ClimbFrom(c, name, known, 2 * Share(name), tree);
      var prefixes := |EncodeIndexAll(PrefixRows(c, climb.segments))|;
      if c.disableDaily then 2 * tree + prefixes <= BUFFER_SIZE else 4 * tree + prefixes <= BUFFER_SIZE
  {
    var tree, longest := |EncodeIndex(TreeRow(c, name))|, LongestName(c);
    assert longest == if c.disableDaily then 262131 else 87368;
    var segments := ClimbFrom(c, name, known, 2 * Share(name), tree).segments;
    var prefixes := |EncodeIndexAll(PrefixRows(c, segments))|;
    assert BUFFER_SIZE == 524288;
    hide *;
    TreeRowNumbers(c, name);
    if segments == [] {
      ClimbNumbers(c, name, known, tree);
    } else if c.disableDaily {
      ClimbFitsWithoutDays(c, name, known, tree);
    } else {
      ClimbFitsWithDays(c, name, known, tree);
    }
  }

  lemma ClimbFitsWithoutDays(c: Config, name: bytes, known: set<bytes>, tree: nat)
    requires |name| <= 262131 && |name| + 11 <= tree <= |name| + 13
    requires ClimbFrom(c, name, known, 2 * Share(name), tree).segments != []
    ensures
      2 * tree + |EncodeIndexAll(PrefixRows(c,
          ClimbFrom(c, name, known, 2 * Share(name), tree).segments))| <= BUFFER_SIZE
  {
    var segments := ClimbFrom(c, name, known, 2 * Share(name), tree).segments;
    assert BUFFER_SIZE == 524288;
    hide *;
    ClimbNumbers(c, name, known, tree);
    FewerBytesFit(|name|, tree, |EncodeIndexAll(PrefixRows(c, segments))|, Cost(segments),
                  |EncodeIndex(PrefixRow(c, segments[|segments| - 1]))|);
  }

  lemma ClimbFitsWithDays(c: Config, name: bytes, known: set<bytes>, tree: nat)
    requires |name| <= 87368 && |name| + 11 <= tree <= |name| + 13
    requires ClimbFrom(c, name, known, 2 * Share(name), tree).segments != []
    ensures
      4 * tree + |EncodeIndexAll(PrefixRows(c,
          ClimbFrom(c, name, known, 2 * Share(name), tree).segments))| <= BUFFER_SIZE
  {
    var segments := ClimbFrom(c, name, known, 2 * Share(name), tree).segments;
    assert BUFFER_SIZE == 524288;
    hide *;
    ClimbNumbers(c, name, known, tree);
    BytesFit(|name|, tree, |EncodeIndexAll(PrefixRows(c, segments))|, Cost(segments), |segments|,
             Share(segments[|segments| - 1]), |EncodeIndex(PrefixRow(c, segments[|segments| - 1]))|);
  }

  /** The prefixes of `k`: `last` is the share and `row` the row of the shortest. */
  lemma BytesFit(n: nat, tree: nat, prefixes: nat, cost: nat, k: nat, last: nat, row: nat)
    requires n <= 87368 && n + 11 <= tree <= n + 13 && k > 0
    requires cost <= prefixes <= cost + 3 * k && 11 * prefixes <= 12 * cost
    requires last < row <= last + 3 && last <= n + 10
    requires tree + prefixes + 2 * (n + 10) + cost < BUFFER_SIZE + row
    requires (k == 1 ==> cost == last) && (k == 2 ==> cost <= 2 * n + 19) && (k >= 3 ==> 3 * last + 3 <= cost)
    ensures 4 * tree + prefixes <= BUFFER_SIZE
  {
  }

  lemma FewerBytesFit(n: nat, tree: nat, prefixes: nat, cost: nat, row: nat)
    requires n + 11 <= tree <= n + 13 && row <= cost + 3
    requires tree + prefixes + 2 * (n + 10) + cost < BUFFER_SIZE + row
    ensures 2 * tree + prefixes <= BUFFER_SIZE
  {
  }

  /** For names up to 87368 bytes the guards are enough: nothing is written out of range, although
      they leave out two of the rows and every length's own bytes. Without the daily rows they are
      enough up to 262131 bytes. */
  lemma {:induction false} NamesFit(c: Config, name: bytes, days: uint16, known: set<bytes>, used: nat)
    requires |name| <= LongestName(c)
    ensures !OutcomeOf(c, name, days, known, used).Panic?
  {
    var climb := ClimbFrom(c, name, known, 2 * Share(name), |EncodeIndex(TreeRow(c, name))|);
    LastRowsSize(c, name, days);
    ClimbFits(c, name, known);
    EncodeRowsOf(c, name, days, climb.segments);
    hide EncodeIndex, EncodeIndexAll, RowsOf, PrefixRows, LastRows, ClimbFrom, TreeRow, Share;
  }

  const DOT1: bytes := [DOT]
  const DOT2: bytes := [DOT, DOT]

  lemma ClimbOnce(c: Config, p: bytes, i: nat, known: set<bytes>, estimate: nat, used: nat)
    requires i < |p| && p[i] == DOT && Free(p, DOT, i + 1, |p|)
    ensures
      var a := p[..i + 1];
      ClimbFrom(c, p, known, estimate, used) ==
      if a in known then Climb([], true)
      else if estimate + Share(a) >= BUFFER_SIZE - used then Climb([], false)
      else After([a], ClimbFrom(c, p[..i], known, estimate + Share(a), used + |EncodeIndex(PrefixRow(c, a))|))
  {
    LastIndexByteUnique(p, DOT, i);
    EmptyFirst(ClimbFrom(c, p, known, estimate, used).segments);
    hide EncodeIndex, PrefixRow, ClimbFrom, LastIndexByte;
    ClimbStep(c, p, known, estimate, used, []);
    EmptyFirst([p[..i + 1]]);
  }

  lemma TwoDots(x: bytes)
    ensures
      var p2, p1, n := x + DOT2, x + DOT1, |x|;
      && p2[..n + 2] == p2 && p2[..n + 1] == p1 && p1[..n + 1] == p1 && p1[..n] == x && p2[n + 1] == p1[n] == DOT
  {
  }

  lemma TwoDotsClimb(c: Config, x: bytes)
    requires DOT !in x && |x| == 87367
    ensures
      var p2, p1 := x + DOT2, x + DOT1;
      ClimbFrom(c, p2, {}, 2 * Share(p2), |EncodeIndex(TreeRow(c, p2))|) == Climb([p2, p1], true)
  {
    var p2, p1, n := x + DOT2, x + DOT1, |x|;
    TwoDots(x);
    NoDots(x);
    RowSize(TreeRow(c, p2));
    RowSize(PrefixRow(c, p2));
    RowSize(PrefixRow(c, p1));
    var e, u := 2 * Share(p2), |EncodeIndex(TreeRow(c, p2))|;
    var r2, r1 := |EncodeIndex(PrefixRow(c, p2))|, |EncodeIndex(PrefixRow(c, p1))|;
    hide EncodeIndex, ClimbFrom, Dots;
    NoMorePrefixes(c, x, {}, e + Share(p2) + Share(p1), u + r2 + r1);
    ClimbOnce(c, p1, n, {}, e + Share(p2), u + r2);
    assert [p1] + [] == [p1] && [p2] + [p1] == [p2, p1];
    ClimbOnce(c, p2, n + 1, {}, e, u);
  }

  /** And that is the limit: with the daily rows, a name of 87369 bytes that ends in two dots is
      written past the end of the buffer. */
  lemma NamesFitLimit(c: Config, x: bytes, days: uint16)
    requires DOT !in x && |x| == 87367 && !c.disableDaily
    ensures |x + DOT2| == LongestName(c) + 1 && OutcomeOf(c, x + DOT2, days, {}, 0).Panic?
  {
    var p2, p1 := x + DOT2, x + DOT1;
    TwoDotsClimb(c, x);
    LastRowsSize(c, p2, days);
    TreeRowLength(c, p2);
    PrefixRowLength(c, p2);
    PrefixRowLength(c, p1);
    PrefixRowsFirst(c, [p2, p1]);
    PrefixRowsFirst(c, [p1]);
    assert [p2, p1][1..] == [p1];
    EncodeRowsOf(c, p2, days, [p2, p1]);
    hide EncodeIndex, EncodeIndexAll, RowsOf, PrefixRows, LastRows, ClimbFrom, TreeRow, PrefixRow;
  }

  lemma PrefixRowLength(c: Config, a: bytes)
    requires 16384 <= |a| < BUFFER_SIZE
    ensures |EncodeIndex(PrefixRow(c, a))| == |a| + 13
  {
    TreeRowLength(c, a);
  }

  /** For names without dots: with the daily rows 131059 bytes fit and longer ones are written out of
      range, without them 262131; the guard only refuses those it has no room for. */
  lemma {:induction false} DotFreeNamesFit(c: Config, name: bytes, days: uint16, known: set<bytes>, used: nat)
    requires DOT !in name
    ensures
      var o := OutcomeOf(c, name, days, known, used);
      var refused, longest := 2 * |name| + 20 >= BUFFER_SIZE - used, if c.disableDaily then 262131 else 131059;
      && (o.BufOverflow? <==> refused)
      && (o.Rows? <==> !refused && |name| <= longest)
      && (o.Panic? <==> !refused && |name| > longest)
  {
    var tree := TreeRow(c, name);
    NoDots(name);
    NoMorePrefixes(c, name, known, 2 * Share(name), |EncodeIndex(tree)|);
    EncodeRowsOf(c, name, days, []);
    NoPrefixRows(c, []);
    if |name| < BUFFER_SIZE {
      LastRowsSize(c, name, days);
      TreeRowLength(c, name);
    }
    hide EncodeIndex, EncodeIndexAll, RowsOf, PrefixRows, LastRows, ClimbFrom;
  }

  lemma TreeRowLength(c: Config, name: bytes)
    requires |name| < BUFFER_SIZE
    ensures |EncodeIndex(TreeRow(c, name))| <= |name| + 13
    ensures |name| >= 16384 ==> |EncodeIndex(TreeRow(c, name))| == |name| + 13
  {
    RowSize(TreeRow(c, name));
    if |name| >= 16384 {
      var n := |name|;
      assert n / 128 >= 128 && n / 128 / 128 < 128;
      assert |PutUvarint(n)| == 1 + |PutUvarint(n / 128)|;
      assert |PutUvarint(n / 128)| == 1 + |PutUvarint(n / 128 / 128)|;
    }
  }
}

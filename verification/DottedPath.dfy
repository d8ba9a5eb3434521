/** Reversing a dotted path: `a.b.c` becomes `c.b.a`. The repository has three implementations
    (helper/RowBinary/reader.go, helper/RowBinary/write_buffer.go); all of them compute
    `ReversePath`. */
module DottedPath {
  import opened ByteArrays
  import opened ByteStrings

  function Reversed<T>(s: seq<T>): (r: seq<T>)
    ensures |r| == |s|
  {
    seq(|s|, i requires 0 <= i < |s| => s[|s| - 1 - i])
  }

  /** Split on dots, reverse, join. Empty components count. */
  function ReversePath(s: bytes): bytes
  {
    Join(Reversed(Split(s, DOT)), DOT)
  }

  lemma ReversedConcat<T>(a: seq<T>, b: seq<T>)
    ensures Reversed(a + b) == Reversed(b) + Reversed(a)
  {
  }

  lemma ReversedTwice<T>(a: seq<T>)
    ensures Reversed(Reversed(a)) == a
  {
  }

  /** Reversing is its own inverse. */
  lemma {:induction false} ReversePathInvolution(s: bytes)
    ensures ReversePath(ReversePath(s)) == s
  {
    var parts := Split(s, DOT);
    SplitParts(s, DOT);
    assert forall k | 0 <= k < |parts| :: DOT !in Reversed(parts)[k];
    SplitJoin(Reversed(parts), DOT);
    ReversedTwice(parts);
    JoinSplit(s, DOT);
  }

  lemma ReversePathPlain(s: bytes)
    requires LastIndexByte(s, DOT) < 0 || DOT !in s
    ensures ReversePath(s) == s
  {
    LastIndexByteFinds(s, DOT);
    IndexByteNone(s, DOT);
    assert Split(s, DOT) == [s];
    assert Reversed([s]) == [s];
  }

  /** The path around one of its dots: the two sides change places. */
  lemma ReversePathAround(a: bytes, b: bytes)
    ensures ReversePath(a + [DOT] + b) == ReversePath(b) + [DOT] + ReversePath(a)
  {
    SplitAround(a, b, DOT);
    ReversedConcat(Split(a, DOT), Split(b, DOT));
    JoinConcat(Reversed(Split(b, DOT)), Reversed(Split(a, DOT)), DOT);
  }

  lemma ReversePathLast(s: bytes, i: nat)
    requires i < |s| && LastIndexByte(s, DOT) == i
    ensures ReversePath(s) == s[i + 1..] + [DOT] + ReversePath(s[..i])
  {
    LastIndexByteFinds(s, DOT);
    var b := s[i + 1..];
    assert forall k | 0 <= k < |b| :: b[k] == s[i + 1 + k];
    assert s == s[..i] + [DOT] + b;
    ReversePathAround(s[..i], b);
    ReversePathPlain(b);
  }

  /** The length stays. */
  lemma {:induction false} ReversePathLength(s: bytes)
    ensures |ReversePath(s)| == |s|
    decreases |s|
  {
    var i := LastIndexByte(s, DOT);
    if i < 0 {
      ReversePathPlain(s);
    } else {
      ReversePathLast(s, i);
      ReversePathLength(s[..i]);
    }
  }

  lemma SameMembers(s: bytes, i: nat, front: bytes)
    requires i < |s| && s[i] == DOT && multiset(front) == multiset(s[..i])
    ensures multiset(s[i + 1..] + [DOT] + front) == multiset(s)
  {
    assert s == s[..i] + [DOT] + s[i + 1..];
  }

  /** So do the bytes, but for their order. */
  lemma {:induction false} ReversePathMembers(s: bytes)
    ensures multiset(ReversePath(s)) == multiset(s)
    decreases |s|
  {
    hide ReversePath, LastIndexByte;
    var i := LastIndexByte(s, DOT);
    if i < 0 {
      ReversePathPlain(s);
    } else {
      LastIndexByteFinds(s, DOT);
      ReversePathLast(s, i);
      ReversePathMembers(s[..i]);
      SameMembers(s, i, ReversePath(s[..i]));
    }
  }

  /** `reverse(m[lo:hi])`. */
  method Reverse(a: array<byte>, lo: nat, hi: nat)
    requires lo <= hi <= a.Length
    modifies a
    ensures a[lo..hi] == Reversed(old(a[lo..hi]))
    ensures forall k | 0 <= k < lo || hi <= k < a.Length :: a[k] == old(a[k])
  {
    ghost var was := a[..];
    var i, j := lo, hi - 1;
    while i < j
      invariant lo <= i <= j + 1 && j < hi && i - lo == hi - 1 - j
      invariant forall k | lo <= k < i || j < k < hi :: a[k] == was[lo + hi - 1 - k]
      invariant forall k | 0 <= k < lo || i <= k <= j || hi <= k < a.Length :: a[k] == was[k]
    {
      a[i], a[j] := a[j], a[i];
      i := i + 1;
      j := j - 1;
    }
    assert forall k | lo <= k < hi :: a[k] == was[lo + hi - 1 - k];
    WindowReversed(was, a[..], lo, hi);
    assert was[lo..hi] == old(a[lo..hi]) && a[..][lo..hi] == a[lo..hi];
  }

  lemma WindowReversed(x: bytes, y: bytes, lo: nat, hi: nat)
    requires lo <= hi <= |x| && |y| == |x| && forall k | lo <= k < hi :: y[k] == x[lo + hi - 1 - k]
    ensures y[lo..hi] == Reversed(x[lo..hi])
  {
  }

  /** Each segment reversed, the segments where they were. */
  function ReverseSegments(s: bytes): bytes
  {
    Join(ReverseEach(Split(s, DOT)), DOT)
  }

  function ReverseEach(parts: seq<bytes>): (r: seq<bytes>)
    ensures |r| == |parts|
  {
    seq(|parts|, i requires 0 <= i < |parts| => Reversed(parts[i]))
  }

  lemma {:induction false} SplitReversed(s: bytes)
    ensures Split(Reversed(s), DOT) == Reversed(ReverseEach(Split(s, DOT)))
    decreases |s|
  {
    var i := IndexByte(s, DOT);
    IndexByteFinds(s, DOT);
    if i < 0 {
      PlainReversed(s);
      IndexByteNone(s, DOT);
      IndexByteNone(Reversed(s), DOT);
      assert Reversed(ReverseEach([s])) == [Reversed(s)];
    } else {
      SplitReversed(s[i + 1..]);
      assert DOT !in s[..i];
      assert s == s[..i] + [DOT] + s[i + 1..];
      SplitReversedFirst(s[..i], s[i + 1..]);
    }
  }

  lemma PlainReversed(a: bytes)
    ensures DOT in Reversed(a) ==> DOT in a
  {
    assert forall k | 0 <= k < |a| :: Reversed(a)[k] == a[|a| - 1 - k];
  }

  lemma SplitReversedFirst(a: bytes, b: bytes)
    requires DOT !in a && Split(Reversed(b), DOT) == Reversed(ReverseEach(Split(b, DOT)))
    ensures Split(Reversed(a + [DOT] + b), DOT) == Reversed(ReverseEach(Split(a + [DOT] + b, DOT)))
  {
    var parts := Split(b, DOT);
    PlainReversed(a);
    SplitFirst(a, b, DOT);
    SplitAround(Reversed(b), Reversed(a), DOT);
    SplitPlain(Reversed(a));
    hide Split;
    calc {
      Split(Reversed(a + [DOT] + b), DOT);
      { ReversedAround(a, b); }
      Reversed(ReverseEach(parts)) + [Reversed(a)];
      { ReversedConcat([Reversed(a)], ReverseEach(parts)); assert Reversed([Reversed(a)]) == [Reversed(a)]; }
      Reversed([Reversed(a)] + ReverseEach(parts));
      { assert ReverseEach([a] + parts) == [Reversed(a)] + ReverseEach(parts); }
      Reversed(ReverseEach([a] + parts));
    }
  }

  lemma SplitPlain(a: bytes)
    requires DOT !in a
    ensures Split(a, DOT) == [a]
  {
    IndexByteNone(a, DOT);
  }

  lemma ReversedAround(a: bytes, b: bytes)
    ensures Reversed(a + [DOT] + b) == Reversed(b) + [DOT] + Reversed(a)
  {
  }

  /** Reversing all bytes and then each segment reverses the path. */
  lemma ReverseSegmentsOfReversed(s: bytes)
    ensures ReverseSegments(Reversed(s)) == ReversePath(s)
  {
    var parts := Split(s, DOT);
    SplitReversed(s);
    assert ReverseEach(Reversed(ReverseEach(parts))) == Reversed(parts) by {
      forall k | 0 <= k < |parts|
        ensures ReverseEach(Reversed(ReverseEach(parts)))[k] == Reversed(parts)[k]
      {
        ReversedTwice(parts[|parts| - 1 - k]);
      }
    }
  }

  lemma ReverseSegmentsAround(a: bytes, b: bytes)
    ensures ReverseSegments(a + [DOT] + b) == ReverseSegments(a) + [DOT] + ReverseSegments(b)
  {
    SplitAround(a, b, DOT);
    var x, y := Split(a, DOT), Split(b, DOT);
    assert ReverseEach(x + y) == ReverseEach(x) + ReverseEach(y);
    JoinConcat(ReverseEach(x), ReverseEach(y), DOT);
  }

  lemma ReverseSegmentsPlain(s: bytes)
    requires DOT !in s
    ensures ReverseSegments(s) == Reversed(s)
  {
    IndexByteNone(s, DOT);
    assert ReverseEach([s]) == [Reversed(s)];
  }

  /** `reverseMetricInplace(m[lo:hi])`: reverses everything, then each segment. */
  method ReverseMetricInplace(m: array<byte>, lo: nat, hi: nat)
    requires lo <= hi <= m.Length
    modifies m
    ensures m[lo..hi] == ReversePath(old(m[lo..hi]))
    ensures forall k | 0 <= k < lo || hi <= k < m.Length :: m[k] == old(m[k])
  {
    ghost var was := m[lo..hi];
    Reverse(m, lo, hi);
    ghost var r := m[lo..hi];
    ReverseSegmentsInplace(m, lo, hi);
    ReverseSegmentsOfReversed(was);
  }

  /** Its second half. */
  method ReverseSegmentsInplace(m: array<byte>, lo: nat, hi: nat)
    requires lo <= hi <= m.Length
    modifies m
    ensures m[lo..hi] == ReverseSegments(old(m[lo..hi]))
    ensures forall k | 0 <= k < lo || hi <= k < m.Length :: m[k] == old(m[k])
  {
    ghost var r := m[..];
    assert r[lo..hi] == m[lo..hi];
    ReverseSegmentsLoop(m, r, lo, hi);
  }

  /** Its loop; `r` is what the array held before. */
  method ReverseSegmentsLoop(m: array<byte>, ghost r: bytes, lo: nat, hi: nat)
    requires lo <= hi <= m.Length == |r| && forall k | 0 <= k < m.Length :: m[k] == r[k]
    modifies m
    ensures m[lo..hi] == ReverseSegments(r[lo..hi])
    ensures forall k | 0 <= k < lo || hi <= k < m.Length :: m[k] == r[k]
  {
    hide ReverseSegments, Reversed;
    var a := lo;
    ghost var done: bytes := [];
    EmptyFirst(ReverseSegments(r[lo..hi]));
    for b := lo to hi
      invariant lo <= a <= b && m[lo..a] == done
      invariant forall k | 0 <= k < lo || a <= k < m.Length :: m[k] == r[k]
      invariant forall k | a <= k < b :: r[k] != DOT
      invariant done + ReverseSegments(r[a..hi]) == ReverseSegments(r[lo..hi])
    {
      if m[b] == DOT {
        done := ReverseOne(m, r, lo, a, b, hi, done);
        a := b + 1;
      }
    }
    ReverseLast(m, r, lo, a, hi, done);
  }

  /** Reverses the last segment. */
  method ReverseLast(m: array<byte>, ghost r: bytes, ghost lo: nat, a: nat, hi: nat, ghost done: bytes)
    requires lo <= a <= hi <= m.Length == |r| && m[lo..a] == done
    requires forall k | a <= k < hi :: m[k] == r[k] != DOT
    modifies m
    ensures m[lo..hi] == done + ReverseSegments(r[a..hi])
    ensures forall k | 0 <= k < lo || hi <= k < m.Length :: m[k] == old(m[k])
  {
    LastSegmentReversed(r, a, hi);
    assert m[a..hi] == r[a..hi];
    assert forall k | 0 <= k < |done| :: done[k] == m[lo..a][k] == m[lo + k];
    Reverse(m, a, hi);
    hide Reversed, ReverseSegments;
    assert forall k | 0 <= k < |done| :: m[lo + k] == done[k];
    assert m[lo..a] == done;
    assert m[lo..hi] == m[lo..a] + m[a..hi];
  }

  /** Reverses the segment `a..b`, up to its dot. */
  method ReverseOne(m: array<byte>, ghost r: bytes, ghost lo: nat, a: nat, b: nat, ghost hi: nat, ghost done: bytes)
      returns (ghost done': bytes)
    requires lo <= a <= b < hi <= m.Length == |r| && m[b] == r[b] == DOT && m[lo..a] == done
    requires forall k | a <= k < b :: m[k] == r[k] != DOT
    modifies m
    ensures m[lo..b + 1] == done'
    ensures forall k | 0 <= k < a || b <= k < m.Length :: m[k] == old(m[k])
    ensures done' + ReverseSegments(r[b + 1..hi]) == done + ReverseSegments(r[a..hi])
  {
    SegmentReversed(r, a, b, hi, done);
    assert m[a..b] == r[a..b];
    done' := done + (Reversed(r[a..b]) + [DOT]);
    assert forall k | 0 <= k < |done| :: done[k] == m[lo..a][k] == m[lo + k];
    Reverse(m, a, b);
    hide Reversed, ReverseSegments;
    assert forall k | 0 <= k < |done| :: m[lo + k] == done[k];
    assert m[lo..a] == done;
    assert m[lo..b + 1] == m[lo..a] + (m[a..b] + [m[b]]);
  }

  lemma SegmentReversed(r: bytes, a: nat, b: nat, hi: nat, done: bytes)
    requires a <= b < hi <= |r| && r[b] == DOT && forall k | a <= k < b :: r[k] != DOT
    ensures done + ReverseSegments(r[a..hi]) == (done + (Reversed(r[a..b]) + [DOT])) + ReverseSegments(r[b + 1..hi])
  {
    Assoc(done, Reversed(r[a..b]) + [DOT], ReverseSegments(r[b + 1..hi]));
    assert r[a..hi] == r[a..b] + [DOT] + r[b + 1..hi];
    ReverseSegmentsAround(r[a..b], r[b + 1..hi]);
    ReverseSegmentsPlain(r[a..b]);
  }

  lemma LastSegmentReversed(r: bytes, a: nat, hi: nat)
    requires a <= hi <= |r| && forall k | a <= k < hi :: r[k] != DOT
    ensures ReverseSegments(r[a..hi]) == Reversed(r[a..hi])
  {
    ReverseSegmentsPlain(r[a..hi]);
  }

  /** `ReverseBytesTo(dst, src)`: copies the segments from the right end of `dst` leftwards. */
  method ReverseBytesTo(dst: array<byte>, src: bytes)
    requires dst.Length >= |src|
    modifies dst
    ensures dst[..|src|] == ReversePath(src)
    ensures forall k | |src| <= k < dst.Length :: dst[k] == old(dst[k])
  {
    hide ReversePath, Placed;
    var l := |src|;
    var a := 0;
    var p := l - 1;
    PlacedNothing(src);
    for b := 0 to l
      invariant p == l - 1 - b && 0 <= a <= b
      invariant forall k | a <= k < b :: src[k] != DOT
      invariant a > 0 ==> src[a - 1] == DOT
      invariant dst[l - a..l] == Placed(src, a)
      invariant forall k | l <= k < dst.Length :: dst[k] == old(dst[k])
    {
      if src[b] == DOT {
        PlacedStep(src, a, b);
        PlaceOne(dst, p, src[a..b], l);
        a := b + 1;
      }
      p := p - 1;
    }
    if a == 0 {
      WholePathPlain(src);
      CopyInto(dst, 0, src);
    } else if a < l + 1 {
      PlacedEnd(src, a);
      PlaceLast(dst, src[a..], l);
    }
  }

  /** A segment with its dot, left of what is placed. */
  method PlaceOne(dst: array<byte>, p: nat, seg: bytes, ghost l: nat)
    requires p + 1 + |seg| <= l <= dst.Length
    modifies dst
    ensures dst[p..l] == [DOT] + seg + old(dst[p + 1 + |seg|..l])
    ensures forall k | l <= k < dst.Length :: dst[k] == old(dst[k])
  {
    ghost var mid := p + 1 + |seg|;
    CopyInto(dst, p + 1, seg);
    dst[p] := DOT;
    assert dst[mid..l] == old(dst[mid..l]);
    assert dst[p + 1..mid] == seg;
    assert dst[p..l] == [dst[p]] + dst[p + 1..mid] + dst[mid..l];
  }

  method PlaceLast(dst: array<byte>, seg: bytes, ghost l: nat)
    requires |seg| <= l <= dst.Length
    modifies dst
    ensures dst[..l] == seg + old(dst[|seg|..l])
    ensures forall k | l <= k < dst.Length :: dst[k] == old(dst[k])
  {
    CopyInto(dst, 0, seg);
    assert dst[|seg|..l] == old(dst[|seg|..l]);
    assert dst[..l] == dst[..|seg|] + dst[|seg|..l];
  }

  /** What the right end of `dst` holds once the first `a` bytes, up to a dot, are placed. */
  ghost function Placed(src: bytes, a: nat): (r: bytes)
    requires a <= |src|
    ensures |r| == a
  {
    if a == 0 then []
    else
      ReversePathLength(src[..a - 1]);
      [DOT] + ReversePath(src[..a - 1])
  }

  lemma PlacedNothing(src: bytes)
    ensures Placed(src, 0) == []
  {
  }

  lemma WholePathPlain(src: bytes)
    requires forall k | 0 <= k < |src| :: src[k] != DOT
    ensures ReversePath(src) == src
  {
    ReversePathPlain(src);
  }

  lemma PlacedStep(src: bytes, a: nat, b: nat)
    requires a <= b < |src| && src[b] == DOT && (a > 0 ==> src[a - 1] == DOT)
    requires forall k | a <= k < b :: src[k] != DOT
    ensures Placed(src, b + 1) == [DOT] + src[a..b] + Placed(src, a)
  {
    ReversePathPlain(src[a..b]);
    if a == 0 {
      assert src[..b] == src[a..b];
      assert [DOT] + src[a..b] + [] == [DOT] + src[a..b];
    } else {
      var head := src[..a - 1];
      assert src[..b] == head + [DOT] + src[a..b];
      ReversePathAround(head, src[a..b]);
      RegroupDot(src[a..b], ReversePath(head));
    }
  }

  lemma RegroupDot(x: bytes, y: bytes)
    ensures [DOT] + (x + [DOT] + y) == [DOT] + x + ([DOT] + y)
    ensures x + [DOT] + y == x + ([DOT] + y)
  {
  }

  lemma PlacedEnd(src: bytes, a: nat)
    requires 0 < a <= |src| && src[a - 1] == DOT
    requires forall k | a <= k < |src| :: src[k] != DOT
    ensures ReversePath(src) == src[a..] + Placed(src, a)
  {
    var head := src[..a - 1];
    assert src == head + [DOT] + src[a..];
    ReversePathAround(head, src[a..]);
    ReversePathPlain(src[a..]);
    RegroupDot(src[a..], ReversePath(head));
  }
}

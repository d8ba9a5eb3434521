/** Byte strings as the Go code sees them: `[]byte` and `string` are both sequences of bytes. The
    searching, splitting and comparing functions are those of the Go packages `bytes` and
    `strings` that the modelled code calls. */
module ByteStrings {

  newtype byte = b: int | 0 <= b < 256

  type bytes = seq<byte>

  datatype Option<+T> = None | Some(value: T)

  const DOT: byte := 46
  const QUESTION: byte := 63
  const AMPERSAND: byte := 38
  const EQUALS: byte := 61
  const SEMICOLON: byte := 59
  const PERCENT: byte := 37
  const PLUS: byte := 43
  const SPACE: byte := 32
  const NEWLINE: byte := 10

  /** The bytes of `__name__`, the label that carries a metric's name. */
  const NAME_LABEL: bytes := [95, 95, 110, 97, 109, 101, 95, 95]

  function IndexFrom(s: bytes, c: byte, from: nat): (i: int)
    requires from <= |s|
    ensures i == -1 || from <= i < |s|
    decreases |s| - from
  {
    if from == |s| then -1 else if s[from] == c then from else IndexFrom(s, c, from + 1)
  }

  function LastIndexTo(s: bytes, c: byte, to: nat): (i: int)
    requires to <= |s|
    ensures -1 <= i < to
  {
    if to == 0 then -1 else if s[to - 1] == c then to - 1 else LastIndexTo(s, c, to - 1)
  }

  /** `bytes.IndexByte`: position of the first `c`, or -1. */
  function IndexByte(s: bytes, c: byte): (i: int)
    ensures -1 <= i < |s|
  {
    IndexFrom(s, c, 0)
  }

  /** `bytes.LastIndexByte`: position of the last `c`, or -1. */
  function LastIndexByte(s: bytes, c: byte): (i: int)
    ensures -1 <= i < |s|
  {
    LastIndexTo(s, c, |s|)
  }

  ghost predicate Free(s: bytes, c: byte, lo: nat, hi: nat)
    requires lo <= hi <= |s|
  {
    forall k | lo <= k < hi :: s[k] != c
  }

  lemma {:induction false} IndexFromFinds(s: bytes, c: byte, from: nat)
    requires from <= |s|
    ensures var i := IndexFrom(s, c, from);
            if i < 0 then Free(s, c, from, |s|) else s[i] == c && Free(s, c, from, i)
    decreases |s| - from
  {
    if from < |s| && s[from] != c {
      IndexFromFinds(s, c, from + 1);
    }
  }

  lemma {:induction false} LastIndexToFinds(s: bytes, c: byte, to: nat)
    requires to <= |s|
    ensures var i := LastIndexTo(s, c, to);
            if i < 0 then Free(s, c, 0, to) else s[i] == c && Free(s, c, i + 1, to)
  {
    if to > 0 && s[to - 1] != c {
      LastIndexToFinds(s, c, to - 1);
    }
  }

  lemma IndexByteFinds(s: bytes, c: byte)
    ensures var i := IndexByte(s, c);
            if i < 0 then c !in s else s[i] == c && Free(s, c, 0, i)
  {
    IndexFromFinds(s, c, 0);
  }

  lemma LastIndexByteFinds(s: bytes, c: byte)
    ensures var i := LastIndexByte(s, c);
            if i < 0 then c !in s else s[i] == c && Free(s, c, i + 1, |s|)
  {
    LastIndexToFinds(s, c, |s|);
  }

  lemma IndexByteUnique(s: bytes, c: byte, i: nat)
    requires i < |s| && s[i] == c && Free(s, c, 0, i)
    ensures IndexByte(s, c) == i
  {
    IndexFromFinds(s, c, 0);
  }

  lemma LastIndexByteUnique(s: bytes, c: byte, i: nat)
    requires i < |s| && s[i] == c && Free(s, c, i + 1, |s|)
    ensures LastIndexByte(s, c) == i
  {
    LastIndexToFinds(s, c, |s|);
  }

  /** What comes before and after the first `c`. */
  lemma CutAtFirst(p: bytes, c: byte, q: bytes)
    requires c !in p
    ensures
      var s := p + [c] + q;
      IndexByte(s, c) == |p| && s[..|p|] == p && s[|p| + 1..] == q
  {
    var s := p + [c] + q;
    hide IndexByte;
    assert s[|p|] == c && forall k | 0 <= k < |p| :: s[k] == p[k];
    IndexByteUnique(s, c, |p|);
  }

  lemma IndexByteNone(s: bytes, c: byte)
    requires c !in s
    ensures IndexByte(s, c) == -1
  {
    IndexFromFinds(s, c, 0);
  }

  /** `strings.Split` by a one-byte separator. */
  function Split(s: bytes, c: byte): (parts: seq<bytes>)
    ensures |parts| >= 1
    decreases |s|
  {
    var i := IndexByte(s, c);
    if i < 0 then [s] else [s[..i]] + Split(s[i + 1..], c)
  }

  /** No part holds the separator. */
  lemma {:induction false} SplitParts(s: bytes, c: byte)
    ensures forall k | 0 <= k < |Split(s, c)| :: c !in Split(s, c)[k]
    decreases |s|
  {
    var i := IndexByte(s, c);
    IndexByteFinds(s, c);
    if i >= 0 {
      SplitParts(s[i + 1..], c);
      assert c !in s[..i];
    }
  }

  /** `strings.Join` with a one-byte separator. */
  function Join(parts: seq<bytes>, c: byte): bytes
  {
    if |parts| == 0 then []
    else if |parts| == 1 then parts[0]
    else parts[0] + [c] + Join(parts[1..], c)
  }

  lemma JoinCons(x: bytes, parts: seq<bytes>, c: byte)
    requires parts != []
    ensures Join([x] + parts, c) == x + [c] + Join(parts, c)
  {
    assert ([x] + parts)[1..] == parts;
  }

  lemma {:induction false} JoinSplit(s: bytes, c: byte)
    ensures Join(Split(s, c), c) == s
    decreases |s|
  {
    var i := IndexByte(s, c);
    IndexByteFinds(s, c);
    if i < 0 {
      assert Split(s, c) == [s];
    } else {
      var rest := Split(s[i + 1..], c);
      JoinSplit(s[i + 1..], c);
      JoinCons(s[..i], rest, c);
      assert s == s[..i] + [c] + s[i + 1..];
    }
  }

  lemma SplitFirst(x: bytes, rest: bytes, c: byte)
    requires c !in x
    ensures Split(x + [c] + rest, c) == [x] + Split(rest, c)
  {
    var s := x + [c] + rest;
    assert forall k | 0 <= k < |x| :: s[k] == x[k];
    IndexByteUnique(s, c, |x|);
    assert s[..|x|] == x && s[|x| + 1..] == rest;
  }

  lemma {:induction false} SplitJoin(parts: seq<bytes>, c: byte)
    requires |parts| >= 1
    requires forall k | 0 <= k < |parts| :: c !in parts[k]
    ensures Split(Join(parts, c), c) == parts
  {
    if |parts| == 1 {
      IndexByteNone(parts[0], c);
    } else {
      SplitFirst(parts[0], Join(parts[1..], c), c);
      SplitJoin(parts[1..], c);
    }
  }

  /** Splitting distributes over a separator. */
  lemma {:induction false} SplitAround(a: bytes, b: bytes, c: byte)
    ensures Split(a + [c] + b, c) == Split(a, c) + Split(b, c)
    decreases |a|
  {
    var i := IndexByte(a, c);
    IndexByteFinds(a, c);
    if i < 0 {
      SplitFirst(a, b, c);
    } else {
      var rest := a[i + 1..];
      assert c !in a[..i];
      SplitFirst(a[..i], rest + [c] + b, c);
      assert a + [c] + b == a[..i] + [c] + (rest + [c] + b);
      SplitAround(rest, b, c);
      Assoc([a[..i]], Split(rest, c), Split(b, c));
    }
  }

  lemma {:induction false} JoinConcat(a: seq<bytes>, b: seq<bytes>, c: byte)
    requires a != [] && b != []
    ensures Join(a + b, c) == Join(a, c) + [c] + Join(b, c)
  {
    if |a| == 1 {
      assert (a + b)[1..] == b;
    } else {
      assert (a + b)[1..] == a[1..] + b;
      JoinConcat(a[1..], b, c);
    }
  }

  lemma Assoc<T>(a: seq<T>, b: seq<T>, c: seq<T>)
    ensures (a + b) + c == a + (b + c)
  {
  }

  lemma EmptyFirst<T>(s: seq<T>)
    ensures [] + s == s
  {
  }

  lemma AssocFive<T>(a: seq<T>, b: seq<T>, c: seq<T>, d: seq<T>, e: seq<T>)
    ensures a + b + c + d + e == a + (b + (c + d + e))
  {
  }

  /** All parts one after another. */
  function Concat(parts: seq<bytes>): bytes
  {
    if parts == [] then [] else parts[0] + Concat(parts[1..])
  }

  lemma {:induction false} ConcatAppend(a: seq<bytes>, b: seq<bytes>)
    ensures Concat(a + b) == Concat(a) + Concat(b)
  {
    if a == [] {
      assert a + b == b;
    } else {
      assert (a + b)[1..] == a[1..] + b;
      ConcatAppend(a[1..], b);
    }
  }

  /** `bytes.Compare(a, b) < 0`: bytewise lexicographic order. */
  predicate Less(a: bytes, b: bytes)
  {
    if b == [] then false
    else if a == [] then true
    else if a[0] != b[0] then a[0] < b[0]
    else Less(a[1..], b[1..])
  }

  lemma {:induction false} LessIrreflexive(a: bytes)
    ensures !Less(a, a)
  {
    if a != [] { LessIrreflexive(a[1..]); }
  }

  lemma {:induction false} LessTransitive(a: bytes, b: bytes, c: bytes)
    requires Less(a, b) && Less(b, c)
    ensures Less(a, c)
  {
    if a != [] && a[0] == b[0] && b[0] == c[0] {
      LessTransitive(a[1..], b[1..], c[1..]);
    }
  }

  lemma {:induction false} LessTotal(a: bytes, b: bytes)
    ensures Less(a, b) || Less(b, a) || a == b
    ensures !(Less(a, b) && Less(b, a))
  {
    if a != [] && b != [] && a[0] == b[0] {
      LessTotal(a[1..], b[1..]);
      assert a == [a[0]] + a[1..] && b == [b[0]] + b[1..];
    }
  }
}

/** Sorting tags by key: what `sort.Stable` promises, and the exchange sort written by hand in
    receiver/prometheus_metric.go. */
module TagSort {
  import opened ByteStrings
  import opened TaggedNames

  ghost predicate Sorted(s: seq<Tag>)
  {
    forall i, j | 0 <= i < j < |s| :: !Less(s[j].key, s[i].key)
  }

  ghost predicate StrictlyAscending(s: seq<Tag>)
  {
    forall i, j | 0 <= i < j < |s| :: Less(s[i].key, s[j].key)
  }

  ghost predicate DistinctKeys(s: seq<Tag>)
  {
    forall i, j | 0 <= i < j < |s| :: s[i].key != s[j].key
  }

  /** No key comes with two different values. */
  ghost predicate OneValueEach(s: seq<Tag>)
  {
    forall a, b | a in s && b in s && a.key == b.key :: a == b
  }

  lemma DistinctKeysOneValue(s: seq<Tag>)
    requires DistinctKeys(s)
    ensures OneValueEach(s)
  {
  }

  /** The tags with a given key, in order. */
  function WithKey(s: seq<Tag>, k: bytes): seq<Tag>
  {
    if s == [] then []
    else (if s[0].key == k then [s[0]] else []) + WithKey(s[1..], k)
  }

  /** Puts `t` before the tags whose keys are not smaller. */
  function Insert(t: Tag, s: seq<Tag>): seq<Tag>
  {
    if s == [] || !Less(s[0].key, t.key) then [t] + s else [s[0]] + Insert(t, s[1..])
  }

  /** `sort.Stable` by key. Only what the three lemmas below say about it is used. */
  function StableSort(s: seq<Tag>): seq<Tag>
  {
    if s == [] then [] else Insert(s[0], StableSort(s[1..]))
  }

  lemma {:induction false} InsertMembers(t: Tag, s: seq<Tag>)
    ensures multiset(Insert(t, s)) == multiset{t} + multiset(s)
  {
    if s != [] && Less(s[0].key, t.key) {
      InsertMembers(t, s[1..]);
      assert s == [s[0]] + s[1..];
    }
  }

  lemma {:induction false} InsertSorted(t: Tag, s: seq<Tag>)
    requires Sorted(s)
    ensures Sorted(Insert(t, s))
  {
    if s != [] {
      if Less(s[0].key, t.key) {
        InsertSorted(t, s[1..]);
        InsertMembers(t, s[1..]);
        var r := Insert(t, s[1..]);
        forall j | 0 <= j < |r|
          ensures !Less(r[j].key, s[0].key)
        {
          assert r[j] in multiset(r);
          if r[j] == t {
            LessTotal(s[0].key, t.key);
          } else {
            assert r[j] in s[1..];
          }
        }
      } else {
        forall j | 0 <= j < |s|
          ensures !Less(s[j].key, t.key)
        {
          if j > 0 && Less(s[j].key, t.key) {
            LessTotal(s[j].key, s[0].key);
            if s[j].key == s[0].key {
            } else {
              LessTransitive(s[0].key, s[j].key, t.key);
            }
          }
        }
      }
    }
  }

  lemma {:induction false} InsertStable(t: Tag, s: seq<Tag>, k: bytes)
    ensures WithKey(Insert(t, s), k) == WithKey([t] + s, k)
  {
    assert ([t] + s)[1..] == s;
    if s != [] && Less(s[0].key, t.key) {
      LessIrreflexive(t.key);
      InsertStable(t, s[1..], k);
      assert ([t] + s[1..])[1..] == s[1..];
      assert ([s[0]] + Insert(t, s[1..]))[1..] == Insert(t, s[1..]);
    }
  }

  lemma {:induction false} StableSortSorts(s: seq<Tag>)
    ensures Sorted(StableSort(s))
    ensures multiset(StableSort(s)) == multiset(s)
  {
    if s != [] {
      StableSortSorts(s[1..]);
      InsertSorted(s[0], StableSort(s[1..]));
      InsertMembers(s[0], StableSort(s[1..]));
      assert s == [s[0]] + s[1..];
    }
  }

  /** Equal keys keep their order. */
  lemma {:induction false} StableSortStable(s: seq<Tag>, k: bytes)
    ensures WithKey(StableSort(s), k) == WithKey(s, k)
  {
    if s != [] {
      StableSortStable(s[1..], k);
      InsertStable(s[0], StableSort(s[1..]), k);
      assert ([s[0]] + StableSort(s[1..]))[1..] == StableSort(s[1..]);
    }
  }

  ghost predicate KeyFree(s: seq<Tag>, k: bytes)
  {
    forall i | 0 <= i < |s| :: s[i].key != k
  }

  /** One value for each key leaves only one sorted order. */
  lemma {:induction false} SortedUnique(a: seq<Tag>, b: seq<Tag>)
    requires Sorted(a) && Sorted(b) && multiset(a) == multiset(b)
    requires OneValueEach(a)
    ensures a == b
  {
    assert |a| == |multiset(a)| == |multiset(b)| == |b|;
    if a != [] {
      SameHead(a, b);
      TailMembers(a);
      TailMembers(b);
      SortedUnique(a[1..], b[1..]);
      assert a == [a[0]] + a[1..] && b == [b[0]] + b[1..];
    }
  }

  lemma TailMembers(a: seq<Tag>)
    requires a != []
    ensures multiset(a[1..]) == multiset(a) - multiset{a[0]}
  {
    assert a == [a[0]] + a[1..];
  }

  lemma SameHead(a: seq<Tag>, b: seq<Tag>)
    requires Sorted(a) && Sorted(b) && OneValueEach(a)
    requires a != [] && b != [] && multiset(a) == multiset(b)
    ensures a[0] == b[0]
  {
    assert a[0] in multiset(b) && b[0] in multiset(a);
    var i :| 0 <= i < |a| && a[i] == b[0];
    var j :| 0 <= j < |b| && b[j] == a[0];
    if a[0].key != b[0].key {
      LessTotal(a[0].key, a[i].key);
      LessIrreflexive(a[0].key);
    }
  }

  lemma SameMembersOneValue(a: seq<Tag>, b: seq<Tag>)
    requires OneValueEach(a) && multiset(a) == multiset(b)
    ensures OneValueEach(b)
  {
    assert forall t | t in b :: t in multiset(a);
  }

  function Swap(s: seq<Tag>, i: nat, j: nat): (r: seq<Tag>)
    requires i < |s| && j < |s|
    ensures |r| == |s|
  {
    s[i := s[j]][j := s[i]]
  }

  lemma SwapMembers(s: seq<Tag>, i: nat, j: nat)
    requires i <= j < |s|
    ensures multiset(Swap(s, i, j)) == multiset(s)
  {
    if i == j {
      assert Swap(s, i, j) == s;
    } else {
      var a, b, c := s[..i], s[i + 1..j], s[j + 1..];
      assert s == a + [s[i]] + b + [s[j]] + c;
      assert Swap(s, i, j) == a + [s[j]] + b + [s[i]] + c;
    }
  }

  /** The inner loop of the exchange sort, from `j` on, over the first `n` labels. */
  function ExchangeRow(s: seq<Tag>, i: nat, j: nat, n: nat): (r: seq<Tag>)
    requires i < j && n <= |s|
    ensures |r| == |s|
    decreases n - j
  {
    if j >= n then s
    else ExchangeRow(if Less(s[j].key, s[i].key) then Swap(s, i, j) else s, i, j + 1, n)
  }

  /** The outer loop, from `i` on; its last row is `n - 2`. */
  function ExchangeSort(s: seq<Tag>, i: nat, n: nat): (r: seq<Tag>)
    requires n <= |s|
    ensures |r| == |s|
    decreases n - i
  {
    if i + 1 >= n then s else ExchangeSort(ExchangeRow(s, i, i + 1, n), i + 1, n)
  }

  ghost predicate LeastFrom(s: seq<Tag>, i: nat, lo: nat, hi: nat)
    requires i < |s| && hi <= |s|
  {
    forall k | lo <= k < hi :: !Less(s[k].key, s[i].key)
  }

  ghost predicate SameOutside(s: seq<Tag>, r: seq<Tag>, lo: nat, hi: nat)
    requires |s| == |r|
  {
    forall k | 0 <= k < |s| && (k < lo || hi <= k) :: r[k] == s[k]
  }

  lemma SwapKeepsLeast(s: seq<Tag>, i: nat, j: nat)
    requires i < j < |s| && LeastFrom(s, i, i, j) && Less(s[j].key, s[i].key)
    ensures LeastFrom(Swap(s, i, j), i, i, j + 1)
  {
    var r := Swap(s, i, j);
    forall k | i <= k < j + 1
      ensures !Less(r[k].key, r[i].key)
    {
      LessIrreflexive(s[j].key);
      LessTotal(s[j].key, s[i].key);
      if i < k < j && Less(s[k].key, s[j].key) {
        LessTransitive(s[k].key, s[j].key, s[i].key);
      }
    }
  }

  lemma {:induction false} ExchangeRowFindsLeast(s: seq<Tag>, i: nat, j: nat, n: nat)
    requires i < j <= n <= |s| && LeastFrom(s, i, i, j)
    ensures LeastFrom(ExchangeRow(s, i, j, n), i, i, n)
    decreases n - j
  {
    if j < n {
      if Less(s[j].key, s[i].key) {
        SwapKeepsLeast(s, i, j);
        ExchangeRowFindsLeast(Swap(s, i, j), i, j + 1, n);
      } else {
        ExchangeRowFindsLeast(s, i, j + 1, n);
      }
    }
  }

  /** The row moves labels about within `i..n`. */
  lemma {:induction false} ExchangeRowPermutes(s: seq<Tag>, i: nat, j: nat, n: nat)
    requires i < j <= n <= |s|
    ensures multiset(ExchangeRow(s, i, j, n)) == multiset(s)
    ensures SameOutside(s, ExchangeRow(s, i, j, n), i, n)
    decreases n - j
  {
    if j < n {
      var s' := if Less(s[j].key, s[i].key) then Swap(s, i, j) else s;
      SwapMembers(s, i, j);
      ExchangeRowPermutes(s', i, j + 1, n);
    }
  }

  ghost predicate NotBelow(s: seq<Tag>, k: bytes, lo: nat, hi: nat)
    requires hi <= |s|
  {
    forall b | lo <= b < hi :: !Less(s[b].key, k)
  }

  lemma {:induction false} ExchangeRowNotBelow(s: seq<Tag>, i: nat, j: nat, n: nat, k: bytes)
    requires i < j <= n <= |s| && NotBelow(s, k, i, n)
    ensures NotBelow(ExchangeRow(s, i, j, n), k, i, n)
    decreases n - j
  {
    if j < n {
      ExchangeRowNotBelow(if Less(s[j].key, s[i].key) then Swap(s, i, j) else s, i, j + 1, n, k);
    }
  }

  /** `lo..i` is in order and nothing at or after `i` belongs before it. */
  ghost predicate SortedUpTo(s: seq<Tag>, lo: nat, i: nat, n: nat)
    requires n <= |s|
  {
    forall a, b | lo <= a < i && a < b < n :: !Less(s[b].key, s[a].key)
  }

  lemma {:induction false} ExchangeSortSorts(s: seq<Tag>, lo: nat, i: nat, n: nat)
    requires lo <= i && n <= |s| && SortedUpTo(s, lo, i, n)
    ensures multiset(ExchangeSort(s, i, n)) == multiset(s)
    ensures SameOutside(s, ExchangeSort(s, i, n), i, n)
    ensures SortedUpTo(ExchangeSort(s, i, n), lo, n, n)
    decreases n - i
  {
    if i + 1 < n {
      var r := ExchangeRow(s, i, i + 1, n);
      assert ExchangeSort(s, i, n) == ExchangeSort(r, i + 1, n);
      hide *;
      ExchangeRowPermutes(s, i, i + 1, n);
      RowExtendsSorted(s, lo, i, n);
      ExchangeSortSorts(r, lo, i + 1, n);
      SameOutsideBoth(s, r, ExchangeSort(r, i + 1, n), i, n);
    } else {
      assert ExchangeSort(s, i, n) == s;
    }
  }

  lemma SameOutsideBoth(s: seq<Tag>, r: seq<Tag>, t: seq<Tag>, i: nat, n: nat)
    requires |s| == |r| == |t| && SameOutside(s, r, i, n) && SameOutside(r, t, i + 1, n)
    ensures SameOutside(s, t, i, n)
  {
  }

  lemma RowExtendsSorted(s: seq<Tag>, lo: nat, i: nat, n: nat)
    requires lo <= i && i + 1 < n <= |s| && SortedUpTo(s, lo, i, n)
    ensures SortedUpTo(ExchangeRow(s, i, i + 1, n), lo, i + 1, n)
  {
    var r := ExchangeRow(s, i, i + 1, n);
    LessIrreflexive(s[i].key);
    ExchangeRowFindsLeast(s, i, i + 1, n);
    ExchangeRowPermutes(s, i, i + 1, n);
    forall a, b | lo <= a < i + 1 && a < b < n
      ensures !Less(r[b].key, r[a].key)
    {
      if a < i && i <= b {
        ExchangeRowNotBelow(s, i, i + 1, n, s[a].key);
      }
    }
  }

  /** A list that needs no sorting is left alone, so the pre-check that skips the sort is sound. */
  lemma {:induction false} ExchangeRowKeepsSorted(s: seq<Tag>, i: nat, j: nat, n: nat)
    requires i < j && n <= |s| && (forall b | j <= b < n :: !Less(s[b].key, s[i].key))
    ensures ExchangeRow(s, i, j, n) == s
    decreases n - j
  {
    if j < n {
      ExchangeRowKeepsSorted(s, i, j + 1, n);
    }
  }

  lemma {:induction false} ExchangeSortKeepsSorted(s: seq<Tag>, i: nat, n: nat)
    requires n <= |s| && SortedUpTo(s, i, n, n)
    ensures ExchangeSort(s, i, n) == s
    decreases n - i
  {
    if i + 1 < n {
      ExchangeRowKeepsSorted(s, i, i + 1, n);
      ExchangeSortKeepsSorted(s, i + 1, n);
    }
  }

  /** Neighbours in order means all in order. */
  lemma {:induction false} AdjacentSorted(s: seq<Tag>, lo: nat, n: nat)
    requires n <= |s|
    requires forall k | lo <= k < n - 1 :: !Less(s[k + 1].key, s[k].key)
    ensures SortedUpTo(s, lo, n, n)
  {
    forall a, b | lo <= a < n && a < b < n
      ensures !Less(s[b].key, s[a].key)
    {
      AdjacentSortedPair(s, lo, n, a, b);
    }
  }

  lemma {:induction false} AdjacentSortedPair(s: seq<Tag>, lo: nat, n: nat, a: nat, b: nat)
    requires n <= |s| && lo <= a < b < n
    requires forall k | lo <= k < n - 1 :: !Less(s[k + 1].key, s[k].key)
    ensures !Less(s[b].key, s[a].key)
    decreases b - a
  {
    assert !Less(s[b - 1 + 1].key, s[b - 1].key);
    if a + 1 < b && Less(s[b].key, s[a].key) {
      AdjacentSortedPair(s, lo, n, a, b - 1);
      LessTotal(s[a].key, s[b - 1].key);
      LessTotal(s[b - 1].key, s[b].key);
      if s[a].key != s[b - 1].key && s[b - 1].key != s[b].key {
        LessTransitive(s[b].key, s[a].key, s[b - 1].key);
      }
    }
  }

  /** With one value for each key the exchange sort of positions `lo..n` is the stable sort. */
  lemma ExchangeSortIsStableSort(s: seq<Tag>, lo: nat, n: nat)
    requires lo <= n <= |s| && OneValueEach(s[lo..n])
    ensures ExchangeSort(s, lo, n)[lo..n] == StableSort(s[lo..n])
    ensures SameOutside(s, ExchangeSort(s, lo, n), lo, n)
  {
    ExchangeSortSorts(s, lo, lo, n);
    var r := ExchangeSort(s, lo, n);
    StableSortSorts(s[lo..n]);
    WindowMembers(s, r, lo, n);
    WindowSorted(r, lo, n);
    SameMembersOneValue(s[lo..n], StableSort(s[lo..n]));
    SortedUnique(StableSort(s[lo..n]), r[lo..n]);
  }

  lemma WindowSorted(r: seq<Tag>, lo: nat, n: nat)
    requires lo <= n <= |r| && SortedUpTo(r, lo, n, n)
    ensures Sorted(r[lo..n])
  {
    forall i, j | 0 <= i < j < n - lo
      ensures !Less(r[lo..n][j].key, r[lo..n][i].key)
    {
      assert r[lo..n][j] == r[lo + j] && r[lo..n][i] == r[lo + i];
    }
  }

  lemma WindowMembers(s: seq<Tag>, r: seq<Tag>, lo: nat, n: nat)
    requires lo <= n <= |s| && |r| == |s| && multiset(r) == multiset(s) && SameOutside(s, r, lo, n)
    ensures multiset(r[lo..n]) == multiset(s[lo..n])
  {
    var a, b, c, b' := s[..lo], s[lo..n], s[n..], r[lo..n];
    assert s == a + b + c;
    assert r == a + b' + c;
    calc {
      multiset(b');
      multiset(a + b' + c) - multiset(a) - multiset(c);
      multiset(a + b + c) - multiset(a) - multiset(c);
      multiset(b);
    }
  }
}

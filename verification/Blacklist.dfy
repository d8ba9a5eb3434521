/** Patterns of dotted names with `*` for a component (uploader/filter.go): tries grouped by length,
    one for names as they are and one for reversed names. */
module Blacklist {
  import opened ByteStrings
  import opened DottedPath

  const STAR: bytes := [42]

  datatype Tree = Node(children: map<bytes, Tree>)

  const EMPTY := Node(map[])

  /** A pattern's components against a name's. */
  ghost predicate Matches(pattern: seq<bytes>, parts: seq<bytes>)
  {
    |pattern| == |parts| && MatchesFrom(pattern, parts, 0)
  }

  ghost predicate MatchesFrom(pattern: seq<bytes>, parts: seq<bytes>, from: nat)
    requires |pattern| == |parts|
  {
    forall i | from <= i < |parts| :: pattern[i] == parts[i] || pattern[i] == [42]
  }

  /** The walk of `buildTrees` for one pattern: missing nodes are made on the way. */
  function Insert(t: Tree, path: seq<bytes>, i: nat): Tree
    requires i <= |path|
    decreases |path| - i
  {
    if i == |path| then t
    else
      var child := if path[i] in t.children then t.children[path[i]] else EMPTY;
      Node(t.children[path[i] := Insert(child, path, i + 1)])
  }

  /** `containsInner` */
  predicate Search(t: Tree, parts: seq<bytes>, start: nat)
    requires start <= |parts|
    decreases |parts| - start
  {
    start == |parts| ||
    (parts[start] in t.children && Search(t.children[parts[start]], parts, start + 1)) ||
    (STAR in t.children && Search(t.children[STAR], parts, start + 1))
  }

  ghost predicate HasPath(t: Tree, path: seq<bytes>, i: nat)
    requires i <= |path|
    decreases |path| - i
  {
    i == |path| || (path[i] in t.children && HasPath(t.children[path[i]], path, i + 1))
  }

  lemma {:induction false} InsertAdds(t: Tree, path: seq<bytes>, q: seq<bytes>, i: nat)
    requires i <= |path| == |q|
    ensures HasPath(Insert(t, path, i), q, i) <==> HasPath(t, q, i) || path[i..] == q[i..]
    decreases |path| - i
  {
    if i < |path| {
      var child := if path[i] in t.children then t.children[path[i]] else EMPTY;
      InsertAdds(child, path, q, i + 1);
      assert path[i..] == [path[i]] + path[i + 1..] && q[i..] == [q[i]] + q[i + 1..];
      if path[i] == q[i] && path[i] !in t.children && i + 1 == |q| {
        assert path[i + 1..] == q[i + 1..];
      }
    }
  }

  /** The search finds a name exactly if some path of the tree matches it. */
  lemma {:induction false} SearchSound(t: Tree, parts: seq<bytes>, start: nat) returns (path: seq<bytes>)
    requires start <= |parts| && Search(t, parts, start)
    ensures |path| == |parts| && HasPath(t, path, start) && MatchesFrom(path, parts, start)
    decreases |parts| - start
  {
    if start == |parts| {
      path := parts;
    } else {
      var key :=
        if parts[start] in t.children && Search(t.children[parts[start]], parts, start + 1) then parts[start] else STAR;
      var rest := SearchSound(t.children[key], parts, start + 1);
      path := rest[start := key];
      PathFrom(t.children[key], rest, path, start + 1);
    }
  }

  lemma {:induction false} PathFrom(t: Tree, a: seq<bytes>, b: seq<bytes>, i: nat)
    requires i <= |a| == |b| && (forall j | i <= j < |a| :: a[j] == b[j]) && HasPath(t, a, i)
    ensures HasPath(t, b, i)
    decreases |a| - i
  {
    if i < |a| {
      PathFrom(t.children[a[i]], a, b, i + 1);
    }
  }

  lemma {:induction false} SearchComplete(t: Tree, parts: seq<bytes>, start: nat, path: seq<bytes>)
    requires start <= |parts| == |path| && HasPath(t, path, start) && MatchesFrom(path, parts, start)
    ensures Search(t, parts, start)
    decreases |parts| - start
  {
    if start < |parts| {
      SearchComplete(t.children[path[start]], parts, start + 1, path);
    }
  }

  /** The paths of a tree are those of a list, all of one length. */
  ghost predicate Holds(t: Tree, paths: seq<seq<bytes>>, length: nat)
  {
    forall q | |q| == length :: HasPath(t, q, 0) <==> q in paths
  }

  ghost predicate SomeMatches(paths: seq<seq<bytes>>, parts: seq<bytes>)
  {
    exists k | 0 <= k < |paths| :: Matches(paths[k], parts)
  }

  lemma MatchesSome(paths: seq<seq<bytes>>, parts: seq<bytes>, path: seq<bytes>)
    requires path in paths && Matches(path, parts)
    ensures SomeMatches(paths, parts)
  {
  }

  lemma SearchFinds(t: Tree, paths: seq<seq<bytes>>, parts: seq<bytes>)
    requires Holds(t, paths, |parts|)
    ensures Search(t, parts, 0) <==> SomeMatches(paths, parts)
  {
    if Search(t, parts, 0) {
      var path := SearchSound(t, parts, 0);
      MatchesSome(paths, parts, path);
    }
    if SomeMatches(paths, parts) {
      var k :| 0 <= k < |paths| && Matches(paths[k], parts);
      assert paths[k] in paths;
      SearchComplete(t, parts, 0, paths[k]);
    }
  }

  lemma NoPaths(length: nat)
    requires length > 0
    ensures Holds(EMPTY, [], length)
  {
  }

  lemma InsertHolds(t: Tree, paths: seq<seq<bytes>>, path: seq<bytes>)
    requires Holds(t, paths, |path|)
    ensures Holds(Insert(t, path, 0), paths + [path], |path|)
  {
    forall q | |q| == |path|
      ensures HasPath(Insert(t, path, 0), q, 0) <==> q in paths + [path]
    {
      InsertAdds(t, path, q, 0);
      assert path[0..] == path && q[0..] == q;
    }
  }

  function ReversedAll(paths: seq<seq<bytes>>): (r: seq<seq<bytes>>)
    ensures |r| == |paths|
  {
    seq(|paths|, i requires 0 <= i < |paths| => Reversed(paths[i]))
  }

  /** `buildTrees`: the second tree is walked from a pattern's last component to its first. */
  method BuildTrees(paths: seq<seq<bytes>>, length: nat) returns (l2r: Tree, r2l: Tree)
    requires length > 0 && forall p | p in paths :: |p| == length
    ensures Holds(l2r, paths, length) && Holds(r2l, ReversedAll(paths), length)
  {
    hide Holds;
    l2r, r2l := EMPTY, EMPTY;
    NoPaths(length);
    for k := 0 to |paths|
      invariant Holds(l2r, paths[..k], length) && Holds(r2l, ReversedAll(paths[..k]), length)
    {
      var path := paths[k];
      assert path in paths;
      InsertHolds(l2r, paths[..k], path);
      InsertHolds(r2l, ReversedAll(paths[..k]), Reversed(path));
      assert paths[..k + 1] == paths[..k] + [path];
      assert ReversedAll(paths[..k + 1]) == ReversedAll(paths[..k]) + [Reversed(path)];
      l2r := Insert(l2r, path, 0);
      r2l := Insert(r2l, Reversed(path), 0);
    }
    assert paths[..|paths|] == paths;
  }

  /** Some pattern has the name's number of components, and matches each by equality or `*`. */
  ghost predicate Blacklisted(patterns: seq<bytes>, value: bytes)
  {
    exists p | p in patterns :: Matches(Split(p, DOT), Split(value, DOT))
  }

  /** The patterns of one length, in order. */
  function OfLength(patterns: seq<bytes>, n: nat): seq<seq<bytes>>
  {
    if patterns == [] then []
    else
      var path := Split(patterns[|patterns| - 1], DOT);
      OfLength(patterns[..|patterns| - 1], n) + if |path| == n then [path] else []
  }

  lemma {:induction false} OfLengthMembers(patterns: seq<bytes>, n: nat, path: seq<bytes>)
    ensures path in OfLength(patterns, n) <==> |path| == n && exists p | p in patterns :: Split(p, DOT) == path
  {
    if patterns != [] {
      var init, last := patterns[..|patterns| - 1], patterns[|patterns| - 1];
      OfLengthMembers(init, n, path);
      assert patterns == init + [last];
      hide Split;
      assert last in patterns && forall p | p in init :: p in patterns;
    }
  }

  /** Searching the tree of a length is searching all patterns. */
  lemma ForwardFinds(patterns: seq<bytes>, value: bytes)
    ensures SomeMatches(OfLength(patterns, |Split(value, DOT)|), Split(value, DOT)) <==> Blacklisted(patterns, value)
  {
    var parts := Split(value, DOT);
    var paths := OfLength(patterns, |parts|);
    hide Split, MatchesFrom, OfLength;
    if SomeMatches(paths, parts) {
      var k :| 0 <= k < |paths| && Matches(paths[k], parts);
      assert paths[k] in paths;
      OfLengthMembers(patterns, |parts|, paths[k]);
      var p :| p in patterns && Split(p, DOT) == paths[k];
    }
    if Blacklisted(patterns, value) {
      var p :| p in patterns && Matches(Split(p, DOT), parts);
      var path := Split(p, DOT);
      OfLengthMembers(patterns, |parts|, path);
      MatchesSome(paths, parts, path);
    }
  }

  lemma MatchesReversed(pattern: seq<bytes>, parts: seq<bytes>)
    ensures Matches(Reversed(pattern), parts) <==> Matches(pattern, Reversed(parts))
  {
    if |pattern| == |parts| {
      var n, p, q := |parts|, Reversed(pattern), Reversed(parts);
      if MatchesFrom(p, parts, 0) {
        forall i | 0 <= i < n
          ensures pattern[i] == q[i] || pattern[i] == STAR
        {
          assert p[n - 1 - i] == pattern[i] && q[i] == parts[n - 1 - i];
        }
      }
      if MatchesFrom(pattern, q, 0) {
        forall i | 0 <= i < n
          ensures p[i] == parts[i] || p[i] == STAR
        {
          assert p[i] == pattern[n - 1 - i] && q[n - 1 - i] == parts[i];
        }
      }
    }
  }

  lemma SplitReversePath(value: bytes)
    ensures Split(ReversePath(value), DOT) == Reversed(Split(value, DOT))
  {
    var parts := Split(value, DOT);
    var r := Reversed(parts);
    SplitParts(value, DOT);
    assert ReversePath(value) == Join(r, DOT);
    hide Split, Join, ReversePath;
    forall k | 0 <= k < |r|
      ensures DOT !in r[k]
    {
      assert r[k] == parts[|parts| - 1 - k];
    }
    SplitJoin(r, DOT);
  }

  lemma SomeMatchesReversed(paths: seq<seq<bytes>>, parts: seq<bytes>)
    ensures SomeMatches(ReversedAll(paths), parts) <==> SomeMatches(paths, Reversed(parts))
  {
    var all := ReversedAll(paths);
    hide Matches;
    forall k | 0 <= k < |paths|
      ensures Matches(all[k], parts) <==> Matches(paths[k], Reversed(parts))
    {
      MatchesReversed(paths[k], parts);
    }
  }

  /** So is searching the other tree for a reversed name. */
  lemma BackwardFinds(patterns: seq<bytes>, value: bytes)
    ensures SomeMatches(ReversedAll(OfLength(patterns, |Split(value, DOT)|)), Split(value, DOT)) <==>
            Blacklisted(patterns, ReversePath(value))
  {
    SplitReversePath(value);
    ForwardFinds(patterns, ReversePath(value));
    SomeMatchesReversed(OfLength(patterns, |Split(value, DOT)|), Split(value, DOT));
    hide Split, SomeMatches, OfLength, Blacklisted, ReversePath;
  }

  class Blacklist {
    const patterns: seq<bytes>
    var searchL2R: map<nat, Tree>
    var searchR2L: map<nat, Tree>

    ghost predicate Valid()
      reads this
    {
      && (forall n :: n in searchL2R <==> OfLength(patterns, n) != [])
      && (forall n :: n in searchR2L <==> OfLength(patterns, n) != [])
      && (forall n | n in searchL2R :: Holds(searchL2R[n], OfLength(patterns, n), n))
      && (forall n | n in searchR2L :: Holds(searchR2L[n], ReversedAll(OfLength(patterns, n)), n))
    }

    /** `NewBlacklist` */
    constructor (ignoredPatterns: seq<bytes>)
      ensures Valid() && patterns == ignoredPatterns
    {
      patterns := ignoredPatterns;
      searchL2R, searchR2L := map[], map[];
      new;
      var groups := Group(patterns);
      var l2r, r2l := BuildGroups(patterns, groups);
      searchL2R, searchR2L := l2r, r2l;
    }

    predicate Contains(value: bytes, isReverse: bool)
      reads this
    {
      var parts := Split(value, DOT);
      var group := if isReverse then searchR2L else searchL2R;
      |parts| in group && Search(group[|parts|], parts, 0)
    }
  }

  lemma NoneMatch(parts: seq<bytes>)
    ensures !SomeMatches([], parts)
  {
  }

  lemma ContainsForward(b: Blacklist, value: bytes)
    requires b.Valid()
    ensures b.Contains(value, false) <==> Blacklisted(b.patterns, value)
  {
    var parts := Split(value, DOT);
    ForwardFinds(b.patterns, value);
    hide Split, Matches, Blacklisted, Search, Holds, OfLength, SomeMatches;
    NoneMatch(parts);
    if |parts| in b.searchL2R {
      SearchFinds(b.searchL2R[|parts|], OfLength(b.patterns, |parts|), parts);
    }
  }

  lemma ContainsBackward(b: Blacklist, value: bytes)
    requires b.Valid()
    ensures b.Contains(value, true) <==> Blacklisted(b.patterns, ReversePath(value))
  {
    var parts := Split(value, DOT);
    var paths := OfLength(b.patterns, |parts|);
    BackwardFinds(b.patterns, value);
    hide Split, Matches, Blacklisted, Search, Holds, OfLength, ReversePath, ReversedAll, SomeMatches;
    NoneMatch(parts);
    if |parts| in b.searchR2L {
      SearchFinds(b.searchR2L[|parts|], ReversedAll(paths), parts);
    } else {
      assert ReversedAll(paths) == [];
    }
  }

  /** A value is found exactly if it is blacklisted, and a reversed value gets the same answer. */
  lemma {:induction false} ContainsIsBlacklisted(b: Blacklist, value: bytes)
    requires b.Valid()
    ensures b.Contains(value, false) <==> Blacklisted(b.patterns, value)
    ensures b.Contains(ReversePath(value), true) <==> Blacklisted(b.patterns, value)
  {
    ContainsForward(b, value);
    ContainsBackward(b, ReversePath(value));
    ReversePathInvolution(value);
  }

  lemma {:induction false} PathsOfLength(patterns: seq<bytes>, n: nat)
    ensures forall p | p in OfLength(patterns, n) :: |p| == n
    ensures OfLength(patterns, n) != [] ==> n > 0
  {
    if patterns != [] {
      PathsOfLength(patterns[..|patterns| - 1], n);
    }
  }

  lemma OfLengthStep(patterns: seq<bytes>, i: nat, n: nat)
    requires i < |patterns|
    ensures OfLength(patterns[..i + 1], n) ==
            OfLength(patterns[..i], n) + if |Split(patterns[i], DOT)| == n then [Split(patterns[i], DOT)] else []
  {
    assert patterns[..i + 1][..i] == patterns[..i];
  }

  /** The patterns by length. */
  method Group(patterns: seq<bytes>) returns (groups: map<nat, seq<seq<bytes>>>)
    ensures forall n :: n in groups <==> OfLength(patterns, n) != []
    ensures forall n | n in groups :: groups[n] == OfLength(patterns, n)
  {
    groups := map[];
    for i := 0 to |patterns|
      invariant forall n :: n in groups <==> OfLength(patterns[..i], n) != []
      invariant forall n | n in groups :: groups[n] == OfLength(patterns[..i], n)
    {
      hide Split, OfLength;
      var path := Split(patterns[i], DOT);
      var n := |path|;
      forall k
        ensures OfLength(patterns[..i + 1], k) == OfLength(patterns[..i], k) + if n == k then [path] else []
      {
        OfLengthStep(patterns, i, k);
      }
      groups := groups[n := (if n in groups then groups[n] else []) + [path]];
    }
    assert patterns[..|patterns|] == patterns;
  }

  /** The trees of every group. */
  method BuildGroups(patterns: seq<bytes>, groups: map<nat, seq<seq<bytes>>>)
      returns (l2r: map<nat, Tree>, r2l: map<nat, Tree>)
    requires forall n | n in groups :: groups[n] == OfLength(patterns, n) != []
    ensures l2r.Keys == r2l.Keys == groups.Keys
    ensures forall n | n in groups :: Holds(l2r[n], OfLength(patterns, n), n)
    ensures forall n | n in groups :: Holds(r2l[n], ReversedAll(OfLength(patterns, n)), n)
  {
    hide Holds, OfLength, ReversedAll;
    l2r, r2l := map[], map[];
    var left := groups.Keys;
    while left != {}
      invariant left <= groups.Keys && l2r.Keys == r2l.Keys == groups.Keys - left
      invariant forall n | n in l2r ::
                  Holds(l2r[n], OfLength(patterns, n), n) && Holds(r2l[n], ReversedAll(OfLength(patterns, n)), n)
      decreases left
    {
      var n :| n in left;
      PathsOfLength(patterns, n);
      var t, u := BuildTrees(groups[n], n);
      l2r := l2r[n := t];
      r2l := r2l[n := u];
      left := left - {n};
    }
  }
}

/** Taking repeated dots out of a received name, in place (receiver/plain.go). */
module DoubleDots {
  import opened ByteStrings

  ghost predicate DoubleAt(s: bytes, i: int)
  {
    1 <= i < |s| && s[i] == DOT && s[i - 1] == DOT
  }

  ghost predicate HasDouble(s: bytes)
  {
    exists i :: DoubleAt(s, i)
  }

  /** Each dot after a dot is left out. */
  function Squeezed(s: bytes): (r: bytes)
    ensures |r| <= |s|
  {
    if s == [] then []
    else
      var n := |s| - 1;
      Squeezed(s[..n]) + if n > 0 && s[n] == DOT && s[n - 1] == DOT then [] else [s[n]]
  }

  /** Every second byte is enough to look at. */
  method HasDoubleDot(p: bytes) returns (found: bool)
    ensures found <==> HasDouble(p)
  {
    var i := 1;
    while i < |p|
      invariant i % 2 == 1 && 1 <= i <= |p| + 1
      invariant forall k | 1 <= k < i :: !DoubleAt(p, k)
    {
      if p[i] == DOT {
        if p[i - 1] == DOT {
          assert DoubleAt(p, i);
          return true;
        }
        if i + 1 < |p| && p[i + 1] == DOT {
          assert DoubleAt(p, i + 1);
          return true;
        }
      }
      i := i + 2;
    }
    return false;
  }

  lemma SqueezedStep(s: bytes, i: nat)
    requires 1 <= i < |s|
    ensures Squeezed(s[..i + 1]) == Squeezed(s[..i]) + if s[i] == DOT && s[i - 1] == DOT then [] else [s[i]]
  {
    assert s[..i + 1][..i] == s[..i];
  }

  /** The last byte kept tells whether the byte before was a dot. */
  lemma {:induction false} SqueezedLast(s: bytes)
    requires s != []
    ensures Squeezed(s) != [] && Squeezed(s)[|Squeezed(s)| - 1] == s[|s| - 1]
  {
    if |s| > 1 {
      SqueezedLast(s[..|s| - 1]);
    }
  }

  lemma SqueezedFirst(s: bytes)
    requires s != []
    ensures Squeezed(s[..1]) == s[..1]
  {
    assert s[..1][..0] == [];
  }

  /** `RemoveDoubleDot`: what is left is the first `n` bytes. */
  method RemoveDoubleDot(p: array<byte>) returns (n: nat)
    modifies p
    ensures n <= p.Length && p[..n] == Squeezed(old(p[..]))
  {
    ghost var was := p[..];
    var doubled := HasDoubleDot(p[..]);
    if !doubled {
      SqueezedUnchanged(was);
      return p.Length;
    }
    hide Squeezed;
    var shift, i := 0, 1;
    SqueezedFirst(was);
    while i < p.Length
      invariant 1 <= i <= p.Length && 0 <= shift < i
      invariant p[..i - shift] == Squeezed(was[..i])
      invariant forall k | i <= k < p.Length :: p[k] == was[k]
      invariant shift == 0 ==> p[i - 1] == was[i - 1]
    {
      SqueezedStep(was, i);
      SqueezedLast(was[..i]);
      assert p[i - 1 - shift] == p[..i - shift][i - shift - 1] == was[i - 1];
      if p[i] == DOT && p[i - 1 - shift] == DOT {
        shift := shift + 1;
      } else if shift > 0 {
        p[i - shift] := p[i];
        assert p[..i + 1 - shift] == Squeezed(was[..i]) + [was[i]];
      } else {
        assert p[..i + 1] == p[..i] + [p[i]];
      }
      i := i + 1;
    }
    assert was[..i] == was;
    n := p.Length - shift;
  }

  lemma {:induction false} SqueezedUnchanged(s: bytes)
    ensures Squeezed(s) == s <==> !HasDouble(s)
  {
    if s != [] {
      var n := |s| - 1;
      SqueezedUnchanged(s[..n]);
      assert s == s[..n] + [s[n]];
      assert forall i | 1 <= i < n :: DoubleAt(s, i) <==> DoubleAt(s[..n], i);
      assert HasDouble(s) <==> HasDouble(s[..n]) || DoubleAt(s, n);
    }
  }

  /** Nothing doubled is left, so doing it again changes nothing. */
  lemma {:induction false} SqueezedIsClean(s: bytes)
    ensures !HasDouble(Squeezed(s)) && Squeezed(Squeezed(s)) == Squeezed(s)
  {
    SqueezedUnchanged(Squeezed(s));
    if s != [] {
      var n := |s| - 1;
      SqueezedIsClean(s[..n]);
      if n > 0 {
        SqueezedLast(s[..n]);
        var t, r := Squeezed(s[..n]), Squeezed(s);
        assert forall i | 1 <= i < |t| :: DoubleAt(r, i) ==> DoubleAt(t, i);
      }
      SqueezedUnchanged(Squeezed(s));
    }
  }

  /** The components that are not empty. */
  function Named(parts: seq<bytes>): seq<bytes>
  {
    if parts == [] then []
    else Named(parts[..|parts| - 1]) + if parts[|parts| - 1] == [] then [] else [parts[|parts| - 1]]
  }

  lemma NamedSnoc(parts: seq<bytes>, p: bytes)
    ensures Named(parts + [p]) == Named(parts) + if p == [] then [] else [p]
  {
    assert (parts + [p])[..|parts|] == parts;
  }

  lemma SplitDot(s: bytes)
    ensures Split(s + [DOT], DOT) == Split(s, DOT) + [[]]
  {
    assert s + [DOT] == s + [DOT] + [];
    SplitAround(s, [], DOT);
    IndexByteNone([], DOT);
    assert Split([], DOT) == [[]];
  }

  /** The last component, with one byte more. */
  function Grown(parts: seq<bytes>, c: byte): seq<bytes>
    requires parts != []
  {
    parts[..|parts| - 1] + [parts[|parts| - 1] + [c]]
  }

  lemma {:induction false} SplitByte(s: bytes, c: byte)
    requires c != DOT
    ensures Split(s + [c], DOT) == Grown(Split(s, DOT), c)
    decreases |s|
  {
    var i := IndexByte(s, DOT);
    IndexByteFinds(s, DOT);
    if i < 0 {
      IndexByteNone(s + [c], DOT);
    } else {
      IndexByteUnique(s + [c], DOT, i);
      assert (s + [c])[i + 1..] == s[i + 1..] + [c] && (s + [c])[..i] == s[..i];
      SplitByte(s[i + 1..], c);
    }
  }

  ghost predicate SameComponents(parts: seq<bytes>, left: seq<bytes>)
  {
    parts != [] && left != [] && Named(left) == Named(parts) && left[|left| - 1] == parts[|parts| - 1]
  }

  lemma DotAfterBoth(t: bytes, r: bytes)
    requires SameComponents(Split(t, DOT), Split(r, DOT))
    ensures SameComponents(Split(t + [DOT], DOT), Split(r + [DOT], DOT))
  {
    SplitDot(t);
    SplitDot(r);
    NamedSnoc(Split(t, DOT), []);
    NamedSnoc(Split(r, DOT), []);
    hide Split, Named;
  }

  lemma DotAfterDot(x: bytes, r: bytes)
    requires SameComponents(Split(x + [DOT], DOT), Split(r, DOT))
    ensures SameComponents(Split(x + [DOT] + [DOT], DOT), Split(r, DOT))
  {
    SplitDot(x);
    SplitDot(x + [DOT]);
    NamedSnoc(Split(x + [DOT], DOT), []);
    hide Split, Named;
  }

  lemma ByteAfterBoth(t: bytes, r: bytes, c: byte)
    requires c != DOT && SameComponents(Split(t, DOT), Split(r, DOT))
    ensures SameComponents(Split(t + [c], DOT), Split(r + [c], DOT))
  {
    SplitByte(t, c);
    SplitByte(r, c);
    hide *;
    ComponentGrows(Split(t, DOT), Split(r, DOT), c);
  }

  lemma SqueezedSnoc(s: bytes)
    requires s != []
    ensures var n := |s| - 1;
            Squeezed(s) == Squeezed(s[..n]) + if n > 0 && s[n] == DOT && s[n - 1] == DOT then [] else [s[n]]
  {
  }

  lemma NothingSqueezed()
    ensures SameComponents(Split([], DOT), Split(Squeezed([]), DOT))
  {
  }

  /** A path keeps its components, but for empty ones, and its last one. */
  lemma {:induction false} ComponentsStay(s: bytes)
    ensures SameComponents(Split(s, DOT), Split(Squeezed(s), DOT))
  {
    hide *;
    if s == [] {
      NothingSqueezed();
    } else {
      var n := |s| - 1;
      var t, r := s[..n], Squeezed(s[..n]);
      ComponentsStay(t);
      SqueezedSnoc(s);
      LastByte(s);
      if s[n] != DOT {
        ByteAfterBoth(t, r, s[n]);
      } else if n > 0 && s[n - 1] == DOT {
        LastByte(t);
        Unextended(r);
        DotAfterDot(t[..n - 1], r);
      } else {
        DotAfterBoth(t, r);
      }
    }
  }

  lemma LastByte(s: bytes)
    requires s != []
    ensures s == s[..|s| - 1] + [s[|s| - 1]]
  {
  }

  lemma Unextended(r: bytes)
    ensures r + [] == r
  {
  }

  lemma ComponentGrows(a: seq<bytes>, b: seq<bytes>, c: byte)
    requires SameComponents(a, b)
    ensures SameComponents(Grown(a, c), Grown(b, c))
  {
    var x, y, last := a[..|a| - 1], b[..|b| - 1], a[|a| - 1];
    NamedSnoc(x, last + [c]);
    NamedSnoc(y, last + [c]);
    var end: seq<bytes> := if last == [] then [] else [last];
    assert Named(a) == Named(x) + end && Named(b) == Named(y) + end;
    hide Named;
    SameFront(Named(x), Named(y), end);
  }

  lemma SameFront(x: seq<bytes>, y: seq<bytes>, end: seq<bytes>)
    requires x + end == y + end
    ensures x == y
  {
    assert |x| == |y|;
    assert (x + end)[..|x|] == x && (y + end)[..|y|] == y;
  }
}

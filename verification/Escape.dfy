/** Percent-encoding (helper/escape): RFC 3986 section 2.1, with the unreserved characters of
    section 2.3, and `+` for a space in query components. */
module Escape {
  import opened ByteStrings

  /** The two encodings the package exports: `Path` and `Query`. */
  datatype Mode = EncodePath | EncodeQuery

  /** `strings.Builder` and `stringutils.Builder`: an append-only byte buffer. */
  class Builder {
    var buf: bytes

    constructor ()
      ensures buf == []
    {
      buf := [];
    }

    method Reset()
      modifies this
      ensures buf == []
    {
      buf := [];
    }

    method WriteString(s: bytes)
      modifies this
      ensures buf == old(buf) + s
    {
      buf := buf + s;
    }

    method WriteByte(c: byte)
      modifies this
      ensures buf == old(buf) + [c]
    {
      buf := buf + [c];
    }
  }

  /** Letters, digits and `-`, `_`, `.`, `~`. */
  predicate Unreserved(c: byte)
  {
    97 <= c <= 122 || 65 <= c <= 90 || 48 <= c <= 57 || c == 45 || c == 95 || c == 46 || c == 126
  }

  /** `$`, `&`, `+`, `,`, `/`, `:`, `;`, `=`, `?`, `@`. */
  predicate Reserved(c: byte)
  {
    c == 36 || c == 38 || c == 43 || c == 44 || c == 47 || c == 58 || c == 59 || c == 61 || c == 63 || c == 64
  }

  predicate ShouldEscape(c: byte, mode: Mode)
  {
    if Unreserved(c) then false
    else if Reserved(c) then mode == EncodeQuery || c == QUESTION
    else true
  }

  function HexDigit(n: byte): byte
    requires n < 16
  {
    if n < 10 then 48 + n else 55 + n
  }

  /** What one byte becomes. */
  function EscapeByte(c: byte, mode: Mode): bytes
  {
    if c == SPACE && mode == EncodeQuery then [PLUS]
    else if ShouldEscape(c, mode) then [PERCENT, HexDigit(c / 16), HexDigit(c % 16)]
    else [c]
  }

  /** Every byte escaped on its own. */
  function Escaped(s: bytes, mode: Mode): bytes
  {
    if s == [] then [] else EscapeByte(s[0], mode) + Escaped(s[1..], mode)
  }

  lemma {:induction false} EscapedAppend(a: bytes, b: bytes, mode: Mode)
    ensures Escaped(a + b, mode) == Escaped(a, mode) + Escaped(b, mode)
  {
    if a == [] {
      assert a + b == b;
    } else {
      assert (a + b)[1..] == a[1..] + b;
      EscapedAppend(a[1..], b, mode);
    }
  }

  lemma EscapedSnoc(s: bytes, i: nat, mode: Mode)
    requires i < |s|
    ensures Escaped(s[..i + 1], mode) == Escaped(s[..i], mode) + EscapeByte(s[i], mode)
  {
    assert s[..i + 1] == s[..i] + [s[i]];
    EscapedAppend(s[..i], [s[i]], mode);
    assert [s[i]][1..] == [];
    assert Escaped([s[i]], mode) == EscapeByte(s[i], mode) + [];
  }

  predicate EscapeFree(s: bytes, mode: Mode)
  {
    forall i | 0 <= i < |s| :: !ShouldEscape(s[i], mode)
  }

  lemma {:induction false} EscapedUnchanged(s: bytes, mode: Mode)
    ensures |Escaped(s, mode)| >= |s|
    ensures Escaped(s, mode) == s <==> EscapeFree(s, mode)
  {
    if s != [] {
      EscapedUnchanged(s[1..], mode);
      var e := EscapeByte(s[0], mode);
      if ShouldEscape(s[0], mode) {
        assert (e == [PLUS] && s[0] != PLUS) || |e| == 3;
        assert Escaped(s, mode)[0] == e[0];
      } else {
        assert e == [s[0]];
        assert s == [s[0]] + s[1..];
        assert EscapeFree(s, mode) <==> EscapeFree(s[1..], mode) by {
          assert forall i | 1 <= i < |s| :: s[i] == s[1..][i - 1];
        }
        assert Escaped(s, mode)[1..] == Escaped(s[1..], mode);
      }
    }
  }

  /** How many bytes need three, and how many are spaces written as `+`. */
  function HexCount(s: bytes, mode: Mode): nat
  {
    if s == [] then 0
    else HexCount(s[..|s| - 1], mode) +
         (if ShouldEscape(s[|s| - 1], mode) && !(s[|s| - 1] == SPACE && mode == EncodeQuery) then 1 else 0)
  }

  lemma {:induction false} EscapedLength(s: bytes, mode: Mode)
    ensures |Escaped(s, mode)| == |s| + 2 * HexCount(s, mode)
  {
    if s != [] {
      var n := |s| - 1;
      EscapedSnoc(s, n, mode);
      assert s[..n + 1] == s;
      EscapedLength(s[..n], mode);
    }
  }

  /** The first pass of `escape`. */
  method CountEscapes(s: bytes, mode: Mode) returns (spaceCount: nat, hexCount: nat)
    ensures hexCount == HexCount(s, mode)
    ensures spaceCount == 0 && hexCount == 0 ==> EscapeFree(s, mode)
    ensures hexCount == 0 ==> OnlySpaces(s, mode)
    ensures mode == EncodePath ==> spaceCount == 0
  {
    spaceCount, hexCount := 0, 0;
    for i := 0 to |s|
      invariant hexCount == HexCount(s[..i], mode)
      invariant mode == EncodePath ==> spaceCount == 0
      invariant spaceCount == 0 && hexCount == 0 ==> forall k | 0 <= k < i :: !ShouldEscape(s[k], mode)
      invariant hexCount == 0 ==>
        forall k | 0 <= k < i :: ShouldEscape(s[k], mode) ==> s[k] == SPACE && mode == EncodeQuery
    {
      assert s[..i + 1][..i] == s[..i];
      if ShouldEscape(s[i], mode) {
        if s[i] == SPACE && mode == EncodeQuery {
          spaceCount := spaceCount + 1;
        } else {
          hexCount := hexCount + 1;
        }
      }
    }
    assert s[..|s|] == s;
  }

  predicate OnlySpaces(s: bytes, mode: Mode)
  {
    forall k | 0 <= k < |s| :: ShouldEscape(s[k], mode) ==> s[k] == SPACE && mode == EncodeQuery
  }

  lemma EscapedPrefix(s: bytes, j: nat, mode: Mode)
    requires j <= |s|
    ensures |Escaped(s[..j], mode)| <= |Escaped(s, mode)|
  {
    assert s[..j] + s[j..] == s;
    EscapedAppend(s[..j], s[j..], mode);
  }

  lemma EscapedFits(s: bytes, i: nat, mode: Mode)
    requires i < |s|
    ensures |Escaped(s[..i], mode)| + |EscapeByte(s[i], mode)| <= |s| + 2 * HexCount(s, mode)
  {
    EscapedSnoc(s, i, mode);
    EscapedPrefix(s, i + 1, mode);
    EscapedLength(s, mode);
  }

  /** One round of the second pass: writes the escape of `c` at `j`. */
  method PutEscaped(t: array<byte>, j: nat, c: byte, mode: Mode) returns (j': nat)
    requires j + |EscapeByte(c, mode)| <= t.Length
    modifies t
    ensures j' == j + |EscapeByte(c, mode)|
    ensures t[..j] == old(t[..j]) && t[j..j'] == EscapeByte(c, mode)
  {
    if c == SPACE && mode == EncodeQuery {
      t[j] := PLUS;
      j' := j + 1;
    } else if ShouldEscape(c, mode) {
      t[j] := PERCENT;
      t[j + 1] := HexDigit(c / 16);
      t[j + 2] := HexDigit(c % 16);
      j' := j + 3;
    } else {
      t[j] := c;
      j' := j + 1;
    }
  }

  lemma NothingEscaped(mode: Mode)
    ensures Escaped([], mode) == []
  {
  }

  /** `escape`: counts first, then fills an array of exactly the needed size. */
  method Escape(s: bytes, mode: Mode) returns (r: bytes)
    ensures r == Escaped(s, mode)
  {
    var spaceCount, hexCount := CountEscapes(s, mode);
    if spaceCount == 0 && hexCount == 0 {
      EscapedUnchanged(s, mode);
      return s;
    }
    var required := |s| + 2 * hexCount;
    var t := new byte[required];
    if hexCount == 0 {
      r := SpacesToPlus(s, t);
      SpacesOnly(s, mode);
      return;
    }
    hide Escaped, EscapeByte;
    var j := 0;
    NothingEscaped(mode);
    for i := 0 to |s|
      invariant j == |Escaped(s[..i], mode)| <= required
      invariant t[..j] == Escaped(s[..i], mode)
    {
      EscapedFits(s, i, mode);
      EscapedSnoc(s, i, mode);
      ghost var j0 := j;
      j := PutEscaped(t, j, s[i], mode);
      assert t[..j] == t[..j0] + t[j0..j];
    }
    assert s[..|s|] == s;
    EscapedLength(s, mode);
    assert t[..] == t[..j];
    return t[..];
  }

  function PlusForSpace(s: bytes): bytes
  {
    seq(|s|, i requires 0 <= i < |s| => if s[i] == SPACE then PLUS else s[i])
  }

  /** The branch of `escape` taken when spaces are all there is to escape. */
  method SpacesToPlus(s: bytes, t: array<byte>) returns (r: bytes)
    requires t.Length == |s|
    modifies t
    ensures r == PlusForSpace(s)
  {
    for i := 0 to |s|
      invariant t[..i] == s[..i]
    {
      t[i] := s[i];
    }
    for i := 0 to |s|
      invariant forall k | 0 <= k < i :: t[k] == if s[k] == SPACE then PLUS else s[k]
      invariant forall k | i <= k < |s| :: t[k] == s[k]
    {
      if s[i] == SPACE {
        t[i] := PLUS;
      }
    }
    return t[..];
  }

  lemma {:induction false} SpacesOnly(s: bytes, mode: Mode)
    requires OnlySpaces(s, mode)
    ensures mode == EncodeQuery ==> Escaped(s, mode) == PlusForSpace(s)
    ensures mode == EncodePath ==> EscapeFree(s, mode)
  {
    if s != [] {
      assert forall k | 0 <= k < |s[1..]| :: s[1..][k] == s[k + 1];
      SpacesOnly(s[1..], mode);
      assert PlusForSpace(s) == [if s[0] == SPACE then PLUS else s[0]] + PlusForSpace(s[1..]);
    }
  }

  /** `escapeTo` loses its last byte exactly when that byte stays as it is and the byte before it
      is escaped: the remainder is written only when `pos < len(s)-1`. */
  predicate LosesLastByte(s: bytes, mode: Mode)
  {
    |s| >= 2 && ShouldEscape(s[|s| - 2], mode) && !ShouldEscape(s[|s| - 1], mode)
  }

  function EscapedTo(s: bytes, mode: Mode): bytes
  {
    if LosesLastByte(s, mode) then Escaped(s[..|s| - 1], mode) else Escaped(s, mode)
  }

  lemma EscapeToAgreesWithEscape(s: bytes, mode: Mode)
    ensures EscapedTo(s, mode) == Escaped(s, mode) <==> !LosesLastByte(s, mode)
    ensures LosesLastByte(s, mode) ==> EscapedTo(s, mode) + [s[|s| - 1]] == Escaped(s, mode)
  {
    if LosesLastByte(s, mode) {
      EscapedSnoc(s, |s| - 1, mode);
      assert s[..|s| - 1 + 1] == s;
    }
  }

  predicate EscapeFreeIn(s: bytes, lo: nat, hi: nat, mode: Mode)
    requires lo <= hi <= |s|
  {
    forall k | lo <= k < hi :: !ShouldEscape(s[k], mode)
  }

  /** The bytes since `pos` need no escaping, so they come out as they are. */
  lemma EscapedRun(s: bytes, pos: nat, i: nat, mode: Mode)
    requires pos <= i <= |s| && EscapeFreeIn(s, pos, i, mode)
    ensures Escaped(s[..i], mode) == Escaped(s[..pos], mode) + s[pos..i]
  {
    var mid := s[pos..i];
    assert s[..pos] + mid == s[..i];
    EscapedAppend(s[..pos], mid, mode);
    assert EscapeFree(mid, mode);
    EscapedUnchanged(mid, mode);
  }

  /** What one round of the loop of `escapeTo` adds. */
  lemma EscapedRunThenByte(s: bytes, pos: nat, i: nat, mode: Mode, before: bytes)
    requires pos <= i < |s| && EscapeFreeIn(s, pos, i, mode)
    ensures before + Escaped(s[..pos], mode) + s[pos..i] + EscapeByte(s[i], mode) == before + Escaped(s[..i + 1], mode)
  {
    EscapedRun(s, pos, i, mode);
    EscapedSnoc(s, i, mode);
    var a, b, c := Escaped(s[..pos], mode), s[pos..i], EscapeByte(s[i], mode);
    assert before + a + b + c == before + (a + b + c);
  }

  /** The escape of a byte that needs one. */
  method WriteEscape(c: byte, mode: Mode, sb: Builder)
    requires ShouldEscape(c, mode)
    modifies sb
    ensures sb.buf == old(sb.buf) + EscapeByte(c, mode)
  {
    if c == SPACE && mode == EncodeQuery {
      sb.WriteByte(PLUS);
    } else {
      sb.WriteByte(PERCENT);
      sb.WriteByte(HexDigit(c / 16));
      sb.WriteByte(HexDigit(c % 16));
    }
  }

  /** The loop of `escapeTo`: everything up to and including the last escaped byte is written. */
  method EscapeRuns(s: bytes, mode: Mode, sb: Builder) returns (pos: nat)
    modifies sb
    ensures pos <= |s| && EscapeFreeIn(s, pos, |s|, mode)
    ensures pos > 0 ==> ShouldEscape(s[pos - 1], mode)
    ensures sb.buf == old(sb.buf) + Escaped(s[..pos], mode)
  {
    ghost var before := sb.buf;
    pos := 0;
    for i := 0 to |s|
      invariant 0 <= pos <= i
      invariant pos > 0 ==> ShouldEscape(s[pos - 1], mode)
      invariant EscapeFreeIn(s, pos, i, mode)
      invariant sb.buf == before + Escaped(s[..pos], mode)
    {
      if ShouldEscape(s[i], mode) {
        EscapedRunThenByte(s, pos, i, mode, before);
        sb.WriteString(s[pos..i]);
        WriteEscape(s[i], mode, sb);
        pos := i + 1;
      }
    }
  }

  /** `escapeTo`. */
  method EscapeTo(s: bytes, mode: Mode, sb: Builder)
    modifies sb
    ensures sb.buf == old(sb.buf) + EscapedTo(s, mode)
  {
    var pos := EscapeRuns(s, mode, sb);
    EscapedRest(s, pos, mode, old(sb.buf));
    if pos == 0 {
      sb.WriteString(s);
    } else if pos < |s| - 1 {
      sb.WriteString(s[pos..]);
    }
  }

  /** Where the last escaped byte is decides whether the last byte is lost. */
  lemma EscapedRest(s: bytes, pos: nat, mode: Mode, before: bytes)
    requires pos <= |s| && EscapeFreeIn(s, pos, |s|, mode)
    requires pos > 0 ==> ShouldEscape(s[pos - 1], mode)
    ensures LosesLastByte(s, mode) <==> pos > 0 && pos == |s| - 1
    ensures pos == |s| ==> s[..pos] == s
    ensures pos == 0 ==> before + Escaped(s[..0], mode) + s == before + Escaped(s, mode)
    ensures before + Escaped(s[..pos], mode) + s[pos..] == before + Escaped(s, mode)
  {
    EscapedRun(s, pos, |s|, mode);
    assert s[..|s|] == s && s[pos..|s|] == s[pos..];
    assert pos == 0 ==> s[pos..] == s;
    var a, b := Escaped(s[..pos], mode), s[pos..];
    assert before + a + b == before + (a + b);
  }

  predicate IsHex(c: byte)
  {
    48 <= c <= 57 || 97 <= c <= 102 || 65 <= c <= 70
  }

  function Unhex(c: byte): (n: byte)
    ensures n < 16
  {
    if 48 <= c <= 57 then c - 48
    else if 97 <= c <= 102 then c - 87
    else if 65 <= c <= 70 then c - 55
    else 0
  }

  /** What `unescape` makes of `s`: a `%` too near the end ends the decoding, a `%` that is not
      followed by two hex digits is copied with the two bytes after it. */
  function Unescaped(s: bytes): bytes
  {
    if s == [] then []
    else if s[0] == PERCENT then
      if |s| < 3 then s
      else if IsHex(s[1]) && IsHex(s[2]) then [Unhex(s[1]) * 16 + Unhex(s[2])] + Unescaped(s[3..])
      else s[..3] + Unescaped(s[3..])
    else [if s[0] == PLUS then SPACE else s[0]] + Unescaped(s[1..])
  }

  lemma {:induction false} UnescapedLength(s: bytes)
    ensures |Unescaped(s)| <= |s|
  {
    if |s| >= 3 && s[0] == PERCENT {
      UnescapedLength(s[3..]);
    } else if s != [] && s[0] != PERCENT {
      UnescapedLength(s[1..]);
    }
  }

  /** `strings.IndexAny(s, "%+")`. */
  function IndexEscape(s: bytes): (i: int)
    ensures -1 <= i < |s|
    ensures i < 0 ==> forall k | 0 <= k < |s| :: s[k] != PERCENT && s[k] != PLUS
    ensures i >= 0 ==> forall k | 0 <= k < i :: s[k] != PERCENT && s[k] != PLUS
  {
    if s == [] then -1
    else if s[0] == PERCENT || s[0] == PLUS then 0
    else
      var r := IndexEscape(s[1..]);
      assert forall k | 1 <= k < |s| :: s[k] == s[1..][k - 1];
      if r < 0 then -1 else r + 1
  }

  lemma {:induction false} UnescapedPlain(a: bytes, b: bytes)
    requires forall k | 0 <= k < |a| :: a[k] != PERCENT && a[k] != PLUS
    ensures Unescaped(a + b) == a + Unescaped(b)
  {
    if a == [] {
      assert a + b == b;
    } else {
      assert (a + b)[1..] == a[1..] + b;
      assert forall k | 0 <= k < |a[1..]| :: a[1..][k] == a[k + 1];
      UnescapedPlain(a[1..], b);
    }
  }

  /** One round of `unescape`. */
  method UnescapeAt(s: bytes, i: nat, sb: Builder) returns (i': nat, ghost out: bytes)
    requires i < |s|
    modifies sb
    ensures i < i' <= |s|
    ensures sb.buf == old(sb.buf) + out
    ensures Unescaped(s[i..]) == out + Unescaped(s[i'..])
  {
    if s[i] == PERCENT {
      if |s| < i + 3 {
        out := s[i..];
        sb.WriteString(s[i..]);
        return |s|, out;
      }
      assert s[i..][3..] == s[i + 3..];
      if !(i + 2 < |s| && IsHex(s[i + 1]) && IsHex(s[i + 2])) {
        assert s[i..][..3] == s[i..i + 3];
        out := s[i..i + 3];
        sb.WriteString(s[i..i + 3]);
      } else {
        out := [Unhex(s[i + 1]) * 16 + Unhex(s[i + 2])];
        sb.WriteByte(Unhex(s[i + 1]) * 16 + Unhex(s[i + 2]));
      }
      i' := i + 3;
    } else {
      assert s[i..][1..] == s[i + 1..];
      if s[i] == PLUS {
        out := [SPACE];
        sb.WriteByte(SPACE);
      } else {
        out := [s[i]];
        sb.WriteByte(s[i]);
      }
      i' := i + 1;
    }
  }

  /** `unescape`: decodes `s` into the builder and returns what it added. */
  method Unescape(s: bytes, first: nat, sb: Builder) returns (r: bytes)
    requires first <= |s|
    requires forall k | 0 <= k < first :: s[k] != PERCENT && s[k] != PLUS
    modifies sb
    ensures r == Unescaped(s) && sb.buf == old(sb.buf) + r
  {
    var pos := |sb.buf|;
    ghost var before := sb.buf;
    sb.WriteString(s[..first]);
    assert s[..first] + s[first..] == s;
    UnescapedPlain(s[..first], s[first..]);
    ghost var done := s[..first];
    var i := first;
    while i < |s|
      invariant first <= i <= |s|
      invariant sb.buf == before + done
      invariant done + Unescaped(s[i..]) == Unescaped(s)
    {
      ghost var i0 := i;
      ghost var out;
      i, out := UnescapeAt(s, i, sb);
      assert done + (out + Unescaped(s[i..])) == (done + out) + Unescaped(s[i..]);
      done := done + out;
    }
    assert done + [] == done;
    return sb.buf[pos..];
  }

  /** `UnescapeTo`: leaves the builder alone when there is nothing to decode. */
  method UnescapeTo(s: bytes, sb: Builder) returns (r: bytes)
    modifies sb
    ensures r == Unescaped(s)
    ensures old(sb.buf) <= sb.buf
  {
    var first := IndexEscape(s);
    if first == -1 {
      UnescapedPlain(s, []);
      assert s + [] == s;
      return s;
    }
    r := Unescape(s, first, sb);
  }

  /** `UnescapeNameTo`: the decoded name, and the same bytes after `__name__=`. */
  method UnescapeNameTo(s: bytes, sb: Builder) returns (name: bytes, nameTag: bytes)
    modifies sb
    ensures name == Unescaped(s) && nameTag == NAME_LABEL + [EQUALS] + name
    ensures old(sb.buf) <= sb.buf
  {
    var first := IndexEscape(s);
    var pos := |sb.buf|;
    sb.WriteString(NAME_LABEL + [EQUALS]);
    if first == -1 {
      UnescapedPlain(s, []);
      assert s + [] == s;
      var end := |sb.buf|;
      sb.WriteString(s);
      name := sb.buf[end..];
      nameTag := sb.buf[pos..];
      return;
    }
    name := Unescape(s, first, sb);
    nameTag := sb.buf[pos..];
  }

  /** The two hex digits of a byte stand for it. */
  lemma HexRoundTrip(c: byte)
    ensures IsHex(HexDigit(c / 16)) && IsHex(HexDigit(c % 16))
    ensures Unhex(HexDigit(c / 16)) * 16 + Unhex(HexDigit(c % 16)) == c
  {
  }

  lemma UnescapeByte(c: byte, mode: Mode, tail: bytes)
    ensures Unescaped(EscapeByte(c, mode) + tail) ==
            [if c == PLUS && mode == EncodePath then SPACE else c] + Unescaped(tail)
  {
    var e := EscapeByte(c, mode);
    assert (e + tail)[|e|..] == tail;
    if |e| == 3 {
      HexRoundTrip(c);
      assert (e + tail)[0] == PERCENT && (e + tail)[1] == e[1] && (e + tail)[2] == e[2];
    } else {
      assert (e + tail)[0] == e[0];
    }
  }

  /** Decoding undoes query escaping, whatever follows. */
  lemma {:induction false} UnescapeQuery(s: bytes, rest: bytes)
    ensures Unescaped(Escaped(s, EncodeQuery) + rest) == s + Unescaped(rest)
  {
    if s == [] {
      assert Escaped(s, EncodeQuery) + rest == rest;
    } else {
      var e, es := EscapeByte(s[0], EncodeQuery), Escaped(s[1..], EncodeQuery);
      calc {
        Unescaped(Escaped(s, EncodeQuery) + rest);
        { Assoc(e, es, rest); }
        Unescaped(e + (es + rest));
        { UnescapeByte(s[0], EncodeQuery, es + rest); }
        [s[0]] + Unescaped(es + rest);
        { UnescapeQuery(s[1..], rest); }
        [s[0]] + (s[1..] + Unescaped(rest));
        { Assoc([s[0]], s[1..], Unescaped(rest)); assert [s[0]] + s[1..] == s; }
        s + Unescaped(rest);
      }
    }
  }

  /** Path escaping leaves `+` alone, and decoding turns it into a space. */
  function SpaceForPlus(s: bytes): bytes
  {
    if s == [] then [] else [if s[0] == PLUS then SPACE else s[0]] + SpaceForPlus(s[1..])
  }

  lemma {:induction false} UnescapePath(s: bytes)
    ensures Unescaped(Escaped(s, EncodePath)) == SpaceForPlus(s)
  {
    if s != [] {
      UnescapePath(s[1..]);
      UnescapeByte(s[0], EncodePath, Escaped(s[1..], EncodePath));
    }
  }

  lemma {:induction false} SpaceForPlusUnchanged(s: bytes)
    ensures SpaceForPlus(s) == s <==> PLUS !in s
  {
    if s != [] {
      SpaceForPlusUnchanged(s[1..]);
      var r := SpaceForPlus(s);
      assert r[1..] == SpaceForPlus(s[1..]) && s == [s[0]] + s[1..];
      assert PLUS in s <==> s[0] == PLUS || PLUS in s[1..];
    }
  }

  /** `Unescape(Query(s)) == s` for every string. */
  lemma {:induction false} UnescapeUndoesQuery(s: bytes)
    ensures Unescaped(Escaped(s, EncodeQuery)) == s
  {
    UnescapeQuery(s, []);
    assert Escaped(s, EncodeQuery) + [] == Escaped(s, EncodeQuery) && s + [] == s;
  }

  /** `Unescape(Path(s)) == s` exactly for the strings without a `+`. */
  lemma {:induction false} UnescapeUndoesPath(s: bytes)
    ensures Unescaped(Escaped(s, EncodePath)) == s <==> PLUS !in s
  {
    UnescapePath(s);
    SpaceForPlusUnchanged(s);
  }

  /** The bytes a query-escaped string is made of; none of them separates tags. */
  lemma {:induction false} QueryAlphabet(s: bytes)
    ensures forall c | c in Escaped(s, EncodeQuery) :: Unreserved(c) || c == PERCENT || c == PLUS
  {
    if s != [] {
      QueryAlphabet(s[1..]);
      HexRoundTrip(s[0]);
    }
  }

  lemma {:induction false} PathAlphabet(s: bytes)
    ensures QUESTION !in Escaped(s, EncodePath)
    ensures SEMICOLON !in s ==> SEMICOLON !in Escaped(s, EncodePath)
    ensures s != [] ==> Escaped(s, EncodePath) != []
  {
    if s != [] {
      PathAlphabet(s[1..]);
      HexRoundTrip(s[0]);
      assert SEMICOLON !in s ==> SEMICOLON !in s[1..];
    }
  }
}

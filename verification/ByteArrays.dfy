/** Writing into byte arrays, as Go's `copy` does. */
module ByteArrays {
  import opened ByteStrings

  /** `copy(dst[at:], p)`, with room. */
  method CopyInto(dst: array<byte>, at: nat, p: bytes)
    requires at + |p| <= dst.Length
    modifies dst
    ensures dst[at..at + |p|] == p
    ensures forall k | 0 <= k < dst.Length && (k < at || at + |p| <= k) :: dst[k] == old(dst[k])
  {
    for i := 0 to |p|
      invariant forall k | 0 <= k < i :: dst[at + k] == p[k]
      invariant forall k | 0 <= k < dst.Length && (k < at || at + i <= k) :: dst[k] == old(dst[k])
    {
      dst[at + i] := p[i];
    }
  }

  /** The same, seen as adding to what comes before. */
  method Append(line: array<byte>, at: nat, p: bytes)
    requires at + |p| <= line.Length
    modifies line
    ensures line[..at + |p|] == old(line[..at]) + p
  {
    CopyInto(line, at, p);
    assert line[..at] == old(line[..at]);
    assert line[..at + |p|] == line[..at] + line[at..at + |p|];
  }
}

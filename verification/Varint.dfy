/** Base-128 varints and fixed-width little-endian integers, as `encoding/binary` writes and
    reads them. */
module Varint {
  import opened ByteStrings

  const TWO16 := 0x1_0000
  const TWO32 := 0x1_0000_0000
  const TWO63 := 0x8000_0000_0000_0000
  const TWO64 := 0x1_0000_0000_0000_0000

  type uint16 = n: nat | n < TWO16
  type uint32 = n: nat | n < TWO32
  type uint64 = n: nat | n < TWO64
  type int64 = n: int | -TWO63 <= n < TWO63

  /** `binary.PutUvarint`: seven bits a byte, low bits first, the high bit set on all but the
      last byte. */
  function PutUvarint(n: nat): (s: bytes)
    ensures |s| >= 1
  {
    if n < 128 then [n as byte] else [(n % 128 + 128) as byte] + PutUvarint(n / 128)
  }

  /** How many bytes the first varint of `s` takes, if `s` holds all of it. */
  function VarintEnd(s: bytes): (k: Option<nat>)
    ensures k.Some? ==> 1 <= k.value <= |s|
    ensures k.Some? ==> s[k.value - 1] < 128 && forall i | 0 <= i < k.value - 1 :: s[i] >= 128
    ensures k.None? ==> forall i | 0 <= i < |s| :: s[i] >= 128
  {
    if s == [] then None
    else if s[0] < 128 then Some(1)
    else
      var r := VarintEnd(s[1..]);
      if r.None? then
        assert forall i | 1 <= i < |s| :: s[i] == s[1..][i - 1];
        None
      else
        assert forall i | 1 <= i < |s| :: s[i] == s[1..][i - 1];
        Some(r.value + 1)
  }

  /** The number the first varint of `s` stands for, of any size. */
  function VarintValue(s: bytes): (n: nat)
    decreases |s|
  {
    if s == [] then 0
    else (s[0] % 128) as nat + (if s[0] < 128 then 0 else 128 * VarintValue(s[1..]))
  }

  /** `binary.ReadUvarint`: more than ten bytes, or a tenth byte above one, overflow 64 bits. */
  datatype ReadResult = Read(n: uint64, size: nat) | CutShort | Overflow

  function ReadUvarint(s: bytes): ReadResult
  {
    match VarintEnd(s)
    case None => if |s| >= 10 then Overflow else CutShort
    case Some(k) =>
      if k > 10 || VarintValue(s) >= TWO64 then Overflow else Read(VarintValue(s), k)
  }

  lemma {:induction false} VarintRoundTrip(n: nat, rest: bytes)
    ensures VarintEnd(PutUvarint(n) + rest) == Some(|PutUvarint(n)|)
    ensures VarintValue(PutUvarint(n) + rest) == n
    decreases n
  {
    var s := PutUvarint(n) + rest;
    if n >= 128 {
      assert s[1..] == PutUvarint(n / 128) + rest;
      VarintRoundTrip(n / 128, rest);
    }
  }

  /** A number below `128^k` takes at most `k` bytes. */
  lemma {:induction false} VarintSize(n: nat)
    ensures n < 128 ==> |PutUvarint(n)| == 1
    ensures n < 0x4000 ==> |PutUvarint(n)| <= 2
    ensures n < 0x20_0000 ==> |PutUvarint(n)| <= 3
    ensures n < TWO64 ==> |PutUvarint(n)| <= 10
  {
    Pow128Values();
    if n < TWO64 { VarintSizeBound(n, 10); }
    if n < 0x20_0000 { VarintSizeBound(n, 3); }
    if n < 0x4000 { VarintSizeBound(n, 2); }
  }

  lemma VarintSizeFour(n: nat)
    requires n < 0x1000_0000
    ensures |PutUvarint(n)| <= 4
  {
    Pow128Values();
    assert Pow128(4) == 128 * Pow128(3);
    VarintSizeBound(n, 4);
  }

  function Pow128(k: nat): (p: nat)
    ensures p >= 1
  {
    if k == 0 then 1 else 128 * Pow128(k - 1)
  }

  lemma Pow128Values()
    ensures Pow128(2) == 0x4000 && Pow128(3) == 0x20_0000 && Pow128(10) >= TWO64
  {
    assert Pow128(1) == 128;
    assert Pow128(4) == 128 * Pow128(3);
    assert Pow128(5) == 128 * Pow128(4);
    assert Pow128(6) == 128 * Pow128(5);
    assert Pow128(7) == 128 * Pow128(6);
    assert Pow128(8) == 128 * Pow128(7);
    assert Pow128(9) == 128 * Pow128(8);
  }

  lemma {:induction false} VarintSizeBound(n: nat, k: nat)
    requires k >= 1 && n < Pow128(k)
    ensures |PutUvarint(n)| <= k
  {
    if n >= 128 {
      assert Pow128(1) == 128;
      VarintSizeBound(n / 128, k - 1);
    }
  }

  lemma ReadUvarintRoundTrip(n: uint64, rest: bytes)
    ensures ReadUvarint(PutUvarint(n) + rest) == Read(n, |PutUvarint(n)|)
  {
    VarintRoundTrip(n, rest);
    VarintSize(n);
  }

  /** `binary.LittleEndian.PutUint16/32/64`. */
  function LittleEndian(n: nat, size: nat): (s: bytes)
    ensures |s| == size
  {
    if size == 0 then [] else [(n % 256) as byte] + LittleEndian(n / 256, size - 1)
  }

  /** `binary.LittleEndian.Uint16/32/64`. */
  function FromLittleEndian(s: bytes): nat
  {
    if s == [] then 0 else s[0] as nat + 256 * FromLittleEndian(s[1..])
  }

  function Pow256(k: nat): (p: nat)
    ensures p >= 1
  {
    if k == 0 then 1 else 256 * Pow256(k - 1)
  }

  lemma {:induction false} LittleEndianRoundTrip(n: nat, size: nat)
    requires n < Pow256(size)
    ensures FromLittleEndian(LittleEndian(n, size)) == n
  {
    if size > 0 {
      LittleEndianRoundTrip(n / 256, size - 1);
      assert LittleEndian(n, size)[1..] == LittleEndian(n / 256, size - 1);
    }
  }

  lemma {:induction false} FromLittleEndianBound(s: bytes)
    ensures FromLittleEndian(s) < Pow256(|s|)
    ensures LittleEndian(FromLittleEndian(s), |s|) == s
  {
    if s != [] {
      FromLittleEndianBound(s[1..]);
      assert s == [s[0]] + s[1..];
    }
  }

  lemma Pow256Values()
    ensures Pow256(2) == TWO16 && Pow256(4) == TWO32 && Pow256(8) == TWO64
  {
    assert Pow256(1) == 256;
    assert Pow256(3) == 256 * Pow256(2);
    assert Pow256(5) == 256 * Pow256(4);
    assert Pow256(6) == 256 * Pow256(5);
    assert Pow256(7) == 256 * Pow256(6);
  }
}

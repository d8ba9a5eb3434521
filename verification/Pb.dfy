/** The protobuf field walker (helper/pb/pb.go): sections "Base 128 Varints" and "Message
    Structure" of the Protocol Buffers Encoding specification. */
module Pb {
  import opened ByteStrings
  import opened Varint

  /** The package's two errors, and the panic of a length that does not fit an `int`. */
  datatype Error = Truncated | UnknownWireType | LengthOutOfRange

  datatype Result<+T> = Ok(value: T, rest: bytes) | Err(error: Error)

  /** A conversion between `uint64` and `int64` keeps the bits. */
  function ToInt64(n: uint64): int64
  {
    if n >= TWO63 then n - TWO64 else n
  }

  function ToUint64(n: int64): uint64
  {
    if n < 0 then n + TWO64 else n
  }

  /** The varint at the head, modulo 2^64, however long it is. */
  function Uint64(p: bytes): (r: Result<uint64>)
    ensures r.Ok? ==> |r.rest| < |p|
  {
    match VarintEnd(p)
    case None => Err(Truncated)
    case Some(k) => Ok(VarintValue(p) % TWO64, p[k..])
  }

  function Int64(p: bytes): (r: Result<int64>)
    ensures r.Ok? ==> |r.rest| < |p|
  {
    match Uint64(p)
    case Err(e) => Err(e)
    case Ok(n, rest) => Ok(ToInt64(n), rest)
  }

  function Double(p: bytes): (r: Result<uint64>)
    ensures r.Ok? ==> |r.rest| < |p|
  {
    if |p| < 8 then Err(Truncated)
    else
      FromLittleEndianBound(p[..8]);
      Pow256Values();
      Ok(FromLittleEndian(p[..8]), p[8..])
  }

  /** A length-delimited value. */
  function Bytes(p: bytes): (r: Result<bytes>)
    ensures r.Ok? ==> |r.rest| < |p| && |r.value| < |p|
  {
    match Uint64(p)
    case Err(e) => Err(e)
    case Ok(n, rest) =>
      var l := ToInt64(n);
      if |rest| < l then Err(Truncated) else if l < 0 then Err(LengthOutOfRange) else Ok(rest[..l], rest[l..])
  }

  /** One field, whatever its number: its tag, then its value. */
  function Skip(p: bytes): (r: Result<()>)
    ensures r.Ok? ==> |r.rest| < |p|
  {
    match VarintEnd(p)
    case None => Err(Truncated)
    case Some(k) => SkipValue(p[0] % 8, p[k..])
  }

  function SkipValue(wireType: byte, p: bytes): (r: Result<()>)
    ensures r.Ok? ==> |r.rest| <= |p|
  {
    if wireType == 0 then
      match VarintEnd(p) { case None => Err(Truncated) case Some(k) => Ok((), p[k..]) }
    else if wireType == 1 then
      if |p| < 8 then Err(Truncated) else Ok((), p[8..])
    else if wireType == 2 then
      match Bytes(p) { case Err(e) => Err(e) case Ok(_, rest) => Ok((), rest) }
    else if wireType == 5 then
      if |p| < 4 then Err(Truncated) else Ok((), p[4..])
    else Err(UnknownWireType)
  }

  /** The sum of the first `i` groups of seven bits. */
  function Groups(p: bytes, i: nat): nat
    requires i <= |p|
  {
    if i == 0 then 0 else Groups(p, i - 1) + (p[i - 1] % 128) as nat * Pow128(i - 1)
  }

  /** The shift by `7*i` bits: what leaves 64 bits is lost. */
  function ShiftGroups(n: nat, i: nat): uint64
  {
    (n * Pow128(i)) % TWO64
  }

  lemma Distribute(a: nat, b: nat, c: nat)
    ensures b * (a + 128 * c) == a * b + 128 * b * c
  {
  }

  lemma {:induction false} GroupsAreValue(p: bytes, i: nat)
    requires i <= |p| && forall k | 0 <= k < i :: p[k] >= 128
    ensures VarintValue(p) == Groups(p, i) + Pow128(i) * VarintValue(p[i..])
  {
    if i == 0 {
      assert p[0..] == p;
    } else {
      GroupsAreValue(p, i - 1);
      ValueStep(p, i - 1);
      Distribute((p[i - 1] % 128) as nat, Pow128(i - 1), VarintValue(p[i..]));
      hide VarintValue;
    }
  }

  lemma ValueStep(p: bytes, i: nat)
    requires i < |p| && p[i] >= 128
    ensures VarintValue(p[i..]) == (p[i] % 128) as nat + 128 * VarintValue(p[i + 1..])
  {
    assert p[i..][1..] == p[i + 1..];
  }

  lemma LastGroup(p: bytes, i: nat)
    requires i < |p| && (forall k | 0 <= k < i :: p[k] >= 128) && p[i] < 128
    ensures VarintEnd(p) == Some(i + 1) && VarintValue(p) == Groups(p, i + 1)
  {
    hide VarintEnd, VarintValue, Pow128;
    GroupsAreValue(p, i);
    LastValue(p, i);
    Commute(p[i] as nat, Pow128(i));
  }

  lemma Commute(a: nat, b: nat)
    ensures a * b == b * a
  {
  }

  lemma LastValue(p: bytes, i: nat)
    requires i < |p| && p[i] < 128
    ensures VarintValue(p[i..]) == p[i] as nat
  {
  }

  lemma ModPlus(a: nat, b: nat)
    ensures (a % TWO64 + b % TWO64) % TWO64 == (a + b) % TWO64
  {
  }

  /** `Uint64`: the loop that adds up the groups. */
  method ReadUint64(p: bytes) returns (r: Result<uint64>)
    ensures r == Uint64(p)
  {
    var ret: uint64 := 0;
    for i := 0 to |p|
      invariant ret == Groups(p, i) % TWO64
      invariant forall k | 0 <= k < i :: p[k] >= 128
    {
      ModPlus(Groups(p, i), (p[i] % 128) as nat * Pow128(i));
      ret := (ret + ShiftGroups((p[i] % 128) as nat, i)) % TWO64;
      if p[i] < 128 {
        LastGroup(p, i);
        return Ok(ret, p[i + 1..]);
      }
    }
    return Err(Truncated);
  }

  method ReadInt64(p: bytes) returns (r: Result<int64>)
    ensures r == Int64(p)
  {
    var n := ReadUint64(p);
    match n
    case Err(e) => return Err(e);
    case Ok(v, rest) => return Ok(ToInt64(v), rest);
  }

  method ReadDouble(p: bytes) returns (r: Result<uint64>)
    ensures r == Double(p)
  {
    if |p| < 8 {
      return Err(Truncated);
    }
    FromLittleEndianBound(p[..8]);
    Pow256Values();
    return Ok(FromLittleEndian(p[..8]), p[8..]);
  }

  /** `Bytes`: lengths below 128 take a short cut. */
  method ReadBytes(p: bytes) returns (r: Result<bytes>)
    ensures r == Bytes(p)
  {
    if |p| < 1 {
      return Err(Truncated);
    }
    if p[0] < 128 {
      var l := p[0] as int;
      var q := p[1..];
      assert Uint64(p) == Ok(l, q);
      if |q| < l {
        return Err(Truncated);
      }
      return Ok(q[..l], q[l..]);
    }
    var n := ReadUint64(p);
    if n.Err? {
      return Err(n.error);
    }
    var l, q := ToInt64(n.value), n.rest;
    if |q| < l {
      return Err(Truncated);
    }
    if l < 0 {
      return Err(LengthOutOfRange);
    }
    return Ok(q[..l], q[l..]);
  }

  method SkipVarint(p: bytes) returns (r: Result<()>)
    ensures r == SkipValue(0, p)
  {
    for i := 0 to |p|
      invariant forall k | 0 <= k < i :: p[k] >= 128
    {
      if p[i] < 128 {
        LastGroup(p, i);
        return Ok((), p[i + 1..]);
      }
    }
    return Err(Truncated);
  }

  method WireType(p: bytes) returns (r: Result<byte>)
    ensures r == match VarintEnd(p) { case None => Err(Truncated) case Some(k) => Ok(p[0] % 8, p[k..]) }
  {
    for i := 0 to |p|
      invariant forall k | 0 <= k < i :: p[k] >= 128
    {
      if p[i] < 128 {
        LastGroup(p, i);
        return Ok(p[0] % 8, p[i + 1..]);
      }
    }
    return Err(Truncated);
  }

  method SkipField(p: bytes) returns (r: Result<()>)
    ensures r == Skip(p)
  {
    var wt := WireType(p);
    if wt.Err? {
      return Err(wt.error);
    }
    var q := wt.rest;
    if wt.value == 0 {
      r := SkipVarint(q);
    } else if wt.value == 1 {
      if |q| < 8 {
        return Err(Truncated);
      }
      return Ok((), q[8..]);
    } else if wt.value == 2 {
      var b := ReadBytes(q);
      if b.Err? {
        return Err(b.error);
      }
      return Ok((), b.rest);
    } else if wt.value == 5 {
      if |q| < 4 {
        return Err(Truncated);
      }
      return Ok((), q[4..]);
    } else {
      return Err(UnknownWireType);
    }
  }
}

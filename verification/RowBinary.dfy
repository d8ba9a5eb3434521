/** The RowBinary records that points are stored as, and their reading (helper/RowBinary). */
module RowBinary {
  import opened ByteStrings
  import opened Varint

  /** `WriteBufferSize`, and the size of the reader's line buffer. */
  const BUFFER_SIZE := 524288

  /** How a timestamp becomes a day: a variable of the package, set at start-up. */
  type ToDays = uint32 -> uint16

  /** The value is kept as the bits of the float. */
  datatype Point = Point(name: bytes, value: uint64, timestamp: uint32, version: uint32)

  /** Length, then the bytes. */
  function Field(p: bytes): bytes
  {
    PutUvarint(|p|) + p
  }

  /** What follows the name: value, timestamp, day, version. */
  function Tail(value: uint64, timestamp: uint32, days: uint16, version: uint32): (s: bytes)
    ensures |s| == 18
  {
    LittleEndian(value, 8) + LittleEndian(timestamp, 4) + LittleEndian(days, 2) + LittleEndian(version, 4)
  }

  function Encode(p: Point, toDays: ToDays): bytes
  {
    Field(p.name) + Tail(p.value, p.timestamp, toDays(p.timestamp), p.version)
  }

  function EncodeAll(ps: seq<Point>, toDays: ToDays): bytes
  {
    if ps == [] then [] else Encode(ps[0], toDays) + EncodeAll(ps[1..], toDays)
  }

  lemma {:induction false} EncodeAllAppend(a: seq<Point>, b: seq<Point>, toDays: ToDays)
    ensures EncodeAll(a + b, toDays) == EncodeAll(a, toDays) + EncodeAll(b, toDays)
  {
    if a == [] {
      assert a + b == b;
    } else {
      assert (a + b)[1..] == a[1..] + b;
      EncodeAllAppend(a[1..], b, toDays);
      Assoc(Encode(a[0], toDays), EncodeAll(a[1..], toDays), EncodeAll(b, toDays));
    }
  }

  /** `CanWriteGraphitePoint` leaves room for the varint and the 18 bytes after the name. */
  predicate CanWrite(used: int, nameLen: int)
  {
    BUFFER_SIZE - used > nameLen + 23
  }

  lemma EncodeFits(used: nat, p: Point, toDays: ToDays)
    requires CanWrite(used, |p.name|)
    ensures used + |Encode(p, toDays)| <= BUFFER_SIZE
  {
    VarintSize(|p.name|);
  }

  lemma FourParts(a: bytes, b: bytes, c: bytes, d: bytes)
    requires |a| == 8 && |b| == 4 && |c| == 2
    ensures var s := a + b + c + d; s[..8] == a && s[8..12] == b && s[12..14] == c && s[14..] == d
  {
  }

  /** The four numbers after the name, read back. */
  lemma TailRoundTrip(value: uint64, timestamp: uint32, days: uint16, version: uint32)
    ensures
      var s := Tail(value, timestamp, days, version);
      && FromLittleEndian(s[..8]) == value && FromLittleEndian(s[8..12]) == timestamp
      && FromLittleEndian(s[12..14]) == days && FromLittleEndian(s[14..]) == version
  {
    Pow256Values();
    LittleEndianRoundTrip(value, 8);
    LittleEndianRoundTrip(timestamp, 4);
    LittleEndianRoundTrip(days, 2);
    LittleEndianRoundTrip(version, 4);
    var a, b, c, d := LittleEndian(value, 8), LittleEndian(timestamp, 4), LittleEndian(days, 2),
        LittleEndian(version, 4);
    hide LittleEndian, FromLittleEndian;
    FourParts(a, b, c, d);
  }
}

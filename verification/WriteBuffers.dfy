/** The fixed-size output buffers (helper/RowBinary/write_buffer.go). */
module WriteBuffers {
  import opened ByteStrings
  import opened Varint
  import opened RowBinary
  import opened DottedPath

  /** The bytes of a tagged name given as `[name, key, value, key, value, ...]`, from part `i` on. */
  function TaggedRest(parts: seq<bytes>, i: nat): bytes
    decreases |parts| - i
  {
    if i >= |parts| then []
    else
      var sep := if i == 0 then [] else if i == 1 then [QUESTION] else if i % 2 == 1 then [AMPERSAND] else [EQUALS];
      sep + parts[i] + TaggedRest(parts, i + 1)
  }

  function TaggedName(parts: seq<bytes>): bytes
  {
    TaggedRest(parts, 0)
  }

  /** The sum of the lengths from part `i` on. */
  function LengthFrom(parts: seq<bytes>, i: nat): nat
    decreases |parts| - i
  {
    if i >= |parts| then 0 else |parts[i]| + LengthFrom(parts, i + 1)
  }

  lemma {:induction false} TaggedRestLength(parts: seq<bytes>, i: nat)
    ensures |TaggedRest(parts, i)| ==
        LengthFrom(parts, i) + (if i >= |parts| then 0 else if i == 0 then |parts| - 1 else |parts| - i)
    decreases |parts| - i
  {
    if i < |parts| {
      TaggedRestLength(parts, i + 1);
    }
  }

  class WriteBuffer {
    const body: array<byte>
    var used: nat

    ghost predicate Valid()
      reads this
    {
      body.Length == BUFFER_SIZE && used <= BUFFER_SIZE
    }

    ghost function Contents(): bytes
      reads this, body
      requires Valid()
    {
      body[..used]
    }

    constructor ()
      ensures Valid() && fresh(body) && Contents() == []
    {
      body := new byte[BUFFER_SIZE];
      used := 0;
    }

    method Reset()
      requires Valid()
      modifies this`used
      ensures Valid() && Contents() == []
    {
      used := 0;
    }

    function FreeSize(): int
      reads this
    {
      BUFFER_SIZE - used
    }

    /** `copy` into what is left of the body: what does not fit is dropped. */
    method Write(p: bytes)
      requires Valid()
      modifies this`used, body
      ensures Valid()
      ensures Contents() == old(Contents()) +
              if used < BUFFER_SIZE || |p| <= BUFFER_SIZE - old(used) then p else p[..BUFFER_SIZE - old(used)]
      ensures used == if old(used) + |p| <= BUFFER_SIZE then old(used) + |p| else BUFFER_SIZE
    {
      var n := if |p| <= BUFFER_SIZE - used then |p| else BUFFER_SIZE - used;
      ghost var before := body[..used];
      for i := 0 to n
        invariant used == old(used) && body[..used] == before
        invariant body[used..used + i] == p[..i]
      {
        body[used + i] := p[i];
        assert body[used..used + i + 1] == body[used..used + i] + [p[i]];
      }
      assert body[..used + n] == body[..used] + body[used..used + n];
      assert p[..|p|] == p;
      used := used + n;
    }

    /** What must go in whole, or the write would be out of range. */
    method Put(p: bytes)
      requires Valid() && used + |p| <= BUFFER_SIZE
      modifies this`used, body
      ensures Valid() && Contents() == old(Contents()) + p
    {
      Write(p);
    }

    method WriteBytes(p: bytes)
      requires Valid() && used + |PutUvarint(|p|)| <= BUFFER_SIZE
      modifies this`used, body
      ensures Valid()
      ensures used == if old(used) + |Field(p)| <= BUFFER_SIZE then old(used) + |Field(p)| else BUFFER_SIZE
      ensures old(used) + |Field(p)| <= BUFFER_SIZE ==> Contents() == old(Contents()) + Field(p)
    {
      ghost var before, v := Contents(), PutUvarint(|p|);
      Put(PutUvarint(|p|));
      Write(p);
      Assoc(before, v, p);
    }

    /** `WriteTagged`: the parts with their separators, as one field; for no parts, nothing. */
    method WriteTagged(tagged: seq<bytes>)
      requires Valid() && (tagged != [] ==> used + |Field(TaggedName(tagged))| <= BUFFER_SIZE)
      modifies this`used, body
      ensures Valid()
      ensures Contents() == if tagged == [] then old(Contents()) else old(Contents()) + Field(TaggedName(tagged))
    {
      if |tagged| == 0 {
        return;
      }
      var l := LengthOf(tagged);
      TaggedRestLength(tagged, 0);
      ghost var before, v, name := Contents(), PutUvarint(l), TaggedName(tagged);
      Put(PutUvarint(l));
      ghost var head := Contents();
      ghost var done: bytes := [];
      for i := 0 to |tagged|
        invariant Valid() && Contents() == head + done
        invariant done + TaggedRest(tagged, i) == name
      {
        ghost var sep: bytes :=
          if i == 0 then [] else if i == 1 then [QUESTION] else if i % 2 == 1 then [AMPERSAND] else [EQUALS];
        assert |done| + |sep| + |tagged[i]| <= |name|;
        if i > 0 {
          Put([if i == 1 then QUESTION else if i % 2 == 1 then AMPERSAND else EQUALS]);
        }
        assert Contents() == head + done + sep;
        Put(tagged[i]);
        RegroupFour(head, done, sep, tagged[i], TaggedRest(tagged, i + 1));
        done := done + (sep + tagged[i]);
      }
      assert done == name;
      Assoc(before, v, name);
    }

    /** `WriteReversePath`: the segments from the last to the first. */
    method WriteReversePath(path: bytes)
      requires Valid() && used + |Field(path)| <= BUFFER_SIZE
      modifies this`used, body
      ensures Valid() && Contents() == old(Contents()) + Field(ReversePath(path))
    {
      ReversePathLength(path);
      ghost var before, v := Contents(), PutUvarint(|path|);
      Put(PutUvarint(|path|));
      ghost var head := Contents();
      ghost var done: bytes := [];
      var p := path;
      while true
        invariant Valid() && Contents() == head + done && |done| + |p| == |path|
        invariant done + ReversePath(p) == ReversePath(path)
        decreases |p|
      {
        var index := LastIndexByte(p, DOT);
        if index < 0 {
          ReversePathPlain(p);
          Put(p);
          Assoc(head, done, p);
          break;
        }
        ReversePathLast(p, index);
        ghost var piece := p[index + 1..] + [DOT];
        Put(p[index + 1..]);
        Put([DOT]);
        Assoc(head + done, p[index + 1..], [DOT]);
        Assoc(head, done, piece);
        Assoc(done, piece, ReversePath(p[..index]));
        done := done + piece;
        p := p[..index];
      }
      Assoc(before, v, ReversePath(path));
    }

    method WriteTail(value: uint64, timestamp: uint32, days: uint16, version: uint32)
      requires Valid() && used + 18 <= BUFFER_SIZE
      modifies this`used, body
      ensures Valid() && Contents() == old(Contents()) + Tail(value, timestamp, days, version)
    {
      ghost var before := Contents();
      var a, b, c, d := LittleEndian(value, 8), LittleEndian(timestamp, 4), LittleEndian(days, 2),
          LittleEndian(version, 4);
      hide LittleEndian;
      Put(a);
      Put(b);
      Put(c);
      Put(d);
      RegroupFive(before, a, b, c, d);
    }

    method WriteGraphitePoint(p: Point, toDays: ToDays)
      requires Valid() && CanWrite(used, |p.name|)
      modifies this`used, body
      ensures Valid() && Contents() == old(Contents()) + Encode(p, toDays)
    {
      EncodeFits(used, p, toDays);
      ghost var before := Contents();
      WriteBytes(p.name);
      WriteTail(p.value, p.timestamp, toDays(p.timestamp), p.version);
      Assoc(before, Field(p.name), Tail(p.value, p.timestamp, toDays(p.timestamp), p.version));
    }

    method WriteGraphitePointTagged(labels: seq<bytes>, value: uint64, timestamp: uint32, version: uint32,
        toDays: ToDays)
      requires Valid() && labels != [] && CanWrite(used, |TaggedName(labels)|)
      modifies this`used, body
      ensures Valid()
      ensures Contents() == old(Contents()) + Encode(Point(TaggedName(labels), value, timestamp, version), toDays)
    {
      ghost var p := Point(TaggedName(labels), value, timestamp, version);
      EncodeFits(used, p, toDays);
      ghost var before := Contents();
      WriteTagged(labels);
      WriteTail(value, timestamp, toDays(timestamp), version);
      Assoc(before, Field(p.name), Tail(value, timestamp, toDays(timestamp), version));
    }
  }

  lemma RegroupFour(a: bytes, b: bytes, c: bytes, d: bytes, e: bytes)
    ensures a + b + c + d == a + (b + (c + d))
    ensures b + (c + d + e) == (b + (c + d)) + e
  {
  }

  lemma RegroupFive(a: bytes, b: bytes, c: bytes, d: bytes, e: bytes)
    ensures a + b + c + d + e == a + (b + c + d + e)
  {
  }

  /** The length loop of `WriteTagged` and `WritePointTagged`. */
  method LengthOf(tagged: seq<bytes>) returns (l: nat)
    requires tagged != []
    ensures l == |TaggedName(tagged)|
  {
    TaggedRestLength(tagged, 0);
    l := |tagged| - 1;
    for i := 0 to |tagged|
      invariant l + LengthFrom(tagged, i) == |TaggedName(tagged)|
    {
      l := l + |tagged[i]|;
    }
  }
}

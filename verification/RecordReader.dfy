/** Reading the good records of a file that may be cut short (helper/RowBinary/reader.go). */
module RecordReader {
  import opened ByteArrays
  import opened ByteStrings
  import opened Varint
  import opened RowBinary
  import opened DottedPath

  /** How a reader is set up: whether dotted names are reversed, whether versions are zeroed. */
  datatype Options = Options(reverse: bool, zeroVersion: bool, toDays: ToDays)

  /** A record as it is handed out: its name, and its bytes. */
  datatype Record = Record(name: bytes, line: bytes)

  /** `Panic` is a slice out of the range of the line buffer. */
  datatype One = Good(record: Record, rest: bytes) | Bad | Panic

  function ShownName(o: Options, name: bytes): bytes
  {
    if o.reverse && QUESTION !in name then ReversePath(name) else name
  }

  function ShownTail(o: Options, tail: bytes): bytes
    requires |tail| == 18
  {
    if o.zeroVersion then tail[..14] + [0, 0, 0, 0] else tail
  }

  predicate DaysMatch(o: Options, tail: bytes)
    requires |tail| == 18
  {
    Number16(tail[12..14]) == o.toDays(Number32(tail[8..12]))
  }

  /** The record at the head of what is left of the file. The length is written again before the
      name, so an overlong one is shortened. */
  function ReadOne(o: Options, input: bytes): (r: One)
    ensures r.Good? ==> |r.rest| < |input|
  {
    match ReadUvarint(input)
    case CutShort => Bad
    case Overflow => Bad
    case Read(n, k) =>
      var left, start := input[k..], |PutUvarint(n)|;
      if start + n > BUFFER_SIZE then Panic
      else if |left| < n then Bad
      else if start + n + 18 > BUFFER_SIZE then Panic
      else if |left| < n + 18 then Bad
      else
        var name, tail := ShownName(o, left[..n]), left[n..n + 18];
        if DaysMatch(o, tail) then Good(Record(name, PutUvarint(n) + name + ShownTail(o, tail)), left[n + 18..])
        else Bad
  }

  /** Everything a reader will hand out before its first error. */
  function Records(o: Options, input: bytes): seq<Record>
    decreases |input|
  {
    match ReadOne(o, input)
    case Good(record, rest) => [record] + Records(o, rest)
    case _ => []
  }

  /** The first error is not an access outside the line buffer. */
  predicate InRange(o: Options, input: bytes)
    decreases |input|
  {
    match ReadOne(o, input)
    case Good(_, rest) => InRange(o, rest)
    case Bad => true
    case Panic => false
  }

  function Lines(records: seq<Record>): bytes
  {
    if records == [] then [] else records[0].line + Lines(records[1..])
  }

  datatype Next = Found(record: Record) | Failed | Panicked

  /** `io.EOF` is returned only when nothing at all was read into a target that has room. */
  datatype Chunk = Chunk(size: nat, eof: bool) | ChunkPanicked

  class Reader {
    const options: Options
    const line: array<byte>
    var input: bytes
    var offset: nat
    var size: nat
    var eof: bool

    ghost predicate Valid()
      reads this
    {
      line.Length == BUFFER_SIZE && offset <= size <= BUFFER_SIZE && (eof ==> size == 0)
    }

    /** The records still to come. */
    ghost function Coming(): seq<Record>
      reads this
    {
      if eof then [] else Records(options, input)
    }

    /** The bytes still to come from `Read`. */
    ghost function Pending(): bytes
      reads this, line
      requires Valid()
    {
      line[offset..size] + Lines(Coming())
    }

    ghost predicate Safe()
      reads this
    {
      eof || InRange(options, input)
    }

    constructor (input: bytes, options: Options)
      ensures Valid() && fresh(line) && !eof && this.input == input && this.options == options
      ensures offset == size == 0
    {
      line := new byte[BUFFER_SIZE];
      this.options := options;
      this.input := input;
      offset, size, eof := 0, 0, false;
    }

    method ReadNumber() returns (r: ReadResult)
      modifies this`input
      ensures r == ReadUvarint(old(input))
      ensures r.Read? ==> r.size <= |old(input)| && input == old(input)[r.size..]
    {
      r := ReadUvarint(input);
      if r.Read? {
        input := input[r.size..];
      }
    }

    /** `io.ReadFull` into the line. */
    method ReadFull(n: nat) returns (ok: bool)
      requires Valid() && !eof && size + n <= BUFFER_SIZE
      modifies this`input, line
      ensures ok <==> |old(input)| >= n
      ensures ok ==> line[..size + n] == old(line[..size]) + old(input)[..n] && input == old(input)[n..]
    {
      if |input| < n {
        return false;
      }
      Append(line, size, input[..n]);
      input := input[n..];
      return true;
    }

    function Value(): uint64
      requires Valid() && size >= 18
      reads this, line
    {
      Number64(line[size - 18..size - 10])
    }

    function Timestamp(): uint32
      requires Valid() && size >= 18
      reads this, line
    {
      Number32(line[size - 10..size - 6])
    }

    function Days(): uint16
      requires Valid() && size >= 18
      reads this, line
    {
      Number16(line[size - 6..size - 4])
    }

    function Version(): uint32
      requires Valid() && size >= 18
      reads this, line
    {
      Number32(line[size - 4..size])
    }

    /** The name, of length `n`, after the length; reversed in place when it has to be. */
    method ReadName(n: nat) returns (ok: bool, name: bytes)
      requires Valid() && !eof && size + n <= BUFFER_SIZE
      modifies this`input, this`size, line
      ensures Valid() && offset == old(offset) && (ok <==> |old(input)| >= n)
      ensures ok ==> name == ShownName(options, old(input)[..n]) && size == old(size) + n
      ensures ok ==> line[..size] == old(line[..size]) + name && input == old(input)[n..]
    {
      hide ReversePath;
      ghost var head, raw := line[..size], if |input| >= n then input[..n] else [];
      ok := ReadFull(n);
      if !ok {
        return false, [];
      }
      assert line[..size] == head && line[size..size + n] == raw;
      if options.reverse && QUESTION !in line[size..size + n] {
        ReverseEnd(line, size, size + n);
        ReversePathLength(raw);
      }
      assert line[..size + n] == head + ShownName(options, raw);
      name := line[size..size + n];
      size := size + n;
    }

    /** The 18 bytes after the name, and the check of the day. */
    method ReadTail() returns (ok: bool)
      requires Valid() && !eof && size + 18 <= BUFFER_SIZE
      modifies this`input, this`size, line
      ensures Valid() && offset == old(offset)
      ensures ok <==> |old(input)| >= 18 && DaysMatch(options, old(input)[..18])
      ensures ok ==> size == old(size) + 18 && input == old(input)[18..]
      ensures ok ==> line[..size] == old(line[..size]) + ShownTail(options, old(input)[..18])
    {
      hide DaysMatch, ShownTail;
      ghost var head, tail := line[..size], if |input| >= 18 then input[..18] else [];
      ok := ReadFull(18);
      if !ok {
        return false;
      }
      size := size + 18;
      ZeroVersion(head, tail);
      ok := CheckDay(head, ShownTail(options, tail));
      ShownTailKeepsDay(options, tail);
    }

    /** Its last four bytes, zeroed if asked for. */
    method ZeroVersion(ghost head: bytes, ghost tail: bytes)
      requires Valid() && |tail| == 18 && line[..size] == head + tail
      modifies line
      ensures line[..size] == head + ShownTail(options, tail)
    {
      hide DaysMatch;
      if options.zeroVersion {
        ghost var before := line[..size - 4];
        assert before == line[..size][..size - 4];
        Append(line, size - 4, [0, 0, 0, 0]);
        assert before == head + tail[..14];
        Assoc(head, tail[..14], [0, 0, 0, 0]);
      }
    }

    method CheckDay(ghost head: bytes, ghost tail: bytes) returns (ok: bool)
      requires Valid() && |tail| == 18 && line[..size] == head + tail
      ensures ok == DaysMatch(options, tail)
    {
      NumbersOfTail(line[..size], head, tail);
      SliceOfLine(line, size - 10, size - 6, size);
      SliceOfLine(line, size - 6, size - 4, size);
      return Days() == options.toDays(Timestamp());
    }

    /** `readRecord`. */
    method ReadRecordBody() returns (r: One)
      requires Valid() && !eof
      modifies this`input, this`offset, this`size, line
      ensures r.Good? ==> Valid() && offset == 0 && input == r.rest && line[..size] == r.record.line
      ensures r == ReadOne(options, old(input))
    {
      hide ReversePath, PutUvarint, DaysMatch, ShownTail, ShownName, ReadUvarint;
      size, offset := 0, 0;
      var number := ReadNumber();
      if !number.Read? {
        return Bad;
      }
      ghost var left := input;
      var n, v := number.n, PutUvarint(number.n);
      if |v| + n > BUFFER_SIZE {
        return Panic;
      }
      Append(line, 0, v);
      size := |v|;
      assert line[..size] == v;
      var ok, name := ReadName(n);
      if !ok {
        return Bad;
      }
      if size + 18 > BUFFER_SIZE {
        return Panic;
      }
      SliceTwice(left, n);
      ok := ReadTail();
      if !ok {
        return Bad;
      }
      return Good(Record(name, line[..size]), input);
    }

    /** `ReadRecord`: after the first error, end of file for ever. */
    method ReadRecord() returns (r: Next)
      requires Valid()
      modifies this`input, this`offset, this`size, this`eof, line
      ensures r.Found? ==>
                Valid() && old(Coming()) == [r.record] + Coming() && offset == 0 && line[..size] == r.record.line
      ensures r.Found? ==> !eof && |input| < |old(input)|
      ensures r.Failed? ==> Valid() && old(Coming()) == [] && eof
      ensures !r.Panicked? && old(offset == size) ==> Pending() == old(Pending())
      ensures r.Failed? && old(offset == size) ==> Pending() == []
      ensures old(Safe()) ==> !r.Panicked? && Safe()
    {
      hide ReadOne, Lines;
      NoLines();
      if offset == size {
        assert line[offset..size] == [];
        EmptyFirst(Lines(Coming()));
      }
      if eof {
        return Failed;
      }
      var one := ReadRecordBody();
      match one
      case Good(record, _) =>
        LinesCons(record, Coming());
        assert line[0..size] == record.line;
        return Found(record);
      case Bad =>
        eof, size, offset := true, 0, 0;
        return Failed;
      case Panic =>
        return Panicked;
    }

    /** `Read`: fills the target from the current record and the ones after it. */
    method Read(p: array<byte>) returns (r: Chunk)
      requires Valid() && p != line
      modifies this`input, this`offset, this`size, this`eof, line, p
      ensures old(Safe()) ==> r.Chunk? && Safe()
      ensures r.Chunk? ==> Valid() && r.size <= p.Length && old(Pending()) == p[..r.size] + Pending()
      ensures r.Chunk? ==> r.size == p.Length || Pending() == []
      ensures r.Chunk? ==> (r.eof <==> p.Length > 0 && old(Pending()) == [])
      ensures r.Chunk? ==> forall k | r.size <= k < p.Length :: p[k] == old(p[k])
    {
      hide Pending, Coming, InRange;
      ghost var all := Pending();
      var readed := 0;
      assert p[..0] + all == all;
      while true
        invariant Valid() && readed <= p.Length && (old(Safe()) ==> Safe())
        invariant all == p[..readed] + Pending()
        invariant forall k | readed <= k < p.Length :: p[k] == old(p[k])
        decreases p.Length - readed, |input|
      {
        if readed == p.Length {
          return Chunk(readed, false);
        }
        if size > offset {
          var n := if size - offset < p.Length - readed then size - offset else p.Length - readed;
          CopyOut(p, readed, n);
          readed := readed + n;
        } else {
          var next := ReadRecord();
          if next.Panicked? {
            return ChunkPanicked;
          }
          if next.Failed? {
            if readed > 0 {
              return Chunk(readed, false);
            }
            return Chunk(0, true);
          }
        }
      }
    }

    /** `copy` from the line into the target. */
    method CopyOut(p: array<byte>, at: nat, n: nat)
      requires Valid() && p != line && offset + n <= size && at + n <= p.Length
      modifies p, this`offset
      ensures Valid() && offset == old(offset) + n
      ensures p[..at + n] + Pending() == old(p[..at] + Pending())
      ensures forall k | at + n <= k < p.Length :: p[k] == old(p[k])
    {
      hide Records, Lines, InRange;
      ghost var head, rest := p[..at], Lines(Coming());
      var piece := line[offset..offset + n];
      CopyInto(p, at, piece);
      assert p[..at] == head;
      assert p[..at + n] == head + piece;
      assert line[offset..size] == piece + line[offset + n..size];
      Regroup(head, piece, line[offset + n..size], rest);
      offset := offset + n;
    }
  }

  lemma LinesCons(r: Record, rs: seq<Record>)
    ensures Lines([r] + rs) == r.line + Lines(rs)
  {
    assert ([r] + rs)[1..] == rs;
  }

  lemma NoLines()
    ensures Lines([]) == []
  {
  }

  lemma Regroup(a: bytes, b: bytes, c: bytes, d: bytes)
    ensures a + ((b + c) + d) == (a + b) + (c + d)
  {
  }

  lemma SliceTwice(s: bytes, n: nat)
    ensures |s| >= n + 18 ==> s[n..][..18] == s[n..n + 18] && s[n..][18..] == s[n + 18..]
  {
  }

  function Number64(s: bytes): uint64
    requires |s| == 8
  {
    FromLittleEndianBound(s);
    Pow256Values();
    FromLittleEndian(s)
  }

  function Number32(s: bytes): uint32
    requires |s| == 4
  {
    FromLittleEndianBound(s);
    Pow256Values();
    FromLittleEndian(s)
  }

  function Number16(s: bytes): uint16
    requires |s| == 2
  {
    FromLittleEndianBound(s);
    Pow256Values();
    FromLittleEndian(s)
  }

  method ReverseEnd(line: array<byte>, at: nat, to: nat)
    requires at <= to <= line.Length
    modifies line
    ensures line[..to] == old(line[..at]) + ReversePath(old(line[at..to]))
  {
    ReverseMetricInplace(line, at, to);
    assert line[..at] == old(line[..at]);
    assert line[..to] == line[..at] + line[at..to];
  }

  lemma ShownTailKeepsDay(o: Options, tail: bytes)
    requires |tail| == 18
    ensures DaysMatch(o, ShownTail(o, tail)) == DaysMatch(o, tail)
  {
    assert ShownTail(o, tail)[8..12] == tail[8..12] && ShownTail(o, tail)[12..14] == tail[12..14];
  }

  lemma NumbersOfTail(s: bytes, head: bytes, tail: bytes)
    requires s == head + tail && |tail| == 18
    ensures s[|s| - 18..|s| - 10] == tail[..8] && s[|s| - 10..|s| - 6] == tail[8..12]
    ensures s[|s| - 6..|s| - 4] == tail[12..14] && s[|s| - 4..|s|] == tail[14..]
  {
  }

  lemma SliceOfLine(line: array<byte>, a: nat, b: nat, size: nat)
    requires a <= b <= size <= line.Length
    ensures line[a..b] == line[..size][a..b]
  {
  }

  /* ---- what is read back of written points ---- */

  /** A point as the reader shows it. */
  function Shown(o: Options, p: Point): Point
  {
    Point(ShownName(o, p.name), p.value, p.timestamp, if o.zeroVersion then 0 else p.version)
  }

  function RecordOf(o: Options, p: Point): Record
  {
    Record(Shown(o, p).name, Encode(Shown(o, p), o.toDays))
  }

  function RecordsOf(o: Options, ps: seq<Point>): seq<Record>
  {
    seq(|ps|, i requires 0 <= i < |ps| => RecordOf(o, ps[i]))
  }

  lemma ShownTailOfTail(o: Options, p: Point)
    ensures
      var t := Tail(p.value, p.timestamp, o.toDays(p.timestamp), p.version);
      && ShownTail(o, t) == Tail(p.value, p.timestamp, o.toDays(p.timestamp), Shown(o, p).version)
      && DaysMatch(o, t)
  {
    TailRoundTrip(p.value, p.timestamp, o.toDays(p.timestamp), p.version);
    var a, b, c, d := LittleEndian(p.value, 8), LittleEndian(p.timestamp, 4), LittleEndian(o.toDays(p.timestamp), 2),
        LittleEndian(p.version, 4);
    assert LittleEndian(0, 4) == [0, 0, 0, 0];
    hide LittleEndian, FromLittleEndian;
    assert (a + b + c + d)[..14] == a + b + c;
  }

  lemma ShownNameLength(o: Options, name: bytes)
    ensures |ShownName(o, name)| == |name|
  {
    ReversePathLength(name);
  }

  lemma ReadParts(o: Options, v: bytes, name: bytes, tail: bytes, rest: bytes)
    requires |tail| == 18 && |v| + |name| + 18 <= BUFFER_SIZE && DaysMatch(o, tail)
    requires v == PutUvarint(|name|) && ReadUvarint(v + (name + (tail + rest))) == Read(|name|, |v|)
    ensures ReadOne(o, v + (name + (tail + rest))) ==
        Good(Record(ShownName(o, name), v + ShownName(o, name) + ShownTail(o, tail)), rest)
  {
    hide PutUvarint, ReadUvarint, ShownTail, DaysMatch, ShownName;
    var s, n := v + (name + (tail + rest)), |name|;
    var left := s[|v|..];
    assert left == name + (tail + rest);
    assert left[..n] == name && left[n..n + 18] == tail && left[n + 18..] == rest;
  }

  /** A whole record is read back, whatever follows. */
  lemma ReadWhole(o: Options, p: Point, rest: bytes)
    requires |Encode(p, o.toDays)| <= BUFFER_SIZE
    ensures ReadOne(o, Encode(p, o.toDays) + rest) == Good(RecordOf(o, p), rest)
  {
    var v, t := PutUvarint(|p.name|), Tail(p.value, p.timestamp, o.toDays(p.timestamp), p.version);
    ReadUvarintRoundTrip(|p.name|, p.name + (t + rest));
    ShownTailOfTail(o, p);
    ShownNameLength(o, p.name);
    hide PutUvarint, ReadUvarint, Tail, ShownTail, DaysMatch, ShownName, ReadOne;
    ReadParts(o, v, p.name, t, rest);
    RegroupRecord(v, p.name, t, rest);
  }

  lemma RegroupRecord(v: bytes, name: bytes, t: bytes, rest: bytes)
    ensures (v + name) + t + rest == v + (name + (t + rest))
  {
  }

  lemma VarintCut(n: uint64, k: nat)
    requires k < |PutUvarint(n)|
    ensures ReadUvarint(PutUvarint(n)[..k]) == CutShort
  {
    var v := PutUvarint(n);
    VarintRoundTrip(n, []);
    VarintSize(n);
    assert v + [] == v;
    assert forall i | 0 <= i < k :: v[..k][i] == v[i] >= 128;
  }

  /** A record cut short is not read at all. */
  lemma ReadCut(o: Options, p: Point, k: nat)
    requires k < |Encode(p, o.toDays)| <= BUFFER_SIZE
    ensures ReadOne(o, Encode(p, o.toDays)[..k]) == Bad
  {
    var n, v, t := |p.name|, PutUvarint(|p.name|), Tail(p.value, p.timestamp, o.toDays(p.timestamp), p.version);
    var s := v + p.name + t;
    if k < |v| {
      VarintCut(n, k);
      assert s[..k] == v[..k];
    } else {
      var more := (p.name + t)[..k - |v|];
      ReadUvarintRoundTrip(n, more);
      assert s[..k] == v + more;
    }
  }

  lemma EncodeAllHead(ps: seq<Point>, toDays: ToDays, m: nat)
    requires 1 <= m <= |ps|
    ensures EncodeAll(ps[..m], toDays) == Encode(ps[0], toDays) + EncodeAll(ps[1..][..m - 1], toDays)
  {
    assert ps[..m][1..] == ps[1..][..m - 1];
  }

  lemma RecordsStep(o: Options, p: Point, rest: bytes)
    requires |Encode(p, o.toDays)| <= BUFFER_SIZE
    ensures Records(o, Encode(p, o.toDays) + rest) == [RecordOf(o, p)] + Records(o, rest)
    ensures InRange(o, Encode(p, o.toDays) + rest) == InRange(o, rest)
  {
    ReadWhole(o, p, rest);
    hide ReadOne, Encode;
  }

  lemma RecordsEnd(o: Options, input: bytes)
    requires ReadOne(o, input) == Bad
    ensures Records(o, input) == [] && InRange(o, input)
  {
  }

  lemma ReadNothing(o: Options)
    ensures ReadOne(o, []) == Bad
  {
  }

  lemma CutStep(e: bytes, more: bytes, cut: nat)
    requires |e| <= cut <= |e + more|
    ensures (e + more)[..cut] == e + more[..cut - |e|]
  {
  }

  lemma RecordsOfStep(o: Options, ps: seq<Point>, m: nat)
    requires 1 <= m <= |ps|
    ensures RecordsOf(o, ps[..m]) == [RecordOf(o, ps[0])] + RecordsOf(o, ps[1..][..m - 1])
  {
  }

  /** Of a file of points cut anywhere, exactly the points wholly before the cut are read, `m` of
      them, and nothing is accessed out of range. */
  lemma {:induction false} CutRecords(o: Options, ps: seq<Point>, cut: nat, m: nat)
    requires cut <= |EncodeAll(ps, o.toDays)| && m <= |ps|
    requires forall p | p in ps :: |Encode(p, o.toDays)| <= BUFFER_SIZE
    requires |EncodeAll(ps[..m], o.toDays)| <= cut
    requires m < |ps| ==> cut < |EncodeAll(ps[..m + 1], o.toDays)|
    ensures Records(o, EncodeAll(ps, o.toDays)[..cut]) == RecordsOf(o, ps[..m])
    ensures InRange(o, EncodeAll(ps, o.toDays)[..cut])
    decreases |ps|
  {
    hide Encode, ReadOne, Records, InRange, RecordOf;
    if ps == [] {
      ReadNothing(o);
      RecordsEnd(o, []);
      assert EncodeAll(ps, o.toDays)[..cut] == [];
    } else {
      var p := ps[0];
      var e, more := Encode(p, o.toDays), EncodeAll(ps[1..], o.toDays);
      assert p in ps;
      if m == 0 {
        EncodeAllHead(ps, o.toDays, 1);
        assert EncodeAll(ps[1..][..0], o.toDays) == [];
        ReadCut(o, p, cut);
        RecordsEnd(o, e[..cut]);
        assert EncodeAll(ps, o.toDays)[..cut] == e[..cut];
      } else {
        EncodeAllHead(ps, o.toDays, m);
        if m < |ps| {
          EncodeAllHead(ps, o.toDays, m + 1);
        }
        hide RecordsOf, EncodeAll;
        var cut' := cut - |e|;
        CutStep(e, more, cut);
        RecordsStep(o, p, more[..cut']);
        CutRecords(o, ps[1..], cut', m - 1);
        RecordsOfStep(o, ps, m);
      }
    }
  }

  /** On a point's bytes the accessors give the point's numbers. */
  lemma AccessorsOfPoint(r: Reader, p: Point, toDays: ToDays)
    requires r.Valid() && r.line[..r.size] == Encode(p, toDays)
    ensures r.size >= 18 && r.Value() == p.value && r.Timestamp() == p.timestamp
    ensures r.Days() == toDays(p.timestamp) && r.Version() == p.version
  {
    var t := Tail(p.value, p.timestamp, toDays(p.timestamp), p.version);
    TailRoundTrip(p.value, p.timestamp, toDays(p.timestamp), p.version);
    NumbersOfTail(r.line[..r.size], Field(p.name), t);
    hide Encode, Field, Tail, FromLittleEndian;
    SliceOfLine(r.line, r.size - 18, r.size - 10, r.size);
    SliceOfLine(r.line, r.size - 10, r.size - 6, r.size);
    SliceOfLine(r.line, r.size - 6, r.size - 4, r.size);
    SliceOfLine(r.line, r.size - 4, r.size, r.size);
  }

  function ShownAll(o: Options, ps: seq<Point>): seq<Point>
  {
    seq(|ps|, i requires 0 <= i < |ps| => Shown(o, ps[i]))
  }

  /** The bytes served are the encodings of the points as they are shown: well formed again. */
  lemma {:induction false} LinesOfRecords(o: Options, ps: seq<Point>)
    ensures Lines(RecordsOf(o, ps)) == EncodeAll(ShownAll(o, ps), o.toDays)
  {
    if ps != [] {
      assert RecordsOf(o, ps)[1..] == RecordsOf(o, ps[1..]);
      assert ShownAll(o, ps)[1..] == ShownAll(o, ps[1..]);
      LinesOfRecords(o, ps[1..]);
    }
  }

  /** What `Read` serves of a cut file, to whatever targets: the encodings of the points wholly
      before the cut. */
  lemma {:induction false} CutBytes(o: Options, ps: seq<Point>, cut: nat, m: nat)
    requires cut <= |EncodeAll(ps, o.toDays)| && m <= |ps|
    requires forall p | p in ps :: |Encode(p, o.toDays)| <= BUFFER_SIZE
    requires |EncodeAll(ps[..m], o.toDays)| <= cut
    requires m < |ps| ==> cut < |EncodeAll(ps[..m + 1], o.toDays)|
    ensures Lines(Records(o, EncodeAll(ps, o.toDays)[..cut])) == EncodeAll(ShownAll(o, ps[..m]), o.toDays)
  {
    CutRecords(o, ps, cut, m);
    LinesOfRecords(o, ps[..m]);
  }

  function Total(sizes: seq<nat>): nat
  {
    if sizes == [] then 0 else sizes[0] + Total(sizes[1..])
  }

  /** A caller's loop: a `Read` into one target after another, of any sizes, gets the pending bytes
      in order and loses none. */
  method ReadInto(r: Reader, sizes: seq<nat>) returns (out: bytes)
    requires r.Valid() && r.Safe()
    modifies r`input, r`offset, r`size, r`eof, r.line
    ensures r.Valid() && r.Safe() && out + r.Pending() == old(r.Pending())
    ensures |out| == if Total(sizes) <= |old(r.Pending())| then Total(sizes) else |old(r.Pending())|
  {
    hide InRange, Records, Lines;
    out := [];
    EmptyFirst(r.Pending());
    var i := 0;
    assert sizes[0..] == sizes;
    while i < |sizes|
      invariant 0 <= i <= |sizes| && r.Valid() && r.Safe() && out + r.Pending() == old(r.Pending())
      invariant r.Pending() == [] || |out| + Total(sizes[i..]) == Total(sizes)
      invariant |out| + Total(sizes[i..]) <= Total(sizes)
    {
      assert sizes[i..][1..] == sizes[i + 1..];
      ghost var pending := r.Pending();
      var target := new byte[sizes[i]];
      var chunk := r.Read(target);
      Assoc(out, target[..chunk.size], r.Pending());
      out := out + target[..chunk.size];
      i := i + 1;
    }
  }

  /** Showing points a second time, without zeroing versions, gives the first ones back. */
  lemma ShownTwice(o: Options, p: Point)
    ensures ShownName(o, ShownName(o, p.name)) == p.name
  {
    if o.reverse && QUESTION !in p.name {
      ReversePathInvolution(p.name);
      ReversePathMembers(p.name);
      assert QUESTION !in multiset(ReversePath(p.name));
    }
  }
}

/** `RowBinary.Writer` (helper/RowBinary/writer.go): points are put into a buffer, and a buffer that
    has no room for the next point is sent on. Nothing is cancelled here. */
module RowWriter {
  import opened ByteStrings
  import opened Varint
  import opened RowBinary
  import opened WriteBuffers

  /** The buffers sent, the bytes of the current one if there is one, and the two counters. */
  datatype WriterState = WriterState(sent: seq<bytes>, current: Option<bytes>, written: uint32, errors: uint32)

  const EMPTY := WriterState([], None, 0, 0)

  /** `uint32` counters wrap around. */
  function Increment(n: uint32): uint32
  {
    (n + 1) % TWO32
  }

  function Flushed(w: WriterState): WriterState
  {
    match w.current
    case None => w
    case Some(b) => if b == [] then w.(current := None) else w.(sent := w.sent + [b], current := None)
  }

  /** The current buffer, or the new one that takes its place. */
  function Current(w: WriterState): bytes
  {
    if w.current.Some? then w.current.value else []
  }

  /** Names longer than this are refused when the buffer has to be changed. */
  const MAX_NAME := BUFFER_SIZE - 50

  predicate Accepts(w: WriterState, nameLen: nat)
  {
    CanWrite(|Current(w)|, nameLen) || nameLen <= MAX_NAME
  }

  function Written(w: WriterState, p: Point, toDays: ToDays): WriterState
  {
    if CanWrite(|Current(w)|, |p.name|) then
      w.(current := Some(Current(w) + Encode(p, toDays)), written := Increment(w.written))
    else
      var f := Flushed(w.(current := Some(Current(w))));
      if |p.name| > MAX_NAME then f.(errors := Increment(f.errors))
      else f.(current := Some(Encode(p, toDays)), written := Increment(f.written))
  }

  class Writer {
    const now: uint32
    const toDays: ToDays
    var wb: WriteBuffer?
    var sent: seq<bytes>
    var pointsWritten: uint32
    var writeErrors: uint32

    ghost predicate Valid()
      reads this, wb
    {
      wb != null ==> wb.Valid()
    }

    ghost function Repr(): set<object>
      reads this
    {
      if wb == null then {this} else {this, wb, wb.body}
    }

    ghost function State(): WriterState
      reads this, wb, if wb == null then {} else {wb.body}
      requires Valid()
    {
      WriterState(sent, if wb == null then None else Some(wb.Contents()), pointsWritten, writeErrors)
    }

    constructor (now: uint32, toDays: ToDays)
      ensures Valid() && fresh(Repr()) && State() == EMPTY
      ensures this.now == now && this.toDays == toDays
    {
      this.now := now;
      this.toDays := toDays;
      wb := null;
      sent := [];
      pointsWritten := 0;
      writeErrors := 0;
    }

    method Flush()
      requires Valid()
      modifies this
      ensures Valid() && State() == Flushed(old(State()))
      ensures wb == null && fresh(Repr() - old(Repr()))
    {
      if wb != null {
        if wb.used == 0 {
          assert wb.Contents() == [];
        } else {
          assert |wb.Contents()| > 0;
          sent := sent + [wb.body[..wb.used]];
        }
        wb := null;
      }
    }

    /** The buffer the next point goes to, or null when the name is too long for any. */
    method Room(nameLen: nat) returns (ok: bool)
      requires Valid()
      modifies this
      ensures Valid() && fresh(Repr() - old(Repr()))
      ensures ok <==> Accepts(old(State()), nameLen)
      ensures ok ==> wb != null && CanWrite(wb.used, nameLen)
      ensures
        var w := old(State());
        if CanWrite(|Current(w)|, nameLen) then State() == w.(current := Some(Current(w)))
        else
          var f := Flushed(w.(current := Some(Current(w))));
          State() == if ok then f.(current := Some([])) else f.(errors := Increment(f.errors))
    {
      if wb == null {
        wb := new WriteBuffer();
      }
      assert State() == old(State()).(current := Some(Current(old(State()))));
      assert |wb.Contents()| == wb.used;
      if !CanWrite(wb.used, nameLen) {
        Flush();
        if nameLen > MAX_NAME {
          writeErrors := Increment(writeErrors);
          return false;
        }
        wb := new WriteBuffer();
      }
      return true;
    }

    method WritePoint(metric: bytes, value: uint64, timestamp: uint32)
      requires Valid()
      modifies Repr()
      ensures Valid() && fresh(Repr() - old(Repr()))
      ensures State() == Written(old(State()), Point(metric, value, timestamp, now), toDays)
    {
      hide Encode;
      var ok := Room(|metric|);
      if ok {
        wb.WriteGraphitePoint(Point(metric, value, timestamp, now), toDays);
        EmptyFirst(Encode(Point(metric, value, timestamp, now), toDays));
        pointsWritten := Increment(pointsWritten);
      }
    }

    method WritePointTagged(metric: seq<bytes>, value: uint64, timestamp: uint32)
      requires Valid() && metric != []
      modifies Repr()
      ensures Valid() && fresh(Repr() - old(Repr()))
      ensures State() == Written(old(State()), Point(TaggedName(metric), value, timestamp, now), toDays)
    {
      hide Encode, TaggedName;
      var l := LengthOf(metric);
      var ok := Room(l);
      if ok {
        wb.WriteGraphitePointTagged(metric, value, timestamp, now, toDays);
        EmptyFirst(Encode(Point(TaggedName(metric), value, timestamp, now), toDays));
        pointsWritten := Increment(pointsWritten);
      }
    }
  }

  function WrittenAll(w: WriterState, ps: seq<Point>, toDays: ToDays): WriterState
    decreases |ps|
  {
    if ps == [] then w else WrittenAll(Written(w, ps[0], toDays), ps[1..], toDays)
  }

  /** The points that do not end as a write error. */
  function Accepted(w: WriterState, ps: seq<Point>, toDays: ToDays): seq<Point>
    decreases |ps|
  {
    if ps == [] then []
    else (if Accepts(w, |ps[0].name|) then [ps[0]] else []) + Accepted(Written(w, ps[0], toDays), ps[1..], toDays)
  }

  /** The points in each buffer: `groups` for the sent ones, `last` for the current one. */
  ghost predicate Holds(w: WriterState, groups: seq<seq<Point>>, last: seq<Point>, toDays: ToDays)
  {
    && |groups| == |w.sent|
    && (forall i | 0 <= i < |groups| :: w.sent[i] == EncodeAll(groups[i], toDays) && 0 < |w.sent[i]| <= BUFFER_SIZE)
    && Current(w) == EncodeAll(last, toDays) && |Current(w)| <= BUFFER_SIZE
  }

  function Flatten(groups: seq<seq<Point>>): seq<Point>
  {
    if groups == [] then [] else groups[0] + Flatten(groups[1..])
  }

  lemma {:induction false} FlattenSnoc(groups: seq<seq<Point>>, last: seq<Point>)
    ensures Flatten(groups + [last]) == Flatten(groups) + last
  {
    if groups == [] {
      assert groups + [last] == [last];
      assert Flatten([last]) == last + Flatten([]);
    } else {
      assert (groups + [last])[1..] == groups[1..] + [last];
      FlattenSnoc(groups[1..], last);
      Assoc(groups[0], Flatten(groups[1..]), last);
    }
  }

  lemma EncodeOne(p: Point, toDays: ToDays)
    ensures EncodeAll([p], toDays) == Encode(p, toDays)
  {
    assert [p][1..] == [];
    assert Encode(p, toDays) + [] == Encode(p, toDays);
  }

  /** How the buffers' points change with one more point. */
  function Groups(w: WriterState, groups: seq<seq<Point>>, last: seq<Point>, p: Point)
      : (r: (seq<seq<Point>>, seq<Point>))
  {
    if CanWrite(|Current(w)|, |p.name|) then (groups, last + [p])
    else
      var closed := if Current(w) == [] then groups else groups + [last];
      (closed, if |p.name| > MAX_NAME then [] else [p])
  }

  lemma WrittenHolds(w: WriterState, groups: seq<seq<Point>>, last: seq<Point>, p: Point, toDays: ToDays)
    requires Holds(w, groups, last, toDays)
    ensures
      var (groups', last') := Groups(w, groups, last, p);
      Holds(Written(w, p, toDays), groups', last', toDays)
  {
    EncodeOne(p, toDays);
    EncodeFitsAny(p, toDays);
    if CanWrite(|Current(w)|, |p.name|) {
      EncodeFits(|Current(w)|, p, toDays);
      EncodeAllAppend(last, [p], toDays);
    }
  }

  lemma EncodeFitsAny(p: Point, toDays: ToDays)
    ensures |p.name| <= MAX_NAME ==> |Encode(p, toDays)| <= BUFFER_SIZE
  {
    if |p.name| <= MAX_NAME {
      EncodeFits(0, p, toDays);
    }
  }

  lemma {:induction false} EncodingsNonEmpty(last: seq<Point>, toDays: ToDays)
    ensures EncodeAll(last, toDays) == [] <==> last == []
  {
  }

  lemma {:induction false} WrittenAllHolds(w: WriterState, groups: seq<seq<Point>>, last: seq<Point>, ps: seq<Point>,
      toDays: ToDays)
      returns (groups': seq<seq<Point>>, last': seq<Point>)
    requires Holds(w, groups, last, toDays)
    ensures Holds(WrittenAll(w, ps, toDays), groups', last', toDays)
    ensures Flatten(groups') + last' == Flatten(groups) + last + Accepted(w, ps, toDays)
    decreases |ps|
  {
    if ps == [] {
      groups', last' := groups, last;
    } else {
      var p := ps[0];
      var (g, l) := Groups(w, groups, last, p);
      WrittenHolds(w, groups, last, p, toDays);
      EncodingsNonEmpty(last, toDays);
      FlattenSnoc(groups, last);
      assert Flatten(g) + l == Flatten(groups) + last + (if Accepts(w, |p.name|) then [p] else []);
      groups', last' := WrittenAllHolds(Written(w, p, toDays), g, l, ps[1..], toDays);
      Assoc(Flatten(groups) + last, if Accepts(w, |p.name|) then [p] else [],
            Accepted(Written(w, p, toDays), ps[1..], toDays));
    }
  }

  /** The buffers a writer sends, ended by a flush, hold the accepted points in order: no record is
      split between two buffers, no buffer is empty or larger than its size. */
  lemma {:induction false} BuffersHoldAccepted(ps: seq<Point>, toDays: ToDays) returns (groups: seq<seq<Point>>)
    ensures
      var w := Flushed(WrittenAll(EMPTY, ps, toDays));
      && w.current.None? && |groups| == |w.sent|
      && (forall i | 0 <= i < |groups| :: w.sent[i] == EncodeAll(groups[i], toDays) && 0 < |w.sent[i]| <= BUFFER_SIZE)
      && Flatten(groups) == Accepted(EMPTY, ps, toDays)
  {
    var g, l := WrittenAllHolds(EMPTY, [], [], ps, toDays);
    EmptyFirst(Accepted(EMPTY, ps, toDays));
    hide WrittenAll, Accepted;
    groups := FlushedHolds(WrittenAll(EMPTY, ps, toDays), g, l, toDays);
  }

  lemma FlushedHolds(w: WriterState, g: seq<seq<Point>>, l: seq<Point>, toDays: ToDays)
      returns (groups: seq<seq<Point>>)
    requires Holds(w, g, l, toDays)
    ensures
      var f := Flushed(w);
      && f.current.None? && |groups| == |f.sent|
      && (forall i | 0 <= i < |groups| :: f.sent[i] == EncodeAll(groups[i], toDays) && 0 < |f.sent[i]| <= BUFFER_SIZE)
      && Flatten(groups) == Flatten(g) + l
  {
    EncodingsNonEmpty(l, toDays);
    FlattenSnoc(g, l);
    hide EncodeAll, Flatten;
    if Current(w) == [] {
      assert Flatten(g) + [] == Flatten(g);
      groups := g;
    } else {
      groups := g + [l];
    }
  }

  lemma {:induction false} FlattenEncodes(groups: seq<seq<Point>>, sent: seq<bytes>, toDays: ToDays)
    requires |groups| == |sent| && forall i | 0 <= i < |groups| :: sent[i] == EncodeAll(groups[i], toDays)
    ensures Concat(sent) == EncodeAll(Flatten(groups), toDays)
  {
    if groups != [] {
      FlattenEncodes(groups[1..], sent[1..], toDays);
      EncodeAllAppend(groups[0], Flatten(groups[1..]), toDays);
    }
  }

  /** Put one after another, the sent buffers are the encodings of the accepted points. */
  lemma {:induction false} SentBytes(ps: seq<Point>, toDays: ToDays)
    ensures Concat(Flushed(WrittenAll(EMPTY, ps, toDays)).sent) == EncodeAll(Accepted(EMPTY, ps, toDays), toDays)
  {
    var groups := BuffersHoldAccepted(ps, toDays);
    FlattenEncodes(groups, Flushed(WrittenAll(EMPTY, ps, toDays)).sent, toDays);
  }

  /** Every call is counted once, as a point or as an error, in counters that wrap at 2^32. */
  lemma {:induction false} CallsAreCounted(w: WriterState, ps: seq<Point>, toDays: ToDays)
    ensures
      var w' := WrittenAll(w, ps, toDays);
      (w'.written + w'.errors) % TWO32 == (w.written + w.errors + |ps|) % TWO32
    decreases |ps|
  {
    if ps != [] {
      var w1 := Written(w, ps[0], toDays);
      CallsAreCounted(w1, ps[1..], toDays);
      assert w1.written + w1.errors == Increment(w.written) + w.errors
          || w1.written + w1.errors == Increment(w.errors) + w.written;
      CountOne(w.written, w.errors, |ps| - 1);
      CountOne(w.errors, w.written, |ps| - 1);
    }
  }

  lemma CountOne(a: uint32, b: uint32, n: nat)
    ensures (Increment(a) + b + n) % TWO32 == (a + b + (n + 1)) % TWO32
  {
    if a + 1 == TWO32 {
      assert a + b + (n + 1) == TWO32 + (b + n);
    }
  }

  /** No name up to the limit is ever refused; no name that fits no buffer is ever accepted. Between
      the two it depends on whether the buffer at hand is empty enough. */
  lemma {:induction false} AcceptedNames(w: WriterState, ps: seq<Point>, toDays: ToDays)
    ensures (forall p | p in ps :: |p.name| <= MAX_NAME) ==> Accepted(w, ps, toDays) == ps
    ensures forall p | p in Accepted(w, ps, toDays) :: p in ps && |p.name| < BUFFER_SIZE - 23
    decreases |ps|
  {
    if ps != [] {
      AcceptedNames(Written(w, ps[0], toDays), ps[1..], toDays);
      assert ps == [ps[0]] + ps[1..];
    }
  }

  /** The counters are what they say, in 32 bits: the points accepted, and the others. */
  lemma {:induction false} CountsAreExact(w: WriterState, ps: seq<Point>, toDays: ToDays)
    ensures
      var w', n := WrittenAll(w, ps, toDays), |Accepted(w, ps, toDays)|;
      && n <= |ps|
      && w'.written == (w.written + n) % 0x1_0000_0000 && w'.errors == (w.errors + (|ps| - n)) % 0x1_0000_0000
    decreases |ps|
  {
    if ps != [] {
      var w1, n := Written(w, ps[0], toDays), |Accepted(Written(w, ps[0], toDays), ps[1..], toDays)|;
      CountsAreExact(w1, ps[1..], toDays);
      CountStep(w, ps[0], toDays);
      IncrementThen(w.written, n);
      IncrementThen(w.errors, |ps| - 1 - n);
      hide Written, Increment;
    }
  }

  lemma CountStep(w: WriterState, p: Point, toDays: ToDays)
    ensures
      var w' := Written(w, p, toDays);
      if Accepts(w, |p.name|) then w'.written == Increment(w.written) && w'.errors == w.errors
      else w'.written == w.written && w'.errors == Increment(w.errors)
  {
  }

  lemma IncrementThen(a: uint32, n: nat)
    ensures (Increment(a) + n) % 0x1_0000_0000 == (a + (n + 1)) % 0x1_0000_0000
  {
    if a + 1 == TWO32 {
      assert a + (n + 1) == TWO32 + n;
    }
  }

  /** Which points are accepted: those with room in the buffer at hand, and, whatever it holds, those
      with names of up to 524238 bytes. */
  lemma AcceptedExactly(w: WriterState, nameLen: nat)
    ensures Accepts(w, nameLen) <==> |Current(w)| + nameLen + 23 < 524288 || nameLen <= 524238
  {
  }

  /** Only a point that has no room in the buffer makes the writer send it. */
  lemma SendsWhenFull(w: WriterState, p: Point, toDays: ToDays)
    ensures
      var w' := Written(w, p, toDays);
      && (|Current(w)| + |p.name| + 23 < 524288 ==> w'.sent == w.sent && Current(w') == Current(w) + Encode(p, toDays))
      && (|Current(w)| + |p.name| + 23 >= 524288 ==>
            && w'.sent == w.sent + (if Current(w) == [] then [] else [Current(w)])
            && Current(w') == if |p.name| <= 524238 then Encode(p, toDays) else [])
  {
    assert w.sent + [] == w.sent;
    hide Encode;
  }
}

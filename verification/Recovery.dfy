/** From the receivers' writer to the uploaders' reader: what is left of a chunk file that was cut
    short. */
module Recovery {
  import opened ByteStrings
  import opened RowBinary
  import opened RowWriter
  import opened RecordReader

  /** How many points are wholly before the cut. */
  lemma {:induction false} WholeBefore(ps: seq<Point>, toDays: ToDays, cut: nat) returns (m: nat)
    requires cut <= |EncodeAll(ps, toDays)|
    ensures m <= |ps| && |EncodeAll(ps[..m], toDays)| <= cut
    ensures m < |ps| ==> cut < |EncodeAll(ps[..m + 1], toDays)|
    decreases |ps|
  {
    hide Encode;
    if ps == [] || cut < |Encode(ps[0], toDays)| {
      m := 0;
      assert EncodeAll(ps[..0], toDays) == [];
      if ps != [] {
        EncodeAllHead(ps, toDays, 1);
      }
    } else {
      var rest := WholeBefore(ps[1..], toDays, cut - |Encode(ps[0], toDays)|);
      m := rest + 1;
      EncodeAllHead(ps, toDays, m);
      if m < |ps| {
        EncodeAllHead(ps, toDays, m + 1);
      }
    }
  }

  /** Whatever points are written, and wherever the file they end up in is cut: the reader finds the
      accepted points that are wholly before the cut, all of them, in order, and nothing else. */
  lemma {:induction false} WrittenThenRead(o: Options, ps: seq<Point>, cut: nat) returns (m: nat)
    requires cut <= |Concat(Flushed(WrittenAll(EMPTY, ps, o.toDays)).sent)|
    ensures
      var accepted := Accepted(EMPTY, ps, o.toDays);
      var file := Concat(Flushed(WrittenAll(EMPTY, ps, o.toDays)).sent);
      && m <= |accepted| && |EncodeAll(accepted[..m], o.toDays)| <= cut
      && (m < |accepted| ==> cut < |EncodeAll(accepted[..m + 1], o.toDays)|)
      && Records(o, file[..cut]) == RecordsOf(o, accepted[..m]) && InRange(o, file[..cut])
  {
    var accepted := Accepted(EMPTY, ps, o.toDays);
    SentBytes(ps, o.toDays);
    AcceptedNames(EMPTY, ps, o.toDays);
    forall p | p in accepted
      ensures |Encode(p, o.toDays)| <= BUFFER_SIZE
    {
      EncodeFits(0, p, o.toDays);
    }
    hide Accepted, WrittenAll, EncodeAll, Encode, Records, RecordsOf, InRange, Flushed, Concat;
    m := WholeBefore(accepted, o.toDays, cut);
    CutRecords(o, accepted, cut, m);
  }
}

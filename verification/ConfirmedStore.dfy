/** A store that waits until its points are on disk (receiver/grpc.go, the confirming half of
    helper/RowBinary/write_buffer.go, `write` in writer/writer.go): the request fills buffers, each
    counted in a WaitGroup; the writer's goroutine writes, flushes and reports. */
module ConfirmedStore {
  import opened ByteStrings
  import opened RowBinary

  datatype Error = WriteError | Canceled

  /** What goes through the channel: a buffer of this request, by number, or anybody else's. */
  datatype Item = Ours(id: nat) | Other

  /** The request. It renews its buffer after having sent a full one. */
  datatype Client =
    | Starting
    | Filling(next: nat, current: seq<Point>)
    | Renewing(next: nat)
    | Waiting
    | Draining
    | Finished(error: Option<Error>)

  /** The writer: the buffer it has taken, and what it does with it next. */
  datatype WriterStage = Idle | Busy(item: Item) | Flushing(item: Item) | Confirming(item: Item) | Failing(item: Item)
      | Reported(item: Item)

  /** What has become of a buffer sent. */
  datatype Fate = Queued | InHand | Stored | Lost

  /** `points` are those of the request, `dropped` the receiver's rules. `counter` is the WaitGroup's,
      `slot` the error channel of capacity one. `held` are the items in the output's buffer, `disk`
      those flushed. `obtained` counts the buffers taken from the pool. */
  datatype State = State(
    points: seq<Point>, dropped: Point -> bool, toDays: ToDays,
    client: Client, writer: WriterStage, queue: seq<Item>, held: multiset<Item>, disk: multiset<Item>,
    counter: int, slot: Option<Error>, obtained: nat, sent: seq<seq<Point>>, fates: seq<Fate>)

  datatype Step =
    | Obtain | Skip | Add | SendFull | Renew | SendLast | Release | Wake | Collect | Cancel
    | Arrive | Take | WriteBuffer(ok: bool) | Flush(ok: bool) | Report | Done
    | IdleFlush(ok: bool) | Rotate(ok: bool)

  predicate HasRoom(s: State, current: seq<Point>, p: Point)
  {
    CanWrite(|EncodeAll(current, s.toDays)|, |p.name|)
  }

  /** The request has a buffer that it has to send before it can go on. */
  predicate MustSend(s: State)
  {
    s.client.Filling? &&
    if s.client.next < |s.points| then
      !s.dropped(s.points[s.client.next]) && !HasRoom(s, s.client.current, s.points[s.client.next])
    else s.client.current != []
  }

  predicate Enabled(s: State, step: Step)
  {
    match step
    case Obtain => s.client.Starting?
    case Skip => s.client.Filling? && s.client.next < |s.points| && s.dropped(s.points[s.client.next])
    case Add =>
      s.client.Filling? && s.client.next < |s.points| && !s.dropped(s.points[s.client.next]) &&
      HasRoom(s, s.client.current, s.points[s.client.next])
    case SendFull => MustSend(s) && s.client.next < |s.points|
    case Renew => s.client.Renewing? && s.client.next < |s.points|
    case SendLast => MustSend(s) && s.client.next >= |s.points|
    case Release => s.client.Filling? && s.client.next >= |s.points| && s.client.current == []
    case Wake => s.client.Waiting? && s.counter == 0
    case Collect => s.client.Draining?
    case Cancel => MustSend(s)
    case Arrive => true
    case Take => s.writer.Idle? && s.queue != []
    case WriteBuffer(_) => s.writer.Busy?
    case Flush(_) => s.writer.Flushing?
    case Report => s.writer.Failing?
    case Done => s.writer.Confirming? || s.writer.Reported?
    case IdleFlush(_) => s.writer.Idle?
    case Rotate(_) => s.writer.Idle?
  }

  function WithFate(s: State, item: Item, fate: Fate): State
  {
    if item.Ours? && item.id < |s.fates| then s.(fates := s.fates[item.id := fate]) else s
  }

  function Sent(s: State, current: seq<Point>): State
  {
    s.(queue := s.queue + [Ours(|s.sent|)], sent := s.sent + [current], fates := s.fates + [Queued])
  }

  function Flushed(s: State): State
  {
    s.(disk := s.disk + s.held, held := multiset{})
  }

  function Apply(s: State, step: Step): State
    requires Enabled(s, step)
  {
    match step
    case Obtain => s.(client := Filling(0, []), counter := s.counter + 1, obtained := s.obtained + 1)
    case Skip => s.(client := Filling(s.client.next + 1, s.client.current))
    case Add => s.(client := Filling(s.client.next + 1, s.client.current + [s.points[s.client.next]]))
    case SendFull => Sent(s, s.client.current).(client := Renewing(s.client.next))
    case Renew =>
      s.(client := Filling(s.client.next + 1, [s.points[s.client.next]]),
         counter := s.counter + 1, obtained := s.obtained + 1)
    case SendLast => Sent(s, s.client.current).(client := Waiting)
    case Release => s.(client := Waiting)
    case Wake => s.(client := Draining)
    case Collect => s.(client := Finished(s.slot), slot := None)
    case Cancel => s.(client := Finished(Some(Canceled)))
    case Arrive => s.(queue := s.queue + [Other])
    case Take => WithFate(s, s.queue[0], InHand).(writer := Busy(s.queue[0]), queue := s.queue[1..])
    case WriteBuffer(ok) =>
      var item := s.writer.item;
      if ok then s.(held := s.held + multiset{item}, writer := if item.Ours? then Flushing(item) else Idle)
      else s.(writer := if item.Ours? then Failing(item) else Idle)
    case Flush(ok) =>
      if ok then Flushed(s).(writer := Confirming(s.writer.item)) else s.(writer := Failing(s.writer.item))
    case Report => s.(slot := if s.slot.None? then Some(WriteError) else s.slot, writer := Reported(s.writer.item))
    case Done =>
      var fate := if s.writer.Confirming? then Stored else Lost;
      WithFate(s, s.writer.item, fate).(counter := s.counter - 1, writer := Idle)
    case IdleFlush(ok) => if ok then Flushed(s) else s
    case Rotate(ok) => if ok then Flushed(s) else s.(held := multiset{})
  }

  /** Every name fits an empty buffer. */
  ghost predicate NamesFit(points: seq<Point>)
  {
    forall i | 0 <= i < |points| :: CanWrite(0, |points[i].name|)
  }

  ghost predicate Init(s: State)
  {
    && NamesFit(s.points) && s.client == Starting && s.writer == Idle
    && (forall i | 0 <= i < |s.queue| :: s.queue[i] == Other)
    && (forall i :: s.held[Ours(i)] == 0 && s.disk[Ours(i)] == 0)
    && s.counter == 0 && s.slot == None && s.obtained == 0 && s.sent == [] && s.fates == []
  }

  ghost predicate IsRun(s: State, steps: seq<Step>)
    decreases |steps|
  {
    steps != [] ==> Enabled(s, steps[0]) && IsRun(Apply(s, steps[0]), steps[1..])
  }

  ghost function After(s: State, steps: seq<Step>): State
    requires IsRun(s, steps)
    decreases |steps|
  {
    if steps == [] then s else After(Apply(s, steps[0]), steps[1..])
  }

  /** The points that the rules do not drop. */
  function Survivors(points: seq<Point>, dropped: Point -> bool): seq<Point>
  {
    if points == [] then []
    else
      var last := points[|points| - 1];
      Survivors(points[..|points| - 1], dropped) + if dropped(last) then [] else [last]
  }

  /** The buffers confirmed or failed. */
  function Handled(fates: seq<Fate>): nat
  {
    if fates == [] then 0
    else Handled(fates[..|fates| - 1]) + if fates[|fates| - 1].Stored? || fates[|fates| - 1].Lost? then 1 else 0
  }
}

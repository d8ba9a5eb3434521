/** What holds of a confirmed store in every reachable state. */
module ConfirmedStoreSafety {
  import opened ByteStrings
  import opened RowBinary
  import opened RowWriter
  import opened ConfirmedStore

  /** Where the request's points are: in the buffers sent and in the current one. */
  ghost predicate InvData(s: State)
  {
    && NamesFit(s.points) && (forall i | 0 <= i < |s.sent| :: s.sent[i] != [])
    && match s.client
       case Starting => s.sent == []
       case Filling(next, current) =>
         next <= |s.points| && Flatten(s.sent) + current == Survivors(s.points[..next], s.dropped)
             && (current == [] ==> s.sent == [])
       case Renewing(next) =>
         next < |s.points| && !s.dropped(s.points[next]) && s.sent != []
             && Flatten(s.sent) == Survivors(s.points[..next], s.dropped)
       case Finished(error) => error != Some(Canceled) ==> Flatten(s.sent) == Survivors(s.points, s.dropped)
       case _ => Flatten(s.sent) == Survivors(s.points, s.dropped)
  }

  /** The counter is the buffers obtained, less those confirmed or failed. */
  ghost predicate InvCount(s: State)
  {
    && |s.fates| == |s.sent| && s.counter == s.obtained - Handled(s.fates)
    && match s.client
       case Starting => s.obtained == 0
       case Filling(_, _) => s.obtained == |s.sent| + 1
       case Renewing(_) => s.obtained == |s.sent|
       case Finished(_) => |s.sent| <= s.obtained
       case _ => s.obtained == if s.sent == [] then 1 else |s.sent|
  }

  ghost predicate InHandOf(w: WriterStage, i: nat)
  {
    !w.Idle? && w.item == Ours(i)
  }

  /** A buffer is in the channel once, or in the writer's hand, or handled. */
  ghost predicate QueuedAt(s: State, i: nat)
  {
    && multiset(s.queue)[Ours(i)] == (if i < |s.fates| && s.fates[i].Queued? then 1 else 0)
    && (InHandOf(s.writer, i) <==> i < |s.fates| && s.fates[i].InHand?)
  }

  ghost predicate InvQueue(s: State)
  {
    (forall i: nat :: QueuedAt(s, i)) && (!s.writer.Idle? && !s.writer.Busy? ==> s.writer.item.Ours?)
  }

  /** No buffer is written twice, and a stored one is on disk. */
  ghost predicate StoredAt(s: State, i: nat)
  {
    var held, disk, mine := s.held[Ours(i)], s.disk[Ours(i)], InHandOf(s.writer, i);
    && held + disk <= 1
    && (i >= |s.fates| || s.fates[i].Queued? ==> held + disk == 0)
    && (mine && s.writer.Busy? ==> held + disk == 0)
    && (mine && s.writer.Flushing? ==> held == 1)
    && (mine && s.writer.Confirming? ==> disk == 1)
    && (i < |s.fates| && s.fates[i].Stored? ==> disk == 1)
  }

  ghost predicate InvStored(s: State)
  {
    forall i: nat :: StoredAt(s, i)
  }

  ghost predicate SomeLost(s: State)
  {
    s.writer.Reported? || exists i | 0 <= i < |s.fates| :: s.fates[i].Lost?
  }

  /** A failure stays in the error channel until the request takes it out. */
  ghost predicate InvSlot(s: State)
  {
    SomeLost(s) && !s.client.Finished? ==> s.slot.Some?
  }

  ghost predicate InvEnd(s: State)
  {
    && (s.client.Draining? ==> s.counter == 0)
    && (s.client == Finished(None) ==> forall i | 0 <= i < |s.fates| :: s.fates[i].Stored?)
  }

  ghost predicate Inv(s: State)
  {
    InvData(s) && InvCount(s) && InvQueue(s) && InvStored(s) && InvSlot(s) && InvEnd(s)
  }

  lemma {:induction false} HandledUpdate(fates: seq<Fate>, i: nat, fate: Fate)
    requires i < |fates| && (fates[i].Queued? || fates[i].InHand?)
    ensures Handled(fates[i := fate]) == Handled(fates) + if fate.Stored? || fate.Lost? then 1 else 0
  {
    var n := |fates| - 1;
    var f := fates[i := fate];
    if i < n {
      HandledUpdate(fates[..n], i, fate);
      assert f[..n] == fates[..n][i := fate];
    } else {
      assert f[..n] == fates[..n];
    }
  }

  lemma {:induction false} HandledBound(fates: seq<Fate>)
    ensures Handled(fates) <= |fates|
    ensures Handled(fates) == |fates| ==> forall i | 0 <= i < |fates| :: fates[i].Stored? || fates[i].Lost?
  {
    if fates != [] {
      HandledBound(fates[..|fates| - 1]);
      assert forall i | 0 <= i < |fates| - 1 :: fates[i] == fates[..|fates| - 1][i];
    }
  }

  lemma HandledSnoc(fates: seq<Fate>)
    ensures Handled(fates + [Queued]) == Handled(fates)
  {
    assert (fates + [Queued])[..|fates|] == fates;
  }

  lemma SurvivorsStep(points: seq<Point>, next: nat, dropped: Point -> bool)
    requires next < |points|
    ensures Survivors(points[..next + 1], dropped) ==
            Survivors(points[..next], dropped) + if dropped(points[next]) then [] else [points[next]]
  {
    assert points[..next + 1][..next] == points[..next];
  }

  lemma EmptyHasRoom(s: State, p: Point)
    requires CanWrite(0, |p.name|)
    ensures HasRoom(s, [], p)
  {
  }

  /** With the counter at zero every buffer sent has been handled, and one has been sent. */
  lemma AllHandled(s: State)
    requires InvCount(s) && s.counter == 0 && (s.client.Waiting? || s.client.Draining?)
    ensures s.sent != [] && forall i | 0 <= i < |s.fates| :: s.fates[i].Stored? || s.fates[i].Lost?
  {
    HandledBound(s.fates);
  }

  /** Only the request's own steps change what it has and where. */
  predicate ClientStep(step: Step)
  {
    || step.Obtain? || step.Skip? || step.Add? || step.SendFull? || step.Renew? || step.SendLast?
    || step.Release? || step.Wake? || step.Collect? || step.Cancel?
  }

  lemma WriterFrame(s: State, step: Step)
    requires Enabled(s, step) && !ClientStep(step)
    ensures
      var s' := Apply(s, step);
      && s'.points == s.points && s'.dropped == s.dropped && s'.client == s.client && s'.sent == s.sent
      && s'.obtained == s.obtained
      && |s'.fates| == |s.fates|
  {
    hide HasRoom, MustSend;
  }

  /** The request's steps leave the writer's side alone, but for sending. */
  lemma ClientFrame(s: State, step: Step)
    requires Enabled(s, step) && ClientStep(step) && !step.SendFull? && !step.SendLast?
    ensures
      var s' := Apply(s, step);
      && s'.queue == s.queue && s'.writer == s.writer && s'.held == s.held && s'.disk == s.disk
      && s'.sent == s.sent && s'.fates == s.fates
  {
    hide HasRoom, MustSend;
  }

  lemma DataFill(s: State, step: Step)
    requires InvData(s) && Enabled(s, step) && (step.Skip? || step.Add? || step.Renew?)
    ensures InvData(Apply(s, step))
  {
    SurvivorsStep(s.points, s.client.next, s.dropped);
    hide HasRoom, Survivors, Flatten, NamesFit;
    if step.Add? {
      Assoc(Flatten(s.sent), s.client.current, [s.points[s.client.next]]);
    }
  }

  lemma DataSend(s: State, step: Step)
    requires InvData(s) && Enabled(s, step) && (step.SendFull? || step.SendLast?)
    ensures InvData(Apply(s, step))
  {
    if step.SendFull? {
      EmptyHasRoom(s, s.points[s.client.next]);
    }
    hide HasRoom, Survivors, Flatten, NamesFit;
    FlattenSnoc(s.sent, s.client.current);
    assert s.points[..|s.points|] == s.points;
  }

  lemma DataStep(s: State, step: Step)
    requires InvData(s) && Enabled(s, step)
    ensures InvData(Apply(s, step))
  {
    if !ClientStep(step) {
      WriterFrame(s, step);
      hide Apply, Enabled, Survivors, Flatten, NamesFit;
    } else if step.Skip? || step.Add? || step.Renew? {
      DataFill(s, step);
    } else if step.SendFull? || step.SendLast? {
      DataSend(s, step);
    } else {
      hide HasRoom, MustSend, Survivors, NamesFit;
      assert s.points[..|s.points|] == s.points;
      assert Flatten([]) + [] == [] && Survivors([], s.dropped) == [] by { SurvivorsNone(s.dropped); }
      if step.Obtain? {
        assert s.points[..0] == [];
      }
    }
  }

  lemma SurvivorsNone(dropped: Point -> bool)
    ensures Survivors([], dropped) == []
  {
  }

  lemma CountSend(s: State, step: Step)
    requires InvData(s) && InvCount(s) && Enabled(s, step) && (step.SendFull? || step.SendLast?)
    ensures InvCount(Apply(s, step))
  {
    hide HasRoom, InvData, Handled;
    HandledSnoc(s.fates);
  }

  lemma CountTake(s: State)
    requires InvCount(s) && InvQueue(s) && Enabled(s, Take)
    ensures InvCount(Apply(s, Take))
  {
    TakeHead(s.queue);
    if s.queue[0].Ours? {
      assert QueuedAt(s, s.queue[0].id);
      HandledUpdate(s.fates, s.queue[0].id, InHand);
    }
    hide InvQueue, Handled;
  }

  lemma CountDone(s: State)
    requires InvCount(s) && InvQueue(s) && Enabled(s, Done)
    ensures InvCount(Apply(s, Done))
  {
    assert QueuedAt(s, s.writer.item.id);
    HandledUpdate(s.fates, s.writer.item.id, if s.writer.Confirming? then Stored else Lost);
    hide Handled;
  }

  lemma CountClient(s: State, step: Step)
    requires InvData(s) && InvCount(s) && Enabled(s, step)
    requires step.Obtain? || step.Skip? || step.Add? || step.Renew? || step.Release? || step.Wake? || step.Collect?
             || step.Cancel?
    ensures InvCount(Apply(s, step))
  {
    hide HasRoom, Survivors, Flatten, NamesFit, Handled;
    if step.Obtain? { HandledBound(s.fates); }
  }

  lemma CountWriter(s: State, step: Step)
    requires InvCount(s) && Enabled(s, step)
    requires step.Arrive? || step.WriteBuffer? || step.Flush? || step.Report? || step.IdleFlush? || step.Rotate?
    ensures InvCount(Apply(s, step))
  {
    hide HasRoom, Survivors, Flatten, NamesFit, Handled;
  }

  lemma CountStep(s: State, step: Step)
    requires InvData(s) && InvCount(s) && InvQueue(s) && Enabled(s, step)
    ensures InvCount(Apply(s, step))
  {
    hide Enabled, Apply, InvData, InvCount, InvQueue;
    if step.SendFull? || step.SendLast? {
      CountSend(s, step);
    } else if step.Take? {
      CountTake(s);
    } else if step.Done? {
      CountDone(s);
    } else if step.Arrive? || step.WriteBuffer? || step.Flush? || step.Report? || step.IdleFlush? || step.Rotate? {
      CountWriter(s, step);
    } else {
      CountClient(s, step);
    }
  }

  lemma TakeHead(queue: seq<Item>)
    requires queue != []
    ensures multiset(queue[1..]) == multiset(queue) - multiset{queue[0]} && queue[0] in multiset(queue)
  {
    assert queue == [queue[0]] + queue[1..];
  }

  lemma QueueTail(queue: seq<Item>, item: Item)
    ensures multiset(queue + [item]) == multiset(queue) + multiset{item}
  {
  }

  lemma QueuedTake(s: State, i: nat)
    requires QueuedAt(s, i) && Enabled(s, Take)
    ensures QueuedAt(Apply(s, Take), i)
  {
    TakeHead(s.queue);
    var s', item := Apply(s, Take), s.queue[0];
    assert multiset(s'.queue) == multiset(s.queue) - multiset{item} && s'.writer == Busy(item);
    assert |s'.fates| == |s.fates| && (i < |s.fates| ==> s'.fates[i] == if item == Ours(i) then InHand else s.fates[i]);
    hide Apply, Enabled;
  }

  lemma QueuedAppend(s: State, step: Step, i: nat)
    requires |s.fates| == |s.sent| && QueuedAt(s, i) && Enabled(s, step)
        && (step.SendFull? || step.SendLast? || step.Arrive?)
    ensures QueuedAt(Apply(s, step), i)
  {
    hide HasRoom, MustSend;
    var s', item := Apply(s, step), if step.Arrive? then Other else Ours(|s.sent|);
    QueueTail(s.queue, item);
    assert s'.queue == s.queue + [item] && s'.writer == s.writer;
    assert s'.fates == s.fates + if step.Arrive? then [] else [Queued];
    hide Apply, Enabled;
  }

  lemma QueuedDone(s: State, i: nat)
    requires QueuedAt(s, i) && Enabled(s, Done)
    ensures QueuedAt(Apply(s, Done), i)
  {
    var s', item := Apply(s, Done), s.writer.item;
    assert s'.queue == s.queue && s'.writer == Idle && |s'.fates| == |s.fates|;
    assert i < |s.fates| ==>
      s'.fates[i] == if item != Ours(i) then s.fates[i] else if s.writer.Confirming? then Stored else Lost;
    hide Apply, Enabled;
  }

  lemma OutputFrame(s: State, step: Step)
    requires Enabled(s, step) && (step.WriteBuffer? || step.Flush? || step.Report? || step.IdleFlush? || step.Rotate?)
    ensures
      var s' := Apply(s, step);
      && s'.queue == s.queue && s'.fates == s.fates && (s.writer.Idle? <==> step.IdleFlush? || step.Rotate?)
      && (s.writer.Idle? ==> s'.writer == s.writer)
      && (!s.writer.Idle? && s.writer.item.Ours? ==> !s'.writer.Idle? && s'.writer.item == s.writer.item)
      && (!s.writer.Idle? && s.writer.item.Other? && s.writer.Busy? ==> s'.writer.Idle?)
  {
  }

  /** What one step does to one buffer. */
  lemma QueuedStep(s: State, step: Step, i: nat)
    requires |s.fates| == |s.sent| && QueuedAt(s, i) && Enabled(s, step)
    requires !s.writer.Idle? && !s.writer.Busy? ==> s.writer.item.Ours?
    ensures QueuedAt(Apply(s, step), i)
  {
    hide *;
    if step.Take? {
      QueuedTake(s, i);
    } else if step.Done? {
      QueuedDone(s, i);
    } else if step.SendFull? || step.SendLast? || step.Arrive? {
      QueuedAppend(s, step, i);
    } else {
      QueuedElse(s, step, i);
    }
  }

  lemma QueuedElse(s: State, step: Step, i: nat)
    requires QueuedAt(s, i) && Enabled(s, step)
    requires !s.writer.Idle? && !s.writer.Busy? ==> s.writer.item.Ours?
    requires !step.Take? && !step.Done? && !step.SendFull? && !step.SendLast? && !step.Arrive?
    ensures QueuedAt(Apply(s, step), i)
  {
    if ClientStep(step) {
      ClientFrame(s, step);
    } else {
      OutputFrame(s, step);
    }
    hide Apply, Enabled;
  }

  lemma QueueStep(s: State, step: Step)
    requires InvCount(s) && InvQueue(s) && Enabled(s, step)
    ensures InvQueue(Apply(s, step))
  {
    forall i: nat
      ensures QueuedAt(Apply(s, step), i)
    {
      QueuedStep(s, step, i);
    }
    hide QueuedAt, HasRoom, InvCount;
  }

  lemma StoredOutput(s: State, step: Step, i: nat)
    requires QueuedAt(s, i) && StoredAt(s, i) && Enabled(s, step)
    requires step.WriteBuffer? || step.Flush? || step.Report? || step.IdleFlush? || step.Rotate?
    ensures StoredAt(Apply(s, step), i)
  {
  }

  lemma StoredMove(s: State, step: Step, i: nat)
    requires |s.fates| == |s.sent| && QueuedAt(s, i) && StoredAt(s, i) && Enabled(s, step)
    requires step.Take? || step.Done? || step.SendFull? || step.SendLast? || step.Arrive?
    ensures StoredAt(Apply(s, step), i)
  {
    hide HasRoom, MustSend;
    if step.Take? {
      TakeHead(s.queue);
    }
  }

  lemma StoredStepAt(s: State, step: Step, i: nat)
    requires |s.fates| == |s.sent| && QueuedAt(s, i) && StoredAt(s, i) && Enabled(s, step)
    ensures StoredAt(Apply(s, step), i)
  {
    if step.WriteBuffer? || step.Flush? || step.Report? || step.IdleFlush? || step.Rotate? {
      StoredOutput(s, step, i);
    } else if step.Take? || step.Done? || step.SendFull? || step.SendLast? || step.Arrive? {
      StoredMove(s, step, i);
    } else {
      ClientFrame(s, step);
      hide Enabled, Apply;
    }
  }

  lemma StoredStep(s: State, step: Step)
    requires InvCount(s) && InvQueue(s) && InvStored(s) && Enabled(s, step)
    ensures InvStored(Apply(s, step))
  {
    forall i: nat
      ensures StoredAt(Apply(s, step), i)
    {
      StoredStepAt(s, step, i);
    }
    hide Enabled, Apply, InvQueue, InvCount, StoredAt;
  }

  lemma SlotMove(s: State, step: Step)
    requires InvCount(s) && InvQueue(s) && InvSlot(s) && Enabled(s, step)
    requires step.Take? || step.Done? || step.SendFull? || step.SendLast?
    ensures InvSlot(Apply(s, step))
  {
    hide HasRoom, Handled;
    if step.Take? { TakeHead(s.queue); }
  }

  lemma SlotOutput(s: State, step: Step)
    requires InvSlot(s) && Enabled(s, step)
    requires step.Arrive? || step.WriteBuffer? || step.Flush? || step.Report? || step.IdleFlush? || step.Rotate?
    ensures InvSlot(Apply(s, step))
  {
    hide HasRoom;
  }

  lemma SlotClient(s: State, step: Step)
    requires InvSlot(s) && Enabled(s, step)
    requires step.Obtain? || step.Skip? || step.Add? || step.Renew? || step.Release? || step.Wake? || step.Collect?
             || step.Cancel?
    ensures InvSlot(Apply(s, step))
  {
    hide HasRoom;
  }

  lemma SlotStep(s: State, step: Step)
    requires InvCount(s) && InvQueue(s) && InvSlot(s) && Enabled(s, step)
    ensures InvSlot(Apply(s, step))
  {
    hide Enabled, Apply, InvCount, InvQueue, InvSlot;
    if step.Take? || step.Done? || step.SendFull? || step.SendLast? {
      SlotMove(s, step);
    } else if step.Arrive? || step.WriteBuffer? || step.Flush? || step.Report? || step.IdleFlush? || step.Rotate? {
      SlotOutput(s, step);
    } else {
      SlotClient(s, step);
    }
  }

  /** At the end nothing is in the channel or in the writer's hand any more. */
  lemma NothingLeft(s: State, i: nat)
    requires InvCount(s) && InvQueue(s) && InvEnd(s) && (s.client.Draining? || s.client == Finished(None))
    ensures Ours(i) !in multiset(s.queue) && !InHandOf(s.writer, i)
  {
    if s.client.Draining? {
      AllHandled(s);
    }
    assert QueuedAt(s, i);
  }

  lemma EndWriter(s: State, step: Step)
    requires InvCount(s) && InvQueue(s) && InvEnd(s) && Enabled(s, step) && !ClientStep(step)
    requires s.client.Draining? || s.client == Finished(None)
    ensures Apply(s, step).fates == s.fates && Apply(s, step).counter == s.counter
  {
    if step.Take? {
      TakeHead(s.queue);
      if s.queue[0].Ours? {
        NothingLeft(s, s.queue[0].id);
      }
    } else if step.Done? {
      NothingLeft(s, s.writer.item.id);
    }
    hide InvCount, InvQueue, InvEnd;
  }

  lemma EndStep(s: State, step: Step)
    requires InvCount(s) && InvQueue(s) && InvSlot(s) && InvEnd(s) && Enabled(s, step)
    ensures InvEnd(Apply(s, step))
  {
    if !ClientStep(step) {
      WriterFrame(s, step);
      if s.client.Draining? || s.client == Finished(None) {
        EndWriter(s, step);
      }
      hide Apply, Enabled;
    } else {
      if s.client.Draining? {
        AllHandled(s);
      }
      hide Handled, HasRoom, MustSend, InvQueue;
    }
  }

  lemma StepInv(s: State, step: Step)
    requires Inv(s) && Enabled(s, step)
    ensures Inv(Apply(s, step))
  {
    hide InvData, InvCount, InvQueue, InvStored, InvSlot, InvEnd, Apply, Enabled;
    DataStep(s, step);
    CountStep(s, step);
    QueueStep(s, step);
    StoredStep(s, step);
    SlotStep(s, step);
    EndStep(s, step);
  }

  lemma {:induction false} RunInv(s: State, steps: seq<Step>)
    requires Inv(s) && IsRun(s, steps)
    ensures Inv(After(s, steps))
    decreases |steps|
  {
    hide Inv, Enabled, Apply;
    if steps != [] {
      StepInv(s, steps[0]);
      RunInv(Apply(s, steps[0]), steps[1..]);
    }
  }

  lemma InitInv(s: State)
    requires Init(s)
    ensures Inv(s)
  {
    assert forall i: nat :: Ours(i) !in s.queue;
    assert forall i: nat :: multiset(s.queue)[Ours(i)] == 0;
  }

  /** The request and its rules never change. */
  lemma {:induction false} RunFrame(s: State, steps: seq<Step>)
    requires IsRun(s, steps)
    ensures After(s, steps).points == s.points && After(s, steps).dropped == s.dropped
    decreases |steps|
  {
    if steps != [] {
      assert Apply(s, steps[0]).points == s.points && Apply(s, steps[0]).dropped == s.dropped by { hide HasRoom; }
      hide Apply, Enabled;
      RunFrame(Apply(s, steps[0]), steps[1..]);
    }
  }

  /** If the request succeeds, the points that the rules do not drop are, in order, those of the
      buffers sent, and each of these buffers has been written and flushed, once. */
  lemma {:induction false} SuccessMeansStored(s0: State, steps: seq<Step>)
    requires Init(s0) && IsRun(s0, steps)
    ensures
      var s := After(s0, steps);
      s.client == Finished(None) ==>
        && Flatten(s.sent) == Survivors(s0.points, s0.dropped)
        && forall i | 0 <= i < |s.sent| :: s.disk[Ours(i)] == 1
  {
    InitInv(s0);
    RunInv(s0, steps);
    RunFrame(s0, steps);
    var s := After(s0, steps);
    hide IsRun, After, Init;
    if s.client == Finished(None) {
      forall i | 0 <= i < |s.sent|
        ensures s.disk[Ours(i)] == 1
      {
        assert StoredAt(s, i);
      }
    }
  }

  /** The counter never lies: it is the buffers obtained less those confirmed or failed. */
  lemma {:induction false} CounterIsExact(s0: State, steps: seq<Step>)
    requires Init(s0) && IsRun(s0, steps)
    ensures var s := After(s0, steps); 0 <= s.counter == s.obtained - Handled(s.fates) && |s.fates| == |s.sent|
  {
    InitInv(s0);
    RunInv(s0, steps);
    HandledBound(After(s0, steps).fates);
    hide IsRun, After, Init;
  }

  /** When the wait is over, a failure of any of the buffers is in the error channel, so that a
      request with a lost buffer never succeeds. */
  lemma {:induction false} FailureIsVisible(s0: State, steps: seq<Step>)
    requires Init(s0) && IsRun(s0, steps)
    ensures
      var s := After(s0, steps);
      (s.client.Waiting? || s.client.Draining?) && s.counter == 0 ==>
        ((exists i | 0 <= i < |s.fates| :: s.fates[i].Lost?) ==> s.slot.Some?)
  {
    InitInv(s0);
    RunInv(s0, steps);
    hide IsRun, After, Init;
  }

  /** Once the writer has handled what the request has sent, the wait ends exactly when at least one
      point has survived the rules: an empty buffer is given back without being counted off. */
  lemma {:induction false} WaitEnds(s0: State, steps: seq<Step>)
    requires Init(s0) && IsRun(s0, steps)
    ensures
      var s := After(s0, steps);
      s.client.Waiting? && (forall i | 0 <= i < |s.fates| :: s.fates[i].Stored? || s.fates[i].Lost?) ==>
        (Enabled(s, Wake) <==> Survivors(s0.points, s0.dropped) != [])
  {
    InitInv(s0);
    RunInv(s0, steps);
    RunFrame(s0, steps);
    var s := After(s0, steps);
    hide IsRun, After, Init;
    if forall i | 0 <= i < |s.fates| :: s.fates[i].Stored? || s.fates[i].Lost? {
      AllCounted(s.fates);
    }
    FlattenEmpty(s.sent);
  }

  lemma {:induction false} AllCounted(fates: seq<Fate>)
    requires forall i | 0 <= i < |fates| :: fates[i].Stored? || fates[i].Lost?
    ensures Handled(fates) == |fates|
  {
    if fates != [] {
      AllCounted(fates[..|fates| - 1]);
    }
  }

  lemma FlattenEmpty(groups: seq<seq<Point>>)
    requires forall i | 0 <= i < |groups| :: groups[i] != []
    ensures Flatten(groups) == [] <==> groups == []
  {
    if groups != [] {
      assert Flatten(groups) == groups[0] + Flatten(groups[1..]);
    }
  }

  lemma {:induction false} AllDropped(points: seq<Point>, dropped: Point -> bool, n: nat)
    requires Survivors(points, dropped) == [] && n <= |points|
    ensures Survivors(points[..n], dropped) == [] && (n < |points| ==> dropped(points[n]))
    decreases |points|
  {
    if n < |points| {
      var init := points[..|points| - 1];
      if n < |points| - 1 {
        AllDropped(init, dropped, n);
        assert init[..n] == points[..n];
      }
    } else {
      assert points[..n] == points;
    }
  }

  lemma NoEndStep(s: State, step: Step)
    requires Inv(s) && Enabled(s, step) && Survivors(s.points, s.dropped) == []
    requires !s.client.Draining? && !s.client.Finished?
    ensures !Apply(s, step).client.Draining? && !Apply(s, step).client.Finished?
    ensures Apply(s, step).points == s.points && Apply(s, step).dropped == s.dropped
  {
    hide InvQueue, InvStored, InvSlot;
    if !ClientStep(step) {
      WriterFrame(s, step);
      hide Apply, Enabled, Inv;
    } else if step.Wake? {
      AllHandled(s);
      FlattenEmpty(s.sent);
    } else {
      if s.client.Filling? {
        AllDropped(s.points, s.dropped, s.client.next);
        assert s.client.current == [];
      }
      hide HasRoom, Survivors, InvCount, InvData;
    }
  }

  lemma {:induction false} NoEnd(s: State, steps: seq<Step>)
    requires Inv(s) && IsRun(s, steps) && Survivors(s.points, s.dropped) == []
    requires !s.client.Draining? && !s.client.Finished?
    ensures !After(s, steps).client.Finished?
    decreases |steps|
  {
    hide Inv, Enabled, Apply, Survivors;
    if steps != [] {
      StepInv(s, steps[0]);
      NoEndStep(s, steps[0]);
      NoEnd(Apply(s, steps[0]), steps[1..]);
    }
  }

  /** A request none of whose points survives waits for ever. */
  lemma {:induction false} WithoutSurvivorsNoEnd(s0: State, steps: seq<Step>)
    requires Init(s0) && IsRun(s0, steps) && Survivors(s0.points, s0.dropped) == []
    ensures !After(s0, steps).client.Finished?
  {
    InitInv(s0);
    NoEnd(s0, steps);
  }
}

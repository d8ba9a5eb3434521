/** What a confirmed store gets done: it ends, it succeeds exactly when nothing was lost, and its
    buffers are as full as they can be and no fuller. */
module ConfirmedStoreProgress {
  import opened ByteStrings
  import opened RowBinary
  import opened ConfirmedStore
  import opened ConfirmedStoreSafety

  /* ---- success ---- */

  ghost predicate Kept(s: State)
  {
    forall i | 0 <= i < |s.fates| :: !s.fates[i].Lost?
  }

  /** An error that is not a cancellation speaks of a lost buffer. */
  ghost predicate ErrorsAreReal(s: State)
  {
    && (s.slot.Some? ==> s.slot == Some(WriteError) && SomeLost(s))
    && (s.client.Finished? && s.client.error == Some(WriteError) ==> !Kept(s))
  }

  lemma TakeKeepsLost(s: State)
    requires InvQueue(s) && Enabled(s, Take)
    ensures !Kept(s) ==> !Kept(Apply(s, Take))
  {
    TakeHead(s.queue);
    var s', item := Apply(s, Take), s.queue[0];
    assert item.Ours? && item.id < |s.fates| ==> s.fates[item.id].Queued? by {
      if item.Ours? { assert QueuedAt(s, item.id); }
    }
    hide InvQueue, Enabled;
    if i :| 0 <= i < |s.fates| && s.fates[i].Lost? {
      assert s'.fates[i].Lost?;
    }
  }

  lemma DoneKeepsLost(s: State)
    requires InvQueue(s) && Enabled(s, Done)
    ensures !Kept(s) || s.writer.Reported? ==> !Kept(Apply(s, Done))
  {
    var s', item := Apply(s, Done), s.writer.item;
    assert QueuedAt(s, item.id);
    hide InvQueue, Enabled;
    assert item.id < |s.fates| && s.fates[item.id].InHand?;
    if s.writer.Reported? {
      assert s'.fates[item.id].Lost?;
    } else if i :| 0 <= i < |s.fates| && s.fates[i].Lost? {
      assert s'.fates[i].Lost?;
    }
  }

  lemma SendKeepsLost(s: State, step: Step)
    requires Enabled(s, step) && (step.SendFull? || step.SendLast?)
    ensures !Kept(s) ==> !Kept(Apply(s, step))
  {
    hide HasRoom;
    var s' := Apply(s, step);
    if i :| 0 <= i < |s.fates| && s.fates[i].Lost? {
      assert s'.fates[i].Lost?;
    }
  }

  lemma OtherKeepsLost(s: State, step: Step)
    requires Enabled(s, step) && !step.Take? && !step.Done? && !step.SendFull? && !step.SendLast?
    ensures Apply(s, step).fates == s.fates && (s.writer.Reported? ==> Apply(s, step).writer.Reported?)
  {
    hide HasRoom;
  }

  lemma LostStays(s: State, step: Step)
    requires InvQueue(s) && Enabled(s, step)
    ensures !Kept(s) ==> !Kept(Apply(s, step))
    ensures SomeLost(s) ==> SomeLost(Apply(s, step))
  {
    assert SomeLost(s) <==> s.writer.Reported? || !Kept(s);
    assert SomeLost(Apply(s, step)) <==> Apply(s, step).writer.Reported? || !Kept(Apply(s, step));
    if step.Take? {
      TakeKeepsLost(s);
      assert !s.writer.Reported?;
    } else if step.Done? {
      DoneKeepsLost(s);
    } else if step.SendFull? || step.SendLast? {
      SendKeepsLost(s, step);
      assert Apply(s, step).writer == s.writer by { hide HasRoom; }
    } else {
      OtherKeepsLost(s, step);
    }
    hide Enabled, Apply, InvQueue, SomeLost;
  }

  /** With the counter at zero the writer holds nothing of the request. */
  lemma CollectedLost(s: State)
    requires InvCount(s) && InvQueue(s) && InvEnd(s) && s.client.Draining? && SomeLost(s)
    ensures !Kept(s)
  {
    if s.writer.Reported? {
      NothingLeft(s, s.writer.item.id);
    }
  }

  lemma ErrorsStep(s: State, step: Step)
    requires Inv(s) && Enabled(s, step) && ErrorsAreReal(s)
    ensures ErrorsAreReal(Apply(s, step))
  {
    LostStays(s, step);
    if step.Collect? && s.slot.Some? { CollectedLost(s); }
    hide Inv, SomeLost, Kept, HasRoom;
    if step.Report? { assert SomeLost(Apply(s, step)) by { ReportLoses(s); } }
  }

  lemma ReportLoses(s: State)
    requires Enabled(s, Report)
    ensures SomeLost(Apply(s, Report))
  {
  }

  lemma {:induction false} RunErrors(s: State, steps: seq<Step>)
    requires Inv(s) && IsRun(s, steps) && ErrorsAreReal(s)
    ensures Inv(After(s, steps)) && ErrorsAreReal(After(s, steps))
    decreases |steps|
  {
    hide Inv, Enabled, Apply, ErrorsAreReal;
    if steps != [] {
      StepInv(s, steps[0]);
      ErrorsStep(s, steps[0]);
      RunErrors(Apply(s, steps[0]), steps[1..]);
    }
  }

  /** A request that was not cancelled succeeds if and only if every buffer it sent was stored. */
  lemma {:induction false} SucceedsIfStored(s0: State, steps: seq<Step>)
    requires Init(s0) && IsRun(s0, steps)
    ensures
      var s := After(s0, steps);
      s.client.Finished? && s.client.error != Some(Canceled) ==>
        (s.client.error == None <==> forall i | 0 <= i < |s.fates| :: s.fates[i].Stored?)
  {
    InitInv(s0);
    RunErrors(s0, steps);
    var s := After(s0, steps);
    if s.client.Finished? { ErrorKinds(s); }
    assert InvEnd(s);
    hide Inv, IsRun, After, Init;
  }

  lemma ErrorKinds(s: State)
    requires ErrorsAreReal(s) && s.client.Finished?
    ensures s.client.error == None || s.client.error == Some(Canceled) || s.client.error == Some(WriteError)
    ensures s.client.error == Some(WriteError) ==> exists i :: 0 <= i < |s.fates| && s.fates[i].Lost?
  {
    if s.client.error.Some? {
      match s.client.error.value
      case WriteError =>
      case Canceled =>
    }
  }

  /** The writes and flushes work, and the request is not cancelled. */
  predicate Works(step: Step)
  {
    step != WriteBuffer(false) && step != Flush(false) && step != Cancel
  }

  ghost predicate AllWell(s: State)
  {
    && !s.writer.Failing? && !s.writer.Reported? && Kept(s) && s.slot == None
    && (s.client.Finished? ==> s.client.error == None)
  }

  lemma WorksStep(s: State, step: Step)
    requires Enabled(s, step) && AllWell(s) && Works(step)
    ensures AllWell(Apply(s, step))
  {
    hide HasRoom;
  }

  lemma {:induction false} RunWorks(s: State, steps: seq<Step>)
    requires IsRun(s, steps) && AllWell(s) && forall step | step in steps :: Works(step)
    ensures AllWell(After(s, steps))
    decreases |steps|
  {
    hide Enabled, Apply, AllWell;
    if steps != [] {
      assert steps[0] in steps && forall step | step in steps[1..] :: step in steps;
      WorksStep(s, steps[0]);
      RunWorks(Apply(s, steps[0]), steps[1..]);
    }
  }

  /** When every write and flush works and nothing is cancelled, the request can only end in success. */
  lemma {:induction false} WorkingRunSucceeds(s0: State, steps: seq<Step>)
    requires Init(s0) && IsRun(s0, steps) && forall step | step in steps :: Works(step)
    ensures var s := After(s0, steps); s.client.Finished? ==> s.client.error == None
  {
    assert AllWell(s0);
    RunWorks(s0, steps);
  }

  /* ---- how full the buffers are ---- */

  function Size(s: State, ps: seq<Point>): nat
  {
    |EncodeAll(ps, s.toDays)|
  }

  /** The next point had no room in the buffer. */
  predicate Full(s: State, ps: seq<Point>, next: Point)
  {
    BUFFER_SIZE - Size(s, ps) <= |next.name| + 23
  }

  ghost predicate Filled(s: State)
  {
    && (forall i | 0 <= i < |s.sent| :: Size(s, s.sent[i]) <= BUFFER_SIZE && s.sent[i] != [])
    && (forall i | 0 <= i < |s.sent| - 1 :: Full(s, s.sent[i], s.sent[i + 1][0]))
    && match s.client
       case Starting => s.sent == []
       case Filling(_, current) =>
         && Size(s, current) <= BUFFER_SIZE && (current == [] ==> s.sent == [])
         && (s.sent != [] && current != [] ==> Full(s, s.sent[|s.sent| - 1], current[0]))
       case Renewing(next) => s.sent != [] && next < |s.points| && Full(s, s.sent[|s.sent| - 1], s.points[next])
       case _ => true
  }

  lemma AddFits(s: State, current: seq<Point>, p: Point)
    requires HasRoom(s, current, p)
    ensures Size(s, current + [p]) <= BUFFER_SIZE
  {
    EncodeAllAppend(current, [p], s.toDays);
    assert [p][1..] == [] && EncodeAll([p], s.toDays) == Encode(p, s.toDays) + [];
    EncodeFits(Size(s, current), p, s.toDays);
  }

  lemma SendFills(s: State, step: Step)
    requires Enabled(s, step) && Filled(s) && NamesFit(s.points) && (step.SendFull? || step.SendLast?)
    ensures Filled(Apply(s, step))
  {
    if step.SendFull? {
      EmptyHasRoom(s, s.points[s.client.next]);
      assert s.client.current != [];
    }
    hide EncodeAll;
  }

  lemma AddFills(s: State, step: Step)
    requires Enabled(s, step) && Filled(s) && NamesFit(s.points) && (step.Add? || step.Renew?)
    ensures Filled(Apply(s, step))
  {
    var p := s.points[s.client.next];
    if step.Add? {
      AddFits(s, s.client.current, p);
    } else {
      EmptyHasRoom(s, p);
      AddFits(s, [], p);
      assert [] + [p] == [p];
    }
    hide EncodeAll, NamesFit, HasRoom;
  }

  lemma ElseFills(s: State, step: Step)
    requires Enabled(s, step) && Filled(s)
    requires !step.SendFull? && !step.SendLast? && !step.Add? && !step.Renew?
    ensures Filled(Apply(s, step))
  {
    var s' := Apply(s, step);
    assert Size(s, []) == 0;
    if ClientStep(step) {
      ClientFrame(s, step);
    } else {
      WriterFrame(s, step);
    }
    assert s'.points == s.points && s'.toDays == s.toDays by { hide HasRoom, Filled; }
    hide EncodeAll, HasRoom, Full;
    assert forall ps | true :: Size(s', ps) == Size(s, ps);
  }

  lemma FillsStep(s: State, step: Step)
    requires Enabled(s, step) && Filled(s) && NamesFit(s.points)
    ensures Filled(Apply(s, step)) && Apply(s, step).points == s.points
  {
    assert Apply(s, step).points == s.points by { hide HasRoom, Filled; }
    hide Filled, NamesFit, Apply, HasRoom, Enabled;
    if step.SendFull? || step.SendLast? {
      SendFills(s, step);
    } else if step.Add? || step.Renew? {
      AddFills(s, step);
    } else {
      ElseFills(s, step);
    }
  }

  lemma {:induction false} RunFills(s: State, steps: seq<Step>)
    requires IsRun(s, steps) && Filled(s) && NamesFit(s.points)
    ensures Filled(After(s, steps))
    decreases |steps|
  {
    hide Enabled, Apply, Filled, NamesFit;
    if steps != [] {
      FillsStep(s, steps[0]);
      RunFills(Apply(s, steps[0]), steps[1..]);
    }
  }

  /** Every buffer sent fits its size, and is sent before the last point only when the next point has
      no room in it: no more than a length, a name and 23 bytes are left. */
  lemma {:induction false} BuffersAreFull(s0: State, steps: seq<Step>)
    requires Init(s0) && IsRun(s0, steps)
    ensures
      var s := After(s0, steps);
      && (forall i | 0 <= i < |s.sent| :: s.sent[i] != [] && |EncodeAll(s.sent[i], s.toDays)| <= 524288)
      && (forall i | 0 <= i < |s.sent| - 1 ::
            524288 <= |EncodeAll(s.sent[i], s.toDays)| + |s.sent[i + 1][0].name| + 23)
  {
    assert Filled(s0);
    RunFills(s0, steps);
    var s := After(s0, steps);
    hide IsRun, After, EncodeAll;
    assert forall i | 0 <= i < |s.sent| - 1 :: Full(s, s.sent[i], s.sent[i + 1][0]);
  }

  /* ---- the request ends ---- */

  predicate Ranked(s: State)
  {
    s.client.Filling? || s.client.Renewing? ==> s.client.next <= |s.points|
  }

  /** What is left to do for the request, and for the items in the channel and in the writer's hand. */
  function ClientRank(s: State): nat
    requires Ranked(s)
  {
    match s.client
    case Starting => 20 * |s.points| + 13
    case Filling(next, _) => 20 * (|s.points| - next) + 12
    case Renewing(next) => 20 * (|s.points| - next) + 5
    case Waiting => 3
    case Draining => 2
    case Finished(_) => 0
  }

  function StageRank(w: WriterStage): nat
  {
    match w
    case Idle => 0
    case Busy(_) => 5
    case Flushing(_) => 4
    case Failing(_) => 3
    case Confirming(_) => 2
    case Reported(_) => 2
  }

  function Rank(s: State): nat
    requires Ranked(s)
  {
    ClientRank(s) + 6 * |s.queue| + StageRank(s.writer)
  }

  /** Steps that are nobody's work: another request's buffer arrives, or the writer flushes idly or
      changes files. */
  predicate Aside(step: Step)
  {
    step.Arrive? || step.IdleFlush? || step.Rotate?
  }

  lemma ClientLowersRank(s: State, step: Step)
    requires Enabled(s, step) && Ranked(s) && ClientStep(step)
    ensures var s' := Apply(s, step); Ranked(s') && Rank(s') < Rank(s)
  {
    hide HasRoom, MustSend;
    SendsFrom(s, step);
  }

  lemma SendsFrom(s: State, step: Step)
    requires Enabled(s, step)
    ensures step.SendFull? ==> s.client.Filling? && s.client.next < |s.points|
    ensures step.SendLast? || step.Cancel? ==> s.client.Filling?
  {
    hide HasRoom;
  }

  lemma WriterLowersRank(s: State, step: Step)
    requires Enabled(s, step) && Ranked(s) && !ClientStep(step)
    ensures
      var s' := Apply(s, step);
      Ranked(s') &&
      if step.Arrive? then Rank(s') == Rank(s) + 6 else if Aside(step) then Rank(s') == Rank(s) else Rank(s') < Rank(s)
  {
    hide HasRoom, MustSend;
    WriterFrame(s, step);
  }

  lemma StepLowersRank(s: State, step: Step)
    requires Enabled(s, step) && Ranked(s)
    ensures
      var s' := Apply(s, step);
      Ranked(s') &&
      if step.Arrive? then Rank(s') == Rank(s) + 6 else if Aside(step) then Rank(s') == Rank(s) else Rank(s') < Rank(s)
  {
    hide Apply, Enabled, Rank, Ranked;
    if ClientStep(step) { ClientLowersRank(s, step); } else { WriterLowersRank(s, step); }
  }

  function Arrivals(steps: seq<Step>): nat
  {
    if steps == [] then 0 else (if steps[0].Arrive? then 1 else 0) + Arrivals(steps[1..])
  }

  function Working(steps: seq<Step>): nat
  {
    if steps == [] then 0 else (if Aside(steps[0]) then 0 else 1) + Working(steps[1..])
  }

  lemma {:induction false} RunLowersRank(s: State, steps: seq<Step>)
    requires IsRun(s, steps) && Ranked(s)
    ensures
      var s' := After(s, steps);
      Ranked(s') && Working(steps) + Rank(s') <= Rank(s) + 6 * Arrivals(steps)
    decreases |steps|
  {
    hide Enabled, Apply, Rank, Ranked;
    if steps != [] {
      StepLowersRank(s, steps[0]);
      RunLowersRank(Apply(s, steps[0]), steps[1..]);
    }
  }

  /** In any run the request and the writer take only so many steps: at most twenty for each point, six
      for each buffer already in the channel or arriving, and thirteen more. */
  lemma {:induction false} WorkIsBounded(s0: State, steps: seq<Step>)
    requires Init(s0) && IsRun(s0, steps)
    ensures Working(steps) <= 20 * |s0.points| + 13 + 6 * (|s0.queue| + Arrivals(steps))
  {
    RunLowersRank(s0, steps);
    hide IsRun, After;
  }

  /** What comes next: the writer's work if it has some, and otherwise the request's. */
  function NextStep(s: State, ok: bool): Step
  {
    match s.writer
    case Busy(_) => WriteBuffer(ok)
    case Flushing(_) => Flush(ok)
    case Confirming(_) => Done
    case Failing(_) => Report
    case Reported(_) => Done
    case Idle =>
      if s.queue != [] then Take
      else
        match s.client
        case Starting => Obtain
        case Filling(next, current) =>
          if next >= |s.points| then (if current == [] then Release else SendLast)
          else if s.dropped(s.points[next]) then Skip
          else if HasRoom(s, current, s.points[next]) then Add
          else SendFull
        case Renewing(_) => Renew
        case Waiting => Wake
        case Draining => Collect
        case Finished(_) => Collect
  }

  lemma NothingQueued(s: State)
    requires InvCount(s) && InvQueue(s) && s.queue == [] && s.writer.Idle?
    ensures forall i | 0 <= i < |s.fates| :: s.fates[i].Stored? || s.fates[i].Lost?
  {
    forall i | 0 <= i < |s.fates|
      ensures s.fates[i].Stored? || s.fates[i].Lost?
    {
      assert QueuedAt(s, i);
    }
  }

  /** Until it is finished a request that has a surviving point is never stuck, whatever the outcome of
      the writes: the writer can go on, or the request itself can. */
  lemma {:induction false} NeverStuck(s0: State, steps: seq<Step>, ok: bool)
    requires Init(s0) && IsRun(s0, steps) && Survivors(s0.points, s0.dropped) != []
    ensures
      var s := After(s0, steps);
      !s.client.Finished? ==> Enabled(s, NextStep(s, ok)) && !Aside(NextStep(s, ok)) && NextStep(s, ok) != Cancel
  {
    InitInv(s0);
    RunInv(s0, steps);
    WaitEnds(s0, steps);
    var s := After(s0, steps);
    hide IsRun, After, Init;
    if !s.client.Finished? { GoesOn(s, ok); }
  }

  lemma GoesOn(s: State, ok: bool)
    requires Inv(s) && !s.client.Finished?
    requires s.client.Waiting? && (forall i | 0 <= i < |s.fates| :: s.fates[i].Stored? || s.fates[i].Lost?) ==>
               Enabled(s, Wake)
    ensures Enabled(s, NextStep(s, ok)) && !Aside(NextStep(s, ok)) && NextStep(s, ok) != Cancel
  {
    if s.queue == [] && s.writer.Idle? { NothingQueued(s); }
    assert s.client.Filling? || s.client.Renewing? ==> s.client.next <= |s.points|;
    assert s.client.Renewing? ==> s.client.next < |s.points|;
    hide Inv, HasRoom;
  }

  /* ---- where the written buffers are ---- */

  function OneWritten(s: State, step: Step): multiset<Item>
  {
    if step == WriteBuffer(true) && s.writer.Busy? then multiset{s.writer.item} else multiset{}
  }

  function OneDropped(s: State, step: Step): multiset<Item>
  {
    if step == Rotate(false) then s.held else multiset{}
  }

  /** The buffers that a run has written to the output. */
  ghost function WrittenOut(s: State, steps: seq<Step>): multiset<Item>
    requires IsRun(s, steps)
    decreases |steps|
  {
    if steps == [] then multiset{} else OneWritten(s, steps[0]) + WrittenOut(Apply(s, steps[0]), steps[1..])
  }

  /** What the output held when a change of files failed to flush it. */
  ghost function Dropped(s: State, steps: seq<Step>): multiset<Item>
    requires IsRun(s, steps)
    decreases |steps|
  {
    if steps == [] then multiset{} else OneDropped(s, steps[0]) + Dropped(Apply(s, steps[0]), steps[1..])
  }

  lemma StepAccounts(s: State, step: Step)
    requires Enabled(s, step)
    ensures
      var s' := Apply(s, step);
      s'.held + s'.disk + OneDropped(s, step) == s.held + s.disk + OneWritten(s, step)
  {
    hide HasRoom, MustSend;
    if ClientStep(step) && !step.SendFull? && !step.SendLast? { ClientFrame(s, step); }
  }

  lemma AddedUp(
    x: multiset<Item>, y: multiset<Item>, z: multiset<Item>,
    w: multiset<Item>, ws: multiset<Item>, d: multiset<Item>, ds: multiset<Item>)
    requires y + d == x + w && z + ds == y + ws
    ensures z + (d + ds) == x + (w + ws)
  {
    assert z + (d + ds) == (z + ds) + d;
    assert y + ws + d == y + d + ws;
  }

  lemma {:induction false} RunAccounts(s: State, steps: seq<Step>)
    requires IsRun(s, steps)
    ensures
      var s' := After(s, steps);
      s'.held + s'.disk + Dropped(s, steps) == s.held + s.disk + WrittenOut(s, steps)
    decreases |steps|
  {
    hide Enabled, Apply;
    if steps != [] {
      var s1 := Apply(s, steps[0]);
      StepAccounts(s, steps[0]);
      RunAccounts(s1, steps[1..]);
      AddedUp(s.held + s.disk, s1.held + s1.disk, After(s, steps).held + After(s, steps).disk,
              OneWritten(s, steps[0]), WrittenOut(s1, steps[1..]), OneDropped(s, steps[0]), Dropped(s1, steps[1..]));
    }
  }

  /** Every buffer ever written, this request's or another's, is held by the output, on disk, or was
      dropped by a change of files that failed; and right after a flush that works it is not held. */
  lemma {:induction false} WrittenIsAccounted(s: State, steps: seq<Step>, flush: Step)
    requires IsRun(s, steps) && Enabled(After(s, steps), flush)
    requires flush == IdleFlush(true) || flush == Flush(true) || flush == Rotate(true)
    ensures
      var before, after := After(s, steps), Apply(After(s, steps), flush);
      && before.held + before.disk + Dropped(s, steps) == s.held + s.disk + WrittenOut(s, steps)
      && after.held == multiset{} && after.disk + Dropped(s, steps) == s.held + s.disk + WrittenOut(s, steps)
  {
    RunAccounts(s, steps);
    StepAccounts(After(s, steps), flush);
    FlushEmpties(After(s, steps), flush);
    hide IsRun, After, Enabled, Apply;
  }

  lemma FlushEmpties(s: State, flush: Step)
    requires Enabled(s, flush) && (flush == IdleFlush(true) || flush == Flush(true) || flush == Rotate(true))
    ensures Apply(s, flush).held == multiset{}
  {
    hide HasRoom, MustSend;
  }

  /** A request can be cancelled exactly while it waits to send. */
  lemma CancelRacesSend(s: State)
    ensures Enabled(s, Cancel) <==> Enabled(s, SendFull) || Enabled(s, SendLast)
  {
    hide HasRoom;
  }
}

/** What the chunk life cycle gets done, and not only what it keeps safe: every closed file is linked,
    every scanned file is uploaded, every finished file is removed, and what was written is there. */
module ChunkProgress {
  import opened ByteStrings
  import opened ChunkLifecycle
  import opened ChunkInvariant
  import opened ChunkSafety
  import Q = UploadQueue

  /* ---- every closed file is linked ---- */

  /** The file is linked to table `j`, finished there, or a goroutine is still on its way there. */
  predicate Linking(s: State, c: Name, j: nat)
    requires j < |s.tables|
  {
    || (c, s.tables[j]) in s.link || (c, s.tables[j]) in s.done
    || (c in s.linkers && s.linkers[c].table <= j)
  }

  ghost predicate LinkingAll(s: State, c: Name)
  {
    forall j | 0 <= j < |s.tables| :: Linking(s, c, j)
  }

  /** The file that the writer has not published yet. */
  predicate Unpublished(s: State, c: Name)
  {
    (s.writer.Writing? || s.writer.Closed?) && s.writer.file == c
  }

  /** Files on disk whose turn has not come: after a crash, or in the listing of a start. */
  predicate NotYet(s: State, c: Name)
  {
    || Unpublished(s, c)
    || (s.writer.Down? && s.crashes > 0)
    || (s.writer.LinkAll? && c in s.writer.rest)
  }

  ghost predicate ClosedLinked(s: State)
  {
    forall c | c in s.root && !NotYet(s, c) :: LinkingAll(s, c)
  }

  predicate LinksGoWell(step: Step)
  {
    !step.LinkFail? && !step.StopWriter?
  }

  /** While files are linked one after the other, the invariant says it already. */
  lemma StartingLinks(s: State)
    requires Inv(s) && (s.writer.LinkAll? || s.writer.FirstCleanup?)
    ensures ClosedLinked(s)
  {
    assert InvStart(s.tables, s.root, s.link, s.done, s.writer, s.linkers, s.cleaner);
    hide Inv;
  }

  lemma LinkStepLinks(s: State, f: Name, c: Name)
    requires f in s.linkers && LinkingAll(s, c)
    ensures LinkingAll(ApplyLink(s, f), c)
  {
    var s' := ApplyLink(s, f);
    forall j | 0 <= j < |s.tables|
      ensures Linking(s', c, j)
    {
      assert Linking(s, c, j);
    }
  }

  /** The cleaner takes away links and finished files only of data that is gone, or links that were
      renamed meanwhile. */
  lemma CleanStepLinks(s: State, c: Name)
    requires Inv(s) && Enabled(s, CleanStep) && c in s.root && LinkingAll(s, c)
    ensures c in ApplyClean(s).root ==> LinkingAll(ApplyClean(s), c)
  {
    assert InvCleaner(s.tables, s.used, s.root, s.content.Keys, s.link, s.done, s.cleaner);
    hide Inv;
    var s' := ApplyClean(s);
    assert s'.tables == s.tables && s'.linkers == s.linkers by { CleanStepRoot(s); CleanStepFrame(s); }
    if c in s'.root {
      forall j | 0 <= j < |s.tables|
        ensures Linking(s', c, j)
      {
        assert Linking(s, c, j);
        CleanStepKeepsFiles(s, c, s.tables[j]);
      }
    }
  }

  lemma CleanStepLinkers(s: State)
    requires Enabled(s, CleanStep)
    ensures ApplyClean(s).linkers == s.linkers
  {
    hide Enabled, Resolves, Exists;
    match s.cleaner
    case Roots(_) =>
    case Checking(_, _, _) =>
    case Unlinking(_, _, _) =>
    case Entries(_, _) =>
    case _ =>
  }

  lemma CleanStepQueues(s: State)
    requires Enabled(s, CleanStep)
    ensures ApplyClean(s).up == s.up
  {
    hide Enabled, Resolves, Exists;
    match s.cleaner
    case Roots(_) =>
    case Checking(_, _, _) =>
    case Unlinking(_, _, _) =>
    case Entries(_, _) =>
    case _ =>
  }

  lemma CleanStepDelivered(s: State)
    requires Enabled(s, CleanStep)
    ensures ApplyClean(s).delivered == s.delivered
  {
    hide Enabled, Resolves, Exists;
    match s.cleaner
    case Roots(_) =>
    case Checking(_, _, _) =>
    case Unlinking(_, _, _) =>
    case Entries(_, _) =>
    case _ =>
  }

  lemma CleanStepFrame(s: State)
    requires Enabled(s, CleanStep)
    ensures var s' := ApplyClean(s); s'.linkers == s.linkers && s'.up == s.up && s'.delivered == s.delivered
  {
    hide ApplyClean, Enabled;
    CleanStepLinkers(s);
    CleanStepQueues(s);
    CleanStepDelivered(s);
  }

  lemma CleanStepWriter(s: State)
    requires Enabled(s, CleanStep)
    ensures
      var s' := ApplyClean(s);
      s'.crashes == s.crashes && (s'.writer == s.writer || (s.writer.FirstCleanup? && s'.writer.NoFile?))
  {
    hide Enabled, Resolves, Exists;
    match s.cleaner
    case Roots(_) =>
    case Checking(_, _, _) =>
    case Unlinking(_, _, _) =>
    case Entries(_, _) =>
    case _ =>
  }

  lemma CleanStepRoot(s: State)
    requires Enabled(s, CleanStep)
    ensures ApplyClean(s).root <= s.root && ApplyClean(s).content == s.content && ApplyClean(s).tables == s.tables
  {
    hide Enabled, Resolves, Exists;
    match s.cleaner
    case Roots(_) =>
    case Checking(_, _, _) =>
    case Unlinking(_, _, _) =>
    case Entries(_, _) =>
    case _ =>
  }

  lemma CleanStepKeepsFiles(s: State, c: Name, t: Table)
    requires Enabled(s, CleanStep) && c in s.root
    requires InvCleaner(s.tables, s.used, s.root, s.content.Keys, s.link, s.done, s.cleaner)
    ensures
      var s' := ApplyClean(s);
      && ((c, t) in s.done ==> (c, t) in s'.done)
      && ((c, t) in s.link ==> (c, t) in s'.link || (c, t) in s'.done)
  {
    hide ListedOk, AllListedOk;
  }

  lemma UploadStepFrame(s: State, t: Table, step: Q.Step)
    requires t in s.up && Q.Enabled(s.up[t], step)
    ensures
      var s' := ApplyUpload(s, t, step);
      && s'.linkers == s.linkers && s'.root == s.root && s'.content == s.content && s'.tables == s.tables
      && s'.writer == s.writer && s'.crashes == s.crashes && s'.cleaner == s.cleaner
      && s.link <= s'.link + s'.done && s.done <= s'.done && s'.link <= s.link
  {
    hide Q.Apply, Q.Enabled;
  }

  lemma UploadStepLinks(s: State, t: Table, step: Q.Step, c: Name)
    requires t in s.up && Q.Enabled(s.up[t], step) && LinkingAll(s, c)
    ensures LinkingAll(ApplyUpload(s, t, step), c)
  {
    UploadStepFrame(s, t, step);
    var s' := ApplyUpload(s, t, step);
    hide ApplyUpload, Q.Enabled;
    forall j | 0 <= j < |s.tables|
      ensures Linking(s', c, j)
    {
      assert Linking(s, c, j);
    }
  }

  lemma SameLinks(s: State, s': State, c: Name)
    requires s'.tables == s.tables && s.link <= s'.link && s.done <= s'.done && LinkingAll(s, c)
    requires c in s.linkers ==> c in s'.linkers && s'.linkers[c] == s.linkers[c]
    ensures LinkingAll(s', c)
  {
    forall j | 0 <= j < |s.tables|
      ensures Linking(s', c, j)
    {
      assert Linking(s, c, j);
    }
  }

  /** A writer's step, once it runs: what was linked is left alone, and the published file is handed
      to a goroutine. */
  lemma WriterStepLinks(s: State, step: Step, c: Name)
    requires Inv(s) && Enabled(s, step) && ClosedLinked(s)
    requires step.Create? || step.Write? || step.Rotate? || step.Publish? || step.CleanBegin? || step.CleanList?
             || step.CleanFail?
    requires var s' := Apply(s, step); c in s'.root && !NotYet(s', c) && !s'.writer.LinkAll?
    ensures LinkingAll(Apply(s, step), c)
  {
    assert InvUnpublished(s.writer, s.linkers, s.link, s.done, s.delivered);
    hide Inv;
    if step.Publish? && c == s.writer.file {
      assert forall j | 0 <= j < |s.tables| :: Linking(Apply(s, step), c, j);
    } else {
      assert c in s.root && !NotYet(s, c);
      SameLinks(s, Apply(s, step), c);
    }
  }

  lemma StepLinksFile(s: State, step: Step, c: Name)
    requires Inv(s) && Enabled(s, step) && ClosedLinked(s) && LinksGoWell(step)
    requires var s' := Apply(s, step); c in s'.root && !NotYet(s', c) && !s'.writer.LinkAll? && !s'.writer.FirstCleanup?
    ensures LinkingAll(Apply(s, step), c)
  {
    hide Inv, ClosedLinked, LinkingAll, ApplyLink, ApplyClean, ApplyUpload;
    match step
    case LinkStep(f) =>
      LinkStepFrame(s, f);
      UseClosed(s, c);
      LinkStepLinks(s, f, c);
    case CleanStep =>
      CleanStepRoot(s);
      CleanStepWriter(s);
      UseClosed(s, c);
      CleanStepLinks(s, c);
    case Upload(t, ustep) =>
      UploadStepFrame(s, t, ustep);
      UseClosed(s, c);
      UploadStepLinks(s, t, ustep, c);
    case Create(_, _) => WriterStepLinks(s, step, c);
    case Write(_) => WriterStepLinks(s, step, c);
    case Rotate => WriterStepLinks(s, step, c);
    case Publish => WriterStepLinks(s, step, c);
    case CleanBegin(_) => WriterStepLinks(s, step, c);
    case CleanList(_) => WriterStepLinks(s, step, c);
    case CleanFail => WriterStepLinks(s, step, c);
    case _ =>
  }

  lemma UseClosed(s: State, c: Name)
    requires ClosedLinked(s) && c in s.root && !NotYet(s, c)
    ensures LinkingAll(s, c)
  {
  }

  lemma LinkStepFrame(s: State, f: Name)
    requires f in s.linkers
    ensures
      var s' := ApplyLink(s, f);
      && s'.root == s.root && s'.content == s.content && s'.tables == s.tables && s'.writer == s.writer
      && s'.crashes == s.crashes && s'.done == s.done && s'.up == s.up && s'.delivered == s.delivered
      && s'.cleaner == s.cleaner
  {
  }

  lemma StepLinks(s: State, step: Step)
    requires Inv(s) && Enabled(s, step) && ClosedLinked(s) && LinksGoWell(step)
    ensures ClosedLinked(Apply(s, step))
  {
    var s' := Apply(s, step);
    hide Inv, Apply, Enabled, LinkingAll;
    if s'.writer.LinkAll? || s'.writer.FirstCleanup? {
      StepInv(s, step);
      StartingLinks(s');
    } else {
      forall c | c in s'.root && !NotYet(s', c)
        ensures LinkingAll(s', c)
      {
        StepLinksFile(s, step, c);
      }
    }
  }

  lemma {:induction false} RunLinks(s: State, steps: seq<Step>)
    requires Inv(s) && IsRun(s, steps) && ClosedLinked(s) && forall step | step in steps :: LinksGoWell(step)
    ensures ClosedLinked(After(s, steps))
    decreases |steps|
  {
    hide Inv, Enabled, Apply, ClosedLinked;
    if steps != [] {
      assert steps[0] in steps && forall step | step in steps[1..] :: step in steps;
      StepInv(s, steps[0]);
      StepLinks(s, steps[0]);
      RunLinks(Apply(s, steps[0]), steps[1..]);
    }
  }

  /** As long as no link fails, every file on disk but the one being written is, for each table, linked
      to it, finished in it, or in the hands of a goroutine that is still to come to it. After a crash
      this holds of the files that the new start has already passed, and of all when it is through. */
  lemma {:induction false} ClosedIsLinked(s0: State, steps: seq<Step>, c: Name, j: nat)
    requires Init(s0) && IsRun(s0, steps) && forall step | step in steps :: LinksGoWell(step)
    ensures
      var s := After(s0, steps);
      c in s.root && !NotYet(s, c) && j < |s.tables| ==> Linking(s, c, j)
  {
    InitInv(s0);
    RunLinks(s0, steps);
  }

  /* ---- and the linking ends ---- */

  /** How many steps a goroutine has left. */
  function LinkerRank(s: State, c: Name): nat
    requires c in s.linkers
  {
    var l := s.linkers[c];
    if l.table >= |s.tables| then 1
    else 3 * (|s.tables| - l.table) + (match l.stage case CheckLink => 1 case CheckDone => 0 case MakeLink => -1)
  }

  /** A goroutine can always go on, each step of its own brings it nearer to its end, and no other
      step but a crash or its own failure touches it. */
  lemma LinkerGoesOn(s: State, c: Name)
    requires Inv(s) && c in s.linkers
    ensures Enabled(s, LinkStep(c))
    ensures var s' := Apply(s, LinkStep(c)); c in s'.linkers ==> LinkerRank(s', c) < LinkerRank(s, c)
  {
    assert InvStart(s.tables, s.root, s.link, s.done, s.writer, s.linkers, s.cleaner);
    assert InvStages(s.tables, s.root, s.link, s.done, s.linkers);
    assert InvFirstLinks(s.writer.LinkAll?, s.tables, s.link, s.done, s.linkers);
    hide Inv;
  }

  /* ---- every scanned file is uploaded ---- */

  /** Nothing goes wrong: no crash, and an open fails only for a link that no longer leads anywhere. */
  predicate GoesWell(s: State, step: Step)
  {
    match step
    case Crash => false
    case Upload(t, Open(w, false)) =>
      t in s.up && w < |s.up[t].workers| && s.up[t].workers[w].Taken?
      && !Resolves(s, Entry(s.up[t].workers[w].file, false), t)
    case Upload(_, Handled(_, ok)) => ok
    case Upload(_, Rename(_, ok)) => ok
    case _ => true
  }

  ghost predicate AllGoesWell(s: State, steps: seq<Step>)
    requires IsRun(s, steps)
    decreases |steps|
  {
    steps != [] ==> GoesWell(s, steps[0]) && AllGoesWell(Apply(s, steps[0]), steps[1..])
  }

  /** Uploaded to `t`, and its link there is no more. */
  predicate Through(s: State, t: Table, c: Name)
  {
    Uploads(s.delivered, c, t) != [] && (c, t) !in s.link
  }

  predicate HeldFor(x: Q.Worker, c: Name)
  {
    Q.Holds(x, c) && !x.Leaving?
  }

  ghost predicate InLine(u: Q.Uploader, c: Name)
  {
    c in u.scan || u.pending == Some(c) || c in u.queue || InWork(u, c)
  }

  ghost predicate InWork(u: Q.Uploader, c: Name)
  {
    exists w :: 0 <= w < |u.workers| && HeldFor(u.workers[w], c)
  }

  ghost predicate LetGo(u: Q.Uploader, c: Name)
  {
    exists w :: 0 <= w < |u.workers| && u.workers[w] == Q.Leaving(c)
  }

  /** A file in line is still linked, or uploaded already; one that is let go is through. */
  ghost predicate Handing(s: State, t: Table, c: Name)
  {
    t in s.up && c in s.content && t in s.tables
    && (InLine(s.up[t], c) ==> (c, t) in s.link || Uploads(s.delivered, c, t) != [])
    && (forall w | 0 <= w < |s.up[t].workers| && s.up[t].workers[w] == Q.Leaving(c) :: Through(s, t, c))
  }

  ghost predicate OnItsWay(s: State, t: Table, c: Name)
  {
    t in s.up && (InLine(s.up[t], c) || Through(s, t, c))
  }

  /** Once a file is through it stays so: no goroutine links it again. */
  lemma LinkStepThrough(s: State, f: Name, t: Table, c: Name)
    requires Inv(s) && f in s.linkers && t in s.tables && c in s.content
    ensures var s' := ApplyLink(s, f); Through(s, t, c) ==> Through(s', t, c)
    ensures s.link <= ApplyLink(s, f).link
  {
    assert InvStages(s.tables, s.root, s.link, s.done, s.linkers);
    assert InvLinkers(s.tables, s.root, s.content.Keys, s.linkers);
    assert InvDisk(s.tables, s.root, s.content.Keys, s.link, s.done, s.delivered);
    hide Inv;
  }

  /** The cleaner takes a link only of what was uploaded. */
  lemma CleanStepThrough(s: State, t: Table, c: Name)
    requires Inv(s) && Enabled(s, CleanStep) && t in s.tables && c in s.content
    ensures
      var s' := ApplyClean(s);
      && (Through(s, t, c) ==> Through(s', t, c))
      && ((c, t) in s.link && (c, t) !in s'.link ==> Uploads(s.delivered, c, t) != [])
  {
    CleanStepFrame(s);
    assert InvCleaner(s.tables, s.used, s.root, s.content.Keys, s.link, s.done, s.cleaner);
    assert InvDisk(s.tables, s.root, s.content.Keys, s.link, s.done, s.delivered);
    CleanStepLinksOnly(s);
    hide Inv, ApplyClean, Enabled;
  }

  /** The cleaner makes no links, and removes one that it has found broken. */
  lemma CleanStepLinksOnly(s: State)
    requires Enabled(s, CleanStep)
    ensures
      var s' := ApplyClean(s);
      && s'.link <= s.link
      && (forall x | x in s.link && x !in s'.link ::
            s.cleaner.Broken? && !s.cleaner.entry.finished && s.cleaner.table < |s.tables|
            && x == (s.cleaner.entry.file, s.tables[s.cleaner.table]))
  {
    hide Resolves, Exists;
    match s.cleaner
    case Broken(_, _, _) =>
    case _ =>
  }

  /** A step that leaves table `t`'s uploader alone, and a link of `c` unless it was uploaded. */
  ghost predicate Beside(s: State, s': State, t: Table, c: Name)
  {
    && s'.tables == s.tables && c in s'.content && t in s'.up && t in s.up && s'.up[t] == s.up[t]
    && Uploads(s'.delivered, c, t) == Uploads(s.delivered, c, t)
    && (Through(s, t, c) ==> Through(s', t, c))
    && ((c, t) in s.link && (c, t) !in s'.link ==> Uploads(s.delivered, c, t) != [])
  }

  lemma OtherUploadBeside(s: State, r: Table, step: Q.Step, t: Table, c: Name)
    requires r in s.up && Q.Enabled(s.up[r], step) && r != t && t in s.up && c in s.content
    ensures Beside(s, ApplyUpload(s, r, step), t, c)
  {
    hide Q.Enabled, Q.Apply;
  }

  lemma OtherStepBeside(s: State, step: Step, t: Table, c: Name)
    requires Enabled(s, step) && t in s.up && c in s.content
    requires !step.Upload? && !step.LinkStep? && !step.CleanStep? && !step.Crash?
    ensures Beside(s, Apply(s, step), t, c)
  {
    hide ApplyLink, ApplyClean, ApplyUpload;
  }

  lemma StepBeside(s: State, step: Step, t: Table, c: Name)
    requires Inv(s) && Enabled(s, step) && t in s.up && t in s.tables && c in s.content
    requires !step.Crash? && (step.Upload? ==> step.t != t)
    ensures Beside(s, Apply(s, step), t, c)
  {
    hide Inv, ApplyLink, ApplyClean, ApplyUpload;
    match step
    case LinkStep(f) =>
      LinkStepFrame(s, f);
      LinkStepThrough(s, f, t, c);
    case CleanStep =>
      CleanStepRoot(s);
      CleanStepFrame(s);
      CleanStepThrough(s, t, c);
    case Upload(r, ustep) => OtherUploadBeside(s, r, ustep, t, c);
    case _ => OtherStepBeside(s, step, t, c);
  }

  lemma BesideKeeps(s: State, s': State, t: Table, c: Name)
    requires Beside(s, s', t, c) && Handing(s, t, c)
    ensures Handing(s', t, c) && (OnItsWay(s, t, c) ==> OnItsWay(s', t, c))
  {
    hide InLine;
  }

  lemma WorkerMoves(u: Q.Uploader, u': Q.Uploader, w: nat, c: Name)
    requires w < |u.workers| && w < |u'.workers| && u'.workers == u.workers[w := u'.workers[w]]
    ensures InWork(u', c) ==> HeldFor(u'.workers[w], c) || InWork(u, c)
    ensures InWork(u, c) ==> HeldFor(u.workers[w], c) || InWork(u', c)
    ensures HeldFor(u'.workers[w], c) ==> InWork(u', c)
    ensures HeldFor(u.workers[w], c) ==> InWork(u, c)
    ensures u'.workers[w] == Q.Leaving(c) ==> LetGo(u', c)
  {
    if InWork(u', c) && !HeldFor(u'.workers[w], c) {
      var v :| 0 <= v < |u'.workers| && HeldFor(u'.workers[v], c);
      assert HeldFor(u.workers[v], c);
    }
    if InWork(u, c) && !HeldFor(u.workers[w], c) {
      var v :| 0 <= v < |u.workers| && HeldFor(u.workers[v], c);
      assert HeldFor(u'.workers[v], c);
    }
  }

  /** A marked file is in line or let go. */
  lemma MarkedIsHeld(u: Q.Uploader, c: Name)
    requires Q.Consistent(u) && c in u.inQueue
    ensures u.pending == Some(c) || c in u.queue || InWork(u, c) || LetGo(u, c)
  {
    if Q.InHands(u, c) {
      var w :| 0 <= w < |u.workers| && Q.Holds(u.workers[w], c);
      assert HeldFor(u.workers[w], c) || u.workers[w] == Q.Leaving(c);
    }
  }

  /** How one step of the uploader moves a file on: what is in line was in line, and stays so unless
      it is let go. */
  lemma QueueStepMoves(u: Q.Uploader, step: Q.Step, c: Name)
    requires Q.Consistent(u) && Q.Enabled(u, step) && !step.Scan?
    ensures
      var u' := Q.Apply(u, step);
      && (InLine(u', c) ==> InLine(u, c))
      && (InLine(u, c) && !InLine(u', c) ==> LetGo(u', c) || LetGo(u, c))
  {
    var u' := Q.Apply(u, step);
    if step.Mark? {
      if u.scan[0] == c && c in u.inQueue { MarkedIsHeld(u, c); }
      assert u.scan == [u.scan[0]] + u'.scan;
      assert InWork(u', c) == InWork(u, c);
    } else if step.Send? {
      assert InWork(u', c) == InWork(u, c);
    } else {
      hide Q.Consistent, InWork, LetGo;
      WorkerMoves(u, u', step.w, c);
      if step.Take? { assert u.queue == [u.queue[0]] + u'.queue; }
    }
  }

  /** Whoever lets the file go, it is through. */
  ghost predicate LeavesThrough(s: State, t: Table, c: Name)
  {
    t in s.up ==> forall w | 0 <= w < |s.up[t].workers| && s.up[t].workers[w] == Q.Leaving(c) :: Through(s, t, c)
  }

  /** A link that leads nowhere, of a file that was linked or uploaded: it was uploaded. */
  lemma OpenLetsGo(s: State, t: Table, w: nat, ok: bool, c: Name)
    requires Inv(s) && t in s.up && Q.Enabled(s.up[t], Q.Open(w, ok)) && UploadEnabled(s, t, Q.Open(w, ok))
    requires GoesWell(s, Upload(t, Q.Open(w, ok))) && Handing(s, t, c)
    ensures LeavesThrough(ApplyUpload(s, t, Q.Open(w, ok)), t, c)
  {
    assert InvDisk(s.tables, s.root, s.content.Keys, s.link, s.done, s.delivered);
    hide Inv;
    var u := s.up[t];
    WorkerMoves(u, Q.Apply(u, Q.Open(w, ok)), w, c);
    hide InWork, LetGo;
    assert u.workers[w] == Q.Taken(c) && !ok ==> Through(s, t, c);
    hide InvDisk, InLine;
  }

  lemma RenameLetsGo(s: State, t: Table, w: nat, c: Name)
    requires Inv(s) && t in s.up && Q.Enabled(s.up[t], Q.Rename(w, true)) && Handing(s, t, c)
    ensures LeavesThrough(ApplyUpload(s, t, Q.Rename(w, true)), t, c)
  {
    assert InvUploaded(s.up, s.delivered);
    hide Inv, InLine;
  }

  lemma ElseLetsGo(s: State, t: Table, step: Q.Step, c: Name)
    requires t in s.up && Q.Enabled(s.up[t], step) && Handing(s, t, c)
    requires !step.Open? && !step.Rename? && (step.Handled? ==> step.ok)
    ensures LeavesThrough(ApplyUpload(s, t, step), t, c)
  {
    hide InLine;
  }

  /** What the step of a worker does to a file it lets go of. */
  lemma UploadLetsGo(s: State, t: Table, step: Q.Step, c: Name)
    requires Inv(s) && t in s.up && Q.Enabled(s.up[t], step) && UploadEnabled(s, t, step)
    requires GoesWell(s, Upload(t, step)) && Handing(s, t, c) && !step.Scan?
    ensures LeavesThrough(ApplyUpload(s, t, step), t, c)
  {
    if step.Open? {
      OpenLetsGo(s, t, step.w, step.ok, c);
    } else if step.Rename? {
      assert step.ok;
      RenameLetsGo(s, t, step.w, c);
    } else {
      assert step.Handled? ==> step.ok;
      ElseLetsGo(s, t, step, c);
    }
    hide *;
  }

  lemma UploadKeepsThrough(s: State, t: Table, step: Q.Step, c: Name)
    requires Inv(s) && t in s.up && Q.Enabled(s.up[t], step) && UploadEnabled(s, t, step)
    ensures
      var s' := ApplyUpload(s, t, step);
      && (Through(s, t, c) ==> Through(s', t, c))
      && (Uploads(s.delivered, c, t) != [] ==> Uploads(s'.delivered, c, t) != [])
      && ((c, t) in s.link && (c, t) !in s'.link ==> Uploads(s'.delivered, c, t) != [])
  {
    assert InvUploaded(s.up, s.delivered);
    hide Inv, Q.Apply;
  }

  /** The uploader's own steps keep a file that a scan has listed on its way. */
  lemma UploadStepMoves(s: State, t: Table, step: Q.Step, c: Name)
    requires Inv(s) && t in s.up && Q.Enabled(s.up[t], step) && UploadEnabled(s, t, step) && !step.Scan?
    requires GoesWell(s, Upload(t, step)) && Handing(s, t, c)
    ensures var s' := ApplyUpload(s, t, step); Handing(s', t, c) && (OnItsWay(s, t, c) ==> OnItsWay(s', t, c))
  {
    assert Q.Consistent(s.up[t]) by { assert InvQueues(s.tables, s.up); }
    UploadStepFrame(s, t, step);
    UploadLetsGo(s, t, step, c);
    UploadKeepsThrough(s, t, step, c);
    QueueStepMoves(s.up[t], step, c);
    UploadStepQueue(s, t, step);
    hide Inv, Q.Consistent, ApplyUpload, Q.Apply, Q.Enabled, InLine, Through, UploadEnabled, GoesWell;
  }

  lemma UploadStepQueue(s: State, t: Table, step: Q.Step)
    requires t in s.up && Q.Enabled(s.up[t], step)
    ensures ApplyUpload(s, t, step).up == s.up[t := Q.Apply(s.up[t], step)]
  {
    hide Q.Apply, Q.Enabled;
  }

  lemma ScanMoves(s: State, t: Table, files: seq<Name>, c: Name)
    requires Enabled(s, Upload(t, Q.Scan(files))) && c in s.content && t in s.tables
    ensures
      var s' := Apply(s, Upload(t, Q.Scan(files)));
      && (Handing(s, t, c) ==> Handing(s', t, c)) && (OnItsWay(s, t, c) ==> OnItsWay(s', t, c))
      && (c in files ==> OnItsWay(s', t, c))
  {
    var s' := Apply(s, Upload(t, Q.Scan(files)));
    assert s'.up[t].workers == s.up[t].workers && InWork(s'.up[t], c) == InWork(s.up[t], c);
    hide InWork;
  }

  lemma StepMoves(s: State, step: Step, t: Table, c: Name)
    requires Inv(s) && Enabled(s, step) && GoesWell(s, step) && Handing(s, t, c)
    ensures var s' := Apply(s, step); Handing(s', t, c) && (OnItsWay(s, t, c) ==> OnItsWay(s', t, c))
  {
    if step.Upload? && step.t == t {
      if step.ustep.Scan? {
        ScanMoves(s, t, step.ustep.files, c);
      } else {
        UploadStepMoves(s, t, step.ustep, c);
      }
      hide Inv, Handing, OnItsWay, ApplyUpload, ApplyLink, ApplyClean;
    } else {
      StepBeside(s, step, t, c);
      hide Inv, Enabled, Apply;
      BesideKeeps(s, Apply(s, step), t, c);
    }
  }

  lemma {:induction false} RunMoves(s: State, steps: seq<Step>, t: Table, c: Name)
    requires Inv(s) && IsRun(s, steps) && AllGoesWell(s, steps) && Handing(s, t, c) && OnItsWay(s, t, c)
    ensures var s' := After(s, steps); Inv(s') && Handing(s', t, c) && OnItsWay(s', t, c)
    decreases |steps|
  {
    hide Inv, Enabled, Apply, GoesWell, Handing, OnItsWay;
    if steps != [] {
      StepInv(s, steps[0]);
      StepMoves(s, steps[0], t, c);
      RunMoves(Apply(s, steps[0]), steps[1..], t, c);
    }
  }

  lemma QuietIsThrough(s: State, t: Table, c: Name)
    requires Inv(s) && t in s.up && t in s.tables && c in s.content && OnItsWay(s, t, c) && Q.Quiet(s.up[t])
    ensures Through(s, t, c) && (c in s.root ==> (c, t) in s.done)
  {
    assert InvDisk(s.tables, s.root, s.content.Keys, s.link, s.done, s.delivered);
    hide Inv;
  }

  lemma QuietIsHanding(s: State, t: Table, c: Name)
    requires Inv(s) && t in s.up && t in s.tables && Q.Quiet(s.up[t]) && c in s.content
    ensures Handing(s, t, c)
  {
    hide Inv;
  }

  /** A scan of a quiet uploader, followed by any steps of anybody in which nothing goes wrong: when the
      uploader is quiet again, every file of the listing has been uploaded, and is renamed unless its
      data is gone by then. */
  lemma {:induction false} ScannedIsUploaded(
    s0: State, first: seq<Step>, t: Table, files: seq<Name>, steps: seq<Step>, c: Name)
    requires Init(s0) && IsRun(s0, first) && Enabled(After(s0, first), Upload(t, Q.Scan(files)))
    requires var s := After(s0, first); Q.Quiet(s.up[t]) && c in files && c in s.content
    requires var s := Apply(After(s0, first), Upload(t, Q.Scan(files))); IsRun(s, steps) && AllGoesWell(s, steps)
    ensures
      var s := After(Apply(After(s0, first), Upload(t, Q.Scan(files))), steps);
      t in s.up && Q.Quiet(s.up[t]) ==>
        && Uploads(s.delivered, c, t) != [] && (c, t) !in s.link && (c in s.root ==> (c, t) in s.done)
  {
    var s1, scan := After(s0, first), Upload(t, Q.Scan(files));
    InitInv(s0);
    RunInv(s0, first);
    assert t in s1.tables by { assert InvQueues(s1.tables, s1.up); }
    QuietIsHanding(s1, t, c);
    StepInv(s1, scan);
    ScanMoves(s1, t, files, c);
    var s2 := Apply(s1, scan);
    RunMoves(s2, steps, t, c);
    var s3 := After(s2, steps);
    HandingFacts(s3, t, c);
    hide *;
    if Q.Quiet(s3.up[t]) { QuietIsThrough(s3, t, c); ThroughFacts(s3, t, c); }
  }

  lemma HandingFacts(s: State, t: Table, c: Name)
    requires Handing(s, t, c)
    ensures t in s.up && t in s.tables && c in s.content
  {
  }

  lemma ThroughFacts(s: State, t: Table, c: Name)
    requires Through(s, t, c)
    ensures Uploads(s.delivered, c, t) != [] && (c, t) !in s.link
  {
  }

  /** Until it is quiet, an uploader with a worker has a step that goes well: of any busy worker, or,
      when all are idle, of the scanner or the queue. */
  lemma UploaderGoesOn(s: State, t: Table, w: nat)
    requires Inv(s) && t in s.up && w < |s.up[t].workers| && !Q.Quiet(s.up[t])
    requires s.up[t].workers[w].Idle? ==> forall v | 0 <= v < |s.up[t].workers| :: s.up[t].workers[v].Idle?
    ensures
      var x := s.up[t].workers[w];
      var ok := x.Taken? ==> Resolves(s, Entry(x.file, false), t);
      var step := Q.NextStep(s.up[t], w, ok);
      Enabled(s, Upload(t, step)) && GoesWell(s, Upload(t, step)) && !step.Scan?
      && Q.Rank(Apply(s, Upload(t, step)).up[t]) < Q.Rank(s.up[t])
  {
    var x := s.up[t].workers[w];
    var ok := x.Taken? ==> Resolves(s, Entry(x.file, false), t);
    var step := Q.NextStep(s.up[t], w, ok);
    assert InvBusy(s.up, s.link, s.root);
    assert x.Uploaded? ==> (x.file, t) in s.link by { if x.Uploaded? { assert Busy(x); } }
    hide Inv, InvBusy;
    Q.NotQuietGoesOn(s.up[t], w, ok);
    Q.StepLowersRank(s.up[t], step);
    UploadStepQueue(s, t, step);
    hide Q.Rank, Q.Quiet, Q.Apply, ApplyUpload;
  }

  /** Any open, upload or rename may also fail. */
  lemma UploaderMayFail(s: State, t: Table, w: nat)
    requires t in s.up && w < |s.up[t].workers|
    requires s.up[t].workers[w].Taken? || s.up[t].workers[w].Reading? || s.up[t].workers[w].Uploaded?
    ensures Enabled(s, Upload(t, Q.NextStep(s.up[t], w, false)))
  {
  }

  /* ---- every finished file is removed ---- */

  ghost predicate FinishedAll(s: State, c: Name)
  {
    forall j | 0 <= j < |s.tables| :: (c, s.tables[j]) in s.done
  }

  /** The pass is still to come to the file, or has removed it. */
  predicate ToRemove(s: State, c: Name)
  {
    c in s.root ==>
      match s.cleaner
      case Roots(rest) => c in rest
      case Checking(d, _, rest) => c == d || c in rest
      case Unlinking(_, _, rest) => c in rest
      case _ => false
  }

  ghost predicate Removing(s: State, c: Name)
  {
    c in s.content && ToRemove(s, c) && (c in s.root ==> FinishedAll(s, c))
  }

  lemma CleanStepRemoves(s: State, c: Name)
    requires Inv(s) && Enabled(s, CleanStep) && Removing(s, c)
    ensures Removing(ApplyClean(s), c)
  {
    assert InvCleaner(s.tables, s.used, s.root, s.content.Keys, s.link, s.done, s.cleaner);
    CleanStepRoot(s);
    var s' := ApplyClean(s);
    if c in s'.root {
      forall j | 0 <= j < |s.tables|
        ensures (c, s.tables[j]) in s'.done
      {
        CleanStepKeepsFiles(s, c, s.tables[j]);
      }
      CleanStepToRemove(s, c);
    }
    hide Inv, InvCleaner, ApplyClean;
  }

  lemma CleanStepToRemove(s: State, c: Name)
    requires Enabled(s, CleanStep) && ToRemove(s, c) && FinishedAll(s, c) && c in s.root
    ensures ToRemove(ApplyClean(s), c)
  {
    match s.cleaner
    case Roots(rest) => assert rest != [] ==> rest == [rest[0]] + rest[1..];
    case _ =>
  }

  lemma OtherStepRemoves(s: State, step: Step, c: Name)
    requires Inv(s) && Enabled(s, step) && Removing(s, c)
    requires !step.CleanStep? && !step.CleanFail? && !step.Crash? && !step.LinkStep? && !step.Upload?
    ensures Removing(Apply(s, step), c)
  {
    assert InvNames(s.tables, s.root, s.content.Keys, s.used, s.link, s.linkers);
    hide Inv, ApplyClean, ApplyLink, ApplyUpload;
  }

  lemma StepRemoves(s: State, step: Step, c: Name)
    requires Inv(s) && Enabled(s, step) && Removing(s, c) && !step.CleanFail? && !step.Crash?
    ensures Removing(Apply(s, step), c)
  {
    match step
    case CleanStep => CleanStepRemoves(s, c); hide *;
    case LinkStep(f) => LinkStepFrame(s, f); hide Inv, ApplyLink;
    case Upload(t, ustep) => UploadStepFrame(s, t, ustep); hide Inv, ApplyUpload;
    case _ => OtherStepRemoves(s, step, c); hide *;
  }

  lemma {:induction false} RunRemoves(s: State, steps: seq<Step>, c: Name)
    requires Inv(s) && IsRun(s, steps) && Removing(s, c)
    requires forall step | step in steps :: !step.CleanFail? && !step.Crash?
    ensures Removing(After(s, steps), c)
    decreases |steps|
  {
    hide Inv, Enabled, Apply, Removing;
    if steps != [] {
      assert steps[0] in steps && forall step | step in steps[1..] :: step in steps;
      StepInv(s, steps[0]);
      StepRemoves(s, steps[0], c);
      RunRemoves(Apply(s, steps[0]), steps[1..], c);
    }
  }

  /** A pass that begins when a file is finished in every table, and meets no error, has removed the
      file's data when it turns to the table directories. */
  lemma {:induction false} PassRemovesFinished(s0: State, first: seq<Step>, files: seq<Name>, steps: seq<Step>, c: Name)
    requires Init(s0) && IsRun(s0, first) && Enabled(After(s0, first), CleanBegin(files))
    requires FinishedAll(After(s0, first), c) && c in After(s0, first).root
    requires IsRun(Apply(After(s0, first), CleanBegin(files)), steps)
    requires forall step | step in steps :: !step.CleanFail? && !step.Crash?
    ensures
      var s := After(Apply(After(s0, first), CleanBegin(files)), steps);
      Sweeping(s.cleaner) || s.cleaner.Resting? ==> c !in s.root
  {
    var s1 := After(s0, first);
    var s2 := Apply(s1, CleanBegin(files));
    InitInv(s0);
    RunInv(s0, first);
    assert InvNames(s1.tables, s1.root, s1.content.Keys, s1.used, s1.link, s1.linkers);
    assert Removing(s2, c);
    StepInv(s1, CleanBegin(files));
    RunRemoves(s2, steps, c);
    hide Inv, IsRun, After, Enabled, Apply, FinishedAll, Init;
  }

  /* ---- what was written is there ---- */

  /** All that was written while the file was the writer's. */
  ghost function WrittenTo(s: State, steps: seq<Step>, c: Name): bytes
    requires IsRun(s, steps)
    decreases |steps|
  {
    if steps == [] then []
    else
      (if steps[0].Write? && s.writer == Writing(c) then steps[0].data else []) +
      WrittenTo(Apply(s, steps[0]), steps[1..], c)
  }

  function ContentOf(s: State, c: Name): bytes
  {
    if c in s.content then s.content[c] else []
  }

  lemma StepWrites(s: State, step: Step, c: Name)
    requires Inv(s) && Enabled(s, step)
    ensures
      ContentOf(Apply(s, step), c) ==
      ContentOf(s, c) + (if step.Write? && s.writer == Writing(c) then step.data else [])
  {
    assert InvNames(s.tables, s.root, s.content.Keys, s.used, s.link, s.linkers);
    hide Inv, ApplyLink, ApplyClean, ApplyUpload;
    assert ContentOf(s, c) + [] == ContentOf(s, c);
    match step
    case LinkStep(f) => LinkStepFrame(s, f);
    case CleanStep => CleanStepRoot(s);
    case Upload(t, ustep) => UploadStepFrame(s, t, ustep);
    case _ =>
  }

  lemma {:induction false} RunWrites(s: State, steps: seq<Step>, c: Name)
    requires Inv(s) && IsRun(s, steps)
    ensures ContentOf(After(s, steps), c) == ContentOf(s, c) + WrittenTo(s, steps, c)
    decreases |steps|
  {
    hide Inv, Enabled, Apply, ContentOf;
    if steps == [] {
      assert ContentOf(s, c) + [] == ContentOf(s, c);
    } else {
      StepInv(s, steps[0]);
      StepWrites(s, steps[0], c);
      RunWrites(Apply(s, steps[0]), steps[1..], c);
      Assoc(ContentOf(s, c), if steps[0].Write? && s.writer == Writing(c) then steps[0].data else [],
            WrittenTo(Apply(s, steps[0]), steps[1..], c));
    }
  }

  /** Every upload of a file, to any table, was of exactly what was written to it, over all of its
      time as the writer's file. */
  lemma {:induction false} UploadsAreWrites(s0: State, steps: seq<Step>, c: Name, t: Table)
    requires Init(s0) && IsRun(s0, steps)
    ensures
      var s := After(s0, steps);
      && ContentOf(s, c) == WrittenTo(s0, steps, c)
      && forall data | data in Uploads(s.delivered, c, t) :: data == WrittenTo(s0, steps, c)
  {
    InitInv(s0);
    RunInv(s0, steps);
    RunWrites(s0, steps, c);
    var s := After(s0, steps);
    assert InvDelivered(s.delivered, s.content);
    EmptyFirst(WrittenTo(s0, steps, c));
    hide Inv, IsRun, After, WrittenTo;
  }

  /** From the end of start-up on, while it is not stopped, the writer can be stopped and a resting cleaner
      can begin, whatever the writer is doing. */
  lemma CleanerRunsBeside(s: State, files: seq<Name>)
    requires s.cleaner.Resting? && forall c :: c in files <==> c in s.root
    ensures Enabled(s, CleanBegin(files)) <==> !s.writer.Down? && !s.writer.LinkAll? && !s.writer.Stopped?
    ensures Enabled(s, StopWriter) <==>
            !s.writer.Down? && !s.writer.LinkAll? && !s.writer.Stopped? && !s.writer.FirstCleanup?
  {
  }

  /* ---- finished is finished ---- */

  /** Finished in `t`, or finished everywhere and removed. */
  predicate Finished(s: State, t: Table, c: Name)
  {
    t in s.tables && c in s.content && Through(s, t, c) && ((c, t) in s.done || c !in s.root)
  }

  lemma DoneIsFinished(s: State, t: Table, c: Name)
    requires Inv(s) && (c, t) in s.done && t in s.tables
    ensures Finished(s, t, c)
  {
    assert InvDisk(s.tables, s.root, s.content.Keys, s.link, s.done, s.delivered);
    hide Inv;
  }

  /** No worker is busy with it. */
  lemma FinishedUpload(s: State, t: Table, step: Q.Step, r: Table, c: Name)
    requires Inv(s) && r in s.up && Q.Enabled(s.up[r], step) && Finished(s, t, c)
    ensures
      var s' := ApplyUpload(s, r, step);
      Finished(s', t, c) && Uploads(s'.delivered, c, t) == Uploads(s.delivered, c, t)
  {
    UploadStepFrame(s, r, step);
    assert step.Handled? || step.Rename? ==> (s.up[r].workers[step.w].file, r) in s.link by {
      if step.Handled? || step.Rename? {
        assert InvBusy(s.up, s.link, s.root) && Busy(s.up[r].workers[step.w]);
      }
    }
    hide Inv, Q.Apply;
  }

  lemma FinishedClean(s: State, t: Table, c: Name)
    requires Inv(s) && Enabled(s, CleanStep) && Finished(s, t, c)
    ensures
      var s' := ApplyClean(s);
      Finished(s', t, c) && Uploads(s'.delivered, c, t) == Uploads(s.delivered, c, t)
  {
    CleanStepRoot(s);
    CleanStepDelivered(s);
    CleanStepThrough(s, t, c);
    if c in s.root {
      assert InvCleaner(s.tables, s.used, s.root, s.content.Keys, s.link, s.done, s.cleaner);
      CleanStepKeepsFiles(s, c, t);
    }
    hide Inv, ApplyClean, Enabled;
  }

  lemma FinishedElse(s: State, step: Step, t: Table, c: Name)
    requires Inv(s) && Enabled(s, step) && Finished(s, t, c)
    requires !step.CleanStep? && !step.LinkStep? && !step.Upload?
    ensures
      var s' := Apply(s, step);
      Finished(s', t, c) && Uploads(s'.delivered, c, t) == Uploads(s.delivered, c, t)
  {
    assert InvNames(s.tables, s.root, s.content.Keys, s.used, s.link, s.linkers);
    hide Inv, ApplyClean, ApplyLink, ApplyUpload;
  }

  lemma StepStaysFinished(s: State, step: Step, t: Table, c: Name)
    requires Inv(s) && Enabled(s, step) && Finished(s, t, c)
    ensures
      var s' := Apply(s, step);
      Finished(s', t, c) && Uploads(s'.delivered, c, t) == Uploads(s.delivered, c, t)
  {
    match step
    case LinkStep(f) =>
      LinkStepFrame(s, f);
      LinkStepThrough(s, f, t, c);
      hide Inv, ApplyLink;
    case CleanStep => FinishedClean(s, t, c); hide *;
    case Upload(r, ustep) => FinishedUpload(s, t, ustep, r, c); hide *;
    case _ => FinishedElse(s, step, t, c); hide *;
  }

  lemma {:induction false} RunStaysFinished(s: State, steps: seq<Step>, t: Table, c: Name)
    requires Inv(s) && IsRun(s, steps) && Finished(s, t, c)
    ensures
      var s' := After(s, steps);
      Finished(s', t, c) && Uploads(s'.delivered, c, t) == Uploads(s.delivered, c, t)
    decreases |steps|
  {
    hide Inv, Enabled, Apply, Finished, Uploads;
    if steps != [] {
      StepInv(s, steps[0]);
      StepStaysFinished(s, steps[0], t, c);
      RunStaysFinished(Apply(s, steps[0]), steps[1..], t, c);
    }
  }

  /** Once a table has a file renamed, it never gets it again: not after a crash, and not from a stale
      listing. It stays renamed as long as its data is there. */
  lemma {:induction false} FinishedForGood(s0: State, first: seq<Step>, steps: seq<Step>, c: Name, t: Table)
    requires Init(s0) && IsRun(s0, first) && (c, t) in After(s0, first).done && t in After(s0, first).tables
    requires IsRun(After(s0, first), steps)
    ensures
      var s, s' := After(s0, first), After(After(s0, first), steps);
      && Uploads(s'.delivered, c, t) == Uploads(s.delivered, c, t)
      && (c, t) !in s'.link && (c in s'.root ==> (c, t) in s'.done)
  {
    InitInv(s0);
    RunInv(s0, first);
    DoneIsFinished(After(s0, first), t, c);
    RunStaysFinished(After(s0, first), steps, t, c);
    hide Inv, IsRun, After, Init, Uploads;
  }
}

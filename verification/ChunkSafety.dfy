/** What holds in every reachable state of the chunk life cycle, over all interleavings, failures,
    crashes and restarts. */
module ChunkSafety {
  import opened ChunkLifecycle
  import opened ChunkInvariant
  import Q = UploadQueue

  lemma WriterStepInv(s: State, step: Step)
    requires Inv(s) && Enabled(s, step)
    requires step.Create? || step.Write? || step.Rotate? || step.Publish? || step.StopWriter?
    ensures Inv(Apply(s, step))
  {
    assert s.writer.Writing? ==> s.writer.file in s.content by {
      assert InvWriter(s.writer, s.root, s.content.Keys, s.used) && s.root <= s.content.Keys;
    }
    hide Inv;
    match step
    case Create(c, ok) => if ok { CreateInv(s, c); } else { CreateFailInv(s, c); }
    case Write(data) => WriteInv(s, data);
    case Rotate => RotateInv(s);
    case Publish => PublishInv(s);
    case StopWriter => StopInv(s);
  }

  lemma StepInv(s: State, step: Step)
    requires Inv(s) && Enabled(s, step)
    ensures Inv(Apply(s, step))
  {
    hide Inv, ApplyLink, ApplyClean, ApplyUpload;
    match step
    case Start(files) => StartInv(s, files);
    case LinkNext => LinkNextInv(s);
    case LinkAllDone => LinkAllDoneInv(s);
    case LinkStep(c) => LinkStepInv(s, c);
    case LinkFail(c) => LinkFailInv(s, c);
    case Create(_, _) => WriterStepInv(s, step);
    case Write(_) => WriterStepInv(s, step);
    case Rotate => WriterStepInv(s, step);
    case Publish => WriterStepInv(s, step);
    case StopWriter => WriterStepInv(s, step);
    case CleanBegin(files) => CleanerMovesInv(s, Roots(files));
    case CleanStep => CleanStepInv(s);
    case CleanList(entries) => CleanListInv(s, entries);
    case CleanFail => CleanEndsInv(s, Stopped);
    case Upload(t, ustep) => UploadStepInv(s, t, ustep);
    case Crash => CrashInv(s);
  }

  lemma {:induction false} RunInv(s: State, steps: seq<Step>)
    requires Inv(s) && IsRun(s, steps)
    ensures Inv(After(s, steps))
    decreases |steps|
  {
    hide Inv, Enabled, Apply;
    if steps != [] {
      StepInv(s, steps[0]);
      RunInv(Apply(s, steps[0]), steps[1..]);
    }
  }

  /** No data is lost: a file that was written and is no longer in the data directory has been
      uploaded to every configured table, each time with its whole, final content. */
  lemma GoneMeansUploaded(s0: State, steps: seq<Step>, c: Name, t: Table)
    requires Init(s0) && IsRun(s0, steps)
    ensures
      var s := After(s0, steps);
      && (c in s.content && c !in s.root && t in s.tables ==> Uploads(s.delivered, c, t) != [])
      && (forall data | data in Uploads(s.delivered, c, t) :: c in s.content && data == s.content[c])
  {
    InitInv(s0);
    RunInv(s0, steps);
  }

  /** A file being written is in no table's directory, under either name, and in no goroutine. */
  lemma WrittenMeansUnlinked(s0: State, steps: seq<Step>, t: Table)
    requires Init(s0) && IsRun(s0, steps)
    ensures
      var s := After(s0, steps);
      s.writer.Writing? ==>
        && s.writer.file in s.root && s.writer.file !in s.linkers
        && (s.writer.file, t) !in s.link && (s.writer.file, t) !in s.done
  {
    InitInv(s0);
    RunInv(s0, steps);
  }

  /** The data of `c` is gone, and a pass that has turned to the table directories knows it. */
  ghost predicate Forgotten(s: State, c: Name)
  {
    c in s.content && c !in s.root && (Sweeping(s.cleaner) ==> c in s.gone)
  }

  /** A pass turns to the table directories only through the step that notes what is gone. */
  lemma CleanStepForgets(s: State, c: Name)
    requires Enabled(s, CleanStep)
    ensures ApplyClean(s).tables == s.tables
    ensures Forgotten(s, c) ==> Forgotten(ApplyClean(s), c)
  {
    hide Enabled, Resolves, Exists;
    match s.cleaner
    case Roots(_) =>
    case _ =>
  }

  lemma LinkStepForgets(s: State, f: Name, c: Name)
    requires f in s.linkers
    ensures ApplyLink(s, f).tables == s.tables
    ensures Forgotten(s, c) ==> Forgotten(ApplyLink(s, f), c)
  {
  }

  lemma UploadStepForgets(s: State, t: Table, step: Q.Step, c: Name)
    requires t in s.up && Q.Enabled(s.up[t], step)
    ensures ApplyUpload(s, t, step).tables == s.tables
    ensures Forgotten(s, c) ==> Forgotten(ApplyUpload(s, t, step), c)
  {
    hide Q.Apply;
  }

  /** Names are not chosen twice, so data that is gone does not come back. */
  lemma StepForgets(s: State, step: Step, c: Name)
    requires Inv(s) && Enabled(s, step)
    ensures Apply(s, step).tables == s.tables
    ensures Forgotten(s, c) ==> Forgotten(Apply(s, step), c)
  {
    assert c in s.content ==> c in s.used by {
      assert InvNames(s.tables, s.root, s.content.Keys, s.used, s.link, s.linkers);
    }
    hide Inv, ApplyClean, ApplyLink, ApplyUpload;
    match step
    case LinkStep(f) => LinkStepForgets(s, f, c);
    case CleanStep => CleanStepForgets(s, c);
    case Upload(t, ustep) => UploadStepForgets(s, t, ustep, c);
    case _ =>
  }

  lemma {:induction false} RunForgets(s: State, steps: seq<Step>, c: Name)
    requires Inv(s) && IsRun(s, steps)
    ensures Inv(After(s, steps)) && After(s, steps).tables == s.tables
    ensures Forgotten(s, c) ==> Forgotten(After(s, steps), c)
    decreases |steps|
  {
    hide Inv, Enabled, Apply, Forgotten;
    if steps != [] {
      StepInv(s, steps[0]);
      StepForgets(s, steps[0], c);
      RunForgets(Apply(s, steps[0]), steps[1..], c);
    }
  }

  lemma {:induction false} RunsJoin(s: State, first: seq<Step>, steps: seq<Step>)
    requires IsRun(s, first) && IsRun(After(s, first), steps)
    ensures IsRun(s, first + steps) && After(s, first + steps) == After(After(s, first), steps)
    decreases |first|
  {
    hide Enabled, Apply;
    if first == [] {
      assert first + steps == steps;
    } else {
      assert (first + steps)[1..] == first[1..] + steps;
      RunsJoin(Apply(s, first[0]), first[1..], steps);
    }
  }

  lemma PassEndsClean(s: State, c: Name, t: Table)
    requires Inv(s) && Forgotten(s, c) && s.cleaner.PassDone? && t in s.tables
    ensures (c, t) !in s.link && (c, t) !in s.done
  {
    var j :| 0 <= j < |s.tables| && s.tables[j] == t;
    assert InvGone(s.tables, s.root, s.content.Keys, s.done, s.cleaner, s.gone);
    assert (c, s.tables[j]) !in s.done;
    assert InvDisk(s.tables, s.root, s.content.Keys, s.link, s.done, s.delivered);
  }

  /** Once the data of a file is gone, a pass that was not yet on the table directories and ends
      without an error leaves no entry of the file in any of them, whatever else happens meanwhile. */
  lemma PassClearsGone(s0: State, first: seq<Step>, steps: seq<Step>, c: Name, t: Table)
    requires Init(s0) && IsRun(s0, first)
    requires var s := After(s0, first); c in s.content && c !in s.root && !Sweeping(s.cleaner)
    requires IsRun(After(s0, first), steps) && t in s0.tables
    ensures IsRun(s0, first + steps)
    ensures
      var s := After(s0, first + steps);
      && c in s.content && c !in s.root
      && (s.cleaner.PassDone? ==> (c, t) !in s.link && (c, t) !in s.done)
  {
    InitInv(s0);
    hide Init, Inv, Enabled, Apply, IsRun, After, Sweeping;
    RunForgets(s0, first, c);
    assert Forgotten(After(s0, first), c);
    RunForgets(After(s0, first), steps, c);
    RunsJoin(s0, first, steps);
    var s := After(s0, first + steps);
    if s.cleaner.PassDone? { PassEndsClean(s, c, t); }
  }

  /** A table gets each file at most once, plus once for every crash and every failed rename. */
  lemma UploadedOnce(s0: State, steps: seq<Step>, c: Name, t: Table)
    requires Init(s0) && IsRun(s0, steps)
    ensures
      var s := After(s0, steps);
      t in s.tables ==> |Uploads(s.delivered, c, t)| <= 1 + s.crashes + s.failedRenames[(c, t)]
  {
    InitInv(s0);
    RunInv(s0, steps);
  }

  /** After a crash at any point, a start that gets through linking has every file on disk linked
      to, or finished in, every table. */
  lemma StartRelinks(s0: State, steps: seq<Step>, c: Name, t: Table)
    requires Init(s0) && IsRun(s0, steps)
    ensures
      var s := After(s0, steps);
      s.writer.FirstCleanup? && c in s.root && t in s.tables ==> (c, t) in s.link || (c, t) in s.done
  {
    InitInv(s0);
    RunInv(s0, steps);
    var s := After(s0, steps);
    if s.writer.FirstCleanup? && c in s.root && t in s.tables {
      assert FullyLinked(s.tables, s.link, s.done, c);
    }
  }

  /** While a worker has a file open or is about to rename it, its link and its data stay. */
  lemma OpenFileStays(s0: State, steps: seq<Step>, t: Table, w: nat)
    requires Init(s0) && IsRun(s0, steps)
    ensures
      var s := After(s0, steps);
      t in s.up && w < |s.up[t].workers| && Busy(s.up[t].workers[w]) ==>
        (s.up[t].workers[w].file, t) in s.link && s.up[t].workers[w].file in s.root
  {
    InitInv(s0);
    RunInv(s0, steps);
  }
}

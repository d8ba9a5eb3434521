/** One uploader's queue (uploader/base.go): the directory scanner marks a file in `inQueue` and
    sends it to the channel, workers take it, handle it, rename it and unmark it. Each step is what
    happens under one lock, on one channel operation or in one system call. */
module UploadQueue {
  import opened ByteStrings

  type Name = string

  const QUEUE_CAPACITY := 1024

  /** What a worker is doing with the file it took from the queue: about to call the handler,
      inside it with the file open, done with a success, or about to unmark the file. */
  datatype Worker = Idle | Taken(file: Name) | Reading(file: Name) | Uploaded(file: Name) | Leaving(file: Name)

  /** `scan`: what is left of the sorted listing; `pending`: marked, and blocked on the send. */
  datatype Uploader = Uploader(
    scan: seq<Name>, pending: Option<Name>, queue: seq<Name>, inQueue: set<Name>, workers: seq<Worker>)

  datatype Step =
    | Scan(files: seq<Name>)
    | Mark
    | Send
    | Take(w: nat)
    | Open(w: nat, ok: bool)
    | Handled(w: nat, ok: bool)
    | Rename(w: nat, ok: bool)
    | Leave(w: nat)

  predicate Enabled(u: Uploader, step: Step)
  {
    match step
    case Scan(_) => u.scan == [] && u.pending.None?
    case Mark => u.scan != [] && u.pending.None?
    case Send => u.pending.Some? && |u.queue| < QUEUE_CAPACITY
    case Take(w) => w < |u.workers| && u.workers[w].Idle? && u.queue != []
    case Open(w, _) => w < |u.workers| && u.workers[w].Taken?
    case Handled(w, _) => w < |u.workers| && u.workers[w].Reading?
    case Rename(w, _) => w < |u.workers| && u.workers[w].Uploaded?
    case Leave(w) => w < |u.workers| && u.workers[w].Leaving?
  }

  function SetWorker(u: Uploader, w: nat, x: Worker): Uploader
    requires w < |u.workers|
  {
    u.(workers := u.workers[w := x])
  }

  function Apply(u: Uploader, step: Step): Uploader
    requires Enabled(u, step)
  {
    match step
    case Scan(files) => u.(scan := files)
    case Mark =>
      if u.scan[0] in u.inQueue then u.(scan := u.scan[1..])
      else u.(scan := u.scan[1..], inQueue := u.inQueue + {u.scan[0]}, pending := Some(u.scan[0]))
    case Send => u.(pending := None, queue := u.queue + [u.pending.value])
    case Take(w) => SetWorker(u, w, Taken(u.queue[0])).(queue := u.queue[1..])
    case Open(w, ok) =>
      var file := u.workers[w].file;
      SetWorker(u, w, if ok then Reading(file) else Leaving(file))
    case Handled(w, ok) =>
      var file := u.workers[w].file;
      SetWorker(u, w, if ok then Uploaded(file) else Leaving(file))
    case Rename(w, _) => SetWorker(u, w, Leaving(u.workers[w].file))
    case Leave(w) => SetWorker(u, w, Idle).(inQueue := u.inQueue - {u.workers[w].file})
  }

  /** A started uploader with `n` workers. */
  function Fresh(n: nat): Uploader
  {
    Uploader([], None, [], {}, seq(n, _ => Idle))
  }

  predicate Holds(x: Worker, file: Name)
  {
    !x.Idle? && x.file == file
  }

  /** The files in the queue, in the pending send and in the workers' hands are pairwise distinct,
      and together they are exactly the marked files. */
  ghost predicate Consistent(u: Uploader)
  {
    && (forall i, j | 0 <= i < j < |u.queue| :: u.queue[i] != u.queue[j])
    && (forall i | 0 <= i < |u.queue| :: u.queue[i] in u.inQueue)
    && (u.pending.Some? ==> u.pending.value in u.inQueue && u.pending.value !in u.queue)
    && (forall w | 0 <= w < |u.workers| && !u.workers[w].Idle? ::
          var file := u.workers[w].file;
          file in u.inQueue && file !in u.queue && u.pending != Some(file))
    && (forall v, w | 0 <= v < w < |u.workers| && !u.workers[v].Idle? && !u.workers[w].Idle? ::
          u.workers[v].file != u.workers[w].file)
    && (forall file | file in u.inQueue ::
          file in u.queue || u.pending == Some(file) || InHands(u, file))
  }

  ghost predicate InHands(u: Uploader, file: Name)
  {
    exists w :: 0 <= w < |u.workers| && Holds(u.workers[w], file)
  }

  lemma FreshIsConsistent(n: nat)
    ensures Consistent(Fresh(n))
  {
  }

  lemma HandsUpdated(u: Uploader, w: nat, x: Worker, file: Name)
    requires w < |u.workers|
    ensures InHands(SetWorker(u, w, x), file) <==>
        Holds(x, file) || exists v :: 0 <= v < |u.workers| && v != w && Holds(u.workers[v], file)
  {
    var u' := SetWorker(u, w, x);
    if Holds(x, file) {
      assert Holds(u'.workers[w], file);
    }
    if v :| 0 <= v < |u.workers| && v != w && Holds(u.workers[v], file) {
      assert Holds(u'.workers[v], file);
    }
  }

  lemma MarkKeepsConsistent(u: Uploader)
    requires Consistent(u) && Enabled(u, Mark)
    ensures Consistent(Apply(u, Mark))
  {
    var u' := Apply(u, Mark);
    assert forall file | InHands(u, file) :: InHands(u', file);
  }

  lemma SendKeepsConsistent(u: Uploader)
    requires Consistent(u) && Enabled(u, Send)
    ensures Consistent(Apply(u, Send))
  {
    var u' := Apply(u, Send);
    var n := |u.queue|;
    assert forall i | 0 <= i < n :: u'.queue[i] == u.queue[i] && u.queue[i] in u.queue;
    assert u'.queue[n] == u.pending.value;
    forall file | file in u'.inQueue
      ensures file in u'.queue || u'.pending == Some(file) || InHands(u', file)
    {
      if InHands(u, file) {
        var w :| 0 <= w < |u.workers| && Holds(u.workers[w], file);
        assert Holds(u'.workers[w], file);
      }
    }
  }

  lemma TakeKeepsConsistent(u: Uploader, w: nat)
    requires Consistent(u) && Enabled(u, Take(w))
    ensures Consistent(Apply(u, Take(w)))
  {
    var u' := Apply(u, Take(w));
    assert u.queue == [u.queue[0]] + u'.queue;
    assert forall i | 0 <= i < |u'.queue| :: u'.queue[i] == u.queue[i + 1];
    assert u.queue[0] !in u'.queue;
    forall file | file in u'.inQueue
      ensures file in u'.queue || u'.pending == Some(file) || InHands(u', file)
    {
      if file == u.queue[0] {
        assert Holds(u'.workers[w], file);
      } else if InHands(u, file) {
        var v :| 0 <= v < |u.workers| && Holds(u.workers[v], file);
        assert Holds(u'.workers[v], file);
      }
    }
  }

  /** Steps that only change what a worker does with the file it holds. */
  lemma WorkKeepsConsistent(u: Uploader, w: nat, x: Worker)
    requires Consistent(u) && w < |u.workers| && !u.workers[w].Idle? && !x.Idle? && x.file == u.workers[w].file
    ensures Consistent(SetWorker(u, w, x))
  {
    forall file | file in u.inQueue
      ensures InHands(u, file) ==> InHands(SetWorker(u, w, x), file)
    {
      HandsUpdated(u, w, x, file);
    }
  }

  lemma LeaveKeepsConsistent(u: Uploader, w: nat)
    requires Consistent(u) && Enabled(u, Leave(w))
    ensures Consistent(Apply(u, Leave(w)))
  {
    var u' := Apply(u, Leave(w));
    forall file | file in u'.inQueue
      ensures file in u'.queue || u'.pending == Some(file) || InHands(u', file)
    {
      HandsUpdated(u, w, Idle, file);
      assert InHands(u', file) <==> InHands(SetWorker(u, w, Idle), file);
    }
  }

  /** Every step keeps the queue consistent, whatever listing the scan got. */
  lemma StepKeepsConsistent(u: Uploader, step: Step)
    requires Consistent(u) && Enabled(u, step)
    ensures Consistent(Apply(u, step))
  {
    match step
    case Scan(files) =>
      var u' := Apply(u, step);
      assert forall file | InHands(u, file) :: InHands(u', file);
    case Mark => MarkKeepsConsistent(u);
    case Send => SendKeepsConsistent(u);
    case Take(w) => TakeKeepsConsistent(u, w);
    case Open(w, ok) => WorkKeepsConsistent(u, w, Apply(u, step).workers[w]);
    case Handled(w, ok) => WorkKeepsConsistent(u, w, Apply(u, step).workers[w]);
    case Rename(w, ok) => WorkKeepsConsistent(u, w, Apply(u, step).workers[w]);
    case Leave(w) => LeaveKeepsConsistent(u, w);
  }

  /** A run: every step is enabled where it happens. */
  ghost predicate IsRun(u: Uploader, steps: seq<Step>)
    decreases |steps|
  {
    steps != [] ==> Enabled(u, steps[0]) && IsRun(Apply(u, steps[0]), steps[1..])
  }

  ghost function After(u: Uploader, steps: seq<Step>): Uploader
    requires IsRun(u, steps)
    decreases |steps|
  {
    if steps == [] then u else After(Apply(u, steps[0]), steps[1..])
  }

  lemma {:induction false} RunKeepsConsistent(u: Uploader, steps: seq<Step>)
    requires Consistent(u) && IsRun(u, steps)
    ensures Consistent(After(u, steps))
    decreases |steps|
  {
    if steps != [] {
      StepKeepsConsistent(u, steps[0]);
      RunKeepsConsistent(Apply(u, steps[0]), steps[1..]);
    }
  }

  /** However scans, sends and workers interleave, no two workers ever hold the same file, and a
      held file is neither queued nor pending. */
  lemma NoFileHeldTwice(n: nat, steps: seq<Step>, v: nat, w: nat)
    requires IsRun(Fresh(n), steps)
    ensures
      var u := After(Fresh(n), steps);
      && (v < w < |u.workers| && !u.workers[v].Idle? && !u.workers[w].Idle? ==> u.workers[v].file != u.workers[w].file)
      && (w < |u.workers| && !u.workers[w].Idle? ==>
          u.workers[w].file !in u.queue && u.pending != Some(u.workers[w].file))
  {
    FreshIsConsistent(n);
    RunKeepsConsistent(Fresh(n), steps);
  }

  /* ---- no listed file is forgotten, and the work ends ---- */

  /** At some state of the run the file is marked. */
  ghost predicate EverMarked(u: Uploader, steps: seq<Step>, file: Name)
    requires IsRun(u, steps)
    decreases |steps|
  {
    file in u.inQueue || (steps != [] && EverMarked(Apply(u, steps[0]), steps[1..], file))
  }

  lemma {:induction false} ListedIsMarked(u: Uploader, steps: seq<Step>, file: Name)
    requires IsRun(u, steps) && file in u.scan
    ensures EverMarked(u, steps, file) || file in After(u, steps).scan
    decreases |steps|
  {
    if steps != [] {
      var u' := Apply(u, steps[0]);
      if file in u'.scan {
        ListedIsMarked(u', steps[1..], file);
      } else {
        assert file in u'.inQueue;
      }
    }
  }

  /** Once a scan is through, every file of its listing was marked at some state since it began. */
  lemma {:induction false} ScanMarksAll(n: nat, first: seq<Step>, files: seq<Name>, steps: seq<Step>)
    requires IsRun(Fresh(n), first) && Enabled(After(Fresh(n), first), Scan(files))
    requires IsRun(Apply(After(Fresh(n), first), Scan(files)), steps)
    ensures
      var u := Apply(After(Fresh(n), first), Scan(files));
      After(u, steps).scan == [] ==> forall file | file in files :: EverMarked(u, steps, file)
  {
    var u := Apply(After(Fresh(n), first), Scan(files));
    if After(u, steps).scan == [] {
      forall file | file in files
        ensures EverMarked(u, steps, file)
      {
        ListedIsMarked(u, steps, file);
      }
    }
  }

  /** Nothing is left to do until the next scan. */
  predicate Quiet(u: Uploader)
  {
    u.scan == [] && u.pending.None? && u.queue == [] && forall w | 0 <= w < |u.workers| :: u.workers[w].Idle?
  }

  function WorkerRank(x: Worker): nat
  {
    match x
    case Idle => 0
    case Leaving(_) => 1
    case Uploaded(_) => 2
    case Reading(_) => 3
    case Taken(_) => 4
  }

  function WorkersRank(workers: seq<Worker>): nat
  {
    if workers == [] then 0 else WorkerRank(workers[0]) + WorkersRank(workers[1..])
  }

  /** How many steps the uploader can still take without another scan. */
  function Rank(u: Uploader): nat
  {
    7 * |u.scan| + (if u.pending.Some? then 6 else 0) + 5 * |u.queue| + WorkersRank(u.workers)
  }

  lemma {:induction false} WorkersRankUpdate(workers: seq<Worker>, w: nat, x: Worker)
    requires w < |workers|
    ensures WorkersRank(workers[w := x]) == WorkersRank(workers) - WorkerRank(workers[w]) + WorkerRank(x)
    ensures WorkersRank(workers) >= WorkerRank(workers[w])
  {
    if w > 0 {
      WorkersRankUpdate(workers[1..], w - 1, x);
      assert workers[w := x][1..] == workers[1..][w - 1 := x];
    }
  }

  lemma StepLowersRank(u: Uploader, step: Step)
    requires Enabled(u, step) && !step.Scan?
    ensures Rank(Apply(u, step)) < Rank(u)
  {
    if step.Take? || step.Open? || step.Handled? || step.Rename? || step.Leave? {
      WorkersRankUpdate(u.workers, step.w, Apply(u, step).workers[step.w]);
    }
  }

  /** Between two scans an uploader takes boundedly many steps. */
  lemma {:induction false} WorkIsBounded(u: Uploader, steps: seq<Step>)
    requires IsRun(u, steps) && forall step | step in steps :: !step.Scan?
    ensures |steps| + Rank(After(u, steps)) <= Rank(u)
    decreases |steps|
  {
    if steps != [] {
      hide Enabled, Apply, Rank;
      assert steps[0] in steps && forall step | step in steps[1..] :: step in steps;
      StepLowersRank(u, steps[0]);
      WorkIsBounded(Apply(u, steps[0]), steps[1..]);
    }
  }

  /** The next thing to do: a worker's, or the scanner's. Each step is given the outcome it can have. */
  function NextStep(u: Uploader, w: nat, ok: bool): Step
    requires w < |u.workers|
  {
    match u.workers[w]
    case Taken(_) => Open(w, ok)
    case Reading(_) => Handled(w, ok)
    case Uploaded(_) => Rename(w, ok)
    case Leaving(_) => Leave(w)
    case Idle => if u.queue != [] then Take(w) else if u.pending.Some? then Send else Mark
  }

  /** Until it is quiet an uploader with a worker can go on: a busy worker always, and if there is
      none an idle one or the scanner. */
  lemma NotQuietGoesOn(u: Uploader, w: nat, ok: bool)
    requires w < |u.workers| && !Quiet(u)
    requires u.workers[w].Idle? ==> forall v | 0 <= v < |u.workers| :: u.workers[v].Idle?
    ensures Enabled(u, NextStep(u, w, ok)) && !NextStep(u, w, ok).Scan?
  {
  }

  /** The channel holds 1024 files at most, a send waits exactly while it is full, and the workers stay
      as many as they were. */
  lemma {:induction false} QueueIsBounded(n: nat, steps: seq<Step>)
    requires IsRun(Fresh(n), steps)
    ensures
      var u := After(Fresh(n), steps);
      |u.queue| <= 1024 && (u.pending.Some? ==> (Enabled(u, Send) <==> |u.queue| < 1024)) && |u.workers| == n
  {
    QueueStaysBounded(Fresh(n), steps);
  }

  lemma {:induction false} QueueStaysBounded(u: Uploader, steps: seq<Step>)
    requires IsRun(u, steps) && |u.queue| <= QUEUE_CAPACITY
    ensures |After(u, steps).queue| <= QUEUE_CAPACITY && |After(u, steps).workers| == |u.workers|
    decreases |steps|
  {
    if steps != [] { QueueStaysBounded(Apply(u, steps[0]), steps[1..]); }
  }
}

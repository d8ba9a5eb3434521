/** The uploads of a table behind a cache of known keys (uploader/cached.go): several workers at
    once, failures, retries, expiry and reset in between. */
module CachedUpload {
  import opened ByteStrings

  /** A file in a worker's hands. `next` is the record to be read; `newKeys` are the keys to be
      remembered, `pending` the rows written for the file so far. */
  datatype Job<R> =
    | Parsing(records: seq<bytes>, next: nat, newKeys: set<bytes>, pending: set<R>)
    | Merging(records: seq<bytes>, left: set<bytes>)

  /** The cache's keys, the rows in the table, the workers, and the files whose insert succeeded. A
      record is known by its key, and a row is taken without its version. */
  datatype State<R> = State(cache: set<bytes>, table: set<R>, jobs: map<nat, Job<R>>, stored: seq<seq<bytes>>)

  datatype Step<R> =
    | Begin(worker: nat, records: seq<bytes>)
    | Record(worker: nat, mark: bool, added: set<R>)
    | Insert(worker: nat)
    | Fail(worker: nat)
    | Merge(worker: nat, key: bytes)
    | End(worker: nat)
    | Forget(keys: set<bytes>)

  /** The rows a record stands for, without any cache. */
  type Rows<!R> = bytes -> set<R>

  ghost predicate Init<R>(s: State<R>)
  {
    s == State({}, {}, map[], [])
  }

  /** A parser may leave out a row that it has written for the same file already, and no other. A
      record whose key is in the cache, or was met in this file, is skipped. */
  ghost predicate Parses<R(!new)>(rows: Rows<R>, s: State<R>, job: Job<R>, mark: bool, added: set<R>)
    requires job.Parsing? && job.next < |job.records|
  {
    var key := job.records[job.next];
    Allowed(rows, key, key in s.cache, job.newKeys, job.pending, mark, added)
  }

  ghost predicate Allowed<R(!new)>(
    rows: Rows<R>, key: bytes, cached: bool, newKeys: set<bytes>, pending: set<R>, mark: bool, added: set<R>)
  {
    if cached || key in newKeys then !mark && added == {}
    else added <= rows(key) <= pending + added
  }

  ghost predicate Enabled<R(!new)>(rows: Rows<R>, s: State<R>, step: Step<R>)
  {
    match step
    case Begin(w, _) => w !in s.jobs
    case Record(w, mark, added) =>
      w in s.jobs && s.jobs[w].Parsing? && s.jobs[w].next < |s.jobs[w].records|
          && Parses(rows, s, s.jobs[w], mark, added)
    case Insert(w) => w in s.jobs && s.jobs[w].Parsing? && s.jobs[w].next == |s.jobs[w].records|
    case Fail(w) => w in s.jobs && s.jobs[w].Parsing?
    case Merge(w, key) => w in s.jobs && s.jobs[w].Merging? && key in s.jobs[w].left
    case End(w) => w in s.jobs && s.jobs[w].Merging? && s.jobs[w].left == {}
    case Forget(_) => true
  }

  function Advance<R>(s: State<R>, w: nat, mark: bool, added: set<R>): State<R>
    requires w in s.jobs && s.jobs[w].Parsing? && s.jobs[w].next < |s.jobs[w].records|
  {
    var job := s.jobs[w];
    s.(jobs := s.jobs[w := Parsing(job.records, job.next + 1,
                                   job.newKeys + (if mark then {job.records[job.next]} else {}), job.pending + added)])
  }

  ghost function Apply<R(!new)>(rows: Rows<R>, s: State<R>, step: Step<R>): State<R>
    requires Enabled(rows, s, step)
  {
    match step
    case Begin(w, records) => s.(jobs := s.jobs[w := Parsing(records, 0, {}, {})])
    case Record(w, mark, added) => Advance(s, w, mark, added)
    case Insert(w) =>
      var job := s.jobs[w];
      s.(table := s.table + job.pending, stored := s.stored + [job.records],
         jobs := s.jobs[w := Merging(job.records, job.newKeys)])
    case Fail(w) => s.(jobs := s.jobs - {w})
    case Merge(w, key) =>
      s.(cache := s.cache + {key}, jobs := s.jobs[w := Merging(s.jobs[w].records, s.jobs[w].left - {key})])
    case End(w) => s.(jobs := s.jobs - {w})
    case Forget(keys) => s.(cache := s.cache - keys)
  }

  ghost predicate IsRun<R(!new)>(rows: Rows<R>, s: State<R>, steps: seq<Step<R>>)
    decreases |steps|
  {
    steps != [] ==> Enabled(rows, s, steps[0]) && IsRun(rows, Apply(rows, s, steps[0]), steps[1..])
  }

  ghost function After<R(!new)>(rows: Rows<R>, s: State<R>, steps: seq<Step<R>>): State<R>
    requires IsRun(rows, s, steps)
    decreases |steps|
  {
    if steps == [] then s else After(rows, Apply(rows, s, steps[0]), steps[1..])
  }

  /** All rows of the first `n` records. */
  ghost predicate Has<R(!new)>(rows: Rows<R>, records: seq<bytes>, n: nat, r: R)
    requires n <= |records|
  {
    exists i | 0 <= i < n :: r in rows(records[i])
  }

  /** What uploading the same files without a cache stores. */
  ghost predicate Uncached<R(!new)>(rows: Rows<R>, files: seq<seq<bytes>>, r: R)
  {
    exists f | 0 <= f < |files| :: Has(rows, files[f], |files[f]|, r)
  }


  ghost predicate JobInv<R(!new)>(rows: Rows<R>, table: set<R>, job: Job<R>)
  {
    match job
    case Parsing(records, next, newKeys, pending) =>
      && next <= |records|
      && (forall i | 0 <= i < next :: rows(records[i]) <= table + pending)
      && (forall k | k in newKeys :: rows(k) <= table + pending)
      && (forall r | r in pending :: Has(rows, records, next, r))
    case Merging(_, left) => forall k | k in left :: rows(k) <= table
  }

  ghost predicate Inv<R(!new)>(rows: Rows<R>, s: State<R>)
  {
    && (forall k | k in s.cache :: rows(k) <= s.table)
    && (forall w | w in s.jobs :: JobInv(rows, s.table, s.jobs[w]))
    && (forall r :: r in s.table <==> Uncached(rows, s.stored, r))
  }

  lemma HasGrows<R(!new)>(rows: Rows<R>, records: seq<bytes>, n: nat)
    requires n < |records|
    ensures forall r | Has(rows, records, n, r) :: Has(rows, records, n + 1, r)
    ensures forall r | r in rows(records[n]) :: Has(rows, records, n + 1, r)
  {
  }

  lemma RecordInv<R(!new)>(rows: Rows<R>, s: State<R>, step: Step<R>)
    requires Inv(rows, s) && step.Record? && Enabled(rows, s, step)
    ensures Inv(rows, Apply(rows, s, step))
  {
    var job, s' := s.jobs[step.worker], Apply(rows, s, step);
    assert JobInv(rows, s.table, job);
    HasGrows(rows, job.records, job.next);
    hide Uncached, Has;
    assert JobInv(rows, s'.table, s'.jobs[step.worker]);
  }

  lemma TableGrows<R(!new)>(rows: Rows<R>, table: set<R>, more: set<R>, job: Job<R>)
    requires JobInv(rows, table, job)
    ensures JobInv(rows, table + more, job)
  {
    hide Has;
  }

  lemma StoredGrows<R(!new)>(rows: Rows<R>, files: seq<seq<bytes>>, records: seq<bytes>, r: R)
    ensures Uncached(rows, files + [records], r) <==> Uncached(rows, files, r) || Has(rows, records, |records|, r)
  {
    hide Has;
    var more := files + [records];
    assert more[|files|] == records;
    assert forall f | 0 <= f < |files| :: more[f] == files[f];
  }

  lemma InsertInv<R(!new)>(rows: Rows<R>, s: State<R>, step: Step<R>)
    requires Inv(rows, s) && step.Insert? && Enabled(rows, s, step)
    ensures Inv(rows, Apply(rows, s, step))
  {
    var w, job, s' := step.worker, s.jobs[step.worker], Apply(rows, s, step);
    assert JobInv(rows, s.table, job);
    forall v | v in s'.jobs
      ensures JobInv(rows, s'.table, s'.jobs[v])
    {
      if v != w {
        TableGrows(rows, s.table, job.pending, s.jobs[v]);
      }
    }
    forall r
      ensures r in s'.table <==> Uncached(rows, s'.stored, r)
    {
      StoredGrows(rows, s.stored, job.records, r);
    }
  }

  lemma StepInv<R(!new)>(rows: Rows<R>, s: State<R>, step: Step<R>)
    requires Inv(rows, s) && Enabled(rows, s, step)
    ensures Inv(rows, Apply(rows, s, step))
  {
    match step
    case Record(_, _, _) => RecordInv(rows, s, step);
    case Insert(_) => InsertInv(rows, s, step);
    case Merge(w, key) =>
      hide Uncached, Has;
      assert JobInv(rows, s.table, s.jobs[w]);
    case _ => hide Uncached, Has;
  }

  lemma {:induction false} RunInv<R(!new)>(rows: Rows<R>, s: State<R>, steps: seq<Step<R>>)
    requires Inv(rows, s) && IsRun(rows, s, steps)
    ensures Inv(rows, After(rows, s, steps))
    decreases |steps|
  {
    hide Inv, Enabled, Apply;
    if steps != [] {
      StepInv(rows, s, steps[0]);
      RunInv(rows, Apply(rows, s, steps[0]), steps[1..]);
    }
  }

  /** In every reachable state all rows of every cached key are stored, and the table holds exactly
      what the same inserts would have stored without a cache. */
  lemma {:induction false} CacheAgrees<R(!new)>(rows: Rows<R>, s0: State<R>, steps: seq<Step<R>>)
    requires Init(s0) && IsRun(rows, s0, steps)
    ensures
      var s := After(rows, s0, steps);
      && (forall k | k in s.cache :: rows(k) <= s.table)
      && (forall r :: r in s.table <==> Uncached(rows, s.stored, r))
  {
    assert Inv(rows, s0);
    RunInv(rows, s0, steps);
  }

  /* ---- one file, read to its end among the other workers' steps ---- */

  /** One record as a parser read it: what others did before, what the cache answered, and what the
      parser marked and wrote. */
  datatype Read<R> = Read(before: seq<Step<R>>, key: bytes, cached: bool, mark: bool, added: set<R>)

  function Keys<R>(file: seq<Read<R>>): (r: seq<bytes>)
    ensures |r| == |file|
  {
    seq(|file|, i requires 0 <= i < |file| => file[i].key)
  }

  function ReadSteps<R>(w: nat, file: seq<Read<R>>): seq<Step<R>>
  {
    if file == [] then []
    else file[0].before + ([Record(w, file[0].mark, file[0].added)] + ReadSteps(w, file[1..]))
  }

  function MarkedBy<R>(file: seq<Read<R>>): set<bytes>
  {
    if file == [] then {} else (if file[0].mark then {file[0].key} else {}) + MarkedBy(file[1..])
  }

  function AddedBy<R>(file: seq<Read<R>>): set<R>
  {
    if file == [] then {} else file[0].added + AddedBy(file[1..])
  }

  ghost predicate Elsewhere<R>(w: nat, steps: seq<Step<R>>)
  {
    forall step | step in steps :: step.Forget? || step.worker != w
  }

  /** The steps in between are possible, are not this worker's, and leave the cache to answer as it
      did. */
  ghost predicate Answered<R(!new)>(rows: Rows<R>, s: State<R>, w: nat, file: seq<Read<R>>)
    decreases |file|
  {
    file == [] ||
    var r := file[0];
    && IsRun(rows, s, r.before) && Elsewhere(w, r.before)
    && var s' := After(rows, s, r.before);
       && r.cached == (r.key in s'.cache)
       && (w in s'.jobs && s'.jobs[w].Parsing? && s'.jobs[w].next < |s'.jobs[w].records| ==>
             Answered(rows, Advance(s', w, r.mark, r.added), w, file[1..]))
  }

  /** The parser did with each record what its answer allows. */
  ghost predicate AllAllowed<R(!new)>(rows: Rows<R>, newKeys: set<bytes>, pending: set<R>, file: seq<Read<R>>)
    decreases |file|
  {
    file == [] ||
    var r := file[0];
    && Allowed(rows, r.key, r.cached, newKeys, pending, r.mark, r.added)
    && AllAllowed(rows, newKeys + (if r.mark then {r.key} else {}), pending + r.added, file[1..])
  }

  lemma NothingRead<R(!new)>(rows: Rows<R>, newKeys: set<bytes>, pending: set<R>)
    ensures MarkedBy<R>([]) == {} && AddedBy<R>([]) == {} && Keys<R>([]) == [] && AllAllowed(rows, newKeys, pending, [])
  {
  }

  lemma FirstRead<R(!new)>(rows: Rows<R>, newKeys: set<bytes>, pending: set<R>, r: Read<R>, rest: seq<Read<R>>)
    ensures
      var file := [r] + rest;
      && MarkedBy(file) == (if r.mark then {r.key} else {}) + MarkedBy(rest) && AddedBy(file) == r.added + AddedBy(rest)
      && Keys(file) == [r.key] + Keys(rest)
      && (AllAllowed(rows, newKeys, pending, file) <==>
            && Allowed(rows, r.key, r.cached, newKeys, pending, r.mark, r.added)
            && AllAllowed(rows, newKeys + (if r.mark then {r.key} else {}), pending + r.added, rest))
  {
    assert ([r] + rest)[1..] == rest;
  }

  lemma {:induction false} RunsJoin<R(!new)>(rows: Rows<R>, s: State<R>, a: seq<Step<R>>, b: seq<Step<R>>)
    requires IsRun(rows, s, a) && IsRun(rows, After(rows, s, a), b)
    ensures IsRun(rows, s, a + b) && After(rows, s, a + b) == After(rows, After(rows, s, a), b)
    decreases |a|
  {
    hide Enabled, Apply;
    if a == [] {
      EmptyFirst(b);
    } else {
      assert (a + b)[1..] == a[1..] + b;
      RunsJoin(rows, Apply(rows, s, a[0]), a[1..], b);
    }
  }

  lemma OneStep<R(!new)>(rows: Rows<R>, s: State<R>, step: Step<R>)
    requires Enabled(rows, s, step)
    ensures IsRun(rows, s, [step]) && After(rows, s, [step]) == Apply(rows, s, step)
  {
    hide Enabled, Apply;
    assert [step][1..] == [];
  }

  lemma ElsewhereKeeps<R(!new)>(rows: Rows<R>, s: State<R>, step: Step<R>, w: nat)
    requires Enabled(rows, s, step) && (step.Forget? || step.worker != w)
    ensures w in Apply(rows, s, step).jobs <==> w in s.jobs
    ensures w in s.jobs ==> Apply(rows, s, step).jobs[w] == s.jobs[w]
  {
  }

  lemma {:induction false} OthersKeepJob<R(!new)>(rows: Rows<R>, s: State<R>, steps: seq<Step<R>>, w: nat)
    requires IsRun(rows, s, steps) && Elsewhere(w, steps)
    ensures
      var s' := After(rows, s, steps);
      (w in s'.jobs <==> w in s.jobs) && (w in s.jobs ==> s'.jobs[w] == s.jobs[w])
    decreases |steps|
  {
    hide Enabled, Apply;
    if steps != [] {
      ElsewhereKeeps(rows, s, steps[0], w);
      assert forall step | step in steps[1..] :: step in steps;
      OthersKeepJob(rows, Apply(rows, s, steps[0]), steps[1..], w);
    }
  }

  lemma ReadOne<R(!new)>(rows: Rows<R>, s: State<R>, w: nat, r: Read<R>, job: Job<R>)
    requires w in s.jobs && s.jobs[w] == job && job.Parsing? && job.next < |job.records|
        && job.records[job.next] == r.key
    requires r.cached == (r.key in s.cache) && Allowed(rows, r.key, r.cached, job.newKeys, job.pending, r.mark, r.added)
    ensures
      var step := Record(w, r.mark, r.added);
      Enabled(rows, s, step) && Apply(rows, s, step) == Advance(s, w, r.mark, r.added)
  {
    hide Allowed;
  }

  /** A parser that is allowed each of its steps takes the worker through the whole file: its file
      are a run, among whatever the others do, and at the end the worker holds every row it wrote
      and every key it marked. */
  lemma {:induction false} ReadsAreRun<R(!new)>(rows: Rows<R>, s: State<R>, w: nat, file: seq<Read<R>>)
    requires w in s.jobs && s.jobs[w].Parsing? && s.jobs[w].next <= |s.jobs[w].records|
    requires s.jobs[w].records[s.jobs[w].next..] == Keys(file)
    requires Answered(rows, s, w, file) && AllAllowed(rows, s.jobs[w].newKeys, s.jobs[w].pending, file)
    ensures
      var job, steps := s.jobs[w], ReadSteps(w, file);
      && IsRun(rows, s, steps)
      && var s' := After(rows, s, steps);
         w in s'.jobs &&
         s'.jobs[w] == Parsing(job.records, |job.records|, job.newKeys + MarkedBy(file), job.pending + AddedBy(file))
    decreases |file|
  {
    hide Enabled, Apply, Allowed;
    if file != [] {
      var job, r := s.jobs[w], file[0];
      var s1, step := After(rows, s, r.before), Record(w, r.mark, r.added);
      OthersKeepJob(rows, s, r.before, w);
      assert job.records[job.next] == Keys(file)[0] == r.key;
      ReadOne(rows, s1, w, r, job);
      OneStep(rows, s1, step);
      var s2 := Apply(rows, s1, step);
      assert s2.jobs[w].records[s2.jobs[w].next..] == Keys(file[1..]);
      ReadsAreRun(rows, s2, w, file[1..]);
      RunsJoin(rows, s1, [step], ReadSteps(w, file[1..]));
      RunsJoin(rows, s, r.before, [step] + ReadSteps(w, file[1..]));
    }
  }

  /** A file from its start to its insert. */
  function FileSteps<R>(w: nat, file: seq<Read<R>>): seq<Step<R>>
  {
    [Begin(w, Keys(file))] + (ReadSteps(w, file) + [Insert(w)])
  }

  lemma FileIsRun<R(!new)>(rows: Rows<R>, s: State<R>, w: nat, file: seq<Read<R>>)
    requires w !in s.jobs && Answered(rows, Apply(rows, s, Begin(w, Keys(file))), w, file)
        && AllAllowed(rows, {}, {}, file)
    ensures
      var steps := FileSteps(w, file);
      && IsRun(rows, s, steps)
      && var s' := After(rows, s, steps);
         && s'.stored != [] && s'.stored[|s'.stored| - 1] == Keys(file) && AddedBy(file) <= s'.table
         && w in s'.jobs && s'.jobs[w] == Merging(Keys(file), MarkedBy(file))
  {
    var s1 := Apply(rows, s, Begin(w, Keys(file)));
    OneStep(rows, s, Begin(w, Keys(file)));
    assert s1.jobs[w] == Parsing(Keys(file), 0, {}, {}) && Keys(file)[0..] == Keys(file);
    ReadsAreRun(rows, s1, w, file);
    var s2 := After(rows, s1, ReadSteps(w, file));
    assert {} + MarkedBy(file) == MarkedBy(file) && {} + AddedBy(file) == AddedBy(file);
    hide Answered, AllAllowed, IsRun, After, ReadSteps, MarkedBy, AddedBy, Keys;
    OneStep(rows, s2, Insert(w));
    RunsJoin(rows, s1, ReadSteps(w, file), [Insert(w)]);
    RunsJoin(rows, s, [Begin(w, Keys(file))], ReadSteps(w, file) + [Insert(w)]);
  }

  /** After the run `first` the worker is free, and reads the file as it says among the others. */
  ghost predicate ReadAfter<R(!new)>(rows: Rows<R>, s0: State<R>, first: seq<Step<R>>, w: nat, file: seq<Read<R>>)
  {
    && Init(s0) && IsRun(rows, s0, first)
    && var s := After(rows, s0, first);
       w !in s.jobs && Answered(rows, Apply(rows, s, Begin(w, Keys(file))), w, file)
  }

  /** A run that ends with the insert of a file, after which the worker goes on to remember the keys
      marked, and the table holds exactly what it would hold without a cache. */
  ghost predicate AgreesAfter<R(!new)>(
    rows: Rows<R>, s0: State<R>, steps: seq<Step<R>>, w: nat, records: seq<bytes>, marked: set<bytes>)
  {
    && IsRun(rows, s0, steps)
    && var s := After(rows, s0, steps);
       && w in s.jobs && s.jobs[w] == Merging(records, marked)
       && s.stored != [] && s.stored[|s.stored| - 1] == records
       && forall r :: r in s.table <==> Uncached(rows, s.stored, r)
  }

  /** A file read by such a parser at any time, among any other workers, failures and expiries, is
      stored as if there were no cache. */
  lemma FileAgrees<R(!new)>(rows: Rows<R>, s0: State<R>, first: seq<Step<R>>, w: nat, file: seq<Read<R>>)
    requires ReadAfter(rows, s0, first, w, file) && AllAllowed(rows, {}, {}, file)
    ensures AgreesAfter(rows, s0, first + FileSteps(w, file), w, Keys(file), MarkedBy(file))
  {
    var s := After(rows, s0, first);
    FileIsRun(rows, s, w, file);
    hide Answered, AllAllowed, IsRun, After, FileSteps, MarkedBy, Keys, Uncached, Init;
    RunsJoin(rows, s0, first, FileSteps(w, file));
    CacheAgrees(rows, s0, first + FileSteps(w, file));
  }

  /* ---- what is marked is remembered ---- */

  ghost predicate Remembered<R>(s: State<R>, w: nat, key: bytes)
  {
    key in s.cache || (w in s.jobs && s.jobs[w].Merging? && key in s.jobs[w].left)
  }

  lemma StepRemembers<R(!new)>(rows: Rows<R>, s: State<R>, step: Step<R>, w: nat, key: bytes)
    requires Enabled(rows, s, step) && !step.Forget? && Remembered(s, w, key)
    ensures Remembered(Apply(rows, s, step), w, key)
  {
  }

  /** Unless keys are forgotten, a worker that is done with a file has put every key it marked into the
      cache. */
  lemma {:induction false} MarkedIsCached<R(!new)>(rows: Rows<R>, s: State<R>, steps: seq<Step<R>>, w: nat, key: bytes)
    requires IsRun(rows, s, steps) && Remembered(s, w, key) && forall step | step in steps :: !step.Forget?
    ensures Remembered(After(rows, s, steps), w, key)
    ensures w !in After(rows, s, steps).jobs ==> key in After(rows, s, steps).cache
    decreases |steps|
  {
    hide Enabled, Apply;
    if steps != [] {
      assert steps[0] in steps && forall step | step in steps[1..] :: step in steps;
      StepRemembers(rows, s, steps[0], w, key);
      MarkedIsCached(rows, Apply(rows, s, steps[0]), steps[1..], w, key);
    }
  }

  /* ---- an example ---- */

  ghost predicate Reaches<R(!new)>(rows: Rows<R>, s: State<R>, s': State<R>)
  {
    exists steps :: IsRun(rows, s, steps) && After(rows, s, steps) == s'
  }

  lemma Go<R(!new)>(rows: Rows<R>, s: State<R>, a: State<R>, step: Step<R>, b: State<R>)
    requires Reaches(rows, s, a) && Enabled(rows, a, step) && Apply(rows, a, step) == b
    ensures Reaches(rows, s, b)
  {
    hide Enabled, Apply;
    var steps :| IsRun(rows, s, steps) && After(rows, s, steps) == a;
    OneStep(rows, a, step);
    RunsJoin(rows, s, steps, [step]);
  }

  /** A file of one record, read for the first time: its rows are stored and its key is remembered. */
  lemma FirstTime<R(!new)>(rows: Rows<R>, s0: State<R>, s: State<R>, key: bytes)
    requires Reaches(rows, s0, s) && s.jobs == map[] && key !in s.cache
    ensures Reaches(rows, s0, State(s.cache + {key}, s.table + rows(key), map[], s.stored + [[key]]))
  {
    hide Reaches;
    var r := rows(key);
    var t: State<R> := State(s.cache, s.table + r, map[], s.stored + [[key]]);
    assert {} + {key} == {key} && {} + r == r && {key} - {key} == {};
    Go(rows, s0, s, Begin(0, [key]), s.(jobs := map[0 := Parsing([key], 0, {}, {})]));
    Go(rows, s0, s.(jobs := map[0 := Parsing([key], 0, {}, {})]), Record(0, true, r),
       s.(jobs := map[0 := Parsing([key], 1, {key}, r)]));
    Go(rows, s0, s.(jobs := map[0 := Parsing([key], 1, {key}, r)]), Insert(0),
        t.(jobs := map[0 := Merging([key], {key})]));
    Go(rows, s0, t.(jobs := map[0 := Merging([key], {key})]), Merge(0, key),
       t.(cache := s.cache + {key}, jobs := map[0 := Merging([key], {})]));
    assert map[0 := Job<R>.Merging([key], {})] - {0} == map[];
    Go(rows, s0, t.(cache := s.cache + {key}, jobs := map[0 := Merging([key], {})]), End(0),
        t.(cache := s.cache + {key}));
  }

  /** Read once more, it is skipped. */
  lemma SecondTime<R(!new)>(rows: Rows<R>, s0: State<R>, s: State<R>, key: bytes)
    requires Reaches(rows, s0, s) && s.jobs == map[] && key in s.cache
    ensures Reaches(rows, s0, s.(stored := s.stored + [[key]]))
  {
    hide Reaches;
    var t: State<R> := s.(stored := s.stored + [[key]]);
    var noKeys: set<bytes>, noRows: set<R> := {}, {};
    assert s.table + noRows == s.table && noKeys + noKeys == noKeys && noRows + noRows == noRows;
    Go(rows, s0, s, Begin(0, [key]), s.(jobs := map[0 := Parsing([key], 0, {}, {})]));
    Go(rows, s0, s.(jobs := map[0 := Parsing([key], 0, {}, {})]), Record(0, false, {}),
       s.(jobs := map[0 := Parsing([key], 1, {}, {})]));
    Go(rows, s0, s.(jobs := map[0 := Parsing([key], 1, {}, {})]), Insert(0), t.(jobs := map[0 := Merging([key], {})]));
    assert map[0 := Job<R>.Merging([key], {})] - {0} == map[];
    Go(rows, s0, t.(jobs := map[0 := Merging([key], {})]), End(0), t);
  }

  /** A file that fails and is forgotten about, stored, read again with its key remembered, and stored
      again after the key has expired. */
  lemma StoredTwiceOfThree<R(!new)>(rows: Rows<R>, key: bytes)
    ensures
      var s0: State<R> := State({}, {}, map[], []);
      Init(s0) && Reaches(rows, s0, State({key}, rows(key), map[], [[key], [key], [key]]))
  {
    var s0: State<R> := State({}, {}, map[], []);
    var r := rows(key);
    assert IsRun(rows, s0, []) && After(rows, s0, []) == s0;
    assert Reaches(rows, s0, s0);
    hide Reaches;
    Go(rows, s0, s0, Begin(0, [key]), s0.(jobs := map[0 := Parsing([key], 0, {}, {})]));
    assert map[0 := Job<R>.Parsing([key], 0, {}, {})] - {0} == map[];
    Go(rows, s0, s0.(jobs := map[0 := Parsing([key], 0, {}, {})]), Fail(0), s0);
    FirstTime(rows, s0, s0, key);
    assert {} + {key} == {key} && {} + r == r && r + r == r && {key} - {key} == {};
    assert [] + [[key]] == [[key]] && [[key]] + [[key]] == [[key], [key]]
        && [[key], [key]] + [[key]] == [[key], [key], [key]];
    SecondTime(rows, s0, State({key}, r, map[], [[key]]), key);
    Go(rows, s0, State({key}, r, map[], [[key], [key]]), Forget({key}), State({}, r, map[], [[key], [key]]));
    FirstTime(rows, s0, State({}, r, map[], [[key], [key]]), key);
  }
}

/** The life of a chunk file (writer/writer.go, writer/link.go, writer/cleanup.go,
    uploader/base.go): written as `default.N` in the data directory, linked into every table's
    directory once closed, uploaded from there and renamed to `_default.N`, and removed when every
    table has it renamed. The file system is the state the writer, the linking goroutines, the
    cleaner and the uploaders share; every system call is a step of its own, and the process may
    crash between any two steps. */
module ChunkLifecycle {
  import opened ByteStrings
  import Q = UploadQueue

  type Name = Q.Name
  type Table = string

  /** A file in a table's directory: `default.N`, or `_default.N` once `finished`. */
  datatype Entry = Entry(file: Name, finished: bool)

  /** Where `Link` stands: at which table, and which of its two checks it has passed there. */
  datatype Stage = CheckLink | CheckDone | MakeLink
  datatype Linker = Linker(table: nat, stage: Stage)

  /** `Start` links what is on disk and cleans up once; then the worker opens, fills, closes and
      publishes one file after another. */
  datatype Writer =
    | Down
    | LinkAll(rest: seq<Name>)
    | FirstCleanup
    | NoFile
    | Writing(file: Name)
    | Closed(file: Name)
    | Stopped

  /** Where `Writer.Cleanup` stands. */
  datatype Cleaner =
    | Resting
    | Roots(rest: seq<Name>)
    | Checking(file: Name, table: nat, rest: seq<Name>)
    | Unlinking(file: Name, table: nat, rest: seq<Name>)
    | Tables(table: nat)
    | Entries(table: nat, list: seq<Entry>)
    | Broken(table: nat, entry: Entry, list: seq<Entry>)
    | PassDone

  /** `root`, `content`: the data directory, and what was written to each file that ever was in it.
      `link`, `done`: the files `default.N` and `_default.N` of each table.
      The rest of the last line is history: names ever chosen, the files whose data was gone when the
      cleaner started on the table directories, the contents of every successful upload, and how
      often the process crashed or a rename failed. */
  datatype State = State(
    tables: seq<Table>,
    root: set<Name>, content: map<Name, bytes>, link: set<(Name, Table)>, done: set<(Name, Table)>,
    writer: Writer, linkers: map<Name, Linker>, cleaner: Cleaner, up: map<Table, Q.Uploader>,
    used: set<Name>, gone: set<Name>, delivered: map<(Name, Table), seq<bytes>>,
    crashes: nat, failedRenames: multiset<(Name, Table)>)

  datatype Step =
    | Start(files: seq<Name>)
    | LinkNext
    | LinkAllDone
    | LinkStep(file: Name)
    | LinkFail(file: Name)
    | Create(file: Name, ok: bool)
    | Write(data: bytes)
    | Rotate
    | Publish
    | StopWriter
    | CleanBegin(files: seq<Name>)
    | CleanStep
    | CleanList(entries: seq<Entry>)
    | CleanFail
    | Upload(t: Table, ustep: Q.Step)
    | Crash

  /** `os.Stat` follows the link: a link whose target is gone does not exist for it. */
  predicate Resolves(s: State, e: Entry, t: Table)
  {
    Exists(s, e, t) && e.file in s.root
  }

  /** The directory entry itself, which is what `ReadDir`, `Lstat`, `Rename` and `Remove` see. */
  predicate Exists(s: State, e: Entry, t: Table)
  {
    (e.file, t) in if e.finished then s.done else s.link
  }

  /** The contents uploaded to `t` from the file `c`, one for each success. */
  function Uploads(delivered: map<(Name, Table), seq<bytes>>, c: Name, t: Table): seq<bytes>
  {
    if (c, t) in delivered then delivered[(c, t)] else []
  }

  predicate WorkerRuns(s: State)
  {
    s.writer.NoFile? || s.writer.Writing? || s.writer.Closed?
  }

  ghost predicate Enabled(s: State, step: Step)
  {
    match step
    case Start(files) => s.writer.Down? && forall c :: c in files <==> c in s.root
    case LinkNext => s.writer.LinkAll? && s.writer.rest != [] && s.linkers == map[]
    case LinkAllDone => s.writer.LinkAll? && s.writer.rest == [] && s.linkers == map[]
    case LinkStep(c) =>
      c in s.linkers &&
      var l := s.linkers[c];
      l.table < |s.tables| && l.stage.MakeLink? ==> (c, s.tables[l.table]) !in s.link
    case LinkFail(c) => c in s.linkers
    case Create(c, _) => s.writer.NoFile? && c !in s.used
    case Write(_) => s.writer.Writing?
    case Rotate => s.writer.Writing?
    case Publish => s.writer.Closed?
    case StopWriter => WorkerRuns(s)
    case CleanBegin(files) =>
      s.cleaner.Resting? && (WorkerRuns(s) || s.writer.FirstCleanup?) && forall c :: c in files <==> c in s.root
    case CleanStep =>
      match s.cleaner {
        case Resting => false
        case Roots(_) => true
        case Checking(c, i, _) => i < |s.tables| || (|s.tables| > 0 && c in s.root)
        case Unlinking(c, i, _) => i < |s.tables| ==> (c, s.tables[i]) in s.done
        case Tables(i) => i >= |s.tables|
        case Entries(i, _) => i < |s.tables|
        case Broken(i, e, _) => i < |s.tables| && Exists(s, e, s.tables[i])
        case PassDone => true
      }
    case CleanList(entries) =>
      && s.cleaner.Tables? && s.cleaner.table < |s.tables|
      && forall e :: e in entries <==> Exists(s, e, s.tables[s.cleaner.table])
    case CleanFail => !s.cleaner.Resting?
    case Upload(t, ustep) => t in s.up && Q.Enabled(s.up[t], ustep) && UploadEnabled(s, t, ustep)
    case Crash => true
  }

  /** What the disk must look like for the outcome of an uploader's step. */
  ghost predicate UploadEnabled(s: State, t: Table, step: Q.Step)
    requires t in s.up && Q.Enabled(s.up[t], step)
  {
    match step
    case Scan(files) => forall c | c in files :: (c, t) in s.link
    case Open(w, ok) => ok ==> Resolves(s, Entry(s.up[t].workers[w].file, false), t)
    case Rename(w, ok) => ok ==> (s.up[t].workers[w].file, t) in s.link
    case _ => true
  }

  function NextTable(s: State, c: Name): State
    requires c in s.linkers
  {
    s.(linkers := s.linkers[c := Linker(s.linkers[c].table + 1, CheckLink)])
  }

  /** `Link`: an existing link, or an existing finished one, is left alone. */
  function ApplyLink(s: State, c: Name): State
    requires c in s.linkers
  {
    var l := s.linkers[c];
    if l.table >= |s.tables| then s.(linkers := s.linkers - {c})
    else
      var t := s.tables[l.table];
      match l.stage
      case CheckLink =>
        if Resolves(s, Entry(c, false), t) then NextTable(s, c)
        else s.(linkers := s.linkers[c := Linker(l.table, CheckDone)])
      case CheckDone =>
        if Resolves(s, Entry(c, true), t) then NextTable(s, c)
        else s.(linkers := s.linkers[c := Linker(l.table, MakeLink)])
      case MakeLink => NextTable(s.(link := s.link + {(c, t)}), c)
  }

  /** `Cleanup` of one file, then the removal of broken links table by table. */
  function ApplyClean(s: State): State
    requires Enabled(s, CleanStep)
  {
    match s.cleaner
    case Roots(rest) =>
      if rest == [] then s.(cleaner := Tables(0), gone := s.content.Keys - s.root)
      else s.(cleaner := Checking(rest[0], 0, rest[1..]))
    case Checking(c, i, rest) =>
      if i >= |s.tables| then s.(root := s.root - {c}, cleaner := Unlinking(c, 0, rest))
      else if Resolves(s, Entry(c, true), s.tables[i]) then s.(cleaner := Checking(c, i + 1, rest))
      else s.(cleaner := Roots(rest))
    case Unlinking(c, i, rest) =>
      if i >= |s.tables| then s.(cleaner := Roots(rest))
      else s.(done := s.done - {(c, s.tables[i])}, cleaner := Unlinking(c, i + 1, rest))
    case Tables(i) => s.(cleaner := PassDone)
    case Entries(i, list) =>
      if list == [] then s.(cleaner := Tables(i + 1))
      else if Resolves(s, list[0], s.tables[i]) then s.(cleaner := Entries(i, list[1..]))
      else s.(cleaner := Broken(i, list[0], list[1..]))
    case Broken(i, e, list) =>
      var key := (e.file, s.tables[i]);
      var s' := s.(cleaner := Entries(i, list));
      if e.finished then s'.(done := s.done - {key}) else s'.(link := s.link - {key})
    case PassDone =>
      s.(cleaner := Resting, writer := if s.writer.FirstCleanup? then NoFile else s.writer)
  }

  function ApplyUpload(s: State, t: Table, step: Q.Step): State
    requires t in s.up && Q.Enabled(s.up[t], step)
  {
    var s' := s.(up := s.up[t := Q.Apply(s.up[t], step)]);
    match step
    case Handled(w, true) =>
      var c := s.up[t].workers[w].file;
      var data := if c in s.content then s.content[c] else [];
      s'.(delivered := s.delivered[(c, t) := Uploads(s.delivered, c, t) + [data]])
    case Rename(w, ok) =>
      var key := (s.up[t].workers[w].file, t);
      if ok then s'.(link := s.link - {key}, done := s.done + {key})
      else s'.(failedRenames := s.failedRenames + multiset{key})
    case _ => s'
  }

  ghost function Apply(s: State, step: Step): State
    requires Enabled(s, step)
  {
    match step
    case Start(files) => s.(writer := LinkAll(files))
    case LinkNext =>
      s.(writer := LinkAll(s.writer.rest[1..]), linkers := s.linkers[s.writer.rest[0] := Linker(0, CheckLink)])
    case LinkAllDone => s.(writer := FirstCleanup)
    case LinkStep(c) => ApplyLink(s, c)
    case LinkFail(c) =>
      s.(linkers := s.linkers - {c}, writer := if s.writer.LinkAll? then Stopped else s.writer)
    case Create(c, ok) =>
      var s' := s.(used := s.used + {c});
      if ok then s'.(root := s.root + {c}, content := s.content[c := []], writer := Writing(c))
      else s'.(writer := Closed(c))
    case Write(data) =>
      var c := s.writer.file;
      s.(content := s.content[c := (if c in s.content then s.content[c] else []) + data])
    case Rotate => s.(writer := Closed(s.writer.file))
    case Publish => s.(writer := NoFile, linkers := s.linkers[s.writer.file := Linker(0, CheckLink)])
    case StopWriter => s.(writer := Stopped)
    case CleanBegin(files) => s.(cleaner := Roots(files))
    case CleanStep => ApplyClean(s)
    case CleanList(entries) => s.(cleaner := Entries(s.cleaner.table, entries))
    case CleanFail =>
      s.(cleaner := Resting, writer := if s.writer.FirstCleanup? then Stopped else s.writer)
    case Upload(t, ustep) => ApplyUpload(s, t, ustep)
    case Crash =>
      s.(writer := Down, linkers := map[], cleaner := Resting, crashes := s.crashes + 1,
         up := map t | t in s.up :: Q.Fresh(|s.up[t].workers|))
  }

  /** A data directory with nothing in it, and an uploader for every table. */
  ghost predicate Init(s: State)
  {
    && (forall i, j | 0 <= i < j < |s.tables| :: s.tables[i] != s.tables[j])
    && s.root == {} && s.content == map[] && s.link == {} && s.done == {}
    && s.writer == Down && s.linkers == map[] && s.cleaner == Resting
    && s.used == {} && s.gone == {} && s.delivered == map[]
    && s.crashes == 0 && s.failedRenames == multiset{}
    && (forall t :: t in s.up <==> t in s.tables)
    && (forall t | t in s.up :: s.up[t] == Q.Fresh(|s.up[t].workers|))
  }

  ghost predicate IsRun(s: State, steps: seq<Step>)
    decreases |steps|
  {
    steps != [] ==> Enabled(s, steps[0]) && IsRun(Apply(s, steps[0]), steps[1..])
  }

  ghost function After(s: State, steps: seq<Step>): State
    requires IsRun(s, steps)
    decreases |steps|
  {
    if steps == [] then s else After(Apply(s, steps[0]), steps[1..])
  }
}

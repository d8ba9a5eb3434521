/** The invariant of the chunk life cycle: each part names the parts of the state it is about, and
    each kind of step keeps it. */
module ChunkInvariant {
  import opened ByteStrings
  import opened ChunkLifecycle
  import Q = UploadQueue

  type Files = set<(Name, Table)>
  type Log = map<(Name, Table), seq<bytes>>

  /** Nothing on disk or in flight has a name that was not chosen before. */
  ghost predicate InvNames(tables: seq<Table>, root: set<Name>, created: set<Name>, used: set<Name>, link: Files,
      linkers: map<Name, Linker>)
  {
    && (forall i, j | 0 <= i < j < |tables| :: tables[i] != tables[j])
    && root <= created <= used
    && (forall c, t | (c, t) in link :: c in used && t in tables)
    && linkers.Keys <= used
  }

  ghost predicate InvWriter(writer: Writer, root: set<Name>, created: set<Name>, used: set<Name>)
  {
    match writer
    case Writing(c) => c in root
    case Closed(c) => c in used && (c in created ==> c in root)
    case LinkAll(rest) => forall c | c in rest :: c in root
    case _ => true
  }

  /** A file not yet published is linked nowhere and uploaded nowhere. */
  ghost predicate InvUnpublished(writer: Writer, linkers: map<Name, Linker>, link: Files, done: Files, delivered: Log)
  {
    writer.Writing? || writer.Closed? ==>
      && writer.file !in linkers
      && forall t :: (writer.file, t) !in link && (writer.file, t) !in done && Uploads(delivered, writer.file, t) == []
  }

  ghost predicate InvDisk(tables: seq<Table>, root: set<Name>, created: set<Name>, link: Files, done: Files,
      delivered: Log)
  {
    && (forall c, t | (c, t) in link && c in created :: c in root)
    && (forall c, t | (c, t) in done :: c in created && (c, t) !in link && Uploads(delivered, c, t) != [])
    && (forall c, t | c in created && c !in root && t in tables :: Uploads(delivered, c, t) != [])
    && (forall c, t | c in root && (c, t) !in link && (c, t) !in done :: Uploads(delivered, c, t) == [])
  }

  /** Every successful upload delivered the whole, final content of the file. */
  ghost predicate InvDelivered(delivered: Log, content: map<Name, bytes>)
  {
    forall c, t, data | data in Uploads(delivered, c, t) :: c in content && data == content[c]
  }

  /** While a goroutine still has tables to link, the data is there. */
  ghost predicate InvLinkers(tables: seq<Table>, root: set<Name>, created: set<Name>, linkers: map<Name, Linker>)
  {
    forall c | c in linkers ::
      && linkers[c].table <= |tables|
      && (linkers[c].table < |tables| && c in created ==> c in root)
  }

  /** What the checks passed at the current table have established. */
  ghost predicate InvStages(tables: seq<Table>, root: set<Name>, link: Files, done: Files, linkers: map<Name, Linker>)
  {
    forall c | c in linkers && c in root && linkers[c].table < |tables| ::
      && (!linkers[c].stage.CheckLink? ==> (c, tables[linkers[c].table]) !in link)
      && (linkers[c].stage.MakeLink? ==> (c, tables[linkers[c].table]) !in done)
  }

  /** After start-up, a goroutine's remaining tables have no link of its file yet. */
  ghost predicate InvFirstLinks(starting: bool, tables: seq<Table>, link: Files, done: Files,
      linkers: map<Name, Linker>)
  {
    !starting ==> forall c, j | c in linkers && linkers[c].table <= j < |tables| ::
      (c, tables[j]) !in link && (c, tables[j]) !in done
  }

  ghost predicate FullyLinked(tables: seq<Table>, link: Files, done: Files, c: Name)
  {
    forall j | 0 <= j < |tables| :: (c, tables[j]) in link || (c, tables[j]) in done
  }

  /** Start-up links one file at a time, to every table, before the cleaner starts. */
  ghost predicate InvStart(tables: seq<Table>, root: set<Name>, link: Files, done: Files, writer: Writer,
      linkers: map<Name, Linker>, cleaner: Cleaner)
  {
    && (writer.Down? || writer.FirstCleanup? ==> linkers == map[])
    && (writer.Down? || writer.LinkAll? ==> cleaner.Resting?)
    && (writer.LinkAll? ==>
          && (forall c, d | c in linkers && d in linkers :: c == d)
          && (forall c | c in linkers :: c in root)
          && (forall c, j | c in linkers && 0 <= j < linkers[c].table && j < |tables| ::
                (c, tables[j]) in link || (c, tables[j]) in done)
          && (forall c | c in root :: c in writer.rest || c in linkers || FullyLinked(tables, link, done, c)))
    && (writer.FirstCleanup? ==> forall c | c in root :: FullyLinked(tables, link, done, c))
  }

  predicate Busy(x: Q.Worker)
  {
    x.Reading? || x.Uploaded?
  }

  ghost predicate InvQueues(tables: seq<Table>, up: map<Table, Q.Uploader>)
  {
    && (forall t :: t in up <==> t in tables)
    && (forall t | t in up :: Q.Consistent(up[t]))
  }

  /** A file that is being uploaded stays where it is. */
  ghost predicate InvBusy(up: map<Table, Q.Uploader>, link: Files, root: set<Name>)
  {
    forall t, w | t in up && 0 <= w < |up[t].workers| && Busy(up[t].workers[w]) ::
      (up[t].workers[w].file, t) in link && up[t].workers[w].file in root
  }

  /** An upload whose rename is still to come is on record. */
  ghost predicate InvUploaded(up: map<Table, Q.Uploader>, delivered: Log)
  {
    forall t, w | t in up && 0 <= w < |up[t].workers| && up[t].workers[w].Uploaded? ::
      Uploads(delivered, up[t].workers[w].file, t) != []
  }

  /** A listed entry: it, or what it was renamed to, is there, or the data is gone. */
  ghost predicate ListedOk(used: set<Name>, root: set<Name>, link: Files, done: Files, e: Entry, t: Table)
  {
    e.file in used && (e.file !in root || (e.file, t) in done || (!e.finished && (e.file, t) in link))
  }

  ghost predicate AllListedOk(used: set<Name>, root: set<Name>, link: Files, done: Files, list: seq<Entry>, t: Table)
  {
    forall e | e in list :: ListedOk(used, root, link, done, e, t)
  }

  /** An entry found broken: the data is gone, or it was renamed since. */
  ghost predicate BrokenOk(used: set<Name>, root: set<Name>, done: Files, e: Entry, t: Table)
  {
    e.file in used && (e.file !in root || (!e.finished && (e.file, t) in done))
  }

  ghost predicate InvCleaner(tables: seq<Table>, used: set<Name>, root: set<Name>, created: set<Name>, link: Files,
      done: Files, cleaner: Cleaner)
  {
    match cleaner
    case Checking(c, i, _) => i <= |tables| && forall j | 0 <= j < i :: (c, tables[j]) in done
    case Unlinking(c, i, _) => i <= |tables| && c in created && c !in root
    case Entries(i, list) => i < |tables| && AllListedOk(used, root, link, done, list, tables[i])
    case Broken(i, e, list) =>
      i < |tables| && BrokenOk(used, root, done, e, tables[i]) && AllListedOk(used, root, link, done, list, tables[i])
    case Tables(i) => i <= |tables|
    case _ => true
  }

  predicate Sweeping(cleaner: Cleaner)
  {
    cleaner.Tables? || cleaner.Entries? || cleaner.Broken? || cleaner.PassDone?
  }

  /** From how many table directories the files in `gone` have been removed. */
  function Swept(tables: seq<Table>, cleaner: Cleaner): nat
  {
    match cleaner
    case Tables(i) => i
    case Entries(i, _) => i
    case Broken(i, _, _) => i
    case PassDone => |tables|
    case _ => 0
  }

  /** The entries of the current table that the sweep has still to look at. */
  function Ahead(cleaner: Cleaner): seq<Entry>
  {
    match cleaner
    case Entries(_, list) => list
    case Broken(_, e, list) => [e] + list
    case _ => []
  }

  ghost predicate InvGone(tables: seq<Table>, root: set<Name>, created: set<Name>, done: Files, cleaner: Cleaner,
      gone: set<Name>)
  {
    Sweeping(cleaner) ==>
      && gone <= created && gone !! root
      && (forall c, j | c in gone && 0 <= j < Swept(tables, cleaner) && j < |tables| :: (c, tables[j]) !in done)
      && (cleaner.Entries? || cleaner.Broken? ==>
            && cleaner.table < |tables|
            && forall c | c in gone && (c, tables[cleaner.table]) in done :: Entry(c, true) in Ahead(cleaner))
  }

  /** An upload that succeeded and whose rename has not been tried yet. */
  ghost predicate Awaiting(u: Q.Uploader, c: Name)
  {
    exists w :: 0 <= w < |u.workers| && u.workers[w] == Q.Uploaded(c)
  }

  /** How often a file can have been uploaded to a table. */
  ghost predicate InvCount(up: map<Table, Q.Uploader>, link: Files, delivered: Log, crashes: nat,
      failedRenames: multiset<(Name, Table)>)
  {
    forall c, t | t in up ::
      |Uploads(delivered, c, t)| <=
      crashes + failedRenames[(c, t)] + (if (c, t) in link && !Awaiting(up[t], c) then 0 else 1)
  }

  ghost predicate Inv(s: State)
  {
    && InvNames(s.tables, s.root, s.content.Keys, s.used, s.link, s.linkers)
    && InvWriter(s.writer, s.root, s.content.Keys, s.used)
    && InvUnpublished(s.writer, s.linkers, s.link, s.done, s.delivered)
    && InvDisk(s.tables, s.root, s.content.Keys, s.link, s.done, s.delivered)
    && InvDelivered(s.delivered, s.content)
    && InvLinkers(s.tables, s.root, s.content.Keys, s.linkers)
    && InvStages(s.tables, s.root, s.link, s.done, s.linkers)
    && InvFirstLinks(s.writer.LinkAll?, s.tables, s.link, s.done, s.linkers)
    && InvStart(s.tables, s.root, s.link, s.done, s.writer, s.linkers, s.cleaner)
    && InvQueues(s.tables, s.up)
    && InvBusy(s.up, s.link, s.root)
    && InvUploaded(s.up, s.delivered)
    && InvCleaner(s.tables, s.used, s.root, s.content.Keys, s.link, s.done, s.cleaner)
    && InvGone(s.tables, s.root, s.content.Keys, s.done, s.cleaner, s.gone)
    && InvCount(s.up, s.link, s.delivered, s.crashes, s.failedRenames)
  }

  lemma InitInv(s: State)
    requires Init(s)
    ensures Inv(s)
  {
    forall t | t in s.up
      ensures Q.Consistent(s.up[t])
    {
      Q.FreshIsConsistent(|s.up[t].workers|);
    }
  }

  lemma StartInv(s: State, files: seq<Name>)
    requires Inv(s) && s.writer.Down? && forall c :: c in files <==> c in s.root
    ensures Inv(s.(writer := LinkAll(files)))
  {
    hide InvNames, InvDisk, InvDelivered, InvLinkers, InvStages, InvQueues, InvBusy, InvCleaner, InvGone, InvCount,
         InvUploaded;
  }

  lemma LinkNextInv(s: State)
    requires Inv(s) && s.writer.LinkAll? && s.writer.rest != [] && s.linkers == map[]
    ensures Inv(s.(writer := LinkAll(s.writer.rest[1..]),
        linkers := s.linkers[s.writer.rest[0] := Linker(0, CheckLink)]))
  {
    hide InvDisk, InvDelivered, InvQueues, InvBusy, InvCleaner, InvGone, InvCount, InvUploaded;
    assert s.writer.rest == [s.writer.rest[0]] + s.writer.rest[1..];
  }

  lemma LinkAllDoneInv(s: State)
    requires Inv(s) && s.writer.LinkAll? && s.writer.rest == [] && s.linkers == map[]
    ensures Inv(s.(writer := FirstCleanup))
  {
    hide InvNames, InvDisk, InvDelivered, InvLinkers, InvStages, InvQueues, InvBusy, InvCleaner, InvGone, InvCount,
         InvUploaded;
  }

  /** A check of `Link` that fails leads to the next stage at the same table. */
  lemma LinkStageInv(s: State, c: Name, stage: Stage)
    requires Inv(s) && c in s.linkers && s.linkers[c].table < |s.tables|
    requires var t := s.tables[s.linkers[c].table];
             || (stage.CheckDone? && s.linkers[c].stage.CheckLink? && !((c, t) in s.link && c in s.root))
             || (stage.MakeLink? && s.linkers[c].stage.CheckDone? && !((c, t) in s.done && c in s.root))
    ensures Inv(s.(linkers := s.linkers[c := Linker(s.linkers[c].table, stage)]))
  {
    hide InvWriter, InvDisk, InvDelivered, InvQueues, InvBusy, InvCleaner, InvGone, InvCount, InvUploaded;
  }

  /** A table where the file is already linked is passed. */
  lemma LinkSkipInv(s: State, c: Name)
    requires Inv(s) && c in s.linkers && s.linkers[c].table < |s.tables| && c in s.root
    requires (c, s.tables[s.linkers[c].table]) in s.link || (c, s.tables[s.linkers[c].table]) in s.done
    ensures Inv(NextTable(s, c))
  {
    hide InvWriter, InvDisk, InvDelivered, InvQueues, InvBusy, InvCleaner, InvGone, InvCount, InvUploaded;
  }

  lemma LinkEndInv(s: State, c: Name)
    requires Inv(s) && c in s.linkers && s.linkers[c].table >= |s.tables|
    ensures Inv(s.(linkers := s.linkers - {c}))
  {
    hide InvWriter, InvDisk, InvDelivered, InvQueues, InvBusy, InvCleaner, InvGone, InvCount, InvUploaded;
  }

  /** A failed `Link` ends its goroutine; during start-up it ends the start. */
  lemma LinkFailInv(s: State, c: Name)
    requires Inv(s) && c in s.linkers
    ensures Inv(s.(linkers := s.linkers - {c}, writer := if s.writer.LinkAll? then Stopped else s.writer))
  {
    hide InvDisk, InvDelivered, InvQueues, InvBusy, InvCleaner, InvGone, InvCount, InvUploaded;
  }

  lemma UploadedWasCreated(delivered: Log, content: map<Name, bytes>, c: Name, t: Table)
    requires InvDelivered(delivered, content) && Uploads(delivered, c, t) != []
    ensures c in content
  {
    assert Uploads(delivered, c, t)[0] in Uploads(delivered, c, t);
  }

  /** A link is made where there was none. */
  lemma LinkMakeInv(s: State, c: Name)
    requires Inv(s) && c in s.linkers && s.linkers[c].table < |s.tables| && s.linkers[c].stage.MakeLink?
    requires (c, s.tables[s.linkers[c].table]) !in s.link
    ensures Inv(NextTable(s.(link := s.link + {(c, s.tables[s.linkers[c].table])}), c))
  {
    hide InvNames, InvWriter, InvUnpublished, InvDisk, InvDelivered, InvLinkers, InvStages, InvFirstLinks, InvStart,
         InvQueues, InvBusy, InvUploaded, InvCleaner, InvGone, InvCount;
    LinkMakeStart(s, c);
    LinkMakeDisk(s, c);
    LinkMakeLinkers(s, c);
  }

  lemma LinkMakeLinkers(s: State, c: Name)
    requires Inv(s) && c in s.linkers && s.linkers[c].table < |s.tables| && s.linkers[c].stage.MakeLink?
    ensures
      var link := s.link + {(c, s.tables[s.linkers[c].table])};
      var linkers := s.linkers[c := Linker(s.linkers[c].table + 1, CheckLink)];
      && InvNames(s.tables, s.root, s.content.Keys, s.used, link, linkers)
      && InvUnpublished(s.writer, linkers, link, s.done, s.delivered)
      && InvLinkers(s.tables, s.root, s.content.Keys, linkers)
      && InvStages(s.tables, s.root, link, s.done, linkers)
      && InvFirstLinks(s.writer.LinkAll?, s.tables, link, s.done, linkers)
  {
    hide InvWriter, InvDisk, InvDelivered, InvStart, InvQueues, InvBusy, InvUploaded, InvCleaner, InvGone, InvCount;
  }

  lemma LinkMakeStart(s: State, c: Name)
    requires Inv(s) && c in s.linkers && s.linkers[c].table < |s.tables| && s.linkers[c].stage.MakeLink?
    ensures
      var link := s.link + {(c, s.tables[s.linkers[c].table])};
      var linkers := s.linkers[c := Linker(s.linkers[c].table + 1, CheckLink)];
      InvStart(s.tables, s.root, link, s.done, s.writer, linkers, s.cleaner)
  {
    hide InvNames, InvWriter, InvUnpublished, InvDisk, InvDelivered, InvLinkers, InvStages, InvFirstLinks, InvQueues,
         InvBusy, InvCleaner, InvGone, InvCount, InvUploaded;
  }

  lemma LinkMakeDisk(s: State, c: Name)
    requires Inv(s) && c in s.linkers && s.linkers[c].table < |s.tables| && s.linkers[c].stage.MakeLink?
    ensures
      var link := s.link + {(c, s.tables[s.linkers[c].table])};
      && InvDisk(s.tables, s.root, s.content.Keys, link, s.done, s.delivered)
      && InvBusy(s.up, link, s.root)
      && InvCleaner(s.tables, s.used, s.root, s.content.Keys, link, s.done, s.cleaner)
      && InvCount(s.up, link, s.delivered, s.crashes, s.failedRenames)
  {
    hide InvWriter, InvUnpublished, InvDelivered, InvFirstLinks, InvStart, InvQueues, InvGone, InvUploaded;
    if Uploads(s.delivered, c, s.tables[s.linkers[c].table]) != [] {
      UploadedWasCreated(s.delivered, s.content, c, s.tables[s.linkers[c].table]);
    }
  }

  lemma CreateInv(s: State, c: Name)
    requires Inv(s) && s.writer.NoFile? && c !in s.used
    ensures Inv(s.(used := s.used + {c}, root := s.root + {c}, content := s.content[c := []], writer := Writing(c)))
  {
    hide InvQueues, InvCount, InvUploaded;
    forall t
      ensures (c, t) !in s.link && (c, t) !in s.done && Uploads(s.delivered, c, t) == []
    {
      if Uploads(s.delivered, c, t) != [] {
        UploadedWasCreated(s.delivered, s.content, c, t);
      }
    }
  }

  lemma CreateFailInv(s: State, c: Name)
    requires Inv(s) && s.writer.NoFile? && c !in s.used
    ensures Inv(s.(used := s.used + {c}, writer := Closed(c)))
  {
    hide InvLinkers, InvStages, InvQueues, InvBusy, InvGone, InvCount, InvUploaded;
    forall t
      ensures (c, t) !in s.link && (c, t) !in s.done && Uploads(s.delivered, c, t) == []
    {
      if Uploads(s.delivered, c, t) != [] {
        UploadedWasCreated(s.delivered, s.content, c, t);
      }
    }
  }

  lemma WriteInv(s: State, data: bytes)
    requires Inv(s) && s.writer.Writing? && s.writer.file in s.content
    ensures Inv(s.(content := s.content[s.writer.file := s.content[s.writer.file] + data]))
  {
    hide InvDisk, InvLinkers, InvStages, InvFirstLinks, InvStart, InvQueues, InvBusy, InvCleaner, InvGone, InvCount,
         InvUploaded;
    assert s.content[s.writer.file := s.content[s.writer.file] + data].Keys == s.content.Keys;
  }

  lemma RotateInv(s: State)
    requires Inv(s) && s.writer.Writing?
    ensures Inv(s.(writer := Closed(s.writer.file)))
  {
    hide InvDisk, InvDelivered, InvLinkers, InvStages, InvQueues, InvBusy, InvCleaner, InvGone, InvCount, InvUploaded;
  }

  lemma PublishInv(s: State)
    requires Inv(s) && s.writer.Closed?
    ensures Inv(s.(writer := NoFile, linkers := s.linkers[s.writer.file := Linker(0, CheckLink)]))
  {
    hide InvDisk, InvDelivered, InvQueues, InvBusy, InvCleaner, InvGone, InvCount, InvUploaded;
  }

  lemma StopInv(s: State)
    requires Inv(s) && (WorkerRuns(s) || s.writer.FirstCleanup?)
    ensures Inv(s.(writer := Stopped))
    ensures Inv(s.(writer := NoFile))
  {
    hide InvNames, InvDisk, InvDelivered, InvLinkers, InvStages, InvQueues, InvBusy, InvCleaner, InvGone, InvCount,
         InvUploaded;
  }

  /** The cleaner moves on without touching the disk and outside the table directories. */
  lemma CleanerMovesInv(s: State, cleaner: Cleaner)
    requires Inv(s) && !s.writer.Down? && !s.writer.LinkAll?
    requires cleaner.Resting? || cleaner.Roots? || cleaner.Checking?
    requires cleaner.Checking? ==>
      && cleaner.table <= |s.tables|
      && forall j | 0 <= j < cleaner.table :: (cleaner.file, s.tables[j]) in s.done
    ensures Inv(s.(cleaner := cleaner))
  {
    hide InvNames, InvWriter, InvUnpublished, InvDisk, InvDelivered, InvLinkers, InvStages, InvFirstLinks, InvQueues,
         InvBusy, InvCount, InvUploaded;
  }

  /** The data is removed once every table has it finished. */
  lemma RemoveDataInv(s: State)
    requires Inv(s) && s.cleaner.Checking? && s.cleaner.table >= |s.tables| > 0 && s.cleaner.file in s.root
    ensures Inv(s.(root := s.root - {s.cleaner.file}, cleaner := Unlinking(s.cleaner.file, 0, s.cleaner.rest)))
  {
    hide InvNames, InvWriter, InvUnpublished, InvDisk, InvDelivered, InvLinkers, InvStages, InvFirstLinks, InvStart,
         InvQueues, InvBusy, InvCleaner, InvGone, InvCount, InvUploaded;
    RemoveDataGroups(s);
  }

  lemma NotYetFinished(tables: seq<Table>, link: Files, done: Files, linkers: map<Name, Linker>, c: Name, j: nat)
    requires c in linkers && linkers[c].table <= j < |tables| && InvFirstLinks(false, tables, link, done, linkers)
    ensures (c, tables[j]) !in done
  {
  }

  /** A file finished everywhere has no table left to be linked to. */
  lemma NoTablesLeft(tables: seq<Table>, link: Files, done: Files, linkers: map<Name, Linker>, c: Name)
    requires c in linkers && InvFirstLinks(false, tables, link, done, linkers)
    requires forall j | 0 <= j < |tables| :: (c, tables[j]) in done
    ensures linkers[c].table >= |tables|
  {
    hide InvFirstLinks;
    if linkers[c].table < |tables| {
      NotYetFinished(tables, link, done, linkers, c, linkers[c].table);
    }
  }

  lemma RemoveDataGroups(s: State)
    requires Inv(s) && s.cleaner.Checking? && s.cleaner.table >= |s.tables| > 0 && s.cleaner.file in s.root
    ensures
      var root, cleaner := s.root - {s.cleaner.file}, Unlinking(s.cleaner.file, 0, s.cleaner.rest);
      && InvNames(s.tables, root, s.content.Keys, s.used, s.link, s.linkers)
      && InvWriter(s.writer, root, s.content.Keys, s.used)
      && InvDisk(s.tables, root, s.content.Keys, s.link, s.done, s.delivered)
      && InvLinkers(s.tables, root, s.content.Keys, s.linkers)
      && InvStages(s.tables, root, s.link, s.done, s.linkers)
      && InvStart(s.tables, root, s.link, s.done, s.writer, s.linkers, cleaner)
      && InvBusy(s.up, s.link, root)
      && InvCleaner(s.tables, s.used, root, s.content.Keys, s.link, s.done, cleaner)
      && InvGone(s.tables, root, s.content.Keys, s.done, cleaner, s.gone)
  {
    var c := s.cleaner.file;
    hide InvQueues, InvCount, InvDelivered, InvUploaded, InvFirstLinks;
    assert (c, s.tables[0]) in s.done;
    forall t | t in s.tables
      ensures (c, t) in s.done && (c, t) !in s.link
    {
      var j :| 0 <= j < |s.tables| && s.tables[j] == t;
      assert (c, s.tables[j]) in s.done;
    }
    assert forall j | 0 <= j < |s.tables| :: (c, s.tables[j]) in s.done;
    if c in s.linkers {
      NoTablesLeft(s.tables, s.link, s.done, s.linkers, c);
    }
  }

  /** A finished name is removed after its data. */
  lemma UnlinkInv(s: State)
    requires Inv(s) && s.cleaner.Unlinking? && s.cleaner.table < |s.tables|
    ensures
      var key := (s.cleaner.file, s.tables[s.cleaner.table]);
      Inv(s.(done := s.done - {key}, cleaner := Unlinking(s.cleaner.file, s.cleaner.table + 1, s.cleaner.rest)))
  {
    hide InvNames, InvWriter, InvDelivered, InvLinkers, InvQueues, InvBusy, InvCount, InvUploaded;
  }

  lemma UnlinkedInv(s: State)
    requires Inv(s) && s.cleaner.Unlinking?
    ensures Inv(s.(cleaner := Roots(s.cleaner.rest)))
  {
    hide InvNames, InvWriter, InvUnpublished, InvDisk, InvDelivered, InvLinkers, InvStages, InvFirstLinks, InvQueues,
         InvBusy, InvCount, InvUploaded;
  }

  /** The sweep of the table directories begins; what is gone now is what it has to clear. */
  lemma SweepBeginsInv(s: State)
    requires Inv(s) && s.cleaner.Roots?
    ensures Inv(s.(cleaner := Tables(0), gone := s.content.Keys - s.root))
  {
    hide InvNames, InvWriter, InvUnpublished, InvDisk, InvDelivered, InvLinkers, InvStages, InvFirstLinks, InvQueues,
         InvBusy, InvCount, InvUploaded;
  }

  lemma SweepEndsInv(s: State)
    requires Inv(s) && s.cleaner.Tables? && s.cleaner.table >= |s.tables|
    ensures Inv(s.(cleaner := PassDone))
  {
    hide InvNames, InvWriter, InvUnpublished, InvDisk, InvDelivered, InvLinkers, InvStages, InvFirstLinks, InvQueues,
         InvBusy, InvCount, InvUploaded;
  }

  lemma TableSweptInv(s: State)
    requires Inv(s) && s.cleaner.Entries? && s.cleaner.list == []
    ensures Inv(s.(cleaner := Tables(s.cleaner.table + 1)))
  {
    hide InvNames, InvWriter, InvUnpublished, InvDisk, InvDelivered, InvLinkers, InvStages, InvFirstLinks, InvQueues,
         InvBusy, InvCount, InvUploaded;
  }

  lemma CleanListInv(s: State, entries: seq<Entry>)
    requires Inv(s) && Enabled(s, CleanList(entries))
    ensures Inv(s.(cleaner := Entries(s.cleaner.table, entries)))
  {
    hide InvWriter, InvUnpublished, InvDelivered, InvLinkers, InvStages, InvFirstLinks, InvQueues, InvBusy, InvCount,
         InvUploaded;
  }

  /** An entry that still leads to data is passed. */
  lemma EntryKeptInv(s: State)
    requires Inv(s) && s.cleaner.Entries? && s.cleaner.list != [] && s.cleaner.table < |s.tables|
    requires Resolves(s, s.cleaner.list[0], s.tables[s.cleaner.table])
    ensures Inv(s.(cleaner := Entries(s.cleaner.table, s.cleaner.list[1..])))
  {
    hide InvNames, InvWriter, InvUnpublished, InvDisk, InvDelivered, InvLinkers, InvStages, InvFirstLinks, InvQueues,
         InvBusy, InvCount, InvUploaded;
    assert s.cleaner.list == [s.cleaner.list[0]] + s.cleaner.list[1..];
  }

  lemma EntryBrokenInv(s: State)
    requires Inv(s) && s.cleaner.Entries? && s.cleaner.list != [] && s.cleaner.table < |s.tables|
    requires !Resolves(s, s.cleaner.list[0], s.tables[s.cleaner.table])
    ensures Inv(s.(cleaner := Broken(s.cleaner.table, s.cleaner.list[0], s.cleaner.list[1..])))
  {
    hide InvNames, InvWriter, InvUnpublished, InvDisk, InvDelivered, InvLinkers, InvStages, InvFirstLinks, InvQueues,
         InvBusy, InvCount, InvUploaded;
    assert s.cleaner.list == [s.cleaner.list[0]] + s.cleaner.list[1..];
    assert s.cleaner.list[0] in s.cleaner.list;
  }

  /** The removal of a broken name never hits one whose data is there. */
  lemma BrokenRemovedInv(s: State)
    requires Inv(s) && s.cleaner.Broken? && s.cleaner.table < |s.tables|
    requires Exists(s, s.cleaner.entry, s.tables[s.cleaner.table])
    ensures
      var e, key := s.cleaner.entry, (s.cleaner.entry.file, s.tables[s.cleaner.table]);
      var s' := s.(cleaner := Entries(s.cleaner.table, s.cleaner.list));
      Inv(if e.finished then s'.(done := s.done - {key}) else s'.(link := s.link - {key}))
  {
    if s.cleaner.entry.finished {
      BrokenDoneRemovedInv(s);
    } else {
      BrokenLinkRemovedInv(s);
    }
    hide InvNames, InvWriter, InvUnpublished, InvDisk, InvDelivered, InvLinkers, InvStages, InvFirstLinks, InvStart,
         InvQueues, InvBusy, InvCleaner, InvGone, InvCount, InvUploaded;
  }

  lemma BrokenDoneRemovedInv(s: State)
    requires Inv(s) && s.cleaner.Broken? && s.cleaner.table < |s.tables| && s.cleaner.entry.finished
    ensures Inv(s.(cleaner := Entries(s.cleaner.table, s.cleaner.list),
        done := s.done - {(s.cleaner.entry.file, s.tables[s.cleaner.table])}))
  {
    hide InvNames, InvWriter, InvDelivered, InvLinkers, InvQueues, InvBusy, InvCount, InvUploaded;
    assert s.cleaner.entry == Entry(s.cleaner.entry.file, true);
  }

  lemma BrokenLinkRemovedInv(s: State)
    requires Inv(s) && s.cleaner.Broken? && s.cleaner.table < |s.tables| && !s.cleaner.entry.finished
    requires (s.cleaner.entry.file, s.tables[s.cleaner.table]) in s.link
    ensures Inv(s.(cleaner := Entries(s.cleaner.table, s.cleaner.list),
        link := s.link - {(s.cleaner.entry.file, s.tables[s.cleaner.table])}))
  {
    hide InvNames, InvWriter, InvUnpublished, InvDisk, InvDelivered, InvLinkers, InvStages, InvFirstLinks, InvStart,
         InvQueues, InvBusy, InvUploaded, InvCleaner, InvGone, InvCount;
    BrokenLinkIsDead(s);
    DeadLinkRemoved(s, s.cleaner.entry.file, s.tables[s.cleaner.table]);
    DeadLinkCleaner(s);
  }

  lemma BrokenLinkIsDead(s: State)
    requires Inv(s) && s.cleaner.Broken? && s.cleaner.table < |s.tables| && !s.cleaner.entry.finished
    requires (s.cleaner.entry.file, s.tables[s.cleaner.table]) in s.link
    ensures s.cleaner.entry.file !in s.root
  {
    hide InvNames, InvWriter, InvUnpublished, InvDelivered, InvLinkers, InvStages, InvFirstLinks, InvStart, InvQueues,
         InvBusy, InvUploaded, InvGone, InvCount;
  }

  lemma DeadLinkRemoved(s: State, c: Name, t: Table)
    requires Inv(s) && c !in s.root
    ensures
      var link := s.link - {(c, t)};
      && InvNames(s.tables, s.root, s.content.Keys, s.used, link, s.linkers)
      && InvUnpublished(s.writer, s.linkers, link, s.done, s.delivered)
      && InvDisk(s.tables, s.root, s.content.Keys, link, s.done, s.delivered)
      && InvStages(s.tables, s.root, link, s.done, s.linkers)
      && InvFirstLinks(s.writer.LinkAll?, s.tables, link, s.done, s.linkers)
      && InvBusy(s.up, link, s.root)
      && InvCount(s.up, link, s.delivered, s.crashes, s.failedRenames)
  {
    hide InvWriter, InvDelivered, InvLinkers, InvStart, InvQueues, InvUploaded, InvCleaner, InvGone;
  }

  lemma DeadLinkCleaner(s: State)
    requires Inv(s) && s.cleaner.Broken? && s.cleaner.table < |s.tables| && !s.cleaner.entry.finished
    requires s.cleaner.entry.file !in s.root
    ensures
      var link := s.link - {(s.cleaner.entry.file, s.tables[s.cleaner.table])};
      var cleaner := Entries(s.cleaner.table, s.cleaner.list);
      && InvStart(s.tables, s.root, link, s.done, s.writer, s.linkers, cleaner)
      && InvCleaner(s.tables, s.used, s.root, s.content.Keys, link, s.done, cleaner)
      && InvGone(s.tables, s.root, s.content.Keys, s.done, cleaner, s.gone)
  {
    hide InvNames, InvWriter, InvUnpublished, InvDisk, InvDelivered, InvLinkers, InvStages, InvFirstLinks, InvQueues,
         InvBusy, InvUploaded, InvCount;
  }

  /** Steps of an uploader that change neither the disk nor who has uploaded what. */
  lemma QuietUploadInv(s: State, t: Table, u: Q.Uploader)
    requires Inv(s) && t in s.up && Q.Consistent(u)
    requires forall w | 0 <= w < |u.workers| && Busy(u.workers[w]) ::
               (u.workers[w].file, t) in s.link && u.workers[w].file in s.root
    requires forall c :: Awaiting(s.up[t], c) <==> Awaiting(u, c)
    ensures Inv(s.(up := s.up[t := u]))
  {
    forall w | 0 <= w < |u.workers| && u.workers[w].Uploaded?
      ensures Uploads(s.delivered, u.workers[w].file, t) != []
    {
      AwaitingOnRecord(s, t, u, w);
    }
    hide InvNames, InvWriter, InvUnpublished, InvDisk, InvDelivered, InvLinkers, InvStages, InvFirstLinks, InvStart,
         InvCleaner, InvGone;
  }

  lemma AwaitingOnRecord(s: State, t: Table, u: Q.Uploader, w: nat)
    requires t in s.up && w < |u.workers| && u.workers[w].Uploaded? && InvUploaded(s.up, s.delivered)
    requires forall c :: Awaiting(s.up[t], c) <==> Awaiting(u, c)
    ensures Uploads(s.delivered, u.workers[w].file, t) != []
  {
    var c := u.workers[w].file;
    assert u.workers[w] == Q.Uploaded(c);
    assert Awaiting(u, c);
    var v :| 0 <= v < |s.up[t].workers| && s.up[t].workers[v] == Q.Uploaded(c);
  }

  /** Only worker `w` differs: what the others await is awaited still. */
  lemma AwaitingElsewhere(a: Q.Uploader, b: Q.Uploader, w: nat, c: Name)
    requires w < |a.workers| && |b.workers| == |a.workers| && b.workers == a.workers[w := b.workers[w]]
    requires Awaiting(a, c) && a.workers[w] != Q.Uploaded(c)
    ensures Awaiting(b, c)
  {
    var v :| 0 <= v < |a.workers| && a.workers[v] == Q.Uploaded(c);
    assert b.workers[v] == Q.Uploaded(c);
  }

  /** A success is recorded. */
  lemma UploadedInv(s: State, t: Table, u: Q.Uploader, w: nat)
    requires Inv(s) && t in s.up && Q.Consistent(u) && w < |s.up[t].workers| && s.up[t].workers[w].Reading?
    requires u.workers == s.up[t].workers[w := Q.Uploaded(s.up[t].workers[w].file)]
    requires s.up[t].workers[w].file in s.content && !Awaiting(s.up[t], s.up[t].workers[w].file)
    ensures
      var c := s.up[t].workers[w].file;
      Inv(s.(up := s.up[t := u], delivered := s.delivered[(c, t) := Uploads(s.delivered, c, t) + [s.content[c]]]))
  {
    var c := s.up[t].workers[w].file;
    assert Busy(s.up[t].workers[w]);
    assert u.workers[w] == Q.Uploaded(c);
    assert Awaiting(u, c);
    forall d | Awaiting(s.up[t], d)
      ensures Awaiting(u, d)
    {
      AwaitingElsewhere(s.up[t], u, w, d);
    }
    UploadRecordedInv(s, c, t);
    UploadCountInv(s, t, u, c);
    UploadedBusy(s, t, u, w);
    hide InvNames, InvWriter, InvUnpublished, InvDisk, InvDelivered, InvLinkers, InvStages, InvFirstLinks, InvStart,
         InvBusy, InvUploaded, InvCleaner, InvGone, InvCount;
  }

  lemma UploadedBusy(s: State, t: Table, u: Q.Uploader, w: nat)
    requires Inv(s) && t in s.up && w < |s.up[t].workers| && s.up[t].workers[w].Reading?
    requires u.workers == s.up[t].workers[w := Q.Uploaded(s.up[t].workers[w].file)]
        && s.up[t].workers[w].file in s.content
    ensures
      var c := s.up[t].workers[w].file;
      var delivered := s.delivered[(c, t) := Uploads(s.delivered, c, t) + [s.content[c]]];
      && InvBusy(s.up[t := u], s.link, s.root)
      && InvUploaded(s.up[t := u], delivered)
  {
    hide InvNames, InvWriter, InvUnpublished, InvDisk, InvDelivered, InvLinkers, InvStages, InvFirstLinks, InvStart,
         InvQueues, InvCleaner, InvGone, InvCount;
    assert Busy(s.up[t].workers[w]);
  }

  lemma UploadRecordedInv(s: State, c: Name, t: Table)
    requires Inv(s) && (c, t) in s.link && c in s.content
    ensures
      var delivered := s.delivered[(c, t) := Uploads(s.delivered, c, t) + [s.content[c]]];
      && InvUnpublished(s.writer, s.linkers, s.link, s.done, delivered)
      && InvDisk(s.tables, s.root, s.content.Keys, s.link, s.done, delivered)
      && InvDelivered(delivered, s.content)
  {
    hide InvNames, InvWriter, InvLinkers, InvStages, InvFirstLinks, InvStart, InvQueues, InvBusy, InvUploaded,
         InvCleaner, InvGone, InvCount;
    var delivered := s.delivered[(c, t) := Uploads(s.delivered, c, t) + [s.content[c]]];
    forall d, r, data | data in Uploads(delivered, d, r)
      ensures d in s.content && data == s.content[d]
    {
      if data in Uploads(s.delivered, d, r) {
      } else {
        assert (d, r) == (c, t);
      }
    }
  }

  lemma UploadCountInv(s: State, t: Table, u: Q.Uploader, c: Name)
    requires Inv(s) && t in s.up && (c, t) in s.link && c in s.content
    requires !Awaiting(s.up[t], c) && Awaiting(u, c) && forall d | Awaiting(s.up[t], d) :: Awaiting(u, d)
    ensures
      var delivered := s.delivered[(c, t) := Uploads(s.delivered, c, t) + [s.content[c]]];
      InvCount(s.up[t := u], s.link, delivered, s.crashes, s.failedRenames)
  {
    hide InvNames, InvWriter, InvUnpublished, InvDisk, InvDelivered, InvLinkers, InvStages, InvFirstLinks, InvStart,
         InvQueues, InvBusy, InvUploaded, InvCleaner, InvGone;
    var delivered := s.delivered[(c, t) := Uploads(s.delivered, c, t) + [s.content[c]]];
    var up := s.up[t := u];
    forall d, r | r in up
      ensures |Uploads(delivered, d, r)| <= s.crashes + s.failedRenames[(d, r)] +
                (if (d, r) in s.link && !Awaiting(up[r], d) then 0 else 1)
    {
      assert |Uploads(s.delivered, d, r)| <= s.crashes + s.failedRenames[(d, r)] +
                (if (d, r) in s.link && !Awaiting(s.up[r], d) then 0 else 1);
      if (d, r) == (c, t) {
        assert |Uploads(delivered, d, r)| == |Uploads(s.delivered, d, r)| + 1;
      } else {
        assert Uploads(delivered, d, r) == Uploads(s.delivered, d, r);
      }
    }
    assert InvCount(up, s.link, delivered, s.crashes, s.failedRenames);
  }

  /** The rename after a success, when it works. */
  lemma RenamedInv(s: State, t: Table, u: Q.Uploader, w: nat)
    requires Inv(s) && t in s.up && Q.Consistent(u) && w < |s.up[t].workers| && s.up[t].workers[w].Uploaded?
    requires u.workers == s.up[t].workers[w := Q.Leaving(s.up[t].workers[w].file)]
    ensures
      var key := (s.up[t].workers[w].file, t);
      Inv(s.(up := s.up[t := u], link := s.link - {key}, done := s.done + {key}))
  {
    var c := s.up[t].workers[w].file;
    assert Busy(s.up[t].workers[w]);
    RenamedDisk(s, c, t);
    RenamedBusy(s, t, u, w);
    RenamedCount(s, t, u, w);
    hide InvNames, InvWriter, InvUnpublished, InvDisk, InvDelivered, InvLinkers, InvStages, InvFirstLinks, InvStart,
         InvBusy, InvUploaded, InvCleaner, InvGone, InvCount;
  }

  lemma RenamedDisk(s: State, c: Name, t: Table)
    requires Inv(s) && (c, t) in s.link && c in s.root && Uploads(s.delivered, c, t) != []
    ensures
      var link, done := s.link - {(c, t)}, s.done + {(c, t)};
      && InvNames(s.tables, s.root, s.content.Keys, s.used, link, s.linkers)
      && InvUnpublished(s.writer, s.linkers, link, done, s.delivered)
      && InvDisk(s.tables, s.root, s.content.Keys, link, done, s.delivered)
      && InvStages(s.tables, s.root, link, done, s.linkers)
      && InvFirstLinks(s.writer.LinkAll?, s.tables, link, done, s.linkers)
      && InvStart(s.tables, s.root, link, done, s.writer, s.linkers, s.cleaner)
      && InvCleaner(s.tables, s.used, s.root, s.content.Keys, link, done, s.cleaner)
      && InvGone(s.tables, s.root, s.content.Keys, done, s.cleaner, s.gone)
  {
    hide InvWriter, InvDelivered, InvLinkers, InvQueues, InvBusy, InvUploaded, InvCount;
  }

  /** No other worker of this uploader is busy with the renamed file. */
  lemma RenamedBusy(s: State, t: Table, u: Q.Uploader, w: nat)
    requires Inv(s) && t in s.up && Q.Consistent(u) && w < |s.up[t].workers| && s.up[t].workers[w].Uploaded?
    requires u.workers == s.up[t].workers[w := Q.Leaving(s.up[t].workers[w].file)]
    ensures InvBusy(s.up[t := u], s.link - {(s.up[t].workers[w].file, t)}, s.root)
    ensures InvUploaded(s.up[t := u], s.delivered)
  {
    hide InvNames, InvWriter, InvUnpublished, InvDisk, InvDelivered, InvLinkers, InvStages, InvFirstLinks, InvStart,
         InvQueues, InvCleaner, InvGone, InvCount;
    assert u.workers[w] == Q.Leaving(s.up[t].workers[w].file);
  }

  lemma RenamedCount(s: State, t: Table, u: Q.Uploader, w: nat)
    requires Inv(s) && t in s.up && w < |s.up[t].workers| && s.up[t].workers[w].Uploaded?
    requires u.workers == s.up[t].workers[w := Q.Leaving(s.up[t].workers[w].file)]
    ensures InvCount(s.up[t := u], s.link - {(s.up[t].workers[w].file, t)}, s.delivered, s.crashes, s.failedRenames)
  {
    hide InvNames, InvWriter, InvUnpublished, InvDisk, InvDelivered, InvLinkers, InvStages, InvFirstLinks, InvStart,
         InvQueues, InvBusy, InvUploaded, InvCleaner, InvGone;
    var c := s.up[t].workers[w].file;
    assert s.up[t].workers[w] == Q.Uploaded(c);
    assert Awaiting(s.up[t], c);
    forall d | d != c && Awaiting(s.up[t], d)
      ensures Awaiting(u, d)
    {
      AwaitingElsewhere(s.up[t], u, w, d);
    }
  }

  /** The rename fails: the file stays and will be uploaded once more. */
  lemma RenameFailedInv(s: State, t: Table, u: Q.Uploader, w: nat)
    requires Inv(s) && t in s.up && Q.Consistent(u) && w < |s.up[t].workers| && s.up[t].workers[w].Uploaded?
    requires u.workers == s.up[t].workers[w := Q.Leaving(s.up[t].workers[w].file)]
    ensures Inv(s.(up := s.up[t := u], failedRenames := s.failedRenames + multiset{(s.up[t].workers[w].file, t)}))
  {
    var c := s.up[t].workers[w].file;
    hide InvNames, InvWriter, InvUnpublished, InvDisk, InvDelivered, InvLinkers, InvStages, InvFirstLinks, InvStart,
         InvCleaner, InvGone;
    forall d | d != c && Awaiting(s.up[t], d)
      ensures Awaiting(u, d)
    {
      AwaitingElsewhere(s.up[t], u, w, d);
    }
  }

  /** A crash loses every goroutine and queue, and leaves the disk as it is. */
  lemma CrashInv(s: State)
    requires Inv(s)
    ensures Inv(s.(writer := Down, linkers := map[], cleaner := Resting, crashes := s.crashes + 1,
                   up := map t | t in s.up :: Q.Fresh(|s.up[t].workers|)))
  {
    CrashUploaders(s);
    hide InvDisk, InvDelivered, InvQueues, InvBusy, InvUploaded, InvCount;
  }

  lemma CrashUploaders(s: State)
    requires Inv(s)
    ensures
      var up := map t | t in s.up :: Q.Fresh(|s.up[t].workers|);
      && InvQueues(s.tables, up) && InvBusy(up, s.link, s.root) && InvUploaded(up, s.delivered)
      && InvCount(up, s.link, s.delivered, s.crashes + 1, s.failedRenames)
  {
    hide InvNames, InvWriter, InvUnpublished, InvDisk, InvDelivered, InvLinkers, InvStages, InvFirstLinks, InvStart,
         InvCleaner, InvGone;
    forall t | t in s.up
      ensures Q.Consistent(Q.Fresh(|s.up[t].workers|))
    {
      Q.FreshIsConsistent(|s.up[t].workers|);
    }
  }

  lemma LinkStepInv(s: State, c: Name)
    requires Inv(s) && Enabled(s, LinkStep(c))
    ensures Inv(ApplyLink(s, c))
  {
    hide Inv;
    if s.linkers[c].table >= |s.tables| {
      LinkEndInv(s, c);
    } else {
      LinkTableInv(s, c);
    }
  }

  lemma LinkTableInv(s: State, c: Name)
    requires Inv(s) && c in s.linkers && s.linkers[c].table < |s.tables|
    requires s.linkers[c].stage.MakeLink? ==> (c, s.tables[s.linkers[c].table]) !in s.link
    ensures Inv(ApplyLink(s, c))
  {
    hide Inv;
    var t := s.tables[s.linkers[c].table];
    match s.linkers[c].stage
    case CheckLink =>
      if Resolves(s, Entry(c, false), t) { LinkSkipInv(s, c); } else { LinkStageInv(s, c, CheckDone); }
    case CheckDone =>
      if Resolves(s, Entry(c, true), t) { LinkSkipInv(s, c); } else { LinkStageInv(s, c, MakeLink); }
    case MakeLink => LinkMakeInv(s, c);
  }

  /** What the cleaner needs to know about where it stands. */
  lemma CleanerFacts(s: State)
    requires Inv(s) && !s.cleaner.Resting?
    ensures !s.writer.Down? && !s.writer.LinkAll?
    ensures s.cleaner.Checking? ==> s.cleaner.table <= |s.tables|
    ensures s.cleaner.Checking? ==> forall j | 0 <= j < s.cleaner.table :: (s.cleaner.file, s.tables[j]) in s.done
  {
  }

  lemma CleanStepInv(s: State)
    requires Inv(s) && Enabled(s, CleanStep)
    ensures Inv(ApplyClean(s))
  {
    hide Inv;
    CleanerFacts(s);
    match s.cleaner
    case Roots(rest) =>
      if rest == [] { SweepBeginsInv(s); } else { CleanerMovesInv(s, Checking(rest[0], 0, rest[1..])); }
    case Checking(c, i, rest) =>
      if i >= |s.tables| { RemoveDataInv(s); }
      else if Resolves(s, Entry(c, true), s.tables[i]) { CleanerMovesInv(s, Checking(c, i + 1, rest)); }
      else { CleanerMovesInv(s, Roots(rest)); }
    case Unlinking(c, i, rest) =>
      if i >= |s.tables| { UnlinkedInv(s); } else { UnlinkInv(s); }
    case Tables(i) => SweepEndsInv(s);
    case Entries(i, list) =>
      if list == [] { TableSweptInv(s); }
      else if Resolves(s, list[0], s.tables[i]) { EntryKeptInv(s); }
      else { EntryBrokenInv(s); }
    case Broken(i, e, list) => BrokenRemovedInv(s);
    case PassDone => CleanEndsInv(s, NoFile);
  }

  /** A pass ends; the one at start-up lets the worker begin, or, when it fails, stops the writer. */
  lemma CleanEndsInv(s: State, next: Writer)
    requires Inv(s) && !s.cleaner.Resting? && (next.NoFile? || next.Stopped?)
    ensures Inv(s.(cleaner := Resting, writer := if s.writer.FirstCleanup? then next else s.writer))
  {
    CleanerFacts(s);
    CleanerMovesInv(s, Resting);
    if s.writer.FirstCleanup? {
      StopInv(s.(cleaner := Resting));
    }
    hide Inv;
  }

  /** Which of the worker's files are where, for a step that does not record a success. */
  lemma UploaderFacts(s: State, t: Table, w: nat)
    requires Inv(s) && t in s.up && w < |s.up[t].workers|
    ensures Q.Consistent(s.up[t])
    ensures forall v | 0 <= v < |s.up[t].workers| && Busy(s.up[t].workers[v]) ::
              (s.up[t].workers[v].file, t) in s.link && s.up[t].workers[v].file in s.root
    ensures s.root <= s.content.Keys
  {
  }

  lemma QuietWorkerInv(s: State, t: Table, u: Q.Uploader, w: nat)
    requires Inv(s) && t in s.up && Q.Consistent(u) && w < |s.up[t].workers|
    requires |u.workers| == |s.up[t].workers| && u.workers == s.up[t].workers[w := u.workers[w]]
    requires !s.up[t].workers[w].Uploaded? && !u.workers[w].Uploaded?
    requires Busy(u.workers[w]) ==> (u.workers[w].file, t) in s.link && u.workers[w].file in s.root
    ensures Inv(s.(up := s.up[t := u]))
  {
    UploaderFacts(s, t, w);
    forall c
      ensures Awaiting(s.up[t], c) <==> Awaiting(u, c)
    {
      if Awaiting(s.up[t], c) { AwaitingElsewhere(s.up[t], u, w, c); }
      if Awaiting(u, c) { AwaitingElsewhere(u, s.up[t], w, c); }
    }
    hide Inv, Q.Consistent, Awaiting;
    QuietUploadInv(s, t, u);
  }

  lemma SameWorkersInv(s: State, t: Table, u: Q.Uploader)
    requires Inv(s) && t in s.up && Q.Consistent(u) && u.workers == s.up[t].workers
    ensures Inv(s.(up := s.up[t := u]))
  {
    assert InvBusy(s.up, s.link, s.root);
    hide Inv, Q.Consistent;
    QuietUploadInv(s, t, u);
  }

  /** A worker inside the handler is the only one holding its file. */
  lemma NotAwaiting(s: State, t: Table, w: nat)
    requires t in s.up && Q.Consistent(s.up[t]) && w < |s.up[t].workers| && s.up[t].workers[w].Reading?
    ensures !Awaiting(s.up[t], s.up[t].workers[w].file)
  {
  }

  lemma HandledInv(s: State, t: Table, w: nat)
    requires Inv(s) && t in s.up && Q.Enabled(s.up[t], Q.Handled(w, true))
    ensures Inv(ApplyUpload(s, t, Q.Handled(w, true)))
  {
    UploaderFacts(s, t, w);
    Q.StepKeepsConsistent(s.up[t], Q.Handled(w, true));
    NotAwaiting(s, t, w);
    assert Busy(s.up[t].workers[w]);
    hide Inv, Q.Consistent, Awaiting;
    UploadedInv(s, t, Q.Apply(s.up[t], Q.Handled(w, true)), w);
  }

  lemma RenameInv(s: State, t: Table, w: nat, ok: bool)
    requires Inv(s) && t in s.up && Q.Enabled(s.up[t], Q.Rename(w, ok))
    ensures Inv(ApplyUpload(s, t, Q.Rename(w, ok)))
  {
    UploaderFacts(s, t, w);
    Q.StepKeepsConsistent(s.up[t], Q.Rename(w, ok));
    hide Inv, Q.Consistent;
    var u := Q.Apply(s.up[t], Q.Rename(w, ok));
    if ok { RenamedInv(s, t, u, w); } else { RenameFailedInv(s, t, u, w); }
  }

  lemma UploadStepInv(s: State, t: Table, step: Q.Step)
    requires Inv(s) && t in s.up && Q.Enabled(s.up[t], step) && UploadEnabled(s, t, step)
    ensures Inv(ApplyUpload(s, t, step))
  {
    assert Q.Consistent(s.up[t]) by { assert InvQueues(s.tables, s.up); }
    Q.StepKeepsConsistent(s.up[t], step);
    hide Inv, Q.Consistent;
    var u := Q.Apply(s.up[t], step);
    match step
    case Scan(_) => SameWorkersInv(s, t, u);
    case Mark => SameWorkersInv(s, t, u);
    case Send => SameWorkersInv(s, t, u);
    case Take(w) => QuietWorkerInv(s, t, u, w);
    case Open(w, _) => QuietWorkerInv(s, t, u, w);
    case Handled(w, ok) => if ok { HandledInv(s, t, w); } else { QuietWorkerInv(s, t, u, w); }
    case Rename(w, ok) => RenameInv(s, t, w, ok);
    case Leave(w) => QuietWorkerInv(s, t, u, w);
  }
}

/** The whole life of one file, with one table and one worker: every step of the life cycle can be
    taken, and leads to where it should. */
module ChunkExample {
  import opened ByteStrings
  import opened ChunkLifecycle
  import Q = UploadQueue

  ghost predicate Reaches(s: State, s': State)
  {
    exists steps :: IsRun(s, steps) && After(s, steps) == s'
  }

  lemma Here(s: State)
    ensures Reaches(s, s)
  {
    assert IsRun(s, []) && After(s, []) == s;
  }

  lemma {:induction false} RunSnoc(s: State, steps: seq<Step>, step: Step)
    requires IsRun(s, steps) && Enabled(After(s, steps), step)
    ensures IsRun(s, steps + [step]) && After(s, steps + [step]) == Apply(After(s, steps), step)
    decreases |steps|
  {
    hide Enabled, Apply;
    if steps == [] {
      assert [] + [step] == [step] && [step][1..] == [];
    } else {
      assert (steps + [step])[1..] == steps[1..] + [step];
      RunSnoc(Apply(s, steps[0]), steps[1..], step);
    }
  }

  lemma Go(s: State, a: State, step: Step, b: State)
    requires Reaches(s, a) && Enabled(a, step) && Apply(a, step) == b
    ensures Reaches(s, b)
  {
    hide Enabled, Apply;
    var steps :| IsRun(s, steps) && After(s, steps) == a;
    RunSnoc(s, steps, step);
  }

  /** The state but for the parts that a phase changes. */
  function Base(t: Table): State
  {
    State([t], {}, map[], {}, {}, Down, map[], Resting, map[t := Q.Fresh(1)], {}, {}, map[], 0, multiset{})
  }

  lemma BaseIsInit(t: Table)
    ensures Init(Base(t)) && Q.Fresh(1) == Idling({}, Q.Idle)
  {
  }

  /** One worker, nothing scanned and nothing queued. */
  function Idling(inQueue: set<Name>, x: Q.Worker): Q.Uploader
  {
    Q.Uploader([], None, [], inQueue, [x])
  }

  /** Start-up, with nothing on disk. */
  lemma StartUp(t: Table)
    ensures Reaches(Base(t), Base(t).(writer := NoFile))
  {
    var s := Base(t);
    var first := s.(writer := FirstCleanup);
    hide Reaches, Q.Fresh;
    Here(s);
    Go(s, s, Start([]), s.(writer := LinkAll([])));
    Go(s, s.(writer := LinkAll([])), LinkAllDone, first);
    Go(s, first, CleanBegin([]), first.(cleaner := Roots([])));
    SweepNothing(s, first.(cleaner := Roots([])), t);
    assert s.content.Keys == {};
    Go(s, first.(cleaner := PassDone), CleanStep, s.(writer := NoFile));
  }

  /** The rest of a pass over directories with nothing in them. */
  lemma SweepNothing(s0: State, s: State, t: Table)
    requires Reaches(s0, s) && s.tables == [t] && s.root == {} && s.cleaner == Roots([]) && s.link == {} && s.done == {}
    ensures Reaches(s0, s.(cleaner := PassDone, gone := s.content.Keys))
  {
    hide Reaches;
    var g := s.(gone := s.content.Keys);
    assert s.content.Keys - s.root == s.content.Keys;
    Go(s0, s, CleanStep, g.(cleaner := Tables(0)));
    Go(s0, g.(cleaner := Tables(0)), CleanList([]), g.(cleaner := Entries(0, [])));
    Go(s0, g.(cleaner := Entries(0, [])), CleanStep, g.(cleaner := Tables(1)));
    Go(s0, g.(cleaner := Tables(1)), CleanStep, g.(cleaner := PassDone));
  }

  /** The file is created, written in two pieces, closed and published. */
  lemma WriteFile(s0: State, s: State, c: Name, a: bytes, b: bytes)
    requires Reaches(s0, s) && s.writer == NoFile && s.root == {} && s.content == map[] && s.used == {}
        && s.linkers == map[]
    ensures
      var done := s.(root := {c}, content := map[c := a + b], used := {c});
      Reaches(s0, done.(linkers := map[c := Linker(0, CheckLink)]))
  {
    hide Reaches;
    var f := s.(root := {c}, used := {c}, writer := Writing(c));
    assert {} + {c} == {c} && [] + a == a && map[c := []][c := a] == map[c := a]
        && map[c := a][c := a + b] == map[c := a + b];
    Go(s0, s, Create(c, true), f.(content := map[c := []]));
    Go(s0, f.(content := map[c := []]), Write(a), f.(content := map[c := a]));
    Go(s0, f.(content := map[c := a]), Write(b), f.(content := map[c := a + b]));
    CloseFile(s0, f.(content := map[c := a + b]), c);
  }

  lemma CloseFile(s0: State, g: State, c: Name)
    requires Reaches(s0, g) && g.writer == Writing(c) && g.linkers == map[]
    ensures Reaches(s0, g.(writer := NoFile, linkers := map[c := Linker(0, CheckLink)]))
  {
    hide Reaches;
    Go(s0, g, Rotate, g.(writer := Closed(c)));
    Go(s0, g.(writer := Closed(c)), Publish, g.(writer := NoFile, linkers := map[c := Linker(0, CheckLink)]));
  }

  lemma LinkFile(s0: State, s: State, c: Name, t: Table)
    requires Reaches(s0, s.(linkers := map[c := Linker(0, CheckLink)])) && s.linkers == map[]
    requires s.tables == [t] && s.link == {} && s.done == {}
    ensures Reaches(s0, s.(link := {(c, t)}))
  {
    hide Reaches;
    Go(s0, s.(linkers := map[c := Linker(0, CheckLink)]), LinkStep(c), s.(linkers := map[c := Linker(0, CheckDone)]));
    Go(s0, s.(linkers := map[c := Linker(0, CheckDone)]), LinkStep(c), s.(linkers := map[c := Linker(0, MakeLink)]));
    MakeTheLink(s0, s, c, t);
  }

  lemma MakeTheLink(s0: State, s: State, c: Name, t: Table)
    requires Reaches(s0, s.(linkers := map[c := Linker(0, MakeLink)])) && s.linkers == map[]
    requires s.tables == [t] && s.link == {}
    ensures Reaches(s0, s.(link := {(c, t)}))
  {
    hide Reaches;
    var l := s.(link := {(c, t)});
    Go(s0, s.(linkers := map[c := Linker(0, MakeLink)]), LinkStep(c), l.(linkers := map[c := Linker(1, CheckLink)]));
    assert map[c := Linker(1, CheckLink)] - {c} == map[];
    Go(s0, l.(linkers := map[c := Linker(1, CheckLink)]), LinkStep(c), l);
  }

  /** A step of the only uploader that changes nothing else. */
  lemma GoUpload(s0: State, s: State, t: Table, u: Q.Uploader, step: Q.Step, u': Q.Uploader)
    requires Reaches(s0, s.(up := map[t := u])) && Q.Enabled(u, step) && Q.Apply(u, step) == u'
    requires UploadEnabled(s.(up := map[t := u]), t, step)
    requires !step.Rename? && (step.Handled? ==> !step.ok)
    ensures Reaches(s0, s.(up := map[t := u']))
  {
    hide Reaches, Q.Enabled, Q.Apply;
    assert map[t := u][t := u'] == map[t := u'];
    Go(s0, s.(up := map[t := u]), Upload(t, step), s.(up := map[t := u']));
  }

  /** The scanner marks and queues it, the worker takes it. */
  lemma QueueFile(s0: State, s: State, c: Name, t: Table)
    requires Reaches(s0, s) && s.up == map[t := Idling({}, Q.Idle)] && (c, t) in s.link
    ensures Reaches(s0, s.(up := map[t := Idling({c}, Q.Taken(c))]))
  {
    hide Reaches;
    var idle, marked := Idling({}, Q.Idle), Idling({c}, Q.Idle);
    assert {} + {c} == {c} && [] + [c] == [c] && s.(up := map[t := idle]) == s;
    GoUpload(s0, s, t, idle, Q.Scan([c]), idle.(scan := [c]));
    GoUpload(s0, s, t, idle.(scan := [c]), Q.Mark, marked.(pending := Some(c)));
    GoUpload(s0, s, t, marked.(pending := Some(c)), Q.Send, marked.(queue := [c]));
    GoUpload(s0, s, t, marked.(queue := [c]), Q.Take(0), Idling({c}, Q.Taken(c)));
  }

  /** One more success on record. */
  function Recorded(s: State, c: Name, t: Table, data: bytes): State
  {
    s.(delivered := s.delivered[(c, t) := Uploads(s.delivered, c, t) + [data]])
  }

  lemma GoHandled(s0: State, s: State, c: Name, t: Table, data: bytes)
    requires Reaches(s0, s.(up := map[t := Idling({c}, Q.Reading(c))])) && c in s.content && s.content[c] == data
    ensures Reaches(s0, Recorded(s, c, t, data).(up := map[t := Idling({c}, Q.Uploaded(c))]))
  {
    hide Reaches;
    var a := s.(up := map[t := Idling({c}, Q.Reading(c))]);
    var b := Recorded(s, c, t, data).(up := map[t := Idling({c}, Q.Uploaded(c))]);
    assert a.up[t := Idling({c}, Q.Uploaded(c))] == b.up;
    assert Q.Apply(Idling({c}, Q.Reading(c)), Q.Handled(0, true)) == Idling({c}, Q.Uploaded(c));
    Go(s0, a, Upload(t, Q.Handled(0, true)), b);
  }

  lemma GoRename(s0: State, s: State, c: Name, t: Table)
    requires Reaches(s0, s.(up := map[t := Idling({c}, Q.Uploaded(c))])) && s.link == {(c, t)} && s.done == {}
    ensures Reaches(s0, s.(link := {}, done := {(c, t)}, up := map[t := Idling({c}, Q.Leaving(c))]))
  {
    hide Reaches;
    var a := s.(up := map[t := Idling({c}, Q.Uploaded(c))]);
    var b := s.(link := {}, done := {(c, t)}, up := map[t := Idling({c}, Q.Leaving(c))]);
    assert s.link - {(c, t)} == {} && s.done + {(c, t)} == {(c, t)} && a.up[t := Idling({c}, Q.Leaving(c))] == b.up;
    assert Q.Apply(Idling({c}, Q.Uploaded(c)), Q.Rename(0, true)) == Idling({c}, Q.Leaving(c));
    Go(s0, a, Upload(t, Q.Rename(0, true)), b);
  }

  /** The worker opens it and uploads it. */
  lemma ReadFile(s0: State, s: State, c: Name, t: Table, data: bytes)
    requires Reaches(s0, s) && s.up == map[t := Idling({}, Q.Idle)] && (c, t) in s.link && c in s.root
    requires c in s.content && s.content[c] == data
    ensures Reaches(s0, Recorded(s, c, t, data).(up := map[t := Idling({c}, Q.Uploaded(c))]))
  {
    hide Reaches;
    QueueFile(s0, s, c, t);
    GoUpload(s0, s, t, Idling({c}, Q.Taken(c)), Q.Open(0, true), Idling({c}, Q.Reading(c)));
    GoHandled(s0, s, c, t, data);
  }

  /** It renames the link, and unmarks the file. */
  lemma FinishFile(s0: State, d: State, c: Name, t: Table)
    requires Reaches(s0, d.(up := map[t := Idling({c}, Q.Uploaded(c))])) && d.up == map[t := Idling({}, Q.Idle)]
    requires d.link == {(c, t)} && d.done == {}
    ensures Reaches(s0, d.(link := {}, done := {(c, t)}))
  {
    hide Reaches;
    var r := d.(link := {}, done := {(c, t)});
    GoRename(s0, d, c, t);
    assert {c} - {c} == {} && r.(up := map[t := Idling({}, Q.Idle)]) == r;
    GoUpload(s0, r, t, Idling({c}, Q.Leaving(c)), Q.Leave(0), Idling({}, Q.Idle));
  }

  /** The next pass removes the data and the finished link. */
  lemma CleanUp(s0: State, s: State, c: Name, t: Table)
    requires Reaches(s0, s) && s.tables == [t] && s.root == {c} && s.link == {} && s.done == {(c, t)}
        && s.content.Keys == {c}
    requires s.cleaner.Resting? && s.writer.NoFile?
    ensures Reaches(s0, s.(root := {}, done := {}, gone := {c}))
  {
    hide Reaches;
    var r := s.(root := {});
    var d := r.(done := {});
    assert s.root - {c} == {} && s.done - {(c, t)} == {} && [c][1..] == [];
    Go(s0, s, CleanBegin([c]), s.(cleaner := Roots([c])));
    Go(s0, s.(cleaner := Roots([c])), CleanStep, s.(cleaner := Checking(c, 0, [])));
    Go(s0, s.(cleaner := Checking(c, 0, [])), CleanStep, s.(cleaner := Checking(c, 1, [])));
    Go(s0, s.(cleaner := Checking(c, 1, [])), CleanStep, r.(cleaner := Unlinking(c, 0, [])));
    Go(s0, r.(cleaner := Unlinking(c, 0, [])), CleanStep, d.(cleaner := Unlinking(c, 1, [])));
    PassEnds(s0, d, c, t);
  }

  lemma PassEnds(s0: State, d: State, c: Name, t: Table)
    requires Reaches(s0, d.(cleaner := Unlinking(c, 1, []))) && d.tables == [t] && d.root == {} && d.link == {}
        && d.done == {}
    requires d.cleaner.Resting? && d.writer.NoFile? && d.content.Keys == {c}
    ensures Reaches(s0, d.(gone := {c}))
  {
    hide Reaches;
    Go(s0, d.(cleaner := Unlinking(c, 1, [])), CleanStep, d.(cleaner := Roots([])));
    SweepNothing(s0, d.(cleaner := Roots([])), t);
    Go(s0, d.(cleaner := PassDone, gone := {c}), CleanStep, d.(gone := {c}));
  }

  /** From an empty directory: whatever is written in a file's two pieces is uploaded, once and whole,
      and at the end nothing of the file is left on disk. */
  lemma LifeOfAFile(t: Table, c: Name, a: bytes, b: bytes)
    ensures Init(Base(t)) && exists steps ::
              && IsRun(Base(t), steps)
              && var s := After(Base(t), steps);
                 && s.delivered == map[(c, t) := [a + b]] && s.content == map[c := a + b]
                 && s.root == {} && s.link == {} && s.done == {} && s.writer == NoFile && s.crashes == 0
  {
    var s := Base(t);
    var s1 := s.(writer := NoFile);
    var s2 := s1.(root := {c}, content := map[c := a + b], used := {c});
    var s3 := s2.(link := {(c, t)});
    var s4 := s3.(link := {}, done := {(c, t)}, delivered := map[(c, t) := [a + b]]);
    BaseIsInit(t);
    hide Reaches, Q.Fresh, Init, IsRun, After;
    StartUp(t);
    WriteFile(s, s1, c, a, b);
    LinkFile(s, s2, c, t);
    ReadFile(s, s3, c, t, a + b);
    assert [] + [a + b] == [a + b] && Recorded(s3, c, t, a + b) == s3.(delivered := map[(c, t) := [a + b]]);
    FinishFile(s, s3.(delivered := map[(c, t) := [a + b]]), c, t);
    CleanUp(s, s4, c, t);
    ReachesState(s, s4.(root := {}, done := {}, gone := {c}));
  }

  lemma ReachesState(s: State, s': State)
    requires Reaches(s, s')
    ensures exists steps :: IsRun(s, steps) && After(s, steps) == s'
  {
  }

  /* ---- when things go wrong ---- */

  lemma CreateFails(s0: State, s: State, d: Name)
    requires Reaches(s0, s) && s.writer.NoFile? && s.linkers == map[] && d !in s.used
    ensures Reaches(s0, s.(used := s.used + {d}, linkers := map[d := Linker(0, CheckLink)]))
  {
    hide Reaches;
    var u := s.(used := s.used + {d});
    Go(s0, s, Create(d, false), u.(writer := Closed(d)));
    Go(s0, u.(writer := Closed(d)), Publish, u.(linkers := map[d := Linker(0, CheckLink)]));
  }

  lemma SweepBroken(s0: State, s: State, d: Name, t: Table)
    requires Reaches(s0, s) && s.tables == [t] && s.root == {} && s.link == {(d, t)} && s.done == {} && s.writer.NoFile?
    requires s.cleaner.Resting? && s.content == map[] && s.gone == {}
    ensures Reaches(s0, s.(link := {}))
  {
    hide Reaches;
    var e, n := Entry(d, false), s.(link := {});
    assert s.content.Keys - s.root == {} && s.link - {(d, t)} == {} && [e][1..] == [];
    Go(s0, s, CleanBegin([]), s.(cleaner := Roots([])));
    Go(s0, s.(cleaner := Roots([])), CleanStep, s.(cleaner := Tables(0)));
    Go(s0, s.(cleaner := Tables(0)), CleanList([e]), s.(cleaner := Entries(0, [e])));
    Go(s0, s.(cleaner := Entries(0, [e])), CleanStep, s.(cleaner := Broken(0, e, [])));
    Go(s0, s.(cleaner := Broken(0, e, [])), CleanStep, n.(cleaner := Entries(0, [])));
    SweepEnds(s0, n);
  }

  lemma SweepEnds(s0: State, n: State)
    requires Reaches(s0, n.(cleaner := Entries(0, []))) && |n.tables| == 1 && n.cleaner.Resting? && n.writer.NoFile?
    ensures Reaches(s0, n)
  {
    hide Reaches;
    Go(s0, n.(cleaner := Entries(0, [])), CleanStep, n.(cleaner := Tables(1)));
    Go(s0, n.(cleaner := Tables(1)), CleanStep, n.(cleaner := PassDone));
    Go(s0, n.(cleaner := PassDone), CleanStep, n);
  }

  /** A file that cannot be created is linked all the same, and the next one is tried; a pass then
      removes the link that leads nowhere. */
  lemma FailedCreate(t: Table, d: Name)
    ensures Reaches(Base(t), Base(t).(writer := NoFile, used := {d}))
  {
    var s := Base(t);
    var s1 := s.(writer := NoFile, used := {d});
    hide Reaches, Q.Fresh;
    assert s.used + {d} == {d};
    StartUp(t);
    CreateFails(s, s.(writer := NoFile), d);
    LinkFile(s, s1, d, t);
    SweepBroken(s, s1.(link := {(d, t)}), d, t);
  }

  lemma StartAgain(s0: State, s: State, c: Name, t: Table)
    requires Reaches(s0, s) && s.tables == [t] && s.root == {c} && s.link == {(c, t)} && s.done == {}
    requires s.linkers == map[] && s.cleaner.Resting? && s.writer == Down
    ensures Reaches(s0, s.(writer := FirstCleanup))
  {
    hide Reaches;
    var a := s.(writer := LinkAll([]));
    assert [c][1..] == [] && map[c := Linker(1, CheckLink)] - {c} == map[];
    Go(s0, s, Start([c]), s.(writer := LinkAll([c])));
    Go(s0, s.(writer := LinkAll([c])), LinkNext, a.(linkers := map[c := Linker(0, CheckLink)]));
    Go(s0, a.(linkers := map[c := Linker(0, CheckLink)]), LinkStep(c), a.(linkers := map[c := Linker(1, CheckLink)]));
    Go(s0, a.(linkers := map[c := Linker(1, CheckLink)]), LinkStep(c), a);
    Go(s0, a, LinkAllDone, s.(writer := FirstCleanup));
  }

  lemma CleanNothing(s0: State, s: State, c: Name, t: Table)
    requires Reaches(s0, s) && s.tables == [t] && s.root == {c} && s.link == {(c, t)} && s.done == {}
    requires s.content.Keys == {c} && s.gone == {} && s.cleaner.Resting? && s.writer == FirstCleanup
    ensures Reaches(s0, s.(writer := NoFile))
  {
    hide Reaches;
    var e := Entry(c, false);
    assert s.content.Keys - s.root == {} && [c][1..] == [] && [e][1..] == [];
    Go(s0, s, CleanBegin([c]), s.(cleaner := Roots([c])));
    Go(s0, s.(cleaner := Roots([c])), CleanStep, s.(cleaner := Checking(c, 0, [])));
    Go(s0, s.(cleaner := Checking(c, 0, [])), CleanStep, s.(cleaner := Roots([])));
    Go(s0, s.(cleaner := Roots([])), CleanStep, s.(cleaner := Tables(0)));
    CleanEntry(s0, s, e, t);
  }

  lemma CleanEntry(s0: State, s: State, e: Entry, t: Table)
    requires Reaches(s0, s.(cleaner := Tables(0))) && s.tables == [t] && s.cleaner.Resting? && s.writer == FirstCleanup
    requires s.root == {e.file} && s.link == {(e.file, t)} && s.done == {} && !e.finished
    ensures Reaches(s0, s.(writer := NoFile))
  {
    hide Reaches;
    assert [e][1..] == [];
    Go(s0, s.(cleaner := Tables(0)), CleanList([e]), s.(cleaner := Entries(0, [e])));
    Go(s0, s.(cleaner := Entries(0, [e])), CleanStep, s.(cleaner := Entries(0, [])));
    Go(s0, s.(cleaner := Entries(0, [])), CleanStep, s.(cleaner := Tables(1)));
    Go(s0, s.(cleaner := Tables(1)), CleanStep, s.(cleaner := PassDone));
    Go(s0, s.(cleaner := PassDone), CleanStep, s.(writer := NoFile));
  }

  /** The writer is stopped, and the process dies after an upload, before the rename. */
  lemma CrashAndStart(s0: State, d: State, c: Name, t: Table)
    requires Reaches(s0, d.(up := map[t := Idling({c}, Q.Uploaded(c))])) && d.up == map[t := Idling({}, Q.Idle)]
    requires d.tables == [t] && d.root == {c} && d.content.Keys == {c} && d.link == {(c, t)} && d.done == {}
    requires d.linkers == map[] && d.cleaner.Resting? && d.writer == NoFile && d.gone == {}
    ensures Reaches(s0, d.(crashes := d.crashes + 1))
  {
    hide Reaches;
    var a, n := d.(up := map[t := Idling({c}, Q.Uploaded(c))]), d.(crashes := d.crashes + 1);
    BaseIsInit(t);
    assert (map r | r in a.up :: Q.Fresh(|a.up[r].workers|)) == d.up;
    Go(s0, a, StopWriter, a.(writer := Stopped));
    Go(s0, a.(writer := Stopped), Crash, n.(writer := Down));
    StartAgain(s0, n.(writer := Down), c, t);
    CleanNothing(s0, n.(writer := FirstCleanup), c, t);
    assert n.(writer := NoFile) == n;
  }

  /** The rename fails, and the worker lets the file go. */
  lemma RenameFails(s0: State, d: State, c: Name, t: Table)
    requires Reaches(s0, d.(up := map[t := Idling({c}, Q.Uploaded(c))])) && d.up == map[t := Idling({}, Q.Idle)]
    ensures Reaches(s0, d.(failedRenames := d.failedRenames + multiset{(c, t)}))
  {
    hide Reaches;
    var f := d.(failedRenames := d.failedRenames + multiset{(c, t)});
    var a := d.(up := map[t := Idling({c}, Q.Uploaded(c))]);
    assert a.up[t := Idling({c}, Q.Leaving(c))] == map[t := Idling({c}, Q.Leaving(c))];
    assert Q.Apply(Idling({c}, Q.Uploaded(c)), Q.Rename(0, false)) == Idling({c}, Q.Leaving(c));
    Go(s0, a, Upload(t, Q.Rename(0, false)), f.(up := map[t := Idling({c}, Q.Leaving(c))]));
    assert {c} - {c} == {} && f.(up := map[t := Idling({}, Q.Idle)]) == f;
    GoUpload(s0, f, t, Idling({c}, Q.Leaving(c)), Q.Leave(0), Idling({}, Q.Idle));
  }

  /** A file written and linked, uploaded so often already, with so many crashes and failed renames. */
  function OnRecord(t: Table, c: Name, data: bytes, uploads: seq<bytes>, crashes: nat,
      failed: multiset<(Name, Table)>): State
  {
    Base(t).(writer := NoFile, root := {c}, content := map[c := data], used := {c}, link := {(c, t)},
             delivered := if uploads == [] then map[] else map[(c, t) := uploads],
             crashes := crashes, failedRenames := failed)
  }

  lemma RecordedOnce(t: Table, c: Name, data: bytes, uploads: seq<bytes>, crashes: nat, failed: multiset<(Name, Table)>)
    ensures Recorded(OnRecord(t, c, data, uploads, crashes, failed), c, t, data) ==
            OnRecord(t, c, data, uploads + [data], crashes, failed)
  {
  }

  lemma UntilLinked(t: Table, c: Name, data: bytes)
    ensures Reaches(Base(t), OnRecord(t, c, data, [], 0, multiset{}))
  {
    var s := Base(t);
    var s2 := s.(writer := NoFile, root := {c}, content := map[c := data], used := {c});
    assert data + [] == data;
    hide Reaches, Q.Fresh;
    StartUp(t);
    WriteFile(s, s.(writer := NoFile), c, data, []);
    LinkFile(s, s2, c, t);
  }

  lemma ReadOnRecord(t: Table, c: Name, data: bytes, uploads: seq<bytes>, crashes: nat, failed: multiset<(Name, Table)>)
    requires Reaches(Base(t), OnRecord(t, c, data, uploads, crashes, failed))
    ensures Reaches(Base(t), OnRecord(t, c, data, uploads +
        [data], crashes, failed).(up := map[t := Idling({c}, Q.Uploaded(c))]))
  {
    BaseIsInit(t);
    hide Reaches, Q.Fresh;
    ReadFile(Base(t), OnRecord(t, c, data, uploads, crashes, failed), c, t, data);
    RecordedOnce(t, c, data, uploads, crashes, failed);
  }

  lemma UntilCrashed(t: Table, c: Name, data: bytes)
    ensures Reaches(Base(t), OnRecord(t, c, data, [data], 1, multiset{}))
  {
    BaseIsInit(t);
    assert [] + [data] == [data];
    hide Reaches, Q.Fresh;
    UntilLinked(t, c, data);
    ReadOnRecord(t, c, data, [], 0, multiset{});
    CrashAndStart(Base(t), OnRecord(t, c, data, [data], 0, multiset{}), c, t);
  }

  lemma UntilRenameFailed(t: Table, c: Name, data: bytes)
    ensures Reaches(Base(t), OnRecord(t, c, data, [data, data], 1, multiset{(c, t)}))
  {
    BaseIsInit(t);
    assert [data] + [data] == [data, data] && multiset{} + multiset{(c, t)} == multiset{(c, t)};
    hide Reaches, Q.Fresh;
    UntilCrashed(t, c, data);
    ReadOnRecord(t, c, data, [data], 1, multiset{});
    RenameFails(Base(t), OnRecord(t, c, data, [data, data], 1, multiset{}), c, t);
  }

  /** With one crash and one failed rename a table can get a file three times, which is as often as it
      ever can. */
  lemma UploadedThrice(t: Table, c: Name, data: bytes)
    ensures Init(Base(t)) && exists steps ::
              && IsRun(Base(t), steps)
              && var s := After(Base(t), steps);
                 && s.delivered == map[(c, t) := [data, data, data]]
                 && s.crashes == 1 && s.failedRenames == multiset{(c, t)} && s.done == {(c, t)} && s.link == {}
  {
    BaseIsInit(t);
    assert [data, data] + [data] == [data, data, data];
    hide Reaches, Q.Fresh, Init, IsRun, After;
    UntilRenameFailed(t, c, data);
    ReadOnRecord(t, c, data, [data, data], 1, multiset{(c, t)});
    var d := OnRecord(t, c, data, [data, data, data], 1, multiset{(c, t)});
    FinishFile(Base(t), d, c, t);
    ReachesState(Base(t), d.(link := {}, done := {(c, t)}));
  }

  /** A pass at start-up that meets an error stops the writer, and so does a link that fails then. */
  lemma StartFails(t: Table, c: Name, data: bytes)
    ensures Reaches(Base(t), Base(t).(writer := Stopped))
    ensures Reaches(Base(t), OnRecord(t, c, data, [], 1, multiset{}).(writer := Stopped))
  {
    var s := Base(t);
    var first := s.(writer := FirstCleanup);
    hide Reaches, Q.Fresh;
    Here(s);
    Go(s, s, Start([]), s.(writer := LinkAll([])));
    Go(s, s.(writer := LinkAll([])), LinkAllDone, first);
    Go(s, first, CleanBegin([]), first.(cleaner := Roots([])));
    Go(s, first.(cleaner := Roots([])), CleanFail, s.(writer := Stopped));
    UntilLinked(t, c, data);
    LinkFails(t, c, data);
  }

  lemma LinkFails(t: Table, c: Name, data: bytes)
    requires Reaches(Base(t), OnRecord(t, c, data, [], 0, multiset{}))
    ensures Reaches(Base(t), OnRecord(t, c, data, [], 1, multiset{}).(writer := Stopped))
  {
    var s, d, n := Base(t), OnRecord(t, c, data, [], 0, multiset{}), OnRecord(t, c, data, [], 1, multiset{});
    BaseIsInit(t);
    assert (map r | r in d.up :: Q.Fresh(|d.up[r].workers|)) == n.up;
    hide Reaches, Q.Fresh;
    assert [c][1..] == [] && map[c := Linker(0, CheckLink)] - {c} == map[];
    Go(s, d, Crash, n.(writer := Down));
    Go(s, n.(writer := Down), Start([c]), n.(writer := LinkAll([c])));
    Go(s, n.(writer := LinkAll([c])), LinkNext, n.(writer := LinkAll([]), linkers := map[c := Linker(0, CheckLink)]));
    Go(s, n.(writer := LinkAll([]), linkers := map[c := Linker(0, CheckLink)]), LinkFail(c), n.(writer := Stopped));
  }
}

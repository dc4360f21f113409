/** Every step of a table compaction keeps the engine's invariant. */
module EngineMerge {
  import opened Mvcc
  import opened Compaction
  import opened Engine
  import opened EngineInvariant
  import opened EngineFlush

  lemma {:induction false} StartJobKeeps(s: State, inputs: set<nat>, base: set<Key>)
    requires Inv(s) && CanMerge(s, StartJob(inputs, base))
    ensures Inv(DoMerge(s, StartJob(inputs, base)))
  {
    hide MemtablesOk, ReadersOk, WritersOk, DiskOk, LogOk, VersionOk, Separated;
    var j := DoMerge(s, StartJob(inputs, base)).bg.job;
    assert JobOk(j, s.v, s.disk.files);
    assert JobSnapshotOk(j, s.snapshots, s.lastSequence);
  }

  lemma {:induction false} WriteOutputKeeps(s: State, entries: set<Entry>)
    requires Inv(s) && CanMerge(s, WriteOutput(entries))
    ensures Inv(DoMerge(s, WriteOutput(entries)))
  {
    hide WritersOk, LogOk, SameReads, Tables, Get, Lookup, History, Separated;
    var t := s.v.nextFile;
    var files' := s.disk.files[t := entries];
    forall id, n | id in s.readers && n in s.readers[id].version
      ensures n in files' && (n in s.disk.files ==> files'[n] == s.disk.files[n])
    {
      assert ReaderOk(s.readers[id], s.mem, s.disk.files, s.lastSequence, s.hist);
    }
    NewFile(s.disk.files, t, entries, s.v.current, s.hist, s.at.tableEnd, s.at.floor);
    NewFile(s.disk.files, t, entries, s.disk.manifest.tables, s.hist, s.at.durableEnd, s.at.floor);
    JobNewFile(s.bg.job, s.v, s.disk.files, t, entries);
    ReadersFrame(s.readers, s.mem, s.mem, s.disk.files, files', s.lastSequence, s.lastSequence, s.hist);
  }

  lemma {:induction false} FinishMergeKeeps(s: State)
    requires Inv(s) && CanMerge(s, FinishMerge)
    ensures Inv(DoMerge(s, FinishMerge))
  {
    hide MemtablesOk, ReadersOk, WritersOk, DiskOk, LogOk, VersionOk, Separated, Tables, Kept;
  }

  lemma {:induction false} BeginJobInstallKeeps(s: State)
    requires Inv(s) && CanMerge(s, BeginJobInstall)
    ensures Inv(DoMerge(s, BeginJobInstall))
  {
    hide MemtablesOk, ReadersOk, WritersOk, DiskOk, LogOk, TablesOk, Separated, Tables, Kept;
  }

  // The outputs in place of the inputs still stand for the history, for reads at the
  // smallest snapshot or later.
  lemma {:induction false} MergedTables(files: map<nat, set<Entry>>, current: set<nat>, j: Job, hist: seq<Entry>,
                                        end: nat, floor: nat)
    requires WellNumbered(hist) && TablesOk(files, current, hist, end, floor)
    requires j.inputs <= current && j.outputs <= files.Keys
    requires Separated(Tables(files, j.inputs), Tables(files, current - j.inputs), j.base)
    requires Tables(files, j.outputs) == Kept(Tables(files, j.inputs), j.base, j.smallest)
    ensures TablesOk(files, current - j.inputs + j.outputs, hist, end, Max(floor, j.smallest))
  {
    var inputs, rest := Tables(files, j.inputs), Tables(files, current - j.inputs);
    var kept := Kept(inputs, j.base, j.smallest);
    TablesUnion(files, j.inputs, current - j.inputs);
    assert j.inputs + (current - j.inputs) == current;
    TablesUnion(files, current - j.inputs, j.outputs);
    assert rest + kept == kept + rest;
    HistoryIsDistinct(hist, inputs + rest);
    CompactionKeepsReads(inputs, rest, j.base, j.smallest);
    forall key, snapshot: nat | Max(floor, j.smallest) <= snapshot
      ensures Lookup(rest + kept, key, snapshot) == Lookup(History(hist, 0, end), key, snapshot)
    {
      assert Lookup(kept + rest, key, snapshot) == Lookup(inputs + rest, key, snapshot);
      assert Lookup(Tables(files, current), key, snapshot) == Lookup(History(hist, 0, end), key, snapshot);
    }
  }

  lemma {:induction false} RaiseFloor(files: map<nat, set<Entry>>, tables: set<nat>, hist: seq<Entry>, end: nat,
                                      floor: nat, floor': nat)
    requires TablesOk(files, tables, hist, end, floor) && floor <= floor'
    ensures TablesOk(files, tables, hist, end, floor')
  {
  }

  lemma {:induction false} WriteJobManifestKeeps(s: State)
    requires Inv(s) && CanMerge(s, WriteJobManifest)
    ensures Inv(DoMerge(s, WriteJobManifest))
  {
    hide MemtablesOk, ReadersOk, WritersOk, LogOk, TablesOk, Separated, Tables, Kept, HeldOk;
    var j := s.bg.job.value;
    MergedTables(s.disk.files, s.v.current, j, s.hist, s.at.tableEnd, s.at.floor);
    RaiseFloor(s.disk.files, s.v.current, s.hist, s.at.tableEnd, s.at.floor, Max(s.at.floor, j.smallest));
    MemtablesMarks(s.mem, s.hist, s.at, s.at.(floor := Max(s.at.floor, j.smallest)), Applied(s.w, s.lastSequence));
  }

  lemma {:induction false} MemtablesMarks(m: Memtables, hist: seq<Entry>, at: Marks, at': Marks, applied: nat)
    requires MemtablesOk(m, hist, at, applied) && at'.memStart == at.memStart && at'.tableEnd == at.tableEnd
    ensures MemtablesOk(m, hist, at', applied)
  {
  }

  lemma {:induction false} FinishJobKeeps(s: State)
    requires Inv(s) && CanMerge(s, FinishJob)
    ensures Inv(DoMerge(s, FinishJob))
  {
    hide MemtablesOk, ReadersOk, WritersOk, LogOk, DiskOk, Separated, Tables, Kept, SameReads, History;
    var s' := DoMerge(s, FinishJob);
    var files := s.disk.files;
    MergedTables(files, s.v.current, s.bg.job.value, s.hist, s.at.tableEnd, s.at.floor);
  }

  lemma {:induction false} MergeKeeps(s: State, step: JobStep)
    requires Inv(s) && CanMerge(s, step)
    ensures Inv(DoMerge(s, step))
  {
    hide Inv;
    match step
    case StartJob(inputs, base) => StartJobKeeps(s, inputs, base);
    case WriteOutput(entries) => WriteOutputKeeps(s, entries);
    case FinishMerge => FinishMergeKeeps(s);
    case BeginJobInstall => BeginJobInstallKeeps(s);
    case WriteJobManifest => WriteJobManifestKeeps(s);
    case FinishJob => FinishJobKeeps(s);
  }
}

/**
 Work that is due can be done: from every state that the engine can be in, recovery, a flush and
 a compaction each have a way to their end, and it ends as it should.
 */
module EngineProgress {
  import opened Mvcc
  import opened Compaction
  import opened Engine
  import opened EngineInvariant
  import T = EngineTheorems

  // States that follow one another.
  ghost predicate Path(states: seq<State>) {
    |states| > 0 && forall i :: 0 <= i < |states| - 1 ==> Next(states[i], states[i + 1])
  }

  lemma {:induction false} Goes(s: State, step: Step) returns (s': State)
    requires Inv(s) && Enabled(s, step)
    ensures s' == Apply(s, step) && Next(s, s') && Inv(s')
  {
    hide Inv;
    s' := Apply(s, step);
    T.StepKeeps(s, step);
  }

  lemma {:induction false} NumberAbove(taken: set<nat>) returns (n: nat)
    ensures forall m :: m in taken ==> m < n
    decreases |taken|
  {
    n := 0;
    if taken != {} {
      var m :| m in taken;
      var rest := NumberAbove(taken - {m});
      n := if rest > m then rest else m + 1;
      forall k | k in taken ensures k < n { assert k == m || k in taken - {m}; }
    }
  }

  // ----- Recovery

  // The last sequence that recovery has to find.
  lemma {:induction false} LastIsFound(s: State)
    requires Inv(s)
    ensures var replayed := LogEntries(s.disk.logs, s.disk.manifest.logNumber);
            && s.disk.manifest.lastSequence <= |s.hist| && (forall e :: e in replayed ==> e.sequence <= |s.hist|)
            && (|s.hist| == s.disk.manifest.lastSequence || exists e :: e in replayed && e.sequence == |s.hist|)
  {
    hide WritersOk, HistoryOk, OpenOk, ReopenOk, TablesOk, LogEntries;
    if s.at.durableEnd < |s.hist| {
      var e := s.hist[|s.hist| - 1];
      assert e.sequence == |s.hist| && e in History(s.hist, s.at.durableEnd, |s.hist|);
    }
  }

  lemma {:induction false} Replays(s: State) returns (s1: State, s2: State, s3: State)
    requires Inv(s) && s.phase == Closed
    ensures Next(s, s1) && Next(s1, s2) && Next(s2, s3) && Inv(s3)
    ensures s3.phase == Replayed({s.disk.manifest.nextFile}, |s.hist|) && s3.hist == s.hist
  {
    hide Inv, LogEntries, Tables;
    var n, replayed := s.disk.manifest.nextFile, LogEntries(s.disk.logs, s.disk.manifest.logNumber);
    s1 := Goes(s, Reopen(BeginReplay));
    s2 := Goes(s1, Reopen(WriteRecovered(n, replayed)));
    assert Tables(s2.disk.files, {n}) == replayed by { OneTable(s2.disk.files, n); }
    assert s2.phase.tables == {n};
    LastIsFound(s2);
    s3 := Goes(s2, Reopen(FinishReplay(|s.hist|)));
  }

  lemma {:induction false} OneTable(files: map<nat, set<Entry>>, n: nat)
    requires n in files
    ensures Tables(files, {n}) == files[n]
  {
  }

  lemma {:induction false} Reopens(s: State) returns (s1: State, s2: State, s3: State)
    requires Inv(s) && s.phase.Replayed?
    ensures Next(s, s1) && Next(s1, s2) && Next(s2, s3) && Inv(s3)
    ensures s3.phase == Open && s3.lastSequence == s.phase.last && s3.hist == s.hist
  {
    hide Inv;
    var log := NumberAbove(s.disk.logs.Keys + s.phase.tables + {s.disk.manifest.nextFile});
    s1 := Goes(s, Reopen(CreateLog(log)));
    s2 := Goes(s1, Reopen(SaveManifest(true)));
    s3 := Goes(s2, Reopen(FinishOpen));
  }

  /** However the process died, recovery can run to an open engine that has published the whole
      history. */
  lemma {:induction false} RecoveryCompletes(s: State) returns (path: seq<State>)
    requires Inv(s) && s.phase == Closed
    ensures Path(path) && path[0] == s
    ensures var last := path[|path| - 1];
            last.phase == Open && last.hist == s.hist && last.lastSequence == |s.hist| && Inv(last)
  {
    hide Inv, Next;
    var s1, s2, s3 := Replays(s);
    var s4, s5, s6 := Reopens(s3);
    path := [s, s1, s2, s3, s4, s5, s6];
  }

  // ----- Flush

  lemma {:induction false} ImmutableThere(s: State)
    requires Inv(s) && s.phase == Open
    ensures s.mem.imm.Some? ==> s.mem.imm.value in s.mem.contents
    ensures s.v.nextFile !in s.v.current
  {
    hide WritersOk, HistoryOk, DiskOk, LogOk, TablesOk, FlushOk, JobOk, ReadersOk, ManifestOk, HeldOk;
  }

  /** An immutable memtable can be written to a table of its own, which then replaces it. */
  lemma {:induction false} FlushCompletes(s: State) returns (path: seq<State>)
    requires Inv(s) && s.phase == Open && s.mem.imm.Some? && MergingOrIdle(s.bg)
    ensures Path(path) && path[0] == s
    ensures var last, t := path[|path| - 1], s.v.nextFile;
            && last.phase == Open && last.mem.imm.None? && last.hist == s.hist && Inv(last)
            && s.mem.imm.value in s.mem.contents && t in last.disk.files
            && last.disk.files[t] == s.mem.contents[s.mem.imm.value] && t !in s.v.current
            && last.v.current == s.v.current + {t} && last.disk.manifest.tables == s.v.current + {t}
            && last.disk.manifest.logNumber == s.mem.logFile
  {
    hide Inv;
    ImmutableThere(s);
    var s1 := Goes(s, Flush(StartFlush));
    var s2 := Goes(s1, Flush(BuildTable));
    var s3 := Goes(s2, Flush(BeginFlushInstall));
    var s4 := Goes(s3, Flush(WriteFlushManifest));
    var s5 := Goes(s4, Flush(FinishFlush));
    path := [s, s1, s2, s3, s4, s5];
  }

  // ----- Compaction

  lemma {:induction false} Merges(s: State, inputs: set<nat>, base: set<Key>) returns (s1: State, s2: State, s3: State)
    requires Inv(s) && CanMerge(s, StartJob(inputs, base))
    ensures Next(s, s1) && Next(s1, s2) && Next(s2, s3) && Inv(s3)
    ensures var oldest := if s.snapshots == [] then s.lastSequence else s.snapshots[0];
            var kept := Kept(Tables(s.disk.files, inputs), base, oldest);
            && s3 == s.(bg := Background(NoFlush, Some(Job(inputs, base, oldest, {s.v.nextFile}, true, NotYet))),
                        v := s.v.(pending := s.v.pending + {s.v.nextFile}, nextFile := s.v.nextFile + 1),
                        disk := s.disk.(files := s.disk.files[s.v.nextFile := kept]))
  {
    hide Inv, Kept, Tables, Separated;
    var oldest := if s.snapshots == [] then s.lastSequence else s.snapshots[0];
    var kept := Kept(Tables(s.disk.files, inputs), base, oldest);
    s1 := Goes(s, Merge(StartJob(inputs, base)));
    s2 := Goes(s1, Merge(WriteOutput(kept)));
    assert {} + {s.v.nextFile} == {s.v.nextFile};
    OneTable(s2.disk.files, s.v.nextFile);
    SameInputs(s, inputs, kept);
    s3 := Goes(s2, Merge(FinishMerge));
  }

  lemma {:induction false} SameInputs(s: State, inputs: set<nat>, kept: set<Entry>)
    requires Inv(s) && s.phase == Open && inputs <= s.v.current
    ensures Tables(s.disk.files[s.v.nextFile := kept], inputs) == Tables(s.disk.files, inputs)
  {
    hide Inv, Tables;
    ImmutableThere(s);
    OtherTables(s.disk.files, s.v.nextFile, kept, inputs);
  }

  lemma {:induction false} OtherTables(files: map<nat, set<Entry>>, n: nat, entries: set<Entry>, tables: set<nat>)
    requires n !in tables
    ensures Tables(files[n := entries], tables) == Tables(files, tables)
  {
    var files' := files[n := entries];
    assert forall m :: m in tables && m in files' ==> m in files && files'[m] == files[m];
    assert forall m :: m in tables && m in files ==> m in files' && files'[m] == files[m];
    assert forall e :: e in Tables(files', tables) <==> e in Tables(files, tables);
  }

  lemma {:induction false} Installs(s: State) returns (s1: State, s2: State, s3: State)
    requires Inv(s) && s.phase == Open && s.bg.flush == NoFlush && s.bg.job.Some?
    requires s.bg.job.value.merged && s.bg.job.value.install == NotYet
    ensures Next(s, s1) && Next(s1, s2) && Next(s2, s3) && Inv(s3)
    ensures s3.phase == Open && s3.bg.job.None? && s3.hist == s.hist && s3.disk.files == s.disk.files
    ensures s3.v.current == s.v.current - s.bg.job.value.inputs + s.bg.job.value.outputs
    ensures s3.disk.manifest.tables == s3.v.current
  {
    hide Inv;
    s1 := Goes(s, Merge(BeginJobInstall));
    s2 := Goes(s1, Merge(WriteJobManifest));
    s3 := Goes(s2, Merge(FinishJob));
  }

  /** A compaction of any tables it may take can replace them by a table of what they hold that is
      to be kept for the oldest snapshot in use, or for the present if there is none. */
  lemma {:induction false} CompactionCompletes(s: State, inputs: set<nat>, base: set<Key>) returns (path: seq<State>)
    requires Inv(s) && CanMerge(s, StartJob(inputs, base))
    ensures Path(path) && path[0] == s
    ensures var last, t := path[|path| - 1], s.v.nextFile;
            && last.phase == Open && last.bg.job.None? && last.hist == s.hist && Inv(last)
            && last.v.current == s.v.current - inputs + {t} && last.disk.manifest.tables == last.v.current
            && t in last.disk.files
            && last.disk.files[t] == Kept(Tables(s.disk.files, inputs), base,
                                          if s.snapshots == [] then s.lastSequence else s.snapshots[0])
  {
    hide Inv, Next, Kept, Tables;
    var s1, s2, s3 := Merges(s, inputs, base);
    var s4, s5, s6 := Installs(s3);
    path := [s, s1, s2, s3, s4, s5, s6];
  }
}

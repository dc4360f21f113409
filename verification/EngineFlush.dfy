/** Every step of the memtable flush keeps the engine's invariant. */
module EngineFlush {
  import opened Mvcc
  import opened Compaction
  import opened Engine
  import opened EngineInvariant

  lemma {:induction false} StartFlushKeeps(s: State)
    requires Inv(s) && CanFlush(s, StartFlush)
    ensures Inv(DoFlush(s, StartFlush))
  {
    hide MemtablesOk, ReadersOk, WritersOk, DiskOk, LogOk;
  }

  // Writing a file that nobody refers to yet.
  lemma {:induction false} NewFile(files: map<nat, set<Entry>>, n: nat, entries: set<Entry>, tables: set<nat>,
                                   hist: seq<Entry>, end: nat, floor: nat)
    requires TablesOk(files, tables, hist, end, floor) && n !in tables
    ensures TablesOk(files[n := entries], tables, hist, end, floor)
  {
    TablesFrame(files, files[n := entries], tables);
  }

  lemma {:induction false} JobNewFile(job: Option<Job>, v: Version, files: map<nat, set<Entry>>, n: nat,
                                      entries: set<Entry>)
    requires JobOk(job, v, files) && v.current <= files.Keys
    requires job.Some? ==> n !in v.current && n !in job.value.outputs
    ensures JobOk(job, v, files[n := entries])
  {
    if job.Some? {
      var j := job.value;
      TablesFrame(files, files[n := entries], j.inputs);
      TablesFrame(files, files[n := entries], j.outputs);
      TablesFrame(files, files[n := entries], v.current - j.inputs);
    }
  }

  lemma {:induction false} BuildTableKeeps(s: State)
    requires Inv(s) && CanFlush(s, BuildTable)
    ensures Inv(DoFlush(s, BuildTable))
  {
    hide WritersOk, LogOk, JobOk, SameReads, Tables, Get, Lookup, History;
    var t, entries := s.bg.flush.table, s.mem.contents[s.mem.imm.value];
    var files' := s.disk.files[t := entries];
    forall id, n | id in s.readers && n in s.readers[id].version
      ensures n in files' && (n in s.disk.files ==> files'[n] == s.disk.files[n])
    {
      assert ReaderOk(s.readers[id], s.mem, s.disk.files, s.lastSequence, s.hist);
    }
    NewFile(s.disk.files, t, entries, s.v.current, s.hist, s.at.tableEnd, s.at.floor);
    NewFile(s.disk.files, t, entries, s.disk.manifest.tables, s.hist, s.at.durableEnd, s.at.floor);
    JobNewFile(s.bg.job, s.v, s.disk.files, t, entries);
    ReadersFrame(s.readers, s.mem, s.mem, s.disk.files, files', s.lastSequence, s.lastSequence, s.hist);
  }

  lemma {:induction false} BeginFlushInstallKeeps(s: State)
    requires Inv(s) && CanFlush(s, BeginFlushInstall)
    ensures Inv(DoFlush(s, BeginFlushInstall))
  {
    hide MemtablesOk, ReadersOk, WritersOk, DiskOk, LogOk, TablesOk;
  }

  // Making the edit durable moves the manifest past the immutable memtable: its table
  // replaces its log.
  lemma {:induction false} FlushedDisk(s: State)
    requires Inv(s) && CanFlush(s, WriteFlushManifest)
    ensures DiskOk(DoFlush(s, WriteFlushManifest).disk, s.hist, s.at.memStart, s.at.floor)
  {
    hide WritersOk, ReadersOk, JobOk, HeldOk;
    var t := s.bg.flush.table;
    FlushedTables(s.disk.files, s.v.current, t, s.hist, s.at);
  }

  lemma {:induction false} FlushedTables(files: map<nat, set<Entry>>, current: set<nat>, t: nat, hist: seq<Entry>,
                                         at: Marks)
    requires WellNumbered(hist) && TablesOk(files, current, hist, at.tableEnd, at.floor)
    requires at.tableEnd <= at.memStart <= |hist|
    requires t in files && files[t] == History(hist, at.tableEnd, at.memStart)
    ensures TablesOk(files, current + {t}, hist, at.memStart, at.floor)
  {
    ExtendTables(Tables(files, current), hist, at.tableEnd, at.memStart, at.floor);
    TablesUnion(files, current, {t});
    assert Tables(files, {t}) == files[t];
  }

  lemma {:induction false} WriteFlushManifestKeeps(s: State)
    requires Inv(s) && CanFlush(s, WriteFlushManifest)
    ensures Inv(DoFlush(s, WriteFlushManifest))
  {
    hide ReadersOk, WritersOk, LogOk, TablesOk, JobOk, DiskOk, HistoryOk, WellNumbered, History, Tables, LogEntries;
    FlushedDisk(s);
    FlushRunsAlone(s);
  }

  // A flush starts before a running compaction writes its edit, and ends before that too.
  lemma {:induction false} FlushRunsAlone(s: State)
    requires Inv(s) && s.phase == Open && s.bg.flush != NoFlush
    ensures !JobDurable(s.bg)
  {
    hide ReadersOk, WritersOk, LogOk, TablesOk, DiskOk, MemtablesOk, HistoryOk, WellNumbered, Separated, Tables, HeldOk;
  }

  // ----- Installing the flushed table

  // A flushed table is younger than every input of a running compaction.
  lemma {:induction false} SeparatedNewer(inputs: set<Entry>, rest: set<Entry>, newer: set<Entry>, base: set<Key>)
    requires Separated(inputs, rest, base)
    requires forall e, f :: e in inputs && f in newer ==> e.sequence < f.sequence
    ensures Separated(inputs, rest + newer, base)
  {
  }

  lemma {:induction false} JobFlushed(job: Option<Job>, v: Version, v': Version, t: nat, files: map<nat, set<Entry>>,
                                      hist: seq<Entry>, at: Marks)
    requires JobOk(job, v, files) && TablesOk(files, v.current, hist, at.tableEnd, at.floor)
    requires t in files && t !in v.current && files[t] == History(hist, at.tableEnd, at.memStart)
    requires v'.current == v.current + {t} && v'.pending == v.pending
    ensures JobOk(job, v', files)
  {
    if job.Some? {
      var j := job.value;
      assert Tables(files, j.inputs) <= Tables(files, v.current);
      assert v'.current - j.inputs == (v.current - j.inputs) + {t};
      TablesUnion(files, v.current - j.inputs, {t});
      assert Tables(files, {t}) == files[t];
      SeparatedNewer(Tables(files, j.inputs), Tables(files, v.current - j.inputs), files[t], j.base);
    }
  }

  lemma {:induction false} FinishFlushKeeps(s: State)
    requires Inv(s) && CanFlush(s, FinishFlush)
    ensures Inv(DoFlush(s, FinishFlush))
  {
    hide WritersOk, DiskOk, LogOk, JobOk, Tables, History, Get, Lookup, SameReads;
    var s' := DoFlush(s, FinishFlush);
    var files := s.disk.files;
    FlushedTables(files, s.v.current, s.bg.flush.table, s.hist, s.at);
    JobFlushed(s.bg.job, s.v, s'.v, s.bg.flush.table, files, s.hist, s.at);
    ReadersFrame(s.readers, s.mem, s'.mem, s'.disk.files, s'.disk.files, s.lastSequence, s.lastSequence, s.hist);
  }

  lemma {:induction false} FlushKeeps(s: State, step: FlushStep)
    requires Inv(s) && CanFlush(s, step)
    ensures Inv(DoFlush(s, step))
  {
    hide Inv;
    match step
    case StartFlush => StartFlushKeeps(s);
    case BuildTable => BuildTableKeeps(s);
    case BeginFlushInstall => BeginFlushInstallKeeps(s);
    case WriteFlushManifest => WriteFlushManifestKeeps(s);
    case FinishFlush => FinishFlushKeeps(s);
  }
}

/**
 The invariant of the engine's state machine: how the tables, the logs, the memtables and
 the reads in progress each relate to the history of everything ever logged.
 */
module EngineInvariant {
  import opened Mvcc
  import opened GroupCommit
  import opened Compaction
  import opened Engine

  ghost predicate WellNumbered(hist: seq<Entry>) {
    forall i :: 0 <= i < |hist| ==> hist[i].sequence == i + 1
  }

  // ----- Disk

  // A set of tables stands for the history up to `end`, for reads at `floor` or later.
  ghost predicate TablesOk(files: map<nat, set<Entry>>, tables: set<nat>, hist: seq<Entry>, end: nat, floor: nat) {
    && tables <= files.Keys
    && end <= |hist|
    && Tables(files, tables) <= History(hist, 0, end)
    && SameReads(Tables(files, tables), History(hist, 0, end), floor)
  }

  // What a crash at this moment would leave: the manifest's tables and the logs it names
  // hold the whole history.
  ghost predicate DiskOk(d: Disk, hist: seq<Entry>, end: nat, floor: nat) {
    && TablesOk(d.files, d.manifest.tables, hist, end, floor)
    && LogEntries(d.logs, d.manifest.logNumber) == History(hist, end, |hist|)
    && ManifestBounds(d.manifest, end, |hist|)
    && floor <= |hist|
  }

  predicate ManifestBounds(m: Manifest, low: nat, high: nat) {
    && low <= m.lastSequence <= high
    && m.logNumber < m.nextFile
    && (forall n :: n in m.tables ==> n < m.nextFile)
  }

  // ----- Memory

  // How much of the history is in memtables or tables.
  function Applied(w: Writers, lastSequence: nat): nat {
    lastSequence + if w.group.Some? then w.group.value.inserted else 0
  }

  // The history beyond the last published sequence is the logged group, if there is one.
  predicate TailOk(w: Writers, lastSequence: nat, hist: seq<Entry>) {
    && lastSequence <= |hist|
    && hist[lastSequence..] == if w.group.Some? && w.group.value.logged then w.group.value.entries else []
  }

  // The present log holds what was logged since the memtable was created.
  ghost predicate LogOk(logs: map<nat, seq<Entry>>, logFile: nat, hist: seq<Entry>, memStart: nat) {
    && logFile in logs && (forall n :: n in logs ==> n <= logFile)
    && LogEntries(logs, logFile) == History(hist, memStart, |hist|)
  }

  // The memtable holds what was applied since it was created, the immutable memtable the
  // stretch before that, which the tables do not have yet.
  ghost predicate MemtablesOk(m: Memtables, hist: seq<Entry>, at: Marks, applied: nat) {
    && applied <= |hist| && at.tableEnd <= at.memStart <= applied
    && m.logFile in m.contents && (forall n :: n in m.contents ==> n <= m.logFile)
    && m.contents[m.logFile] == History(hist, at.memStart, applied)
    && (m.imm.None? ==> at.tableEnd == at.memStart)
    && (m.imm.Some? ==>
          && m.imm.value in m.contents && m.imm.value != m.logFile
          && m.contents[m.imm.value] == History(hist, at.tableEnd, at.memStart))
    && (forall n :: n in m.contents ==> m.contents[n] <= History(hist, 0, applied))
  }

  ghost predicate VersionOk(v: Version, files: map<nat, set<Entry>>, hist: seq<Entry>, at: Marks) {
    && TablesOk(files, v.current, hist, at.tableEnd, at.floor)
    && (forall n :: n in v.current ==> n < v.nextFile && n !in v.pending)
    && (forall n :: n in v.pending ==> n < v.nextFile)
  }

  // The snapshot list is ordered, so its first element is the oldest one.
  ghost predicate SnapshotsOk(snapshots: seq<nat>, floor: nat, lastSequence: nat) {
    && floor <= lastSequence
    && (forall i :: 0 <= i < |snapshots| ==> floor <= snapshots[i] <= lastSequence)
    && (forall i, j :: 0 <= i < j < |snapshots| ==> snapshots[i] <= snapshots[j])
  }

  ghost predicate FlushOk(bg: Background, v: Version, imm: Option<nat>, files: map<nat, set<Entry>>, hist: seq<Entry>,
                          at: Marks) {
    bg.flush != NoFlush ==>
      var t := bg.flush.table;
      && imm.Some? && t < v.nextFile && t !in v.current
      && (bg.job.Some? ==> t !in bg.job.value.outputs && !bg.job.value.merged)
      && (bg.flush.Building? || bg.flush.Built? ==> t in v.pending)
      && (!bg.flush.Building? ==> t in files && files[t] == History(hist, at.tableEnd, at.memStart))
      && (bg.flush.Installing? ==> t !in v.pending && bg.flush.install != NotYet)
  }

  // The edit of a flush names the new table and the present log, and is safe to make durable.
  ghost predicate FlushEditOk(flush: Flush, v: Version, logFile: nat, lastSequence: nat, at: Marks) {
    flush.Installing? && flush.install != NotYet ==>
      var edit := flush.install.edit;
      && edit.logNumber == logFile && edit.tables == v.current + {flush.table}
      && ManifestBounds(edit, at.memStart, lastSequence)
      && edit.nextFile <= v.nextFile
  }

  ghost predicate JobOk(job: Option<Job>, v: Version, files: map<nat, set<Entry>>) {
    job.Some? ==>
      var j := job.value;
      && j.inputs <= v.current && j.outputs <= v.pending && j.outputs <= files.Keys
      && Separated(Tables(files, j.inputs), Tables(files, v.current - j.inputs), j.base)
      && (j.merged ==> Tables(files, j.outputs) == Kept(Tables(files, j.inputs), j.base, j.smallest))
      && (j.install != NotYet ==> j.merged)
  }

  // A running compaction drops nothing that a present or future snapshot can see.
  ghost predicate JobSnapshotOk(job: Option<Job>, snapshots: seq<nat>, lastSequence: nat) {
    job.Some? ==>
      && job.value.smallest <= lastSequence
      && (forall i :: 0 <= i < |snapshots| ==> job.value.smallest <= snapshots[i])
  }

  ghost predicate JobEditOk(job: Option<Job>, v: Version, lastSequence: nat, at: Marks) {
    job.Some? && job.value.install != NotYet ==>
      var j, edit := job.value, job.value.install.edit;
      && edit.logNumber == v.logNumber && edit.tables == v.current - j.inputs + j.outputs
      && ManifestBounds(edit, at.tableEnd, lastSequence)
      && edit.nextFile <= v.nextFile
  }

  predicate FlushDurable(bg: Background) { bg.flush.Installing? && bg.flush.install.Durable? }
  predicate JobDurable(bg: Background) { bg.job.Some? && bg.job.value.install.Durable? }

  // The manifest is the current version, except between a durable write and its installation.
  ghost predicate ManifestOk(v: Version, bg: Background, logFile: nat, manifest: Manifest, at: Marks) {
    && manifest.nextFile <= v.nextFile && v.logNumber <= logFile < v.nextFile
    && (FlushDurable(bg) ==> manifest == bg.flush.install.edit && at.durableEnd == at.memStart)
    && (!FlushDurable(bg) ==> manifest.logNumber == v.logNumber && at.durableEnd == at.tableEnd)
    && (JobDurable(bg) ==> manifest == bg.job.value.install.edit && bg.job.value.smallest <= at.floor)
    && (!FlushDurable(bg) && !JobDurable(bg) ==> manifest.tables == v.current)
  }

  // Every read in progress will answer from the history as of its snapshot.
  ghost predicate ReadersOk(readers: map<nat, Reader>, m: Memtables, files: map<nat, set<Entry>>, lastSequence: nat,
                            hist: seq<Entry>) {
    forall id :: id in readers ==> ReaderOk(readers[id], m, files, lastSequence, hist)
  }

  ghost predicate ReaderOk(r: Reader, m: Memtables, files: map<nat, set<Entry>>, lastSequence: nat, hist: seq<Entry>) {
    && HasLayers(m.contents, files, r) && r.snapshot <= lastSequence
    && (r.imm.Some? ==> r.imm.value != m.logFile)
    && Get(m.contents, files, r) == Lookup(History(hist, 0, r.snapshot), r.key, r.snapshot)
  }

  // The files a read holds have been numbered, and are not about to be written.
  ghost predicate HeldOk(readers: map<nat, Reader>, nextFile: nat, flush: Flush) {
    forall id :: id in readers ==>
      && (forall n :: n in readers[id].version ==> n < nextFile)
      && (flush.Building? ==> flush.table !in readers[id].version)
  }

  ghost predicate OpenOk(s: State) {
    && TailOk(s.w, s.lastSequence, s.hist)
    && LogOk(s.disk.logs, s.mem.logFile, s.hist, s.at.memStart)
    && MemtablesOk(s.mem, s.hist, s.at, Applied(s.w, s.lastSequence))
    && s.at.tableEnd <= s.at.memStart <= s.lastSequence
    && VersionOk(s.v, s.disk.files, s.hist, s.at)
    && SnapshotsOk(s.snapshots, s.at.floor, s.lastSequence)
    && FlushOk(s.bg, s.v, s.mem.imm, s.disk.files, s.hist, s.at)
    && FlushEditOk(s.bg.flush, s.v, s.mem.logFile, s.lastSequence, s.at)
    && JobOk(s.bg.job, s.v, s.disk.files)
    && JobSnapshotOk(s.bg.job, s.snapshots, s.lastSequence)
    && JobEditOk(s.bg.job, s.v, s.lastSequence, s.at)
    && ManifestOk(s.v, s.bg, s.mem.logFile, s.disk.manifest, s.at)
    && ReadersOk(s.readers, s.mem, s.disk.files, s.lastSequence, s.hist)
    && HeldOk(s.readers, s.v.nextFile, s.bg.flush)
  }

  // ----- Recovery: everything logged is replayed, or waits in a log

  ghost predicate ReopenOk(p: Phase, d: Disk, hist: seq<Entry>, at: Marks) {
    match p
    case Closed => true
    case Replaying(tables) => tables <= d.files.Keys && forall n :: n in tables ==> d.manifest.nextFile <= n
    case Replayed(tables, last) => ReplayOk(tables, last, d, hist, at)
    case LogCreated(tables, last, log) =>
      && ReplayOk(tables, last, d, hist, at) && NewLogOk(log, d.logs)
      && d.manifest.nextFile <= log && (forall n :: n in tables ==> n < log)
    case Saved(last, log) =>
      last == |hist| == at.durableEnd && d.manifest.logNumber <= log && NewLogOk(log, d.logs)
    case Open => true
  }

  ghost predicate ReplayOk(tables: set<nat>, last: nat, d: Disk, hist: seq<Entry>, at: Marks) {
    && last == |hist|
    && tables !! d.manifest.tables && tables <= d.files.Keys
    && Tables(d.files, tables) == History(hist, at.durableEnd, |hist|)
  }

  predicate NewLogOk(log: nat, logs: map<nat, seq<Entry>>) {
    log in logs && logs[log] == [] && (forall n :: n in logs ==> n <= log)
  }

  // ----- Group commit

  ghost predicate Increasing(writers: seq<Writer>) {
    forall i, j :: 0 <= i < j < |writers| ==> writers[i].id < writers[j].id
  }

  function LoggedWriters(w: Writers): nat {
    if w.group.Some? && w.group.value.logged then w.group.value.size else 0
  }

  // Everyone who arrived before the queue's front has left it.
  function Front(w: Writers): int { w.arrivals - |w.queue| }

  ghost predicate GroupOk(w: Writers, lastSequence: nat) {
    w.group.Some? ==>
      var g := w.group.value;
      && 0 < g.size <= |w.queue| && w.queue[0].batch.Some?
      && (forall i :: 0 < i < g.size ==> Joins(w.queue, i))
      && g.entries == Numbered(lastSequence + 1, Ops(w.queue[..g.size]))
      && g.inserted <= |g.entries| && (!g.logged ==> g.inserted == 0)
  }

  predicate UsesTmpBatch(w: Writers) {
    w.group.Some? && w.group.value.size <= |w.queue| && NeedsTmpBatch(w.queue, w.group.value.size)
  }

  // The queue is the latest arrivals, in order; a group is its front, and the scratch batch
  // is empty unless a group is using it.
  ghost predicate QueueOk(w: Writers, lastSequence: nat) {
    && Front(w) >= 0
    && (forall i :: 0 <= i < |w.queue| ==> w.queue[i].id == Front(w) + i)
    && GroupOk(w, lastSequence)
    && w.tmpBatch == (if UsesTmpBatch(w) then Ops(w.queue[..w.group.value.size]) else [])
  }

  // The history is the committed writers' batches, numbered from 1.
  predicate HistoryOk(committed: seq<Writer>, hist: seq<Entry>) {
    hist == Numbered(1, Ops(committed))
  }

  // A logged group is committed and still queued, everyone else committed has left the queue.
  ghost predicate CommitOk(w: Writers) {
    && Increasing(w.committed)
    && LoggedWriters(w) <= |w.committed| && LoggedWriters(w) <= |w.queue|
    && w.committed[|w.committed| - LoggedWriters(w)..] == w.queue[..LoggedWriters(w)]
    && (forall i :: 0 <= i < |w.committed| - LoggedWriters(w) ==> w.committed[i].id < Front(w))
  }

  // Every writer is acknowledged at most once, in arrival order; success means committed,
  // failure means not committed.
  ghost predicate AcksOk(w: Writers) {
    && (forall i, j :: 0 <= i < j < |w.acks| ==> w.acks[i].writer.id < w.acks[j].writer.id)
    && (forall i :: 0 <= i < |w.acks| ==> w.acks[i].writer.id < Front(w))
    && (forall i :: 0 <= i < |w.acks| && w.acks[i].ok ==> w.acks[i].writer in w.committed)
    && (forall i, j :: 0 <= i < |w.acks| && !w.acks[i].ok && 0 <= j < |w.committed| ==>
          w.committed[j].id != w.acks[i].writer.id)
  }

  ghost predicate WritersOk(w: Writers, lastSequence: nat) {
    QueueOk(w, lastSequence) && CommitOk(w) && AcksOk(w)
  }

  ghost predicate Inv(s: State) {
    && WellNumbered(s.hist)
    && HistoryOk(s.w.committed, s.hist)
    && WritersOk(s.w, s.lastSequence)
    && DiskOk(s.disk, s.hist, s.at.durableEnd, s.at.floor)
    && ReopenOk(s.phase, s.disk, s.hist, s.at)
    && (if s.phase == Open then OpenOk(s) else s == Lost(s).(phase := s.phase))
  }

  // ----- Contents

  lemma {:induction false} HistoryExtends(hist: seq<Entry>, more: seq<Entry>, a: nat, b: nat)
    requires WellNumbered(hist + more) && b <= |hist|
    ensures WellNumbered(hist)
    ensures History(hist + more, a, b) == History(hist, a, b)
  {
    var all := hist + more;
    forall i | 0 <= i < |hist| ensures hist[i].sequence == i + 1 { assert all[i] == hist[i]; }
    forall e | e in all && e.sequence <= |hist| ensures e in hist {
      var i :| 0 <= i < |all| && all[i] == e;
    }
  }

  lemma {:induction false} HistoryGrows(hist: seq<Entry>, more: seq<Entry>, a: nat)
    requires WellNumbered(hist + more) && a <= |hist|
    ensures History(hist + more, a, |hist + more|) == History(hist, a, |hist|) + Elements(more)
  {
    var all := hist + more;
    forall e | e in all
      ensures 0 < e.sequence <= |all|
      ensures (e.sequence <= |hist| <==> e in hist) && (e.sequence > |hist| <==> e in more)
    {
      var i :| 0 <= i < |all| && all[i] == e;
      assert i < |hist| ==> hist[i] == e;
      assert i >= |hist| ==> more[i - |hist|] == e;
      forall j | 0 <= j < |hist| ensures hist[j].sequence == j + 1 { assert all[j] == hist[j]; }
      forall j | 0 <= j < |more| ensures more[j].sequence == |hist| + j + 1 { assert all[|hist| + j] == more[j]; }
    }
  }

  lemma {:induction false} HistoryIsDistinct(hist: seq<Entry>, s: set<Entry>)
    requires WellNumbered(hist) && s <= History(hist, 0, |hist|)
    ensures Distinct(s)
  {
    forall e, f | e in s && f in s && e.sequence == f.sequence ensures e == f {
      var i :| 0 <= i < |hist| && hist[i] == e;
      var j :| 0 <= j < |hist| && hist[j] == f;
    }
  }

  // Adding the same stretch of history to both sides keeps every read.
  lemma {:induction false} ExtendTables(tables: set<Entry>, hist: seq<Entry>, a: nat, b: nat, floor: nat)
    requires WellNumbered(hist) && a <= b <= |hist|
    requires tables <= History(hist, 0, a) && SameReads(tables, History(hist, 0, a), floor)
    ensures tables + History(hist, a, b) <= History(hist, 0, b)
    ensures SameReads(tables + History(hist, a, b), History(hist, 0, b), floor)
  {
    var newer := History(hist, a, b);
    assert newer + History(hist, 0, a) == History(hist, 0, b);
    assert tables + newer == newer + tables;
    HistoryIsDistinct(hist, newer + tables);
    HistoryIsDistinct(hist, newer + History(hist, 0, a));
    forall key, snapshot: nat | floor <= snapshot
      ensures Lookup(tables + newer, key, snapshot) == Lookup(History(hist, 0, b), key, snapshot)
    {
      ProbeLayers(newer, tables, key, snapshot);
      ProbeLayers(newer, History(hist, 0, a), key, snapshot);
      assert Lookup(tables, key, snapshot) == Lookup(History(hist, 0, a), key, snapshot);
    }
  }

  lemma {:induction false} TablesFrame(files: map<nat, set<Entry>>, files': map<nat, set<Entry>>, tables: set<nat>)
    requires tables <= files.Keys && tables <= files'.Keys
    requires forall n :: n in tables ==> files[n] == files'[n]
    ensures Tables(files', tables) == Tables(files, tables)
  {
  }

  lemma {:induction false} TablesUnion(files: map<nat, set<Entry>>, a: set<nat>, b: set<nat>)
    ensures Tables(files, a + b) == Tables(files, a) + Tables(files, b)
  {
  }

  lemma {:induction false} NewLog(logs: map<nat, seq<Entry>>, n: nat, from: nat)
    requires n !in logs
    ensures LogEntries(logs[n := []], from) == LogEntries(logs, from)
  {
    var logs' := logs[n := []];
    forall e ensures e in LogEntries(logs', from) <==> e in LogEntries(logs, from) {
      if m :| m in logs && from <= m && e in logs[m] {
        assert m in logs' && e in logs'[m];
      }
    }
  }

  lemma {:induction false} AppendedLog(logs: map<nat, seq<Entry>>, n: nat, from: nat, more: seq<Entry>)
    requires n in logs && from <= n
    ensures LogEntries(logs[n := logs[n] + more], from) == LogEntries(logs, from) + Elements(more)
  {
    var logs' := logs[n := logs[n] + more];
    forall e ensures e in LogEntries(logs', from) <==> e in LogEntries(logs, from) || e in more {
      if e in more {
        assert e in logs'[n];
      }
      if m :| m in logs && from <= m && e in logs[m] {
        assert m in logs' && e in logs'[m];
      }
    }
  }

  lemma {:induction false} ObsoleteLog(logs: map<nat, seq<Entry>>, n: nat, from: nat)
    requires n < from
    ensures LogEntries(logs - {n}, from) == LogEntries(logs, from)
  {
    var logs' := logs - {n};
    forall e ensures e in LogEntries(logs', from) <==> e in LogEntries(logs, from) {
      if m :| m in logs && from <= m && e in logs[m] {
        assert m in logs' && e in logs'[m];
      }
    }
  }

  // Reads in progress do not notice new memtables, new files or deletions of files they do
  // not hold.
  lemma {:induction false} ReadersFrame(readers: map<nat, Reader>, m: Memtables, m': Memtables,
                                        files: map<nat, set<Entry>>, files': map<nat, set<Entry>>,
                                        last: nat, last': nat, hist: seq<Entry>)
    requires ReadersOk(readers, m, files, last, hist) && last <= last'
    requires forall n :: n in m.contents ==> n in m'.contents && m'.contents[n] == m.contents[n]
    requires m'.logFile == m.logFile || m'.logFile !in m.contents
    requires forall id, n :: id in readers && n in readers[id].version ==>
               n in files ==> n in files' && files'[n] == files[n]
    ensures ReadersOk(readers, m', files', last', hist)
  {
    forall id | id in readers ensures ReaderOk(readers[id], m', files', last', hist) {
      assert ReaderOk(readers[id], m, files, last, hist);
      TablesFrame(files, files', readers[id].version);
    }
  }

  // Deleting a table leaves all others alone.
  lemma {:induction false} ObsoleteTable(files: map<nat, set<Entry>>, n: nat, tables: set<nat>)
    requires tables <= files.Keys && n !in tables
    ensures tables <= (files - {n}).Keys && Tables(files - {n}, tables) == Tables(files, tables)
  {
    TablesFrame(files, files - {n}, tables);
  }

  lemma {:induction false} InitInv(s: State)
    requires Init(s)
    ensures Inv(s)
  {
    hide OpenOk, Lookup;
    assert Tables(s.disk.files, {}) == {} == History(s.hist, 0, 0);
    assert LogEntries(s.disk.logs, 0) == {} == History(s.hist, 0, |s.hist|);
    assert DiskOk(s.disk, s.hist, s.at.durableEnd, s.at.floor);
    hide DiskOk;
  }
}

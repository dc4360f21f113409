/**
 The storage engine as a state machine. Every step is one critical section of
 `mutex_` (or one action taken with it released): writers queueing and committing in
 groups, memtable switch, memtable flush, table compaction, snapshots, reads that run
 unlocked, and a crash at any point followed by recovery.

 The version set is reduced to its manifest: a log number, the live tables, the last
 sequence and the next file number. A memtable is named by the number of its log.
 */
module Engine {
  import opened Mvcc
  import opened GroupCommit
  import opened Compaction

  datatype Manifest = Manifest(logNumber: nat, tables: set<nat>, lastSequence: nat, nextFile: nat)

  // The front writer's commit in progress: how many writers it covers, their numbered
  // entries, whether its log record is appended, and how many entries are in the memtable.
  datatype Group = Group(size: nat, entries: seq<Entry>, logged: bool, inserted: nat)

  // A manifest write in progress (LogAndApply): taken under the lock, made durable with the
  // lock released, installed under the lock.
  datatype Install = NotYet | Writing(edit: Manifest) | Durable(edit: Manifest)

  // CompactMemTable, from WriteLevel0Table to the installed version.
  datatype Flush = NoFlush | Building(table: nat) | Built(table: nat) | Installing(table: nat, install: Install)

  // DoCompactionWork: which tables it merges, and what it has written.
  datatype Job = Job(inputs: set<nat>, base: set<Key>, smallest: nat, outputs: set<nat>,
                     merged: bool, install: Install)

  // A read in progress, with the layers it holds references to.
  datatype Reader = Reader(key: Key, snapshot: nat, mem: nat, imm: Option<nat>, version: set<nat>)

  // DB::Open: replaying logs into tables, creating the new log, saving the manifest, running.
  datatype Phase =
    | Closed
    | Replaying(tables: set<nat>)
    | Replayed(tables: set<nat>, last: nat)
    | LogCreated(tables: set<nat>, last: nat, log: nat)
    | Saved(last: nat, log: nat)
    | Open

  datatype Ack = Ack(writer: Writer, ok: bool)

  // What survives a crash. A log holds the entries of its records; each record is appended
  // in one step.
  datatype Disk = Disk(manifest: Manifest, logs: map<nat, seq<Entry>>, files: map<nat, set<Entry>>)

  // The memtable, named by its log, and the immutable memtable; memtables live as long as
  // readers may hold them.
  datatype Memtables = Memtables(logFile: nat, imm: Option<nat>, contents: map<nat, set<Entry>>)

  // The version set in memory.
  datatype Version = Version(logNumber: nat, current: set<nat>, pending: set<nat>, nextFile: nat)

  datatype Background = Background(flush: Flush, job: Option<Job>)

  // The writer queue and its scratch batch; then, for specification, the writers whose
  // batches were logged and what clients were told.
  datatype Writers = Writers(
    queue: seq<Writer>, arrivals: nat, tmpBatch: seq<Mutation>, group: Option<Group>,
    committed: seq<Writer>, acks: seq<Ack>)

  // For specification: how far into the history the current tables, the manifest's tables and
  // the immutable memtable reach; reads below the floor are no longer promised.
  datatype Marks = Marks(tableEnd: nat, durableEnd: nat, memStart: nat, floor: nat)

  datatype State = State(phase: Phase, disk: Disk, mem: Memtables, v: Version, bg: Background,
                         lastSequence: nat, w: Writers, snapshots: seq<nat>, readers: map<nat, Reader>,
                         hist: seq<Entry>, at: Marks)  // hist: every entry ever logged

  // ----- Contents

  function Tables(files: map<nat, set<Entry>>, numbers: set<nat>): set<Entry> {
    set n, e | n in numbers && n in files && e in files[n] :: e
  }

  function LogEntries(logs: map<nat, seq<Entry>>, from: nat): set<Entry> {
    set n, e | n in logs && from <= n && e in logs[n] :: e
  }

  // The entries of the history with sequences in (a, b].
  function History(hist: seq<Entry>, a: nat, b: nat): set<Entry> {
    set e | e in hist && a < e.sequence <= b
  }

  function Max(a: nat, b: nat): nat { if a < b then b else a }

  // ----- Reading: the memtable, then the immutable memtable, then the tables

  ghost function LayeredProbe(mem: set<Entry>, imm: set<Entry>, tables: set<Entry>, key: Key,
                              snapshot: nat): Option<Entry> {
    var m := Probe(mem, key, snapshot);
    if m.Some? then m else
    var i := Probe(imm, key, snapshot);
    if i.Some? then i else Probe(tables, key, snapshot)
  }

  predicate HasLayers(memtables: map<nat, set<Entry>>, files: map<nat, set<Entry>>, r: Reader) {
    r.mem in memtables && (r.imm.Some? ==> r.imm.value in memtables) && r.version <= files.Keys
  }

  // DBImpl::Get, from the layers referenced when the read began.
  ghost function Get(memtables: map<nat, set<Entry>>, files: map<nat, set<Entry>>, r: Reader): Option<Bytes>
    requires HasLayers(memtables, files, r)
  {
    var imm := if r.imm.Some? then memtables[r.imm.value] else {};
    Answer(LayeredProbe(memtables[r.mem], imm, Tables(files, r.version), r.key, r.snapshot))
  }

  // ----- Writers: Write, BuildBatchGroup, MakeRoomForWrite

  datatype WriteStep =
    | Enqueue(batch: Option<seq<Mutation>>, bytes: nat, sync: bool)
    | FailLeader
    | LeaveNullLeader
    | SwitchMemtable
    | BuildGroup(size: nat)
    | AppendLog
    | InsertEntry
    | Publish

  predicate HasLeader(w: Writers) {
    |w.queue| > 0 && w.group.None?
  }

  predicate HasGroup(s: State) {
    && s.w.group.Some? && s.w.group.value.size <= |s.w.queue|
    && s.mem.logFile in s.disk.logs && s.mem.logFile in s.mem.contents
  }

  predicate CanWrite(s: State, step: WriteStep) {
    s.phase == Open &&
    match step
    case Enqueue(_, _, _) => true
    case FailLeader => HasLeader(s.w)
    case LeaveNullLeader => HasLeader(s.w) && s.w.queue[0].batch.None?
    case SwitchMemtable => HasLeader(s.w) && s.mem.imm.None?
    case BuildGroup(size) => HasLeader(s.w) && s.w.queue[0].batch.Some? && IsGroup(s.w.queue, size)
    case AppendLog => HasGroup(s) && !s.w.group.value.logged
    case InsertEntry => HasGroup(s) && s.w.group.value.logged && s.w.group.value.inserted < |s.w.group.value.entries|
    case Publish => HasGroup(s) && s.w.group.value.logged && s.w.group.value.inserted == |s.w.group.value.entries|
  }

  function AckAll(writers: seq<Writer>): seq<Ack> {
    seq(|writers|, i requires 0 <= i < |writers| => Ack(writers[i], true))
  }

  function Arrive(w: Writers, batch: Option<seq<Mutation>>, bytes: nat, sync: bool): Writers {
    w.(queue := w.queue + [Writer(w.arrivals, batch, bytes, sync)], arrivals := w.arrivals + 1)
  }

  // MakeRoomForWrite failed: the leader alone leaves, with the error.
  function Fail(w: Writers): Writers
    requires HasLeader(w)
  {
    w.(queue := w.queue[1..], acks := w.acks + [Ack(w.queue[0], false)])
  }

  function Leave(w: Writers): Writers
    requires HasLeader(w)
  {
    w.(queue := w.queue[1..], acks := w.acks + [Ack(w.queue[0], true)], committed := w.committed + [w.queue[0]])
  }

  function FormGroup(w: Writers, size: nat, lastSequence: nat): Writers
    requires 0 < size <= |w.queue|
  {
    var tmp := if NeedsTmpBatch(w.queue, size) then w.tmpBatch + Ops(w.queue[..size]) else w.tmpBatch;
    var batch := if NeedsTmpBatch(w.queue, size) then tmp else w.queue[0].Ops();
    w.(tmpBatch := tmp, group := Some(Group(size, Numbered(lastSequence + 1, batch), false, 0)))
  }

  function LogGroup(w: Writers): Writers
    requires w.group.Some? && w.group.value.size <= |w.queue|
  {
    w.(group := Some(w.group.value.(logged := true)), committed := w.committed + w.queue[..w.group.value.size])
  }

  // The popping loop at the end of Write: everyone in the group gets the leader's status.
  function PublishGroup(w: Writers): Writers
    requires w.group.Some? && w.group.value.size <= |w.queue|
  {
    var n := w.group.value.size;
    w.(tmpBatch := if NeedsTmpBatch(w.queue, n) then [] else w.tmpBatch,
       queue := w.queue[n..], acks := w.acks + AckAll(w.queue[..n]), group := None)
  }

  function DoWrite(s: State, step: WriteStep): State
    requires CanWrite(s, step)
  {
    var w, m, v, d, at := s.w, s.mem, s.v, s.disk, s.at;
    match step
    case Enqueue(batch, bytes, sync) => s.(w := Arrive(w, batch, bytes, sync))
    case FailLeader => s.(w := Fail(w))
    case LeaveNullLeader => s.(w := Leave(w))
    case SwitchMemtable =>
      s.(disk := d.(logs := d.logs[v.nextFile := []]), v := v.(nextFile := v.nextFile + 1),
         mem := Memtables(v.nextFile, Some(m.logFile), m.contents[v.nextFile := {}]),
         at := at.(memStart := s.lastSequence))
    case BuildGroup(size) => s.(w := FormGroup(w, size, s.lastSequence))
    case AppendLog =>
      var g := w.group.value;
      s.(disk := d.(logs := d.logs[m.logFile := d.logs[m.logFile] + g.entries]), w := LogGroup(w),
         hist := s.hist + g.entries)
    case InsertEntry =>
      var g := w.group.value;
      s.(mem := m.(contents := m.contents[m.logFile := m.contents[m.logFile] + {g.entries[g.inserted]}]),
         w := w.(group := Some(g.(inserted := g.inserted + 1))))
    case Publish => s.(lastSequence := s.lastSequence + |w.group.value.entries|, w := PublishGroup(w))
  }

  // ----- Memtable flush: CompactMemTable, WriteLevel0Table

  datatype FlushStep = StartFlush | BuildTable | BeginFlushInstall | WriteFlushManifest | FinishFlush

  // The background thread does one thing at a time: a flush, or the merge loop, which
  // itself stops to flush.
  predicate MergingOrIdle(bg: Background) {
    bg.flush == NoFlush && (bg.job.Some? ==> !bg.job.value.merged)
  }

  predicate CanFlush(s: State, step: FlushStep) {
    s.phase == Open && s.mem.imm.Some? && s.mem.imm.value in s.mem.contents &&
    match step
    case StartFlush => MergingOrIdle(s.bg)
    case BuildTable => s.bg.flush.Building?
    case BeginFlushInstall => s.bg.flush.Built?
    case WriteFlushManifest => s.bg.flush.Installing? && s.bg.flush.install.Writing?
    case FinishFlush => s.bg.flush.Installing? && s.bg.flush.install.Durable?
  }

  // A manifest write also records the last sequence and the next file number.
  function DoFlush(s: State, step: FlushStep): State
    requires CanFlush(s, step)
  {
    var m, v, bg, d, at := s.mem, s.v, s.bg, s.disk, s.at;
    match step
    case StartFlush =>
      s.(v := v.(pending := v.pending + {v.nextFile}, nextFile := v.nextFile + 1),
         bg := bg.(flush := Building(v.nextFile)))
    case BuildTable =>
      s.(disk := d.(files := d.files[bg.flush.table := m.contents[m.imm.value]]),
         bg := bg.(flush := Built(bg.flush.table)))
    case BeginFlushInstall =>
      var t := bg.flush.table;
      var edit := Manifest(m.logFile, v.current + {t}, s.lastSequence, v.nextFile);
      s.(v := v.(pending := v.pending - {t}), bg := bg.(flush := Installing(t, Writing(edit))))
    case WriteFlushManifest =>
      var edit := bg.flush.install.edit;
      s.(disk := d.(manifest := edit), bg := bg.(flush := Installing(bg.flush.table, Durable(edit))),
         at := at.(durableEnd := at.memStart))
    case FinishFlush =>
      var edit := bg.flush.install.edit;
      var v' := v.(current := edit.tables, logNumber := edit.logNumber);
      s.(v := v', mem := m.(imm := None), bg := bg.(flush := NoFlush), at := at.(tableEnd := at.memStart))
  }

  // ----- Table compaction: DoCompactionWork, InstallCompactionResults

  datatype JobStep =
    | StartJob(inputs: set<nat>, base: set<Key>)
    | WriteOutput(entries: set<Entry>)
    | FinishMerge
    | BeginJobInstall
    | WriteJobManifest
    | FinishJob

  ghost predicate CanMerge(s: State, step: JobStep) {
    s.phase == Open && s.bg.flush == NoFlush && (step.StartJob? <==> s.bg.job.None?) &&
    match step
    case StartJob(inputs, base) =>
      && s.mem.imm.None? && inputs <= s.v.current
      && Separated(Tables(s.disk.files, inputs), Tables(s.disk.files, s.v.current - inputs), base)
    case WriteOutput(_) => !s.bg.job.value.merged
    case FinishMerge =>
      var j := s.bg.job.value;
      !j.merged && Tables(s.disk.files, j.outputs) == Kept(Tables(s.disk.files, j.inputs), j.base, j.smallest)
    case BeginJobInstall => s.bg.job.value.merged && s.bg.job.value.install == NotYet
    case WriteJobManifest => s.bg.job.value.install.Writing?
    case FinishJob => s.bg.job.value.install.Durable?
  }

  ghost function DoMerge(s: State, step: JobStep): State
    requires CanMerge(s, step)
  {
    var v, bg, d, at := s.v, s.bg, s.disk, s.at;
    match step
    case StartJob(inputs, base) =>
      var smallest := if s.snapshots == [] then s.lastSequence else s.snapshots[0];
      s.(bg := bg.(job := Some(Job(inputs, base, smallest, {}, false, NotYet))))
    case WriteOutput(entries) =>
      var j := bg.job.value;
      s.(disk := d.(files := d.files[v.nextFile := entries]),
         v := v.(pending := v.pending + {v.nextFile}, nextFile := v.nextFile + 1),
         bg := bg.(job := Some(j.(outputs := j.outputs + {v.nextFile}))))
    case FinishMerge => s.(bg := bg.(job := Some(bg.job.value.(merged := true))))
    case BeginJobInstall =>
      var j := bg.job.value;
      var edit := Manifest(v.logNumber, v.current - j.inputs + j.outputs, s.lastSequence, v.nextFile);
      s.(bg := bg.(job := Some(j.(install := Writing(edit)))))
    case WriteJobManifest =>
      var j := bg.job.value;
      s.(disk := d.(manifest := j.install.edit), bg := bg.(job := Some(j.(install := Durable(j.install.edit)))),
         at := at.(floor := Max(at.floor, j.smallest)))
    case FinishJob =>
      var j := bg.job.value;
      var v' := v.(current := j.install.edit.tables, pending := v.pending - j.outputs);
      s.(v := v', bg := bg.(job := None))
  }

  // ----- DeleteObsoleteFiles, one file at a time

  datatype CleanStep = DeleteLog(log: nat) | DeleteTable(table: nat)

  predicate Held(readers: map<nat, Reader>, n: nat) {
    exists id :: id in readers && n in readers[id].version
  }

  // Files are deleted by the thread that installs versions, so never in the middle of that. A
  // log is obsolete below the version's log number; a table unless the version, a compaction
  // in progress or a read holds it.
  predicate CanClean(s: State, step: CleanStep) {
    s.phase == Open && !s.bg.flush.Installing? && (s.bg.job.Some? ==> s.bg.job.value.install == NotYet) &&
    match step
    case DeleteLog(n) => n in s.disk.logs && n < s.v.logNumber
    case DeleteTable(n) => n in s.disk.files && n !in s.v.current && n !in s.v.pending && !Held(s.readers, n)
  }

  function DoClean(s: State, step: CleanStep): State
    requires CanClean(s, step)
  {
    match step
    case DeleteLog(n) => s.(disk := s.disk.(logs := s.disk.logs - {n}))
    case DeleteTable(n) => s.(disk := s.disk.(files := s.disk.files - {n}))
  }

  // ----- Reads and snapshots: Get, GetSnapshot, ReleaseSnapshot

  datatype ReadStep =
    | StartRead(id: nat, key: Key, at: Option<nat>)
    | EndRead(id: nat)
    | TakeSnapshot
    | ReleaseSnapshot(i: nat)

  predicate CanRead(s: State, step: ReadStep) {
    s.phase == Open &&
    match step
    case StartRead(id, _, at) => id !in s.readers && (at.Some? ==> at.value < |s.snapshots|)
    case EndRead(id) => id in s.readers
    case TakeSnapshot => true
    case ReleaseSnapshot(i) => i < |s.snapshots|
  }

  function DoRead(s: State, step: ReadStep): State
    requires CanRead(s, step)
  {
    match step
    case StartRead(id, key, at) =>
      var snapshot := if at.Some? then s.snapshots[at.value] else s.lastSequence;
      s.(readers := s.readers[id := Reader(key, snapshot, s.mem.logFile, s.mem.imm, s.v.current)])
    case EndRead(id) => s.(readers := s.readers - {id})
    case TakeSnapshot => s.(snapshots := s.snapshots + [s.lastSequence])
    case ReleaseSnapshot(i) => s.(snapshots := s.snapshots[..i] + s.snapshots[i + 1..])
  }

  // ----- A crash, then Recover and DB::Open

  datatype OpenStep =
    | Crash(torn: map<nat, set<Entry>>)
    | BeginReplay
    | WriteRecovered(table: nat, entries: set<Entry>)
    | FinishReplay(last: nat)
    | CreateLog(log: nat)
    | SaveManifest(save: bool)
    | FinishOpen

  // A crash loses everything in memory. Files that the manifest does not name may be found
  // with any contents after it, such as those that were being written.
  function Lost(s: State): State {
    s.(phase := Closed, mem := Memtables(0, None, map[]), v := Version(0, {}, {}, 0), bg := Background(NoFlush, None),
       lastSequence := 0, w := s.w.(queue := [], tmpBatch := [], group := None), snapshots := [], readers := map[])
  }

  predicate CanReopen(s: State, step: OpenStep) {
    match step
    case Crash(torn) => torn.Keys !! s.disk.manifest.tables
    case BeginReplay => s.phase == Closed
    case WriteRecovered(n, entries) =>
      // Part of what the logs numbered at or above the manifest's hold goes into a new table.
      && s.phase.Replaying? && s.disk.manifest.nextFile <= n && n !in s.phase.tables
      && entries <= LogEntries(s.disk.logs, s.disk.manifest.logNumber)
    case FinishReplay(last) =>
      // The tables hold all of it; the last sequence is the largest of the manifest's and the
      // replayed ones.
      var replayed := LogEntries(s.disk.logs, s.disk.manifest.logNumber);
      && s.phase.Replaying? && Tables(s.disk.files, s.phase.tables) == replayed
      && s.disk.manifest.lastSequence <= last && (forall e :: e in replayed ==> e.sequence <= last)
      && (last == s.disk.manifest.lastSequence || exists e :: e in replayed && e.sequence == last)
    case CreateLog(log) =>
      && s.phase.Replayed? && s.disk.manifest.nextFile <= log
      && (forall n :: n in s.disk.logs && s.disk.manifest.logNumber <= n ==> n < log)
      && (forall n :: n in s.phase.tables ==> n < log)
    case SaveManifest(save) => s.phase.LogCreated? && (save || s.phase.tables == {})
    case FinishOpen => s.phase.Saved?
  }

  function DoReopen(s: State, step: OpenStep): State
    requires CanReopen(s, step)
  {
    var d, at, p := s.disk, s.at, s.phase;
    match step
    case Crash(torn) => Lost(s).(disk := d.(files := d.files + torn))
    case BeginReplay => s.(phase := Replaying({}))
    case WriteRecovered(n, entries) =>
      s.(disk := d.(files := d.files[n := entries]), phase := Replaying(p.tables + {n}))
    case FinishReplay(last) => s.(phase := Replayed(p.tables, last))
    case CreateLog(log) => s.(disk := d.(logs := d.logs[log := []]), phase := LogCreated(p.tables, p.last, log))
    case SaveManifest(save) =>
      if save then
        s.(disk := d.(manifest := Manifest(p.log, d.manifest.tables + p.tables, p.last, p.log + 1)),
           at := at.(durableEnd := |s.hist|), phase := Saved(p.last, p.log))
      else
        s.(phase := Saved(p.last, p.log))
    case FinishOpen =>
      var v := Version(d.manifest.logNumber, d.manifest.tables, {}, Max(d.manifest.nextFile, p.log + 1));
      s.(phase := Open, mem := Memtables(p.log, None, map[p.log := {}]), v := v, lastSequence := p.last,
         at := at.(tableEnd := |s.hist|, memStart := |s.hist|))
  }

  // ----- Runs

  datatype Step =
    | Write(write: WriteStep)
    | Flush(flush: FlushStep)
    | Merge(job: JobStep)
    | Clean(clean: CleanStep)
    | Read(read: ReadStep)
    | Reopen(open: OpenStep)

  ghost predicate Enabled(s: State, step: Step) {
    match step
    case Write(t) => CanWrite(s, t)
    case Flush(t) => CanFlush(s, t)
    case Merge(t) => CanMerge(s, t)
    case Clean(t) => CanClean(s, t)
    case Read(t) => CanRead(s, t)
    case Reopen(t) => CanReopen(s, t)
  }

  ghost function Apply(s: State, step: Step): State
    requires Enabled(s, step)
  {
    match step
    case Write(t) => DoWrite(s, t)
    case Flush(t) => DoFlush(s, t)
    case Merge(t) => DoMerge(s, t)
    case Clean(t) => DoClean(s, t)
    case Read(t) => DoRead(s, t)
    case Reopen(t) => DoReopen(s, t)
  }

  // NewDB: an empty manifest.
  predicate Init(s: State) {
    && s == Lost(s) && s.disk == Disk(Manifest(0, {}, 0, 2), map[], map[])
    && s.w == Writers([], 0, [], None, [], [])
    && s.hist == [] && s.at.durableEnd == 0 && s.at.floor == 0
  }

  ghost predicate Next(s: State, s': State) {
    exists step :: Enabled(s, step) && s' == Apply(s, step)
  }

  // A run: any interleaving of steps, with crashes anywhere.
  ghost predicate IsRun(run: seq<State>) {
    && |run| > 0 && Init(run[0])
    && forall i :: 0 <= i < |run| - 1 ==> Next(run[i], run[i + 1])
  }
}

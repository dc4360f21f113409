/** Starting and ending reads and snapshots keeps the engine's invariant. */
module EngineReads {
  import opened Mvcc
  import opened Engine
  import opened EngineInvariant

  // Probing the memtable, the immutable memtable and the tables in turn reads the whole
  // history as of any snapshot from the floor up to the last published sequence.
  lemma {:induction false} LayersReadHistory(mem: set<Entry>, imm: set<Entry>, tables: set<Entry>, hist: seq<Entry>,
                                             at: Marks,
                                             applied: nat, key: Key, snapshot: nat)
    requires WellNumbered(hist) && at.tableEnd <= at.memStart <= applied <= |hist|
    requires mem == History(hist, at.memStart, applied) && imm == History(hist, at.tableEnd, at.memStart)
    requires tables <= History(hist, 0, at.tableEnd) && SameReads(tables, History(hist, 0, at.tableEnd), at.floor)
    requires at.floor <= snapshot <= applied
    ensures Answer(LayeredProbe(mem, imm, tables, key, snapshot)) == Lookup(History(hist, 0, snapshot), key, snapshot)
  {
    HistoryIsDistinct(hist, mem + (imm + tables));
    ProbeLayers(imm, tables, key, snapshot);
    ProbeLayers(mem, imm + tables, key, snapshot);
    ExtendTables(tables, hist, at.tableEnd, at.memStart, at.floor);
    ExtendTables(tables + imm, hist, at.memStart, applied, at.floor);
    assert tables + imm + mem == mem + (imm + tables);
    var later := History(hist, snapshot, applied);
    assert History(hist, 0, applied) == History(hist, 0, snapshot) + later;
    HistoryIsDistinct(hist, History(hist, 0, snapshot) + later);
    ProbeIgnoresLater(History(hist, 0, snapshot), later, key, snapshot);
    assert Lookup(tables + imm + mem, key, snapshot) == Lookup(History(hist, 0, applied), key, snapshot);
  }

  lemma {:induction false} ReadStarted(s: State, key: Key, snapshot: nat)
    requires Inv(s) && s.phase == Open && s.at.floor <= snapshot <= s.lastSequence
    ensures ReaderOk(Reader(key, snapshot, s.mem.logFile, s.mem.imm, s.v.current), s.mem, s.disk.files, s.lastSequence,
                     s.hist)
  {
    hide WritersOk, DiskOk, FlushOk, JobOk, ManifestOk, ReadersOk, HeldOk;
    var imm := if s.mem.imm.Some? then s.mem.contents[s.mem.imm.value] else {};
    assert s.mem.imm.None? ==> imm == History(s.hist, s.at.tableEnd, s.at.memStart);
    LayersReadHistory(s.mem.contents[s.mem.logFile], imm, Tables(s.disk.files, s.v.current), s.hist, s.at,
                      Applied(s.w, s.lastSequence), key, snapshot);
  }

  // The files of the current version have been numbered, and are not about to be written.
  lemma {:induction false} CurrentHeld(s: State)
    requires VersionOk(s.v, s.disk.files, s.hist, s.at) && FlushOk(s.bg, s.v, s.mem.imm, s.disk.files, s.hist, s.at)
    ensures forall n :: n in s.v.current ==> n < s.v.nextFile
    ensures s.bg.flush.Building? ==> s.bg.flush.table !in s.v.current
  {
  }

  lemma {:induction false} ReaderAdded(s: State, id: nat, r: Reader)
    requires ReadersOk(s.readers, s.mem, s.disk.files, s.lastSequence, s.hist)
    requires ReaderOk(r, s.mem, s.disk.files, s.lastSequence, s.hist)
    ensures ReadersOk(s.readers[id := r], s.mem, s.disk.files, s.lastSequence, s.hist)
  {
    hide ReaderOk;
  }

  lemma {:induction false} HeldAdded(s: State, id: nat, r: Reader)
    requires HeldOk(s.readers, s.v.nextFile, s.bg.flush) && r.version == s.v.current
    requires forall n :: n in s.v.current ==> n < s.v.nextFile
    requires s.bg.flush.Building? ==> s.bg.flush.table !in s.v.current
    ensures HeldOk(s.readers[id := r], s.v.nextFile, s.bg.flush)
  {
  }

  lemma {:induction false} SnapshotInRange(s: State, from: Option<nat>)
    requires SnapshotsOk(s.snapshots, s.at.floor, s.lastSequence) && (from.Some? ==> from.value < |s.snapshots|)
    ensures s.at.floor <= (if from.Some? then s.snapshots[from.value] else s.lastSequence) <= s.lastSequence
  {
  }

  lemma {:induction false} StartReadKeeps(s: State, id: nat, key: Key, from: Option<nat>)
    requires Inv(s) && CanRead(s, StartRead(id, key, from))
    ensures Inv(DoRead(s, StartRead(id, key, from)))
  {
    hide WritersOk, DiskOk, LogOk, MemtablesOk, VersionOk, FlushOk, FlushEditOk, JobOk, JobSnapshotOk, JobEditOk,
      ManifestOk;
    hide ReaderOk, ReadersOk, HeldOk, SnapshotsOk, TailOk, WellNumbered, HistoryOk;
    var snapshot := if from.Some? then s.snapshots[from.value] else s.lastSequence;
    var r := Reader(key, snapshot, s.mem.logFile, s.mem.imm, s.v.current);
    SnapshotInRange(s, from);
    CurrentHeld(s);
    ReadStarted(s, key, snapshot);
    ReaderAdded(s, id, r);
    HeldAdded(s, id, r);
  }

  lemma {:induction false} EndReadKeeps(s: State, id: nat)
    requires Inv(s) && CanRead(s, EndRead(id))
    ensures Inv(DoRead(s, EndRead(id)))
  {
    hide WritersOk, DiskOk, LogOk, MemtablesOk, VersionOk, FlushOk, FlushEditOk, JobOk, JobEditOk, ManifestOk, ReaderOk;
  }

  // A snapshot is taken at the last published sequence, which no compaction passes.
  lemma {:induction false} TakeSnapshotKeeps(s: State)
    requires Inv(s) && CanRead(s, TakeSnapshot)
    ensures Inv(DoRead(s, TakeSnapshot))
  {
    hide WritersOk, DiskOk, LogOk, MemtablesOk, VersionOk, FlushOk, FlushEditOk, JobOk, JobEditOk, ManifestOk,
      ReadersOk, HeldOk;
  }

  lemma {:induction false} ReleaseSnapshotKeeps(s: State, i: nat)
    requires Inv(s) && CanRead(s, ReleaseSnapshot(i))
    ensures Inv(DoRead(s, ReleaseSnapshot(i)))
  {
    hide WritersOk, DiskOk, LogOk, MemtablesOk, VersionOk, FlushOk, FlushEditOk, JobOk, JobEditOk, ManifestOk,
      ReadersOk, HeldOk;
  }

  lemma {:induction false} ReadKeeps(s: State, step: ReadStep)
    requires Inv(s) && CanRead(s, step)
    ensures Inv(DoRead(s, step))
  {
    hide Inv;
    match step
    case StartRead(id, key, from) => StartReadKeeps(s, id, key, from);
    case EndRead(id) => EndReadKeeps(s, id);
    case TakeSnapshot => TakeSnapshotKeeps(s);
    case ReleaseSnapshot(i) => ReleaseSnapshotKeeps(s, i);
  }
}

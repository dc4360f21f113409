/** A crash, and every step of the recovery after it, keeps the engine's invariant. */
module EngineReopen {
  import opened Mvcc
  import opened GroupCommit
  import opened Engine
  import opened EngineInvariant

  // The writers still queued are lost; those already logged stay committed.
  lemma {:induction false} LostWriters(w: Writers, last: nat)
    requires WritersOk(w, last)
    ensures WritersOk(w.(queue := [], tmpBatch := [], group := None), 0)
  {
    hide Ops, Numbered, Joins;
    var c, n := w.committed, LoggedWriters(w);
    forall i | 0 <= i < |c| ensures c[i].id < w.arrivals {
      if |c| - n <= i { assert c[|c| - n..][i - (|c| - n)] == w.queue[..n][i - (|c| - n)]; }
    }
  }

  // Files the manifest does not name do not matter.
  lemma {:induction false} OtherFiles(d: Disk, more: map<nat, set<Entry>>, hist: seq<Entry>, end: nat, floor: nat)
    requires DiskOk(d, hist, end, floor) && more.Keys !! d.manifest.tables
    ensures DiskOk(d.(files := d.files + more), hist, end, floor)
  {
    TablesFrame(d.files, d.files + more, d.manifest.tables);
  }

  lemma {:induction false} CrashKeeps(s: State, torn: map<nat, set<Entry>>)
    requires Inv(s) && CanReopen(s, Crash(torn))
    ensures Inv(DoReopen(s, Crash(torn)))
  {
    hide DiskOk, HistoryOk, WritersOk, OpenOk;
    LostWriters(s.w, s.lastSequence);
    OtherFiles(s.disk, torn, s.hist, s.at.durableEnd, s.at.floor);
  }

  lemma {:induction false} LastInHistory(hist: seq<Entry>, end: nat)
    requires WellNumbered(hist)
    ensures end < |hist| ==> hist[|hist| - 1] in History(hist, end, |hist|)
  {
  }

  // The largest sequence that recovery finds is the length of the history.
  lemma {:induction false} RecoveredSequence(d: Disk, hist: seq<Entry>, end: nat, floor: nat, last: nat)
    requires WellNumbered(hist) && DiskOk(d, hist, end, floor)
    requires d.manifest.lastSequence <= last
    requires forall e :: e in LogEntries(d.logs, d.manifest.logNumber) ==> e.sequence <= last
    requires last == d.manifest.lastSequence
             || exists e :: e in LogEntries(d.logs, d.manifest.logNumber) && e.sequence == last
    ensures last == |hist|
  {
    LastInHistory(hist, end);
  }

  lemma {:induction false} WriteRecoveredKeeps(s: State, n: nat, entries: set<Entry>)
    requires Inv(s) && CanReopen(s, WriteRecovered(n, entries))
    ensures Inv(DoReopen(s, WriteRecovered(n, entries)))
  {
    hide WritersOk, HistoryOk, TablesOk, LogEntries;
    OtherFiles(s.disk, map[n := entries], s.hist, s.at.durableEnd, s.at.floor);
    assert s.disk.files + map[n := entries] == s.disk.files[n := entries];
  }

  // The tables written hold exactly what the manifest's tables lack.
  lemma {:induction false} ReplayedTables(s: State, last: nat)
    requires Inv(s) && CanReopen(s, FinishReplay(last))
    ensures s.phase.tables !! s.disk.manifest.tables
    ensures Tables(s.disk.files, s.phase.tables) == History(s.hist, s.at.durableEnd, |s.hist|)
  {
    hide WritersOk, HistoryOk, TablesOk, LogEntries, Tables, History;
  }

  lemma {:induction false} FinishReplayKeeps(s: State, last: nat)
    requires Inv(s) && CanReopen(s, FinishReplay(last))
    ensures Inv(DoReopen(s, FinishReplay(last)))
  {
    hide WritersOk, DiskOk, HistoryOk, LogEntries, Tables, History;
    ReplayedTables(s, last);
    RecoveredSequence(s.disk, s.hist, s.at.durableEnd, s.at.floor, last);
  }

  lemma {:induction false} CreateLogKeeps(s: State, log: nat)
    requires Inv(s) && CanReopen(s, CreateLog(log))
    ensures Inv(DoReopen(s, CreateLog(log)))
  {
    hide WritersOk, HistoryOk, TablesOk;
    assert log !in s.disk.logs;
    NewLog(s.disk.logs, log, s.disk.manifest.logNumber);
  }

  lemma {:induction false} SavedDisk(d: Disk, hist: seq<Entry>, end: nat, floor: nat, tables: set<nat>, log: nat)
    requires WellNumbered(hist) && DiskOk(d, hist, end, floor) && NewLogOk(log, d.logs)
    requires tables <= d.files.Keys && Tables(d.files, tables) == History(hist, end, |hist|)
    requires d.manifest.nextFile <= log && (forall n :: n in tables ==> n < log)
    ensures DiskOk(d.(manifest := Manifest(log, d.manifest.tables + tables, |hist|, log + 1)), hist, |hist|, floor)
  {
    ExtendTables(Tables(d.files, d.manifest.tables), hist, end, |hist|, floor);
    TablesUnion(d.files, d.manifest.tables, tables);
    assert LogEntries(d.logs, log) == {} == History(hist, |hist|, |hist|);
  }

  lemma {:induction false} SaveManifestKeeps(s: State, save: bool)
    requires Inv(s) && CanReopen(s, SaveManifest(save))
    ensures Inv(DoReopen(s, SaveManifest(save)))
  {
    LastInHistory(s.hist, s.at.durableEnd);
    if save {
      SavedDisk(s.disk, s.hist, s.at.durableEnd, s.at.floor, s.phase.tables, s.phase.log);
    }
    hide WritersOk, HistoryOk, DiskOk;
    assert s.phase.tables == {} ==> s.at.durableEnd == |s.hist|;
  }

  lemma {:induction false} FinishOpenKeeps(s: State)
    requires Inv(s) && CanReopen(s, FinishOpen)
    ensures Inv(DoReopen(s, FinishOpen))
  {
    var s' := DoReopen(s, FinishOpen);
    hide WritersOk, HistoryOk, SameReads, Tables;
    assert LogEntries(s'.disk.logs, s.phase.log) == {} == History(s.hist, |s.hist|, |s.hist|);
  }

  lemma {:induction false} ReopenKeeps(s: State, step: OpenStep)
    requires Inv(s) && CanReopen(s, step)
    ensures Inv(DoReopen(s, step))
  {
    hide WritersOk, DiskOk, HistoryOk, OpenOk;
    match step
    case Crash(torn) => CrashKeeps(s, torn);
    case BeginReplay =>
    case WriteRecovered(n, entries) => WriteRecoveredKeeps(s, n, entries);
    case FinishReplay(last) => FinishReplayKeeps(s, last);
    case CreateLog(log) => CreateLogKeeps(s, log);
    case SaveManifest(save) => SaveManifestKeeps(s, save);
    case FinishOpen => FinishOpenKeeps(s);
  }
}

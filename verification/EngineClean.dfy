/** Deleting obsolete files, one at a time, keeps the engine's invariant. */
module EngineClean {
  import opened Mvcc
  import opened Engine
  import opened EngineInvariant

  // What recovery would find does not need an obsolete log.
  lemma {:induction false} LogUnneeded(d: Disk, n: nat, hist: seq<Entry>, end: nat, floor: nat)
    requires DiskOk(d, hist, end, floor) && n < d.manifest.logNumber
    ensures DiskOk(d.(logs := d.logs - {n}), hist, end, floor)
  {
    ObsoleteLog(d.logs, n, d.manifest.logNumber);
  }

  // Nor a table that the manifest does not name.
  lemma {:induction false} TableUnneeded(d: Disk, n: nat, hist: seq<Entry>, end: nat, floor: nat)
    requires DiskOk(d, hist, end, floor) && n !in d.manifest.tables
    ensures DiskOk(d.(files := d.files - {n}), hist, end, floor)
  {
    ObsoleteTable(d.files, n, d.manifest.tables);
  }

  // A deletion changes no read in progress.
  lemma {:induction false} ReadersUnaffected(readers: map<nat, Reader>, m: Memtables, files: map<nat, set<Entry>>,
                                             n: nat,
                                             last: nat, hist: seq<Entry>)
    requires ReadersOk(readers, m, files, last, hist) && !Held(readers, n)
    ensures ReadersOk(readers, m, files - {n}, last, hist)
  {
    forall id, k | id in readers && k in readers[id].version ensures k in files - {n} {
      assert ReaderOk(readers[id], m, files, last, hist);
    }
    ReadersFrame(readers, m, m, files, files - {n}, last, last, hist);
  }

  lemma {:induction false} JobUnaffected(job: Option<Job>, v: Version, files: map<nat, set<Entry>>, n: nat)
    requires JobOk(job, v, files) && v.current <= files.Keys && n !in v.current && n !in v.pending
    ensures JobOk(job, v, files - {n})
  {
    if job.Some? {
      var j := job.value;
      ObsoleteTable(files, n, j.inputs);
      ObsoleteTable(files, n, j.outputs);
      ObsoleteTable(files, n, v.current - j.inputs);
    }
  }

  lemma {:induction false} DeleteLogKeeps(s: State, n: nat)
    requires Inv(s) && CanClean(s, DeleteLog(n))
    ensures Inv(DoClean(s, DeleteLog(n)))
  {
    hide WritersOk, DiskOk, MemtablesOk, VersionOk, FlushOk, FlushEditOk, JobOk, JobEditOk, ReadersOk, HeldOk, History,
      LogEntries;
    LogUnneeded(s.disk, n, s.hist, s.at.durableEnd, s.at.floor);
    ObsoleteLog(s.disk.logs, n, s.mem.logFile);
  }

  lemma {:induction false} DeleteTableKeeps(s: State, n: nat)
    requires Inv(s) && CanClean(s, DeleteTable(n))
    ensures Inv(DoClean(s, DeleteTable(n)))
  {
    hide WritersOk, DiskOk, MemtablesOk, LogOk, FlushEditOk, JobOk, JobEditOk, ReadersOk, HeldOk, History, Tables,
      SameReads;
    TableUnneeded(s.disk, n, s.hist, s.at.durableEnd, s.at.floor);
    ObsoleteTable(s.disk.files, n, s.v.current);
    JobUnaffected(s.bg.job, s.v, s.disk.files, n);
    ReadersUnaffected(s.readers, s.mem, s.disk.files, n, s.lastSequence, s.hist);
  }

  // A deletion removes that one file and nothing else.
  lemma {:induction false} CleanRemovesOne(s: State, step: CleanStep)
    requires CanClean(s, step)
    ensures var s' := DoClean(s, step);
            && s' == s.(disk := s'.disk) && s'.disk.manifest == s.disk.manifest
            && (step.DeleteLog? ==>
                  && s'.disk.files == s.disk.files && s'.disk.logs.Keys == s.disk.logs.Keys - {step.log}
                  && forall n :: n in s'.disk.logs ==> s'.disk.logs[n] == s.disk.logs[n])
            && (step.DeleteTable? ==>
                  && s'.disk.logs == s.disk.logs && s'.disk.files.Keys == s.disk.files.Keys - {step.table}
                  && forall n :: n in s'.disk.files ==> s'.disk.files[n] == s.disk.files[n])
  {
  }

  lemma {:induction false} CleanKeeps(s: State, step: CleanStep)
    requires Inv(s) && CanClean(s, step)
    ensures Inv(DoClean(s, step))
  {
    hide Inv;
    match step
    case DeleteLog(n) => DeleteLogKeeps(s, n);
    case DeleteTable(n) => DeleteTableKeeps(s, n);
  }
}

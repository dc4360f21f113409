/** Every step of a writer keeps the engine's invariant. */
module EngineWrites {
  import opened Mvcc
  import opened GroupCommit
  import opened Compaction
  import opened Engine
  import opened EngineInvariant

  // ----- Steps that touch only the writer queue

  lemma {:induction false} QueueStep(s: State, w': Writers)
    requires Inv(s) && s.phase == Open
    requires WritersOk(w', s.lastSequence) && HistoryOk(w'.committed, s.hist)
    requires TailOk(w', s.lastSequence, s.hist) && Applied(w', s.lastSequence) == Applied(s.w, s.lastSequence)
    ensures Inv(s.(w := w'))
  {
  }

  lemma {:induction false} Enqueued(w: Writers, last: nat, batch: Option<seq<Mutation>>, bytes: nat, sync: bool)
    requires WritersOk(w, last)
    ensures WritersOk(Arrive(w, batch, bytes, sync), last)
  {
    hide Ops, BatchBytes, Numbered;
    var queue := w.queue + [Writer(w.arrivals, batch, bytes, sync)];
    if w.group.Some? {
      var n := w.group.value.size;
      assert queue[..n] == w.queue[..n];
      forall i | 0 < i < n ensures Joins(queue, i) {
        assert Joins(w.queue, i);
        assert queue[..i + 1] == w.queue[..i + 1];
      }
      assert NeedsTmpBatch(queue, n) == NeedsTmpBatch(w.queue, n);
    }
    assert queue[..LoggedWriters(w)] == w.queue[..LoggedWriters(w)];
  }

  lemma {:induction false} LeaderFailed(w: Writers, last: nat)
    requires WritersOk(w, last) && HasLeader(w)
    ensures WritersOk(Fail(w), last)
  {
  }

  // Acknowledging the front of the queue, committed by now.
  lemma {:induction false} Acknowledged(w: Writers, w': Writers, n: nat)
    requires AcksOk(w) && n <= |w.queue| && Front(w') == Front(w) + n
    requires forall i :: 0 <= i < n ==> w.queue[i].id == Front(w) + i && w.queue[i] in w'.committed
    requires w'.acks == w.acks + AckAll(w.queue[..n])
    requires w.committed <= w'.committed
    requires forall i :: |w.committed| <= i < |w'.committed| ==> w'.committed[i].id >= Front(w)
    ensures AcksOk(w')
  {
    forall i | 0 <= i < |w.acks| && w.acks[i].ok ensures w.acks[i].writer in w'.committed {
      var j :| 0 <= j < |w.committed| && w.committed[j] == w.acks[i].writer;
      assert w'.committed[j] == w.committed[j];
    }
  }

  lemma {:induction false} NullLeaderLeft(w: Writers, last: nat)
    requires WritersOk(w, last) && HasLeader(w)
    ensures WritersOk(Leave(w), last)
  {
    assert AcksOk(Leave(w)) by {
      assert Leave(w).committed[|w.committed|] == w.queue[0];
      Acknowledged(w, Leave(w), 1);
    }
  }

  lemma {:induction false} GroupBuilt(w: Writers, last: nat, size: nat)
    requires WritersOk(w, last) && HasLeader(w) && w.queue[0].batch.Some? && IsGroup(w.queue, size)
    ensures WritersOk(FormGroup(w, size, last), last)
  {
    if !NeedsTmpBatch(w.queue, size) {
      NoFollowerYet(w.queue, size);
    }
    assert [] + Ops(w.queue[..size]) == Ops(w.queue[..size]);
  }

  lemma {:induction false} EnqueueKeeps(s: State, batch: Option<seq<Mutation>>, bytes: nat, sync: bool)
    requires Inv(s) && CanWrite(s, Enqueue(batch, bytes, sync))
    ensures Inv(DoWrite(s, Enqueue(batch, bytes, sync)))
  {
    Enqueued(s.w, s.lastSequence, batch, bytes, sync);
    QueueStep(s, Arrive(s.w, batch, bytes, sync));
  }

  lemma {:induction false} FailLeaderKeeps(s: State)
    requires Inv(s) && CanWrite(s, FailLeader)
    ensures Inv(DoWrite(s, FailLeader))
  {
    LeaderFailed(s.w, s.lastSequence);
    QueueStep(s, Fail(s.w));
  }

  lemma {:induction false} LeaveNullLeaderKeeps(s: State)
    requires Inv(s) && CanWrite(s, LeaveNullLeader)
    ensures Inv(DoWrite(s, LeaveNullLeader))
  {
    NullLeaderLeft(s.w, s.lastSequence);
    var committed := s.w.committed;
    assert HistoryOk(committed + [s.w.queue[0]], s.hist) by {
      assert (committed + [s.w.queue[0]])[..|committed|] == committed;
      assert Ops(committed) + [] == Ops(committed);
    }
    QueueStep(s, Leave(s.w));
  }

  lemma {:induction false} BuildGroupKeeps(s: State, size: nat)
    requires Inv(s) && CanWrite(s, BuildGroup(size))
    ensures Inv(DoWrite(s, BuildGroup(size)))
  {
    GroupBuilt(s.w, s.lastSequence, size);
    QueueStep(s, FormGroup(s.w, size, s.lastSequence));
  }

  // ----- A new memtable and log

  lemma {:induction false} SwitchedMemtables(m: Memtables, log: nat, hist: seq<Entry>, at: Marks)
    requires MemtablesOk(m, hist, at, |hist|) && m.imm.None? && m.logFile < log
    ensures MemtablesOk(Memtables(log, Some(m.logFile), m.contents[log := {}]), hist, at.(memStart := |hist|), |hist|)
  {
    assert {} == History(hist, |hist|, |hist|);
  }

  lemma {:induction false} SwitchedLog(logs: map<nat, seq<Entry>>, logFile: nat, log: nat, hist: seq<Entry>,
                                       memStart: nat)
    requires LogOk(logs, logFile, hist, memStart) && logFile < log
    ensures LogOk(logs[log := []], log, hist, |hist|)
  {
    assert LogEntries(logs[log := []], log) == {} == History(hist, |hist|, |hist|);
  }

  lemma {:induction false} SwitchedDisk(d: Disk, log: nat, hist: seq<Entry>, end: nat, floor: nat)
    requires DiskOk(d, hist, end, floor) && log !in d.logs
    ensures DiskOk(d.(logs := d.logs[log := []]), hist, end, floor)
  {
    NewLog(d.logs, log, d.manifest.logNumber);
  }

  lemma {:induction false} SwitchKeeps(s: State)
    requires Inv(s) && CanWrite(s, SwitchMemtable)
    ensures Inv(DoWrite(s, SwitchMemtable))
  {
    hide WritersOk, TablesOk, Separated, Tables, ReadersOk, DiskOk, History, LogEntries;
    var s' := DoWrite(s, SwitchMemtable);
    SwitchedMemtables(s.mem, s.v.nextFile, s.hist, s.at);
    SwitchedLog(s.disk.logs, s.mem.logFile, s.v.nextFile, s.hist, s.at.memStart);
    SwitchedDisk(s.disk, s.v.nextFile, s.hist, s.at.durableEnd, s.at.floor);
    ReadersFrame(s.readers, s.mem, s'.mem, s.disk.files, s.disk.files, s.lastSequence, s.lastSequence, s.hist);
  }

  // ----- The group's log record

  lemma {:induction false} LoggedHistory(committed: seq<Writer>, members: seq<Writer>, hist: seq<Entry>)
    requires HistoryOk(committed, hist)
    ensures HistoryOk(committed + members, hist + Numbered(|hist| + 1, Ops(members)))
  {
    OpsAppend(committed, members);
    NumberedAppend(1, Ops(committed), Ops(members));
  }

  lemma {:induction false} LoggedCommit(w: Writers)
    requires CommitOk(w) && w.group.Some? && !w.group.value.logged && w.group.value.size <= |w.queue|
    requires forall i :: 0 <= i < |w.queue| ==> w.queue[i].id == Front(w) + i
    ensures CommitOk(LogGroup(w))
  {
    var n := w.group.value.size;
    var committed := w.committed + w.queue[..n];
    forall i, j | 0 <= i < j < |committed| ensures committed[i].id < committed[j].id {
      assert i >= |w.committed| ==> committed[i] == w.queue[i - |w.committed|];
      assert j >= |w.committed| ==> committed[j] == w.queue[j - |w.committed|];
    }
    assert committed[|committed| - n..] == w.queue[..n];
  }

  lemma {:induction false} LoggedAcks(w: Writers)
    requires AcksOk(w) && w.group.Some? && w.group.value.size <= |w.queue|
    requires forall i :: 0 <= i < |w.queue| ==> w.queue[i].id == Front(w) + i
    ensures AcksOk(LogGroup(w))
  {
    var committed := LogGroup(w).committed;
    assert w.acks + AckAll(w.queue[..0]) == w.acks;
    assert forall i :: |w.committed| <= i < |committed| ==> committed[i] == w.queue[i - |w.committed|];
    Acknowledged(w, LogGroup(w), 0);
  }

  lemma {:induction false} LoggedGroup(w: Writers, last: nat)
    requires WritersOk(w, last) && w.group.Some? && !w.group.value.logged
    ensures WritersOk(LogGroup(w), last)
  {
    LoggedCommit(w);
    LoggedAcks(w);
  }

  lemma {:induction false} LedgerGrows(hist: seq<Entry>, more: seq<Entry>)
    requires WellNumbered(hist + more)
    ensures WellNumbered(hist)
    ensures forall a: nat, b: nat :: b <= |hist| ==> History(hist + more, a, b) == History(hist, a, b)
    ensures forall a: nat :: a <= |hist| ==>
              History(hist + more, a, |hist + more|) == History(hist, a, |hist|) + Elements(more)
  {
    HistoryExtends(hist, more, 0, 0);
    forall a: nat, b: nat | b <= |hist| ensures History(hist + more, a, b) == History(hist, a, b) {
      HistoryExtends(hist, more, a, b);
    }
    forall a: nat | a <= |hist|
      ensures History(hist + more, a, |hist + more|) == History(hist, a, |hist|) + Elements(more)
    {
      HistoryGrows(hist, more, a);
    }
  }

  lemma {:induction false} DiskLogged(d: Disk, hist: seq<Entry>, end: nat, floor: nat, logFile: nat, more: seq<Entry>)
    requires DiskOk(d, hist, end, floor) && WellNumbered(hist + more)
    requires logFile in d.logs && d.manifest.logNumber <= logFile
    ensures DiskOk(d.(logs := d.logs[logFile := d.logs[logFile] + more]), hist + more, end, floor)
  {
    LedgerGrows(hist, more);
    AppendedLog(d.logs, logFile, d.manifest.logNumber, more);
  }

  lemma {:induction false} MemoryLogged(s: State, more: seq<Entry>)
    requires WellNumbered(s.hist + more) && OpenOk(s)
    ensures var hist' := s.hist + more;
            && LogOk(s.disk.logs[s.mem.logFile := s.disk.logs[s.mem.logFile] + more], s.mem.logFile, hist',
                     s.at.memStart)
            && MemtablesOk(s.mem, hist', s.at, Applied(s.w, s.lastSequence))
            && VersionOk(s.v, s.disk.files, hist', s.at)
            && FlushOk(s.bg, s.v, s.mem.imm, s.disk.files, hist', s.at)
  {
    LedgerGrows(s.hist, more);
    AppendedLog(s.disk.logs, s.mem.logFile, s.mem.logFile, more);
  }

  lemma {:induction false} ReadersLogged(readers: map<nat, Reader>, m: Memtables, files: map<nat, set<Entry>>,
                                         last: nat, hist: seq<Entry>, more: seq<Entry>)
    requires WellNumbered(hist + more) && last <= |hist|
    requires ReadersOk(readers, m, files, last, hist)
    ensures ReadersOk(readers, m, files, last, hist + more)
  {
    forall id | id in readers ensures ReaderOk(readers[id], m, files, last, hist + more) {
      assert ReaderOk(readers[id], m, files, last, hist);
      HistoryExtends(hist, more, 0, readers[id].snapshot);
    }
  }

  lemma {:induction false} LoggedNumbers(w: Writers, last: nat, hist: seq<Entry>)
    requires WellNumbered(hist) && WritersOk(w, last) && TailOk(w, last, hist)
    requires w.group.Some? && !w.group.value.logged
    ensures last == |hist|
    ensures w.group.value.entries == Numbered(|hist| + 1, Ops(w.queue[..w.group.value.size]))
    ensures WellNumbered(hist + w.group.value.entries)
  {
  }

  lemma {:induction false} AppendLogKeeps(s: State)
    requires Inv(s) && CanWrite(s, AppendLog)
    ensures Inv(DoWrite(s, AppendLog))
  {
    hide MemtablesOk, ReadersOk, WritersOk, WellNumbered, HistoryOk, FlushOk, JobOk, VersionOk, TablesOk, HeldOk,
      Numbered, Ops;
    LoggedNumbers(s.w, s.lastSequence, s.hist);
    var entries := s.w.group.value.entries;
    LoggedGroup(s.w, s.lastSequence);
    LoggedHistory(s.w.committed, s.w.queue[..s.w.group.value.size], s.hist);
    DiskLogged(s.disk, s.hist, s.at.durableEnd, s.at.floor, s.mem.logFile, entries);
    MemoryLogged(s, entries);
    ReadersLogged(s.readers, s.mem, s.disk.files, s.lastSequence, s.hist, entries);
  }

  // ----- The group's memtable inserts

  lemma {:induction false} MemtableInserted(m: Memtables, hist: seq<Entry>, at: Marks, applied: nat)
    requires WellNumbered(hist) && MemtablesOk(m, hist, at, applied) && applied < |hist|
    ensures MemtablesOk(m.(contents := m.contents[m.logFile := m.contents[m.logFile] + {hist[applied]}]), hist, at,
                        applied + 1)
  {
    forall a: nat | a <= applied ensures History(hist, a, applied + 1) == History(hist, a, applied) + {hist[applied]} {
      forall e | e in hist && e.sequence == applied + 1 ensures e == hist[applied] {
        var i :| 0 <= i < |hist| && hist[i] == e;
      }
    }
  }

  // A read in progress ignores entries younger than its snapshot.
  lemma {:induction false} GetIgnoresLater(contents: map<nat, set<Entry>>, n: nat, e: Entry,
                                           files: map<nat, set<Entry>>, r: Reader)
    requires HasLayers(contents, files, r) && n in contents && r.imm != Some(n)
    requires Distinct(contents[n] + {e}) && r.snapshot < e.sequence
    ensures Get(contents[n := contents[n] + {e}], files, r) == Get(contents, files, r)
  {
    if r.mem == n {
      ProbeIgnoresLater(contents[n], {e}, r.key, r.snapshot);
    }
  }

  lemma {:induction false} ReadersInserted(readers: map<nat, Reader>, m: Memtables, files: map<nat, set<Entry>>,
                                           last: nat, hist: seq<Entry>, e: Entry)
    requires ReadersOk(readers, m, files, last, hist)
    requires m.logFile in m.contents && Distinct(m.contents[m.logFile] + {e}) && last < e.sequence
    ensures ReadersOk(readers, m.(contents := m.contents[m.logFile := m.contents[m.logFile] + {e}]), files, last, hist)
  {
    var m' := m.(contents := m.contents[m.logFile := m.contents[m.logFile] + {e}]);
    forall id | id in readers ensures ReaderOk(readers[id], m', files, last, hist) {
      assert ReaderOk(readers[id], m, files, last, hist);
      GetIgnoresLater(m.contents, m.logFile, e, files, readers[id]);
    }
  }

  lemma {:induction false} InsertedGroup(w: Writers, last: nat)
    requires WritersOk(w, last) && w.group.Some? && w.group.value.inserted < |w.group.value.entries|
             && w.group.value.logged
    ensures WritersOk(w.(group := Some(w.group.value.(inserted := w.group.value.inserted + 1))), last)
  {
  }

  lemma {:induction false} MemtableStep(s: State, contents: map<nat, set<Entry>>, w': Writers)
    requires Inv(s) && s.phase == Open
    requires WritersOk(w', s.lastSequence) && w'.committed == s.w.committed && TailOk(w', s.lastSequence, s.hist)
    requires MemtablesOk(s.mem.(contents := contents), s.hist, s.at, Applied(w', s.lastSequence))
    requires ReadersOk(s.readers, s.mem.(contents := contents), s.disk.files, s.lastSequence, s.hist)
    ensures Inv(s.(mem := s.mem.(contents := contents), w := w'))
  {
  }

  // The entry about to be inserted is the next one of the history, younger than every read.
  lemma {:induction false} NextEntry(w: Writers, last: nat, m: Memtables, hist: seq<Entry>, at: Marks)
    requires WellNumbered(hist) && TailOk(w, last, hist) && MemtablesOk(m, hist, at, Applied(w, last))
    requires w.group.Some? && w.group.value.logged && w.group.value.inserted < |w.group.value.entries|
    ensures var e := w.group.value.entries[w.group.value.inserted];
            && Applied(w, last) < |hist| && hist[Applied(w, last)] == e && last < e.sequence
            && Distinct(m.contents[m.logFile] + {e})
  {
    var i := w.group.value.inserted;
    assert hist[last..][i] == hist[last + i] == w.group.value.entries[i];
    HistoryIsDistinct(hist, m.contents[m.logFile] + {hist[last + i]});
  }

  lemma {:induction false} InsertEntryKeeps(s: State)
    requires Inv(s) && CanWrite(s, InsertEntry)
    ensures Inv(DoWrite(s, InsertEntry))
  {
    hide MemtablesOk, ReadersOk, WritersOk, FlushOk, JobOk, ManifestOk;
    var e := s.w.group.value.entries[s.w.group.value.inserted];
    NextEntry(s.w, s.lastSequence, s.mem, s.hist, s.at);
    InsertedGroup(s.w, s.lastSequence);
    MemtableInserted(s.mem, s.hist, s.at, Applied(s.w, s.lastSequence));
    ReadersInserted(s.readers, s.mem, s.disk.files, s.lastSequence, s.hist, e);
    MemtableStep(s, s.mem.contents[s.mem.logFile := s.mem.contents[s.mem.logFile] + {e}], DoWrite(s, InsertEntry).w);
  }

  // ----- Publishing the group

  // The tail of the committed writers is the front of the queue.
  lemma {:induction false} LoggedTail(w: Writers, i: nat)
    requires CommitOk(w) && i < LoggedWriters(w)
    ensures w.committed[|w.committed| - LoggedWriters(w) + i] == w.queue[i]
  {
    assert w.committed[|w.committed| - LoggedWriters(w)..][i] == w.queue[..LoggedWriters(w)][i];
  }

  lemma {:induction false} PublishedCommit(w: Writers)
    requires CommitOk(w) && w.group.Some? && w.group.value.logged
    requires forall i :: 0 <= i < |w.queue| ==> w.queue[i].id == Front(w) + i
    ensures CommitOk(PublishGroup(w))
  {
    var tail := |w.committed| - w.group.value.size;
    forall i | 0 <= i < |w.committed| ensures w.committed[i].id < Front(PublishGroup(w)) {
      if tail <= i { LoggedTail(w, i - tail); }
    }
  }

  lemma {:induction false} PublishedGroup(w: Writers, last: nat, last': nat)
    requires WritersOk(w, last) && w.group.Some? && w.group.value.logged
    ensures WritersOk(PublishGroup(w), last')
  {
    PublishedCommit(w);
    forall i | 0 <= i < w.group.value.size ensures w.queue[i] in w.committed {
      LoggedTail(w, i);
    }
    Acknowledged(w, PublishGroup(w), w.group.value.size);
  }

  lemma {:induction false} PublishKeeps(s: State)
    requires Inv(s) && CanWrite(s, Publish)
    ensures Inv(DoWrite(s, Publish))
  {
    hide MemtablesOk, ReadersOk, WritersOk, FlushOk, JobOk, VersionOk, DiskOk, LogOk, HeldOk, ManifestOk, HistoryOk,
      WellNumbered, HasLayers, Ops;
    var s' := DoWrite(s, Publish);
    PublishedGroup(s.w, s.lastSequence, s'.lastSequence);
    ReadersFrame(s.readers, s.mem, s.mem, s.disk.files, s.disk.files, s.lastSequence, s'.lastSequence, s.hist);
  }

  lemma {:induction false} WriteKeeps(s: State, step: WriteStep)
    requires Inv(s) && CanWrite(s, step)
    ensures Inv(DoWrite(s, step))
  {
    hide Inv;
    match step
    case Enqueue(batch, bytes, sync) => EnqueueKeeps(s, batch, bytes, sync);
    case FailLeader => FailLeaderKeeps(s);
    case LeaveNullLeader => LeaveNullLeaderKeeps(s);
    case BuildGroup(size) => BuildGroupKeeps(s, size);
    case SwitchMemtable => SwitchKeeps(s);
    case AppendLog => AppendLogKeeps(s);
    case InsertEntry => InsertEntryKeeps(s);
    case Publish => PublishKeeps(s);
  }
}

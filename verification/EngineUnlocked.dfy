/**
 Reads run without the mutex: memtable, immutable memtable and tables are probed at different
 moments, with any steps of other threads in between.
 */
module EngineUnlocked {
  import opened Mvcc
  import opened Engine
  import opened EngineInvariant
  import EngineWrites
  import EngineTheorems

  function Memtable(s: State, n: nat): set<Entry> {
    if n in s.mem.contents then s.mem.contents[n] else {}
  }

  // The layers a read refers to, as they are in a state.
  function MemLayer(s: State, r: Reader): set<Entry> { Memtable(s, r.mem) }
  function ImmLayer(s: State, r: Reader): set<Entry> { if r.imm.Some? then Memtable(s, r.imm.value) else {} }
  function TableLayer(s: State, r: Reader): set<Entry> { Tables(s.disk.files, r.version) }

  // The memtable may have grown, by nothing that the read could see.
  ghost predicate SameLayers(s: State, s': State, r: Reader) {
    && Probe(MemLayer(s', r), r.key, r.snapshot) == Probe(MemLayer(s, r), r.key, r.snapshot)
    && ImmLayer(s', r) == ImmLayer(s, r) && TableLayer(s', r) == TableLayer(s, r)
  }

  predicate Reading(s: State, id: nat, r: Reader) {
    s.phase == Open && id in s.readers && s.readers[id] == r
  }

  lemma {:induction false} SameMemtables(s: State, s': State, r: Reader)
    requires HasLayers(s.mem.contents, s.disk.files, r)
    requires forall n :: n in s.mem.contents ==> n in s'.mem.contents && s'.mem.contents[n] == s.mem.contents[n]
    requires s'.disk.files == s.disk.files
    ensures SameLayers(s, s', r)
  {
  }

  lemma {:induction false} SameFiles(s: State, s': State, r: Reader)
    requires HasLayers(s.mem.contents, s.disk.files, r) && s'.mem.contents == s.mem.contents
    requires forall n :: n in r.version ==> n in s'.disk.files && s'.disk.files[n] == s.disk.files[n]
    ensures SameLayers(s, s', r)
  {
    TablesFrame(s.disk.files, s'.disk.files, r.version);
  }

  // What the invariant says of one read in progress.
  lemma {:induction false} ReaderFacts(s: State, id: nat, r: Reader)
    requires Inv(s) && Reading(s, id, r)
    ensures HasLayers(s.mem.contents, s.disk.files, r) && r.snapshot <= s.lastSequence && r.imm != Some(s.mem.logFile)
    ensures forall n :: n in r.version ==> n < s.v.nextFile && (s.bg.flush.Building? ==> n != s.bg.flush.table)
  {
    hide WritersOk, DiskOk, LogOk, MemtablesOk, VersionOk, FlushOk, FlushEditOk, JobOk, JobEditOk, ManifestOk;
    assert ReaderOk(s.readers[id], s.mem, s.disk.files, s.lastSequence, s.hist);
  }

  lemma {:induction false} NewMemtable(s: State)
    requires Inv(s) && s.phase == Open
    ensures s.v.nextFile !in s.mem.contents
  {
    hide WritersOk, DiskOk, LogOk, VersionOk, FlushOk, FlushEditOk, JobOk, JobEditOk, ReadersOk, HeldOk;
  }

  lemma {:induction false} InsertStays(s: State, id: nat, r: Reader)
    requires Inv(s) && Reading(s, id, r) && CanWrite(s, InsertEntry)
    ensures SameLayers(s, DoWrite(s, InsertEntry), r)
  {
    hide WritersOk, DiskOk, LogOk, VersionOk, FlushOk, FlushEditOk, JobOk, JobEditOk, ReadersOk, HeldOk, ManifestOk;
    ReaderFacts(s, id, r);
    EngineWrites.NextEntry(s.w, s.lastSequence, s.mem, s.hist, s.at);
    var e := s.w.group.value.entries[s.w.group.value.inserted];
    if r.mem == s.mem.logFile {
      ProbeIgnoresLater(s.mem.contents[r.mem], {e}, r.key, r.snapshot);
    }
  }

  lemma {:induction false} WriteStays(s: State, step: WriteStep, id: nat, r: Reader)
    requires Inv(s) && Reading(s, id, r) && CanWrite(s, step)
    ensures SameLayers(s, DoWrite(s, step), r)
  {
    hide Inv, Probe, SameLayers;
    ReaderFacts(s, id, r);
    NewMemtable(s);
    if step.InsertEntry? {
      InsertStays(s, id, r);
    } else {
      SameMemtables(s, DoWrite(s, step), r);
    }
  }

  lemma {:induction false} FlushStays(s: State, step: FlushStep, id: nat, r: Reader)
    requires Inv(s) && Reading(s, id, r) && CanFlush(s, step)
    ensures SameLayers(s, DoFlush(s, step), r)
  {
    hide Inv, Probe, SameLayers;
    ReaderFacts(s, id, r);
    SameFiles(s, DoFlush(s, step), r);
  }

  lemma {:induction false} MergeStays(s: State, step: JobStep, id: nat, r: Reader)
    requires Inv(s) && Reading(s, id, r) && CanMerge(s, step)
    ensures SameLayers(s, DoMerge(s, step), r)
  {
    hide Inv, Probe, SameLayers;
    ReaderFacts(s, id, r);
    SameFiles(s, DoMerge(s, step), r);
  }

  lemma {:induction false} CleanStays(s: State, step: CleanStep, id: nat, r: Reader)
    requires Inv(s) && Reading(s, id, r) && CanClean(s, step)
    ensures SameLayers(s, DoClean(s, step), r)
  {
    hide Inv, Probe, SameLayers;
    ReaderFacts(s, id, r);
    SameFiles(s, DoClean(s, step), r);
  }

  // No step of anybody changes what a read in progress will find in the layers it refers to.
  lemma {:induction false} StepStays(s: State, step: Step, id: nat, r: Reader)
    requires Inv(s) && Enabled(s, step) && Reading(s, id, r) && Apply(s, step).phase == Open
    ensures SameLayers(s, Apply(s, step), r)
  {
    hide Inv, CanWrite, DoWrite, CanFlush, DoFlush, CanMerge, DoMerge, CanClean, DoClean, Probe;
    match step
    case Write(t) => WriteStays(s, t, id, r);
    case Flush(t) => FlushStays(s, t, id, r);
    case Merge(t) => MergeStays(s, t, id, r);
    case Clean(t) => CleanStays(s, t, id, r);
    case Read(t) =>
    case Reopen(t) =>
  }

  lemma {:induction false} LayersStay(run: seq<State>, i: nat, j: nat, id: nat, r: Reader)
    requires IsRun(run) && i <= j < |run| && forall m :: i <= m <= j ==> Reading(run[m], id, r)
    ensures SameLayers(run[i], run[j], r)
    decreases j - i
  {
    hide Inv, Init, Enabled, Apply, Probe, MemLayer, ImmLayer, TableLayer;
    if i < j {
      LayersStay(run, i, j - 1, id, r);
      EngineTheorems.RunKeeps(run, j - 1);
      assert Next(run[j - 1], run[j]);
      var step :| Enabled(run[j - 1], step) && run[j] == Apply(run[j - 1], step);
      StepStays(run[j - 1], step, id, r);
    }
  }

  /** A read that probes the memtable at one moment, the immutable memtable at a later one and the
      tables at a third answers from the history as of its snapshot, whatever happens in between. */
  lemma {:induction false} UnlockedReadIsCorrect(run: seq<State>, i: nat, j: nat, k: nat, id: nat, r: Reader)
    requires IsRun(run) && i <= j <= k < |run| && forall m :: i <= m <= k ==> Reading(run[m], id, r)
    ensures r.snapshot <= |run[i].hist|
    ensures var mem := Probe(MemLayer(run[i], r), r.key, r.snapshot);
            var imm := Probe(ImmLayer(run[j], r), r.key, r.snapshot);
            var tables := Probe(TableLayer(run[k], r), r.key, r.snapshot);
            Answer(if mem.Some? then mem else if imm.Some? then imm else tables)
            == Lookup(History(run[i].hist, 0, r.snapshot), r.key, r.snapshot)
  {
    hide IsRun, Probe, Lookup, History, Tables;
    assert Reading(run[i], id, r);
    EngineTheorems.ReadsAnswerFromHistory(run, i, id);
    LayersStay(run, i, j, id, r);
    LayersStay(run, i, k, id, r);
  }
}

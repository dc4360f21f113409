/**
 What a client sees of the engine: from the batch it hands to a write, through the answer it
 gets, to what its later reads and snapshots return.
 */
module EngineClients {
  import opened Mvcc
  import opened GroupCommit
  import opened Engine
  import opened EngineInvariant
  import opened EngineTheorems
  import U = EngineUnlocked

  // A run together with the steps taken in it.
  ghost predicate Takes(run: seq<State>, steps: seq<Step>) {
    && |run| == |steps| + 1 && Init(run[0])
    && forall i :: 0 <= i < |steps| ==> Enabled(run[i], steps[i]) && run[i + 1] == Apply(run[i], steps[i])
  }

  lemma {:induction false} TakesIsRun(run: seq<State>, steps: seq<Step>)
    requires Takes(run, steps)
    ensures IsRun(run)
  {
    hide Init, Enabled, Apply;
    forall i | 0 <= i < |run| - 1 ensures Next(run[i], run[i + 1]) {
      assert Enabled(run[i], steps[i]) && run[i + 1] == Apply(run[i], steps[i]);
    }
  }

  // ----- What a key holds after a number of operations

  // The last write of the key among the entries, in log order: its value, or nothing if that
  // write was a deletion or there is none.
  function LastWrite(entries: seq<Entry>, key: Key): Option<Bytes> {
    if entries == [] then None
    else
      var last := entries[|entries| - 1].op;
      if last.key != key then LastWrite(entries[..|entries| - 1], key)
      else if last.Put? then Some(last.value) else None
  }

  // A lookup in the history as of a sequence is the last write among the first so many entries.
  lemma {:induction false} LookupIsLastWrite(hist: seq<Entry>, key: Key, n: nat)
    requires WellNumbered(hist) && n <= |hist|
    ensures Lookup(History(hist, 0, n), key, n) == LastWrite(hist[..n], key)
    decreases n
  {
    var s := History(hist, 0, n);
    HistoryIsDistinct(hist, s);
    ProbeIsNewest(s, key, n);
    if n > 0 {
      var e := hist[n - 1];
      assert hist[..n][..n - 1] == hist[..n - 1] && hist[..n][n - 1] == e;
      assert e.sequence == n && e in s;
      if e.Key() == key {
        assert Newest(s, key, n, e);
      } else {
        LookupIsLastWrite(hist, key, n - 1);
        OneLess(hist, key, n);
      }
    }
  }

  lemma {:induction false} OneLess(hist: seq<Entry>, key: Key, n: nat)
    requires WellNumbered(hist) && 0 < n <= |hist| && hist[n - 1].Key() != key
    ensures Lookup(History(hist, 0, n), key, n) == Lookup(History(hist, 0, n - 1), key, n - 1)
  {
    var s, t := History(hist, 0, n), History(hist, 0, n - 1);
    HistoryIsDistinct(hist, s);
    HistoryIsDistinct(hist, t);
    forall e ensures Sees(s, key, n, e) <==> Sees(t, key, n - 1, e) {
      if e in s && e !in t {
        assert e.sequence == n;
        var i :| 0 <= i < |hist| && hist[i] == e;
        assert i == n - 1;
      }
    }
    hide History;
    SameProbe(s, t, key, n, n - 1);
  }

  lemma {:induction false} SameProbe(s: set<Entry>, t: set<Entry>, key: Key, n: nat, m: nat)
    requires Distinct(s) && Distinct(t) && forall e :: Sees(s, key, n, e) <==> Sees(t, key, m, e)
    ensures Probe(s, key, n) == Probe(t, key, m)
  {
    hide Probe, Sees, Distinct;
    ProbeIsNewest(s, key, n);
    ProbeIsNewest(t, key, m);
    assert forall e :: Newest(s, key, n, e) <==> Newest(t, key, m, e);
  }

  // ----- Writing

  // Whoever has this ticket is the given writer.
  ghost predicate TicketIs(w: Writers, writer: Writer) {
    && writer.id < w.arrivals
    && (forall i :: 0 <= i < |w.queue| && w.queue[i].id == writer.id ==> w.queue[i] == writer)
    && (forall i :: 0 <= i < |w.acks| && w.acks[i].writer.id == writer.id ==> w.acks[i].writer == writer)
  }

  lemma {:induction false} TicketStays(s: State, step: Step, writer: Writer)
    requires Inv(s) && Enabled(s, step) && TicketIs(s.w, writer)
    ensures TicketIs(Apply(s, step).w, writer)
  {
    hide Inv;
    match step
    case Write(t) => TicketStaysWriting(s, t, writer);
    case _ =>
  }

  lemma {:induction false} TicketStaysWriting(s: State, step: WriteStep, writer: Writer)
    requires CanWrite(s, step) && TicketIs(s.w, writer)
    ensures TicketIs(DoWrite(s, step).w, writer)
  {
    hide Ops, Numbered, Joins, NeedsTmpBatch;
  }

  lemma {:induction false} TicketGiven(s: State, batch: Option<seq<Mutation>>, bytes: nat, sync: bool)
    requires Inv(s) && CanWrite(s, Enqueue(batch, bytes, sync))
    ensures var w := DoWrite(s, Enqueue(batch, bytes, sync)).w;
            && TicketIs(w, Writer(s.w.arrivals, batch, bytes, sync))
            && Writer(s.w.arrivals, batch, bytes, sync) in w.queue
            && (forall i :: 0 <= i < |s.w.acks| ==> s.w.acks[i].writer.id != s.w.arrivals)
  {
    hide DiskOk, OpenOk, HistoryOk, GroupOk, CommitOk;
    var w := DoWrite(s, Enqueue(batch, bytes, sync)).w;
    assert w.queue[|s.w.queue|] == Writer(s.w.arrivals, batch, bytes, sync);
  }

  lemma {:induction false} TicketLasts(run: seq<State>, steps: seq<Step>, i: nat, j: nat, writer: Writer)
    requires Takes(run, steps) && i <= j < |run| && TicketIs(run[i].w, writer)
    ensures TicketIs(run[j].w, writer)
    decreases j - i
  {
    hide Init, Enabled, Apply, TicketIs;
    if i < j {
      TicketLasts(run, steps, i, j - 1, writer);
      TakesIsRun(run, steps);
      RunKeeps(run, j - 1);
      assert Enabled(run[j - 1], steps[j - 1]);
      TicketStays(run[j - 1], steps[j - 1], writer);
    }
  }

  // Some stretch of the first n entries is this batch, in order.
  ghost predicate Within(hist: seq<Entry>, n: nat, ops: seq<Mutation>) {
    exists start: nat :: Holds(hist, start, ops) && start + |ops| <= n
  }

  /** The answer to a write is about the batch that was handed in: when it is success, exactly
      that batch is in the history, whole and within the published sequence. */
  lemma {:induction false} AnswerIsForTheBatch(run: seq<State>, steps: seq<Step>, i: nat, j: nat, a: Ack,
                                               batch: Option<seq<Mutation>>, bytes: nat, sync: bool)
    requires Takes(run, steps) && i < j < |run| && steps[i] == Write(Enqueue(batch, bytes, sync))
    requires a in run[j].w.acks && a.writer.id == run[i].w.arrivals
    ensures a.writer == Writer(run[i].w.arrivals, batch, bytes, sync)
    ensures a.ok && run[j].phase == Open && batch.Some? ==> Within(run[j].hist, run[j].lastSequence, batch.value)
  {
    hide Init, Enabled, Apply, DoWrite, Holds;
    TakesIsRun(run, steps);
    RunKeeps(run, i);
    StepWrites(run, steps, i);
    TicketGiven(run[i], batch, bytes, sync);
    TicketLasts(run, steps, i + 1, j, Writer(run[i].w.arrivals, batch, bytes, sync));
    if a.ok && run[j].phase == Open {
      var start := AcknowledgedIsVisible(run, j, a);
    }
  }

  lemma {:induction false} StepWrites(run: seq<State>, steps: seq<Step>, i: nat)
    requires Takes(run, steps) && i < |steps| && steps[i].Write?
    ensures CanWrite(run[i], steps[i].write) && run[i + 1] == DoWrite(run[i], steps[i].write)
  {
    assert Enabled(run[i], steps[i]) && run[i + 1] == Apply(run[i], steps[i]);
  }

  lemma {:induction false} StepReads(run: seq<State>, steps: seq<Step>, i: nat)
    requires Takes(run, steps) && i < |steps| && steps[i].Read?
    ensures CanRead(run[i], steps[i].read) && run[i + 1] == DoRead(run[i], steps[i].read)
  {
    assert Enabled(run[i], steps[i]) && run[i + 1] == Apply(run[i], steps[i]);
  }

  // ----- Reading

  // The first n entries logged by now are a number of whole batches, in the order of their
  // arrival, with every batch acknowledged by now among them.
  ghost predicate CoversAcks(s: State, n: nat) {
    && n <= |s.hist| && WholeBatches(s, n)
    && forall a :: a in s.w.acks && a.ok ==> Within(s.hist, n, a.writer.Ops())
  }

  ghost predicate WholeBatches(s: State, n: nat) {
    exists k :: 0 <= k <= |s.w.committed| && n == |Ops(s.w.committed[..k])| <= |s.hist|
                && s.hist[..n] == Numbered(1, Ops(s.w.committed[..k]))
  }

  lemma {:induction false} PublishedCoversAcks(run: seq<State>, i: nat)
    requires IsRun(run) && i < |run| && run[i].phase == Open
    ensures CoversAcks(run[i], run[i].lastSequence)
  {
    hide IsRun, Holds, Ops, Numbered;
    var k := PublishedAtBatchEnd(run, i);
    forall a | a in run[i].w.acks && a.ok ensures Within(run[i].hist, run[i].lastSequence, a.writer.Ops()) {
      var start := AcknowledgedIsVisible(run, i, a);
    }
    PublishedInHistory(run, i);
  }

  // The published entries end where a batch does.
  lemma {:induction false} PublishedAtBatchEnd(run: seq<State>, i: nat) returns (k: nat)
    requires IsRun(run) && i < |run| && run[i].phase == Open
    ensures k <= |run[i].w.committed| && run[i].lastSequence == |Ops(run[i].w.committed[..k])|
    ensures run[i].lastSequence <= |run[i].hist|
    ensures run[i].hist[..run[i].lastSequence] == Numbered(1, Ops(run[i].w.committed[..k]))
  {
    RunKeeps(run, i);
    hide DiskOk, LogOk, MemtablesOk, VersionOk, FlushOk, JobOk, ManifestOk, ReadersOk, IsRun;
    k := BatchEnd(run[i].w, run[i].lastSequence, run[i].hist);
  }

  lemma {:induction false} BatchEnd(w: Writers, last: nat, hist: seq<Entry>) returns (k: nat)
    requires WritersOk(w, last) && HistoryOk(w.committed, hist) && TailOk(w, last, hist)
    ensures k <= |w.committed| && last == |Ops(w.committed[..k])|
    ensures last <= |hist| && hist[..last] == Numbered(1, Ops(w.committed[..k]))
  {
    hide WritersOk, Ops, Numbered, TailOk, LoggedWriters;
    PublishedOps(w, last, hist);
    LoggedFits(w, last);
    k := |w.committed| - LoggedWriters(w);
    var front, back := w.committed[..k], w.committed[k..];
    assert front + back == w.committed;
    OpsAppend(front, back);
    NumberedAppend(1, Ops(front), Ops(back));
    assert hist == Numbered(1, Ops(front)) + Numbered(1 + last, Ops(back));
  }

  lemma {:induction false} LoggedFits(w: Writers, last: nat)
    requires WritersOk(w, last)
    ensures LoggedWriters(w) <= |w.committed|
  {
  }

  lemma {:induction false} PublishedInHistory(run: seq<State>, i: nat)
    requires IsRun(run) && i < |run| && run[i].phase == Open
    ensures run[i].lastSequence <= |run[i].hist| && WellNumbered(run[i].hist)
  {
    RunKeeps(run, i);
  }

  // A read at n, whenever it is done, answers with the last write among the first n entries.
  lemma {:induction false} ReadAt(run: seq<State>, j: nat, k: nat, id: nat, n: nat)
    requires IsRun(run) && j <= k < |run| && run[j].phase == Open && run[k].phase == Open && id in run[k].readers
    requires n == run[k].readers[id].snapshot && n <= run[j].lastSequence
    ensures n <= |run[j].hist|
    ensures var r := run[k].readers[id];
            && HasLayers(run[k].mem.contents, run[k].disk.files, r)
            && Get(run[k].mem.contents, run[k].disk.files, r) == LastWrite(run[j].hist[..n], r.key)
  {
    hide IsRun, Get, HasLayers, Lookup, History, LastWrite;
    ReadsAnswerFromHistory(run, k, id);
    PublishedInHistory(run, j);
    PublishedInHistory(run, k);
    RunGrows(run, j, k);
    LookupIsLastWrite(run[k].hist, run[k].readers[id].key, n);
    assert run[k].hist[..n] == run[j].hist[..n];
  }

  predicate IsCrash(step: Step) { step.Reopen? && step.open.Crash? }

  // After step j the read goes on until moment k: it is not ended, and the process lives.
  ghost predicate GoesOn(steps: seq<Step>, id: nat, j: nat, k: nat) {
    forall m :: j < m < k && m < |steps| ==> steps[m] != Read(EndRead(id)) && !IsCrash(steps[m])
  }

  lemma {:induction false} ReadGoesOn(run: seq<State>, steps: seq<Step>, id: nat, j: nat, k: nat, r: Reader)
    requires Takes(run, steps) && j < k < |run| && GoesOn(steps, id, j, k) && U.Reading(run[j + 1], id, r)
    ensures U.Reading(run[k], id, r)
    decreases k
  {
    hide Init, Enabled, Apply;
    if j + 1 < k {
      ReadGoesOn(run, steps, id, j, k - 1, r);
      assert Enabled(run[k - 1], steps[k - 1]) && run[k] == Apply(run[k - 1], steps[k - 1]);
      ReadStays(run[k - 1], steps[k - 1], id, r);
    }
  }

  lemma {:induction false} ReadStays(s: State, step: Step, id: nat, r: Reader)
    requires Enabled(s, step) && U.Reading(s, id, r) && step != Read(EndRead(id)) && !IsCrash(step)
    ensures U.Reading(Apply(s, step), id, r)
  {
    hide CanWrite, CanMerge, CanFlush;
  }

  /** A read without a snapshot answers, at every moment until it ends, with the last write of
      its key among the first n entries logged when it began, where those entries have every
      batch that had been acknowledged by then. */
  lemma {:induction false} ReadSeesAcknowledged(run: seq<State>, steps: seq<Step>, j: nat, k: nat, id: nat, key: Key)
    returns (n: nat)
    requires Takes(run, steps) && j < k < |run| && steps[j] == Read(StartRead(id, key, None))
    requires GoesOn(steps, id, j, k)
    ensures CoversAcks(run[j], n) && id in run[k].readers
    ensures HasLayers(run[k].mem.contents, run[k].disk.files, run[k].readers[id])
    ensures Get(run[k].mem.contents, run[k].disk.files, run[k].readers[id]) == LastWrite(run[j].hist[..n], key)
  {
    TakesIsRun(run, steps);
    StepReads(run, steps, j);
    ReadGoesOn(run, steps, id, j, k, run[j + 1].readers[id]);
    hide Takes, IsRun, Get, HasLayers, LastWrite, CoversAcks;
    n := run[j].lastSequence;
    PublishedCoversAcks(run, j);
    ReadAt(run, j, k, id, n);
  }

  // ----- Snapshots

  // Where the snapshot taken by step j is in the list at moment k, unless it has been released
  // or lost in a crash.
  ghost function Slot(run: seq<State>, steps: seq<Step>, j: nat, k: nat): Option<nat>
    requires Takes(run, steps) && j < k < |run| && steps[j] == Read(TakeSnapshot)
    decreases k
  {
    if k == j + 1 then Some(|run[j].snapshots|)
    else
      var slot := Slot(run, steps, j, k - 1);
      match steps[k - 1]
      case Reopen(Crash(_)) => None
      case Read(ReleaseSnapshot(i)) =>
        if slot.None? || slot.value == i then None
        else if i < slot.value then Some(slot.value - 1)
        else slot
      case _ => slot
  }

  lemma {:induction false} SlotHolds(run: seq<State>, steps: seq<Step>, j: nat, k: nat)
    requires Takes(run, steps) && j < k < |run| && steps[j] == Read(TakeSnapshot)
    ensures var slot := Slot(run, steps, j, k);
            slot.Some? ==>
              && run[k].phase == Open && slot.value < |run[k].snapshots|
              && run[k].snapshots[slot.value] == run[j].lastSequence
    decreases k
  {
    hide Init, Enabled, Apply;
    if k == j + 1 {
      StepReads(run, steps, j);
    } else {
      SlotHolds(run, steps, j, k - 1);
      assert Enabled(run[k - 1], steps[k - 1]) && run[k] == Apply(run[k - 1], steps[k - 1]);
      if Slot(run, steps, j, k - 1).Some? && !IsCrash(steps[k - 1]) {
        SlotStays(run[k - 1], steps[k - 1], Slot(run, steps, j, k - 1).value);
      }
    }
  }

  lemma {:induction false} SlotStays(s: State, step: Step, p: nat)
    requires Enabled(s, step) && s.phase == Open && p < |s.snapshots|
    requires !IsCrash(step)
    ensures var s' := Apply(s, step);
            && s'.phase == Open
            && (match step
                case Read(ReleaseSnapshot(i)) =>
                  i != p ==>
                    var p' := if i < p then p - 1 else p;
                    p' < |s'.snapshots| && s'.snapshots[p'] == s.snapshots[p]
                case _ => p < |s'.snapshots| && s'.snapshots[p] == s.snapshots[p])
  {
    hide CanWrite, CanMerge, CanFlush;
  }

  /** A read at a snapshot, begun and done at any later moment, answers with the last write of
      its key among the first n entries logged when the snapshot was taken, where those entries
      have every batch that had been acknowledged by then. */
  lemma {:induction false} SnapshotSeesAcknowledged(run: seq<State>, steps: seq<Step>, j: nat, m: nat, k: nat,
                                                    id: nat, key: Key, slot: nat)
    returns (n: nat)
    requires Takes(run, steps) && j < m < k < |run| && steps[j] == Read(TakeSnapshot)
    requires Slot(run, steps, j, m) == Some(slot) && steps[m] == Read(StartRead(id, key, Some(slot)))
    requires GoesOn(steps, id, m, k)
    ensures CoversAcks(run[j], n) && id in run[k].readers
    ensures HasLayers(run[k].mem.contents, run[k].disk.files, run[k].readers[id])
    ensures Get(run[k].mem.contents, run[k].disk.files, run[k].readers[id]) == LastWrite(run[j].hist[..n], key)
  {
    TakesIsRun(run, steps);
    StepReads(run, steps, j);
    StepReads(run, steps, m);
    SlotHolds(run, steps, j, m);
    ReadGoesOn(run, steps, id, m, k, run[m + 1].readers[id]);
    hide Takes, IsRun, Get, HasLayers, LastWrite, Slot, CoversAcks;
    n := run[j].lastSequence;
    PublishedCoversAcks(run, j);
    ReadAt(run, j, k, id, n);
  }
}

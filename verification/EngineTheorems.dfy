/**
 What the engine promises over whole runs, with a crash possible at every step: acknowledged
 writes are never lost, a snapshot never changes its answers, and group commit logs every
 batch once, in arrival order.
 */
module EngineTheorems {
  import opened Mvcc
  import opened GroupCommit
  import opened Engine
  import opened EngineInvariant
  import EngineWrites
  import EngineFlush
  import EngineMerge
  import EngineClean
  import EngineReads
  import EngineReopen

  // ----- The invariant holds everywhere

  lemma {:induction false} StepKeeps(s: State, step: Step)
    requires Inv(s) && Enabled(s, step)
    ensures Inv(Apply(s, step))
  {
    hide Inv;
    match step
    case Write(t) => EngineWrites.WriteKeeps(s, t);
    case Flush(t) => EngineFlush.FlushKeeps(s, t);
    case Merge(t) => EngineMerge.MergeKeeps(s, t);
    case Clean(t) => EngineClean.CleanKeeps(s, t);
    case Read(t) => EngineReads.ReadKeeps(s, t);
    case Reopen(t) => EngineReopen.ReopenKeeps(s, t);
  }

  lemma {:induction false} RunKeeps(run: seq<State>, i: nat)
    requires IsRun(run) && i < |run|
    ensures Inv(run[i])
  {
    hide Inv, Init, Enabled, Apply;
    if i == 0 {
      InitInv(run[0]);
    } else {
      RunKeeps(run, i - 1);
      assert Next(run[i - 1], run[i]);
      var step :| Enabled(run[i - 1], step) && run[i] == Apply(run[i - 1], step);
      StepKeeps(run[i - 1], step);
    }
  }

  // ----- The history only grows

  predicate Grows(s: State, s': State) {
    s.hist <= s'.hist && s.w.acks <= s'.w.acks && s.w.committed <= s'.w.committed
  }

  lemma {:induction false} WriteGrows(s: State, step: WriteStep)
    requires CanWrite(s, step)
    ensures Grows(s, DoWrite(s, step))
  {
  }

  lemma {:induction false} MergeGrows(s: State, step: JobStep)
    requires CanMerge(s, step)
    ensures Grows(s, DoMerge(s, step))
  {
  }

  lemma {:induction false} ReopenGrows(s: State, step: OpenStep)
    requires CanReopen(s, step)
    ensures Grows(s, DoReopen(s, step))
  {
  }

  lemma {:induction false} StepGrows(s: State, step: Step)
    requires Enabled(s, step)
    ensures Grows(s, Apply(s, step))
  {
    hide CanWrite, DoWrite, CanMerge, DoMerge, CanReopen, DoReopen;
    match step
    case Write(t) => WriteGrows(s, t);
    case Flush(t) =>
    case Merge(t) => MergeGrows(s, t);
    case Clean(t) =>
    case Read(t) =>
    case Reopen(t) => ReopenGrows(s, t);
  }

  lemma {:induction false} RunGrows(run: seq<State>, i: nat, j: nat)
    requires IsRun(run) && i <= j < |run|
    ensures Grows(run[i], run[j])
    decreases j - i
  {
    hide Init, Enabled, Apply;
    if i < j {
      RunGrows(run, i, j - 1);
      assert Next(run[j - 1], run[j]);
      var step :| Enabled(run[j - 1], step) && run[j] == Apply(run[j - 1], step);
      StepGrows(run[j - 1], step);
    }
  }

  // ----- No acknowledged write is lost

  // What DB::Open would find if the process died now.
  ghost function Durable(d: Disk): set<Entry> {
    Tables(d.files, d.manifest.tables) + LogEntries(d.logs, d.manifest.logNumber)
  }

  lemma {:induction false} DurableIsHistory(d: Disk, hist: seq<Entry>, end: nat, floor: nat)
    requires WellNumbered(hist) && DiskOk(d, hist, end, floor)
    ensures SameReads(Durable(d), History(hist, 0, |hist|), floor)
  {
    ExtendTables(Tables(d.files, d.manifest.tables), hist, end, |hist|, floor);
  }

  lemma {:induction false} OpsAt(writers: seq<Writer>, k: nat)
    requires k < |writers|
    ensures var start := |Ops(writers[..k])|;
            start + |writers[k].Ops()| <= |Ops(writers)|
              && Ops(writers)[start..start + |writers[k].Ops()|] == writers[k].Ops()
  {
    var front, back := writers[..k + 1], writers[k + 1..];
    assert front[..k] == writers[..k] && front + back == writers;
    OpsAppend(front, back);
  }

  // Where a writer's batch sits in the history.
  ghost predicate Holds(hist: seq<Entry>, start: nat, ops: seq<Mutation>) {
    start + |ops| <= |hist| && hist[start..start + |ops|] == Numbered(start + 1, ops)
  }

  lemma {:induction false} CommittedHeld(committed: seq<Writer>, hist: seq<Entry>, k: nat)
    requires HistoryOk(committed, hist) && k < |committed|
    ensures Holds(hist, |Ops(committed[..k])|, committed[k].Ops())
  {
    OpsAt(committed, k);
    NumberedPart(Ops(committed), |Ops(committed[..k])|, committed[k].Ops());
  }

  lemma {:induction false} NumberedPart(all: seq<Mutation>, start: nat, ops: seq<Mutation>)
    requires start + |ops| <= |all| && all[start..start + |ops|] == ops
    ensures Numbered(1, all)[start..start + |ops|] == Numbered(start + 1, ops)
  {
    forall i | 0 <= i < |ops| ensures Numbered(1, all)[start + i] == Entry(start + 1 + i, ops[i]) {
      assert all[start..start + |ops|][i] == ops[i];
    }
  }

  /** An acknowledged batch stays, whole and in its place, in the history of every later state,
      crashes and recoveries included, and the tables and logs on disk stand for that
      history at every moment. */
  lemma {:induction false} AcknowledgedNeverLost(run: seq<State>, i: nat, j: nat, a: Ack) returns (start: nat)
    requires IsRun(run) && i <= j < |run|
    requires a in run[i].w.acks && a.ok
    ensures Holds(run[j].hist, start, a.writer.Ops())
    ensures SameReads(Durable(run[j].disk), History(run[j].hist, 0, |run[j].hist|), run[j].at.floor)
    ensures run[j].at.floor <= |run[j].hist|
  {
    RunKeeps(run, i);
    RunKeeps(run, j);
    RunGrows(run, i, j);
    hide WritersOk, DiskOk, OpenOk, ReopenOk, IsRun;
    AckedIsCommitted(run[i].w, a, run[i].lastSequence);
    var k :| 0 <= k < |run[i].w.committed| && run[i].w.committed[k] == a.writer;
    assert run[j].w.committed[k] == a.writer;
    CommittedHeld(run[j].w.committed, run[j].hist, k);
    start := |Ops(run[j].w.committed[..k])|;
    DurableIsHistory(run[j].disk, run[j].hist, run[j].at.durableEnd, run[j].at.floor);
    FloorInHistory(run[j].disk, run[j].hist, run[j].at.durableEnd, run[j].at.floor);
  }

  lemma {:induction false} AckedIsCommitted(w: Writers, a: Ack, last: nat)
    requires WritersOk(w, last) && a in w.acks && a.ok
    ensures a.writer in w.committed
  {
  }

  lemma {:induction false} FloorInHistory(d: Disk, hist: seq<Entry>, end: nat, floor: nat)
    requires DiskOk(d, hist, end, floor)
    ensures floor <= |hist|
  {
  }

  // ----- Reads

  /** A read answers from the history as of its snapshot, whatever was written, flushed,
      compacted or deleted since it began. */
  lemma {:induction false} ReadsAnswerFromHistory(run: seq<State>, i: nat, id: nat)
    requires IsRun(run) && i < |run| && run[i].phase == Open && id in run[i].readers
    ensures var r := run[i].readers[id];
            && HasLayers(run[i].mem.contents, run[i].disk.files, r) && r.snapshot <= |run[i].hist|
            && Get(run[i].mem.contents, run[i].disk.files, r)
               == Lookup(History(run[i].hist, 0, r.snapshot), r.key, r.snapshot)
  {
    RunKeeps(run, i);
    hide WritersOk, DiskOk, LogOk, MemtablesOk, FlushOk, JobOk, ManifestOk, IsRun, VersionOk, SnapshotsOk, HeldOk;
    assert ReaderOk(run[i].readers[id], run[i].mem, run[i].disk.files, run[i].lastSequence, run[i].hist);
  }

  /** Two reads of one key at one snapshot give one answer, wherever in the run they happen. */
  lemma {:induction false} SnapshotsNeverChange(run: seq<State>, i: nat, j: nat, p: nat, q: nat)
    requires IsRun(run) && i <= j < |run| && run[i].phase == Open && run[j].phase == Open
    requires p in run[i].readers && q in run[j].readers
    requires run[i].readers[p].key == run[j].readers[q].key && run[i].readers[p].snapshot == run[j].readers[q].snapshot
    ensures HasLayers(run[i].mem.contents, run[i].disk.files, run[i].readers[p])
    ensures HasLayers(run[j].mem.contents, run[j].disk.files, run[j].readers[q])
    ensures Get(run[i].mem.contents, run[i].disk.files, run[i].readers[p])
         == Get(run[j].mem.contents, run[j].disk.files, run[j].readers[q])
  {
    hide IsRun, Get, HasLayers, Lookup, History;
    ReadsAnswerFromHistory(run, i, p);
    ReadsAnswerFromHistory(run, j, q);
    RunGrows(run, i, j);
    RunNumbered(run, j);
    var hist, hist' := run[i].hist, run[j].hist;
    assert hist + hist'[|hist|..] == hist';
    HistoryExtends(hist, hist'[|hist|..], 0, run[i].readers[p].snapshot);
  }

  lemma {:induction false} RunNumbered(run: seq<State>, i: nat)
    requires IsRun(run) && i < |run|
    ensures WellNumbered(run[i].hist)
  {
    RunKeeps(run, i);
  }

  /** A read that starts after a write was acknowledged sees it: the batch lies within the
      last published sequence. */
  lemma {:induction false} AcknowledgedIsVisible(run: seq<State>, i: nat, a: Ack) returns (start: nat)
    requires IsRun(run) && i < |run| && run[i].phase == Open
    requires a in run[i].w.acks && a.ok
    ensures Holds(run[i].hist, start, a.writer.Ops())
    ensures start + |a.writer.Ops()| <= run[i].lastSequence
  {
    RunKeeps(run, i);
    hide DiskOk, LogOk, MemtablesOk, VersionOk, FlushOk, JobOk, ManifestOk, ReadersOk, IsRun;
    start := PublishedBatch(run[i].w, run[i].lastSequence, run[i].hist, a);
  }

  // The committed writers outside a logged group are exactly the published ones.
  lemma {:induction false} PublishedOps(w: Writers, last: nat, hist: seq<Entry>)
    requires WritersOk(w, last) && HistoryOk(w.committed, hist) && TailOk(w, last, hist)
    ensures |Ops(w.committed[..|w.committed| - LoggedWriters(w)])| == last
  {
    hide Increasing, Joins, AcksOk;
    var c, n := w.committed, |w.committed| - LoggedWriters(w);
    assert c[..n] + c[n..] == c;
    OpsAppend(c[..n], c[n..]);
  }

  // An acknowledged writer has left the queue, so it is not in a logged group.
  lemma {:induction false} AckedIsPublished(w: Writers, last: nat, k: nat, a: Ack)
    requires WritersOk(w, last)
    requires a in w.acks && k < |w.committed| && w.committed[k] == a.writer
    ensures k < |w.committed| - LoggedWriters(w)
  {
    hide GroupOk, Ops, Numbered;
    var c, n := w.committed, |w.committed| - LoggedWriters(w);
    assert forall i :: n <= i < |c| ==> c[i] == c[n..][i - n] == w.queue[i - n];
  }

  lemma {:induction false} PublishedBatch(w: Writers, last: nat, hist: seq<Entry>, a: Ack) returns (start: nat)
    requires WritersOk(w, last) && HistoryOk(w.committed, hist) && TailOk(w, last, hist)
    requires a in w.acks && a.ok
    ensures Holds(hist, start, a.writer.Ops()) && start + |a.writer.Ops()| <= last
  {
    hide WritersOk, HistoryOk, Holds, Ops, TailOk;
    AckedIsCommitted(w, a, last);
    var c, n := w.committed, |w.committed| - LoggedWriters(w);
    var k: nat :| k < |c| && c[k] == a.writer;
    AckedIsPublished(w, last, k, a);
    PublishedOps(w, last, hist);
    CommittedHeld(c, hist, k);
    OpsAt(c[..n], k);
    assert c[..n][..k] == c[..k];
    start := |Ops(c[..k])|;
  }

  // ----- Group commit

  /** The history is the batches of the committed writers, in the order they arrived, numbered
      contiguously from 1; every writer is answered at most once, in arrival order, with success
      exactly when its batch was committed; a group in progress carries a synchronous writer
      only under a synchronous leader; and the scratch batch is empty when no group runs. */
  lemma {:induction false} GroupCommitInOrder(run: seq<State>, i: nat)
    requires IsRun(run) && i < |run|
    ensures run[i].hist == Numbered(1, Ops(run[i].w.committed))
    ensures Increasing(run[i].w.committed)
    ensures forall p, q :: 0 <= p < q < |run[i].w.acks| ==> run[i].w.acks[p].writer.id < run[i].w.acks[q].writer.id
    ensures forall a :: a in run[i].w.acks ==> (a.ok <==> a.writer in run[i].w.committed)
    ensures forall g :: run[i].w.group == Some(g) ==>
      g.size <= |run[i].w.queue| && forall p :: 0 <= p < g.size && run[i].w.queue[p].sync ==> run[i].w.queue[0].sync
    ensures run[i].w.group.None? ==> run[i].w.tmpBatch == []
  {
    RunKeeps(run, i);
    hide DiskOk, OpenOk, ReopenOk, IsRun;
    GroupsInOrder(run[i].w, run[i].lastSequence);
  }

  lemma {:induction false} GroupsInOrder(w: Writers, last: nat)
    requires WritersOk(w, last)
    ensures Increasing(w.committed)
    ensures forall p, q :: 0 <= p < q < |w.acks| ==> w.acks[p].writer.id < w.acks[q].writer.id
    ensures forall a :: a in w.acks ==> (a.ok <==> a.writer in w.committed)
    ensures forall g :: w.group == Some(g) ==>
      g.size <= |w.queue| && forall p :: 0 <= p < g.size && w.queue[p].sync ==> w.queue[0].sync
    ensures w.group.None? ==> w.tmpBatch == []
  {
    forall g, p | w.group == Some(g) && 0 <= p < g.size && w.queue[p].sync ensures w.queue[0].sync {
      assert 0 < p ==> Joins(w.queue, p);
    }
  }

  // ----- Every writer is answered

  ghost predicate Answered(w: Writers, writer: Writer) {
    exists a :: a in w.acks && a.writer == writer
  }

  lemma {:induction false} LeftWithAck(w: Writers, w': Writers, n: nat, writer: Writer)
    requires n <= |w.queue| && w'.queue == w.queue[n..] && |w'.acks| == |w.acks| + n
    requires forall i :: 0 <= i < n ==> w'.acks[|w.acks| + i].writer == w.queue[i]
    requires writer in w.queue
    ensures writer in w'.queue || Answered(w', writer)
  {
    var i :| 0 <= i < |w.queue| && w.queue[i] == writer;
    if i < n {
      assert w'.acks[|w.acks| + i].writer == writer;
    } else {
      assert w'.queue[i - n] == writer;
    }
  }

  lemma {:induction false} WriteAnswers(s: State, step: WriteStep, writer: Writer)
    requires CanWrite(s, step) && writer in s.w.queue
    ensures writer in DoWrite(s, step).w.queue || Answered(DoWrite(s, step).w, writer)
  {
    hide Ops, Numbered, Joins, NeedsTmpBatch;
    var w' := DoWrite(s, step).w;
    match step
    case FailLeader => LeftWithAck(s.w, w', 1, writer);
    case LeaveNullLeader => LeftWithAck(s.w, w', 1, writer);
    case Publish => LeftWithAck(s.w, w', s.w.group.value.size, writer);
    case _ =>
  }

  lemma {:induction false} StepAnswers(s: State, step: Step, writer: Writer)
    requires Enabled(s, step) && s.phase == Open && Apply(s, step).phase == Open && writer in s.w.queue
    ensures writer in Apply(s, step).w.queue || Answered(Apply(s, step).w, writer)
  {
    hide CanWrite, DoWrite;
    if step.Write? { WriteAnswers(s, step.write, writer); }
  }

  /** As long as the process does not crash, a writer that has queued up is still in the queue or
      has been answered; with the answers in arrival order, once each. */
  lemma {:induction false} WriterIsAnswered(run: seq<State>, i: nat, j: nat, writer: Writer)
    requires IsRun(run) && i <= j < |run| && writer in run[i].w.queue
    requires forall m :: i <= m <= j ==> run[m].phase == Open
    ensures writer in run[j].w.queue || Answered(run[j].w, writer)
    decreases j - i
  {
    hide Init, Enabled, Apply;
    if i < j {
      WriterIsAnswered(run, i, j - 1, writer);
      assert Next(run[j - 1], run[j]);
      var step :| Enabled(run[j - 1], step) && run[j] == Apply(run[j - 1], step);
      StepGrows(run[j - 1], step);
      if writer in run[j - 1].w.queue {
        StepAnswers(run[j - 1], step, writer);
      } else {
        var a :| a in run[j - 1].w.acks && a.writer == writer;
        assert a in run[j].w.acks;
      }
    }
  }
}

/**
 A run of the engine from a new database to an acknowledged write, so that what is said of all
 runs is said of something.
 */
module EngineExample {
  import opened Mvcc
  import opened GroupCommit
  import opened Engine

  const NEW_DATABASE :=
    State(Closed, Disk(Manifest(0, {}, 0, 2), map[], map[]), Memtables(0, None, map[]), Version(0, {}, {}, 0),
          Background(NoFlush, None), 0, Writers([], 0, [], None, [], []), [], map[], [], Marks(0, 0, 0, 0))

  // An open engine with nobody waiting to write.
  predicate Quiet(s: State) {
    && s.phase == Open && s.w.queue == [] && s.w.group.None? && s.w.tmpBatch == []
    && s.mem.logFile in s.disk.logs && s.mem.logFile in s.mem.contents
  }

  // Recovery of nothing, up to the new log.
  lemma {:induction false} StartsOver() returns (s1: State, s2: State, s3: State)
    ensures Next(NEW_DATABASE, s1) && Next(s1, s2) && Next(s2, s3)
    ensures s3.phase == LogCreated({}, 0, 2) && 2 in s3.disk.logs && s3.w == NEW_DATABASE.w
  {
    var s0 := NEW_DATABASE;
    assert LogEntries(s0.disk.logs, 0) == {} && Tables(map[], {}) == {};
    s1 := DoReopen(s0, BeginReplay);
    assert CanReopen(s1, FinishReplay(0));
    s2 := DoReopen(s1, FinishReplay(0));
    assert CanReopen(s2, CreateLog(2));
    s3 := DoReopen(s2, CreateLog(2));
    Follows(s0, Reopen(BeginReplay));
    Follows(s1, Reopen(FinishReplay(0)));
    Follows(s2, Reopen(CreateLog(2)));
  }

  lemma {:induction false} Starts(s2: State) returns (s3: State, s4: State)
    requires s2.phase == LogCreated({}, 0, 2) && 2 in s2.disk.logs && s2.w == NEW_DATABASE.w
    ensures Next(s2, s3) && Next(s3, s4) && Quiet(s4)
  {
    s3 := DoReopen(s2, SaveManifest(true));
    s4 := DoReopen(s3, FinishOpen);
    Follows(s2, Reopen(SaveManifest(true)));
    Follows(s3, Reopen(FinishOpen));
  }

  lemma {:induction false} Opens() returns (run: seq<State>)
    ensures IsRun(run) && |run| == 6 && Quiet(run[5])
  {
    hide Next, Quiet;
    var s1, s2, s3 := StartsOver();
    var s4, s5 := Starts(s3);
    run := [NEW_DATABASE, s1, s2, s3, s4, s5];
  }

  lemma {:induction false} Follows(s: State, step: Step)
    requires Enabled(s, step)
    ensures Next(s, Apply(s, step))
  {
  }

  // One writer, whose group has been formed.
  predicate Grouped(s: State, w: Writer) {
    && s.phase == Open && HasGroup(s) && s.w.queue == [w] && s.w.group.value.size == 1
    && !s.w.group.value.logged && s.w.group.value.inserted == 0 && |s.w.group.value.entries| == 1
  }

  lemma {:induction false} FormsGroup(s: State, op: Mutation) returns (s1: State, s2: State)
    requires Quiet(s)
    ensures Next(s, s1) && Next(s1, s2) && Grouped(s2, Writer(s.w.arrivals, Some([op]), 0, true))
            && s2.w.acks == s.w.acks
  {
    var w := Writer(s.w.arrivals, Some([op]), 0, true);
    s1 := DoWrite(s, Enqueue(Some([op]), 0, true));
    assert s1.w.queue == [w] && s1.w.queue[..1] == [w];
    assert IsGroup(s1.w.queue, 1);
    s2 := DoWrite(s1, BuildGroup(1));
    Follows(s, Write(Enqueue(Some([op]), 0, true)));
    Follows(s1, Write(BuildGroup(1)));
  }

  lemma {:induction false} Commits(s: State, w: Writer) returns (s1: State, s2: State, s3: State)
    requires Grouped(s, w)
    ensures Next(s, s1) && Next(s1, s2) && Next(s2, s3)
    ensures s3.phase == Open && s3.w.acks == s.w.acks + [Ack(w, true)]
  {
    hide Ops, Numbered;
    s1 := DoWrite(s, AppendLog);
    s2 := DoWrite(s1, InsertEntry);
    s3 := DoWrite(s2, Publish);
    Follows(s, Write(AppendLog));
    Follows(s1, Write(InsertEntry));
    Follows(s2, Write(Publish));
    assert s.w.queue[..1] == [w];
    assert AckAll([w]) == [Ack(w, true)];
  }

  // There is a run in which a write is acknowledged.
  lemma {:induction false} SomeWriteIsAcknowledged(op: Mutation) returns (run: seq<State>, a: Ack)
    ensures IsRun(run) && run[|run| - 1].phase == Open
    ensures a in run[|run| - 1].w.acks && a.ok && a.writer.Ops() == [op]
  {
    hide Next, Quiet, Grouped, Init;
    var open := Opens();
    var s5 := open[5];
    var w := Writer(s5.w.arrivals, Some([op]), 0, true);
    var s6, s7 := FormsGroup(s5, op);
    var s8, s9, s10 := Commits(s7, w);
    run := open + [s6, s7, s8, s9, s10];
    a := Ack(w, true);
    assert s10.w.acks[|s7.w.acks|] == a;
  }
}

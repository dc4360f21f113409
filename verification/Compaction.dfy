/**
 Table compaction (`DBImpl::DoCompactionWork`): the loop that drops hidden entries and
 obsolete deletion markers while it splits what it keeps over output files, and the theorem
 that no read at a snapshot still in use can tell the difference.
 */
module Compaction {
  import opened Mvcc

  // ----- What may be dropped, without reference to the loop

  // A younger entry for the same user key is itself visible at the smallest snapshot.
  ghost predicate Hidden(inputs: set<Entry>, smallest: nat, e: Entry) {
    exists f :: f in inputs && f.Key() == e.Key() && e.sequence < f.sequence <= smallest
  }

  // A deletion marker with nothing left to hide. `base` holds the input keys for which
  // IsBaseLevelForKey answered true.
  predicate Obsolete(base: set<Key>, smallest: nat, e: Entry) {
    e.op.Delete? && e.sequence <= smallest && e.Key() in base
  }

  ghost function Kept(inputs: set<Entry>, base: set<Key>, smallest: nat): set<Entry> {
    set e | e in inputs && !Hidden(inputs, smallest, e) && !Obsolete(base, smallest, e)
  }

  // What the version guarantees about the tables that stay: for each user key they are
  // wholly younger or wholly older than the inputs, and hold nothing older for a base-level key.
  ghost predicate Separated(inputs: set<Entry>, rest: set<Entry>, base: set<Key>) {
    forall e, f :: e in inputs && f in rest && e.Key() == f.Key() ==>
      && (e.Key() in base ==> e.sequence < f.sequence)
      && forall d :: d in inputs && d.Key() == e.Key() ==> (e.sequence < f.sequence <==> d.sequence < f.sequence)
  }

  // ----- Main result: compaction preserves every read at a live snapshot

  lemma {:induction false} CompactionKeepsRead(inputs: set<Entry>, rest: set<Entry>, base: set<Key>, smallest: nat,
                                               key: Key, snapshot: nat)
    requires Distinct(inputs + rest)
    requires Separated(inputs, rest, base)
    requires smallest <= snapshot
    ensures Lookup(Kept(inputs, base, smallest) + rest, key, snapshot) == Lookup(inputs + rest, key, snapshot)
  {
    var kept := Kept(inputs, base, smallest);
    ProbeIsNewest(inputs + rest, key, snapshot);
    ProbeIsNewest(kept + rest, key, snapshot);
    var p := Probe(inputs + rest, key, snapshot);
    if p.None? {
      assert forall e :: Sees(kept + rest, key, snapshot, e) ==> Sees(inputs + rest, key, snapshot, e);
    } else if p.value in kept + rest {
      assert Newest(kept + rest, key, snapshot, p.value);
    } else {
      NewestDroppedIsObsolete(inputs, rest, base, smallest, key, snapshot, p.value);
      ObsoleteHidesNothing(inputs, rest, base, smallest, key, snapshot, p.value);
    }
  }

  lemma {:induction false} CompactionKeepsReads(inputs: set<Entry>, rest: set<Entry>, base: set<Key>, smallest: nat)
    requires Distinct(inputs + rest)
    requires Separated(inputs, rest, base)
    ensures SameReads(Kept(inputs, base, smallest) + rest, inputs + rest, smallest)
  {
    forall key, snapshot: nat | smallest <= snapshot
      ensures Lookup(Kept(inputs, base, smallest) + rest, key, snapshot) == Lookup(inputs + rest, key, snapshot)
    {
      CompactionKeepsRead(inputs, rest, base, smallest, key, snapshot);
    }
  }

  // The newest visible entry is never dropped by the hidden-entry rule.
  lemma {:induction false} NewestDroppedIsObsolete(inputs: set<Entry>, rest: set<Entry>, base: set<Key>, smallest: nat,
                                                   key: Key, snapshot: nat, e: Entry)
    requires Newest(inputs + rest, key, snapshot, e)
    requires smallest <= snapshot
    requires e !in Kept(inputs, base, smallest) + rest
    ensures e in inputs && Obsolete(base, smallest, e)
  {
    forall f | f in inputs && f.Key() == e.Key() ensures !(e.sequence < f.sequence <= smallest) {
      assert f.sequence <= snapshot ==> Sees(inputs + rest, key, snapshot, f);
    }
  }

  // When the newest visible entry is an obsolete marker, nothing it covered survives it.
  lemma {:induction false} ObsoleteHidesNothing(inputs: set<Entry>, rest: set<Entry>, base: set<Key>, smallest: nat,
                                                key: Key, snapshot: nat, e: Entry)
    requires Distinct(inputs + rest)
    requires Separated(inputs, rest, base)
    requires Newest(inputs + rest, key, snapshot, e)
    requires e in inputs && Obsolete(base, smallest, e)
    ensures forall f :: !Sees(Kept(inputs, base, smallest) + rest, key, snapshot, f)
  {
    forall f | f in inputs + rest && f.Key() == key && f.sequence <= snapshot
      ensures f !in Kept(inputs, base, smallest) + rest
    {
      assert Sees(inputs + rest, key, snapshot, f);
      assert f == e || f.sequence < e.sequence;
      assert f !in rest;
      assert f == e || Hidden(inputs, smallest, f);
    }
  }

  // ----- The loop

  // One finished output table, with the key range recorded for the manifest.
  datatype Output = Output(entries: seq<Entry>, smallest: Entry, largest: Entry)

  ghost predicate ValidOutput(o: Output) {
    |o.entries| > 0 && o.smallest == o.entries[0] && o.largest == o.entries[|o.entries| - 1]
  }

  function Contents(outputs: seq<Output>): seq<Entry> {
    if outputs == [] then [] else Contents(outputs[..|outputs| - 1]) + outputs[|outputs| - 1].entries
  }

  // The sequence of the entry just before entry i when it has the same user key: what the
  // loop carries from one iteration to the next.
  function LastSequenceForKey(run: seq<Entry>, i: nat): nat
    requires i < |run|
  {
    if 0 < i && run[i - 1].Key() == run[i].Key() then run[i - 1].sequence else MAX_SEQUENCE
  }

  // The drop test as the loop makes it.
  predicate Drops(lastSequenceForKey: nat, e: Entry, base: set<Key>, smallest: nat) {
    lastSequenceForKey <= smallest || (e.op.Delete? && e.sequence <= smallest && e.Key() in base)
  }

  // What the loop has kept of the first n entries, in order.
  function KeptRun(run: seq<Entry>, base: set<Key>, smallest: nat, n: nat): seq<Entry>
    requires n <= |run|
  {
    if n == 0 then []
    else KeptRun(run, base, smallest, n - 1) +
         if Drops(LastSequenceForKey(run, n - 1), run[n - 1], base, smallest) then [] else [run[n - 1]]
  }

  // The output being built, if any, follows the finished ones.
  function Written(outputs: seq<Output>, builder: Option<Output>): seq<Entry> {
    Contents(outputs) + if builder.Some? then builder.value.entries else []
  }

  ghost predicate ValidOutputs(outputs: seq<Output>, builder: Option<Output>) {
    (forall i :: 0 <= i < |outputs| ==> ValidOutput(outputs[i])) && (builder.Some? ==> ValidOutput(builder.value))
  }

  // FinishCompactionOutputFile, skipped when no output is open.
  method FinishOutput(outputs: seq<Output>, builder: Option<Output>) returns (outputs': seq<Output>)
    requires ValidOutputs(outputs, builder)
    ensures ValidOutputs(outputs', None)
    ensures outputs' == if builder.Some? then outputs + [builder.value] else outputs
    ensures Written(outputs', None) == Written(outputs, builder)
  {
    outputs' := outputs;
    if builder.Some? {
      ContentsSnoc(outputs, builder.value);
      outputs' := outputs + [builder.value];
    }
  }

  // Opens an output when none is open, and records the key range as it adds the entry.
  method AddToOutput(outputs: seq<Output>, builder: Option<Output>, e: Entry) returns (builder': Option<Output>)
    requires ValidOutputs(outputs, builder)
    ensures ValidOutputs(outputs, builder')
    ensures builder'.Some? && builder'.value.entries == (if builder.Some? then builder.value.entries else []) + [e]
    ensures Written(outputs, builder') == Written(outputs, builder) + [e]
  {
    if builder.None? {
      builder' := Some(Output([e], e, e));
    } else {
      builder' := Some(Output(builder.value.entries + [e], builder.value.smallest, e));
    }
  }

  // ----- Where the outputs are cut

  // For specification: the input positions of the entries in each finished output, and in the
  // open one.
  datatype Cuts = Cuts(done: seq<seq<nat>>, open: seq<nat>)

  // Two kept entries with nothing to cut between them, and two with something.
  ghost predicate Uncut(stopBefore: seq<bool>, full: seq<bool>, a: nat, b: nat)
    requires |stopBefore| == |full|
  {
    a < b < |full| && !full[a] && forall k :: a < k <= b ==> !stopBefore[k]
  }

  ghost predicate Cut(stopBefore: seq<bool>, full: seq<bool>, a: nat, b: nat)
    requires |stopBefore| == |full|
  {
    a < b < |full| && (full[a] || exists k :: a < k <= b && stopBefore[k])
  }

  ghost predicate Placed(input: seq<Entry>, entries: seq<Entry>, at: seq<nat>) {
    |at| == |entries| > 0 && forall p :: 0 <= p < |at| ==> at[p] < |input| && entries[p] == input[at[p]]
  }

  ghost predicate UncutAt(stopBefore: seq<bool>, full: seq<bool>, at: seq<nat>, p: nat)
    requires |stopBefore| == |full| && p + 1 < |at|
  {
    Uncut(stopBefore, full, at[p], at[p + 1])
  }

  ghost predicate InOnePiece(stopBefore: seq<bool>, full: seq<bool>, at: seq<nat>)
    requires |stopBefore| == |full|
  {
    forall p :: 0 <= p < |at| - 1 ==> UncutAt(stopBefore, full, at, p)
  }

  ghost predicate CutAt(stopBefore: seq<bool>, full: seq<bool>, at: seq<seq<nat>>, o: nat)
    requires |stopBefore| == |full| && o + 1 < |at|
  {
    at[o] != [] && at[o + 1] != [] && Cut(stopBefore, full, at[o][|at[o]| - 1], at[o + 1][0])
  }

  // Outputs are cut at a stop point or a full file, and nowhere else.
  ghost predicate CutRight(input: seq<Entry>, stopBefore: seq<bool>, full: seq<bool>, outputs: seq<Output>,
                           at: seq<seq<nat>>)
    requires |stopBefore| == |full|
  {
    && |at| == |outputs|
    && (forall o :: 0 <= o < |at| ==> Placed(input, outputs[o].entries, at[o]) && InOnePiece(stopBefore, full, at[o]))
    && (forall o :: 0 <= o < |at| - 1 ==> CutAt(stopBefore, full, at, o))
  }

  // Entry by entry: between neighbours in one output there is neither a full file nor a stop
  // point, and between the last of one output and the first of the next there is one of them.
  lemma {:induction false} CutsExactly(input: seq<Entry>, stopBefore: seq<bool>, full: seq<bool>, outputs: seq<Output>,
                                       at: seq<seq<nat>>, o: nat, p: nat)
    requires |stopBefore| == |full| == |input| && CutRight(input, stopBefore, full, outputs, at)
    requires o < |outputs| && p < |at[o]|
    ensures at[o][p] < |input|
    ensures p + 1 < |at[o]| ==>
              && at[o][p] < at[o][p + 1] < |input| && !full[at[o][p]]
              && forall k :: at[o][p] < k <= at[o][p + 1] ==> !stopBefore[k]
    ensures p + 1 == |at[o]| && o + 1 < |outputs| ==>
              && at[o + 1] != [] && at[o][p] < at[o + 1][0] < |input|
              && (full[at[o][p]] || exists k :: at[o][p] < k <= at[o + 1][0] && stopBefore[k])
  {
    assert Placed(input, outputs[o].entries, at[o]) && InOnePiece(stopBefore, full, at[o]);
    if p + 1 < |at[o]| { assert UncutAt(stopBefore, full, at[o], p); }
    if o + 1 < |outputs| { assert CutAt(stopBefore, full, at, o); }
  }

  // The last entry of the open output may be followed by the next kept one, all stops before
  // position n seen; and the last entry of a closed one may not.
  ghost predicate MayGrow(stopBefore: seq<bool>, full: seq<bool>, a: nat, n: nat)
    requires |stopBefore| == |full|
  {
    a < n <= |full| && !full[a] && forall k :: a < k < n ==> !stopBefore[k]
  }

  ghost predicate MustCut(stopBefore: seq<bool>, full: seq<bool>, a: nat, n: nat)
    requires |stopBefore| == |full|
  {
    a < n <= |full| && (full[a] || exists k :: a < k < n && stopBefore[k])
  }

  // The cuts so far: stops before n seen, entries before b placed.
  ghost predicate CutsOk(input: seq<Entry>, stopBefore: seq<bool>, full: seq<bool>, outputs: seq<Output>,
                         builder: Option<Output>,
                         cuts: Cuts, n: nat, b: nat)
    requires |stopBefore| == |full|
  {
    && CutRight(input, stopBefore, full, outputs, cuts.done) && b <= n
    && (builder.None? <==> cuts.open == [])
    && (builder.Some? ==>
          && Placed(input, builder.value.entries, cuts.open) && InOnePiece(stopBefore, full, cuts.open)
          && cuts.open[|cuts.open| - 1] < b && MayGrow(stopBefore, full, cuts.open[|cuts.open| - 1], n))
    && (cuts.done != [] && cuts.done[|cuts.done| - 1] != [] ==>
          var last := cuts.done[|cuts.done| - 1][|cuts.done[|cuts.done| - 1]| - 1];
          last < b && if cuts.open == [] then MustCut(stopBefore, full, last, n)
            else Cut(stopBefore, full, last, cuts.open[0]))
  }

  lemma {:induction false} ClosedRight(input: seq<Entry>, stopBefore: seq<bool>, full: seq<bool>, outputs: seq<Output>,
                                       at: seq<seq<nat>>,
                                       o: Output, pos: seq<nat>)
    requires |stopBefore| == |full| && CutRight(input, stopBefore, full, outputs, at)
    requires Placed(input, o.entries, pos) && InOnePiece(stopBefore, full, pos)
    requires at != [] && at[|at| - 1] != [] ==> Cut(stopBefore, full, at[|at| - 1][|at[|at| - 1]| - 1], pos[0])
    ensures CutRight(input, stopBefore, full, outputs + [o], at + [pos])
  {
    var at' := at + [pos];
    forall k | 0 <= k < |at'| - 1 ensures CutAt(stopBefore, full, at', k) {
      assert Placed(input, outputs[k].entries, at[k]);
      if k < |at| - 1 { assert CutAt(stopBefore, full, at, k); }
    }
  }

  // Coming to position n: if it is a stop point the open output is closed.
  lemma {:induction false} ComeTo(input: seq<Entry>, stopBefore: seq<bool>, full: seq<bool>, outputs: seq<Output>,
                                  builder: Option<Output>,
                                  cuts: Cuts, n: nat) returns (cuts': Cuts)
    requires |stopBefore| == |full| && n < |full| && CutsOk(input, stopBefore, full, outputs, builder, cuts, n, n)
    ensures if stopBefore[n]
            then CutsOk(input, stopBefore, full, if builder.Some? then outputs + [builder.value] else outputs, None,
                        cuts', n + 1, n)
            else CutsOk(input, stopBefore, full, outputs, builder, cuts', n + 1, n)
  {
    cuts' := cuts;
    if stopBefore[n] && builder.Some? {
      ClosedRight(input, stopBefore, full, outputs, cuts.done, builder.value, cuts.open);
      cuts' := Cuts(cuts.done + [cuts.open], []);
    }
  }

  // Adding the entry at position n, and closing the output if it is full.
  lemma {:induction false} AddAt(input: seq<Entry>, stopBefore: seq<bool>, full: seq<bool>, outputs: seq<Output>,
                                 builder: Option<Output>,
                                 cuts: Cuts, n: nat, grown: Output) returns (cuts': Cuts)
    requires |stopBefore| == |full| == |input| && n < |full|
             && CutsOk(input, stopBefore, full, outputs, builder, cuts, n + 1, n)
    requires grown.entries == (if builder.Some? then builder.value.entries else []) + [input[n]]
    ensures if full[n] then CutsOk(input, stopBefore, full, outputs + [grown], None, cuts', n + 1, n + 1)
            else CutsOk(input, stopBefore, full, outputs, Some(grown), cuts', n + 1, n + 1)
  {
    hide InOnePiece, CutRight, Placed, Cut;
    Extended(input, stopBefore, full, outputs, builder, cuts, n, grown);
    var open := cuts.open + [n];
    assert open[|open| - 1] == n;
    if full[n] {
      assert (cuts.done + [open])[|cuts.done|] == open;
      ClosedRight(input, stopBefore, full, outputs, cuts.done, grown, open);
      cuts' := Cuts(cuts.done + [open], []);
    } else {
      cuts' := Cuts(cuts.done, open);
    }
  }

  lemma {:induction false} Extended(input: seq<Entry>, stopBefore: seq<bool>, full: seq<bool>, outputs: seq<Output>,
                                    builder: Option<Output>,
                                    cuts: Cuts, n: nat, grown: Output)
    requires |stopBefore| == |full| == |input| && n < |full|
             && CutsOk(input, stopBefore, full, outputs, builder, cuts, n + 1, n)
    requires grown.entries == (if builder.Some? then builder.value.entries else []) + [input[n]]
    ensures Placed(input, grown.entries, cuts.open + [n]) && InOnePiece(stopBefore, full, cuts.open + [n])
    ensures cuts.done != [] && cuts.done[|cuts.done| - 1] != [] ==>
              Cut(stopBefore, full, cuts.done[|cuts.done| - 1][|cuts.done[|cuts.done| - 1]| - 1], (cuts.open + [n])[0])
  {
    hide CutRight;
    var open := cuts.open + [n];
    forall p | 0 <= p < |open| - 1 ensures UncutAt(stopBefore, full, open, p) {
      if p < |cuts.open| - 1 { assert UncutAt(stopBefore, full, cuts.open, p); }
    }
  }

  lemma {:induction false} Finished(input: seq<Entry>, stopBefore: seq<bool>, full: seq<bool>, outputs: seq<Output>,
                                    builder: Option<Output>,
                                    cuts: Cuts, n: nat) returns (at: seq<seq<nat>>)
    requires |stopBefore| == |full| && CutsOk(input, stopBefore, full, outputs, builder, cuts, n, n)
    ensures CutRight(input, stopBefore, full, if builder.Some? then outputs + [builder.value] else outputs, at)
  {
    at := cuts.done;
    if builder.Some? {
      ClosedRight(input, stopBefore, full, outputs, cuts.done, builder.value, cuts.open);
      at := cuts.done + [cuts.open];
    }
  }

  lemma {:induction false} NoCuts(input: seq<Entry>, stopBefore: seq<bool>, full: seq<bool>)
    requires |stopBefore| == |full|
    ensures CutsOk(input, stopBefore, full, [], None, Cuts([], []), 0, 0)
  {
  }

  lemma {:induction false} LeftOut(input: seq<Entry>, stopBefore: seq<bool>, full: seq<bool>, outputs: seq<Output>,
                                   builder: Option<Output>,
                                   cuts: Cuts, n: nat)
    requires |stopBefore| == |full| && CutsOk(input, stopBefore, full, outputs, builder, cuts, n + 1, n)
    ensures CutsOk(input, stopBefore, full, outputs, builder, cuts, n + 1, n + 1)
  {
  }

  /** The compaction loop. `stopBefore[i]` and `full[i]` are the version's and the file
      system's free choices: ShouldStopBefore(key i), and whether the file holding entry i
      has reached its size limit. */
  method DoCompactionWork(input: seq<Entry>, base: set<Key>, smallest: nat,
                          stopBefore: seq<bool>, full: seq<bool>)
    returns (outputs: seq<Output>, ghost at: seq<seq<nat>>)
    requires |stopBefore| == |full| == |input|
    ensures Contents(outputs) == KeptRun(input, base, smallest, |input|)
    ensures forall i :: 0 <= i < |outputs| ==> ValidOutput(outputs[i])
    ensures CutRight(input, stopBefore, full, outputs, at)
  {
    hide Contents, Written, ValidOutput, ValidOutputs, KeptRun, Drops, CutsOk, CutRight;
    NoOutputs(input, base, smallest);
    NoCuts(input, stopBefore, full);
    ghost var cuts := Cuts([], []);
    outputs := [];
    var builder: Option<Output> := None;
    var currentUserKey: Option<Key> := None;
    var lastSequenceForKey := MAX_SEQUENCE;
    for i := 0 to |input|
      invariant ValidOutputs(outputs, builder)
      invariant Written(outputs, builder) == KeptRun(input, base, smallest, i)
      invariant i == 0 ==> currentUserKey == None && lastSequenceForKey == MAX_SEQUENCE
      invariant i > 0 ==> currentUserKey == Some(input[i - 1].Key()) && lastSequenceForKey == input[i - 1].sequence
      invariant CutsOk(input, stopBefore, full, outputs, builder, cuts, i, i)
    {
      var e := input[i];
      cuts := ComeTo(input, stopBefore, full, outputs, builder, cuts, i);
      if stopBefore[i] {
        outputs := FinishOutput(outputs, builder);
        builder := None;
      }
      if currentUserKey != Some(e.Key()) {
        currentUserKey := Some(e.Key());
        lastSequenceForKey := MAX_SEQUENCE;
      }
      KeptStep(input, base, smallest, i);
      var drop := Drops(lastSequenceForKey, e, base, smallest);
      lastSequenceForKey := e.sequence;

      if drop {
        LeftOut(input, stopBefore, full, outputs, builder, cuts, i);
      } else {
        ghost var was := builder;
        builder := AddToOutput(outputs, builder, e);
        cuts := AddAt(input, stopBefore, full, outputs, was, cuts, i, builder.value);
        if full[i] {
          outputs := FinishOutput(outputs, builder);
          builder := None;
        }
      }
    }
    at := Finished(input, stopBefore, full, outputs, builder, cuts, |input|);
    outputs := FinishOutput(outputs, builder);
    AllFinished(outputs);
  }

  lemma {:induction false} NoOutputs(run: seq<Entry>, base: set<Key>, smallest: nat)
    ensures ValidOutputs([], None) && Written([], None) == KeptRun(run, base, smallest, 0)
  {
  }

  lemma {:induction false} KeptStep(run: seq<Entry>, base: set<Key>, smallest: nat, i: nat)
    requires i < |run|
    ensures KeptRun(run, base, smallest, i + 1) ==
            if Drops(LastSequenceForKey(run, i), run[i], base, smallest) then KeptRun(run, base, smallest, i)
            else KeptRun(run, base, smallest, i) + [run[i]]
  {
    hide Drops, LastSequenceForKey;
  }

  lemma {:induction false} AllFinished(outputs: seq<Output>)
    requires ValidOutputs(outputs, None)
    ensures Written(outputs, None) == Contents(outputs) && forall i :: 0 <= i < |outputs| ==> ValidOutput(outputs[i])
  {
  }

  lemma {:induction false} ContentsSnoc(outputs: seq<Output>, o: Output)
    ensures Contents(outputs + [o]) == Contents(outputs) + o.entries
  {
    assert (outputs + [o])[..|outputs|] == outputs;
  }

  // ----- What the outputs are

  // In a sorted run an entry is hidden exactly when the entry just before it belongs to the
  // same user key and is visible at the smallest snapshot: what the loop's one variable tracks.
  lemma {:induction false} HiddenByPredecessor(less: Less, run: seq<Entry>, smallest: nat, i: nat)
    requires StrictTotalOrder(less) && Sorted(less, run)
    requires i < |run|
    ensures Hidden(Elements(run), smallest, run[i])
       <==> 0 < i && run[i - 1].Key() == run[i].Key() && run[i - 1].sequence <= smallest
  {
    if Hidden(Elements(run), smallest, run[i]) {
      var f :| f in Elements(run) && f.Key() == run[i].Key() && run[i].sequence < f.sequence <= smallest;
      var j :| 0 <= j < |run| && run[j] == f;
      assert j <= i;
      assert Before(less, run[i - 1], run[i]);
      if j < i - 1 { assert Before(less, run[j], run[i - 1]); }
    }
    if 0 < i && run[i - 1].Key() == run[i].Key() && run[i - 1].sequence <= smallest {
      assert Before(less, run[i - 1], run[i]) && run[i - 1] in Elements(run);
    }
  }

  // On a sorted run the loop's local test is the declarative rule.
  lemma {:induction false} DropsIsNotKept(less: Less, run: seq<Entry>, base: set<Key>, smallest: nat, i: nat)
    requires StrictTotalOrder(less) && Sorted(less, run)
    requires i < |run| && smallest < MAX_SEQUENCE
    ensures Drops(LastSequenceForKey(run, i), run[i], base, smallest) <==>
              run[i] !in Kept(Elements(run), base, smallest)
  {
    HiddenByPredecessor(less, run, smallest, i);
    assert run[i] in Elements(run);
  }

  lemma {:induction false} KeptRunElements(less: Less, run: seq<Entry>, base: set<Key>, smallest: nat, n: nat)
    requires StrictTotalOrder(less) && Sorted(less, run)
    requires n <= |run| && smallest < MAX_SEQUENCE
    ensures forall e :: e in KeptRun(run, base, smallest, n) <==>
              e in run[..n] && e in Kept(Elements(run), base, smallest)
  {
    if n > 0 {
      KeptRunElements(less, run, base, smallest, n - 1);
      DropsIsNotKept(less, run, base, smallest, n - 1);
      assert run[..n] == run[..n - 1] + [run[n - 1]];
    }
  }

  // The run the loop keeps is, as a set, exactly what the drop rule keeps.
  lemma {:induction false} KeptRunIsKept(less: Less, run: seq<Entry>, base: set<Key>, smallest: nat)
    requires StrictTotalOrder(less) && Sorted(less, run)
    requires smallest < MAX_SEQUENCE
    ensures Elements(KeptRun(run, base, smallest, |run|)) == Kept(Elements(run), base, smallest)
  {
    KeptRunElements(less, run, base, smallest, |run|);
    assert run[..|run|] == run;
  }

  lemma {:induction false} KeptRunSorted(less: Less, run: seq<Entry>, base: set<Key>, smallest: nat, n: nat)
    requires n <= |run| && Sorted(less, run)
    ensures Sorted(less, KeptRun(run, base, smallest, n))
    ensures forall e :: e in KeptRun(run, base, smallest, n) ==> e in run[..n]
  {
    if n > 0 {
      KeptRunSorted(less, run, base, smallest, n - 1);
      var prefix := KeptRun(run, base, smallest, n - 1);
      forall i | 0 <= i < |prefix| ensures Before(less, prefix[i], run[n - 1]) {
        assert prefix[i] in run[..n - 1];
      }
    }
  }

  lemma {:induction false} ContentsAt(outputs: seq<Output>, i: nat, j: nat) returns (at: nat)
    requires i < |outputs| && j < |outputs[i].entries|
    ensures at < |Contents(outputs)| && Contents(outputs)[at] == outputs[i].entries[j]
    ensures |Contents(outputs[..i])| + j == at
    decreases |outputs|
  {
    if i == |outputs| - 1 {
      at := |Contents(outputs[..i])| + j;
    } else {
      var front := outputs[..|outputs| - 1];
      at := ContentsAt(front, i, j);
      assert front[..i] == outputs[..i];
    }
  }

  lemma {:induction false} ContentsGrow(outputs: seq<Output>, i: nat, j: nat)
    requires i < j <= |outputs|
    ensures |Contents(outputs[..i])| + |outputs[i].entries| <= |Contents(outputs[..j])|
    decreases j
  {
    assert outputs[..j][..j - 1] == outputs[..j - 1];
    if i < j - 1 { ContentsGrow(outputs, i, j - 1); }
  }

  // For any choice of stop points the outputs cover pairwise disjoint, increasing key ranges.
  lemma {:induction false} OutputsDisjoint(less: Less, outputs: seq<Output>, i: nat, j: nat)
    requires Sorted(less, Contents(outputs))
    requires i < j < |outputs| && ValidOutput(outputs[i]) && ValidOutput(outputs[j])
    ensures Before(less, outputs[i].largest, outputs[j].smallest)
  {
    var a := ContentsAt(outputs, i, |outputs[i].entries| - 1);
    var b := ContentsAt(outputs, j, 0);
    ContentsGrow(outputs, i, j);
  }

  // An entry survives exactly if no younger entry of its key is visible at the smallest
  // snapshot, and it is not a deletion visible there of a key with nothing below.
  lemma {:induction false} KeptExactly(less: Less, input: seq<Entry>, base: set<Key>, smallest: nat)
    requires StrictTotalOrder(less) && Sorted(less, input) && smallest < MAX_SEQUENCE
    ensures forall e :: e in KeptRun(input, base, smallest, |input|) <==>
              && e in input && !(e.op.Delete? && e.sequence <= smallest && e.Key() in base)
              && forall f :: f in input && f.Key() == e.Key() ==> !(e.sequence < f.sequence <= smallest)
  {
    hide KeptRun;
    KeptRunIsKept(less, input, base, smallest);
    var kept := KeptRun(input, base, smallest, |input|);
    assert forall e :: e in kept <==> e in Elements(kept);
  }

  // So of each key at most one version at or below the smallest snapshot is left.
  lemma {:induction false} OneOldVersion(less: Less, input: seq<Entry>, base: set<Key>, smallest: nat,
                                         e: Entry, f: Entry)
    requires StrictTotalOrder(less) && Sorted(less, input) && smallest < MAX_SEQUENCE
    requires e in KeptRun(input, base, smallest, |input|) && f in KeptRun(input, base, smallest, |input|)
    requires e.Key() == f.Key() && e.sequence <= smallest && f.sequence <= smallest
    ensures e == f
  {
    hide KeptRun;
    KeptExactly(less, input, base, smallest);
    var i :| 0 <= i < |input| && input[i] == e;
    var j :| 0 <= j < |input| && input[j] == f;
    assert i < j ==> Before(less, e, f);
    assert j < i ==> Before(less, f, e);
  }

  /** The whole compaction: the output tables, put beside the tables that stay, answer every
      read at a snapshot of `smallest` or later as the input tables did, and their
      recorded key ranges are disjoint and increasing. They hold an input entry exactly if no
      younger one of its key is visible at `smallest` and it is not a deletion visible there of a
      base-level key, so no key keeps two versions that old. */
  method Compact(less: Less, input: seq<Entry>, ghost rest: set<Entry>, base: set<Key>, smallest: nat,
                 stopBefore: seq<bool>, full: seq<bool>)
    returns (outputs: seq<Output>)
    requires StrictTotalOrder(less) && Sorted(less, input)
    requires smallest < MAX_SEQUENCE
    requires |stopBefore| == |full| == |input|
    requires Distinct(Elements(input) + rest) && Separated(Elements(input), rest, base)
    ensures SameReads(Elements(Contents(outputs)) + rest, Elements(input) + rest, smallest)
    ensures forall i :: 0 <= i < |outputs| ==> ValidOutput(outputs[i])
    ensures forall i, j :: 0 <= i < j < |outputs| ==> Before(less, outputs[i].largest, outputs[j].smallest)
    ensures Sorted(less, Contents(outputs))
    ensures forall e :: e in Contents(outputs) <==>
              && e in input && !(e.op.Delete? && e.sequence <= smallest && e.Key() in base)
              && forall f :: f in input && f.Key() == e.Key() ==> !(e.sequence < f.sequence <= smallest)
    ensures forall e, f :: e in Contents(outputs) && f in Contents(outputs) && e.Key() == f.Key() ==>
              e == f || e.sequence > smallest || f.sequence > smallest
  {
    hide KeptRun, Contents, Separated, Hidden, Drops, Distinct, SameReads;
    ghost var at;
    outputs, at := DoCompactionWork(input, base, smallest, stopBefore, full);
    KeptRunIsKept(less, input, base, smallest);
    CompactionKeepsReads(Elements(input), rest, base, smallest);
    KeptRunSorted(less, input, base, smallest, |input|);
    KeptExactly(less, input, base, smallest);
    forall e, f | e in Contents(outputs) && f in Contents(outputs) && e.Key() == f.Key()
      ensures e == f || e.sequence > smallest || f.sequence > smallest
    {
      if e.sequence <= smallest && f.sequence <= smallest { OneOldVersion(less, input, base, smallest, e, f); }
    }
    forall i, j | 0 <= i < j < |outputs| ensures Before(less, outputs[i].largest, outputs[j].smallest) {
      OutputsDisjoint(less, outputs, i, j);
    }
  }
}

/**
 What recovery gets out of a log: the batches whose records survived, each whole, and nothing
 of the others.
 */
module LogReplay {
  import opened Mvcc
  import opened Coding
  import opened WriteBatch
  import opened BatchInsert
  import opened LogTheorems
  import LogFile
  import LogRecovery

  // ----- The replay loop

  datatype Replay = Replay(entries: seq<Entry>, maxSequence: nat, status: Status)

  function Max(a: nat, b: nat): nat { if a > b then a else b }

  // The last sequence of a batch, as the loop computes it in 64 bits.
  function LastSequence(rep: Bytes): nat
    requires |rep| >= BATCH_HEADER
  {
    (SequenceOf(rep) + CountOf(rep) - 1) % TWO64
  }

  // What the records of a log add to the memtable. A record that is too short, or is not a
  // batch, ends the replay when checks are paranoid, and is otherwise passed over, with as
  // much of it inserted as could be read.
  function ReplayOf(records: seq<Bytes>, paranoid: bool, maxSequence: nat): Replay {
    if records == [] then Replay([], maxSequence, Ok)
    else if |records[0]| < BATCH_HEADER then
      if paranoid then Replay([], maxSequence, Corruption("log record too small"))
      else ReplayOf(records[1..], paranoid, maxSequence)
    else if paranoid && StatusOf(records[0]) != Ok then
      Replay(EntriesOf(records[0]), maxSequence, StatusOf(records[0]))
    else
      var rest := ReplayOf(records[1..], paranoid, Max(maxSequence, LastSequence(records[0])));
      rest.(entries := EntriesOf(records[0]) + rest.entries)
  }

  method ReplayRecords(records: seq<Bytes>, paranoid: bool, start: nat)
    returns (entries: seq<Entry>, maxSequence: nat, status: Status)
    ensures Replay(entries, maxSequence, status) == ReplayOf(records, paranoid, start)
  {
    hide ScanOps, StatusOf, SequenceOf, CountOf, LastSequence, ReplayOf, Numbered, EntriesOf, WriteBatch.Valid;
    entries, maxSequence, status := [], start, Ok;
    var batch := new WriteBatch();
    for i := 0 to |records|
      invariant status == Ok
      invariant ReplayOf(records, paranoid, start) == Before(entries, ReplayOf(records[i..], paranoid, maxSequence))
    {
      var record := records[i];
      FirstRecord(records[i..], paranoid, maxSequence);
      assert records[i..][1..] == records[i + 1..];
      if |record| < BATCH_HEADER {
        if paranoid {
          return entries, maxSequence, Corruption("log record too small");
        }
      } else {
        batch.SetContents(record);
        var seen, verdict := batch.Iterate();
        SeenEntries(record);
        ghost var rest := ReplayOf(records[i + 1..], paranoid, Max(maxSequence, LastSequence(record)));
        assert entries + (EntriesOf(record) + rest.entries) == (entries + EntriesOf(record)) + rest.entries;
        entries := entries + Numbered(SequenceOf(record), seen);
        if paranoid && verdict != Ok {
          return entries, maxSequence, verdict;
        }
        maxSequence := Max(maxSequence, LastSequence(record));
      }
    }
    assert records[|records|..] == [];
    NoRecords(paranoid, maxSequence);
  }

  lemma {:induction false} SeenEntries(rep: Bytes)
    requires |rep| >= BATCH_HEADER
    ensures Numbered(SequenceOf(rep), ScanOps(rep[BATCH_HEADER..]).ops) == EntriesOf(rep)
  {
  }

  lemma {:induction false} NoRecords(paranoid: bool, maxSequence: nat)
    ensures ReplayOf([], paranoid, maxSequence) == Replay([], maxSequence, Ok)
  {
  }

  lemma {:induction false} FirstRecord(records: seq<Bytes>, paranoid: bool, maxSequence: nat)
    requires records != []
    ensures var record, r := records[0], ReplayOf(records, paranoid, maxSequence);
            if |record| < BATCH_HEADER then
              if paranoid then r == Replay([], maxSequence, Corruption("log record too small"))
              else r == ReplayOf(records[1..], paranoid, maxSequence)
            else if paranoid && StatusOf(record) != Ok then
              r == Replay(EntriesOf(record), maxSequence, StatusOf(record))
            else r == Before(EntriesOf(record),
                             ReplayOf(records[1..], paranoid, Max(maxSequence, LastSequence(record))))
  {
    hide StatusOf, EntriesOf, LastSequence;
  }

  function Before(entries: seq<Entry>, r: Replay): Replay {
    r.(entries := entries + r.entries)
  }

  // ----- Records that are not batches

  // A record as replay sees it: none of it, or what could be read.
  function Salvaged(record: Bytes): seq<Entry> {
    if |record| < 12 then [] else EntriesOf(record)
  }

  predicate Fine(record: Bytes) { |record| >= 12 && StatusOf(record) == Ok }

  /** Without paranoid checks replay goes on past a record that is too short or wrong: every other
      record is replayed as if it were not there, and the status is good. */
  lemma {:induction false} ReplayGoesOn(before: seq<Bytes>, record: Bytes, after: seq<Bytes>, start: nat)
    ensures var r, a := ReplayOf(before + [record] + after, false, start), ReplayOf(before, false, start);
            && r.status == Ok && a.status == Ok
            && r.entries == a.entries + Salvaged(record)
                          + ReplayOf(after, false, ReplayOf([record], false, a.maxSequence).maxSequence).entries
    decreases |before|
  {
    hide StatusOf, EntriesOf, LastSequence;
    if before == [] {
      assert (before + [record] + after)[1..] == after;
      ForgivingStatus(after, start);
      assert [record][1..] == [];
      if |record| >= 12 { ForgivingStatus(after, Max(start, LastSequence(record))); }
    } else {
      assert (before + [record] + after)[1..] == before[1..] + [record] + after;
      var start' := if |before[0]| < 12 then start else Max(start, LastSequence(before[0]));
      ReplayGoesOn(before[1..], record, after, start');
    }
  }

  lemma {:induction false} ForgivingStatus(records: seq<Bytes>, start: nat)
    ensures ReplayOf(records, false, start).status == Ok
    decreases |records|
  {
    hide StatusOf, EntriesOf, LastSequence;
    if records != [] {
      ForgivingStatus(records[1..], start);
      if |records[0]| >= 12 { ForgivingStatus(records[1..], Max(start, LastSequence(records[0]))); }
    }
  }

  /** With them it stops at the first such record, with its status, whatever comes after. */
  lemma {:induction false} ReplayStops(before: seq<Bytes>, record: Bytes, after: seq<Bytes>, start: nat)
    requires !Fine(record) && forall i :: 0 <= i < |before| ==> Fine(before[i])
    ensures var r, a := ReplayOf(before + [record] + after, true, start), ReplayOf(before, true, start);
            && r.status == (if |record| < 12 then Corruption("log record too small") else StatusOf(record))
            && r.status != Ok && a.status == Ok
            && r.entries == a.entries + Salvaged(record) && r.maxSequence == a.maxSequence
    decreases |before|
  {
    hide StatusOf, EntriesOf, LastSequence;
    if before != [] {
      assert (before + [record] + after)[1..] == before[1..] + [record] + after;
      assert Fine(before[0]);
      ReplayStops(before[1..], record, after, Max(start, LastSequence(before[0])));
    }
  }

  // ----- Batches

  // A group of writes, logged as one batch.
  datatype Group = Group(base: nat, ops: seq<Mutation>)

  ghost predicate IsBatch(rep: Bytes, g: Group) {
    && |rep| >= BATCH_HEADER && rep[BATCH_HEADER..] == EncodeOps(g.ops) && ShortOps(g.ops)
    && CountOf(rep) == |g.ops| % TWO32 && SequenceOf(rep) == g.base
  }

  ghost predicate AreBatches(records: seq<Bytes>, groups: seq<Group>) {
    |records| == |groups| && forall k :: 0 <= k < |groups| ==> IsBatch(records[k], groups[k])
  }

  // The entries of the groups, one group after the other.
  function Logged(groups: seq<Group>): seq<Entry> {
    if groups == [] then [] else Numbered(groups[0].base, groups[0].ops) + Logged(groups[1..])
  }

  function AllOps(groups: seq<Group>): seq<Mutation> {
    if groups == [] then [] else groups[0].ops + AllOps(groups[1..])
  }

  // The highest last sequence.
  function Highest(groups: seq<Group>, start: nat): nat {
    if groups == [] then start
    else Highest(groups[1..], Max(start, (groups[0].base + |groups[0].ops| % TWO32 - 1) % TWO64))
  }

  lemma {:induction false} BatchIsFine(rep: Bytes, g: Group)
    requires IsBatch(rep, g)
    ensures StatusOf(rep) == Ok && EntriesOf(rep) == Numbered(g.base, g.ops)
  {
    hide ScanOps, EncodeOps, ShortOps, DecodeFixed32, DecodeFixed64;
    OpsRoundTrip(g.ops, []);
    ScanNothing();
    assert EncodeOps(g.ops) + [] == EncodeOps(g.ops) && g.ops + [] == g.ops;
  }

  lemma {:induction false} BatchesReplay(records: seq<Bytes>, groups: seq<Group>, paranoid: bool, start: nat)
    requires AreBatches(records, groups)
    ensures ReplayOf(records, paranoid, start) == Replay(Logged(groups), Highest(groups, start), Ok)
    decreases |groups|
  {
    hide IsBatch, StatusOf, EntriesOf;
    if groups != [] {
      assert IsBatch(records[0], groups[0]);
      BatchIsFine(records[0], groups[0]);
      BatchSize(records[0], groups[0]);
      BatchesReplay(records[1..], groups[1..], paranoid, Max(start, LastSequence(records[0])));
    }
  }

  lemma {:induction false} BatchSize(rep: Bytes, g: Group)
    requires IsBatch(rep, g)
    ensures |rep| >= BATCH_HEADER && LastSequence(rep) == (g.base + |g.ops| % TWO32 - 1) % TWO64
  {
  }

  // ----- Recovering a log

  /** Replaying the first n bytes of a log whose records are batches gives the entries of
      exactly the groups whose records are complete by then: each group whole or not at all. */
  method RecoverLogFile(w: LogFile.Writer, n: nat, paranoid: bool, start: nat, ghost groups: seq<Group>)
    returns (entries: seq<Entry>, maxSequence: nat, status: Status, ghost m: nat)
    requires w.Valid() && n <= |w.dest| && AreBatches(w.records, groups)
    ensures m <= |groups| && (n == |w.dest| ==> m == |groups|)
    ensures forall k :: 0 <= k < |groups| ==> (k < m <==> Inside(w.frags, n, k))
    ensures status == Ok && entries == Logged(groups[..m]) && maxSequence == Highest(groups[..m], start)
  {
    hide IsBatch, ReplayOf, Inside, LogFile.Writer.Valid;
    var records, _ := LogRecovery.Recover(w, n);
    m := |records|;
    BatchesReplay(records, groups[..m], paranoid, start);
    entries, maxSequence, status := ReplayRecords(records, paranoid, start);
  }

  // Groups as writers number them: from 1 on, each after the one before.
  ghost predicate Consecutive(groups: seq<Group>) {
    && (forall k :: 0 <= k < |groups| ==>
          0 < groups[k].base && groups[k].base + |groups[k].ops| <= TWO64 && |groups[k].ops| < TWO32)
    && (forall k :: 0 < k < |groups| ==> groups[k].base == groups[k - 1].base + |groups[k - 1].ops|)
  }

  lemma {:induction false} RestConsecutive(groups: seq<Group>)
    requires Consecutive(groups) && |groups| > 1
    ensures Consecutive(groups[1..]) && groups[1].base == groups[0].base + |groups[0].ops|
  {
    var rest := groups[1..];
    forall k | 0 < k < |rest| ensures rest[k].base == rest[k - 1].base + |rest[k - 1].ops| {
      assert rest[k] == groups[k + 1] && rest[k - 1] == groups[k];
    }
  }

  // Then the entries are one run of sequences.
  lemma {:induction false} LoggedIsRun(groups: seq<Group>)
    requires Consecutive(groups) && groups != []
    ensures Logged(groups) == Numbered(groups[0].base, AllOps(groups))
    decreases |groups|
  {
    hide Consecutive, Numbered;
    var g, rest := groups[0], groups[1..];
    if rest == [] {
      assert g.ops + [] == g.ops && Logged(rest) == [];
    } else {
      RestConsecutive(groups);
      LoggedIsRun(rest);
      NumberedAppend(g.base, g.ops, AllOps(rest));
    }
  }

  // And the highest one is that of the last entry.
  lemma {:induction false} HighestIsLast(groups: seq<Group>, start: nat)
    requires Consecutive(groups) && groups != []
    ensures Highest(groups, start) == Max(start, groups[0].base + |AllOps(groups)| - 1)
    decreases |groups|
  {
    var g, rest := groups[0], groups[1..];
    assert (g.base + |g.ops| % TWO32 - 1) % TWO64 == g.base + |g.ops| - 1;
    if rest != [] {
      RestConsecutive(groups);
      hide Consecutive;
      HighestIsLast(rest, Max(start, g.base + |g.ops| - 1));
    }
  }
}

/**
 Applying a batch to the memtable, when it is written and again when its log record is
 replayed.
 */
module BatchInsert {
  import opened Mvcc
  import opened Coding
  import opened SkipShape
  import opened WriteBatch
  import opened MemTable

  // The operations a batch's bytes hold, numbered from the batch's sequence.
  function EntriesOf(rep: Bytes): seq<Entry>
    requires |rep| >= BATCH_HEADER
  {
    Numbered(SequenceOf(rep), ScanOps(rep[BATCH_HEADER..]).ops)
  }

  ghost predicate AddressesOk(mem: MemTable, addresses: seq<nat>)
    reads mem, mem.table
  {
    && (forall i, j :: 0 <= i < j < |addresses| ==> addresses[i] != addresses[j])
    && (forall i :: 0 <= i < |addresses| ==> addresses[i] !in mem.table.next && addresses[i] !in mem.table.keys)
  }

  // The states that the list has gone through from `first` on, and the entries in each of them.
  ghost predicate Recorded(mem: MemTable, states: seq<Shape<Bytes>>, contents: seq<set<Entry>>,
                           first: Shape<Bytes>, was: set<Entry>)
    reads mem, mem.table
  {
    && |contents| == |states| > 0 && Growth(mem.table.lt, states, contents)
    && states[0] == first && states[|states| - 1] == mem.table.Now()
    && contents[0] == was && forall k :: 0 <= k < |contents| ==> contents[k] <= mem.entries
  }

  // One insertion more.
  method AddNext(mem: MemTable, e: Entry, height: nat, x: nat, ghost states: seq<Shape<Bytes>>,
                 ghost contents: seq<set<Entry>>, ghost first: Shape<Bytes>, ghost was: set<Entry>)
    returns (ghost states': seq<Shape<Bytes>>, ghost contents': seq<set<Entry>>)
    requires mem.Valid() && EntryOk(e) && Recorded(mem, states, contents, first, was)
    requires forall f :: f in mem.entries && f.Key() == e.Key() ==> f.sequence != e.sequence
    requires 1 <= height <= MAX_HEIGHT && x !in mem.table.next && x !in mem.table.keys
    modifies mem, mem.table
    ensures mem.Valid() && mem.entries == old(mem.entries) + {e}
    ensures mem.table.next.Keys == old(mem.table.next).Keys + {x}
    ensures mem.table.keys.Keys == old(mem.table.keys).Keys + {x}
    ensures Recorded(mem, states', contents', first, was)
  {
    hide EntryOk, Growth, MemTable.Valid;
    ghost var more, moreContents;
    more, moreContents := mem.Add(e, height, x);
    GrowthsJoin(mem.table.lt, states, contents, more, moreContents);
    GrowthSize(mem.table.lt, more, moreContents);
    states', contents' := states + more, contents + moreContents;
  }

  lemma {:induction false} GrowthSize(lt: Order<Bytes>, states: seq<Shape<Bytes>>, contents: seq<set<Entry>>)
    requires Growth(lt, states, contents)
    ensures |contents| == |states|
  {
  }

  // Inserts a batch's operations under consecutive sequences, and reports what Iterate does.
  // Heights and addresses of the new nodes are choices made elsewhere.
  method InsertInto(b: WriteBatch, mem: MemTable, heights: seq<nat>, addresses: seq<nat>)
    returns (status: Status, ghost states: seq<Shape<Bytes>>, ghost contents: seq<set<Entry>>)
    requires mem.Valid() && |b.rep| >= BATCH_HEADER
    requires forall e :: e in EntriesOf(b.rep) ==> EntryOk(e)
    requires forall f :: f in mem.entries ==> f.sequence < SequenceOf(b.rep)
    requires |heights| == |addresses| == |EntriesOf(b.rep)| && AddressesOk(mem, addresses)
    requires forall i :: 0 <= i < |heights| ==> 1 <= heights[i] <= MAX_HEIGHT
    modifies mem, mem.table
    ensures mem.Valid() && status == StatusOf(b.rep)
    ensures mem.entries == old(mem.entries) + Elements(EntriesOf(b.rep))
    ensures old(b.Valid()) && ShortOps(old(b.ops)) ==>
              status == Ok && mem.entries == old(mem.entries) + Elements(Numbered(SequenceOf(b.rep), old(b.ops)))
    ensures Recorded(mem, states, contents, old(mem.table.Now()), old(mem.entries))
  {
    hide ScanOps, StatusOf, DecodeFixed64, EntryOk, Recorded;
    ghost var was := mem.entries;
    var seen;
    seen, status := b.Iterate();
    var base := SequenceOf(b.rep);
    ghost var entries := EntriesOf(b.rep);
    assert was + Elements(entries[..0]) == was;
    states, contents := [mem.table.Now()], [was];
    StartHere(mem);
    for i := 0 to |seen|
      invariant mem.Valid() && mem.entries == was + Elements(entries[..i])
      invariant forall j :: i <= j < |addresses| ==> addresses[j] !in mem.table.next && addresses[j] !in mem.table.keys
      invariant Recorded(mem, states, contents, old(mem.table.Now()), was)
    {
      var e := Entry(base + i, seen[i]);
      assert entries[i] == e && e in entries;
      forall f | f in mem.entries ensures f.sequence != e.sequence {
        if f !in was {
          var j :| 0 <= j < i && entries[..i][j] == f;
        }
      }
      states, contents := AddNext(mem, e, heights[i], addresses[i], states, contents, old(mem.table.Now()), was);
      assert entries[..i + 1] == entries[..i] + [e];
      assert Elements(entries[..i + 1]) == Elements(entries[..i]) + {e};
    }
    assert entries[..|seen|] == entries;
  }

  lemma {:induction false} StartHere(mem: MemTable)
    requires mem.Valid()
    ensures Recorded(mem, [mem.table.Now()], [mem.entries], mem.table.Now(), mem.entries)
  {
    hide Contents, EntriesOk;
    GrowthStart(mem.table.lt, mem.table.Now(), mem.entries);
  }

  /** A lookup whose loads happen at any moments while a batch above its snapshot is inserted
      answers from the entries that were there before the batch. */
  lemma {:induction false} GetBesideInsert(less: Less, lt: Order<Bytes>, states: seq<Shape<Bytes>>,
                                           contents: seq<set<Entry>>, rep: Bytes, times: seq<nat>,
                                           r: Search<Bytes>, key: Key, snapshot: nat)
    requires StrictTotalOrder(less) && forall a, b :: lt(a, b) == BufferLess(less, a, b)
    requires |rep| >= BATCH_HEADER && snapshot < SequenceOf(rep)
    requires Growth(lt, states, contents) && |times| > 0 && Moments(times, |states|)
    requires forall k :: 0 <= k < |contents| ==> contents[k] <= contents[0] + Elements(EntriesOf(rep))
    requires snapshot <= MAX_SEQUENCE && |key| + 8 < TWO32
    requires SearchOk(lt, states[times[0]], r) && r.key == MemtableKey(key, snapshot)
    ensures var loads := SeenAt(states, times);
            var a := Answered(lt, loads, r);
            a.Reply? ==>
              && a.load < |loads|
              && AnswerAt(loads[a.load].keys, a.node, key) == AnswerOf(Probe(contents[0], key, snapshot))
  {
    hide WellFormed, Extends, BufferLess, SearchOk, MemtableKey, Answered, Contents, EncodeEntry, AnswerAt, Probe,
      DecodeFixed64, ScanOps;
    var k := times[0];
    assert forall e :: e in Elements(EntriesOf(rep)) ==> e.sequence > snapshot;
    assert Extends(states[0], states[k]);
    assert HoldsEntries(states[0], contents[0]) && HoldsEntries(states[k], contents[k]);
    EntriesStay(states[0], states[k], contents[0], contents[k]);
    var later := contents[k] - contents[0];
    assert contents[k] == contents[0] + later;
    ProbeIgnoresLater(contents[0], later, key, snapshot);
    ConcurrentGet(less, lt, states, contents, times, r, key, snapshot);
  }

  // Replaying the log record of a batch adds the entries that were written, if and only if their
  // keys and values have lengths that fit 32 bits.
  lemma {:induction false} ReplayRebuilds(rep: Bytes, ops: seq<Mutation>)
    requires |rep| >= BATCH_HEADER && rep[BATCH_HEADER..] == EncodeOps(ops)
    ensures EntriesOf(rep) == Numbered(SequenceOf(rep), ops) <==> ShortOps(ops)
  {
    hide ScanOps, EncodeOps, DecodeFixed64, ShortOps;
    var read := ScanOps(rep[BATCH_HEADER..]).ops;
    ScannedShort(rep[BATCH_HEADER..]);
    if ShortOps(ops) {
      OpsRoundTrip(ops, []);
      assert EncodeOps(ops) + [] == EncodeOps(ops);
      assert ScanOps([]).ops == [] by { ScanNothing(); }
      assert ops + [] == ops;
    }
    if Numbered(SequenceOf(rep), read) == Numbered(SequenceOf(rep), ops) {
      SameOps(SequenceOf(rep), read, ops);
    }
  }

  lemma {:induction false} SameOps(base: nat, a: seq<Mutation>, b: seq<Mutation>)
    requires Numbered(base, a) == Numbered(base, b)
    ensures a == b
  {
    forall i | 0 <= i < |a| ensures a[i] == b[i] {
      assert Numbered(base, a)[i].op == Numbered(base, b)[i].op;
    }
  }

  lemma {:induction false} ScanNothing()
    ensures ScanOps([]) == Scan([], None)
  {
  }
}

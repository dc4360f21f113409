/**
 The multi-version data model of the storage engine: entries
 `(user key, sequence, type) -> value`, the internal key order, and the one read
 specification, `Lookup`, against which compaction, the iterator, the memtable
 and the whole engine are judged.
 */
module Mvcc {

  datatype Option<+T> = None | Some(value: T)

  type Byte = x: int | 0 <= x < 256
  type Bytes = seq<Byte>
  type Key = Bytes

  // One bound of the 56-bit sequence space (dbformat.h); also the "no previous
  // entry" sentinel of the compaction loop.
  const MAX_SEQUENCE: nat := 0xFF_FFFF_FFFF_FFFF

  // One operation of a write batch.
  datatype Mutation = Put(key: Key, value: Bytes) | Delete(key: Key)

  datatype Entry = Entry(sequence: nat, op: Mutation) {
    function Key(): Key { op.key }
  }

  // InsertInto: the batch's operations take consecutive sequences.
  function Numbered(base: nat, ops: seq<Mutation>): (entries: seq<Entry>)
    ensures |entries| == |ops|
  {
    seq(|ops|, i requires 0 <= i < |ops| => Entry(base + i, ops[i]))
  }

  lemma {:induction false} NumberedAppend(base: nat, a: seq<Mutation>, b: seq<Mutation>)
    ensures Numbered(base, a + b) == Numbered(base, a) + Numbered(base + |a|, b)
  {
  }

  // The user comparator, as its "less than" relation. Keys that compare equal are equal.
  type Less = (Key, Key) -> bool

  ghost predicate StrictTotalOrder(less: Less) {
    && (forall a :: !less(a, a))
    && (forall a, b :: less(a, b) ==> !less(b, a))
    && (forall a, b :: a == b || less(a, b) || less(b, a))
    && (forall a, b, c :: less(a, b) && less(b, c) ==> less(a, c))
  }

  // The internal key order: user key ascending, then sequence descending.
  predicate Before(less: Less, a: Entry, b: Entry) {
    less(a.Key(), b.Key()) || (a.Key() == b.Key() && a.sequence > b.sequence)
  }

  ghost predicate Sorted(less: Less, run: seq<Entry>) {
    forall i, j :: 0 <= i < j < |run| ==> Before(less, run[i], run[j])
  }

  function Elements(run: seq<Entry>): set<Entry> {
    set e | e in run
  }

  // No two entries share a user key and a sequence number.
  ghost predicate Distinct(s: set<Entry>) {
    forall e, f :: e in s && f in s && e.Key() == f.Key() && e.sequence == f.sequence ==> e == f
  }

  // ----- The read specification

  ghost predicate Sees(s: set<Entry>, key: Key, snapshot: nat, e: Entry) {
    e in s && e.Key() == key && e.sequence <= snapshot
  }

  // `e` is the newest entry for `key` that a reader at `snapshot` may see.
  ghost predicate Newest(s: set<Entry>, key: Key, snapshot: nat, e: Entry) {
    && Sees(s, key, snapshot, e)
    && forall f :: Sees(s, key, snapshot, f) ==> f.sequence <= e.sequence
  }

  ghost function Probe(s: set<Entry>, key: Key, snapshot: nat): Option<Entry> {
    if exists e :: Newest(s, key, snapshot, e)
    then var e :| Newest(s, key, snapshot, e); Some(e)
    else None
  }

  // A deletion answers "not found".
  function Answer(e: Option<Entry>): Option<Bytes> {
    if e.Some? && e.value.op.Put? then Some(e.value.op.value) else None
  }

  ghost function Lookup(s: set<Entry>, key: Key, snapshot: nat): Option<Bytes> {
    Answer(Probe(s, key, snapshot))
  }

  // Both stores answer every read at a snapshot of `floor` or later alike.
  ghost predicate SameReads(s: set<Entry>, t: set<Entry>, floor: nat) {
    forall key, snapshot: nat :: floor <= snapshot ==> Lookup(s, key, snapshot) == Lookup(t, key, snapshot)
  }

  // ----- Properties of the read specification

  lemma {:induction false} NewestExists(s: set<Entry>, key: Key, snapshot: nat, e: Entry)
    requires Sees(s, key, snapshot, e)
    ensures exists m :: Newest(s, key, snapshot, m)
    decreases |s|
  {
    if f :| Sees(s, key, snapshot, f) && e.sequence < f.sequence {
      NewestExists(s - {e}, key, snapshot, f);
      var m :| Newest(s - {e}, key, snapshot, m);
      assert Sees(s - {e}, key, snapshot, f);
      forall g | Sees(s, key, snapshot, g) ensures g.sequence <= m.sequence {
        assert g == e || Sees(s - {e}, key, snapshot, g);
      }
      assert Newest(s, key, snapshot, m);
    } else {
      assert Newest(s, key, snapshot, e);
    }
  }

  // The probe finds nothing exactly when nothing is visible, and otherwise
  // finds the one newest entry.
  lemma {:induction false} ProbeIsNewest(s: set<Entry>, key: Key, snapshot: nat)
    requires Distinct(s)
    ensures Probe(s, key, snapshot).None? <==> forall e :: !Sees(s, key, snapshot, e)
    ensures forall e :: Probe(s, key, snapshot) == Some(e) <==> Newest(s, key, snapshot, e)
  {
    if e :| Sees(s, key, snapshot, e) {
      NewestExists(s, key, snapshot, e);
    }
  }

  // Layers: when every entry of `newer` for the key is younger than every entry of `older`,
  // probing `newer` first and `older` only on a miss reads the union.
  lemma {:induction false} ProbeLayers(newer: set<Entry>, older: set<Entry>, key: Key, snapshot: nat)
    requires Distinct(newer + older)
    requires forall e, f :: e in newer && f in older && e.Key() == key && f.Key() == key ==> f.sequence < e.sequence
    ensures Probe(newer + older, key, snapshot)
         == if Probe(newer, key, snapshot).Some? then Probe(newer, key, snapshot) else Probe(older, key, snapshot)
  {
    ProbeIsNewest(newer, key, snapshot);
    ProbeIsNewest(older, key, snapshot);
    ProbeIsNewest(newer + older, key, snapshot);
    var n, o := Probe(newer, key, snapshot), Probe(older, key, snapshot);
    if n.Some? {
      assert Newest(newer + older, key, snapshot, n.value);
    } else if o.Some? {
      assert Newest(newer + older, key, snapshot, o.value);
    }
  }

  // Entries with a later sequence than the snapshot do not change the probe.
  lemma {:induction false} ProbeIgnoresLater(s: set<Entry>, later: set<Entry>, key: Key, snapshot: nat)
    requires Distinct(s + later)
    requires forall e :: e in later && e.Key() == key ==> e.sequence > snapshot
    ensures Probe(s + later, key, snapshot) == Probe(s, key, snapshot)
  {
    ProbeIsNewest(s, key, snapshot);
    ProbeIsNewest(s + later, key, snapshot);
    assert forall e :: Sees(s + later, key, snapshot, e) <==> Sees(s, key, snapshot, e);
    var p := Probe(s, key, snapshot);
    if p.Some? {
      assert Newest(s + later, key, snapshot, p.value);
    }
  }
}

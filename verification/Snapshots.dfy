/**
 The list of live snapshots: a ring of nodes around a head, oldest first.
 */
module Snapshots {

  class Snapshot {
    const sequence: nat
    var prev: Snapshot?
    var next: Snapshot?

    constructor (sequence: nat)
      ensures this.sequence == sequence
    {
      this.sequence := sequence;
      prev, next := null, null;
    }
  }

  // Position after and before i on a ring of n.
  function After(i: nat, n: nat): nat {
    if i + 1 < n then i + 1 else 0
  }

  // Neighbours on the ring point at each other.
  ghost predicate Joined(ring: seq<Snapshot>, i: nat)
    requires i < |ring|
    reads ring
  {
    ring[i].next == ring[After(i, |ring|)] && ring[After(i, |ring|)].prev == ring[i]
  }

  ghost predicate Distinct(ring: seq<Snapshot>) {
    forall i, j :: 0 <= i < j < |ring| ==> ring[i] != ring[j]
  }

  function Without(s: seq<Snapshot>, i: nat): seq<Snapshot>
    requires i < |s|
  {
    s[..i] + s[i + 1..]
  }

  lemma {:induction false} WithoutOne(ring: seq<Snapshot>, i: nat)
    requires Distinct(ring) && i < |ring|
    ensures Distinct(Without(ring, i)) && ring[i] !in Without(ring, i) && |Without(ring, i)| == |ring| - 1
    ensures forall k :: 0 <= k < |ring| - 1 ==> Without(ring, i)[k] == ring[if k < i then k else k + 1]
    ensures Ordered(ring) ==> Ordered(Without(ring, i))
  {
    var r := Without(ring, i);
    assert forall k :: 0 <= k < |ring| - 1 ==> r[k] == ring[if k < i then k else k + 1];
  }

  lemma {:induction false} DistinctAt(ring: seq<Snapshot>, i: nat, j: nat)
    requires Distinct(ring) && i < |ring| && j < |ring| && i != j
    ensures ring[i] != ring[j]
  {
  }

  // A ring of distinct nodes.
  ghost predicate RingOk(ring: seq<Snapshot>)
    reads ring
  {
    && Distinct(ring)
    && (forall i :: 0 <= i < |ring| ==> Joined(ring, i))
  }

  ghost predicate Ordered(list: seq<Snapshot>) {
    forall i, j :: 0 <= i < j < |list| ==> list[i].sequence <= list[j].sequence
  }

  class SnapshotList {
    const head: Snapshot
    ghost var list: seq<Snapshot>

    ghost function Ring(): seq<Snapshot>
      reads this
    {
      [head] + list
    }

    ghost predicate Valid()
      reads this, Ring()
    {
      RingOk(Ring()) && Ordered(list)
    }

    constructor ()
      ensures Valid() && list == [] && fresh(head)
    {
      head := new Snapshot(0);
      list := [];
      new;
      head.prev := head;
      head.next := head;
    }

    method IsEmpty() returns (empty: bool)
      requires Valid()
      ensures empty <==> list == []
    {
      assert Joined(Ring(), 0);
      empty := head.next == head;
    }

    // The snapshot with the lowest sequence.
    method Oldest() returns (s: Snapshot)
      requires Valid() && list != []
      ensures s == list[0] && forall t :: t in list ==> s.sequence <= t.sequence
    {
      assert Joined(Ring(), 0);
      s := head.next;
    }

    method Newest() returns (s: Snapshot)
      requires Valid() && list != []
      ensures s == list[|list| - 1] && forall t :: t in list ==> t.sequence <= s.sequence
    {
      assert Joined(Ring(), |list|);
      s := head.prev;
    }

    // A new snapshot goes to the end; its sequence must not be below the newest one's.
    method New(sequence: nat) returns (s: Snapshot)
      requires Valid() && forall t :: t in list ==> t.sequence <= sequence
      modifies this, Ring()
      ensures Valid() && fresh(s) && s.sequence == sequence && list == old(list) + [s]
    {
      ghost var ring := Ring();
      assert Joined(ring, |list|);
      s := new Snapshot(sequence);
      s.next := head;
      s.prev := head.prev;
      s.prev.next := s;
      s.next.prev := s;
      list := list + [s];
      ghost var ring' := Ring();
      assert ring' == ring + [s];
      forall i | 0 <= i < |ring'| ensures Joined(ring', i) {
        if i < |ring| { assert old(Joined(ring, i)); }
      }
    }

    // Takes a snapshot out of the ring.
    method Delete(s: Snapshot)
      requires Valid() && s in list
      modifies this, Ring()
      ensures Valid() && s !in list
      ensures exists i :: 0 <= i < |old(list)| && old(list)[i] == s && list == Without(old(list), i)
    {
      hide Ordered, Without;
      ghost var ring := Ring();
      ghost var i :| 0 <= i < |list| && list[i] == s;
      WithoutOne(ring, i + 1);
      TailOf(head, list, i);
      assert ring[i + 1] == s && ring[i] != s;
      assert Joined(ring, i) && Joined(ring, i + 1);
      hide Distinct;
      s.prev.next := s.next;
      s.next.prev := s.prev;
      list := Without(list, i);
      ghost var ring' := Ring();
      forall k | 0 <= k < |ring'| ensures Joined(ring', k) {
        ghost var j := if k <= i then k else k + 1;
        assert old(Joined(ring, j));
        if j != i { DistinctAt(ring, j, i); }
        DistinctAt(ring, After(j, |ring|), After(i + 1, |ring|));
      }
    }
  }

  lemma {:induction false} TailOf(head: Snapshot, list: seq<Snapshot>, i: nat)
    requires i < |list| && Distinct([head] + list) && Ordered(list)
    ensures Without([head] + list, i + 1) == [head] + Without(list, i) && Ordered(Without(list, i))
            && list[i] !in Without(list, i)
  {
    var ring := [head] + list;
    forall a, b | 0 <= a < b < |list| ensures list[a] != list[b] {
      assert ring[a + 1] != ring[b + 1];
    }
    WithoutOne(list, i);
  }
}

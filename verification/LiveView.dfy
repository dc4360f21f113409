/**
 What an iterator over the database should show: from the sorted internal entries, the list
 of live user entries at one sequence number.
 */
module LiveView {
  import opened Mvcc

  predicate Visible(entries: seq<Entry>, sequence: nat, i: nat)
    requires i < |entries|
  {
    entries[i].sequence <= sequence
  }

  // Entry i carries the newest version of its user key that a reader at `sequence` may see,
  // and it is not a deletion.
  predicate IsLive(entries: seq<Entry>, sequence: nat, i: nat)
    requires i < |entries|
  {
    && Visible(entries, sequence, i) && entries[i].op.Put?
    && forall j :: 0 <= j < i && entries[j].Key() == entries[i].Key() ==> !Visible(entries, sequence, j)
  }

  lemma {:induction false} LiveIsVisible(entries: seq<Entry>, sequence: nat)
    ensures forall i :: 0 <= i < |entries| && IsLive(entries, sequence, i) ==> Visible(entries, sequence, i)
  {
  }

  // The live entries among the first n, by position.
  function Live(entries: seq<Entry>, sequence: nat, n: nat): (live: seq<nat>)
    requires n <= |entries|
    ensures forall p :: 0 <= p < |live| ==> live[p] < n && IsLive(entries, sequence, live[p])
    ensures forall p, q :: 0 <= p < q < |live| ==> live[p] < live[q]
  {
    if n == 0 then []
    else Live(entries, sequence, n - 1) + if IsLive(entries, sequence, n - 1) then [n - 1] else []
  }

  // The user's view: the live (key, value) pairs in key order.
  function Pairs(entries: seq<Entry>, sequence: nat): (pairs: seq<(Key, Bytes)>)
    ensures |pairs| == |Live(entries, sequence, |entries|)|
  {
    var live := Live(entries, sequence, |entries|);
    seq(|live|, p requires 0 <= p < |live| => (entries[live[p]].Key(), entries[live[p]].op.value))
  }

  // The position of entry i in the list of live entries.
  function Rank(entries: seq<Entry>, sequence: nat, i: nat): nat
    requires i <= |entries|
  {
    |Live(entries, sequence, i)|
  }

  lemma {:induction false} LivePrefix(entries: seq<Entry>, sequence: nat, i: nat, k: nat)
    requires i <= k <= |entries|
    ensures Live(entries, sequence, i) <= Live(entries, sequence, k)
    ensures (forall j :: i <= j < k ==> !IsLive(entries, sequence, j)) ==>
              Rank(entries, sequence, k) == Rank(entries, sequence, i)
    decreases k - i
  {
    if i < k { LivePrefix(entries, sequence, i, k - 1); }
  }

  lemma {:induction false} RankOf(entries: seq<Entry>, sequence: nat, i: nat)
    requires i < |entries| && IsLive(entries, sequence, i)
    ensures Rank(entries, sequence, i) < Rank(entries, sequence, |entries|)
    ensures Live(entries, sequence, |entries|)[Rank(entries, sequence, i)] == i
    ensures Pairs(entries, sequence)[Rank(entries, sequence, i)] == (entries[i].Key(), entries[i].op.value)
  {
    LivePrefix(entries, sequence, i + 1, |entries|);
  }

  // Two neighbouring live entries are one position apart.
  lemma {:induction false} RankNext(entries: seq<Entry>, sequence: nat, i: nat, k: nat)
    requires i < k <= |entries| && IsLive(entries, sequence, i)
    requires forall j :: i < j < k ==> !IsLive(entries, sequence, j)
    ensures Rank(entries, sequence, k) == Rank(entries, sequence, i) + 1
  {
    LivePrefix(entries, sequence, i + 1, k);
  }

  // ----- The view is the read specification

  // Keys of the view are strictly increasing.
  lemma {:induction false} PairsSorted(less: Less, entries: seq<Entry>, sequence: nat)
    requires StrictTotalOrder(less) && Sorted(less, entries)
    ensures var pairs := Pairs(entries, sequence);
            forall p, q :: 0 <= p < q < |pairs| ==> less(pairs[p].0, pairs[q].0)
  {
    var live, pairs := Live(entries, sequence, |entries|), Pairs(entries, sequence);
    forall p, q | 0 <= p < q < |pairs| ensures less(pairs[p].0, pairs[q].0) {
      assert Before(less, entries[live[p]], entries[live[q]]);
      assert IsLive(entries, sequence, live[q]);
    }
  }

  // In a sorted run, the newest visible entry of a key is the first visible one.
  lemma {:induction false} FirstVisibleIsNewest(less: Less, entries: seq<Entry>, sequence: nat, i: nat)
    requires StrictTotalOrder(less) && Sorted(less, entries)
    requires i < |entries| && Visible(entries, sequence, i)
    ensures (forall j :: 0 <= j < i && entries[j].Key() == entries[i].Key() ==> !Visible(entries, sequence, j))
       <==> Newest(Elements(entries), entries[i].Key(), sequence, entries[i])
  {
    var s, e := Elements(entries), entries[i];
    forall j | 0 <= j < |entries| && j != i && entries[j].Key() == e.Key()
      ensures j < i <==> e.sequence < entries[j].sequence
    {
      assert if j < i then Before(less, entries[j], e) else Before(less, e, entries[j]);
    }
    if forall j :: 0 <= j < i && entries[j].Key() == e.Key() ==> !Visible(entries, sequence, j) {
      forall f | Sees(s, e.Key(), sequence, f) ensures f.sequence <= e.sequence {
        var j :| 0 <= j < |entries| && entries[j] == f;
      }
    }
    forall j | Newest(s, e.Key(), sequence, e) && 0 <= j < i && entries[j].Key() == e.Key()
      ensures !Visible(entries, sequence, j)
    {
      assert Visible(entries, sequence, j) ==> Sees(s, e.Key(), sequence, entries[j]);
    }
  }

  lemma {:induction false} SortedDistinct(less: Less, entries: seq<Entry>)
    requires StrictTotalOrder(less) && Sorted(less, entries)
    ensures Distinct(Elements(entries))
  {
    forall e, f | e in entries && f in entries && e.Key() == f.Key() && e.sequence == f.sequence ensures e == f {
      var i :| 0 <= i < |entries| && entries[i] == e;
      var j :| 0 <= j < |entries| && entries[j] == f;
      assert i < j ==> Before(less, e, f);
      assert j < i ==> Before(less, f, e);
    }
  }

  /** A key and a value are in the view exactly when a lookup of the key at that sequence
      number finds that value. */
  lemma {:induction false} PairsAreLookups(less: Less, entries: seq<Entry>, sequence: nat, key: Key, value: Bytes)
    requires StrictTotalOrder(less) && Sorted(less, entries)
    ensures (key, value) in Pairs(entries, sequence) <==> Lookup(Elements(entries), key, sequence) == Some(value)
  {
    var s := Elements(entries);
    SortedDistinct(less, entries);
    ProbeIsNewest(s, key, sequence);
    if (key, value) in Pairs(entries, sequence) {
      var p :| 0 <= p < |Pairs(entries, sequence)| && Pairs(entries, sequence)[p] == (key, value);
      var i := Live(entries, sequence, |entries|)[p];
      assert IsLive(entries, sequence, i);
      FirstVisibleIsNewest(less, entries, sequence, i);
    }
    if Lookup(s, key, sequence) == Some(value) {
      var e := Probe(s, key, sequence).value;
      assert Newest(s, key, sequence, e);
      var i :| 0 <= i < |entries| && entries[i] == e;
      FirstVisibleIsNewest(less, entries, sequence, i);
      RankOf(entries, sequence, i);
    }
  }

  // ----- Entries that come later

  // A run that has been inserted into, above the sequence number only.
  ghost predicate Grown(run: seq<Entry>, entries: seq<Entry>, sequence: nat) {
    && (forall e :: e in run ==> e in entries)
    && (forall e :: e in entries && e !in run ==> e.sequence > sequence)
  }

  lemma {:induction false} Inhabited<T>(b: seq<T>)
    ensures b == [] || exists x :: x in b
  {
    if b != [] { assert b[0] in b; }
  }

  // Two sequences of pairs with strictly increasing keys and the same pairs are one.
  lemma {:induction false} SamePairs(less: Less, a: seq<(Key, Bytes)>, b: seq<(Key, Bytes)>)
    requires StrictTotalOrder(less)
    requires forall p, q :: 0 <= p < q < |a| ==> less(a[p].0, a[q].0)
    requires forall p, q :: 0 <= p < q < |b| ==> less(b[p].0, b[q].0)
    requires forall x :: x in a <==> x in b
    ensures a == b
    decreases |a|
  {
    Inhabited(b);
    if a != [] {
      assert a[0] in b && b != [];
      assert b[0] in a;
      var i :| 0 <= i < |b| && b[i] == a[0];
      var j :| 0 <= j < |a| && a[j] == b[0];
      assert a[0] == b[0];
      forall x ensures x in a[1..] <==> x in b[1..] {
        assert x in a[1..] <==> x in a && x != a[0] by { NotFirst(less, a, x); }
        assert x in b[1..] <==> x in b && x != b[0] by { NotFirst(less, b, x); }
      }
      SamePairs(less, a[1..], b[1..]);
    }
  }

  lemma {:induction false} NotFirst(less: Less, a: seq<(Key, Bytes)>, x: (Key, Bytes))
    requires StrictTotalOrder(less) && a != []
    requires forall p, q :: 0 <= p < q < |a| ==> less(a[p].0, a[q].0)
    ensures x in a[1..] <==> x in a && x != a[0]
  {
    if x in a[1..] {
      var i :| 0 <= i < |a[1..]| && a[1..][i] == x;
      assert a[i + 1] == x && less(a[0].0, a[i + 1].0);
    }
    if x in a && x != a[0] {
      var i :| 0 <= i < |a| && a[i] == x;
      assert a[1..][i - 1] == x;
    }
  }

  /** Insertions above a sequence number change nothing in the view at it. */
  lemma {:induction false} LaterUnseen(less: Less, run: seq<Entry>, entries: seq<Entry>, sequence: nat)
    requires StrictTotalOrder(less) && Sorted(less, run) && Sorted(less, entries) && Grown(run, entries, sequence)
    ensures Pairs(entries, sequence) == Pairs(run, sequence)
  {
    hide Pairs, Sorted, StrictTotalOrder, Lookup;
    PairsSorted(less, run, sequence);
    PairsSorted(less, entries, sequence);
    var s, all := Elements(run), Elements(entries);
    SortedDistinct(less, entries);
    forall x: (Key, Bytes) ensures x in Pairs(run, sequence) <==> x in Pairs(entries, sequence) {
      PairsAreLookups(less, run, sequence, x.0, x.1);
      PairsAreLookups(less, entries, sequence, x.0, x.1);
      assert s + (all - s) == all;
      LookupIgnoresLater(s, all - s, x.0, sequence);
    }
    SamePairs(less, Pairs(run, sequence), Pairs(entries, sequence));
  }

  lemma {:induction false} LookupIgnoresLater(s: set<Entry>, later: set<Entry>, key: Key, sequence: nat)
    requires Distinct(s + later) && forall e :: e in later ==> e.sequence > sequence
    ensures Lookup(s + later, key, sequence) == Lookup(s, key, sequence)
  {
    ProbeIgnoresLater(s, later, key, sequence);
  }
}

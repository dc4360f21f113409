/**
 The database iterator (`DBIter`): a cursor that moves both ways over internal entries and
 must look like a cursor over the live user entries.
 */
module DbIter {
  import opened Mvcc
  import opened LiveView

  // The contract of the merged internal iterator: a position in a sorted run of internal
  // entries. The memtable under it grows while it is used: `entries` has all that are there or
  // will be inserted in the iterator's life, `there` those inserted so far. What is not there
  // yet is above `sequence`. A position outside the run is invalid.
  class InternalIterator {
    const less: Less
    const entries: seq<Entry>
    const sequence: nat
    var there: set<Entry>
    var at: int

    constructor (less: Less, run: seq<Entry>, entries: seq<Entry>, sequence: nat)
      requires Grown(run, entries, sequence)
      ensures Ok() && there == Elements(run) && at == -1
      ensures this.less == less && this.entries == entries && this.sequence == sequence
    {
      this.less, this.entries, this.sequence, there, at := less, entries, sequence, Elements(run), -1;
    }

    ghost predicate Ok()
      reads this
    {
      && -1 <= at < |entries| && (at >= 0 ==> entries[at] in there)
      && forall i :: 0 <= i < |entries| && entries[i] !in there ==> !Visible(entries, sequence, i)
    }

    predicate Valid() reads this { 0 <= at < |entries| }

    // No entry from lo up to hi is there.
    ghost predicate Absent(lo: int, hi: int)
      reads this
    {
      forall i :: lo <= i < hi && 0 <= i < |entries| ==> entries[i] !in there
    }

    // No entry from lo up to hi can be seen.
    ghost predicate Unseen(lo: int, hi: int) {
      forall i :: lo <= i < hi && 0 <= i < |entries| ==> !Visible(entries, sequence, i)
    }

    // Where the position is, with the end of the run for an invalid one.
    function Position(): nat
      reads this
    {
      if Valid() then at else |entries|
    }

    // The writer may insert anything between two steps.
    method Insertions()
      requires Ok()
      modifies `there
      ensures Ok() && old(there) <= there
    {
      var inserted: set<Entry> :| inserted <= Elements(entries);
      there := there + inserted;
    }

    method Next()
      requires Ok() && Valid()
      modifies `there, `at
      ensures Ok() && old(there) <= there
      ensures old(at) < Position() && Absent(old(at) + 1, Position()) && Unseen(old(at) + 1, Position())
    {
      Insertions();
      Upward(at + 1);
    }

    method Prev()
      requires Ok() && Valid()
      modifies `there, `at
      ensures Ok() && old(there) <= there
      ensures at < old(at) && Absent(at + 1, old(at)) && Unseen(at + 1, old(at))
    {
      Insertions();
      Downward(at - 1);
    }

    method SeekToFirst()
      requires Ok()
      modifies `there, `at
      ensures Ok() && old(there) <= there && Absent(0, Position()) && Unseen(0, Position())
    {
      Insertions();
      Upward(0);
    }

    method SeekToLast()
      requires Ok()
      modifies `there, `at
      ensures Ok() && old(there) <= there && Absent(at + 1, |entries|) && Unseen(at + 1, |entries|)
    {
      Insertions();
      Downward(|entries| - 1);
    }

    // The first entry not before the internal key (target, sequence, kValueTypeForSeek):
    // at equal sequence the packed type never exceeds the seek type.
    method Seek(target: Key, sequence: nat)
      requires Ok()
      modifies `there, `at
      ensures Ok() && old(there) <= there
      ensures forall i :: 0 <= i < Position() ==> Below(entries[i], target, sequence) || entries[i] !in there
      ensures Valid() ==> !Below(entries[at], target, sequence)
    {
      Insertions();
      at := 0;
      while at < |entries| && (entries[at] !in there || Below(entries[at], target, sequence))
        modifies `at
        invariant 0 <= at <= |entries|
        invariant forall i :: 0 <= i < at ==> Below(entries[i], target, sequence) || entries[i] !in there
      {
        at := at + 1;
      }
      if at == |entries| {
        at := -1;
      }
    }

    predicate Below(e: Entry, target: Key, sequence: nat) {
      less(e.Key(), target) || (e.Key() == target && e.sequence > sequence)
    }

    // The first entry from a position on, or the last one down from it.
    method Upward(from: nat)
      requires Ok() && from <= |entries|
      modifies `at
      ensures Ok() && from <= Position() && Absent(from, Position())
    {
      at := from;
      while at < |entries| && entries[at] !in there
        invariant from <= at <= |entries| && Absent(from, at)
      {
        at := at + 1;
      }
      if at == |entries| {
        at := -1;
      }
    }

    method Downward(from: int)
      requires Ok() && -1 <= from < |entries|
      modifies `at
      ensures Ok() && at <= from && Absent(at + 1, from + 1)
    {
      at := from;
      while at >= 0 && entries[at] !in there
        invariant -1 <= at <= from && Absent(at + 1, from + 1)
      {
        at := at - 1;
      }
    }
  }

  // ----- Scanning forward

  // The live entries a forward scan is looking for, when it has to skip a key.
  predicate Wanted(entries: seq<Entry>, sequence: nat, i: nat, skip: Option<Key>)
    requires i < |entries|
  {
    IsLive(entries, sequence, i) && skip != Some(entries[i].Key())
  }

  // Two visible versions of one key.
  predicate Repeats(entries: seq<Entry>, sequence: nat, j: nat, i: nat)
    requires j < |entries| && i < |entries|
  {
    Visible(entries, sequence, j) && Visible(entries, sequence, i) && entries[j].Key() == entries[i].Key()
  }

  // The scan is at entry p. `skip`, when set, is the key of entry g; every visible entry from
  // p on that repeats the key of an earlier visible entry has that key.
  ghost predicate SkipOk(entries: seq<Entry>, sequence: nat, p: nat, skip: Option<Key>, g: int)
    requires p <= |entries|
  {
    && (skip.Some? ==>
          && 0 <= g < |entries| && skip.value == entries[g].Key()
          && (forall i :: p <= i < g ==> !Visible(entries, sequence, i)))
    && (forall j, i :: 0 <= j < p <= i < |entries| && Repeats(entries, sequence, j, i) ==>
          skip == Some(entries[i].Key()))
  }

  // Nothing wanted was passed, and what `skip` hides from here on is not wanted.
  ghost predicate ScanOk(entries: seq<Entry>, sequence: nat, start: nat, p: nat, skip: Option<Key>, wanted: Option<Key>)
    requires p <= |entries|
  {
    && (forall i :: start <= i < p ==> !Wanted(entries, sequence, i, wanted))
    && (forall i :: p <= i < |entries| && skip == Some(entries[i].Key()) ==> !Wanted(entries, sequence, i, wanted))
    && (wanted.Some? ==> skip.Some?)
    && (forall i :: p <= i < |entries| && Visible(entries, sequence, i) && wanted == Some(entries[i].Key()) ==>
          skip == wanted)
  }

  ghost predicate KeysInOrder(less: Less, entries: seq<Entry>) {
    && (forall i, j :: 0 <= i <= j < |entries| ==> !less(entries[j].Key(), entries[i].Key()))
    && (forall i, j :: 0 <= i <= j < |entries| ==>
          entries[i].Key() == entries[j].Key() || less(entries[i].Key(), entries[j].Key()))
    && (forall a :: !less(a, a))
  }

  lemma {:induction false} SortedKeys(less: Less, entries: seq<Entry>)
    requires StrictTotalOrder(less) && Sorted(less, entries)
    ensures KeysInOrder(less, entries)
  {
    forall i, j | 0 <= i < j < |entries|
      ensures entries[i].Key() == entries[j].Key() || less(entries[i].Key(), entries[j].Key())
    {
      assert Before(less, entries[i], entries[j]);
    }
  }

  // Equal keys are contiguous.
  lemma {:induction false} SameKeyBetween(less: Less, entries: seq<Entry>, i: nat, j: nat, k: nat)
    requires KeysInOrder(less, entries)
    requires i <= j <= k < |entries| && entries[i].Key() == entries[k].Key()
    ensures entries[j].Key() == entries[i].Key()
  {
  }

  lemma {:induction false} ScanStarts(entries: seq<Entry>, sequence: nat, start: nat, skip: Option<Key>)
    requires start <= |entries|
    ensures ScanOk(entries, sequence, start, start, skip, skip)
  {
  }

  lemma {:induction false} ScanPassed(entries: seq<Entry>, sequence: nat, start: nat, p: nat, skip: Option<Key>,
                                      wanted: Option<Key>)
    requires p <= |entries| && ScanOk(entries, sequence, start, p, skip, wanted)
    ensures forall i :: start <= i < p ==> !Wanted(entries, sequence, i, wanted)
  {
  }

  lemma {:induction false} PassInvisible(entries: seq<Entry>, sequence: nat, start: nat, p: nat, skip: Option<Key>,
                                         g: int, wanted: Option<Key>)
    requires p < |entries| && SkipOk(entries, sequence, p, skip, g) && ScanOk(entries, sequence, start, p, skip, wanted)
    requires !Visible(entries, sequence, p)
    ensures SkipOk(entries, sequence, p + 1, skip, g) && ScanOk(entries, sequence, start, p + 1, skip, wanted)
  {
  }

  lemma {:induction false} PassInvisibles(entries: seq<Entry>, sequence: nat, start: nat, p: nat, p': nat,
                                          skip: Option<Key>, g: int, wanted: Option<Key>)
    requires p <= p' <= |entries| && SkipOk(entries, sequence, p, skip, g)
             && ScanOk(entries, sequence, start, p, skip, wanted)
    requires forall i :: p <= i < p' ==> !Visible(entries, sequence, i)
    ensures SkipOk(entries, sequence, p', skip, g) && ScanOk(entries, sequence, start, p', skip, wanted)
    decreases p' - p
  {
    if p < p' {
      PassInvisible(entries, sequence, start, p, skip, g, wanted);
      PassInvisibles(entries, sequence, start, p + 1, p', skip, g, wanted);
    }
  }

  // A visible entry whose key does not exceed the key being skipped has that very key.
  lemma {:induction false} HiddenHasSkipKey(less: Less, entries: seq<Entry>, sequence: nat, p: nat, skip: Key, g: int)
    requires KeysInOrder(less, entries)
    requires p < |entries| && SkipOk(entries, sequence, p, Some(skip), g)
    requires Visible(entries, sequence, p) && !less(skip, entries[p].Key())
    ensures entries[p].Key() == skip
  {
  }

  lemma {:induction false} PassHidden(less: Less, entries: seq<Entry>, sequence: nat, start: nat, p: nat, skip: Key,
                                      g: int, wanted: Option<Key>)
    requires KeysInOrder(less, entries)
    requires p < |entries| && SkipOk(entries, sequence, p, Some(skip), g)
             && ScanOk(entries, sequence, start, p, Some(skip), wanted)
    requires Visible(entries, sequence, p) && !less(skip, entries[p].Key())
    ensures SkipOk(entries, sequence, p + 1, Some(skip), g)
            && ScanOk(entries, sequence, start, p + 1, Some(skip), wanted)
  {
    HiddenHasSkipKey(less, entries, sequence, p, skip, g);
  }

  lemma {:induction false} PassDeletion(less: Less, entries: seq<Entry>, sequence: nat, start: nat, p: nat,
                                        skip: Option<Key>, g: int, wanted: Option<Key>)
    requires KeysInOrder(less, entries)
    requires p < |entries| && SkipOk(entries, sequence, p, skip, g) && ScanOk(entries, sequence, start, p, skip, wanted)
    requires Visible(entries, sequence, p) && entries[p].op.Delete?
    ensures SkipOk(entries, sequence, p + 1, Some(entries[p].Key()), p)
    ensures ScanOk(entries, sequence, start, p + 1, Some(entries[p].Key()), wanted)
  {
    var skip' := Some(entries[p].Key());
    forall j, i | 0 <= j < p + 1 <= i < |entries| && Repeats(entries, sequence, j, i)
      ensures skip' == Some(entries[i].Key())
    {
      SameKeyBetween(less, entries, j, p, i);
    }
    forall i | p < i < |entries| && Visible(entries, sequence, i) && wanted == Some(entries[i].Key())
      ensures skip' == wanted
    {
      assert skip == wanted;
      assert g <= p;
      SameKeyBetween(less, entries, g, p, i);
    }
  }

  // A visible value that is not hidden is the next entry wanted.
  lemma {:induction false} FoundWanted(less: Less, entries: seq<Entry>, sequence: nat, start: nat, p: nat,
                                       skip: Option<Key>, g: int, wanted: Option<Key>)
    requires KeysInOrder(less, entries)
    requires p < |entries| && SkipOk(entries, sequence, p, skip, g) && ScanOk(entries, sequence, start, p, skip, wanted)
    requires Visible(entries, sequence, p) && entries[p].op.Put?
    requires skip.Some? ==> less(skip.value, entries[p].Key())
    ensures Wanted(entries, sequence, p, wanted)
  {
    forall j | 0 <= j < p && entries[j].Key() == entries[p].Key() ensures !Visible(entries, sequence, j) {
      assert !Repeats(entries, sequence, j, p);
    }
  }

  // ----- From one live entry to the next

  // From a live entry, wanting any key but its own is wanting a later live entry.
  lemma {:induction false} WantedIsLater(entries: seq<Entry>, sequence: nat, current: nat, start: nat)
    requires start <= current < |entries| && IsLive(entries, sequence, current)
    requires forall i :: start <= i < current ==> !Visible(entries, sequence, i)
    ensures forall i :: start <= i < |entries| ==>
      (Wanted(entries, sequence, i, Some(entries[current].Key())) <==> current < i && IsLive(entries, sequence, i))
  {
    forall i | current < i < |entries| && IsLive(entries, sequence, i)
      ensures entries[i].Key() != entries[current].Key()
    {
      assert entries[current].sequence <= sequence;
    }
  }

  // What lies between the scan and the current entry does not disturb the skipping.
  lemma {:induction false} SkipCurrent(less: Less, entries: seq<Entry>, sequence: nat, current: nat, start: nat)
    requires StrictTotalOrder(less) && Sorted(less, entries)
    requires start <= current < |entries|
    requires forall i :: start <= i < current ==> !Visible(entries, sequence, i)
    ensures SkipOk(entries, sequence, start, Some(entries[current].Key()), current)
  {
    SortedKeys(less, entries);
    forall j, i | 0 <= j < start <= i < |entries| && Repeats(entries, sequence, j, i)
      ensures entries[current].Key() == entries[i].Key()
    {
      SameKeyBetween(less, entries, j, current, i);
    }
  }

  // The position after the current one, whether or not there is a live entry there.
  lemma {:induction false} CursorAfter(entries: seq<Entry>, sequence: nat, current: nat, k: nat)
    requires current < k <= |entries| && IsLive(entries, sequence, current)
    requires forall i :: current < i < k ==> !IsLive(entries, sequence, i)
    requires k < |entries| ==> IsLive(entries, sequence, k)
    ensures Rank(entries, sequence, k) == Rank(entries, sequence, current) + 1
    ensures k < |entries| <==> Rank(entries, sequence, current) + 1 < |Pairs(entries, sequence)|
  {
    RankNext(entries, sequence, current, k);
    if k < |entries| { RankOf(entries, sequence, k); }
  }

  lemma {:induction false} WantedAnything(entries: seq<Entry>, sequence: nat)
    ensures forall i :: 0 <= i < |entries| ==> (IsLive(entries, sequence, i) <==> Wanted(entries, sequence, i, None))
  {
  }

  // With nothing live before it, an entry is at the first position.
  lemma {:induction false} FirstLive(entries: seq<Entry>, sequence: nat, k: nat)
    requires k <= |entries| && forall i :: 0 <= i < k ==> !IsLive(entries, sequence, i)
    ensures Rank(entries, sequence, k) == 0
  {
    LivePrefix(entries, sequence, 0, k);
  }

  // A seek leaves behind only smaller keys and versions that are too new to see.
  ghost predicate SeekedTo(less: Less, entries: seq<Entry>, sequence: nat, target: Key, start: nat)
    requires start <= |entries|
  {
    && (forall i :: 0 <= i < start ==>
          less(entries[i].Key(), target) || !Visible(entries, sequence, i))
    && (forall i :: start <= i < |entries| ==> !less(entries[i].Key(), target))
  }

  lemma {:induction false} SeekReaches(less: Less, entries: seq<Entry>, sequence: nat, target: Key, start: nat)
    requires StrictTotalOrder(less) && Sorted(less, entries) && start <= |entries|
    requires forall i :: 0 <= i < start ==> less(entries[i].Key(), target) || !Visible(entries, sequence, i)
    requires start < |entries| ==> !less(entries[start].Key(), target)
    ensures SeekedTo(less, entries, sequence, target, start)
  {
    SortedKeys(less, entries);
    forall i | start <= i < |entries| ensures !less(entries[i].Key(), target) {
      assert entries[start].Key() == entries[i].Key() || less(entries[start].Key(), entries[i].Key());
    }
  }

  lemma {:induction false} SeekSkipsNothing(less: Less, entries: seq<Entry>, sequence: nat, target: Key, start: nat)
    requires start <= |entries| && SeekedTo(less, entries, sequence, target, start)
    ensures SkipOk(entries, sequence, start, None, -1)
  {
  }

  // The first live entry from a seek's position on is the first one of the view at or
  // after the target.
  lemma {:induction false} SeekPosition(less: Less, entries: seq<Entry>, sequence: nat, target: Key, start: nat, k: nat)
    requires start <= k <= |entries| && SeekedTo(less, entries, sequence, target, start)
    requires forall i :: start <= i < k ==> !IsLive(entries, sequence, i)
    ensures Rank(entries, sequence, k) <= |Pairs(entries, sequence)|
    ensures forall p :: 0 <= p < Rank(entries, sequence, k) ==> less(Pairs(entries, sequence)[p].0, target)
    ensures k < |entries| && IsLive(entries, sequence, k) ==>
      && Rank(entries, sequence, k) < |Pairs(entries, sequence)|
      && !less(Pairs(entries, sequence)[Rank(entries, sequence, k)].0, target)
  {
    var live, all := Live(entries, sequence, k), Live(entries, sequence, |entries|);
    LivePrefix(entries, sequence, k, |entries|);
    forall p | 0 <= p < |live| ensures less(Pairs(entries, sequence)[p].0, target) {
      assert all[p] == live[p] && IsLive(entries, sequence, live[p]);
    }
    if k < |entries| && IsLive(entries, sequence, k) {
      RankOf(entries, sequence, k);
    }
  }

  // ----- Scanning backward

  // The scan started at `start` and is about to look at p. The candidate q, when there is
  // one, is the lowest visible entry passed; nothing passed above it is live.
  ghost predicate BackOk(entries: seq<Entry>, sequence: nat, start: int, p: int, q: Option<nat>) {
    && -1 <= p <= start < |entries|
    && (q.None? ==> forall i :: p < i <= start ==> !IsLive(entries, sequence, i))
    && (q.Some? ==>
          && p < q.value <= start && Visible(entries, sequence, q.value) && entries[q.value].op.Put?
          && (forall i :: p < i < q.value ==> !Visible(entries, sequence, i))
          && (forall i :: q.value < i <= start ==> !IsLive(entries, sequence, i)))
  }

  lemma {:induction false} BackPastInvisible(entries: seq<Entry>, sequence: nat, start: int, p: int, q: Option<nat>)
    requires BackOk(entries, sequence, start, p, q) && p >= 0 && !Visible(entries, sequence, p)
    ensures BackOk(entries, sequence, start, p - 1, q)
  {
  }

  lemma {:induction false} BackPastInvisibles(entries: seq<Entry>, sequence: nat, start: int, p: int, p': int,
                                              q: Option<nat>)
    requires BackOk(entries, sequence, start, p, q) && -1 <= p' <= p
    requires forall i :: p' < i <= p ==> !Visible(entries, sequence, i)
    ensures BackOk(entries, sequence, start, p', q)
  {
  }

  // Entry p is a newer version of the candidate's key, so the candidate is not live.
  lemma {:induction false} BackToNewer(less: Less, entries: seq<Entry>, sequence: nat, start: int, p: int,
                                       q: Option<nat>)
    requires KeysInOrder(less, entries) && BackOk(entries, sequence, start, p, q)
    requires p >= 0 && Visible(entries, sequence, p)
    requires q.Some? ==> !less(entries[p].Key(), entries[q.value].Key())
    ensures BackOk(entries, sequence, start, p - 1, if entries[p].op.Put? then Some(p) else None)
  {
    if q.Some? {
      assert entries[p].Key() == entries[q.value].Key();
      assert !IsLive(entries, sequence, q.value);
    }
  }

  // The candidate's key does not occur at p or before, so the candidate is live.
  lemma {:induction false} BackFound(less: Less, entries: seq<Entry>, sequence: nat, start: int, p: int, q: nat)
    requires KeysInOrder(less, entries) && BackOk(entries, sequence, start, p, Some(q))
    requires p == -1 || less(entries[p].Key(), entries[q].Key())
    ensures IsLive(entries, sequence, q)
    ensures forall i :: 0 <= i <= p ==> less(entries[i].Key(), entries[q].Key())
  {
    forall i | 0 <= i <= p ensures less(entries[i].Key(), entries[q].Key()) {
      assert !less(entries[p].Key(), entries[i].Key());
    }
    forall j | 0 <= j < q && entries[j].Key() == entries[q].Key() ensures !Visible(entries, sequence, j) {
      assert p < j;
    }
  }

  datatype Direction = Forward | Reverse

  class DBIter {
    const less: Less
    const sequence: nat
    const iter: InternalIterator
    var direction: Direction
    var valid: bool
    var savedKey: Key
    var savedValue: Bytes
    // The internal entry that yields key() and value().
    ghost var current: int

    // Over the run of entries that are there now; `entries` has also those yet to come.
    constructor (less: Less, run: seq<Entry>, entries: seq<Entry>, sequence: nat)
      requires StrictTotalOrder(less) && Sorted(less, run) && Sorted(less, entries) && Grown(run, entries, sequence)
      ensures Ok() && Cursor() == -1 && fresh(iter) && View() == Pairs(run, sequence)
      ensures iter.entries == entries && this.less == less && this.sequence == sequence
    {
      hide Pairs, Sorted, StrictTotalOrder;
      this.less, this.sequence := less, sequence;
      iter := new InternalIterator(less, run, entries, sequence);
      direction, valid, savedKey, savedValue, current := Forward, false, [], [], -1;
      new;
      LaterUnseen(less, run, entries, sequence);
    }

    // ----- The abstract cursor

    ghost function View(): seq<(Key, Bytes)> { Pairs(iter.entries, sequence) }

    // The position in the view, or -1 when the iterator is not valid.
    ghost function Cursor(): int
      reads this
    {
      if valid && 0 <= current < |iter.entries| then Rank(iter.entries, sequence, current) else -1
    }

    ghost predicate Ok()
      reads this, iter
    {
      && StrictTotalOrder(less) && Sorted(less, iter.entries) && Linked()
      && (valid ==> Positioned())
    }

    ghost predicate Linked()
      reads this, iter
    {
      -1 <= iter.at < |iter.entries| && iter.Ok() && iter.less == less && iter.sequence == sequence
    }

    // Moving forward, the internal iterator is at the current entry. Moving backward, it is
    // before every entry of the current key, and what it skipped is invisible.
    ghost predicate Positioned()
      reads this, iter
    {
      && 0 <= current < |iter.entries| && IsLive(iter.entries, sequence, current)
      && -1 <= iter.at < |iter.entries|
      && (direction == Forward ==> iter.at == current)
      && (direction == Reverse ==>
            && iter.at < current
            && savedKey == iter.entries[current].Key() && savedValue == iter.entries[current].op.value
            && (forall i :: 0 <= i <= iter.at ==> less(iter.entries[i].Key(), savedKey))
            && (forall i :: iter.at < i < current ==> !Visible(iter.entries, sequence, i)))
    }

    // ----- Accessors

    method IsValid() returns (b: bool)
      requires Ok()
      ensures b <==> Cursor() != -1
    {
      b := valid;
    }

    method GetKey() returns (k: Key)
      requires Ok() && valid
      ensures 0 <= Cursor() < |View()| && k == View()[Cursor()].0
    {
      RankOf(iter.entries, sequence, current);
      k := if direction == Forward then iter.entries[iter.at].Key() else savedKey;
    }

    method GetValue() returns (v: Bytes)
      requires Ok() && valid
      ensures 0 <= Cursor() < |View()| && v == View()[Cursor()].1
    {
      RankOf(iter.entries, sequence, current);
      v := if direction == Forward then iter.entries[iter.at].op.value else savedValue;
    }

    // ----- Moving

    function Skip(skipping: bool): Option<Key>
      reads this
    {
      if skipping then Some(savedKey) else None
    }

    // One internal step of the forward scan, over what may have been inserted meanwhile.
    method StepForward(ghost start: nat, ghost skip: Option<Key>, ghost g: int, ghost wanted: Option<Key>)
      returns (ghost p: nat)
      requires Linked() && iter.Valid() && SkipOk(iter.entries, sequence, iter.at + 1, skip, g)
      requires ScanOk(iter.entries, sequence, start, iter.at + 1, skip, wanted)
      modifies iter
      ensures Linked() && p == iter.Position() && old(iter.at) < p
      ensures SkipOk(iter.entries, sequence, p, skip, g) && ScanOk(iter.entries, sequence, start, p, skip, wanted)
    {
      hide SkipOk, ScanOk;
      ghost var next := iter.at + 1;
      iter.Next();
      p := iter.Position();
      PassInvisibles(iter.entries, sequence, start, next, p, skip, g, wanted);
    }

    // And one of the backward scan.
    method StepBack(ghost start: int, ghost q: Option<nat>)
      requires Linked() && iter.Valid() && BackOk(iter.entries, sequence, start, iter.at - 1, q)
      modifies iter
      ensures Linked() && iter.at < old(iter.at) && BackOk(iter.entries, sequence, start, iter.at, q)
    {
      hide BackOk;
      ghost var next := iter.at - 1;
      iter.Prev();
      BackPastInvisibles(iter.entries, sequence, start, next, iter.at, q);
    }

    // Loop until an acceptable entry to yield. savedKey holds the key to skip.
    method FindNextUserEntry(skipping: bool, ghost g: int)
      requires StrictTotalOrder(less) && Sorted(less, iter.entries) && Linked()
      requires iter.Valid() && direction == Forward
      requires SkipOk(iter.entries, sequence, iter.at, Skip(skipping), g)
      modifies this, iter
      ensures direction == Forward && Linked()
      ensures valid ==>
        && current == iter.at && old(iter.at) <= current < |iter.entries|
        && Wanted(iter.entries, sequence, current, old(Skip(skipping)))
      ensures !valid ==> iter.at == -1
      ensures forall i :: old(iter.at) <= i < (if valid then current else |iter.entries|) ==>
        !Wanted(iter.entries, sequence, i, old(Skip(skipping)))
    {
      hide StrictTotalOrder, Sorted, KeysInOrder, SkipOk, ScanOk, Wanted, InternalIterator.Ok;
      SortedKeys(less, iter.entries);
      var skipping := skipping;
      ghost var start, wanted, p, g := iter.at, Skip(skipping), iter.at, g;
      ScanStarts(iter.entries, sequence, start, wanted);
      while iter.Valid()
        invariant direction == Forward && Linked()
        invariant start <= p <= |iter.entries| && iter.at == if p < |iter.entries| then p else -1
        invariant SkipOk(iter.entries, sequence, p, Skip(skipping), g)
        invariant ScanOk(iter.entries, sequence, start, p, Skip(skipping), wanted)
        decreases |iter.entries| - p
      {
        var e := iter.entries[iter.at];
        if e.sequence <= sequence {
          match e.op
          case Delete(key) =>
            PassDeletion(less, iter.entries, sequence, start, p, Skip(skipping), g, wanted);
            savedKey, skipping, g := key, true, p;
          case Put(key, _) =>
            if skipping && !less(savedKey, key) {
              PassHidden(less, iter.entries, sequence, start, p, savedKey, g, wanted);
            } else {
              FoundWanted(less, iter.entries, sequence, start, p, Skip(skipping), g, wanted);
              ScanPassed(iter.entries, sequence, start, p, Skip(skipping), wanted);
              valid := true;
              savedKey := [];
              current := p;
              return;
            }
        } else {
          PassInvisible(iter.entries, sequence, start, p, Skip(skipping), g, wanted);
        }
        p := StepForward(start, Skip(skipping), g, wanted);
      }
      ScanPassed(iter.entries, sequence, start, p, Skip(skipping), wanted);
      savedKey := [];
      valid := false;
    }

    // Find the last live entry at or before the internal iterator.
    method FindPrevUserEntry()
      requires StrictTotalOrder(less) && Sorted(less, iter.entries) && Linked()
      requires direction == Reverse
      modifies this, iter
      ensures Ok()
      ensures valid ==> direction == Reverse && current <= old(iter.at)
      ensures forall i :: 0 <= i <= old(iter.at) && (valid ==> current < i) ==> !IsLive(iter.entries, sequence, i)
    {
      hide StrictTotalOrder, Sorted, KeysInOrder, IsLive, InternalIterator.Ok;
      SortedKeys(less, iter.entries);
      var isValue := false;
      ghost var start, q: Option<nat> := iter.at, None;
      while iter.Valid()
        invariant direction == Reverse && Linked()
        invariant BackOk(iter.entries, sequence, start, iter.at, q)
        invariant isValue <==> q.Some?
        invariant q.Some? ==>
          savedKey == iter.entries[q.value].Key() && savedValue == iter.entries[q.value].op.value
        decreases iter.at
      {
        var e := iter.entries[iter.at];
        if e.sequence <= sequence {
          if isValue && less(e.Key(), savedKey) {
            break;
          }
          BackToNewer(less, iter.entries, sequence, start, iter.at, q);
          isValue := e.op.Put?;
          if !isValue {
            savedKey, savedValue := [], [];
            q := None;
          } else {
            savedKey, savedValue := e.Key(), e.op.value;
            q := Some(iter.at);
          }
        } else {
          BackPastInvisible(iter.entries, sequence, start, iter.at, q);
        }
        StepBack(start, q);
      }
      if !isValue {
        valid := false;
        savedKey, savedValue := [], [];
        direction := Forward;
      } else {
        BackFound(less, iter.entries, sequence, start, iter.at, q.value);
        valid := true;
        current := q.value;
      }
    }

    method Next()
      requires Ok() && valid
      modifies this, iter
      ensures Ok()
      ensures Cursor() == if old(Cursor()) + 1 < |View()| then old(Cursor()) + 1 else -1
    {
      hide StrictTotalOrder, Sorted, IsLive, Rank, SkipOk, Wanted, Pairs, InternalIterator.Ok, InternalIterator.Absent;
      ghost var was := current;
      if direction == Reverse {
        direction := Forward;
        if !iter.Valid() {
          iter.SeekToFirst();
        } else {
          iter.Next();
        }
        // The current entry lies ahead, so the source's "ran off the end" exit is never taken.
        assert iter.Position() <= current by { LiveIsVisible(iter.entries, sequence); }
        WantedIsLater(iter.entries, sequence, current, iter.at);
        SkipCurrent(less, iter.entries, sequence, current, iter.at);
      } else {
        WantedIsLater(iter.entries, sequence, current, iter.at);
        SkipCurrent(less, iter.entries, sequence, current, iter.at);
        savedKey := iter.entries[iter.at].Key();
      }
      FindNextUserEntry(true, current);
      CursorAfter(iter.entries, sequence, was, if valid then current else |iter.entries|);
    }

    method Prev()
      requires Ok() && valid
      modifies this, iter
      ensures Ok()
      ensures Cursor() == old(Cursor()) - 1
    {
      hide StrictTotalOrder, Sorted, Rank, Pairs, InternalIterator.Ok, InternalIterator.Absent;
      ghost var was := current;
      if direction == Forward {
        SortedKeys(less, iter.entries);
        savedKey := iter.entries[iter.at].Key();
        while true
          invariant Linked() && 0 <= iter.at <= was && current == was && valid && direction == Forward
          invariant savedKey == iter.entries[was].Key() == iter.entries[iter.at].Key()
          invariant forall i :: iter.at <= i < was ==> !Visible(iter.entries, sequence, i)
          decreases iter.at
        {
          iter.Prev();
          if !iter.Valid() {
            FirstLive(iter.entries, sequence, was);
            valid := false;
            savedKey, savedValue := [], [];
            return;
          }
          if less(iter.entries[iter.at].Key(), savedKey) {
            break;
          }
        }
        direction := Reverse;
      }
      assert forall i :: iter.at < i < was ==> !IsLive(iter.entries, sequence, i);
      FindPrevUserEntry();
      if valid {
        RankNext(iter.entries, sequence, current, was);
      } else {
        FirstLive(iter.entries, sequence, was);
      }
    }

    method Seek(target: Key)
      requires Ok()
      modifies this, iter
      ensures Ok() && Cursor() < |View()|
      ensures forall p :: 0 <= p < (if Cursor() == -1 then |View()| else Cursor()) ==> less(View()[p].0, target)
      ensures Cursor() != -1 ==> !less(View()[Cursor()].0, target)
    {
      hide StrictTotalOrder, Sorted, IsLive, Live, SkipOk, Pairs, SeekedTo;
      direction := Forward;
      savedKey, savedValue := target, [];  // the source keeps the whole internal key here
      iter.Seek(target, sequence);
      ghost var start := if iter.Valid() then iter.at else |iter.entries|;
      SeekReaches(less, iter.entries, sequence, target, start);
      if iter.Valid() {
        SeekSkipsNothing(less, iter.entries, sequence, target, start);
        FindNextUserEntry(false, -1);
        WantedAnything(iter.entries, sequence);
      } else {
        valid := false;
      }
      SeekPosition(less, iter.entries, sequence, target, start, if valid then current else |iter.entries|);
    }

    method SeekToFirst()
      requires Ok()
      modifies this, iter
      ensures Ok()
      ensures Cursor() == if |View()| > 0 then 0 else -1
    {
      hide StrictTotalOrder, Sorted, IsLive, Live, Pairs;
      direction := Forward;
      savedValue := [];
      iter.SeekToFirst();
      if iter.Valid() {
        FindNextUserEntry(false, -1);
        WantedAnything(iter.entries, sequence);
      } else {
        valid := false;
      }
      LiveIsVisible(iter.entries, sequence);
      FirstLive(iter.entries, sequence, if valid then current else |iter.entries|);
      if valid { RankOf(iter.entries, sequence, current); }
    }

    method SeekToLast()
      requires Ok()
      modifies this, iter
      ensures Ok()
      ensures Cursor() == |View()| - 1
    {
      hide StrictTotalOrder, Sorted, IsLive, Live, Pairs;
      direction := Reverse;
      savedValue := [];
      iter.SeekToLast();
      FindPrevUserEntry();
      LiveIsVisible(iter.entries, sequence);
      if valid {
        RankNext(iter.entries, sequence, current, |iter.entries|);
      } else {
        FirstLive(iter.entries, sequence, |iter.entries|);
      }
    }
  }
}

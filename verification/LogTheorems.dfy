/**
 What reading a written log gives back: exactly the records wholly inside any prefix of the
 file, and, when physical records are damaged detectably, only records that were written, in
 order, and every one that shares no block with the damage.
 */
module LogTheorems {
  import opened Mvcc
  import opened LogFormat
  import opened LogReading

  // ----- The layout

  lemma {:induction false} EndsGrow(frags: seq<Frag>, records: seq<Bytes>, i: nat, j: nat)
    requires Fragments(frags, records) && i <= j <= |frags|
    ensures EndOf(frags, i) <= EndOf(frags, j)
    ensures j < |frags| ==> EndOf(frags, i) <= frags[j].start
    decreases j - i
  {
    if j < |frags| {
      assert FragOk(frags, records, j);
      NextStartFits(EndOf(frags, j));
    }
    if i < j {
      EndsGrow(frags, records, i, j - 1);
    }
  }

  // Record numbers take every value in between.
  lemma {:induction false} FragOf(frags: seq<Frag>, records: seq<Bytes>, i: nat, j: nat, k: nat) returns (t: nat)
    requires Fragments(frags, records) && i <= j < |frags| && frags[i].rec <= k <= frags[j].rec
    ensures i <= t <= j && frags[t].rec == k
    decreases j - i
  {
    assert FragOk(frags, records, j);
    if frags[j].rec == k {
      t := j;
    } else {
      t := FragOf(frags, records, i, j - 1, k);
    }
  }

  lemma {:induction false} RecsGrow(frags: seq<Frag>, records: seq<Bytes>, i: nat, j: nat)
    requires Fragments(frags, records) && i <= j < |frags|
    ensures frags[i].rec <= frags[j].rec
    decreases j - i
  {
    assert FragOk(frags, records, j);
    if i < j { RecsGrow(frags, records, i, j - 1); }
  }

  // ----- Reading an undamaged prefix

  // What ReadRecord has gathered when it reaches fragment i, having missed nothing.
  function Pending(frags: seq<Frag>, i: nat): Option<Bytes>
    requires i <= |frags|
  {
    if i == |frags| || Begins(frags, i) then None else Some(Gathered(frags, i - 1))
  }

  lemma {:induction false} StepIntact(frags: seq<Frag>, records: seq<Bytes>, i: nat, scratch: Option<Bytes>)
    requires i < |frags| && FragOk(frags, records, i)
    requires Begins(frags, i) || scratch == Pending(frags, i)
    ensures var e := Record(frags[i].typ, frags[i].payload);
            && Completed(scratch, e) == (if Ends(frags, i) then Some(records[frags[i].rec]) else None)
            && Scratch(scratch, e) == Pending(frags, i + 1)
            && (scratch == Pending(frags, i) ==> Reports(scratch, e) == 0)
  {
    assert [] + frags[i].payload == frags[i].payload;
  }

  lemma {:induction false} LookIntact(crc: Checksum, file: Bytes, frags: seq<Frag>, records: seq<Bytes>, i: nat, p: nat)
    requires Fragments(frags, records) && i < |frags| && p <= |file| && NextStart(p) == frags[i].start
    requires Intact(crc, file, frags[i])
    ensures Look(crc, file, p) == Record(frags[i].typ, frags[i].payload)
    ensures After(crc, file, p) == frags[i].End() && !Stops(Look(crc, file, p))
  {
    assert FragOk(frags, records, i);
    ParseIntact(crc, file, frags[i]);
  }

  lemma {:induction false} LookCut(crc: Checksum, file: Bytes, frags: seq<Frag>, records: seq<Bytes>, i: nat, p: nat)
    requires Fragments(frags, records) && i < |frags| && p <= |file| && NextStart(p) == frags[i].start
    requires Cut(crc, file, frags[i])
    ensures Look(crc, file, p) == Eof
  {
    assert FragOk(frags, records, i);
    if frags[i].start + HEADER <= |file| { ParseCut(crc, file, frags[i]); }
  }

  // Record k is complete within the first `size` bytes.
  ghost predicate Inside(frags: seq<Frag>, size: nat, k: nat) {
    forall t :: 0 <= t < |frags| && frags[t].rec == k ==> frags[t].End() <= size
  }

  ghost predicate Undamaged(crc: Checksum, file: Bytes, frags: seq<Frag>) {
    && |file| <= EndOf(frags, |frags|)
    && forall i :: 0 <= i < |frags| ==> Intact(crc, file, frags[i]) || Cut(crc, file, frags[i])
  }

  // The first record that starts at or after fragment i.
  function NextRec(frags: seq<Frag>, records: seq<Bytes>, i: nat): nat
    requires i <= |frags|
  {
    if i == |frags| then |records| else frags[i].rec
  }

  lemma {:induction false} ReadsPrefix(crc: Checksum, file: Bytes, frags: seq<Frag>, records: seq<Bytes>, i: nat)
    returns (m: nat)
    requires Fragments(frags, records) && Undamaged(crc, file, frags)
    requires i <= |frags| && EndOf(frags, i) <= |file|
    ensures NextRec(frags, records, i) <= m <= |records|
    ensures var events := Events(crc, file, EndOf(frags, i));
            && Records(events, Pending(frags, i)) == records[NextRec(frags, records, i)..m]
            && Corruptions(events, Pending(frags, i)) == 0
    ensures forall t :: i <= t < |frags| ==> (frags[t].rec < m ==> frags[t].End() <= |file|)
    ensures m < |records| ==> !Inside(frags, |file|, m)
    decreases |frags| - i
  {
    hide Records, Corruptions, Events, Look, After, Completed, Scratch, Reports, Pending, NextStart, Fragments, FragOk;
    var p := EndOf(frags, i);
    if i < |frags| { FragStep(frags, records, i); }
    if i == |frags| {
      m := |records|;
      LookEnd(crc, file, p);
    } else if Cut(crc, file, frags[i]) {
      LookCut(crc, file, frags, records, i, p);
      m := frags[i].rec;
      forall t | i <= t < |frags| ensures m <= frags[t].rec { RecsGrow(frags, records, i, t); }
    } else {
      LookIntact(crc, file, frags, records, i, p);
      StepIntact(frags, records, i, Pending(frags, i));
      NextEvent(crc, file, p, Pending(frags, i));
      m := ReadsPrefix(crc, file, frags, records, i + 1);
      assert Ends(frags, i) ==> [records[frags[i].rec]] + records[frags[i].rec + 1..m] == records[frags[i].rec..m];
    }
    NoEvents(crc, file, p, Pending(frags, i));
  }

  lemma {:induction false} FragStep(frags: seq<Frag>, records: seq<Bytes>, i: nat)
    requires Fragments(frags, records) && i < |frags|
    ensures FragOk(frags, records, i) && frags[i].rec < |records|
    ensures NextStart(EndOf(frags, i)) == frags[i].start
    ensures NextRec(frags, records, i + 1) == frags[i].rec + if Ends(frags, i) then 1 else 0
  {
    assert FragOk(frags, records, i);
    if i + 1 < |frags| { assert FragOk(frags, records, i + 1); }
  }

  lemma {:induction false} LookEnd(crc: Checksum, file: Bytes, p: nat)
    requires p == |file|
    ensures Look(crc, file, p) == Eof
  {
    NextStartFits(p);
  }

  lemma {:induction false} NoEvents(crc: Checksum, file: Bytes, p: nat, scratch: Option<Bytes>)
    requires p <= |file|
    ensures Stops(Look(crc, file, p)) ==>
              Records(Events(crc, file, p), scratch) == [] && Corruptions(Events(crc, file, p), scratch) == 0
    ensures Stops(Look(crc, file, p)) ==> EndsAt(crc, file, p) == After(crc, file, p)
  {
  }

  lemma {:induction false} PrefixUndamaged(crc: Checksum, file: Bytes, frags: seq<Frag>, records: seq<Bytes>, n: nat)
    requires Written(crc, file, frags, records) && n <= |file|
    ensures Undamaged(crc, file[..n], frags)
  {
    forall i | 0 <= i < |frags| ensures Intact(crc, file[..n], frags[i]) || Cut(crc, file[..n], frags[i]) {
      var f := frags[i];
      assert Intact(crc, file, f);
      if f.End() <= n {
        assert file[..n][f.start..f.End()] == file[f.start..f.End()];
      } else if f.start <= n {
        assert file[..n][f.start..n] == file[f.start..f.End()][..n - f.start];
      }
    }
  }

  /** Reading any prefix of a written log gives exactly the records that lie wholly inside
      it, in order, and reports no corruption; the whole file gives every record. */
  lemma {:induction false} ReadBackAnyPrefix(crc: Checksum, file: Bytes, frags: seq<Frag>, records: seq<Bytes>, n: nat)
    returns (m: nat)
    requires Written(crc, file, frags, records) && n <= |file|
    ensures m <= |records|
    ensures Records(Events(crc, file[..n], 0), None) == records[..m]
    ensures Corruptions(Events(crc, file[..n], 0), None) == 0
    ensures forall k :: 0 <= k < |records| ==> (k < m <==> Inside(frags, n, k))
    ensures n == |file| ==> m == |records|
  {
    hide Events, Records, Corruptions, Intact, FragOk;
    PrefixUndamaged(crc, file, frags, records, n);
    if |frags| > 0 { FragStep(frags, records, 0); }
    m := ReadsPrefix(crc, file[..n], frags, records, 0);
    forall k | m <= k < |records| ensures !Inside(frags, n, k) {
      var t :| 0 <= t < |frags| && frags[t].rec == m && frags[t].End() > n;
      var u := FragOf(frags, records, t, |frags| - 1, k);
      EndsGrow(frags, records, t + 1, u + 1);
    }
    forall k | n == |file| && 0 <= k < |records| ensures Inside(frags, n, k) {
      forall t | 0 <= t < |frags| ensures frags[t].End() <= n { EndsGrow(frags, records, t + 1, |frags|); }
    }
  }

  // ----- Reading around damage

  // The length or the checksum is wrong at this fragment, or there are zeros.
  predicate Fails(crc: Checksum, file: Bytes, f: Frag) {
    && f.start + HEADER <= |file| && f.start + HEADER <= BlockEnd(f.start)
    && (TooLong(file, f.start) || Blank(file, f.start) || Mismatch(crc, file, f.start))
  }

  // Whatever happened to the file, every physical record is intact, cut off or detectably bad.
  ghost predicate Detected(crc: Checksum, file: Bytes, frags: seq<Frag>) {
    && |file| <= EndOf(frags, |frags|)
    && forall i :: 0 <= i < |frags| ==>
         Intact(crc, file, frags[i]) || Cut(crc, file, frags[i]) || Fails(crc, file, frags[i])
  }

  // No block that holds a part of record k has any damage.
  ghost predicate Clean(crc: Checksum, file: Bytes, frags: seq<Frag>, k: nat) {
    forall t, u ::
      && 0 <= t < |frags| && 0 <= u < |frags| && frags[t].rec == k
      && BlockEnd(frags[u].start) == BlockEnd(frags[t].start) ==>
        Intact(crc, file, frags[u])
  }

  // `out` is the records numbered by `picks`, in increasing order.
  ghost predicate Picked(records: seq<Bytes>, picks: seq<nat>, out: seq<Bytes>) {
    && |out| == |picks|
    && (forall t :: 0 <= t < |picks| ==> picks[t] < |records| && out[t] == records[picks[t]])
    && (forall t, u :: 0 <= t < u < |picks| ==> picks[t] < picks[u])
  }

  // The first record the reader can still complete at fragment i.
  function Lower(frags: seq<Frag>, records: seq<Bytes>, i: nat, scratch: Option<Bytes>): nat
    requires i <= |frags|
  {
    if i == |frags| then |records| else if Begins(frags, i) || scratch.Some? then frags[i].rec else frags[i].rec + 1
  }

  // The first fragment after i's block.
  lemma {:induction false} NextBlock(frags: seq<Frag>, records: seq<Bytes>, i: nat) returns (j: nat)
    requires Fragments(frags, records) && i < |frags|
    ensures i < j <= |frags|
    ensures forall t :: i <= t < j ==> BlockEnd(frags[t].start) == BlockEnd(frags[i].start)
    ensures if j < |frags| then frags[j].start == BlockEnd(frags[i].start)
            else EndOf(frags, j) <= BlockEnd(frags[i].start)
    decreases |frags| - i
  {
    assert FragOk(frags, records, i);
    j := i + 1;
    if j < |frags| {
      assert FragOk(frags, records, j);
      NextStartFits(EndOf(frags, j));
      NextStartFits(EndOf(frags, i));
      if frags[j].start != BlockEnd(frags[i].start) {
        assert BlockEnd(frags[j].start) == BlockEnd(frags[i].start) by {
          SameBlock(frags[i].start, frags[i].End());
        }
        j := NextBlock(frags, records, i + 1);
      }
    }
  }

  lemma {:induction false} SameBlock(p: nat, q: nat)
    requires p <= q <= BlockEnd(p)
    ensures q < BlockEnd(p) ==> BlockEnd(q) == BlockEnd(p)
    ensures q == BlockEnd(p) ==> NextStart(q) == q
  {
  }

  // A record with a fragment in [i, j), all in one block with a fragment that is not intact,
  // is not clean.
  lemma {:induction false} BlockSpoiled(crc: Checksum, file: Bytes, frags: seq<Frag>, records: seq<Bytes>, i: nat,
                                        j: nat, scratch: Option<Bytes>, k: nat)
    requires Fragments(frags, records) && i < j <= |frags| && !Intact(crc, file, frags[i])
    requires forall t :: i <= t < j ==> BlockEnd(frags[t].start) == BlockEnd(frags[i].start)
    requires Lower(frags, records, i, scratch) <= k < Lower(frags, records, j, None)
    ensures !Clean(crc, file, frags, k)
  {
    hide Intact, Fragments;
    LastBefore(frags, records, j);
    var t := FragOf(frags, records, i, j - 1, k);
  }

  lemma {:induction false} LastBefore(frags: seq<Frag>, records: seq<Bytes>, j: nat)
    requires Fragments(frags, records) && 0 < j <= |frags|
    ensures Lower(frags, records, j, None) == frags[j - 1].rec + 1
  {
    if j < |frags| { assert FragOk(frags, records, j); }
  }

  // When the file ends in fragment i's block, and i is not intact, nothing from i on is clean.
  lemma {:induction false} TailSpoiled(crc: Checksum, file: Bytes, frags: seq<Frag>, records: seq<Bytes>, i: nat,
                                       scratch: Option<Bytes>, k: nat)
    requires Fragments(frags, records) && i < |frags| && !Intact(crc, file, frags[i])
    requires |file| < BlockEnd(frags[i].start)
    requires Lower(frags, records, i, scratch) <= k < |records|
    ensures !Clean(crc, file, frags, k)
  {
    hide Fragments;
    var j := NextBlock(frags, records, i);
    LastBefore(frags, records, |frags|);
    var t := FragOf(frags, records, i, |frags| - 1, k);
    if t < j {
      assert BlockEnd(frags[t].start) == BlockEnd(frags[i].start);
    } else {
      EndsGrow(frags, records, j, t);
      StartsAfter(frags, records, j, t);
      assert !Intact(crc, file, frags[t]);
    }
  }

  lemma {:induction false} StartsAfter(frags: seq<Frag>, records: seq<Bytes>, j: nat, t: nat)
    requires Fragments(frags, records) && j <= t < |frags|
    ensures frags[j].start <= frags[t].start
  {
    if j < t {
      EndsGrow(frags, records, j + 1, t);
    }
  }

  // Passing an intact fragment.
  lemma {:induction false} StepAnywhere(frags: seq<Frag>, records: seq<Bytes>, i: nat, scratch: Option<Bytes>)
    requires Fragments(frags, records) && i < |frags|
    requires scratch == None || scratch == Pending(frags, i)
    ensures var e, done :=
            Record(frags[i].typ, frags[i].payload), Completed(scratch, Record(frags[i].typ, frags[i].payload));
            && (Scratch(scratch, e) == None || Scratch(scratch, e) == Pending(frags, i + 1))
            && Lower(frags, records, i, scratch) <= Lower(frags, records, i + 1, Scratch(scratch, e))
            && (done.None? ==> Lower(frags, records, i + 1, Scratch(scratch, e)) == Lower(frags, records, i, scratch))
            && (done.Some? ==>
                  && frags[i].rec < |records| && done.value == records[frags[i].rec]
                  && Lower(frags, records, i, scratch) == frags[i].rec
                  && Lower(frags, records, i + 1, Scratch(scratch, e)) == frags[i].rec + 1)
  {
    FragStep(frags, records, i);
    if Begins(frags, i) || scratch.Some? {
      StepIntact(frags, records, i, scratch);
    }
    if i + 1 < |frags| { assert FragOk(frags, records, i + 1); }
  }

  lemma {:induction false} ReadsDamaged(crc: Checksum, file: Bytes, frags: seq<Frag>, records: seq<Bytes>, i: nat,
                                        p: nat, scratch: Option<Bytes>)
    returns (picks: seq<nat>)
    requires Fragments(frags, records) && Detected(crc, file, frags)
    requires i <= |frags| && p <= |file|
    requires if i < |frags| then NextStart(p) == frags[i].start else p == |file|
    requires scratch == None || scratch == Pending(frags, i)
    ensures Picked(records, picks, Records(Events(crc, file, p), scratch))
    ensures forall t :: 0 <= t < |picks| ==> Lower(frags, records, i, scratch) <= picks[t]
    ensures forall k :: Lower(frags, records, i, scratch) <= k < |records| && Clean(crc, file, frags, k) ==> k in picks
    decreases |frags| - i
  {
    hide Records, Events, Look, After, Completed, Scratch, Pending, Lower, Clean, Fragments, NextStart, Picked;
    picks := [];
    if i == |frags| {
      LookEnd(crc, file, p);
      NothingPicked(crc, file, frags, records, i, p, scratch);
    } else if Intact(crc, file, frags[i]) {
      LookIntact(crc, file, frags, records, i, p);
      StepAnywhere(frags, records, i, scratch);
      NextEvent(crc, file, p, scratch);
      FollowsOn(crc, file, frags, records, i);
      var e := Look(crc, file, p);
      picks := ReadsDamaged(crc, file, frags, records, i + 1, frags[i].End(), Scratch(scratch, e));
      if Completed(scratch, e).Some? {
        PickedFirst(records, frags[i].rec, picks, Records(Events(crc, file, frags[i].End()), Scratch(scratch, e)));
        picks := [frags[i].rec] + picks;
      } else {
        assert [] + Records(Events(crc, file, frags[i].End()), Scratch(scratch, e))
               == Records(Events(crc, file, frags[i].End()), Scratch(scratch, e));
      }
    } else if |file| < BlockEnd(frags[i].start) || Cut(crc, file, frags[i]) {
      TailRead(crc, file, frags, records, i, p, scratch);
    } else {
      var j := NextBlock(frags, records, i);
      LookBad(crc, file, frags, i, p);
      NextEvent(crc, file, p, scratch);
      DroppedScratch(scratch, Look(crc, file, p));
      SameBlock(frags[i].start, BlockEnd(frags[i].start));
      picks := ReadsDamaged(crc, file, frags, records, j, BlockEnd(frags[i].start), None);
      LowerGrows(frags, records, i, j, scratch);
      forall k | Lower(frags, records, i, scratch) <= k < Lower(frags, records, j, None)
        ensures !Clean(crc, file, frags, k)
      {
        BlockSpoiled(crc, file, frags, records, i, j, scratch, k);
      }
      assert [] + Records(Events(crc, file, BlockEnd(frags[i].start)), None)
             == Records(Events(crc, file, BlockEnd(frags[i].start)), None);
    }
  }

  lemma {:induction false} NothingPicked(crc: Checksum, file: Bytes, frags: seq<Frag>, records: seq<Bytes>, i: nat,
                                         p: nat, scratch: Option<Bytes>)
    requires i <= |frags| && p <= |file| && Look(crc, file, p) == Eof
    ensures Picked(records, [], Records(Events(crc, file, p), scratch))
    ensures i == |frags| ==> Lower(frags, records, i, scratch) == |records|
  {
  }

  lemma {:induction false} FollowsOn(crc: Checksum, file: Bytes, frags: seq<Frag>, records: seq<Bytes>, i: nat)
    requires Fragments(frags, records) && Detected(crc, file, frags) && i < |frags| && frags[i].End() <= |file|
    ensures i + 1 < |frags| ==> NextStart(frags[i].End()) == frags[i + 1].start
    ensures i + 1 == |frags| ==> frags[i].End() == |file|
  {
    if i + 1 < |frags| { assert FragOk(frags, records, i + 1); }
  }

  lemma {:induction false} PickedFirst(records: seq<Bytes>, k: nat, picks: seq<nat>, out: seq<Bytes>)
    requires Picked(records, picks, out) && k < |records| && forall t :: 0 <= t < |picks| ==> k < picks[t]
    ensures Picked(records, [k] + picks, [records[k]] + out)
  {
  }

  // A damaged fragment in a block the file has whole: the rest of the block is dropped.
  lemma {:induction false} LookBad(crc: Checksum, file: Bytes, frags: seq<Frag>, i: nat, p: nat)
    requires i < |frags| && p <= |file| && NextStart(p) == frags[i].start
    requires Fails(crc, file, frags[i]) && BlockEnd(frags[i].start) <= |file|
    ensures Look(crc, file, p).Bad? && After(crc, file, p) == BlockEnd(frags[i].start)
  {
    ParseBytes(crc, file, frags[i].start);
  }

  lemma {:induction false} DroppedScratch(scratch: Option<Bytes>, e: Event)
    requires e.Bad?
    ensures Scratch(scratch, e) == None && Completed(scratch, e) == None
  {
  }

  lemma {:induction false} LowerGrows(frags: seq<Frag>, records: seq<Bytes>, i: nat, j: nat, scratch: Option<Bytes>)
    requires Fragments(frags, records) && i < j <= |frags|
    ensures Lower(frags, records, i, scratch) <= Lower(frags, records, j, None)
  {
    LastBefore(frags, records, j);
    RecsGrow(frags, records, i, j - 1);
  }

  // A damaged or cut fragment in the last, incomplete block ends the reading.
  lemma {:induction false} TailRead(crc: Checksum, file: Bytes, frags: seq<Frag>, records: seq<Bytes>, i: nat, p: nat,
                                    scratch: Option<Bytes>)
    requires Fragments(frags, records) && i < |frags| && p <= |file| && NextStart(p) == frags[i].start
    requires !Intact(crc, file, frags[i]) && (Cut(crc, file, frags[i]) || Fails(crc, file, frags[i]))
    requires |file| < BlockEnd(frags[i].start) || Cut(crc, file, frags[i])
    ensures Picked(records, [], Records(Events(crc, file, p), scratch))
    ensures forall k :: Lower(frags, records, i, scratch) <= k < |records| ==> !Clean(crc, file, frags, k)
  {
    assert FragOk(frags, records, i);
    assert |file| < BlockEnd(frags[i].start);
    forall k | Lower(frags, records, i, scratch) <= k < |records| ensures !Clean(crc, file, frags, k) {
      TailSpoiled(crc, file, frags, records, i, scratch, k);
    }
    hide Fragments, Records, Events, Clean, Lower;
    if Cut(crc, file, frags[i]) {
      LookCut(crc, file, frags, records, i, p);
      NoEvents(crc, file, p, scratch);
    } else {
      TailEvents(crc, file, frags[i], p, scratch);
    }
  }

  lemma {:induction false} TailEvents(crc: Checksum, file: Bytes, f: Frag, p: nat, scratch: Option<Bytes>)
    requires p <= |file| && NextStart(p) == f.start && Fails(crc, file, f) && |file| < BlockEnd(f.start)
    ensures Records(Events(crc, file, p), scratch) == []
  {
    ParseBytes(crc, file, f.start);
    NoEvents(crc, file, p, scratch);
    if !Stops(Look(crc, file, p)) {
      assert After(crc, file, p) == |file|;
      NextEvent(crc, file, p, scratch);
      LookEnd(crc, file, |file|);
      NoEvents(crc, file, |file|, None);
    }
  }

  /** When every damaged physical record fails the reader's length or checksum test, each
      record read back is one that was written, in the order written, none twice; and every
      record with no part in a damaged block is read back. */
  lemma {:induction false} NoSplicing(crc: Checksum, file: Bytes, frags: seq<Frag>, records: seq<Bytes>)
    returns (picks: seq<nat>)
    requires Fragments(frags, records) && Detected(crc, file, frags)
    ensures Picked(records, picks, Records(Events(crc, file, 0), None))
    ensures forall k :: 0 <= k < |records| && Clean(crc, file, frags, k) ==> k in picks
  {
    hide Records, Events, Clean;
    if |frags| > 0 { FragStep(frags, records, 0); }
    picks := ReadsDamaged(crc, file, frags, records, 0, 0, None);
  }
}

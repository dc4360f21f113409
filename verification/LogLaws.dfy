/**
 The reader's every case, over the bytes of any file: what a physical record of each kind adds
 to the records returned and to the corruptions reported, and that damage is never passed over
 in silence.
 */
module LogLaws {
  import opened Mvcc
  import opened LogFormat
  import opened LogReading
  import opened LogTheorems

  // What reading from p on returns and how often it reports, inside a fragmented record or not.
  function Returned(crc: Checksum, file: Bytes, p: nat, scratch: Option<Bytes>): seq<Bytes>
    requires p <= |file|
  {
    Records(Events(crc, file, p), scratch)
  }

  function Reported(crc: Checksum, file: Bytes, p: nat, scratch: Option<Bytes>): nat
    requires p <= |file|
  {
    Corruptions(Events(crc, file, p), scratch)
  }

  // A header fits at q, where reading goes on from p.
  predicate HeaderAt(file: Bytes, p: nat, q: nat) {
    p <= |file| && NextStart(p) == q && q + HEADER <= |file|
  }

  // No header fits any more: the end, with no report whatever is left over.
  lemma {:induction false} EndOfFile(crc: Checksum, file: Bytes, p: nat, scratch: Option<Bytes>)
    requires p <= |file| && NextStart(p) + HEADER > |file|
    ensures Returned(crc, file, p, scratch) == [] && Reported(crc, file, p, scratch) == 0
  {
    NoEvents(crc, file, p, scratch);
  }

  // ----- Physical records that do not check

  // A wrong length or checksum in a block that the file has whole: one report, and one more for
  // the record it cuts through; reading goes on at the next block.
  lemma {:induction false} DamageReported(crc: Checksum, file: Bytes, p: nat, q: nat, scratch: Option<Bytes>)
    requires HeaderAt(file, p, q) && BlockEnd(q) <= |file|
    requires TooLong(file, q) || (Mismatch(crc, file, q) && !Blank(file, q))
    ensures Returned(crc, file, p, scratch) == Returned(crc, file, BlockEnd(q), None)
    ensures Reported(crc, file, p, scratch)
            == 1 + (if scratch.Some? then 1 else 0) + Reported(crc, file, BlockEnd(q), None)
  {
    NextStartFits(p);
    ParseBytes(crc, file, q);
    NextEvent(crc, file, p, scratch);
  }

  // Zeros are passed over without a report, to the end of the block or of the file, unless a
  // record is cut through.
  lemma {:induction false} ZerosSkipped(crc: Checksum, file: Bytes, p: nat, q: nat, scratch: Option<Bytes>)
    requires HeaderAt(file, p, q) && Blank(file, q)
    ensures var next := Min(BlockEnd(q), |file|);
            && Returned(crc, file, p, scratch) == Returned(crc, file, next, None)
            && Reported(crc, file, p, scratch) == (if scratch.Some? then 1 else 0) + Reported(crc, file, next, None)
  {
    NextStartFits(p);
    ParseBytes(crc, file, q);
    NextEvent(crc, file, p, scratch);
  }

  // In the last block, when the file ends in it: a length that runs over the end is taken for a
  // write that was cut off, and a wrong checksum is reported; both end the reading.
  lemma {:induction false} DamageAtEnd(crc: Checksum, file: Bytes, p: nat, q: nat, scratch: Option<Bytes>)
    requires HeaderAt(file, p, q) && |file| < BlockEnd(q)
    requires TooLong(file, q) || (Mismatch(crc, file, q) && !Blank(file, q))
    ensures Returned(crc, file, p, scratch) == []
    ensures Reported(crc, file, p, scratch) == if TooLong(file, q) then 0 else 1 + if scratch.Some? then 1 else 0
  {
    NextStartFits(p);
    ParseBytes(crc, file, q);
    NoEvents(crc, file, p, scratch);
    if !TooLong(file, q) {
      NextEvent(crc, file, p, scratch);
      LookEnd(crc, file, |file|);
      NoEvents(crc, file, |file|, None);
    }
  }

  // ----- Physical records that do

  predicate Checks(crc: Checksum, file: Bytes, p: nat, q: nat, typ: Byte, payload: Bytes) {
    && HeaderAt(file, p, q) && !TooLong(file, q) && !Blank(file, q) && !Mismatch(crc, file, q)
    && typ == file[q + 6] && payload == file[q + HEADER..q + HEADER + LengthAt(file, q)]
  }

  lemma {:induction false} Passed(crc: Checksum, file: Bytes, p: nat, q: nat, typ: Byte, payload: Bytes)
    requires Checks(crc, file, p, q, typ, payload)
    ensures q + HEADER + |payload| <= |file|
    ensures Look(crc, file, p) == Record(typ, payload) && After(crc, file, p) == q + HEADER + |payload|
  {
    NextStartFits(p);
    ParseBytes(crc, file, q);
  }

  lemma {:induction false} OneMore(crc: Checksum, file: Bytes, p: nat, q: nat, typ: Byte, payload: Bytes,
                                   scratch: Option<Bytes>)
    requires Checks(crc, file, p, q, typ, payload) && typ != EOF_TYPE
    ensures var next, e := q + HEADER + |payload|, Record(typ, payload);
            var done := Completed(scratch, e);
            && next <= |file|
            && Returned(crc, file, p, scratch)
               == (if done.Some? then [done.value] else []) + Returned(crc, file, next, Scratch(scratch, e))
            && Reported(crc, file, p, scratch) == Reports(scratch, e) + Reported(crc, file, next, Scratch(scratch, e))
  {
    hide Look, After, Events, Records, Corruptions, Completed, Scratch, Reports;
    Passed(crc, file, p, q, typ, payload);
    NextEvent(crc, file, p, scratch);
  }

  // A record begun before that has something in it and is not ended is reported.
  function Unfinished(scratch: Option<Bytes>): nat {
    if scratch.Some? && scratch.value != [] then 1 else 0
  }

  lemma {:induction false} FullRecord(crc: Checksum, file: Bytes, p: nat, q: nat, payload: Bytes,
                                      scratch: Option<Bytes>)
    requires Checks(crc, file, p, q, 1, payload)
    ensures var next := q + HEADER + |payload|;
            && next <= |file| && Returned(crc, file, p, scratch) == [payload] + Returned(crc, file, next, None)
            && Reported(crc, file, p, scratch) == Unfinished(scratch) + Reported(crc, file, next, None)
  {
    hide Returned, Reported, Checks;
    OneMore(crc, file, p, q, 1, payload, scratch);
  }

  lemma {:induction false} FirstFragment(crc: Checksum, file: Bytes, p: nat, q: nat, payload: Bytes,
                                         scratch: Option<Bytes>)
    requires Checks(crc, file, p, q, 2, payload)
    ensures var next := q + HEADER + |payload|;
            && next <= |file| && Returned(crc, file, p, scratch) == Returned(crc, file, next, Some(payload))
            && Reported(crc, file, p, scratch) == Unfinished(scratch) + Reported(crc, file, next, Some(payload))
  {
    hide Returned, Reported, Checks;
    OneMore(crc, file, p, q, 2, payload, scratch);
  }

  // A middle fragment without a start is reported and dropped.
  lemma {:induction false} MiddleFragment(crc: Checksum, file: Bytes, p: nat, q: nat, payload: Bytes,
                                          scratch: Option<Bytes>)
    requires Checks(crc, file, p, q, 3, payload)
    ensures var next := q + HEADER + |payload|;
            var gathered := if scratch.Some? then Some(scratch.value + payload) else None;
            && next <= |file| && Returned(crc, file, p, scratch) == Returned(crc, file, next, gathered)
            && Reported(crc, file, p, scratch)
               == (if scratch.Some? then 0 else 1) + Reported(crc, file, next, gathered)
  {
    hide Returned, Reported, Checks;
    OneMore(crc, file, p, q, 3, payload, scratch);
  }

  // So is a last fragment without a start; with one it completes the record.
  lemma {:induction false} LastFragment(crc: Checksum, file: Bytes, p: nat, q: nat, payload: Bytes,
                                        scratch: Option<Bytes>)
    requires Checks(crc, file, p, q, 4, payload)
    ensures var next := q + HEADER + |payload|;
            && next <= |file|
            && Returned(crc, file, p, scratch)
               == (if scratch.Some? then [scratch.value + payload] else []) + Returned(crc, file, next, None)
            && Reported(crc, file, p, scratch) == (if scratch.Some? then 0 else 1) + Reported(crc, file, next, None)
  {
    hide Returned, Reported, Checks;
    OneMore(crc, file, p, q, 4, payload, scratch);
  }

  // Two type bytes that the reader takes for its own: 5 ends the reading, 6 is a bad record.
  lemma {:induction false} ReservedType(crc: Checksum, file: Bytes, p: nat, q: nat, typ: Byte, payload: Bytes,
                                        scratch: Option<Bytes>)
    requires Checks(crc, file, p, q, typ, payload) && typ in {5, 6}
    ensures var next := q + HEADER + |payload|;
            && next <= |file|
            && (typ == 5 ==> Returned(crc, file, p, scratch) == [] && Reported(crc, file, p, scratch) == 0)
            && (typ == 6 ==>
                  && Returned(crc, file, p, scratch) == Returned(crc, file, next, None)
                  && Reported(crc, file, p, scratch)
                     == (if scratch.Some? then 1 else 0) + Reported(crc, file, next, None))
  {
    hide Look, After, Events, Records, Corruptions, Checks;
    Passed(crc, file, p, q, typ, payload);
    if typ == 6 {
      OneMore(crc, file, p, q, typ, payload, scratch);
    } else {
      NoEvents(crc, file, p, scratch);
    }
  }

  // Any other type is reported, and the record it cuts through is dropped.
  lemma {:induction false} UnknownType(crc: Checksum, file: Bytes, p: nat, q: nat, typ: Byte, payload: Bytes,
                                       scratch: Option<Bytes>)
    requires Checks(crc, file, p, q, typ, payload) && (typ == 0 || typ > 6)
    ensures var next := q + HEADER + |payload|;
            && next <= |file| && Returned(crc, file, p, scratch) == Returned(crc, file, next, None)
            && Reported(crc, file, p, scratch) == 1 + Reported(crc, file, next, None)
  {
    hide Returned, Reported, Checks;
    OneMore(crc, file, p, q, typ, payload, scratch);
  }

  // ----- Nothing is lost in silence

  // Damage that the reader cannot tell from the end of the log or from preallocated zeros.
  predicate Silent(file: Bytes, f: Frag) {
    Blank(file, f.start) || (TooLong(file, f.start) && |file| < BlockEnd(f.start))
  }

  lemma {:induction false} DamageCounts(crc: Checksum, file: Bytes, frags: seq<Frag>, records: seq<Bytes>,
                                        i: nat, t: nat)
    requires Fragments(frags, records) && Detected(crc, file, frags) && |file| == EndOf(frags, |frags|)
    requires forall k :: 0 <= k < |frags| ==> !Silent(file, frags[k])
    requires i <= t < |frags| && !Intact(crc, file, frags[t])
    ensures EndOf(frags, i) <= |file| && Reported(crc, file, EndOf(frags, i), Pending(frags, i)) >= 1
    decreases t - i
  {
    hide Records, Events, Corruptions, Look, After, Completed, Scratch, Pending, Intact, Fails, Reports;
    EndsGrow(frags, records, i, |frags|);
    EndsGrow(frags, records, i + 1, |frags|);
    var p, f := EndOf(frags, i), frags[i];
    assert FragOk(frags, records, i);
    if Intact(crc, file, f) {
      LookIntact(crc, file, frags, records, i, p);
      StepIntact(frags, records, i, Pending(frags, i));
      NextEvent(crc, file, p, Pending(frags, i));
      DamageCounts(crc, file, frags, records, i + 1, t);
    } else {
      assert !Cut(crc, file, f);
      FailsHere(crc, file, p, f, Pending(frags, i));
    }
  }

  lemma {:induction false} FailsHere(crc: Checksum, file: Bytes, p: nat, f: Frag, scratch: Option<Bytes>)
    requires p <= |file| && NextStart(p) == f.start && Fails(crc, file, f) && !Silent(file, f)
    ensures Reported(crc, file, p, scratch) >= 1
  {
    hide Reported, Returned;
    if BlockEnd(f.start) <= |file| {
      DamageReported(crc, file, p, f.start, scratch);
    } else {
      DamageAtEnd(crc, file, p, f.start, scratch);
    }
  }

  /** A log of its full length, with any damage that the length or checksum test can see and that
      does not look like zeros or like a cut-off write, is read without a report if and only if
      nothing is damaged; and then every record is returned. */
  lemma {:induction false} NoSilentLoss(crc: Checksum, file: Bytes, frags: seq<Frag>, records: seq<Bytes>)
    requires Fragments(frags, records) && Detected(crc, file, frags) && |file| == EndOf(frags, |frags|)
    requires forall k :: 0 <= k < |frags| ==> !Silent(file, frags[k])
    ensures Reported(crc, file, 0, None) == 0 <==> forall k :: 0 <= k < |frags| ==> Intact(crc, file, frags[k])
    ensures Reported(crc, file, 0, None) == 0 ==> Returned(crc, file, 0, None) == records
  {
    hide Records, Events, Corruptions, Intact, Fragments;
    if forall k :: 0 <= k < |frags| ==> Intact(crc, file, frags[k]) {
      var m := ReadBackAnyPrefix(crc, file, frags, records, |file|);
      assert file[..|file|] == file && records[..m] == records;
    } else {
      var t :| 0 <= t < |frags| && !Intact(crc, file, frags[t]);
      DamageCounts(crc, file, frags, records, 0, t);
      NothingPending(frags, records);
    }
  }

  lemma {:induction false} NothingPending(frags: seq<Frag>, records: seq<Bytes>)
    ensures Pending(frags, 0) == None && EndOf(frags, 0) == 0
  {
  }
}

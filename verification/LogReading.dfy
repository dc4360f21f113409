/**
 Reading a log file, as a function of its bytes: which physical record the reader finds at a
 position, the stream of them, and how records are put together from the stream.
 */
module LogReading {
  import opened Mvcc
  import opened Coding
  import opened LogFormat

  // What ReadPhysicalRecord returns: a physical record, kBadRecord (with or without a
  // corruption report), or kEof.
  datatype Event = Record(typ: Byte, payload: Bytes) | Bad(reported: bool) | Eof

  // Two type bytes that the reader also uses for its own ends: a physical record with one of
  // them, which no writer emits, is taken for the end of the log or for a bad record.
  const EOF_TYPE: Byte := 5
  const BAD_TYPE: Byte := 6

  // Where reading ends.
  predicate Stops(e: Event) {
    e.Eof? || (e.Record? && e.typ == EOF_TYPE)
  }

  function Min(a: nat, b: nat): nat { if a < b then a else b }

  // The rest of q's block, as far as the file has it.
  function Rest(file: Bytes, q: nat): Bytes
    requires q <= |file|
  {
    file[q..Min(BlockEnd(q), |file|)]
  }

  function Length(block: Bytes): nat
    requires |block| >= HEADER
  {
    block[4] as int + 256 * block[5] as int
  }

  // The physical record at the front of a block's rest, in the reader's order of checks. A
  // length that does not fit ends the file when the block is cut short; every other failure
  // drops the rest of the block.
  function ParseBlock(crc: Checksum, block: Bytes, cut: bool): Event
    requires |block| >= HEADER
  {
    var n := Length(block);
    if HEADER + n > |block| then (if cut then Eof else Bad(true))
    else if block[6] == ZERO && n == 0 then Bad(false)
    else if DecodeFixed32(block[..4]) != crc(block[6], block[HEADER..HEADER + n]) then Bad(true)
    else Record(block[6], block[HEADER..HEADER + n])
  }

  function Parse(crc: Checksum, file: Bytes, q: nat): (e: Event)
    requires q + HEADER <= |file| && q + HEADER <= BlockEnd(q)
    ensures e.Record? ==> q + HEADER + |e.payload| <= Min(BlockEnd(q), |file|)
    ensures e.Eof? ==> |file| < BlockEnd(q)
  {
    ParseBlock(crc, Rest(file, q), |file| < BlockEnd(q))
  }

  // ----- What the bytes at a header's place say

  function LengthAt(file: Bytes, q: nat): nat
    requires q + HEADER <= |file|
  {
    file[q + 4] as int + 256 * file[q + 5] as int
  }

  // The length runs over the block, or over the end of the file.
  predicate TooLong(file: Bytes, q: nat) {
    q + HEADER <= |file| && (q + HEADER + LengthAt(file, q) > BlockEnd(q) || q + HEADER + LengthAt(file, q) > |file|)
  }

  // Zeros, as left by preallocation.
  predicate Blank(file: Bytes, q: nat) {
    q + HEADER <= |file| && file[q + 6] == 0 && LengthAt(file, q) == 0
  }

  // The stored checksum is not that of the type and the payload.
  predicate Mismatch(crc: Checksum, file: Bytes, q: nat) {
    && q + HEADER <= |file| && !TooLong(file, q)
    && file[q] as int + 0x100 * file[q + 1] as int + 0x1_0000 * file[q + 2] as int + 0x100_0000 * file[q + 3] as int
       != crc(file[q + 6], file[q + HEADER..q + HEADER + LengthAt(file, q)])
  }

  lemma {:induction false} PartOfPart(s: Bytes, from: nat, to: nat, a: nat, b: nat)
    requires from <= to <= |s| && a <= b <= to - from
    ensures s[from..to][a..b] == s[from + a..from + b]
  {
    var x, y := s[from..to][a..b], s[from + a..from + b];
    assert |x| == |y| && forall i :: 0 <= i < |x| ==> x[i] == y[i];
  }

  lemma {:induction false} ParseBytes(crc: Checksum, file: Bytes, q: nat)
    requires q + HEADER <= |file| && q + HEADER <= BlockEnd(q)
    ensures Parse(crc, file, q) ==
            if TooLong(file, q) then (if |file| < BlockEnd(q) then Eof else Bad(true))
            else if Blank(file, q) then Bad(false)
            else if Mismatch(crc, file, q) then Bad(true)
            else Record(file[q + 6], file[q + HEADER..q + HEADER + LengthAt(file, q)])
  {
    var block, n := Rest(file, q), LengthAt(file, q);
    assert Length(block) == n && block[6] == file[q + 6];
    if !TooLong(file, q) {
      PartOfPart(file, q, Min(BlockEnd(q), |file|), HEADER, HEADER + n);
      assert block[..4] == [file[q], file[q + 1], file[q + 2], file[q + 3]];
    }
  }

  // From a reader that has consumed p bytes.
  function Look(crc: Checksum, file: Bytes, p: nat): Event {
    NextStartFits(p);
    if NextStart(p) + HEADER > |file| then Eof else Parse(crc, file, NextStart(p))
  }

  // How many bytes are consumed after that.
  function After(crc: Checksum, file: Bytes, p: nat): (p': nat)
    requires p <= |file|
    ensures p <= p' <= |file|
    ensures !Look(crc, file, p).Eof? ==> p < p'
  {
    NextStartFits(p);
    match Look(crc, file, p)
    case Record(_, payload) => NextStart(p) + HEADER + |payload|
    case Bad(_) => Min(BlockEnd(NextStart(p)), |file|)
    case Eof => |file|
  }

  // All events up to the one that ends reading.
  function Events(crc: Checksum, file: Bytes, p: nat): seq<Event>
    requires p <= |file|
    decreases |file| - p
  {
    if Stops(Look(crc, file, p)) then []
    else [Look(crc, file, p)] + Events(crc, file, After(crc, file, p))
  }

  // How many bytes are consumed by then.
  ghost function EndsAt(crc: Checksum, file: Bytes, p: nat): nat
    requires p <= |file|
    decreases |file| - p
  {
    if Stops(Look(crc, file, p)) then After(crc, file, p) else EndsAt(crc, file, After(crc, file, p))
  }

  // ----- Putting records together (ReadRecord, call after call)

  // The fragments collected so far, when inside a fragmented record.
  function Scratch(scratch: Option<Bytes>, e: Event): Option<Bytes> {
    if e.Record? && e.typ == FIRST then Some(e.payload)
    else if e.Record? && e.typ == MIDDLE && scratch.Some? then Some(scratch.value + e.payload)
    else None
  }

  // The record completed by this event, if any.
  function Completed(scratch: Option<Bytes>, e: Event): Option<Bytes> {
    if e.Record? && e.typ == FULL then Some(e.payload)
    else if e.Record? && e.typ == LAST && scratch.Some? then Some(scratch.value + e.payload)
    else None
  }

  // Whether this event is reported as a corruption, by either function.
  function Reports(scratch: Option<Bytes>, e: Event): nat {
    var inside := scratch.Some?;
    match e
    case Record(typ, _) =>
      if typ == FULL || typ == FIRST then (if inside && scratch.value != [] then 1 else 0)
      else if typ == MIDDLE || typ == LAST then (if inside then 0 else 1)
      else if typ == BAD_TYPE then (if inside then 1 else 0)
      else 1
    case Bad(reported) => (if reported then 1 else 0) + (if inside then 1 else 0)
    case Eof => 0
  }

  function Records(events: seq<Event>, scratch: Option<Bytes>): seq<Bytes> {
    if events == [] then []
    else
      var done := Completed(scratch, events[0]);
      (if done.Some? then [done.value] else []) + Records(events[1..], Scratch(scratch, events[0]))
  }

  function Corruptions(events: seq<Event>, scratch: Option<Bytes>): nat {
    if events == [] then 0
    else Reports(scratch, events[0]) + Corruptions(events[1..], Scratch(scratch, events[0]))
  }

  // One event more, from the reader's position.
  lemma {:induction false} NextEvent(crc: Checksum, file: Bytes, p: nat, scratch: Option<Bytes>)
    requires p <= |file| && !Stops(Look(crc, file, p))
    ensures var e, rest, done :=
            Look(crc, file, p), Events(crc, file, After(crc, file, p)), Completed(scratch, Look(crc, file, p));
            && Records(Events(crc, file, p), scratch)
               == (if done.Some? then [done.value] else []) + Records(rest, Scratch(scratch, e))
            && Corruptions(Events(crc, file, p), scratch)
               == Reports(scratch, e) + Corruptions(rest, Scratch(scratch, e))
            && EndsAt(crc, file, p) == EndsAt(crc, file, After(crc, file, p))
  {
    assert Events(crc, file, p)[1..] == Events(crc, file, After(crc, file, p));
  }

  // ----- What the reader finds at a fragment

  lemma {:induction false} ParseIntact(crc: Checksum, file: Bytes, f: Frag)
    requires Intact(crc, file, f) && f.End() <= BlockEnd(f.start) && f.typ != ZERO
    ensures Parse(crc, file, f.start) == Record(f.typ, f.payload)
  {
    var block := Rest(file, f.start);
    assert block[..HEADER + |f.payload|] == Physical(crc, f.typ, f.payload);
    assert block[..4] == Physical(crc, f.typ, f.payload)[..4] == EncodeFixed32(crc(f.typ, f.payload));
    assert block[HEADER..HEADER + |f.payload|] == f.payload;
    FixedRoundTrip(crc(f.typ, f.payload));
  }

  // The file was cut inside (or before) the fragment, and what is left of it is undamaged.
  predicate Cut(crc: Checksum, file: Bytes, f: Frag) {
    && |f.payload| <= 0xFFFF && |file| < f.End()
    && (f.start + HEADER <= |file| ==> file[f.start..|file|] == Physical(crc, f.typ, f.payload)[..|file| - f.start])
  }

  lemma {:induction false} ParseCut(crc: Checksum, file: Bytes, f: Frag)
    requires Cut(crc, file, f) && f.End() <= BlockEnd(f.start)
    requires f.start + HEADER <= |file|
    ensures Parse(crc, file, f.start) == Eof
  {
    assert Rest(file, f.start) == Physical(crc, f.typ, f.payload)[..|file| - f.start];
  }
}

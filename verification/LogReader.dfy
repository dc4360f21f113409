/**
 The log reader (`log::Reader`): a block-buffered loop that must behave as the position-based
 description of reading does.
 */
module LogReader {
  import opened Mvcc
  import opened Coding
  import opened LogFormat
  import opened LogReading
  import opened LogTheorems

  lemma {:induction false} WithinBlock(q: nat, c: nat)
    requires q < c < BlockEnd(q)
    ensures BlockEnd(c) == BlockEnd(q) && c % 32768 != 0
  {
  }

  // Fewer than a header's bytes left, at the end of a full block: the next header is in the
  // next block.
  lemma {:induction false} SkipTrailer(p: nat, end: nat)
    requires p <= end < p + HEADER && end % 32768 == 0 && (p < end ==> end <= BlockEnd(p))
    ensures NextStart(p) == end && BlockEnd(end) == end + 32768
  {
    if p < end { assert BlockEnd(p) == end; }
  }

  class Reader {
    const crc: Checksum
    const file: Bytes
    var endOfBuffer: nat   // bytes of the file read so far
    var buffer: Bytes      // the unconsumed rest of the last block read
    var eof: bool          // the last read came up short
    var reports: nat       // corruptions reported

    constructor (crc: Checksum, file: Bytes)
      ensures Valid() && Consumed() == 0 && reports == 0 && this.crc == crc && this.file == file
    {
      this.crc, this.file, endOfBuffer, buffer, eof, reports := crc, file, 0, [], false, 0;
    }

    function Consumed(): int
      reads this
    {
      endOfBuffer - |buffer|
    }

    // The buffer is the rest of the current block, as far as the file goes.
    ghost predicate Valid()
      reads this
    {
      && 0 <= Consumed() && endOfBuffer <= |file| && buffer == file[Consumed()..endOfBuffer]
      && (eof ==> endOfBuffer == |file|)
      && (!eof ==> endOfBuffer % 32768 == 0)
      && (buffer != [] ==> endOfBuffer == Min(BlockEnd(Consumed()), |file|) && Consumed() % 32768 != 0)
      && (eof && buffer != [] ==> |file| < BlockEnd(Consumed()))
    }

    // Refills the buffer with the next block.
    method ReadBlock()
      requires !eof && endOfBuffer % 32768 == 0 && endOfBuffer <= |file|
      modifies this
      ensures endOfBuffer == Min(old(endOfBuffer) + 32768, |file|) && buffer == file[old(endOfBuffer)..endOfBuffer]
      ensures eof <==> |file| < old(endOfBuffer) + 32768
      ensures reports == old(reports)
    {
      var start := endOfBuffer;
      endOfBuffer := Min(start + 32768, |file|);
      buffer := file[start..endOfBuffer];
      if |buffer| < 32768 {
        eof := true;
      }
    }

    // The buffer holds a header: the rest of the checks.
    method ParseBuffer() returns (e: Event)
      requires |buffer| >= HEADER
      modifies this
      ensures e == ParseBlock(crc, old(buffer), eof) && endOfBuffer == old(endOfBuffer) && eof == old(eof)
      ensures buffer == if e.Record? then old(buffer)[HEADER + |e.payload|..] else []
      ensures reports == old(reports) + if e == Bad(true) then 1 else 0
    {
      var length := buffer[4] as int + 256 * buffer[5] as int;
      var typ := buffer[6];
      if HEADER + length > |buffer| {
        buffer := [];
        if !eof {
          reports := reports + 1;
          return Bad(true);
        }
        return Eof;
      }
      if typ == ZERO && length == 0 {
        buffer := [];
        return Bad(false);
      }
      var payload := buffer[HEADER..HEADER + length];
      if DecodeFixed32(buffer[..4]) != crc(typ, payload) {
        buffer := [];
        reports := reports + 1;
        return Bad(true);
      }
      buffer := buffer[HEADER + length..];
      return Record(typ, payload);
    }

    // The buffer is the rest of the block at q, just read or partly consumed.
    ghost predicate AtBlock(q: nat)
      reads this
    {
      && q + HEADER <= |file| && q + HEADER <= BlockEnd(q)
      && buffer == Rest(file, q) && endOfBuffer == Min(BlockEnd(q), |file|)
      && (eof <==> |file| < BlockEnd(q))
    }

    method ParseAt(ghost q: nat) returns (e: Event)
      requires AtBlock(q)
      modifies this
      ensures Valid() && e == Parse(crc, file, q)
      ensures Consumed() == if e.Record? then q + HEADER + |e.payload| else Min(BlockEnd(q), |file|)
      ensures reports == old(reports) + if e == Bad(true) then 1 else 0
    {
      hide ParseBlock;
      e := ParseBuffer();
      assert e == Parse(crc, file, q);
      if buffer != [] {
        WithinBlock(q, Consumed());
      }
    }

    method ReadPhysicalRecord() returns (e: Event)
      requires Valid()
      modifies this
      ensures Valid()
      ensures e == Look(crc, file, old(Consumed())) && Consumed() == After(crc, file, old(Consumed()))
      ensures reports == old(reports) + if e == Bad(true) then 1 else 0
    {
      hide Parse;
      ghost var p: nat, refilled := Consumed(), false;
      NextStartFits(p);
      while |buffer| < HEADER
        invariant reports == old(reports)
        invariant !refilled ==> Valid() && Consumed() == p
        invariant refilled ==>
          && NextStart(p) == Consumed() && endOfBuffer == Min(BlockEnd(NextStart(p)), |file|)
          && buffer == file[NextStart(p)..endOfBuffer] && (eof <==> |file| < BlockEnd(NextStart(p)))
        decreases if |buffer| < HEADER && !eof then 1 else 0
      {
        if eof {
          // A truncated header at the end of the file is not an error.
          buffer := [];
          return Eof;
        }
        SkipTrailer(p, endOfBuffer);
        ReadBlock();
        refilled := true;
      }
      e := ParseAt(NextStart(p));
    }

    // ----- Logical records

    // What is gathered of a fragmented record.
    function Gathered(inFragmentedRecord: bool, scratch: Bytes): Option<Bytes> {
      if inFragmentedRecord then Some(scratch) else None
    }

    // The switch over record types: one physical record is added to what is gathered.
    method Assemble(e: Event, inFragmentedRecord: bool, scratch: Bytes)
      returns (record: Option<Bytes>, inFragmentedRecord': bool, scratch': Bytes)
      requires !Stops(e)
      modifies this`reports
      ensures record == Completed(Gathered(inFragmentedRecord, scratch), e)
      ensures record.None? ==>
                Gathered(inFragmentedRecord', scratch') == Scratch(Gathered(inFragmentedRecord, scratch), e)
      ensures reports + (if e == Bad(true) then 1 else 0)
              == old(reports) + Reports(Gathered(inFragmentedRecord, scratch), e)
    {
      record, inFragmentedRecord', scratch' := None, inFragmentedRecord, scratch;
      match e
      case Record(typ, fragment) =>
        if typ == FULL {
          if inFragmentedRecord && scratch != [] {
            reports := reports + 1;
          }
          record := Some(fragment);
        } else if typ == FIRST {
          if inFragmentedRecord && scratch != [] {
            reports := reports + 1;
          }
          scratch' := fragment;
          inFragmentedRecord' := true;
        } else if typ == MIDDLE {
          if !inFragmentedRecord {
            reports := reports + 1;
          } else {
            scratch' := scratch + fragment;
          }
        } else if typ == LAST {
          if !inFragmentedRecord {
            reports := reports + 1;
          } else {
            record := Some(scratch + fragment);
          }
        } else if typ != BAD_TYPE || inFragmentedRecord {
          reports := reports + 1;
          inFragmentedRecord' := false;
          scratch' := [];
        }
      case Bad(_) =>
        if inFragmentedRecord {
          reports := reports + 1;
          inFragmentedRecord' := false;
          scratch' := [];
        }
    }

    /** Returns the next logical record, or none at the end of the log; whatever is still to
        come is left to be read. */
    method ReadRecord() returns (record: Option<Bytes>)
      requires Valid()
      modifies this
      ensures Valid() && old(Consumed()) <= Consumed() && (record.Some? ==> old(Consumed()) < Consumed())
      ensures var before, after := Events(crc, file, old(Consumed())), Events(crc, file, Consumed());
              if record.Some? then
                && Records(before, None) == [record.value] + Records(after, None)
                && reports + Corruptions(after, None) == old(reports) + Corruptions(before, None)
                && EndsAt(crc, file, Consumed()) == EndsAt(crc, file, old(Consumed()))
              else
                && Records(before, None) == []
                && reports == old(reports) + Corruptions(before, None)
                && Consumed() == EndsAt(crc, file, old(Consumed()))
    {
      hide Events, Records, Corruptions, Look, After, Completed, Scratch, Reports, EndsAt;
      var inFragmentedRecord, scratch := false, [];
      ghost var before := Events(crc, file, Consumed());
      while true
        invariant Valid() && old(Consumed()) <= Consumed()
        invariant Records(before, None) == Records(Events(crc, file, Consumed()), Gathered(inFragmentedRecord, scratch))
        invariant reports + Corruptions(Events(crc, file, Consumed()), Gathered(inFragmentedRecord, scratch))
               == old(reports) + Corruptions(before, None)
        invariant EndsAt(crc, file, Consumed()) == EndsAt(crc, file, old(Consumed()))
        decreases |file| - Consumed()
      {
        ghost var p := Consumed();
        var e := ReadPhysicalRecord();
        if Stops(e) {
          NoEvents(crc, file, p, Gathered(inFragmentedRecord, scratch));
          return None;
        }
        NextEvent(crc, file, p, Gathered(inFragmentedRecord, scratch));
        CompletedClears(Gathered(inFragmentedRecord, scratch), e);
        record, inFragmentedRecord, scratch := Assemble(e, inFragmentedRecord, scratch);
        if record.Some? {
          return;
        }
      }
    }

    /** The recovery loop: read until there are no more records. */
    method ReadAll() returns (records: seq<Bytes>)
      requires Valid() && Consumed() == 0 && reports == 0
      modifies this
      ensures records == Records(Events(crc, file, 0), None) && Consumed() == EndsAt(crc, file, 0)
      ensures reports == Corruptions(Events(crc, file, 0), None)
    {
      hide Events, Records, Corruptions, EndsAt;
      records := [];
      ghost var all := Records(Events(crc, file, 0), None);
      var record := ReadRecord();
      while record.Some?
        invariant Valid() && Consumed() <= |file|
        invariant if record.Some? then
            && records + ([record.value] + Records(Events(crc, file, Consumed()), None)) == all
            && reports + Corruptions(Events(crc, file, Consumed()), None) == Corruptions(Events(crc, file, 0), None)
            && EndsAt(crc, file, Consumed()) == EndsAt(crc, file, 0)
          else
            && records == all && reports == Corruptions(Events(crc, file, 0), None)
            && Consumed() == EndsAt(crc, file, 0)
        decreases |file| - Consumed(), record.Some?
      {
        records := records + [record.value];
        record := ReadRecord();
      }
    }
  }

  // A completed record leaves nothing gathered.
  lemma {:induction false} CompletedClears(scratch: Option<Bytes>, e: Event)
    ensures Completed(scratch, e).Some? ==> Scratch(scratch, e) == None
  {
  }
}

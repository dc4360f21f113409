/**
 The log file format: records cut into physical records that never straddle a 32 KB block.
 */
module LogFormat {
  import opened Mvcc
  import opened Coding

  const HEADER := 7

  // RecordType (log_format.h)
  const ZERO: Byte := 0
  const FULL: Byte := 1
  const FIRST: Byte := 2
  const MIDDLE: Byte := 3
  const LAST: Byte := 4

  // The checksum stored in a header: an arbitrary function of the type byte and the payload.
  type Checksum = (Byte, Bytes) -> Word

  // The end of the block that holds byte p.
  function BlockEnd(p: nat): (e: nat)
    ensures p < e <= p + 32768 && e % 32768 == 0
    ensures p % 32768 == 0 <==> e == p + 32768
  {
    (p / 32768 + 1) * 32768
  }

  // Where the next header can go: a block's last six bytes are too few for one.
  function NextStart(p: nat): nat {
    if BlockEnd(p) - p < HEADER then BlockEnd(p) else p
  }

  lemma {:induction false} NextStartFits(p: nat)
    ensures p <= NextStart(p) && NextStart(p) + HEADER <= BlockEnd(NextStart(p))
    ensures NextStart(p) == p ==> BlockEnd(NextStart(p)) == BlockEnd(p)
    ensures NextStart(p) != p ==> NextStart(p) == BlockEnd(p) && BlockEnd(NextStart(p)) == BlockEnd(p) + 32768
  {
  }

  // EmitPhysicalRecord: header and payload.
  function Header(crc: Checksum, typ: Byte, payload: Bytes): (b: Bytes)
    requires |payload| <= 0xFFFF
    ensures |b| == HEADER
  {
    EncodeFixed32(crc(typ, payload)) + [|payload| % 256, |payload| / 256, typ]
  }

  function Physical(crc: Checksum, typ: Byte, payload: Bytes): (b: Bytes)
    requires |payload| <= 0xFFFF
    ensures |b| == HEADER + |payload|
  {
    Header(crc, typ, payload) + payload
  }

  // ----- A written log

  // One physical record: where it starts, its type and payload, and the record it is part of.
  datatype Frag = Frag(start: nat, typ: Byte, payload: Bytes, rec: nat) {
    function End(): nat { start + HEADER + |payload| }
  }

  predicate Begins(frags: seq<Frag>, i: nat)
    requires i < |frags|
  {
    i == 0 || frags[i - 1].rec != frags[i].rec
  }

  predicate Ends(frags: seq<Frag>, i: nat)
    requires i < |frags|
  {
    i == |frags| - 1 || frags[i + 1].rec != frags[i].rec
  }

  function TypeOf(begins: bool, ends: bool): Byte {
    if begins && ends then FULL else if begins then FIRST else if ends then LAST else MIDDLE
  }

  // The record's content up to and including fragment i.
  function Gathered(frags: seq<Frag>, i: nat): Bytes
    requires i < |frags|
  {
    (if i == 0 || frags[i - 1].rec != frags[i].rec then [] else Gathered(frags, i - 1)) + frags[i].payload
  }

  // The end of the log after its first n fragments.
  function EndOf(frags: seq<Frag>, n: nat): nat
    requires n <= |frags|
  {
    if n == 0 then 0 else frags[n - 1].End()
  }

  // Fragment i lies inside one block, right after the one before it or, when no header fits
  // there, at the next block; it carries its part of its record, and fills the block unless it
  // is the record's last.
  predicate FragOk(frags: seq<Frag>, records: seq<Bytes>, i: nat)
    requires i < |frags|
  {
    && frags[i].start == NextStart(EndOf(frags, i))
    && frags[i].End() <= BlockEnd(frags[i].start)
    && (!Ends(frags, i) ==> frags[i].End() == BlockEnd(frags[i].start))
    && frags[i].typ == TypeOf(Begins(frags, i), Ends(frags, i))
    && frags[i].rec < |records|
    && (if i == 0 then frags[i].rec == 0 else frags[i - 1].rec <= frags[i].rec <= frags[i - 1].rec + 1)
    && (Ends(frags, i) ==> Gathered(frags, i) == records[frags[i].rec])
  }

  // The fragments carry the records, in order.
  ghost predicate Fragments(frags: seq<Frag>, records: seq<Bytes>) {
    && (forall i :: 0 <= i < |frags| ==> FragOk(frags, records, i))
    && |records| == if frags == [] then 0 else frags[|frags| - 1].rec + 1
  }

  predicate Intact(crc: Checksum, file: Bytes, f: Frag) {
    |f.payload| <= 0xFFFF && f.End() <= |file| && file[f.start..f.End()] == Physical(crc, f.typ, f.payload)
  }

  // The file holds exactly these fragments.
  ghost predicate Written(crc: Checksum, file: Bytes, frags: seq<Frag>, records: seq<Bytes>) {
    && Fragments(frags, records)
    && |file| == EndOf(frags, |frags|)
    && forall i :: 0 <= i < |frags| ==> Intact(crc, file, frags[i])
  }
}

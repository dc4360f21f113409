/**
 The log writer (`log::Writer`): records cut into fragments, block by block.
 */
module LogFile {
  import opened Mvcc
  import opened LogFormat

  // ----- The fragments of one record

  function Joined(pieces: seq<Frag>): Bytes {
    if pieces == [] then [] else Joined(pieces[..|pieces| - 1]) + pieces[|pieces| - 1].payload
  }

  function PieceEnd(base: nat, pieces: seq<Frag>, n: nat): nat
    requires n <= |pieces|
  {
    if n == 0 then base else pieces[n - 1].End()
  }

  predicate PieceOk(base: nat, rec: nat, pieces: seq<Frag>, complete: bool, k: nat)
    requires k < |pieces|
  {
    && pieces[k].start == NextStart(PieceEnd(base, pieces, k))
    && pieces[k].End() <= BlockEnd(pieces[k].start)
    && (!(complete && k == |pieces| - 1) ==> pieces[k].End() == BlockEnd(pieces[k].start))
    && pieces[k].rec == rec
    && pieces[k].typ == TypeOf(k == 0, complete && k == |pieces| - 1)
  }

  // Fragments of record `rec`, laid out from `base`; complete when the last one closes it.
  ghost predicate Pieces(base: nat, rec: nat, pieces: seq<Frag>, complete: bool) {
    forall k :: 0 <= k < |pieces| ==> PieceOk(base, rec, pieces, complete, k)
  }

  lemma {:induction false} JoinedSnoc(pieces: seq<Frag>, k: nat)
    requires k < |pieces|
    ensures Joined(pieces[..0]) == [] && Joined(pieces[..k + 1]) == Joined(pieces[..k]) + pieces[k].payload
  {
    assert pieces[..k + 1][..k] == pieces[..k];
  }

  lemma {:induction false} GatheredStep(frags: seq<Frag>, i: nat)
    requires i < |frags|
    ensures i > 0 && frags[i - 1].rec == frags[i].rec ==>
              Gathered(frags, i) == Gathered(frags, i - 1) + frags[i].payload
    ensures i == 0 || frags[i - 1].rec != frags[i].rec ==> Gathered(frags, i) == frags[i].payload
  {
    assert [] + frags[i].payload == frags[i].payload;
  }

  lemma {:induction false} PiecesGathered(frags: seq<Frag>, pieces: seq<Frag>, rec: nat, k: nat)
    requires k < |pieces| && (forall t :: 0 <= t < |pieces| ==> pieces[t].rec == rec)
    requires |frags| > 0 ==> frags[|frags| - 1].rec != rec
    ensures Gathered(frags + pieces, |frags| + k) == Joined(pieces[..k + 1])
  {
    hide Joined, Gathered;
    var all := frags + pieces;
    JoinedSnoc(pieces, k);
    GatheredStep(all, |frags| + k);
    assert all[|frags| + k] == pieces[k];
    if k == 0 {
      assert |frags| > 0 ==> all[|frags| - 1] == frags[|frags| - 1];
    } else {
      PiecesGathered(frags, pieces, rec, k - 1);
      assert all[|frags| + k - 1] == pieces[k - 1];
    }
  }

  lemma {:induction false} GatheredPrefix(frags: seq<Frag>, pieces: seq<Frag>, i: nat)
    requires i < |frags|
    ensures Gathered(frags + pieces, i) == Gathered(frags, i)
  {
    if i > 0 { GatheredPrefix(frags, pieces, i - 1); }
  }

  // Closing a record extends the log by it.
  lemma {:induction false} RecordAppended(frags: seq<Frag>, records: seq<Bytes>, pieces: seq<Frag>)
    requires Fragments(frags, records)
    requires |pieces| > 0 && Pieces(EndOf(frags, |frags|), |records|, pieces, true)
    ensures Fragments(frags + pieces, records + [Joined(pieces)])
  {
    var all, records' := frags + pieces, records + [Joined(pieces)];
    forall i | 0 <= i < |all| ensures FragOk(all, records', i) {
      if i < |frags| {
        OldFragOk(frags, records, pieces, i);
      } else {
        NewFragOk(frags, records, pieces, i - |frags|);
      }
    }
    assert PieceOk(EndOf(frags, |frags|), |records|, pieces, true, |pieces| - 1);
  }

  lemma {:induction false} OldFragOk(frags: seq<Frag>, records: seq<Bytes>, pieces: seq<Frag>, i: nat)
    requires Fragments(frags, records) && i < |frags|
    requires |pieces| > 0 && Pieces(EndOf(frags, |frags|), |records|, pieces, true)
    ensures FragOk(frags + pieces, records + [Joined(pieces)], i)
  {
    assert FragOk(frags, records, i);
    assert PieceOk(EndOf(frags, |frags|), |records|, pieces, true, 0);
    GatheredPrefix(frags, pieces, i);
    var all := frags + pieces;
    assert all[i] == frags[i] && (i > 0 ==> all[i - 1] == frags[i - 1]);
    assert i + 1 < |frags| ==> all[i + 1] == frags[i + 1];
    assert i + 1 == |frags| ==> all[i + 1] == pieces[0];
  }

  lemma {:induction false} NewFragOk(frags: seq<Frag>, records: seq<Bytes>, pieces: seq<Frag>, k: nat)
    requires Fragments(frags, records) && k < |pieces|
    requires Pieces(EndOf(frags, |frags|), |records|, pieces, true)
    ensures FragOk(frags + pieces, records + [Joined(pieces)], |frags| + k)
  {
    hide Joined, Gathered;
    var all, i := frags + pieces, |frags| + k;
    if |frags| > 0 { assert FragOk(frags, records, |frags| - 1); }
    forall t | 0 <= t < |pieces| ensures pieces[t].rec == |records| {
      assert PieceOk(EndOf(frags, |frags|), |records|, pieces, true, t);
    }
    assert PieceOk(EndOf(frags, |frags|), |records|, pieces, true, k);
    PiecesGathered(frags, pieces, |records|, k);
    assert pieces[..|pieces|] == pieces;
    assert all[i] == pieces[k] && (k > 0 ==> all[i - 1] == pieces[k - 1])
           && (k == 0 && i > 0 ==> all[i - 1] == frags[i - 1]);
    assert k + 1 < |pieces| ==> all[i + 1] == pieces[k + 1];
  }

  lemma {:induction false} PieceAdded(base: nat, rec: nat, pieces: seq<Frag>, f: Frag, complete: bool)
    requires Pieces(base, rec, pieces, false)
    requires f.start == NextStart(PieceEnd(base, pieces, |pieces|)) && f.End() <= BlockEnd(f.start) && f.rec == rec
    requires f.typ == TypeOf(pieces == [], complete) && (!complete ==> f.End() == BlockEnd(f.start))
    ensures Pieces(base, rec, pieces + [f], complete)
    ensures Joined(pieces + [f]) == Joined(pieces) + f.payload
  {
    var all := pieces + [f];
    assert all[..|pieces|] == pieces;
    forall k | 0 <= k < |all| ensures PieceOk(base, rec, all, complete, k) {
      if k < |pieces| {
        assert PieceOk(base, rec, pieces, false, k);
        assert k > 0 ==> all[k - 1] == pieces[k - 1];
      }
    }
  }

  lemma {:induction false} StillIntact(crc: Checksum, file: Bytes, more: Bytes, f: Frag)
    requires Intact(crc, file, f)
    ensures Intact(crc, file + more, f)
  {
    assert (file + more)[f.start..f.End()] == file[f.start..f.End()];
  }

  // The file so far: the log, plus the pieces of one more record.
  ghost predicate Partial(crc: Checksum, file: Bytes, frags: seq<Frag>, records: seq<Bytes>, pieces: seq<Frag>,
                          complete: bool) {
    && Fragments(frags, records)
    && Pieces(EndOf(frags, |frags|), |records|, pieces, complete)
    && |file| == PieceEnd(EndOf(frags, |frags|), pieces, |pieces|)
    && (forall i :: 0 <= i < |frags| ==> Intact(crc, file, frags[i]))
    && (forall k :: 0 <= k < |pieces| ==> Intact(crc, file, pieces[k]))
  }

  // Appending a physical record, perhaps after a trailer, adds a piece.
  lemma {:induction false} PieceEmitted(crc: Checksum, file: Bytes, trailer: Bytes, frags: seq<Frag>,
                                        records: seq<Bytes>,
                                        pieces: seq<Frag>, f: Frag, complete: bool)
    requires Partial(crc, file, frags, records, pieces, false)
    requires |f.payload| <= 0xFFFF && f.start == |file + trailer| == NextStart(|file|)
    requires f.End() <= BlockEnd(f.start) && f.rec == |records| && f.typ == TypeOf(pieces == [], complete)
    requires !complete ==> f.End() == BlockEnd(f.start)
    ensures Partial(crc, file + trailer + Physical(crc, f.typ, f.payload), frags, records, pieces + [f], complete)
  {
    PieceAdded(EndOf(frags, |frags|), |records|, pieces, f, complete);
    var more := trailer + Physical(crc, f.typ, f.payload);
    var file' := file + trailer + Physical(crc, f.typ, f.payload);
    assert file' == file + more;
    forall i | 0 <= i < |frags| ensures Intact(crc, file', frags[i]) { StillIntact(crc, file, more, frags[i]); }
    forall k | 0 <= k < |pieces| ensures Intact(crc, file', pieces[k]) { StillIntact(crc, file, more, pieces[k]); }
    assert file'[f.start..f.End()] == Physical(crc, f.typ, f.payload);
  }

  lemma {:induction false} RecordWritten(crc: Checksum, file: Bytes, frags: seq<Frag>, records: seq<Bytes>,
                                         pieces: seq<Frag>)
    requires Partial(crc, file, frags, records, pieces, true) && |pieces| > 0
    ensures Written(crc, file, frags + pieces, records + [Joined(pieces)])
  {
    RecordAppended(frags, records, pieces);
  }

  // ----- The writer

  class Writer {
    const crc: Checksum
    var dest: Bytes
    var blockOffset: nat
    ghost var frags: seq<Frag>
    ghost var records: seq<Bytes>

    ghost predicate Valid()
      reads this
    {
      Written(crc, dest, frags, records) && OffsetOk()
    }

    // Either the offset of the file's end in its block, or the block's size at its very end.
    ghost predicate OffsetOk()
      reads this
    {
      blockOffset <= 32768 && BlockEnd(|dest|) - |dest| == if blockOffset == 32768 then 32768 else 32768 - blockOffset
    }

    constructor (crc: Checksum)
      ensures Valid() && records == [] && dest == []
    {
      this.crc, dest, blockOffset, frags, records := crc, [], 0, [], [];
    }

    method EmitPhysicalRecord(typ: Byte, payload: Bytes)
      requires blockOffset + HEADER + |payload| <= 32768 && OffsetOk()
      modifies this
      ensures dest == old(dest) + Physical(crc, typ, payload) && OffsetOk()
      ensures blockOffset == old(blockOffset) + HEADER + |payload|
      ensures frags == old(frags) && records == old(records)
    {
      dest := dest + Header(crc, typ, payload);
      dest := dest + payload;
      blockOffset := blockOffset + HEADER + |payload|;
    }

    // Skips the trailer when no header fits in the block.
    method SwitchBlock()
      requires OffsetOk()
      modifies this
      ensures frags == old(frags) && records == old(records)
      ensures old(dest) <= dest && |dest| == NextStart(old(|dest|)) && blockOffset + HEADER <= 32768 && OffsetOk()
      ensures forall i :: old(|dest|) <= i < |dest| ==> dest[i] == 0
    {
      var leftover := 32768 - blockOffset;
      if leftover < HEADER {
        if leftover > 0 {
          dest := dest + seq(leftover, _ => 0);
        }
        blockOffset := 0;
      }
    }

    // One fragment: skip the trailer if need be, then as much of the data as fits.
    method AddFragment(data: Bytes, begin: bool, ghost pieces: seq<Frag>) returns (n: nat, ghost pieces': seq<Frag>)
      requires Partial(crc, dest, frags, records, pieces, false) && OffsetOk() && (begin <==> pieces == [])
      modifies this
      ensures frags == old(frags) && records == old(records) && old(dest) <= dest
      ensures n <= |data| && Partial(crc, dest, frags, records, pieces', n == |data|) && OffsetOk()
      ensures |pieces'| == |pieces| + 1 && Joined(pieces') == Joined(pieces) + data[..n]
      ensures n == 0 < |data| ==> old(blockOffset) == 32768 - HEADER && blockOffset == 32768
    {
      hide Partial, Physical, Joined;
      PartialSize(crc, dest, frags, records, pieces);
      SwitchBlock();
      ghost var trailer := dest[|old(dest)|..];
      assert dest == old(dest) + trailer;
      var avail := 32768 - blockOffset - HEADER;
      n := if |data| < avail then |data| else avail;
      var end := n == |data|;
      var typ := if begin && end then FULL else if begin then FIRST else if end then LAST else MIDDLE;
      ghost var f := Frag(|dest|, typ, data[..n], |records|);
      EmitPhysicalRecord(typ, data[..n]);
      PieceEmitted(crc, old(dest), trailer, frags, records, pieces, f, end);
      pieces' := pieces + [f];
      PieceAdded(EndOf(frags, |frags|), |records|, pieces, f, end);
    }

    /** Fragments the record over blocks and appends it; an empty record still gets one
        fragment. */
    method AddRecord(data: Bytes)
      requires Valid()
      modifies this
      ensures Valid() && records == old(records) + [data] && old(dest) <= dest
    {
      hide Partial, Written;
      ghost var pieces: seq<Frag> := [];
      PartialStarts(crc, dest, frags, records);
      var left, begin, done := data, true, false;
      while !done
        invariant frags == old(frags) && records == old(records) && old(dest) <= dest
        invariant Partial(crc, dest, frags, records, pieces, done) && OffsetOk()
        invariant begin <==> pieces == []
        invariant Joined(pieces) + left == data
        invariant done ==> left == [] && pieces != []
        decreases !done, |left|, if blockOffset == 32768 - HEADER then 1 else 0
      {
        var n;
        n, pieces := AddFragment(left, begin, pieces);
        done := n == |left|;
        left := left[n..];
        begin := false;
      }
      assert Joined(pieces) + [] == Joined(pieces);
      RecordWritten(crc, dest, frags, records, pieces);
      frags, records := frags + pieces, records + [data];
    }
  }

  lemma {:induction false} PartialStarts(crc: Checksum, file: Bytes, frags: seq<Frag>, records: seq<Bytes>)
    requires Written(crc, file, frags, records)
    ensures Partial(crc, file, frags, records, [], false)
  {
  }

  lemma {:induction false} PartialSize(crc: Checksum, file: Bytes, frags: seq<Frag>, records: seq<Bytes>,
                                       pieces: seq<Frag>)
    requires Partial(crc, file, frags, records, pieces, false)
    ensures |file| == PieceEnd(EndOf(frags, |frags|), pieces, |pieces|)
    ensures Pieces(EndOf(frags, |frags|), |records|, pieces, false)
  {
  }
}

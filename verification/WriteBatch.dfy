/**
 Write batches: operations appended to one byte string, read back in order by whoever applies
 or replays them.
 */
module WriteBatch {
  import opened Mvcc
  import opened Coding

  const BATCH_HEADER := 12

  const TYPE_DELETION: Byte := 0
  const TYPE_VALUE: Byte := 1

  function EncodeOp(op: Mutation): Bytes {
    match op
    case Put(key, value) => [TYPE_VALUE] + PutSlice(key) + PutSlice(value)
    case Delete(key) => [TYPE_DELETION] + PutSlice(key)
  }

  function EncodeOps(ops: seq<Mutation>): Bytes {
    if ops == [] then [] else EncodeOps(ops[..|ops| - 1]) + EncodeOp(ops[|ops| - 1])
  }

  predicate ShortOp(op: Mutation) {
    Short(op.key) && (op.Put? ==> Short(op.value))
  }

  ghost predicate ShortOps(ops: seq<Mutation>) {
    forall i :: 0 <= i < |ops| ==> ShortOp(ops[i])
  }

  // ----- Reading

  // One record of a batch, or what is wrong with it.
  datatype Record = Wrong(message: string) | Record(op: Mutation, rest: Bytes)

  function NextRecord(b: Bytes): (r: Record)
    requires b != []
    ensures r.Record? ==> |r.rest| < |b|
  {
    if b[0] == TYPE_VALUE then
      GetSliceShrinks(b[1..]);
      match GetSlice(b[1..])
      case Malformed => Wrong("bad WriteBatch Put")
      case Parsed(key, rest) =>
        GetSliceShrinks(rest);
        match GetSlice(rest)
        case Malformed => Wrong("bad WriteBatch Put")
        case Parsed(value, rest') => Record(Put(key, value), rest')
    else if b[0] == TYPE_DELETION then
      GetSliceShrinks(b[1..]);
      match GetSlice(b[1..])
      case Malformed => Wrong("bad WriteBatch Delete")
      case Parsed(key, rest) => Record(Delete(key), rest)
    else Wrong("unknown WriteBatch tag")
  }

  // The operations a handler sees, and what is wrong after them, if anything.
  datatype Scan = Scan(ops: seq<Mutation>, message: Option<string>)

  function ScanOps(b: Bytes): Scan
    decreases |b|
  {
    if b == [] then Scan([], None)
    else match NextRecord(b)
      case Wrong(message) => Scan([], Some(message))
      case Record(op, rest) =>
        var tail := ScanOps(rest);
        Scan([op] + tail.ops, tail.message)
  }

  function CountOf(rep: Bytes): Word
    requires |rep| >= BATCH_HEADER
  {
    DecodeFixed32(rep[8..12])
  }

  function SequenceOf(rep: Bytes): Long
    requires |rep| >= BATCH_HEADER
  {
    DecodeFixed64(rep[..8])
  }

  function StatusOf(rep: Bytes): Status {
    if |rep| < BATCH_HEADER then Corruption("malformed WriteBatch (too small)")
    else
      var scan := ScanOps(rep[BATCH_HEADER..]);
      if scan.message.Some? then Corruption(scan.message.value)
      else if |scan.ops| % TWO32 != CountOf(rep) then Corruption("WriteBatch has wrong count")
      else Ok
  }

  // ----- The round trip

  lemma {:induction false} RecordRoundTrip(op: Mutation, rest: Bytes)
    requires ShortOp(op)
    ensures EncodeOp(op) + rest != [] && NextRecord(EncodeOp(op) + rest) == Record(op, rest)
  {
    hide PutSlice, GetSlice;
    var b := EncodeOp(op) + rest;
    match op
    case Put(key, value) =>
      SliceRoundTrip(key, PutSlice(value) + rest);
      SliceRoundTrip(value, rest);
      assert b == [TYPE_VALUE] + (PutSlice(key) + (PutSlice(value) + rest));
      assert b[1..] == PutSlice(key) + (PutSlice(value) + rest);
    case Delete(key) =>
      SliceRoundTrip(key, rest);
      assert b == [TYPE_DELETION] + (PutSlice(key) + rest);
      assert b[1..] == PutSlice(key) + rest;
  }

  // Reading what was written gives the operations, in order, and then whatever follows.
  lemma {:induction false} OpsRoundTrip(ops: seq<Mutation>, more: Bytes)
    requires ShortOps(ops)
    ensures ScanOps(EncodeOps(ops) + more) == Scan(ops + ScanOps(more).ops, ScanOps(more).message)
    decreases |ops|
  {
    hide EncodeOp, NextRecord;
    if ops == [] {
      assert EncodeOps(ops) + more == more;
    } else {
      var front, last := ops[..|ops| - 1], ops[|ops| - 1];
      var tail := EncodeOp(last) + more;
      assert EncodeOps(ops) + more == EncodeOps(front) + tail;
      OpsRoundTrip(front, tail);
      RecordRoundTrip(last, more);
      assert front + ([last] + ScanOps(more).ops) == ops + ScanOps(more).ops;
    }
  }

  // The bytes of an operation: its tag, then its strings with their lengths.
  lemma {:induction false} OpFormat(op: Mutation)
    ensures op.Put? ==> EncodeOp(op) == [1] + PutSlice(op.key) + PutSlice(op.value)
    ensures op.Delete? ==> EncodeOp(op) == [0] + PutSlice(op.key)
  {
  }

  // The header: eight bytes of sequence, then four of count, the lowest byte first.
  lemma {:induction false} HeaderFormat(rep: Bytes)
    requires |rep| >= 12
    ensures SequenceOf(rep) as int ==
            rep[0] as int + 0x100 * rep[1] as int + 0x1_0000 * rep[2] as int + 0x100_0000 * rep[3] as int
            + 0x1_0000_0000 * (rep[4] as int + 0x100 * rep[5] as int
                               + 0x1_0000 * rep[6] as int + 0x100_0000 * rep[7] as int)
    ensures CountOf(rep) as int ==
            rep[8] as int + 0x100 * rep[9] as int + 0x1_0000 * rep[10] as int + 0x100_0000 * rep[11] as int
  {
    assert rep[..8][..4] == [rep[0], rep[1], rep[2], rep[3]] && rep[..8][4..] == [rep[4], rep[5], rep[6], rep[7]];
    assert rep[8..12] == [rep[8], rep[9], rep[10], rep[11]];
  }

  // ----- Bytes that are not a whole batch

  function BadRecord(op: Mutation): string {
    if op.Put? then "bad WriteBatch Put" else "bad WriteBatch Delete"
  }

  lemma {:induction false} RecordTruncated(op: Mutation, k: nat)
    requires ShortOp(op) && 0 < k < |EncodeOp(op)|
    ensures NextRecord(EncodeOp(op)[..k]) == Wrong(BadRecord(op))
  {
    hide PutSlice, GetSlice;
    var b, first := EncodeOp(op)[..k], PutSlice(op.key);
    if k - 1 < |first| {
      assert b[1..] == first[..k - 1];
      SliceTruncated(op.key, k - 1);
    } else {
      var second := PutSlice(op.value);
      var cut := second[..k - 1 - |first|];
      assert b[1..] == first + cut;
      SliceRoundTrip(op.key, cut);
      SliceTruncated(op.value, k - 1 - |first|);
    }
  }

  /** A batch that is cut off inside an operation hands over the operations before that one, and
      is an error. */
  lemma {:induction false} TruncatedBatch(ops: seq<Mutation>, op: Mutation, k: nat)
    requires ShortOps(ops) && ShortOp(op) && 0 < k < |EncodeOp(op)|
    ensures ScanOps(EncodeOps(ops) + EncodeOp(op)[..k]) == Scan(ops, Some(BadRecord(op)))
    ensures forall rep: Bytes ::
              |rep| >= BATCH_HEADER && rep[BATCH_HEADER..] == EncodeOps(ops) + EncodeOp(op)[..k] ==>
                StatusOf(rep) == Corruption(BadRecord(op))
  {
    hide EncodeOp, NextRecord, EncodeOps;
    var b := EncodeOp(op)[..k];
    OpsRoundTrip(ops, b);
    RecordTruncated(op, k);
    assert ScanOps(b) == Scan([], Some(BadRecord(op)));
    assert ops + [] == ops;
  }

  /** So is one with a byte that is no tag where an operation should begin. */
  lemma {:induction false} UnknownTag(ops: seq<Mutation>, more: Bytes)
    requires ShortOps(ops) && more != [] && more[0] != 0 && more[0] != 1
    ensures ScanOps(EncodeOps(ops) + more) == Scan(ops, Some("unknown WriteBatch tag"))
    ensures forall rep: Bytes :: |rep| >= BATCH_HEADER && rep[BATCH_HEADER..] == EncodeOps(ops) + more ==>
              StatusOf(rep) == Corruption("unknown WriteBatch tag")
  {
    hide EncodeOps;
    OpsRoundTrip(ops, more);
    assert ScanOps(more) == Scan([], Some("unknown WriteBatch tag"));
    assert ops + [] == ops;
  }

  /** And one whose stored count, in bytes 8 to 11, is not the number of its operations; whole
      operations with the right count are not. */
  lemma {:induction false} CountMatters(rep: Bytes, ops: seq<Mutation>)
    requires |rep| >= BATCH_HEADER && rep[BATCH_HEADER..] == EncodeOps(ops) && ShortOps(ops)
    ensures var count :=
              rep[8] as int + 0x100 * rep[9] as int + 0x1_0000 * rep[10] as int + 0x100_0000 * rep[11] as int;
            StatusOf(rep) == if count == |ops| % TWO32 then Ok else Corruption("WriteBatch has wrong count")
  {
    hide EncodeOps;
    OpsRoundTrip(ops, []);
    assert EncodeOps(ops) + [] == EncodeOps(ops) && ops + [] == ops;
    assert ScanOps([]) == Scan([], None);
    assert rep[8..12] == [rep[8], rep[9], rep[10], rep[11]];
  }

  // Too few bytes for a header are an error.
  lemma {:induction false} TooSmall(rep: Bytes)
    requires |rep| < 12
    ensures StatusOf(rep).Corruption?
  {
  }

  // Whatever is read has lengths that fit the 32 bits they are stored in.
  lemma {:induction false} ScannedShort(b: Bytes)
    ensures ShortOps(ScanOps(b).ops)
    decreases |b|
  {
    hide GetSlice;
    if b != [] && NextRecord(b).Record? {
      RecordShort(b);
      ScannedShort(NextRecord(b).rest);
    }
  }

  lemma {:induction false} RecordShort(b: Bytes)
    requires b != [] && NextRecord(b).Record?
    ensures ShortOp(NextRecord(b).op)
  {
    GetSliceShort(b[1..]);
    if b[0] == TYPE_VALUE {
      GetSliceShort(GetSlice(b[1..]).rest);
    }
  }

  lemma {:induction false} EncodeSnoc(ops: seq<Mutation>, op: Mutation)
    ensures EncodeOps(ops + [op]) == EncodeOps(ops) + EncodeOp(op)
  {
    hide EncodeOp;
    assert (ops + [op])[..|ops|] == ops;
  }

  lemma {:induction false} EncodeAppend(a: seq<Mutation>, b: seq<Mutation>)
    ensures EncodeOps(a + b) == EncodeOps(a) + EncodeOps(b)
    decreases |b|
  {
    hide EncodeOps;
    if b == [] {
      assert a + b == a;
      EncodeNone();
    } else {
      var front, last := b[..|b| - 1], b[|b| - 1];
      assert b == front + [last] && a + b == (a + front) + [last];
      EncodeAppend(a, front);
      EncodeSnoc(a + front, last);
      EncodeSnoc(front, last);
      assert (EncodeOps(a) + EncodeOps(front)) + EncodeOp(last) == EncodeOps(a) + (EncodeOps(front) + EncodeOp(last));
    }
  }

  lemma {:induction false} EncodeNone()
    ensures EncodeOps([]) == []
  {
  }

  // ----- The batch

  class WriteBatch {
    var rep: Bytes
    ghost var ops: seq<Mutation>

    ghost predicate Valid()
      reads this
    {
      && |rep| >= BATCH_HEADER && rep[BATCH_HEADER..] == EncodeOps(ops)
      && CountOf(rep) == |ops| % TWO32
    }

    constructor ()
      ensures Valid() && ops == [] && SequenceOf(rep) == 0
    {
      rep := seq(BATCH_HEADER, _ => 0);
      ops := [];
      new;
      assert rep[8..12] == [0, 0, 0, 0] && rep[..8] == [0, 0, 0, 0, 0, 0, 0, 0];
      assert rep[..8][..4] == [0, 0, 0, 0] && rep[..8][4..] == [0, 0, 0, 0];
    }

    method SetCount(n: Word)
      requires |rep| >= BATCH_HEADER
      modifies `rep
      ensures |rep| == |old(rep)| && rep[BATCH_HEADER..] == old(rep)[BATCH_HEADER..]
      ensures CountOf(rep) == n && SequenceOf(rep) == SequenceOf(old(rep))
    {
      hide EncodeFixed32, DecodeFixed32, DecodeFixed64;
      FixedRoundTrip(n);
      var bytes := EncodeFixed32(n);
      rep := rep[..8] + bytes + rep[12..];
      assert rep[8..12] == bytes && rep[..8] == old(rep)[..8];
    }

    method SetSequence(n: Long)
      requires |rep| >= BATCH_HEADER
      modifies `rep
      ensures |rep| == |old(rep)| && rep[BATCH_HEADER..] == old(rep)[BATCH_HEADER..]
      ensures SequenceOf(rep) == n && CountOf(rep) == CountOf(old(rep))
    {
      hide EncodeFixed64, DecodeFixed64, DecodeFixed32;
      Fixed64RoundTrip(n);
      var bytes := EncodeFixed64(n);
      rep := bytes + rep[8..];
      assert rep[8..12] == old(rep)[8..12] && rep[..8] == bytes && rep[12..] == old(rep)[12..];
    }

    method Clear()
      modifies this
      ensures Valid() && ops == [] && SequenceOf(rep) == 0
    {
      rep := seq(BATCH_HEADER, _ => 0);
      ops := [];
      assert rep[8..12] == [0, 0, 0, 0] && rep[..8] == [0, 0, 0, 0, 0, 0, 0, 0];
      assert rep[..8][..4] == [0, 0, 0, 0] && rep[..8][4..] == [0, 0, 0, 0];
    }

    // Appends one operation's bytes and counts it.
    method Append1(op: Mutation)
      requires Valid()
      modifies this
      ensures Valid() && ops == old(ops) + [op] && SequenceOf(rep) == SequenceOf(old(rep))
    {
      hide EncodeOp, EncodeOps, DecodeFixed32, DecodeFixed64;
      SetCount((CountOf(rep) + 1) % TWO32);
      ghost var was := rep;
      rep := rep + EncodeOp(op);
      ops := ops + [op];
      EncodeSnoc(old(ops), op);
      assert rep[8..12] == was[8..12] && rep[..8] == was[..8];
      assert rep[BATCH_HEADER..] == was[BATCH_HEADER..] + EncodeOp(op);
      CountUp(|old(ops)|, 1);
    }

    method Put(key: Key, value: Bytes)
      requires Valid()
      modifies this
      ensures Valid() && ops == old(ops) + [Mutation.Put(key, value)] && SequenceOf(rep) == SequenceOf(old(rep))
    {
      Append1(Mutation.Put(key, value));
    }

    method Delete(key: Key)
      requires Valid()
      modifies this
      ensures Valid() && ops == old(ops) + [Mutation.Delete(key)] && SequenceOf(rep) == SequenceOf(old(rep))
    {
      Append1(Mutation.Delete(key));
    }

    method Append(src: WriteBatch)
      requires Valid() && src.Valid()
      modifies this
      ensures Valid() && ops == old(ops + src.ops) && SequenceOf(rep) == SequenceOf(old(rep))
    {
      hide DecodeFixed32, DecodeFixed64, EncodeOps;
      var tail := src.rep[BATCH_HEADER..];
      ghost var more := src.ops;
      var n := CountOf(src.rep);
      SetCount((CountOf(rep) + n) % TWO32);
      ghost var was := rep;
      rep := rep + tail;
      ops := ops + more;
      EncodeAppend(old(ops), more);
      assert rep[8..12] == was[8..12] && rep[..8] == was[..8];
      assert rep[BATCH_HEADER..] == was[BATCH_HEADER..] + tail;
      CountUp(|old(ops)|, |more|);
    }

    // A batch from the bytes of a log record.
    method SetContents(contents: Bytes)
      requires |contents| >= BATCH_HEADER
      modifies `rep
      ensures rep == contents
    {
      rep := contents;
    }

    // Hands the operations to a handler, in order, until the end or something wrong.
    method Iterate() returns (seen: seq<Mutation>, status: Status)
      ensures status == StatusOf(rep)
      ensures |rep| >= BATCH_HEADER ==> seen == ScanOps(rep[BATCH_HEADER..]).ops
      ensures Valid() ==> (ShortOps(ops) <==> status == Ok && seen == ops)
    {
      hide NextRecord, DecodeFixed32, EncodeOps, ShortOps;
      if Valid() && ShortOps(ops) {
        ValidScan(this);
      }
      if |rep| >= BATCH_HEADER {
        ScannedShort(rep[BATCH_HEADER..]);
      }
      seen := [];
      if |rep| < BATCH_HEADER {
        return [], Corruption("malformed WriteBatch (too small)");
      }
      var input := rep[BATCH_HEADER..];
      var found := 0;
      while input != []
        invariant found == |seen| % TWO32
        invariant ScanOps(rep[BATCH_HEADER..]) == Scan(seen + ScanOps(input).ops, ScanOps(input).message)
        decreases |input|
      {
        found := (found + 1) % TWO32;
        CountUp(|seen|, 1);
        var r := NextRecord(input);
        if r.Wrong? {
          return seen, Corruption(r.message);
        }
        ghost var was := seen;
        seen := seen + [r.op];
        input := r.rest;
        assert was + ([r.op] + ScanOps(input).ops) == seen + ScanOps(input).ops;
      }
      if found != CountOf(rep) {
        return seen, Corruption("WriteBatch has wrong count");
      }
      return seen, Ok;
    }
  }

  lemma {:induction false} ValidScan(b: WriteBatch)
    requires b.Valid() && ShortOps(b.ops)
    ensures ScanOps(b.rep[BATCH_HEADER..]) == Scan(b.ops, None)
  {
    OpsRoundTrip(b.ops, []);
    assert EncodeOps(b.ops) + [] == EncodeOps(b.ops);
    assert b.ops + ScanOps([]).ops == b.ops;
  }

  lemma {:induction false} CountUp(a: nat, b: nat)
    ensures (a % TWO32 + b % TWO32) % TWO32 == (a + b) % TWO32
    ensures (a % TWO32 + b) % TWO32 == (a + b) % TWO32
  {
    assert a == a / TWO32 * TWO32 + a % TWO32;
    assert b == b / TWO32 * TWO32 + b % TWO32;
  }
}

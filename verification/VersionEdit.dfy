/**
 Version edits: the records of the manifest, written as tagged fields and read back.
 */
module VersionEdit {
  import opened Mvcc
  import opened Coding

  const NUM_LEVELS := 7

  const COMPARATOR: Word := 1
  const LOG_NUMBER: Word := 2
  const NEXT_FILE_NUMBER: Word := 3
  const LAST_SEQUENCE: Word := 4
  const COMPACT_POINTER: Word := 5
  const DELETED_FILE: Word := 6
  const NEW_FILE: Word := 7
  const PREV_LOG_NUMBER: Word := 9

  datatype Meta = Meta(number: Long, size: Long, smallest: Bytes, largest: Bytes)

  datatype Edit = Edit(comparator: Option<Bytes>, logNumber: Option<Long>, prevLogNumber: Option<Long>,
                       nextFileNumber: Option<Long>, lastSequence: Option<Long>,
                       compactPointers: seq<(Word, Bytes)>, deletedFiles: set<(Word, Long)>,
                       newFiles: seq<(Word, Meta)>)

  const FRESH := Edit(None, None, None, None, None, [], {}, [])

  // One field of an edit.
  datatype Item =
    | Comparator(name: Bytes)
    | Number(tag: Word, n: Long)
    | CompactPointer(level: Word, key: Bytes)
    | DeletedFile(level: Word, number: Long)
    | NewFile(level: Word, meta: Meta)

  predicate NumberTag(tag: Word) {
    tag in {LOG_NUMBER, PREV_LOG_NUMBER, NEXT_FILE_NUMBER, LAST_SEQUENCE}
  }

  // ----- Writing

  function EncodeItem(item: Item): Bytes {
    match item
    case Comparator(name) => Varint(COMPARATOR) + PutSlice(name)
    case Number(tag, n) => Varint(tag) + Varint(n)
    case CompactPointer(level, key) => Varint(COMPACT_POINTER) + (Varint(level) + PutSlice(key))
    case DeletedFile(level, number) => Varint(DELETED_FILE) + (Varint(level) + Varint(number))
    case NewFile(level, meta) =>
      Varint(NEW_FILE) + (Varint(level)
                          + (Varint(meta.number)
                             + (Varint(meta.size) + (PutSlice(meta.smallest) + PutSlice(meta.largest)))))
  }

  function EncodeItems(items: seq<Item>): Bytes {
    if items == [] then [] else EncodeItem(items[0]) + EncodeItems(items[1..])
  }

  function Present(tag: Word, n: Option<Long>): seq<Item> {
    if n.Some? then [Number(tag, n.value)] else []
  }

  // The fields of an edit, in the order they are written; the deleted files as listed.
  function Head(e: Edit): seq<Item> {
    (if e.comparator.Some? then [Comparator(e.comparator.value)] else []) + Present(LOG_NUMBER, e.logNumber) +
    Present(PREV_LOG_NUMBER, e.prevLogNumber) + Present(NEXT_FILE_NUMBER, e.nextFileNumber)
      + Present(LAST_SEQUENCE, e.lastSequence)
  }

  function Pointers(ps: seq<(Word, Bytes)>): seq<Item> {
    seq(|ps|, i requires 0 <= i < |ps| => CompactPointer(ps[i].0, ps[i].1))
  }

  function Deletions(ds: seq<(Word, Long)>): seq<Item> {
    seq(|ds|, i requires 0 <= i < |ds| => DeletedFile(ds[i].0, ds[i].1))
  }

  function Additions(fs: seq<(Word, Meta)>): seq<Item> {
    seq(|fs|, i requires 0 <= i < |fs| => NewFile(fs[i].0, fs[i].1))
  }

  function ItemsOf(e: Edit, listing: seq<(Word, Long)>): seq<Item> {
    Head(e) + Pointers(e.compactPointers) + Deletions(listing) + Additions(e.newFiles)
  }

  // ----- Reading

  datatype Field = Stop | Wrong(message: string) | Field(item: Item, rest: Bytes)

  function GetLevel(b: Bytes): Parsed<Word> {
    match GetVarint32(b)
    case Malformed => Malformed
    case Parsed(v, rest) => if v < NUM_LEVELS then Parsed(v, rest) else Malformed
  }

  function ParseNewFile(b: Bytes): Parsed<Item> {
    match GetLevel(b)
    case Malformed => Malformed
    case Parsed(level, b1) =>
      match GetVarint64(b1)
      case Malformed => Malformed
      case Parsed(number, b2) =>
        match GetVarint64(b2)
        case Malformed => Malformed
        case Parsed(size, b3) =>
          match GetSlice(b3)
          case Malformed => Malformed
          case Parsed(smallest, b4) =>
            match GetSlice(b4)
            case Malformed => Malformed
            case Parsed(largest, b5) => Parsed(NewFile(level, Meta(number, size, smallest, largest)), b5)
  }

  function ParseNumber(tag: Word, b: Bytes): Parsed<Item> {
    match GetVarint64(b)
    case Malformed => Malformed
    case Parsed(n, rest) => Parsed(Number(tag, n), rest)
  }

  function ParseComparator(b: Bytes): Parsed<Item> {
    match GetSlice(b)
    case Malformed => Malformed
    case Parsed(name, rest) => Parsed(Comparator(name), rest)
  }

  function ParsePointer(b: Bytes): Parsed<Item> {
    match GetLevel(b)
    case Malformed => Malformed
    case Parsed(level, b1) =>
      match GetSlice(b1)
      case Malformed => Malformed
      case Parsed(key, b2) => Parsed(CompactPointer(level, key), b2)
  }

  function ParseDeleted(b: Bytes): Parsed<Item> {
    match GetLevel(b)
    case Malformed => Malformed
    case Parsed(level, b1) =>
      match GetVarint64(b1)
      case Malformed => Malformed
      case Parsed(number, b2) => Parsed(DeletedFile(level, number), b2)
  }

  function NumberMessage(tag: Word): string {
    if tag == LOG_NUMBER then "log number"
    else if tag == PREV_LOG_NUMBER then "previous log number"
    else if tag == NEXT_FILE_NUMBER then "next file number"
    else "last sequence number"
  }

  function FieldOf(p: Parsed<Item>, message: string): Field {
    if p.Parsed? then Field(p.value, p.rest) else Wrong(message)
  }

  function NextField(b: Bytes): Field {
    match GetVarint32(b)
    case Malformed => Stop
    case Parsed(tag, rest) =>
      if tag == COMPARATOR then FieldOf(ParseComparator(rest), "comparator name")
      else if NumberTag(tag) then FieldOf(ParseNumber(tag, rest), NumberMessage(tag))
      else if tag == COMPACT_POINTER then FieldOf(ParsePointer(rest), "compaction pointer")
      else if tag == DELETED_FILE then FieldOf(ParseDeleted(rest), "deleted file")
      else if tag == NEW_FILE then FieldOf(ParseNewFile(rest), "new-file entry")
      else Wrong("unknown tag")
  }

  function Applied(e: Edit, item: Item): Edit {
    match item
    case Comparator(name) => e.(comparator := Some(name))
    case Number(tag, n) =>
      if tag == LOG_NUMBER then e.(logNumber := Some(n))
      else if tag == PREV_LOG_NUMBER then e.(prevLogNumber := Some(n))
      else if tag == NEXT_FILE_NUMBER then e.(nextFileNumber := Some(n))
      else e.(lastSequence := Some(n))
    case CompactPointer(level, key) => e.(compactPointers := e.compactPointers + [(level, key)])
    case DeletedFile(level, number) => e.(deletedFiles := e.deletedFiles + {(level, number)})
    case NewFile(level, meta) => e.(newFiles := e.newFiles + [(level, meta)])
  }

  function AppliedAll(e: Edit, items: seq<Item>): Edit
    decreases |items|
  {
    if items == [] then e else AppliedAll(Applied(e, items[0]), items[1..])
  }

  // ----- Each field reads back

  predicate ItemOk(item: Item) {
    match item
    case Comparator(name) => Short(name)
    case Number(tag, _) => NumberTag(tag)
    case CompactPointer(level, key) => level < NUM_LEVELS && Short(key)
    case DeletedFile(level, _) => level < NUM_LEVELS
    case NewFile(level, meta) => level < NUM_LEVELS && Short(meta.smallest) && Short(meta.largest)
  }

  lemma {:induction false} LevelRoundTrip(level: Word, rest: Bytes)
    requires level < NUM_LEVELS
    ensures GetLevel(Varint(level) + rest) == Parsed(level, rest)
  {
    Varint32RoundTrip(level, rest);
  }

  lemma {:induction false} Regroup(a: Bytes, b: Bytes, c: Bytes)
    ensures (a + b) + c == a + (b + c)
  {
  }

  lemma {:induction false} PointerRoundTrip(level: Word, key: Bytes, rest: Bytes)
    requires level < NUM_LEVELS && Short(key)
    ensures ParsePointer((Varint(level) + PutSlice(key)) + rest) == Parsed(CompactPointer(level, key), rest)
  {
    hide Varint, PutSlice, GetSlice, GetLevel;
    LevelRoundTrip(level, PutSlice(key) + rest);
    SliceRoundTrip(key, rest);
    Regroup(Varint(level), PutSlice(key), rest);
  }

  lemma {:induction false} DeletedRoundTrip(level: Word, number: Long, rest: Bytes)
    requires level < NUM_LEVELS
    ensures ParseDeleted((Varint(level) + Varint(number)) + rest) == Parsed(DeletedFile(level, number), rest)
  {
    hide Varint, GetVarint64, GetLevel;
    LevelRoundTrip(level, Varint(number) + rest);
    Varint64RoundTrip(number, rest);
    Regroup(Varint(level), Varint(number), rest);
  }

  lemma {:induction false} NewFileRoundTrip(level: Word, m: Meta, rest: Bytes)
    requires level < NUM_LEVELS && Short(m.smallest) && Short(m.largest)
    ensures ParseNewFile((Varint(level)
                          + (Varint(m.number) + (Varint(m.size) + (PutSlice(m.smallest) + PutSlice(m.largest)))))
                            + rest)
            == Parsed(NewFile(level, m), rest)
  {
    hide Varint, PutSlice, GetSlice, GetVarint64, GetLevel;
    var a, b, c, d, f := Varint(level), Varint(m.number), Varint(m.size), PutSlice(m.smallest), PutSlice(m.largest);
    SliceRoundTrip(m.largest, rest);
    SliceRoundTrip(m.smallest, f + rest);
    Varint64RoundTrip(m.size, d + (f + rest));
    Varint64RoundTrip(m.number, c + (d + (f + rest)));
    LevelRoundTrip(level, b + (c + (d + (f + rest))));
    Regroup(d, f, rest);
    Regroup(c, d + f, rest);
    Regroup(b, c + (d + f), rest);
    Regroup(a, b + (c + (d + f)), rest);
  }

  lemma {:induction false} ItemRoundTrip(item: Item, rest: Bytes)
    requires ItemOk(item)
    ensures NextField(EncodeItem(item) + rest) == Field(item, rest)
  {
    hide Varint, PutSlice, GetSlice, GetVarint32, GetVarint64, ParsePointer, ParseDeleted, ParseNewFile;
    match item
    case Comparator(name) =>
      Varint32RoundTrip(COMPARATOR, PutSlice(name) + rest);
      SliceRoundTrip(name, rest);
      Regroup(Varint(COMPARATOR), PutSlice(name), rest);
    case Number(tag, n) =>
      Varint32RoundTrip(tag, Varint(n) + rest);
      Varint64RoundTrip(n, rest);
      Regroup(Varint(tag), Varint(n), rest);
    case CompactPointer(level, key) =>
      var body := Varint(level) + PutSlice(key);
      Varint32RoundTrip(COMPACT_POINTER, body + rest);
      PointerRoundTrip(level, key, rest);
      Regroup(Varint(COMPACT_POINTER), body, rest);
    case DeletedFile(level, number) =>
      var body := Varint(level) + Varint(number);
      Varint32RoundTrip(DELETED_FILE, body + rest);
      DeletedRoundTrip(level, number, rest);
      Regroup(Varint(DELETED_FILE), body, rest);
    case NewFile(level, m) =>
      var body := Varint(level) + (Varint(m.number) + (Varint(m.size) + (PutSlice(m.smallest) + PutSlice(m.largest))));
      Varint32RoundTrip(NEW_FILE, body + rest);
      NewFileRoundTrip(level, m, rest);
      Regroup(Varint(NEW_FILE), body, rest);
  }

  // ----- The whole edit reads back

  lemma {:induction false} FieldShrinks(b: Bytes)
    ensures NextField(b).Field? ==> |NextField(b).rest| < |b|
  {
    hide GetVarint, GetSlice;
    forall x: Bytes ensures GetSlice(x).Parsed? ==> |GetSlice(x).rest| <= |x| { GetSliceShrinks(x); }
    forall x: Bytes, n: nat ensures GetVarint(x, n).Parsed? ==> |GetVarint(x, n).rest| < |x| { GetVarintShrinks(x, n); }
  }

  datatype Decoded = Decoded(edit: Edit, message: Option<string>)

  // Reads fields until none can be read; then nothing may be left.
  function Decode(e: Edit, b: Bytes): Decoded
    decreases |b|
  {
    FieldShrinks(b);
    match NextField(b)
    case Stop => Decoded(e, if b == [] then None else Some("invalid tag"))
    case Wrong(message) => Decoded(e, Some(message))
    case Field(item, rest) => Decode(Applied(e, item), rest)
  }

  ghost predicate ItemsOk(items: seq<Item>) {
    forall i :: 0 <= i < |items| ==> ItemOk(items[i])
  }

  lemma {:induction false} DecodeItems(e: Edit, items: seq<Item>)
    requires ItemsOk(items)
    ensures Decode(e, EncodeItems(items)) == Decoded(AppliedAll(e, items), None)
    decreases |items|
  {
    hide NextField, EncodeItem;
    if items == [] {
      NothingLeft();
    } else {
      ItemRoundTrip(items[0], EncodeItems(items[1..]));
      DecodeItems(Applied(e, items[0]), items[1..]);
    }
  }

  lemma {:induction false} NothingLeft()
    ensures NextField([]) == Stop
  {
  }

  lemma {:induction false} AppliedTwo(e: Edit, a: seq<Item>, b: seq<Item>)
    ensures AppliedAll(e, a + b) == AppliedAll(AppliedAll(e, a), b)
    decreases |a|
  {
    hide Applied;
    if a == [] {
      assert a + b == b;
    } else {
      AppliedTwo(Applied(e, a[0]), a[1..], b);
      assert (a + b)[1..] == a[1..] + b;
    }
  }

  lemma {:induction false} AppliedPointers(e: Edit, ps: seq<(Word, Bytes)>)
    ensures AppliedAll(e, Pointers(ps)) == e.(compactPointers := e.compactPointers + ps)
    decreases |ps|
  {
    if ps != [] {
      AppliedPointers(Applied(e, Pointers(ps)[0]), ps[1..]);
      assert Pointers(ps)[1..] == Pointers(ps[1..]);
      assert e.compactPointers + [ps[0]] + ps[1..] == e.compactPointers + ps;
    }
  }

  function Elems(ds: seq<(Word, Long)>): set<(Word, Long)> {
    set d | d in ds
  }

  lemma {:induction false} AppliedDeletions(e: Edit, ds: seq<(Word, Long)>)
    ensures AppliedAll(e, Deletions(ds)) == e.(deletedFiles := e.deletedFiles + Elems(ds))
    decreases |ds|
  {
    if ds != [] {
      AppliedDeletions(Applied(e, Deletions(ds)[0]), ds[1..]);
      assert Deletions(ds)[1..] == Deletions(ds[1..]);
      assert ds == [ds[0]] + ds[1..];
      assert e.deletedFiles + {ds[0]} + Elems(ds[1..]) == e.deletedFiles + Elems(ds);
    }
  }

  lemma {:induction false} AppliedAdditions(e: Edit, fs: seq<(Word, Meta)>)
    ensures AppliedAll(e, Additions(fs)) == e.(newFiles := e.newFiles + fs)
    decreases |fs|
  {
    if fs != [] {
      AppliedAdditions(Applied(e, Additions(fs)[0]), fs[1..]);
      assert Additions(fs)[1..] == Additions(fs[1..]);
      assert e.newFiles + [fs[0]] + fs[1..] == e.newFiles + fs;
    }
  }

  lemma {:induction false} AppliedPresent(e: Edit, tag: Word, n: Option<Long>)
    ensures AppliedAll(e, Present(tag, n)) == if n.Some? then Applied(e, Number(tag, n.value)) else e
  {
    hide Applied;
    if n.Some? {
      assert Present(tag, n)[1..] == [];
    }
  }

  lemma {:induction false} AppliedHead(e: Edit)
    ensures AppliedAll(FRESH, Head(e)) == e.(compactPointers := [], deletedFiles := {}, newFiles := [])
  {
    var first: seq<Item> := if e.comparator.Some? then [Comparator(e.comparator.value)] else [];
    var a, b, c, d := Present(LOG_NUMBER, e.logNumber), Present(PREV_LOG_NUMBER, e.prevLogNumber),
                      Present(NEXT_FILE_NUMBER, e.nextFileNumber), Present(LAST_SEQUENCE, e.lastSequence);
    AppliedTwo(FRESH, first + a + b + c, d);
    AppliedTwo(FRESH, first + a + b, c);
    AppliedTwo(FRESH, first + a, b);
    AppliedTwo(FRESH, first, a);
    var e0 := AppliedAll(FRESH, first);
    assert e0 == FRESH.(comparator := e.comparator) by { if e.comparator.Some? { assert first[1..] == []; } }
    AppliedPresent(e0, LOG_NUMBER, e.logNumber);
    AppliedPresent(AppliedAll(e0, a), PREV_LOG_NUMBER, e.prevLogNumber);
    AppliedPresent(AppliedAll(AppliedAll(e0, a), b), NEXT_FILE_NUMBER, e.nextFileNumber);
    AppliedPresent(AppliedAll(AppliedAll(AppliedAll(e0, a), b), c), LAST_SEQUENCE, e.lastSequence);
  }

  lemma {:induction false} AppliedItems(e: Edit, listing: seq<(Word, Long)>)
    requires Elems(listing) == e.deletedFiles
    ensures AppliedAll(FRESH, ItemsOf(e, listing)) == e
  {
    hide AppliedAll, Head, Pointers, Deletions, Additions;
    var h, p, d, n := Head(e), Pointers(e.compactPointers), Deletions(listing), Additions(e.newFiles);
    AppliedTwo(FRESH, h + p + d, n);
    AppliedTwo(FRESH, h + p, d);
    AppliedTwo(FRESH, h, p);
    AppliedHead(e);
    var e1 := AppliedAll(FRESH, h);
    AppliedPointers(e1, e.compactPointers);
    var e2 := AppliedAll(e1, p);
    AppliedDeletions(e2, listing);
    var e3 := AppliedAll(e2, d);
    AppliedAdditions(e3, e.newFiles);
    assert [] + e.compactPointers == e.compactPointers && {} + Elems(listing) == e.deletedFiles
           && [] + e.newFiles == e.newFiles;
  }

  // Names and keys fit a 32-bit length, and levels exist.
  ghost predicate EditOk(e: Edit) {
    && (e.comparator.Some? ==> Short(e.comparator.value))
    && (forall p :: p in e.compactPointers ==> p.0 < NUM_LEVELS && Short(p.1))
    && (forall d :: d in e.deletedFiles ==> d.0 < NUM_LEVELS)
    && (forall f :: f in e.newFiles ==> f.0 < NUM_LEVELS && Short(f.1.smallest) && Short(f.1.largest))
  }

  lemma {:induction false} ItemsAreOk(e: Edit, listing: seq<(Word, Long)>)
    requires EditOk(e) && Elems(listing) == e.deletedFiles
    ensures ItemsOk(ItemsOf(e, listing))
  {
    forall i | 0 <= i < |Deletions(listing)| ensures ItemOk(Deletions(listing)[i]) {
      assert listing[i] in Elems(listing);
    }
  }

  // Reading back what was written for an edit gives the edit, whatever its size and in whatever
  // order its deleted files were listed.
  lemma {:induction false} EditRoundTrip(e: Edit, listing: seq<(Word, Long)>)
    requires EditOk(e) && Elems(listing) == e.deletedFiles
    ensures Decode(FRESH, EncodeItems(ItemsOf(e, listing))) == Decoded(e, None)
  {
    hide Decode, EncodeItems, ItemsOf, EditOk, ItemsOk;
    ItemsAreOk(e, listing);
    DecodeItems(FRESH, ItemsOf(e, listing));
    AppliedItems(e, listing);
  }

  // ----- Levels that do not exist

  predicate HasLevel(item: Item) {
    item.CompactPointer? || item.DeletedFile? || item.NewFile?
  }

  lemma {:induction false} LevelRejected(level: Word, rest: Bytes)
    requires level >= NUM_LEVELS
    ensures GetLevel(Varint(level) + rest) == Malformed
  {
    Varint32RoundTrip(level, rest);
  }

  // There are seven levels.
  lemma {:induction false} LevelLimit(level: Word, rest: Bytes)
    ensures GetLevel(Varint(level) + rest) == if level < 7 then Parsed(level, rest) else Malformed
  {
    if level < 7 { LevelRoundTrip(level, rest); } else { LevelRejected(level, rest); }
  }

  lemma {:induction false} ItemRejected(item: Item, rest: Bytes)
    requires HasLevel(item) && item.level >= NUM_LEVELS
    ensures NextField(EncodeItem(item) + rest).Wrong?
  {
    hide Varint, PutSlice, GetSlice, GetVarint32, GetVarint64, GetLevel;
    match item
    case CompactPointer(level, key) =>
      Varint32RoundTrip(COMPACT_POINTER, (Varint(level) + PutSlice(key)) + rest);
      LevelRejected(level, PutSlice(key) + rest);
      Regroup(Varint(level), PutSlice(key), rest);
      Regroup(Varint(COMPACT_POINTER), Varint(level) + PutSlice(key), rest);
    case DeletedFile(level, number) =>
      Varint32RoundTrip(DELETED_FILE, (Varint(level) + Varint(number)) + rest);
      LevelRejected(level, Varint(number) + rest);
      Regroup(Varint(level), Varint(number), rest);
      Regroup(Varint(DELETED_FILE), Varint(level) + Varint(number), rest);
    case NewFile(level, m) =>
      var tail := Varint(m.number) + (Varint(m.size) + (PutSlice(m.smallest) + PutSlice(m.largest)));
      Varint32RoundTrip(NEW_FILE, (Varint(level) + tail) + rest);
      LevelRejected(level, tail + rest);
      Regroup(Varint(level), tail, rest);
      Regroup(Varint(NEW_FILE), Varint(level) + tail, rest);
  }

  // Fields that fit, but whose level may not exist.
  predicate Fits(item: Item) {
    ItemOk(item) || (HasLevel(item) && item.level >= NUM_LEVELS)
  }

  lemma {:induction false} DecodeRejects(e: Edit, items: seq<Item>)
    requires AllFit(items)
    ensures Decode(e, EncodeItems(items)).message.None? <==> ItemsOk(items)
    decreases |items|
  {
    hide NextField, EncodeItem, Applied;
    if items == [] {
      NothingLeft();
    } else {
      var rest := EncodeItems(items[1..]);
      DecodeRejects(Applied(e, items[0]), items[1..]);
      if ItemOk(items[0]) {
        ItemRoundTrip(items[0], rest);
        assert ItemsOk(items) <==> ItemsOk(items[1..]);
      } else {
        ItemRejected(items[0], rest);
      }
    }
  }

  // An edit reads back if and only if every level in it exists.
  lemma {:induction false} EditReadsBackIff(e: Edit, listing: seq<(Word, Long)>)
    requires Elems(listing) == e.deletedFiles
    requires e.comparator.Some? ==> Short(e.comparator.value)
    requires forall p :: p in e.compactPointers ==> Short(p.1)
    requires forall f :: f in e.newFiles ==> Short(f.1.smallest) && Short(f.1.largest)
    ensures Decode(FRESH, EncodeItems(ItemsOf(e, listing))).message.None? <==> LevelsExist(e)
  {
    hide Decode, EncodeItems;
    var items := ItemsOf(e, listing);
    if LevelsExist(e) {
      EditRoundTrip(e, listing);
    } else {
      SomeFieldRejected(e, listing);
      DecodeRejects(FRESH, items);
    }
  }

  ghost predicate LevelsExist(e: Edit) {
    && (forall p :: p in e.compactPointers ==> p.0 < NUM_LEVELS)
    && (forall d :: d in e.deletedFiles ==> d.0 < NUM_LEVELS)
    && (forall f :: f in e.newFiles ==> f.0 < NUM_LEVELS)
  }

  lemma {:induction false} SomeFieldRejected(e: Edit, listing: seq<(Word, Long)>)
    requires Elems(listing) == e.deletedFiles && !LevelsExist(e)
    requires e.comparator.Some? ==> Short(e.comparator.value)
    requires forall p :: p in e.compactPointers ==> Short(p.1)
    requires forall f :: f in e.newFiles ==> Short(f.1.smallest) && Short(f.1.largest)
    ensures !ItemsOk(ItemsOf(e, listing)) && AllFit(ItemsOf(e, listing))
  {
    var h, ps, ds, fs := Head(e), Pointers(e.compactPointers), Deletions(listing), Additions(e.newFiles);
    FieldsFit(e, listing);
    hide Head, ItemOk;
    var items := ItemsOf(e, listing);
    if p :| p in e.compactPointers && p.0 >= NUM_LEVELS {
      var i :| 0 <= i < |e.compactPointers| && e.compactPointers[i] == p;
      BadAt(items, |h| + i, p.0);
    } else if d :| d in e.deletedFiles && d.0 >= NUM_LEVELS {
      assert d in Elems(listing);
      var i :| 0 <= i < |listing| && listing[i] == d;
      BadAt(items, |h| + |ps| + i, d.0);
    } else {
      var f :| f in e.newFiles && f.0 >= NUM_LEVELS;
      var i :| 0 <= i < |e.newFiles| && e.newFiles[i] == f;
      BadAt(items, |h| + |ps| + |ds| + i, f.0);
    }
  }

  lemma {:induction false} BadAt(items: seq<Item>, i: nat, level: Word)
    requires i < |items| && HasLevel(items[i]) && items[i].level == level >= NUM_LEVELS
    ensures !ItemsOk(items)
  {
    assert !ItemOk(items[i]);
  }

  ghost predicate AllFit(items: seq<Item>) {
    forall i :: 0 <= i < |items| ==> Fits(items[i])
  }

  lemma {:induction false} FieldsFit(e: Edit, listing: seq<(Word, Long)>)
    requires e.comparator.Some? ==> Short(e.comparator.value)
    requires forall p :: p in e.compactPointers ==> Short(p.1)
    requires forall f :: f in e.newFiles ==> Short(f.1.smallest) && Short(f.1.largest)
    ensures AllFit(ItemsOf(e, listing))
  {
    var h, ps, ds, fs := Head(e), Pointers(e.compactPointers), Deletions(listing), Additions(e.newFiles);
    assert AllFit(h) && AllFit(ps) && AllFit(ds) && AllFit(fs);
    hide Fits, Head, Pointers, Deletions, Additions;
    assert AllFit(h + ps);
    assert AllFit(h + ps + ds);
    assert AllFit(h + ps + ds + fs);
  }

  // The order of the fields.
  function Rank(item: Item): nat {
    match item
    case Comparator(_) => 0
    case Number(tag, _) => if tag == 2 then 1 else if tag == 9 then 2 else if tag == 3 then 3 else 4
    case CompactPointer(_, _) => 5
    case DeletedFile(_, _) => 6
    case NewFile(_, _) => 7
  }

  ghost predicate Ranked(items: seq<Item>, low: nat, high: nat) {
    && (forall i :: 0 <= i < |items| ==> low <= Rank(items[i]) <= high)
    && (forall i, j :: 0 <= i < j < |items| ==> Rank(items[i]) <= Rank(items[j]))
  }

  lemma {:induction false} RankedJoin(a: seq<Item>, b: seq<Item>, low: nat, mid: nat, high: nat)
    requires Ranked(a, low, mid) && Ranked(b, mid, high) && low <= mid <= high
    ensures Ranked(a + b, low, high)
  {
    hide Rank;
  }

  lemma {:induction false} HeadRanked(e: Edit)
    ensures Ranked(Head(e), 0, 4)
  {
    var first: seq<Item> := if e.comparator.Some? then [Comparator(e.comparator.value)] else [];
    var a, b, c, d := Present(LOG_NUMBER, e.logNumber), Present(PREV_LOG_NUMBER, e.prevLogNumber),
                      Present(NEXT_FILE_NUMBER, e.nextFileNumber), Present(LAST_SEQUENCE, e.lastSequence);
    assert Ranked(first, 0, 0) && Ranked(a, 0, 1) && Ranked(b, 1, 2) && Ranked(c, 2, 3) && Ranked(d, 3, 4);
    hide Rank, Ranked, Present;
    RankedJoin(first, a, 0, 0, 1);
    RankedJoin(first + a, b, 0, 1, 2);
    RankedJoin(first + a + b, c, 0, 2, 3);
    RankedJoin(first + a + b + c, d, 0, 3, 4);
  }

  lemma {:induction false} FieldOrder(e: Edit, listing: seq<(Word, Long)>, i: nat, j: nat)
    requires i < j < |ItemsOf(e, listing)|
    ensures Rank(ItemsOf(e, listing)[i]) <= Rank(ItemsOf(e, listing)[j])
  {
    var h, p, d, n := Head(e), Pointers(e.compactPointers), Deletions(listing), Additions(e.newFiles);
    assert Ranked(p, 4, 5) && Ranked(d, 5, 6) && Ranked(n, 6, 7);
    hide Rank, Head, Pointers, Deletions, Additions;
    HeadRanked(e);
    RankedJoin(h, p, 0, 4, 5);
    RankedJoin(h + p, d, 0, 5, 6);
    RankedJoin(h + p + d, n, 0, 6, 7);
  }

  // ----- Bytes that are not a whole edit

  // The tags on disk, each a byte of its own.
  lemma {:induction false} TagsOnDisk(item: Item)
    requires ItemOk(item)
    ensures EncodeItem(item) != []
    ensures var tag := EncodeItem(item)[0];
            match item
            case Comparator(_) => tag == 1
            case Number(t, _) => tag == t
            case CompactPointer(_, _) => tag == 5
            case DeletedFile(_, _) => tag == 6
            case NewFile(_, _) => tag == 7
  {
  }

  // After whole fields, reading goes on with what follows them.
  lemma {:induction false} DecodeAfter(e: Edit, items: seq<Item>, more: Bytes)
    requires ItemsOk(items)
    ensures Decode(e, EncodeItems(items) + more) == Decode(AppliedAll(e, items), more)
    decreases |items|
  {
    hide NextField, EncodeItem;
    if items == [] {
      assert EncodeItems(items) + more == more;
    } else {
      var rest := EncodeItems(items[1..]);
      Regroup(EncodeItem(items[0]), rest, more);
      ItemRoundTrip(items[0], rest + more);
      DecodeAfter(Applied(e, items[0]), items[1..], more);
    }
  }

  /** What follows whole fields and is no tag, because no varint ends in its first five bytes, is
      an error. */
  lemma {:induction false} LeftOver(e: Edit, items: seq<Item>, more: Bytes)
    requires ItemsOk(items) && more != [] && forall i :: 0 <= i < |more| && i < 5 ==> more[i] >= 128
    ensures Decode(e, EncodeItems(items) + more) == Decoded(AppliedAll(e, items), Some("invalid tag"))
  {
    hide EncodeItems, AppliedAll, GetVarint;
    DecodeAfter(e, items, more);
    VarintParsesIff(more, 5);
  }

  /** So is a tag that stands for no field. */
  lemma {:induction false} UnknownTag(e: Edit, items: seq<Item>, tag: Word, more: Bytes)
    requires ItemsOk(items) && (tag == 0 || tag == 8 || tag > 9)
    ensures Decode(e, EncodeItems(items) + (Varint(tag) + more))
            == Decoded(AppliedAll(e, items), Some("unknown tag"))
  {
    hide EncodeItems, AppliedAll, GetVarint32, Varint;
    DecodeAfter(e, items, Varint(tag) + more);
    Varint32RoundTrip(tag, more);
  }

  lemma {:induction false} CutInTwo(a: Bytes, b: Bytes, k: nat)
    requires k <= |a + b|
    ensures (a + b)[..k] == if k < |a| then a[..k] else a + b[..k - |a|]
  {
  }

  lemma {:induction false} NumberCut(n: Long, k: nat)
    requires k < |Varint(n)|
    ensures GetVarint64(Varint(n)[..k]) == Malformed
  {
    VarintTruncated(n, k, 10);
  }

  lemma {:induction false} LevelCut(level: Word, k: nat)
    requires k < |Varint(level)|
    ensures GetLevel(Varint(level)[..k]) == Malformed
  {
    VarintTruncated(level, k, 5);
  }

  lemma {:induction false} PointerCut(level: Word, key: Bytes, k: nat)
    requires level < NUM_LEVELS && Short(key) && k < |Varint(level) + PutSlice(key)|
    ensures ParsePointer((Varint(level) + PutSlice(key))[..k]) == Malformed
  {
    hide Varint, PutSlice, GetSlice, GetLevel;
    var a, b := Varint(level), PutSlice(key);
    CutInTwo(a, b, k);
    if k < |a| {
      LevelCut(level, k);
    } else {
      LevelRoundTrip(level, b[..k - |a|]);
      SliceTruncated(key, k - |a|);
    }
  }

  lemma {:induction false} DeletedCut(level: Word, number: Long, k: nat)
    requires level < NUM_LEVELS && k < |Varint(level) + Varint(number)|
    ensures ParseDeleted((Varint(level) + Varint(number))[..k]) == Malformed
  {
    hide Varint, GetVarint64, GetLevel;
    var a, b := Varint(level), Varint(number);
    CutInTwo(a, b, k);
    if k < |a| {
      LevelCut(level, k);
    } else {
      LevelRoundTrip(level, b[..k - |a|]);
      NumberCut(number, k - |a|);
    }
  }

  lemma {:induction false} NewFileCut(level: Word, m: Meta, k: nat)
    requires level < NUM_LEVELS && Short(m.smallest) && Short(m.largest)
    requires k < |Varint(level) + (Varint(m.number) + (Varint(m.size) + (PutSlice(m.smallest) + PutSlice(m.largest))))|
    ensures ParseNewFile((Varint(level)
                          + (Varint(m.number)
                             + (Varint(m.size) + (PutSlice(m.smallest) + PutSlice(m.largest)))))[..k]) == Malformed
  {
    hide Varint, PutSlice, GetSlice, GetVarint64, GetLevel;
    var a, b, c, d, f := Varint(level), Varint(m.number), Varint(m.size), PutSlice(m.smallest), PutSlice(m.largest);
    var ka := k - |a|;
    var kb := ka - |b|;
    var kc := kb - |c|;
    var kd := kc - |d|;
    CutInTwo(a, b + (c + (d + f)), k);
    if ka < 0 {
      LevelCut(level, k);
      return;
    }
    LevelRoundTrip(level, (b + (c + (d + f)))[..ka]);
    CutInTwo(b, c + (d + f), ka);
    if kb < 0 {
      NumberCut(m.number, ka);
      return;
    }
    Varint64RoundTrip(m.number, (c + (d + f))[..kb]);
    CutInTwo(c, d + f, kb);
    if kc < 0 {
      NumberCut(m.size, kb);
      return;
    }
    Varint64RoundTrip(m.size, (d + f)[..kc]);
    CutInTwo(d, f, kc);
    if kd < 0 {
      SliceTruncated(m.smallest, kc);
      return;
    }
    SliceRoundTrip(m.smallest, f[..kd]);
    SliceTruncated(m.largest, kd);
  }

  // Whatever follows a tag may be cut off; the tag, a byte of its own, is still read.
  lemma {:induction false} TagRead(tag: Word, body: Bytes, k: nat)
    requires tag < 128 && 0 < k <= |Varint(tag) + body|
    ensures |Varint(tag)| == 1 && GetVarint32((Varint(tag) + body)[..k]) == Parsed(tag, body[..k - 1])
  {
    CutInTwo(Varint(tag), body, k);
    Varint32RoundTrip(tag, body[..k - 1]);
  }

  // A field that is cut off after its tag is wrong.
  lemma {:induction false} ItemCut(item: Item, k: nat)
    requires ItemOk(item) && 0 < k < |EncodeItem(item)|
    ensures NextField(EncodeItem(item)[..k]).Wrong?
  {
    hide Varint, PutSlice, GetSlice, GetVarint32, GetVarint64, ParsePointer, ParseDeleted, ParseNewFile;
    match item
    case Comparator(name) =>
      TagRead(COMPARATOR, PutSlice(name), k);
      SliceTruncated(name, k - 1);
    case Number(tag, n) =>
      TagRead(tag, Varint(n), k);
      NumberCut(n, k - 1);
    case CompactPointer(level, key) =>
      TagRead(COMPACT_POINTER, Varint(level) + PutSlice(key), k);
      PointerCut(level, key, k - 1);
    case DeletedFile(level, number) =>
      TagRead(DELETED_FILE, Varint(level) + Varint(number), k);
      DeletedCut(level, number, k - 1);
    case NewFile(level, m) =>
      var body := Varint(level) + (Varint(m.number) + (Varint(m.size) + (PutSlice(m.smallest) + PutSlice(m.largest))));
      TagRead(NEW_FILE, body, k);
      NewFileCut(level, m, k - 1);
  }

  /** An edit that is cut off inside a field keeps the fields before it, and is an error. */
  lemma {:induction false} EditCut(e: Edit, items: seq<Item>, item: Item, k: nat)
    requires ItemsOk(items) && ItemOk(item) && 0 < k < |EncodeItem(item)|
    ensures var d := Decode(e, EncodeItems(items) + EncodeItem(item)[..k]);
            d.edit == AppliedAll(e, items) && d.message.Some?
  {
    hide EncodeItems, EncodeItem, AppliedAll, NextField;
    DecodeAfter(e, items, EncodeItem(item)[..k]);
    ItemCut(item, k);
  }

  // ----- The edit object

  lemma {:induction false} EncodeSnoc(items: seq<Item>, item: Item)
    ensures EncodeItems(items + [item]) == EncodeItems(items) + EncodeItem(item)
    decreases |items|
  {
    hide EncodeItem;
    if items == [] {
      assert (items + [item])[1..] == [];
    } else {
      EncodeSnoc(items[1..], item);
      assert (items + [item])[1..] == items[1..] + [item];
    }
  }

  class VersionEdit {
    var edit: Edit

    constructor ()
      ensures edit == FRESH
    {
      edit := FRESH;
    }

    // Clears everything but the compaction pointers.
    method Clear()
      modifies this
      ensures edit == FRESH.(compactPointers := old(edit).compactPointers)
    {
      edit := FRESH.(compactPointers := edit.compactPointers);
    }

    // Writes the edit; `listing` is the set of deleted files in the order they are visited.
    method EncodeTo(dst: Bytes, listing: seq<(Word, Long)>) returns (out: Bytes)
      requires Elems(listing) == edit.deletedFiles
      ensures out == dst + EncodeItems(ItemsOf(edit, listing))
    {
      hide EncodeItem, EncodeItems, Elems;
      var bytes := EncodeFields(Head(edit));
      bytes := EncodeMore(Head(edit), bytes, Pointers(edit.compactPointers));
      bytes := EncodeMore(Head(edit) + Pointers(edit.compactPointers), bytes, Deletions(listing));
      bytes := EncodeMore(Head(edit) + Pointers(edit.compactPointers) + Deletions(listing), bytes,
                          Additions(edit.newFiles));
      out := dst + bytes;
    }

    // Reads an edit over this one, and says what is wrong with the bytes, if anything.
    method DecodeFrom(src: Bytes) returns (status: Status)
      modifies this
      ensures var d := Decode(FRESH.(compactPointers := old(edit).compactPointers), src);
              edit == d.edit && status == (if d.message.Some? then Corruption(d.message.value) else Ok)
    {
      hide NextField, Applied;
      Clear();
      ghost var start := edit;
      var input := src;
      var msg: Option<string> := None;
      var more := true;
      while msg.None? && more
        invariant msg.None? && more ==> Decode(start, src) == Decode(edit, input)
        invariant msg.None? && !more ==>
                    Decode(start, src) == Decoded(edit, if input == [] then None else Some("invalid tag"))
        invariant msg.Some? ==> Decode(start, src) == Decoded(edit, msg)
        decreases |input|, more, msg.None?
      {
        FieldShrinks(input);
        match NextField(input)
        case Stop => more := false;
        case Wrong(message) => msg := Some(message);
        case Field(item, rest) =>
          edit := Applied(edit, item);
          input := rest;
      }
      if msg.None? && input != [] {
        msg := Some("invalid tag");
      }
      status := if msg.Some? then Corruption(msg.value) else Ok;
    }
  }

  method EncodeFields(items: seq<Item>) returns (bytes: Bytes)
    ensures bytes == EncodeItems(items)
  {
    bytes := EncodeMore([], [], items);
    assert [] + items == items;
  }

  method EncodeMore(before: seq<Item>, dst: Bytes, items: seq<Item>) returns (bytes: Bytes)
    requires dst == EncodeItems(before)
    ensures bytes == EncodeItems(before + items)
  {
    hide EncodeItem, EncodeItems;
    bytes := dst;
    assert before + items[..0] == before;
    for i := 0 to |items|
      invariant bytes == EncodeItems(before + items[..i])
    {
      EncodeSnoc(before + items[..i], items[i]);
      assert before + items[..i + 1] == before + items[..i] + [items[i]];
      bytes := bytes + EncodeItem(items[i]);
    }
    assert items[..|items|] == items;
  }
}

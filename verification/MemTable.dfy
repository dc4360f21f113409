/**
 The memtable: entries packed into byte buffers that a skip list keeps in internal key order.
 */
module MemTable {
  import opened Mvcc
  import opened Coding
  import opened SkipShape
  import opened SkipStores
  import S = SkipList

  const VALUE_TYPE := 1
  const DELETION_TYPE := 0
  const SEEK_TYPE := 1

  // ----- Packing

  function PackSequenceAndType(sequence: nat, typ: nat): Long
    requires sequence <= MAX_SEQUENCE && typ <= 1
  {
    sequence * 256 + typ
  }

  function TypeOf(op: Mutation): nat {
    if op.Put? then VALUE_TYPE else DELETION_TYPE
  }

  function ValueOf(op: Mutation): Bytes {
    if op.Put? then op.value else []
  }

  function InternalKey(key: Key, sequence: nat, typ: nat): Bytes
    requires sequence <= MAX_SEQUENCE && typ <= 1
  {
    key + EncodeFixed64(PackSequenceAndType(sequence, typ))
  }

  // What fits a buffer.
  predicate EntryOk(e: Entry) {
    e.sequence <= MAX_SEQUENCE && |e.Key()| + 8 < TWO32 && Short(ValueOf(e.op))
  }

  function EncodeEntry(e: Entry): Bytes
    requires EntryOk(e)
  {
    PutSlice(InternalKey(e.Key(), e.sequence, TypeOf(e.op))) + PutSlice(ValueOf(e.op))
  }

  // A LookupKey's memtable_key: the key, and the snapshot packed with the type that sorts first.
  function MemtableKey(key: Key, snapshot: nat): Bytes
    requires snapshot <= MAX_SEQUENCE
  {
    PutSlice(InternalKey(key, snapshot, SEEK_TYPE))
  }

  // ----- Unpacking

  datatype Unpacked = Unpacked(user: Key, tag: nat)

  // The user key and the tag at the start of a buffer.
  function KeyOf(buffer: Bytes): Unpacked {
    match GetSlice(buffer)
    case Malformed => Unpacked([], 0)
    case Parsed(k, _) =>
      if |k| < 8 then Unpacked([], 0) else Unpacked(k[..|k| - 8], DecodeFixed64(k[|k| - 8..]))
  }

  predicate UnpackedLess(less: Less, a: Unpacked, b: Unpacked) {
    less(a.user, b.user) || (a.user == b.user && a.tag > b.tag)
  }

  // The order of buffers: by user key, then by tag from the highest down.
  predicate BufferLess(less: Less, a: Bytes, b: Bytes) {
    UnpackedLess(less, KeyOf(a), KeyOf(b))
  }

  lemma {:induction false} UnpackedOrder(less: Less)
    requires StrictTotalOrder(less)
    ensures forall a, b, c :: UnpackedLess(less, a, b) && UnpackedLess(less, b, c) ==> UnpackedLess(less, a, c)
    ensures forall a, b, c :: UnpackedLess(less, a, b) ==> UnpackedLess(less, a, c) || UnpackedLess(less, c, b)
    ensures forall a :: !UnpackedLess(less, a, a)
  {
  }

  lemma {:induction false} BufferOrder(less: Less, lt: Order<Bytes>)
    requires StrictTotalOrder(less) && forall a, b :: lt(a, b) == BufferLess(less, a, b)
    ensures WeakOrder(lt)
  {
    hide KeyOf, UnpackedLess;
    UnpackedOrder(less);
  }

  lemma {:induction false} KeyRoundTrip(key: Key, sequence: nat, typ: nat, rest: Bytes)
    requires sequence <= MAX_SEQUENCE && typ <= 1 && |key| + 8 < TWO32
    ensures var k := InternalKey(key, sequence, typ);
            && GetSlice(PutSlice(k) + rest) == Parsed(k, rest)
            && KeyOf(PutSlice(k) + rest) == Unpacked(key, sequence * 256 + typ)
  {
    hide PutSlice, GetSlice, EncodeFixed64, DecodeFixed64;
    var tag := PackSequenceAndType(sequence, typ);
    var k := InternalKey(key, sequence, typ);
    SliceRoundTrip(k, rest);
    Fixed64RoundTrip(tag);
    assert k[..|k| - 8] == key && k[|k| - 8..] == EncodeFixed64(tag);
  }

  lemma {:induction false} EntryKey(e: Entry)
    requires EntryOk(e)
    ensures KeyOf(EncodeEntry(e)) == Unpacked(e.Key(), e.sequence * 256 + TypeOf(e.op))
    ensures GetSlice(EncodeEntry(e)).Parsed?
    ensures GetSlice(GetSlice(EncodeEntry(e)).rest) == Parsed(ValueOf(e.op), [])
  {
    hide PutSlice, GetSlice, KeyOf;
    KeyRoundTrip(e.Key(), e.sequence, TypeOf(e.op), PutSlice(ValueOf(e.op)));
    SliceRoundTrip(ValueOf(e.op), []);
    assert PutSlice(ValueOf(e.op)) + [] == PutSlice(ValueOf(e.op));
  }

  // The tag that is stored: the sequence, and in the low byte 1 for a value and 0 for a deletion.
  lemma {:induction false} TagFormat(e: Entry)
    requires EntryOk(e)
    ensures KeyOf(EncodeEntry(e)).tag == e.sequence * 256 + if e.op.Put? then 1 else 0
  {
    hide EncodeEntry, KeyOf;
    EntryKey(e);
  }

  lemma {:induction false} LookupKeyIs(key: Key, snapshot: nat)
    requires snapshot <= MAX_SEQUENCE && |key| + 8 < TWO32
    ensures KeyOf(MemtableKey(key, snapshot)) == Unpacked(key, snapshot * 256 + 1)
  {
    KeyRoundTrip(key, snapshot, SEEK_TYPE, []);
    assert PutSlice(InternalKey(key, snapshot, SEEK_TYPE)) + [] == MemtableKey(key, snapshot);
  }

  // An entry's buffer sorts before a lookup key exactly when the entry is for a smaller key, or
  // is for the key and too new.
  lemma {:induction false} BeforeLookup(less: Less, e: Entry, key: Key, snapshot: nat)
    requires EntryOk(e) && snapshot <= MAX_SEQUENCE && |key| + 8 < TWO32
    ensures BufferLess(less, EncodeEntry(e), MemtableKey(key, snapshot)) <==>
              less(e.Key(), key) || (e.Key() == key && e.sequence > snapshot)
  {
    hide EncodeEntry, MemtableKey, KeyOf;
    EntryKey(e);
    LookupKeyIs(key, snapshot);
  }

  // Buffers of entries sort like the entries.
  lemma {:induction false} BufferOfEntries(less: Less, e: Entry, f: Entry)
    requires EntryOk(e) && EntryOk(f) && (e.Key() == f.Key() ==> e.sequence != f.sequence || e == f)
    ensures BufferLess(less, EncodeEntry(e), EncodeEntry(f)) <==> Before(less, e, f)
  {
    hide EncodeEntry, KeyOf;
    EntryKey(e);
    EntryKey(f);
  }

  // ----- The table

  ghost predicate EntriesOk(entries: set<Entry>) {
    (forall e :: e in entries ==> EntryOk(e)) && Distinct(entries)
  }

  ghost function Buffers(entries: set<Entry>): set<Bytes>
    requires EntriesOk(entries)
  {
    set e | e in entries :: EncodeEntry(e)
  }

  // A buffer that holds one of the entries.
  lemma {:induction false} BufferIn(entries: set<Entry>, b: Bytes) returns (e: Entry)
    requires EntriesOk(entries) && b in Buffers(entries)
    ensures e in entries && EntryOk(e) && b == EncodeEntry(e)
  {
    e :| e in entries && b == EncodeEntry(e);
  }

  // An entry with a sequence of its own compares equal to none that is there.
  lemma {:induction false} NewEntry(less: Less, lt: Order<Bytes>, s: Shape<Bytes>, entries: set<Entry>, e: Entry)
    requires StrictTotalOrder(less) && forall a, b :: lt(a, b) == BufferLess(less, a, b)
    requires |s.chains| > 0 && EntriesOk(entries) && Contents(s) == Buffers(entries) && EntryOk(e)
    requires forall f :: f in entries && f.Key() == e.Key() ==> f.sequence != e.sequence
    ensures Lacks(lt, s, EncodeEntry(e)) && EntriesOk(entries + {e})
            && Buffers(entries + {e}) == Contents(s) + {EncodeEntry(e)}
  {
    hide EncodeEntry, KeyOf, BufferLess, Contents;
    forall b | b in Contents(s) ensures !Equal(lt, b, EncodeEntry(e)) {
      var f := BufferIn(entries, b);
      BufferOfEntries(less, e, f);
      BufferOfEntries(less, f, e);
    }
    assert EntriesOk(entries + {e});
    assert Buffers(entries + {e}) == Buffers(entries) + {EncodeEntry(e)};
  }

  // What a node of the list holds.
  lemma {:induction false} NodeEntry(s: Shape<Bytes>, entries: set<Entry>, n: nat) returns (e: Entry)
    requires |s.chains| > 0 && EntriesOk(entries) && Contents(s) == Buffers(entries)
    requires n in s.chains[0] && n in s.keys
    ensures e in entries && EntryOk(e) && s.keys[n] == EncodeEntry(e)
  {
    hide EncodeEntry;
    assert s.keys[n] in Contents(s);
    e := BufferIn(entries, s.keys[n]);
  }

  lemma {:induction false} EntryNode(lt: Order<Bytes>, s: Shape<Bytes>, entries: set<Entry>, e: Entry) returns (n: nat)
    requires WellFormed(lt, s) && EntriesOk(entries) && Contents(s) == Buffers(entries) && e in entries
    ensures n in s.chains[0] && n in s.keys && s.keys[n] == EncodeEntry(e)
  {
    hide EncodeEntry;
    assert EncodeEntry(e) in Buffers(entries);
    n :| n in s.chains[0] && n in s.keys && s.keys[n] == EncodeEntry(e);
  }

  // The first buffer at or after the lookup key is the newest visible entry of the key, if it is
  // for the key at all; and if not, there is none.
  lemma {:induction false} SeekFindsNewest(less: Less, lt: Order<Bytes>, s: Shape<Bytes>, entries: set<Entry>,
                                           key: Key, snapshot: nat, n: int)
    requires StrictTotalOrder(less) && forall a, b :: lt(a, b) == BufferLess(less, a, b)
    requires WellFormed(lt, s) && EntriesOk(entries) && Contents(s) == Buffers(entries)
    requires snapshot <= MAX_SEQUENCE && |key| + 8 < TWO32
    requires FirstNotBefore(lt, s, MemtableKey(key, snapshot), n)
    ensures n >= 0 ==> n in s.keys
    ensures if n >= 0 && KeyOf(s.keys[n]).user == key
            then exists e :: s.keys[n] == Packed(e) && EntryOk(e) && Newest(entries, key, snapshot, e)
            else forall e :: !Sees(entries, key, snapshot, e)
  {
    hide EncodeEntry, KeyOf, BufferLess, WellFormed, Contents, MemtableKey;
    S.SizesOf(lt, s);
    if n >= 0 && KeyOf(s.keys[n]).user == key {
      var e := NodeEntry(s, entries, n);
      EntryKey(e);
      BeforeLookup(less, e, key, snapshot);
      forall f | Sees(entries, key, snapshot, f) ensures f.sequence <= e.sequence {
        NotPast(less, lt, s, entries, key, snapshot, n, f);
        BufferOfEntries(less, f, e);
      }
      assert Newest(entries, key, snapshot, e);
    } else {
      forall f ensures !Sees(entries, key, snapshot, f) {
        if f in entries && f.Key() == key {
          BeforeLookup(less, f, key, snapshot);
          SkippedIsTooNew(less, lt, s, entries, key, snapshot, n, f);
        }
      }
    }
  }

  ghost function Packed(e: Entry): Bytes {
    if EntryOk(e) then EncodeEntry(e) else []
  }

  // Nothing visible lies before the first buffer.
  lemma {:induction false} NotPast(less: Less, lt: Order<Bytes>, s: Shape<Bytes>, entries: set<Entry>, key: Key,
                                   snapshot: nat, n: int, f: Entry)
    requires forall a, b :: lt(a, b) == BufferLess(less, a, b)
    requires WellFormed(lt, s) && EntriesOk(entries) && Contents(s) == Buffers(entries)
    requires snapshot <= MAX_SEQUENCE && |key| + 8 < TWO32 && StrictTotalOrder(less)
    requires FirstNotBefore(lt, s, MemtableKey(key, snapshot), n) && n >= 0 && Sees(entries, key, snapshot, f)
    ensures !BufferLess(less, EncodeEntry(f), s.keys[n])
  {
    hide EncodeEntry, KeyOf, BufferLess, WellFormed, MemtableKey;
    BeforeLookup(less, f, key, snapshot);
    var m := EntryNode(lt, s, entries, f);
  }

  // An entry of the key that lies before it, or with nothing at or after the lookup key, is too
  // new to be seen.
  lemma {:induction false} SkippedIsTooNew(less: Less, lt: Order<Bytes>, s: Shape<Bytes>, entries: set<Entry>,
                                           key: Key, snapshot: nat, n: int, f: Entry)
    requires forall a, b :: lt(a, b) == BufferLess(less, a, b)
    requires WellFormed(lt, s) && EntriesOk(entries) && Contents(s) == Buffers(entries)
    requires snapshot <= MAX_SEQUENCE && |key| + 8 < TWO32 && StrictTotalOrder(less)
    requires FirstNotBefore(lt, s, MemtableKey(key, snapshot), n) && f in entries && f.Key() == key
    requires n < 0 || (n in s.keys && KeyOf(s.keys[n]).user != key)
    ensures f.sequence > snapshot
  {
    hide EncodeEntry, KeyOf, WellFormed, MemtableKey;
    BeforeLookup(less, f, key, snapshot);
    EntryKey(f);
    LookupKeyIs(key, snapshot);
    var m := EntryNode(lt, s, entries, f);
  }

  // ----- Reading the entry that was found

  // What Get answers from the node that its seek stops at.
  function AnswerAt(keys: map<nat, Bytes>, n: int, key: Key): Option<Option<Bytes>> {
    if n < 0 || n !in keys || KeyOf(keys[n]).user != key then None
    else if KeyOf(keys[n]).tag % 256 == VALUE_TYPE && GetSlice(keys[n]).Parsed?
            && GetSlice(GetSlice(keys[n]).rest).Parsed? then
      Some(Some(GetSlice(GetSlice(keys[n]).rest).value))
    else Some(None)
  }

  // What it should answer: nothing here, deleted, or the value.
  function AnswerOf(e: Option<Entry>): Option<Option<Bytes>> {
    if e.None? then None else Some(Answer(e))
  }

  lemma {:induction false} FoundAnswers(less: Less, lt: Order<Bytes>, s: Shape<Bytes>, entries: set<Entry>,
                                        key: Key, snapshot: nat, n: int)
    requires StrictTotalOrder(less) && forall a, b :: lt(a, b) == BufferLess(less, a, b)
    requires WellFormed(lt, s) && EntriesOk(entries) && Contents(s) == Buffers(entries)
    requires snapshot <= MAX_SEQUENCE && |key| + 8 < TWO32
    requires FirstNotBefore(lt, s, MemtableKey(key, snapshot), n)
    ensures AnswerAt(s.keys, n, key) == AnswerOf(Probe(entries, key, snapshot))
  {
    hide EncodeEntry, KeyOf, BufferLess, WellFormed, Contents, FirstNotBefore, MemtableKey, Newest, GetSlice;
    SeekFindsNewest(less, lt, s, entries, key, snapshot, n);
    ProbeIsNewest(entries, key, snapshot);
    if n >= 0 && KeyOf(s.keys[n]).user == key {
      var e :| s.keys[n] == Packed(e) && EntryOk(e) && Newest(entries, key, snapshot, e);
      EntryKey(e);
    }
  }

  // ----- Reading beside the writer

  // The list as it goes through `states`, with the entries it holds in each.
  ghost predicate Growth(lt: Order<Bytes>, states: seq<Shape<Bytes>>, contents: seq<set<Entry>>) {
    && |contents| == |states| && History(lt, states)
    && forall k :: 0 <= k < |states| ==> HoldsEntries(states[k], contents[k])
  }

  ghost predicate HoldsEntries(s: Shape<Bytes>, entries: set<Entry>) {
    |s.chains| > 0 && EntriesOk(entries) && Contents(s) == Buffers(entries)
  }

  lemma {:induction false} GrowthsJoin(lt: Order<Bytes>, a: seq<Shape<Bytes>>, ca: seq<set<Entry>>,
                                       b: seq<Shape<Bytes>>, cb: seq<set<Entry>>)
    requires Growth(lt, a, ca) && Growth(lt, b, cb) && |a| > 0 && |b| > 0 && a[|a| - 1] == b[0]
    ensures Growth(lt, a + b, ca + cb)
  {
    hide History, HoldsEntries;
    HistoriesJoin(lt, a, b);
  }

  lemma {:induction false} GrowthStart(lt: Order<Bytes>, s: Shape<Bytes>, entries: set<Entry>)
    requires WellFormed(lt, s) && HoldsEntries(s, entries)
    ensures Growth(lt, [s], [entries])
  {
    hide WellFormed, HoldsEntries;
  }

  lemma {:induction false} EncodeInjective(e: Entry, f: Entry)
    requires EntryOk(e) && EntryOk(f) && EncodeEntry(e) == EncodeEntry(f)
    ensures e == f
  {
    hide EncodeEntry, KeyOf, GetSlice;
    EntryKey(e);
    EntryKey(f);
  }

  // Entries stay.
  lemma {:induction false} EntriesStay(s: Shape<Bytes>, t: Shape<Bytes>, before: set<Entry>, after: set<Entry>)
    requires Extends(s, t) && HoldsEntries(s, before) && HoldsEntries(t, after)
    ensures before <= after
  {
    hide EncodeEntry;
    forall e | e in before ensures e in after {
      assert EncodeEntry(e) in Contents(s);
      var n :| n in s.chains[0] && n in s.keys && s.keys[n] == EncodeEntry(e);
      assert n in t.chains[0] && t.keys[n] in Contents(t);
      var f := BufferIn(after, EncodeEntry(e));
      EncodeInjective(e, f);
    }
  }

  /** A lookup whose loads happen at any moments while entries above its snapshot are inserted
      answers from the entries that were there when it began. */
  lemma {:induction false} ConcurrentGet(less: Less, lt: Order<Bytes>, states: seq<Shape<Bytes>>,
                                         contents: seq<set<Entry>>, times: seq<nat>, r: Search<Bytes>,
                                         key: Key, snapshot: nat)
    requires StrictTotalOrder(less) && forall a, b :: lt(a, b) == BufferLess(less, a, b)
    requires Growth(lt, states, contents) && |times| > 0 && Moments(times, |states|)
    requires snapshot <= MAX_SEQUENCE && |key| + 8 < TWO32
    requires SearchOk(lt, states[times[0]], r) && r.key == MemtableKey(key, snapshot)
    requires forall k, e :: times[0] <= k < |contents| && e in contents[k] && e !in contents[times[0]] ==>
               e.Key() == key ==> e.sequence > snapshot
    ensures var loads := SeenAt(states, times);
            var a := Answered(lt, loads, r);
            && (a.Reply? ==>
                  && a.load < |loads|
                  && AnswerAt(loads[a.load].keys, a.node, key) == AnswerOf(Probe(contents[times[0]], key, snapshot)))
            && (a.Pending? ==> |loads| <= r.level + |Ahead(lt, loads[|loads| - 1], r.at)|)
  {
    hide WellFormed, Extends, BufferLess, WeakOrder, FirstNotBefore, LastBefore, SearchOk, MemtableKey, Answered, Ahead,
      Contents, EncodeEntry, KeyOf, GetSlice, Probe;
    var loads := SeenAt(states, times);
    SeenIsHistory(lt, states, times);
    BufferOrder(less, lt);
    ConcurrentSearch(lt, loads, r);
    var a := Answered(lt, loads, r);
    if a.Reply? {
      var k := times[a.load];
      assert WellFormed(lt, states[k]) && Extends(states[times[0]], states[k]);
      assert HoldsEntries(states[k], contents[k]) && HoldsEntries(states[times[0]], contents[times[0]]);
      FoundAnswers(less, lt, states[k], contents[k], key, snapshot, a.node);
      EntriesStay(states[times[0]], states[k], contents[times[0]], contents[k]);
      var later := contents[k] - contents[times[0]];
      assert contents[k] == contents[times[0]] + later;
      ProbeIgnoresLater(contents[times[0]], later, key, snapshot);
    }
  }

  class MemTable {
    const less: Less
    const table: S.SkipList<Bytes>
    ghost var entries: set<Entry>

    ghost predicate Valid()
      reads this, table
    {
      && StrictTotalOrder(less) && table.Valid() && (forall a, b :: table.lt(a, b) == BufferLess(less, a, b))
      && EntriesOk(entries) && Contents(table.Now()) == Buffers(entries)
    }

    constructor (less: Less)
      requires StrictTotalOrder(less)
      ensures Valid() && entries == {} && this.less == less && fresh(table)
    {
      hide KeyOf, UnpackedLess, BufferLess;
      this.less := less;
      var lt := (a, b) => BufferLess(less, a, b);
      assert WeakOrder(lt) by { BufferOrder(less, lt); }
      table := new S.SkipList(lt);
      entries := {};
    }

    // Packs an entry and inserts it. The node's height and address are choices made elsewhere.
    // Every state the list goes through holds the old entries, with or without the new one.
    method Add(e: Entry, height: nat, x: nat) returns (ghost trace: seq<Shape<Bytes>>, ghost contents: seq<set<Entry>>)
      requires Valid() && EntryOk(e) && forall f :: f in entries && f.Key() == e.Key() ==> f.sequence != e.sequence
      requires 1 <= height <= MAX_HEIGHT && x !in table.next && x !in table.keys
      modifies this, table
      ensures Valid() && entries == old(entries) + {e}
      ensures table.next.Keys == old(table.next).Keys + {x} && table.keys.Keys == old(table.keys).Keys + {x}
      ensures Growth(table.lt, trace, contents) && StoreByStore(trace)
      ensures |trace| > 0 && trace[0] == old(table.Now()) && trace[|trace| - 1] == table.Now()
      ensures forall k :: 0 <= k < |contents| ==> contents[k] == old(entries) || contents[k] == entries
    {
      hide EncodeEntry, KeyOf, BufferLess, WellFormed, Contents, WeakOrder, History, Lacks;
      S.SizesOf(table.lt, table.Now());
      NewEntry(less, table.lt, table.Now(), entries, e);
      var buffer := EncodeEntry(e);
      trace := table.Insert(buffer, height, x);
      entries := entries + {e};
      ghost var was, now := old(entries), entries;
      contents := seq(|trace|, k requires 0 <= k < |trace| =>
        if |trace[k].chains| > 0 && Contents(trace[k]) == Buffers(now) then now else was);
      assert trace[0] == old(table.Now());
    }

    // The newest entry of the key at the snapshot: None if there is none here, else what it says.
    method Get(key: Key, snapshot: nat) returns (r: Option<Option<Bytes>>)
      requires Valid() && snapshot <= MAX_SEQUENCE && |key| + 8 < TWO32
      ensures r == AnswerOf(Probe(entries, key, snapshot))
    {
      hide EncodeEntry, KeyOf, BufferLess, WellFormed, Contents, WeakOrder, FirstNotBefore, MemtableKey, Probe,
        AnswerAt;
      ghost var s := table.Now();
      var n, _ := table.FindGreaterOrEqual(MemtableKey(key, snapshot));
      FoundAnswers(less, table.lt, s, entries, key, snapshot, n);
      return AnswerAt(table.keys, n, key);
    }
  }
}

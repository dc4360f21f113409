/**
 The skip list itself: searches, and the one writer's Insert as the sequence of stores that
 concurrent readers can observe.
 */
module SkipList {

  import opened SkipShape
  import opened SkipStores

  lemma {:induction false} EndsList<K(!new)>(lt: Order<K>, s: Shape<K>, x: nat)
    requires WeakOrder(lt) && WellFormed(lt, s) && x in Row(s, 0) && Load(s, x, 0) == -1
    ensures x == LastNode(s)
  {
    var j := RowIndex(s, 0, x);
    assert LevelOk(lt, s, 0) && LinkOk(s, 0, j);
  }

  // A link leads to the next node of the level, if any.
  lemma {:induction false} Follow<K(!new)>(lt: Order<K>, s: Shape<K>, level: nat, j: nat)
    requires WellFormed(lt, s) && level < MAX_HEIGHT && j <= |s.chains[level]|
    ensures var n := Load(s, Row(s, level)[j], level);
            if j < |s.chains[level]|
            then n >= 0 && n in s.keys && Row(s, level)[j + 1] == n && n == s.chains[level][j] && n != HEAD
            else n == -1
  {
    assert LevelOk(lt, s, level) && LinkOk(s, level, j);
  }

  lemma {:induction false} StartOk<K(!new)>(lt: Order<K>, s: Shape<K>, key: K, level: nat)
    requires level < |s.chains|
    ensures SearchOk(lt, s, Search(key, HEAD, level))
  {
    assert Row(s, level)[0] == HEAD;
  }

  // The two ways on from a node of a level: past the next node, or not.
  lemma {:induction false} MoveOrStop<K(!new)>(lt: Order<K>, s: Shape<K>, key: K, x: nat, level: nat, j: nat)
    requires WeakOrder(lt) && WellFormed(lt, s) && SearchOk(lt, s, Search(key, x, level))
    requires level < MAX_HEIGHT && j <= |s.chains[level]| && Row(s, level)[j] == x
    ensures var n := Load(s, x, level);
            && (n >= 0 ==> n in s.keys)
            && if n >= 0 && lt(s.keys[n], key)
               then SearchOk(lt, s, Search(key, n, level)) && j < |s.chains[level]| && Row(s, level)[j + 1] == n
               else IsPrev(lt, s, key, level, x) &&
                    if level == 0 then FirstNotBefore(lt, s, key, n) else SearchOk(lt, s, Search(key, x, level - 1))
  {
    Follow(lt, s, level, j);
    AdvanceIsSound(lt, s, Search(key, x, level));
  }

  lemma {:induction false} Descend<K(!new)>(lt: Order<K>, s: Shape<K>, level: nat, x: nat) returns (j: nat)
    requires WellFormed(lt, s) && 0 < level < MAX_HEIGHT && x in Row(s, level)
    ensures x in Row(s, level - 1) && j <= |s.chains[level - 1]| && Row(s, level - 1)[j] == x
  {
    assert LevelOk(lt, s, level);
    if x == HEAD {
      j := 0;
    } else {
      var i := RowIndex(s, level, x);
      assert s.chains[level][i - 1] == x;
      assert x in s.chains[level - 1];
      var k :| 0 <= k < |s.chains[level - 1]| && s.chains[level - 1][k] == x;
      j := k + 1;
    }
  }

  lemma {:induction false} HistoryGrows<K(!new)>(lt: Order<K>, states: seq<Shape<K>>, t: Shape<K>)
    requires History(lt, states) && |states| > 0 && WellFormed(lt, t) && Extends(states[|states| - 1], t)
    ensures History(lt, states + [t])
  {
    hide WellFormed, Extends;
    var h := states + [t];
    forall k, m | 0 <= k <= m < |h| ensures Extends(h[k], h[m]) {
      if m == |states| {
        if k == m {
          ExtendsSelf(t);
        } else {
          ExtendsTrans(h[k], states[|states| - 1], t);
        }
      }
    }
  }

  lemma {:induction false} ExtendsSelf<K(!new)>(s: Shape<K>)
    ensures Extends(s, s)
  {
  }

  lemma {:induction false} ContentsWith<K(!new)>(lt: Order<K>, s: Shape<K>, t: Shape<K>, x: nat)
    requires WellFormed(lt, s) && Extends(s, t) && x in t.keys
    requires forall n :: n in t.chains[0] <==> n in s.chains[0] || n == x
    ensures Contents(t) == Contents(s) + {t.keys[x]}
  {
    assert LevelOk(lt, s, 0);
    forall k | k in Contents(t) ensures k in Contents(s) + {t.keys[x]} {
      var n :| n in t.chains[0] && n in t.keys && t.keys[n] == k;
    }
  }

  class SkipList<K(!new)> {

    const lt: Order<K>
    var keys: map<nat, K>
    var next: map<nat, seq<int>>
    var maxHeight: nat
    ghost var chains: seq<seq<nat>>

    ghost function Now(): Shape<K>
      reads this
    {
      Shape(keys, next, maxHeight, chains)
    }

    ghost predicate Valid()
      reads this
    {
      WeakOrder(lt) && WellFormed(lt, Now())
    }

    constructor (lt: Order<K>)
      requires WeakOrder(lt)
      ensures Valid() && this.lt == lt && Contents(Now()) == {}
    {
      this.lt := lt;
      keys := map[];
      next := map[HEAD := seq(MAX_HEIGHT, _ => -1)];
      maxHeight := 1;
      chains := seq(MAX_HEIGHT, _ => []);
    }

    method Next(x: nat, level: nat) returns (n: int)
      requires Valid() && level < MAX_HEIGHT && x in Row(Now(), level)
      ensures n == Load(Now(), x, level)
    {
      ghost var j := RowIndex(Now(), level, x);
      assert LevelOk(lt, Now(), level) && LinkOk(Now(), level, j);
      n := next[x][level];
    }

    method KeyIsAfterNode(key: K, n: int) returns (after: bool)
      requires n >= 0 ==> n in keys
      ensures after == (n >= 0 && n in keys && lt(keys[n], key))
    {
      after := n >= 0 && lt(keys[n], key);
    }

    // The earliest node at or after the key, and on every level the node before it.
    method FindGreaterOrEqual(key: K) returns (n: int, prev: seq<nat>)
      requires Valid()
      ensures FirstNotBefore(lt, Now(), key, n)
      ensures |prev| == maxHeight && PrevsFrom(lt, Now(), key, 0, prev)
    {
      hide WellFormed, FirstNotBefore, SearchOk, IsPrev, WeakOrder;
      ghost var s := Now();
      SizesOf(lt, s);
      StartOk(lt, s, key, maxHeight - 1);
      var x: nat, level: nat := HEAD, maxHeight - 1;
      ghost var j: nat := 0;
      prev := seq(maxHeight, _ => HEAD);
      while true
        invariant level < maxHeight && |prev| == maxHeight && PrevsFrom(lt, s, key, level + 1, prev)
        invariant SearchOk(lt, s, Search(key, x, level)) && j <= |s.chains[level]| && Row(s, level)[j] == x
        decreases level, |s.chains[level]| - j
      {
        n := Next(x, level);
        MoveOrStop(lt, s, key, x, level, j);
        var after := KeyIsAfterNode(key, n);
        if after {
          x := n;
          j := j + 1;
        } else {
          prev := prev[level := x];
          if level == 0 {
            return;
          }
          j := Descend(lt, s, level, x);
          level := level - 1;
        }
      }
    }

    method FindLessThan(key: K) returns (x: nat)
      requires Valid()
      ensures LastBefore(lt, Now(), key, x)
    {
      hide WellFormed;
      ghost var s := Now();
      assert |s.chains| == MAX_HEIGHT && 1 <= maxHeight <= MAX_HEIGHT by { SizesOf(lt, s); }
      x := HEAD;
      var level: nat := maxHeight - 1;
      ghost var j: nat := 0;
      while true
        invariant level < maxHeight
        invariant SearchOk(lt, s, Search(key, x, level)) && j <= |s.chains[level]| && Row(s, level)[j] == x
        decreases level, |s.chains[level]| - j
      {
        var n := Next(x, level);
        Follow(lt, s, level, j);
        if n == -1 || !lt(keys[n], key) {
          assert IsPrev(lt, s, key, level, x);
          if level == 0 {
            AdvanceIsSound(lt, s, Search(key, x, level));
            return;
          }
          j := Descend(lt, s, level, x);
          level := level - 1;
        } else {
          x := n;
          j := j + 1;
        }
      }
    }

    method FindLast() returns (x: nat)
      requires Valid()
      ensures x == LastNode(Now())
    {
      hide WellFormed;
      ghost var s := Now();
      assert |s.chains| == MAX_HEIGHT && 1 <= maxHeight <= MAX_HEIGHT by { SizesOf(lt, s); }
      x := HEAD;
      var level: nat := maxHeight - 1;
      ghost var j: nat := 0;
      while true
        invariant level < maxHeight
        invariant j <= |s.chains[level]| && Row(s, level)[j] == x
        decreases level, |s.chains[level]| - j
      {
        var n := Next(x, level);
        Follow(lt, s, level, j);
        if n == -1 {
          if level == 0 {
            EndsList(lt, s, x);
            return;
          }
          j := Descend(lt, s, level, x);
          level := level - 1;
        } else {
          x := n;
          j := j + 1;
        }
      }
    }

    method Contains(key: K) returns (found: bool)
      requires Valid()
      ensures found <==> !Lacks(lt, Now(), key)
    {
      var n, _ := FindGreaterOrEqual(key);
      found := n >= 0 && Equal(lt, key, keys[n]);
      ghost var s := Now();
      if found {
        assert keys[n] in Contents(s);
      }
    }

    // One store: a link of a node.
    method SetNext(x: nat, level: nat, n: int)
      requires x in next && level < |next[x]|
      modifies this`next
      ensures Now() == Store(old(Now()), x, level, n)
    {
      next := next[x := next[x][level := n]];
    }

    ghost predicate Traced(trace: seq<Shape<K>>, keep: set<K>, key: K)
      reads this
    {
      && |trace| > 0 && trace[|trace| - 1] == Now() && History(lt, trace) && StoreByStore(trace)
      && (forall k :: 0 <= k < |trace| ==> |trace[k].chains| > 0 && Contents(trace[k]) in {keep, keep + {key}})
    }

    method Padded(key: K, prev: seq<nat>, height: nat) returns (padded: seq<nat>)
      requires Valid() && |prev| == maxHeight && height <= MAX_HEIGHT && PrevsFrom(lt, Now(), key, 0, prev)
      ensures |padded| >= height && PrevsFrom(lt, Now(), key, 0, padded)
    {
      padded := prev;
      while |padded| < height
        invariant |padded| >= maxHeight && PrevsFrom(lt, Now(), key, 0, padded)
      {
        EmptyLevel(lt, Now(), key, |padded|);
        padded := padded + [HEAD];
      }
    }

    method Raise(key: K, height: nat, ghost keep: set<K>, ghost trace: seq<Shape<K>>)
      returns (ghost trace': seq<Shape<K>>)
      requires Valid() && maxHeight < height <= MAX_HEIGHT && Traced(trace, keep, key)
      modifies this`maxHeight
      ensures Valid() && Now() == old(Now()).(maxHeight := height)
      ensures trace <= trace' && Traced(trace', keep, key) && Extends(old(Now()), Now())
    {
      hide WellFormed, Extends, Contents, StoreByStore;
      RaiseKeeps(lt, Now(), height);
      ghost var s := Now();
      maxHeight := height;
      assert Raised(s, Now());
      trace' := Recorded(lt, keep, key, trace, Now());
    }

    method NewNode(x: nat, key: K, height: nat, ghost keep: set<K>, ghost trace: seq<Shape<K>>)
      returns (ghost trace': seq<Shape<K>>)
      requires Valid() && x !in next && x !in keys && Traced(trace, keep, key)
      modifies this`keys, this`next
      ensures Valid() && Now() == old(Now()).(keys := old(keys)[x := key], next := old(next)[x := seq(height, _ => -1)])
      ensures forall i :: 0 <= i < MAX_HEIGHT ==> x !in chains[i]
      ensures trace <= trace' && Traced(trace', keep, key) && Extends(old(Now()), Now())
    {
      hide WellFormed, Extends, Contents, StoreByStore;
      NewNodeKeeps(lt, Now(), x, key, height);
      ghost var s := Now();
      keys := keys[x := key];
      next := next[x := seq(height, _ => -1)];
      assert Created(s, Now(), x);
      trace' := Recorded(lt, keep, key, trace, Now());
    }

    method Publish(x: nat, key: K, level: nat, p: nat, ghost keep: set<K>, ghost trace: seq<Shape<K>>)
      returns (ghost trace': seq<Shape<K>>, ghost j: nat)
      requires Valid() && Ready(lt, Now(), key, x, level) && IsPrev(lt, Now(), key, level, p)
               && Traced(trace, keep, key)
      requires Contents(Now()) == if level == 0 then keep else keep + {key}
      modifies this`next, this`chains
      ensures Valid() && Extends(old(Now()), Now()) && trace <= trace' && Traced(trace', keep, key)
      ensures Contents(Now()) == keep + {key}
      ensures x in next && |next[x]| == |old(next)[x]| && |chains| == |old(chains)| && x in chains[level]
      ensures forall i :: 0 <= i < |chains| && i != level ==> chains[i] == old(chains)[i]
      ensures forall n, i :: i != level ==> Load(Now(), n, i) == Load(old(Now()), n, i)
      ensures next.Keys == old(next).Keys
    {
      hide WellFormed, Extends, Contents, WeakOrder, LinkOk, OneStore, StoreByStore;
      ghost var s := Now();
      j := TwoStores(lt, s, key, x, level, p);
      StoreIsOne(s, x, level, next[p][level], chains);
      SetNext(x, level, next[p][level]);
      ghost var t := Now();
      trace' := Recorded(lt, keep, key, trace, t);
      SetNext(p, level, x);
      chains := chains[level := chains[level][..j] + [x] + chains[level][j..]];
      StoreIsOne(t, p, level, x, chains);
      ExtendsTrans(s, t, Now());
      if level == 0 {
        ContentsWith(lt, s, Now(), x);
      } else {
        SameLowest(lt, s, Now());
      }
      trace' := Recorded(lt, keep, key, trace', Now());
    }

    // Inserts a key that the list does not hold yet, as a node of the given height at a free
    // address. `trace` lists the states that the stores of this call go through, each of
    // which readers can see.
    method Insert(key: K, height: nat, x: nat) returns (ghost trace: seq<Shape<K>>)
      requires Valid() && 1 <= height <= MAX_HEIGHT && Lacks(lt, Now(), key)
      requires x !in next && x !in keys
      modifies this
      ensures Valid() && Contents(Now()) == old(Contents(Now())) + {key}
      ensures [old(Now())] <= trace && Traced(trace, old(Contents(Now())), key)
      ensures next.Keys == old(next).Keys + {x} && keys.Keys == old(keys).Keys + {x}
      ensures maxHeight == if height > old(maxHeight) then height else old(maxHeight)
      ensures |chains| == MAX_HEIGHT && forall i :: 0 <= i < MAX_HEIGHT ==> (x in chains[i] <==> i < height)
    {
      hide WellFormed, Extends, Contents, WeakOrder, IsPrev, Load, PrevsFrom, Ready, Row, Lacks, Linking, History,
        StoreByStore;
      ghost var s := Now();
      SizesOf(lt, s);
      ghost var keep := Contents(s);
      TraceStart(lt, s);
      trace := [s];
      var _, prev := FindGreaterOrEqual(key);
      prev := Padded(key, prev, height);
      if height > maxHeight {
        trace := Raise(key, height, keep, trace);
        SameLowest(lt, s, Now());
        PrevsStay(lt, s, Now(), key, 0, prev) by { SameLoads(s, Now()); }
      }
      ghost var t := Now();
      trace := NewNode(x, key, height, keep, trace);
      ExtendsTrans(s, t, Now());
      SameLowest(lt, t, Now());
      NodeAdded(lt, t, Now(), key, x, prev);
      LinkingStart(lt, s, Now(), key, x, height);
      trace := LinkLevels(key, height, x, prev, s, keep, trace);
    }

    // Publishes the node on its levels, from the lowest up.
    method LinkLevels(key: K, height: nat, x: nat, prev: seq<nat>, ghost s: Shape<K>, ghost keep: set<K>,
                      ghost trace: seq<Shape<K>>)
      returns (ghost trace': seq<Shape<K>>)
      requires Valid() && 1 <= height && WellFormed(lt, s) && Extends(s, Now()) && Lacks(lt, s, key)
      requires Linking(lt, s, Now(), key, x, height, 0) && |prev| >= height && PrevsFrom(lt, Now(), key, 0, prev)
      requires Traced(trace, keep, key) && Contents(Now()) == keep
      modifies `next, `chains
      ensures Valid() && Contents(Now()) == keep + {key}
      ensures trace <= trace' && Traced(trace', keep, key)
      ensures next.Keys == old(next).Keys
      ensures |chains| == MAX_HEIGHT && forall i :: 0 <= i < MAX_HEIGHT ==> (x in chains[i] <==> i < height)
    {
      hide WellFormed, Extends, Contents, WeakOrder, IsPrev, Load, PrevsFrom, Ready, Row, Lacks, Linking, History,
        StoreByStore;
      trace' := trace;
      var i := 0;
      while i < height
        invariant i <= height && trace <= trace' && Traced(trace', keep, key)
        invariant i <= |chains| && forall l :: 0 <= l < i ==> x in chains[l]
        invariant next.Keys == old(next).Keys
        invariant Valid() && Linking(lt, s, Now(), key, x, height, i) && Extends(s, Now())
        invariant |prev| >= height && PrevsFrom(lt, Now(), key, i, prev)
        invariant Contents(Now()) == if i == 0 then keep else keep + {key}
      {
        ghost var was := Now();
        LinkingReady(lt, s, was, key, x, height, i);
        assert IsPrev(lt, was, key, i, prev[i]) by { PrevAt(lt, was, key, i, prev); }
        ghost var j;
        SizesOf(lt, was);
        LinkingFacts(lt, s, was, key, x, height, i);
        trace', j := Publish(x, key, i, prev[i], keep, trace');
        SizesOf(lt, Now());
        ExtendsTrans(s, was, Now());
        PrevsLeft(lt, was, Now(), key, i, prev);
        assert Linking(lt, s, Now(), key, x, height, i + 1) by { LinkingNext(lt, s, was, Now(), key, x, height, i); }
        i := i + 1;
      }
      LinkingRest(lt, s, Now(), key, x, height);
    }
  }

  lemma {:induction false} LinkingRest<K(!new)>(lt: Order<K>, s: Shape<K>, t: Shape<K>, key: K, x: nat, height: nat)
    requires Linking(lt, s, t, key, x, height, height)
    ensures |t.chains| == MAX_HEIGHT && forall i :: height <= i < MAX_HEIGHT ==> x !in t.chains[i]
  {
  }

  lemma {:induction false} SameLowest<K(!new)>(lt: Order<K>, s: Shape<K>, t: Shape<K>)
    requires WellFormed(lt, s) && Extends(s, t) && s.chains[0] == t.chains[0]
    ensures Contents(s) == Contents(t)
  {
    assert LevelOk(lt, s, 0);
  }

  lemma {:induction false} TraceStart<K(!new)>(lt: Order<K>, s: Shape<K>)
    requires WellFormed(lt, s)
    ensures Extends(s, s) && History(lt, [s]) && StoreByStore([s])
  {
    ExtendsSelf(s);
  }

  lemma {:induction false} SameLoads<K(!new)>(s: Shape<K>, t: Shape<K>)
    requires s.next == t.next
    ensures forall n, i :: Load(t, n, i) == Load(s, n, i)
  {
  }

  lemma {:induction false} NodeAdded<K(!new)>(lt: Order<K>, s: Shape<K>, t: Shape<K>, key: K, x: nat, prev: seq<nat>)
    requires WellFormed(lt, s) && Extends(s, t) && PrevsFrom(lt, s, key, 0, prev)
    requires x !in s.next && forall n :: n in s.next ==> n in t.next && t.next[n] == s.next[n]
    ensures PrevsFrom(lt, t, key, 0, prev) && x != HEAD
  {
    assert LevelOk(lt, s, 0) && LinkOk(s, 0, 0) && Row(s, 0)[0] == HEAD;
    forall i | 0 <= i < |prev| ensures Load(t, prev[i], i) == Load(s, prev[i], i) {
      assert IsPrev(lt, s, key, i, prev[i]);
      var j := RowIndex(s, i, prev[i]);
      assert LevelOk(lt, s, i) && LinkOk(s, i, j);
    }
    PrevsStay(lt, s, t, key, 0, prev);
  }

  lemma {:induction false} PrevAt<K(!new)>(lt: Order<K>, s: Shape<K>, key: K, i: nat, prev: seq<nat>)
    requires i < |prev| && PrevsFrom(lt, s, key, i, prev)
    ensures IsPrev(lt, s, key, i, prev[i])
  {
  }

  lemma {:induction false} PrevsLeft<K(!new)>(lt: Order<K>, s: Shape<K>, t: Shape<K>, key: K, i: nat, prev: seq<nat>)
    requires PrevsFrom(lt, s, key, i, prev) && Extends(s, t)
    requires forall n, l :: l != i ==> Load(t, n, l) == Load(s, n, l)
    ensures PrevsFrom(lt, t, key, i + 1, prev)
  {
    PrevsStay(lt, s, t, key, i + 1, prev);
  }

  // Node x is on the levels below `level`; the levels from there on are as they were.
  ghost predicate Linking<K(!new)>(lt: Order<K>, s: Shape<K>, t: Shape<K>, key: K, x: nat, height: nat, level: nat) {
    && |s.chains| == |t.chains| == MAX_HEIGHT && level <= height <= t.maxHeight <= MAX_HEIGHT
    && x in t.keys && t.keys[x] == key && x in t.next && |t.next[x]| == height && x != HEAD
    && (forall i :: level <= i < MAX_HEIGHT ==> t.chains[i] == s.chains[i] && x !in t.chains[i])
    && (0 < level ==> x in t.chains[level - 1])
  }

  lemma {:induction false} LinkingStart<K(!new)>(lt: Order<K>, s: Shape<K>, t: Shape<K>, key: K, x: nat, height: nat)
    requires |s.chains| == MAX_HEIGHT && t.chains == s.chains && height <= t.maxHeight <= MAX_HEIGHT
    requires x in t.keys && t.keys[x] == key && x in t.next && |t.next[x]| == height && x != HEAD
    requires forall i :: 0 <= i < MAX_HEIGHT ==> x !in t.chains[i]
    ensures Linking(lt, s, t, key, x, height, 0)
  {
  }

  lemma {:induction false} LinkingFacts<K(!new)>(lt: Order<K>, s: Shape<K>, t: Shape<K>, key: K, x: nat, height: nat,
                                                 level: nat)
    requires Linking(lt, s, t, key, x, height, level)
    ensures x in t.next && |t.next[x]| == height
  {
  }

  lemma {:induction false} LinkingReady<K(!new)>(lt: Order<K>, s: Shape<K>, t: Shape<K>, key: K, x: nat, height: nat,
                                                 level: nat)
    requires WellFormed(lt, s) && Extends(s, t) && Lacks(lt, s, key)
    requires Linking(lt, s, t, key, x, height, level) && level < height
    ensures Ready(lt, t, key, x, level)
  {
    MissingOnLevels(lt, s, key, level);
    assert LevelOk(lt, s, level);
  }

  lemma {:induction false} LinkingNext<K(!new)>(lt: Order<K>, s: Shape<K>, t: Shape<K>, u: Shape<K>, key: K, x: nat,
                                                height: nat, level: nat)
    requires Linking(lt, s, t, key, x, height, level) && level < height && Extends(t, u)
    requires u.maxHeight == t.maxHeight && |u.chains| == |t.chains| && x in u.next && |u.next[x]| == height
    requires x in u.chains[level] && forall i :: 0 <= i < |u.chains| && i != level ==> u.chains[i] == t.chains[i]
    ensures Linking(lt, s, u, key, x, height, level + 1)
  {
  }

  // The trace with one more state.
  lemma {:induction false} Recorded<K(!new)>(lt: Order<K>, keep: set<K>, key: K, trace: seq<Shape<K>>, t: Shape<K>)
    returns (trace': seq<Shape<K>>)
    requires |trace| > 0 && History(lt, trace) && StoreByStore(trace) && OneStore(trace[|trace| - 1], t)
    requires forall k :: 0 <= k < |trace| ==> |trace[k].chains| > 0 && Contents(trace[k]) in {keep, keep + {key}}
    requires WellFormed(lt, t) && Extends(trace[|trace| - 1], t)
    requires t.chains == trace[|trace| - 1].chains || Contents(t) == keep + {key}
    ensures trace' == trace + [t] && History(lt, trace') && StoreByStore(trace')
    ensures forall k :: 0 <= k < |trace'| ==> |trace'[k].chains| > 0 && Contents(trace'[k]) in {keep, keep + {key}}
  {
    var s := trace[|trace| - 1];
    assert WellFormed(lt, s);
    if t.chains == s.chains {
      SameLowest(lt, s, t);
    }
    HistoryGrows(lt, trace, t);
    OneMoreStore(trace, t);
    trace' := trace + [t];
    hide WellFormed, Extends, Contents;
  }

  // Above the height the head is the whole level.
  lemma {:induction false} EmptyLevel<K(!new)>(lt: Order<K>, s: Shape<K>, key: K, level: nat)
    requires WellFormed(lt, s) && s.maxHeight <= level < MAX_HEIGHT
    ensures IsPrev(lt, s, key, level, HEAD)
  {
    Follow(lt, s, level, 0);
    assert LevelOk(lt, s, level);
  }

  lemma {:induction false} SizesOf<K(!new)>(lt: Order<K>, s: Shape<K>)
    requires WellFormed(lt, s)
    ensures |s.chains| == MAX_HEIGHT && 1 <= s.maxHeight <= MAX_HEIGHT
  {
  }
}

/**
 The writer's stores, one at a time: each leaves a well-formed skip list that extends the one
 before.
 */
module SkipStores {

  import opened SkipShape

  function Store<K>(s: Shape<K>, n: nat, level: nat, link: int): Shape<K>
    requires n in s.next && level < |s.next[n]|
  {
    s.(next := s.next[n := s.next[n][level := link]])
  }

  function Spliced<K>(s: Shape<K>, level: nat, j: nat, x: nat): Shape<K>
    requires level < |s.chains| && j <= |s.chains[level]|
  {
    s.(chains := s.chains[level := s.chains[level][..j] + [x] + s.chains[level][j..]])
  }

  // One store apart, in what readers can see: the height is raised, or a node comes into being,
  // or one link of one node changes. What the levels list follows from the links.
  ghost predicate Raised<K(!new)>(s: Shape<K>, t: Shape<K>) {
    s.maxHeight < t.maxHeight && t == s.(maxHeight := t.maxHeight)
  }

  ghost predicate Created<K(!new)>(s: Shape<K>, t: Shape<K>, x: nat) {
    && x !in s.keys && x !in s.next && x in t.keys && x in t.next
    && t == s.(keys := s.keys[x := t.keys[x]], next := s.next[x := t.next[x]])
  }

  ghost predicate Relinked<K(!new)>(s: Shape<K>, t: Shape<K>, n: nat, level: nat) {
    && n in s.next && n in t.next && level < |s.next[n]| && level < |t.next[n]|
    && t.keys == s.keys && t.maxHeight == s.maxHeight
    && t.next == s.next[n := s.next[n][level := t.next[n][level]]]
  }

  ghost predicate OneStore<K(!new)>(s: Shape<K>, t: Shape<K>) {
    Raised(s, t) || (exists x :: Created(s, t, x)) || exists n, level :: Relinked(s, t, n, level)
  }

  ghost predicate OneStoreAt<K(!new)>(trace: seq<Shape<K>>, k: nat)
    requires k + 1 < |trace|
  {
    OneStore(trace[k], trace[k + 1])
  }

  // Each state of the trace is one store away from the one before.
  ghost predicate StoreByStore<K(!new)>(trace: seq<Shape<K>>) {
    forall k :: 0 <= k < |trace| - 1 ==> OneStoreAt(trace, k)
  }

  lemma {:induction false} OneMoreStore<K(!new)>(trace: seq<Shape<K>>, t: Shape<K>)
    requires |trace| > 0 && StoreByStore(trace) && OneStore(trace[|trace| - 1], t)
    ensures StoreByStore(trace + [t])
  {
    hide OneStore;
    var all := trace + [t];
    forall k | 0 <= k < |all| - 1 ensures OneStoreAt(all, k) {
      if k < |trace| - 1 { assert OneStoreAt(trace, k); }
    }
  }

  lemma {:induction false} StoreIsOne<K(!new)>(s: Shape<K>, n: nat, level: nat, link: int, chains: seq<seq<nat>>)
    requires n in s.next && level < |s.next[n]|
    ensures OneStore(s, Store(s, n, level, link).(chains := chains))
  {
    assert Relinked(s, Store(s, n, level, link).(chains := chains), n, level);
  }

  // Raising the height exposes levels that hold no node yet.
  lemma {:induction false} RaiseKeeps<K(!new)>(lt: Order<K>, s: Shape<K>, height: nat)
    requires WellFormed(lt, s) && s.maxHeight < height <= MAX_HEIGHT
    ensures WellFormed(lt, s.(maxHeight := height)) && Extends(s, s.(maxHeight := height))
  {
    var t := s.(maxHeight := height);
    forall i | 0 <= i < MAX_HEIGHT ensures LevelOk(lt, t, i) {
      assert LevelOk(lt, s, i);
      forall j | 0 <= j <= |s.chains[i]| ensures LinkOk(t, i, j) { assert LinkOk(s, i, j); }
    }
  }

  // A new node that nothing links to changes no level.
  lemma {:induction false} NewNodeKeeps<K(!new)>(lt: Order<K>, s: Shape<K>, x: nat, key: K, height: nat)
    requires WellFormed(lt, s) && x !in s.next && x !in s.keys
    ensures var t := s.(keys := s.keys[x := key], next := s.next[x := seq(height, _ => -1)]);
            WellFormed(lt, t) && Extends(s, t) && forall i :: 0 <= i < MAX_HEIGHT ==> x !in s.chains[i]
  {
    var t := s.(keys := s.keys[x := key], next := s.next[x := seq(height, _ => -1)]);
    forall i | 0 <= i < MAX_HEIGHT ensures LevelOk(lt, t, i) && x !in s.chains[i] {
      assert LevelOk(lt, s, i);
      forall j | 0 <= j <= |s.chains[i]| ensures LinkOk(t, i, j) { assert LinkOk(s, i, j); }
    }
  }

  // A link of a node on a level the node is not part of is read by nobody.
  lemma {:induction false} PrivateStoreKeeps<K(!new)>(lt: Order<K>, s: Shape<K>, x: nat, level: nat, link: int)
    requires WellFormed(lt, s) && x in s.next && level < |s.next[x]| && level < MAX_HEIGHT
    requires x !in s.chains[level] && x != HEAD
    ensures WellFormed(lt, Store(s, x, level, link)) && Extends(s, Store(s, x, level, link))
  {
    var t := Store(s, x, level, link);
    forall i | 0 <= i < MAX_HEIGHT ensures LevelOk(lt, t, i) {
      assert LevelOk(lt, s, i);
      forall j | 0 <= j <= |s.chains[i]| ensures LinkOk(t, i, j) {
        assert LinkOk(s, i, j);
        if i == level && j > 0 { assert Row(s, i)[j] == s.chains[i][j - 1]; }
      }
    }
  }

  // `p` is the last node of the level before `key`: the level continues at or after the key.
  ghost predicate IsPrev<K(!new)>(lt: Order<K>, s: Shape<K>, key: K, level: nat, p: nat) {
    && SearchOk(lt, s, Search(key, p, level))
    && (Load(s, p, level) == -1
        || (Load(s, p, level) >= 0 && Load(s, p, level) in s.keys && !lt(s.keys[Load(s, p, level)], key)))
  }

  // No key of the list compares equal.
  ghost predicate Lacks<K(!new)>(lt: Order<K>, s: Shape<K>, key: K)
    requires |s.chains| > 0
  {
    forall k :: k in Contents(s) ==> !Equal(lt, k, key)
  }

  ghost predicate Missing<K(!new)>(lt: Order<K>, s: Shape<K>, key: K, level: nat) {
    level < |s.chains| && forall n :: n in s.chains[level] && n in s.keys ==> !Equal(lt, s.keys[n], key)
  }

  lemma {:induction false} MissingOnLevels<K(!new)>(lt: Order<K>, s: Shape<K>, key: K, level: nat)
    requires WellFormed(lt, s) && level < MAX_HEIGHT && Lacks(lt, s, key)
    ensures Missing(lt, s, key, level)
  {
    forall n | n in s.chains[level] && n in s.keys ensures !Equal(lt, s.keys[n], key) {
      OnLowerLevels(lt, s, level, n);
      assert s.keys[n] in Contents(s);
    }
  }

  ghost predicate PrevsFrom<K(!new)>(lt: Order<K>, s: Shape<K>, key: K, level: nat, prev: seq<nat>) {
    forall i :: level <= i < |prev| ==> IsPrev(lt, s, key, i, prev[i])
  }

  // Stores elsewhere leave the predecessors found on a level in place.
  lemma {:induction false} PrevsStay<K(!new)>(lt: Order<K>, s: Shape<K>, t: Shape<K>, key: K, level: nat,
                                              prev: seq<nat>)
    requires PrevsFrom(lt, s, key, level, prev) && Extends(s, t)
    requires forall i :: level <= i < |prev| ==> Load(t, prev[i], i) == Load(s, prev[i], i)
    ensures PrevsFrom(lt, t, key, level, prev)
  {
    forall i | level <= i < |prev| ensures IsPrev(lt, t, key, i, prev[i]) {
      assert IsPrev(lt, s, key, i, prev[i]);
      SearchSurvives(lt, s, t, Search(key, prev[i], i));
    }
  }

  // The place of the key on the level, right after `p`.
  lemma {:induction false} Place<K(!new)>(lt: Order<K>, s: Shape<K>, key: K, level: nat, p: nat) returns (j: nat)
    requires WeakOrder(lt) && WellFormed(lt, s) && level < MAX_HEIGHT
    requires IsPrev(lt, s, key, level, p) && Missing(lt, s, key, level)
    ensures j <= |s.chains[level]| && Row(s, level)[j] == p && LinkOk(s, level, j)
    ensures forall k :: 0 <= k < j ==> s.chains[level][k] in s.keys && lt(s.keys[s.chains[level][k]], key)
    ensures forall k :: j <= k < |s.chains[level]| ==>
              s.chains[level][k] in s.keys && lt(key, s.keys[s.chains[level][k]])
  {
    j := RowIndex(s, level, p);
    assert LevelOk(lt, s, level) && LinkOk(s, level, j);
    var c := s.chains[level];
    assert j > 0 ==> c[j - 1] == p;
    forall k | 0 <= k < j ensures lt(s.keys[c[k]], key) { assert k < j - 1 ==> lt(s.keys[c[k]], s.keys[c[j - 1]]); }
    forall k | j <= k < |c| ensures lt(key, s.keys[c[k]]) {
      assert !lt(s.keys[c[j]], key);
      assert j < k ==> lt(s.keys[c[j]], s.keys[c[k]]);
      assert c[j] in c;
    }
  }

  // Node x, on the level below already and linked onwards, belongs at place j of the level.
  ghost predicate Fits<K(!new)>(lt: Order<K>, s: Shape<K>, x: nat, level: nat, j: nat)
    requires level < |s.chains|
  {
    && j <= |s.chains[level]| && LinkOk(s, level, j)
    && x in s.next && x in s.keys && x != HEAD && level < |s.next[x]| && x !in s.chains[level]
    && (level > 0 ==> x in s.chains[level - 1])
    && s.next[x][level] == Load(s, Row(s, level)[j], level)
    && (forall k :: 0 <= k < j ==> s.chains[level][k] in s.keys && lt(s.keys[s.chains[level][k]], s.keys[x]))
    && (forall k :: j <= k < |s.chains[level]| ==>
          s.chains[level][k] in s.keys && lt(s.keys[x], s.keys[s.chains[level][k]]))
  }

  // Publishing the node on one level.
  lemma {:induction false} PublishKeeps<K(!new)>(lt: Order<K>, s: Shape<K>, x: nat, level: nat, j: nat)
    requires WeakOrder(lt) && WellFormed(lt, s) && level < s.maxHeight
    requires Fits(lt, s, x, level, j)
    ensures var t := Spliced(Store(s, Row(s, level)[j], level, x), level, j, x);
            WellFormed(lt, t) && Extends(s, t)
  {
    var t := Spliced(Store(s, Row(s, level)[j], level, x), level, j, x);
    forall i | 0 <= i < MAX_HEIGHT ensures LevelOk(lt, t, i) {
      assert LevelOk(lt, s, i);
      if i == level {
        SplicedLevel(lt, s, x, level, j);
      } else {
        OtherLevel(lt, s, x, level, j, i);
      }
    }
    forall i, n | 0 <= i < |s.chains| && n in s.chains[i] ensures n in t.chains[i] {
      if i == level { assert s.chains[i] == s.chains[i][..j] + s.chains[i][j..]; }
    }
  }

  lemma {:induction false} OtherLevel<K(!new)>(lt: Order<K>, s: Shape<K>, x: nat, level: nat, j: nat, i: nat)
    requires WellFormed(lt, s) && level < MAX_HEIGHT && i < MAX_HEIGHT && i != level
    requires j <= |s.chains[level]| && LinkOk(s, level, j)
    ensures LevelOk(lt, Spliced(Store(s, Row(s, level)[j], level, x), level, j, x), i)
  {
    var t := Spliced(Store(s, Row(s, level)[j], level, x), level, j, x);
    assert LevelOk(lt, s, i);
    forall k | 0 <= k <= |t.chains[i]| ensures LinkOk(t, i, k) { assert LinkOk(s, i, k); }
    if i == level + 1 {
      forall n | n in s.chains[i] ensures n in t.chains[level] {
        assert s.chains[level] == s.chains[level][..j] + s.chains[level][j..];
      }
    }
  }

  lemma {:induction false} SplicedLevel<K(!new)>(lt: Order<K>, s: Shape<K>, x: nat, level: nat, j: nat)
    requires WeakOrder(lt) && WellFormed(lt, s) && level < s.maxHeight
    requires Fits(lt, s, x, level, j)
    ensures LevelOk(lt, Spliced(Store(s, Row(s, level)[j], level, x), level, j, x), level)
  {
    var t := Spliced(Store(s, Row(s, level)[j], level, x), level, j, x);
    var c, d := s.chains[level], t.chains[level];
    assert LevelOk(lt, s, level);
    SplicedLinks(lt, s, x, level, j);
    SplicedOrder(lt, s.keys, c, j, x);
    hide LinkOk, WeakOrder;
    assert d == c[..j] + [x] + c[j..];
    assert t.keys == s.keys;
    assert level > 0 ==> t.chains[level - 1] == s.chains[level - 1];
  }

  lemma {:induction false} SplicedOrder<K(!new)>(lt: Order<K>, keys: map<nat, K>, c: seq<nat>, j: nat, x: nat)
    requires WeakOrder(lt) && j <= |c| && x in keys
    requires forall k :: 0 <= k < |c| ==> c[k] in keys
    requires forall k, m :: 0 <= k < m < |c| ==> lt(keys[c[k]], keys[c[m]])
    requires forall k :: 0 <= k < j ==> lt(keys[c[k]], keys[x])
    requires forall k :: j <= k < |c| ==> lt(keys[x], keys[c[k]])
    ensures var d := c[..j] + [x] + c[j..];
            && (forall n :: n in d <==> n in c || n == x)
            && (forall k, m :: 0 <= k < m < |d| && d[k] in keys && d[m] in keys ==> lt(keys[d[k]], keys[d[m]]))
  {
    var d := c[..j] + [x] + c[j..];
    assert c == c[..j] + c[j..];
    forall k | 0 <= k < |d| ensures d[k] == if k < j then c[k] else if k == j then x else c[k - 1] {}
  }

  lemma {:induction false} SplicedLinks<K(!new)>(lt: Order<K>, s: Shape<K>, x: nat, level: nat, j: nat)
    requires WeakOrder(lt) && WellFormed(lt, s) && level < s.maxHeight
    requires Fits(lt, s, x, level, j)
    ensures var t := Spliced(Store(s, Row(s, level)[j], level, x), level, j, x);
            forall k :: 0 <= k <= |t.chains[level]| ==> LinkOk(t, level, k)
  {
    hide WeakOrder;
    var t := Spliced(Store(s, Row(s, level)[j], level, x), level, j, x);
    var c, d := s.chains[level], t.chains[level];
    assert LevelOk(lt, s, level);
    forall k | 0 <= k <= |d| ensures LinkOk(t, level, k) {
      if k == j + 1 {
        assert Row(t, level)[k] == x;
        assert j > 0 ==> Row(s, level)[j] == c[j - 1];
      } else {
        var m := if k <= j then k else k - 1;
        assert LinkOk(s, level, m);
        RowsDiffer(lt, s, level, j, m);
        assert Row(t, level)[k] == Row(s, level)[m];
        assert m > 0 ==> Row(s, level)[m] == c[m - 1];
      }
    }
  }

  // Distinct places of a level hold distinct nodes.
  lemma {:induction false} RowsDiffer<K(!new)>(lt: Order<K>, s: Shape<K>, level: nat, j: nat, k: nat)
    requires WeakOrder(lt) && WellFormed(lt, s) && level < MAX_HEIGHT
    requires j <= |s.chains[level]| && k <= |s.chains[level]|
    ensures Row(s, level)[j] == Row(s, level)[k] ==> j == k
  {
    assert LevelOk(lt, s, level);
    var c := s.chains[level];
    assert j > 0 ==> Row(s, level)[j] == c[j - 1];
    assert k > 0 ==> Row(s, level)[k] == c[k - 1];
  }

  // A node ready to be published on a level: allocated, on the levels below, and not yet here.
  ghost predicate Ready<K(!new)>(lt: Order<K>, s: Shape<K>, key: K, x: nat, level: nat) {
    && level < s.maxHeight && level < |s.chains|
    && x in s.keys && s.keys[x] == key && x in s.next && level < |s.next[x]| && x != HEAD
    && x !in s.chains[level] && (level > 0 ==> x in s.chains[level - 1])
    && Missing(lt, s, key, level)
  }

  // The two stores that publish a node on a level, after its predecessor there.
  lemma {:induction false} TwoStores<K(!new)>(lt: Order<K>, s: Shape<K>, key: K, x: nat, level: nat, p: nat)
    returns (j: nat)
    requires WeakOrder(lt) && WellFormed(lt, s) && Ready(lt, s, key, x, level) && IsPrev(lt, s, key, level, p)
    ensures p in s.next && level < |s.next[p]| && p != x && j <= |s.chains[level]|
    ensures var t := Store(s, x, level, Load(s, p, level));
            && WellFormed(lt, t) && Extends(s, t)
            && var u := Spliced(Store(t, p, level, x), level, j, x);
               WellFormed(lt, u) && Extends(t, u)
                 && (forall n :: n in u.chains[level] <==> n in s.chains[level] || n == x)
  {
    j := Place(lt, s, key, level, p);
    assert LevelOk(lt, s, level);
    var c := s.chains[level];
    assert j > 0 ==> c[j - 1] == p && c[j - 1] in c;
    PrivateStoreKeeps(lt, s, x, level, Load(s, p, level));
    var t := Store(s, x, level, Load(s, p, level));
    hide WellFormed, WeakOrder, LevelOk;
    assert Row(t, level) == Row(s, level);
    assert LinkOk(t, level, j) && Fits(lt, t, x, level, j);
    PublishKeeps(lt, t, x, level, j);
    assert c == c[..j] + c[j..];
  }
}

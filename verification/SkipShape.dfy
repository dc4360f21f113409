/**
 The skip list at one instant: nodes with forward links on several levels, read without
 locks while one writer inserts.
 */
module SkipShape {

  const MAX_HEIGHT := 12
  const HEAD: nat := 0

  // Nodes are numbered; -1 is the null link. `chains[i]`, for specification, lists the nodes
  // on level i from the head on.
  datatype Shape<K> = Shape(keys: map<nat, K>, next: map<nat, seq<int>>, maxHeight: nat, chains: seq<seq<nat>>)

  type Order<!K> = (K, K) -> bool

  // The comparator: an order in which different keys may compare equal.
  ghost predicate WeakOrder<K(!new)>(lt: Order<K>) {
    && (forall a :: !lt(a, a))
    && (forall a, b, c :: lt(a, b) && lt(b, c) ==> lt(a, c))
    && (forall a, b, c :: lt(a, b) ==> lt(a, c) || lt(c, b))
  }

  predicate Equal<K>(lt: Order<K>, a: K, b: K) {
    !lt(a, b) && !lt(b, a)
  }

  function Row<K>(s: Shape<K>, i: nat): seq<nat>
    requires i < |s.chains|
  {
    [HEAD] + s.chains[i]
  }

  // The j-th node of level i links to the next one, or to null at the end.
  predicate LinkOk<K>(s: Shape<K>, i: nat, j: nat)
    requires i < |s.chains| && j <= |s.chains[i]|
  {
    && Row(s, i)[j] in s.next && i < |s.next[Row(s, i)[j]]|
    && s.next[Row(s, i)[j]][i] == if j < |s.chains[i]| then s.chains[i][j] else -1
  }

  // Level i is a strictly sorted linked list of nodes that are all on the level below.
  ghost predicate LevelOk<K(!new)>(lt: Order<K>, s: Shape<K>, i: nat)
    requires i < |s.chains|
  {
    && (forall j :: 0 <= j <= |s.chains[i]| ==> LinkOk(s, i, j))
    && (forall j :: 0 <= j < |s.chains[i]| ==> s.chains[i][j] in s.keys && s.chains[i][j] != HEAD)
    && (forall j, k :: 0 <= j < k < |s.chains[i]| && s.chains[i][j] in s.keys && s.chains[i][k] in s.keys ==>
          lt(s.keys[s.chains[i][j]], s.keys[s.chains[i][k]]))
    && (0 < i ==> forall n :: n in s.chains[i] ==> n in s.chains[i - 1])
    && (s.maxHeight <= i ==> s.chains[i] == [])
  }

  ghost predicate WellFormed<K(!new)>(lt: Order<K>, s: Shape<K>) {
    && |s.chains| == MAX_HEIGHT && 1 <= s.maxHeight <= MAX_HEIGHT
    && (forall i :: 0 <= i < MAX_HEIGHT ==> LevelOk(lt, s, i))
  }

  // The keys of the list, in order.
  function Contents<K>(s: Shape<K>): set<K>
    requires |s.chains| > 0
  {
    set n | n in s.chains[0] && n in s.keys :: s.keys[n]
  }

  // ----- What a search finds

  // `n` is the earliest node at or after `key`, or null when every key comes before it.
  ghost predicate FirstNotBefore<K(!new)>(lt: Order<K>, s: Shape<K>, key: K, n: int)
    requires |s.chains| > 0
  {
    && (n == -1 || (n >= 0 && n in s.chains[0] && n in s.keys && !lt(s.keys[n], key)))
    && (forall m :: m in s.chains[0] && m in s.keys && (n == -1 || (n in s.keys && lt(s.keys[m], s.keys[n]))) ==>
          lt(s.keys[m], key))
  }

  // `x` is the last node before the key, or the head when there is none.
  ghost predicate LastBefore<K(!new)>(lt: Order<K>, s: Shape<K>, key: K, x: nat)
    requires |s.chains| > 0
  {
    && (x != HEAD ==> x in s.chains[0] && x in s.keys && lt(s.keys[x], key))
    && (forall m :: m in s.chains[0] && m in s.keys && (x == HEAD || (x in s.keys && lt(s.keys[x], s.keys[m]))) ==>
          !lt(s.keys[m], key))
  }

  // The last node of all, or the head of an empty list.
  function LastNode<K>(s: Shape<K>): nat
    requires |s.chains| > 0
  {
    if s.chains[0] == [] then HEAD else s.chains[0][|s.chains[0]| - 1]
  }

  // A reader in the middle of FindGreaterOrEqual or FindLessThan, which make the same loads: at
  // a node of its level that comes before the key, or at the head.
  datatype Search<K> = Search(key: K, at: nat, level: nat)

  ghost predicate SearchOk<K(!new)>(lt: Order<K>, s: Shape<K>, r: Search<K>) {
    && r.level < |s.chains| && r.at in Row(s, r.level)
    && (r.at != HEAD ==> r.at in s.keys && lt(s.keys[r.at], r.key))
  }

  // One load, and what the reader does with it. A missing link reads as null.
  datatype Outcome<K> = Found(node: int) | Continue(r: Search<K>)

  function Load<K>(s: Shape<K>, n: nat, level: nat): int {
    if n in s.next && level < |s.next[n]| then s.next[n][level] else -1
  }

  function Advance<K>(lt: Order<K>, s: Shape<K>, r: Search<K>): Outcome<K> {
    var next := Load(s, r.at, r.level);
    if next >= 0 && next in s.keys && lt(s.keys[next], r.key) then Continue(r.(at := next))
    else if r.level == 0 then Found(next)
    else Continue(r.(level := r.level - 1))
  }

  lemma {:induction false} RowIndex<K>(s: Shape<K>, i: nat, n: nat) returns (j: nat)
    requires i < |s.chains| && n in Row(s, i)
    ensures j <= |s.chains[i]| && Row(s, i)[j] == n
  {
    j :| 0 <= j < |Row(s, i)| && Row(s, i)[j] == n;
  }

  // A load keeps the reader on its way, or ends the search with the right answer for the
  // list as it was at that load.
  lemma {:induction false} AdvanceIsSound<K(!new)>(lt: Order<K>, s: Shape<K>, r: Search<K>)
    requires WeakOrder(lt) && WellFormed(lt, s) && SearchOk(lt, s, r)
    ensures match Advance(lt, s, r)
            case Found(n) => FirstNotBefore(lt, s, r.key, n) && LastBefore(lt, s, r.key, r.at)
            case Continue(r') => SearchOk(lt, s, r')
  {
    assert LevelOk(lt, s, r.level);
    var j := RowIndex(s, r.level, r.at);
    assert LinkOk(s, r.level, j);
    var c := s.chains[r.level];
    if j < |c| { assert c[j] in c; }
    match Advance(lt, s, r)
    case Continue(r') =>
      if r'.level != r.level && r.at != HEAD {
        assert r.at in c;
      }
    case Found(n) =>
      forall m | m in c && (n == -1 || lt(s.keys[m], s.keys[n])) ensures lt(s.keys[m], r.key) {
        var k :| 0 <= k < |c| && c[k] == m;
        assert j > 0 ==> c[j - 1] == r.at;
      }
      assert j > 0 ==> c[j - 1] == r.at && c[j - 1] in c;
      forall m | m in c && (r.at == HEAD || lt(s.keys[r.at], s.keys[m])) ensures !lt(s.keys[m], r.key) {
        var k :| 0 <= k < |c| && c[k] == m;
        assert k >= j;
        assert k > j ==> lt(s.keys[c[j]], s.keys[c[k]]);
      }
  }

  // ----- Readers among writers

  // What every store of the writer leaves in place: nodes keep their keys and stay on their
  // levels.
  ghost predicate Extends<K(!new)>(s: Shape<K>, t: Shape<K>) {
    && |s.chains| == |t.chains|
    && (forall n :: n in s.keys ==> n in t.keys && s.keys[n] == t.keys[n])
    && (forall i, n :: 0 <= i < |s.chains| && n in s.chains[i] ==> n in t.chains[i])
  }

  lemma {:induction false} ExtendsTrans<K(!new)>(s: Shape<K>, t: Shape<K>, u: Shape<K>)
    requires Extends(s, t) && Extends(t, u)
    ensures Extends(s, u)
  {
    forall i, n | 0 <= i < |s.chains| && n in s.chains[i] ensures n in u.chains[i] {
      assert n in t.chains[i];
    }
  }

  lemma {:induction false} SearchSurvives<K(!new)>(lt: Order<K>, s: Shape<K>, t: Shape<K>, r: Search<K>)
    requires Extends(s, t) && SearchOk(lt, s, r)
    ensures SearchOk(lt, t, r)
  {
    if r.at != HEAD {
      var j := RowIndex(s, r.level, r.at);
      assert s.chains[r.level][j - 1] == r.at;
      assert r.at in t.chains[r.level];
      assert forall k :: 0 <= k < |t.chains[r.level]| ==> Row(t, r.level)[k + 1] == t.chains[r.level][k];
    } else {
      assert Row(t, r.level)[0] == HEAD;
    }
  }

  // The list as it goes through `states`, one writer's store after another.
  ghost predicate History<K(!new)>(lt: Order<K>, states: seq<Shape<K>>) {
    && (forall k :: 0 <= k < |states| ==> WellFormed(lt, states[k]))
    && (forall k, m :: 0 <= k <= m < |states| ==> Extends(states[k], states[m]))
  }

  // A search whose i-th load sees `loads[i]`: pending after all of them, or answered by one,
  // with the node found and the node before it.
  datatype Reply = Pending | Reply(load: nat, node: int, before: nat)

  function Answered<K>(lt: Order<K>, loads: seq<Shape<K>>, r: Search<K>): Reply {
    if |loads| == 0 then Pending else
    match Advance(lt, loads[0], r)
    case Found(n) => Reply(0, n, r.at)
    case Continue(r') =>
      match Answered(lt, loads[1..], r')
      case Pending => Pending
      case Reply(k, n, b) => Reply(k + 1, n, b)
  }

  // The nodes a search at `at` may still pass.
  ghost function Ahead<K(!new)>(lt: Order<K>, s: Shape<K>, at: nat): set<nat>
    requires |s.chains| > 0
  {
    set n | n in s.chains[0] && n in s.keys && (at == HEAD || at !in s.keys || lt(s.keys[at], s.keys[n]))
  }

  lemma {:induction false} OnLowerLevels<K(!new)>(lt: Order<K>, s: Shape<K>, i: nat, n: nat)
    requires WellFormed(lt, s) && i < MAX_HEIGHT && n in s.chains[i]
    ensures n in s.chains[0] && n in s.keys && n != HEAD
    decreases i
  {
    assert LevelOk(lt, s, i);
    if i > 0 { OnLowerLevels(lt, s, i - 1, n); }
  }

  // Every load that does not end the search brings it closer to its end.
  lemma {:induction false} AdvanceGetsCloser<K(!new)>(lt: Order<K>, s: Shape<K>, last: Shape<K>, r: Search<K>)
    requires WeakOrder(lt) && WellFormed(lt, s) && WellFormed(lt, last) && Extends(s, last)
    requires SearchOk(lt, s, r) && Advance(lt, s, r).Continue?
    ensures var r' := Advance(lt, s, r).r;
            r'.level + |Ahead(lt, last, r'.at)| < r.level + |Ahead(lt, last, r.at)|
  {
    var r' := Advance(lt, s, r).r;
    assert LevelOk(lt, s, r.level);
    var j := RowIndex(s, r.level, r.at);
    assert LinkOk(s, r.level, j);
    if r'.level == r.level {
      OnLowerLevels(lt, s, r.level, r'.at);
      assert j > 0 ==> s.chains[r.level][j - 1] == r.at;
      assert r'.at in last.chains[0];
      assert r'.at in Ahead(lt, last, r.at) && r'.at !in Ahead(lt, last, r'.at);
      assert Ahead(lt, last, r'.at) <= Ahead(lt, last, r.at) - {r'.at};
      SmallerSet(Ahead(lt, last, r'.at), Ahead(lt, last, r.at) - {r'.at});
    }
  }

  lemma {:induction false} SmallerSet(a: set<nat>, b: set<nat>)
    requires a <= b
    ensures |a| <= |b|
  {
    assert |b| == |a| + |b - a| by { assert b == a + (b - a); }
  }

  // A reader that runs beside the writer, each of its loads seeing whatever stores were made
  // by then, answers for the list as it is at its last load; and it gets there in a number of
  // loads bounded by its starting level and the nodes ahead of it.
  lemma {:induction false} ConcurrentSearch<K(!new)>(lt: Order<K>, loads: seq<Shape<K>>, r: Search<K>)
    requires WeakOrder(lt) && History(lt, loads) && |loads| > 0 && SearchOk(lt, loads[0], r)
    ensures var a := Answered(lt, loads, r);
            && (a.Reply? ==>
                  && a.load < |loads| && FirstNotBefore(lt, loads[a.load], r.key, a.node)
                  && LastBefore(lt, loads[a.load], r.key, a.before))
            && (a.Pending? ==> |loads| <= r.level + |Ahead(lt, loads[|loads| - 1], r.at)|)
    decreases |loads|
  {
    hide WellFormed, Extends, FirstNotBefore, LastBefore, Ahead, SearchOk;
    var last := loads[|loads| - 1];
    assert WellFormed(lt, last) && WellFormed(lt, loads[0]) && Extends(loads[0], last);
    AdvanceIsSound(lt, loads[0], r);
    if Advance(lt, loads[0], r).Continue? {
      var r' := Advance(lt, loads[0], r).r;
      AdvanceGetsCloser(lt, loads[0], last, r);
      if |loads| > 1 {
        assert Extends(loads[0], loads[1]);
        SearchSurvives(lt, loads[0], loads[1], r');
        RestOfHistory(lt, loads);
        ConcurrentSearch(lt, loads[1..], r');
      }
    }
  }

  lemma {:induction false} RestOfHistory<K(!new)>(lt: Order<K>, states: seq<Shape<K>>)
    requires History(lt, states) && |states| > 1
    ensures History(lt, states[1..])
  {
    hide WellFormed, Extends;
  }

  // What a reader's loads see of the list when they happen at the given moments.
  ghost predicate Moments(times: seq<nat>, n: nat) {
    && (forall i :: 0 <= i < |times| ==> times[i] < n)
    && (forall i, j :: 0 <= i <= j < |times| ==> times[i] <= times[j])
  }

  function SeenAt<K>(states: seq<Shape<K>>, times: seq<nat>): (loads: seq<Shape<K>>)
    requires forall i :: 0 <= i < |times| ==> times[i] < |states|
    ensures |loads| == |times| && forall i :: 0 <= i < |loads| ==> loads[i] == states[times[i]]
  {
    seq(|times|, i requires 0 <= i < |times| => states[times[i]])
  }

  lemma {:induction false} SeenIsHistory<K(!new)>(lt: Order<K>, states: seq<Shape<K>>, times: seq<nat>)
    requires History(lt, states) && Moments(times, |states|)
    ensures History(lt, SeenAt(states, times))
  {
    hide WellFormed, Extends;
  }

  // One history after another that begins where it ends.
  lemma {:induction false} HistoriesJoin<K(!new)>(lt: Order<K>, a: seq<Shape<K>>, b: seq<Shape<K>>)
    requires History(lt, a) && History(lt, b) && |a| > 0 && |b| > 0 && a[|a| - 1] == b[0]
    ensures History(lt, a + b)
  {
    hide WellFormed, Extends;
    forall k, m | 0 <= k <= m < |a + b| ensures Extends((a + b)[k], (a + b)[m]) {
      if k < |a| <= m {
        ExtendsTrans(a[k], b[0], b[m - |a|]);
      }
    }
  }

  // So a key that was in the list when the search began is found, whatever is inserted
  // meanwhile.
  lemma {:induction false} PresentKeyIsFound<K(!new)>(lt: Order<K>, loads: seq<Shape<K>>, r: Search<K>, key: K)
    requires WeakOrder(lt) && History(lt, loads) && |loads| > 0 && SearchOk(lt, loads[0], r)
    requires key in Contents(loads[0]) && Equal(lt, key, r.key) && Answered(lt, loads, r).Reply?
    ensures var a := Answered(lt, loads, r);
            a.load < |loads| && a.node >= 0 && a.node in loads[a.load].keys
              && Equal(lt, loads[a.load].keys[a.node], r.key)
  {
    ConcurrentSearch(lt, loads, r);
    var a := Answered(lt, loads, r);
    assert Extends(loads[0], loads[a.load]);
    var n :| n in loads[0].chains[0] && n in loads[0].keys && loads[0].keys[n] == key;
    var s := loads[a.load];
    assert n in s.chains[0] && s.keys[n] == key;
  }

  // ----- FindLast among writers

  // A reader on its way to the end: at a node of its level, or at the head.
  datatype LastSearch = LastSearch(at: nat, level: nat)

  predicate LastSearchOk<K>(s: Shape<K>, r: LastSearch) {
    r.level < |s.chains| && r.at in Row(s, r.level)
  }

  datatype LastOutcome = Ended | Goes(r: LastSearch)

  function AdvanceToLast<K>(s: Shape<K>, r: LastSearch): LastOutcome {
    var next := Load(s, r.at, r.level);
    if next >= 0 then Goes(r.(at := next))
    else if r.level == 0 then Ended
    else Goes(r.(level := r.level - 1))
  }

  lemma {:induction false} LastAdvanceIsSound<K(!new)>(lt: Order<K>, s: Shape<K>, r: LastSearch)
    requires WellFormed(lt, s) && LastSearchOk(s, r)
    ensures match AdvanceToLast(s, r)
            case Ended => r.at == LastNode(s)
            case Goes(r') => LastSearchOk(s, r')
  {
    assert LevelOk(lt, s, r.level);
    var j := RowIndex(s, r.level, r.at);
    assert LinkOk(s, r.level, j);
    var c := s.chains[r.level];
    if j < |c| {
      assert Row(s, r.level)[j + 1] == c[j];
    } else if r.level > 0 {
      assert j > 0 ==> c[j - 1] == r.at && c[j - 1] in c;
      OnRowBelow(s, r.level, r.at);
    }
  }

  lemma {:induction false} OnRowBelow<K>(s: Shape<K>, i: nat, n: nat)
    requires 0 < i < |s.chains| && (n == HEAD || n in s.chains[i - 1])
    ensures n in Row(s, i - 1)
  {
    assert Row(s, i - 1)[0] == HEAD;
    if n != HEAD {
      var k :| 0 <= k < |s.chains[i - 1]| && s.chains[i - 1][k] == n;
      assert Row(s, i - 1)[k + 1] == n;
    }
  }

  lemma {:induction false} LastSearchSurvives<K(!new)>(s: Shape<K>, t: Shape<K>, r: LastSearch)
    requires Extends(s, t) && LastSearchOk(s, r)
    ensures LastSearchOk(t, r)
  {
    if r.at != HEAD {
      var j := RowIndex(s, r.level, r.at);
      assert s.chains[r.level][j - 1] == r.at;
      var k :| 0 <= k < |t.chains[r.level]| && t.chains[r.level][k] == r.at;
      assert Row(t, r.level)[k + 1] == r.at;
    } else {
      assert Row(t, r.level)[0] == HEAD;
    }
  }

  lemma {:induction false} LastAdvanceGetsCloser<K(!new)>(lt: Order<K>, s: Shape<K>, last: Shape<K>, r: LastSearch)
    requires WeakOrder(lt) && WellFormed(lt, s) && WellFormed(lt, last) && Extends(s, last)
    requires LastSearchOk(s, r) && AdvanceToLast(s, r).Goes?
    ensures var r' := AdvanceToLast(s, r).r;
            r'.level + |Ahead(lt, last, r'.at)| < r.level + |Ahead(lt, last, r.at)|
  {
    var r' := AdvanceToLast(s, r).r;
    assert LevelOk(lt, s, r.level);
    var j := RowIndex(s, r.level, r.at);
    assert LinkOk(s, r.level, j);
    if r'.level == r.level {
      OnLowerLevels(lt, s, r.level, r'.at);
      assert j > 0 ==> s.chains[r.level][j - 1] == r.at;
      assert r'.at in last.chains[0];
      assert r'.at in Ahead(lt, last, r.at) && r'.at !in Ahead(lt, last, r'.at);
      assert Ahead(lt, last, r'.at) <= Ahead(lt, last, r.at) - {r'.at};
      SmallerSet(Ahead(lt, last, r'.at), Ahead(lt, last, r.at) - {r'.at});
    }
  }

  datatype LastReply = StillGoing | LastReply(load: nat, node: nat)

  function LastAnswered<K>(loads: seq<Shape<K>>, r: LastSearch): LastReply {
    if |loads| == 0 then StillGoing else
    match AdvanceToLast(loads[0], r)
    case Ended => LastReply(0, r.at)
    case Goes(r') =>
      match LastAnswered(loads[1..], r')
      case StillGoing => StillGoing
      case LastReply(k, n) => LastReply(k + 1, n)
  }

  // FindLast beside the writer answers with the last node of the list as it is at its last load,
  // and gets there within its level plus the nodes ahead.
  lemma {:induction false} ConcurrentFindLast<K(!new)>(lt: Order<K>, loads: seq<Shape<K>>, r: LastSearch)
    requires WeakOrder(lt) && History(lt, loads) && |loads| > 0 && LastSearchOk(loads[0], r)
    ensures var a := LastAnswered(loads, r);
            && (a.LastReply? ==> a.load < |loads| && |loads[a.load].chains| > 0 && a.node == LastNode(loads[a.load]))
            && (a.StillGoing? ==> |loads| <= r.level + |Ahead(lt, loads[|loads| - 1], r.at)|)
    decreases |loads|
  {
    hide Extends, Ahead, LastSearchOk, LevelOk;
    var last := loads[|loads| - 1];
    assert WellFormed(lt, last) && WellFormed(lt, loads[0]) && Extends(loads[0], last);
    LastAdvanceIsSound(lt, loads[0], r);
    if AdvanceToLast(loads[0], r).Goes? {
      var r' := AdvanceToLast(loads[0], r).r;
      LastAdvanceGetsCloser(lt, loads[0], last, r);
      if |loads| > 1 {
        assert Extends(loads[0], loads[1]);
        LastSearchSurvives(loads[0], loads[1], r');
        RestOfHistory(lt, loads);
        ConcurrentFindLast(lt, loads[1..], r');
      }
    }
  }
}

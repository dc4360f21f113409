/**
 Choosing a file from one of the trees: the entry with the wanted index or the next one,
 going round, and past the busy ones.
 */
module FilesetPick {

  import opened AvlShape
  import opened AvlMemory
  import opened AvlBalance
  import opened AvlOrder
  import opened Avl

  // `e` has the least index not below the wanted one, or the least of all if there is none.
  ghost predicate CyclicSuccessor(key: KeyOf, s: seq<nat>, index: int, e: nat) {
    && e in s
    && if exists x :: x in s && key(x) >= index
       then key(e) >= index && forall x :: x in s && key(x) >= index ==> key(e) <= key(x)
       else forall x :: x in s ==> key(e) <= key(x)
  }

  lemma {:induction false} NoNull(m: Memory, t: Tree, p: nat, i: Side)
    requires Holds(m, t, p, i)
    ensures 0 !in Ids(t)
  {
    if t.Node? {
      NoNull(m, t.left, t.id, 0);
      NoNull(m, t.right, t.id, 1);
    }
  }

  lemma {:induction false} NodesOf(atp: AvlTree)
    requires atp.Valid()
    ensures forall x :: x in Ids(atp.tree) <==> x in Inorder(atp.tree)
    ensures 0 !in Inorder(atp.tree)
  {
    IdsInorder(atp.tree);
    NoNull(atp.memory, atp.tree, 0, 0);
  }

  lemma {:induction false} SuccessorAt(key: KeyOf, s: seq<nat>, l: seq<nat>, r: seq<nat>, index: int)
    requires Sorted(key, s) && s == l + r && AllBelow(key, l, index) && AllAbove(key, r, index) && s != []
    ensures CyclicSuccessor(key, s, index, if r != [] then r[0] else s[0])
  {
    var e := if r != [] then r[0] else s[0];
    if r != [] {
      assert e in r && e == s[|l|];
      assert forall i :: 0 <= i < |l| ==> s[i] == l[i] && l[i] in l;
      forall x | x in s && key(x) >= index ensures key(e) <= key(x) {
        var i :| 0 <= i < |s| && s[i] == x;
      }
    } else {
      assert s == l;
      forall x | x in s ensures key(e) <= key(x) && key(x) < index {
        var i :| 0 <= i < |s| && s[i] == x;
      }
    }
  }

  method FindEntry(atp: AvlTree, index: int) returns (found: nat)
    requires atp.Valid() && Sorted(atp.key, Inorder(atp.tree))
    ensures Inorder(atp.tree) == [] <==> found == 0
    ensures found != 0 ==> CyclicSuccessor(atp.key, Inorder(atp.tree), index, found)
  {
    hide Inorder, Plug, Shows, Balanced, Lefts, Rights;
    ghost var s := Inorder(atp.tree);
    NodesOf(atp);
    var prev, child;
    ghost var place;
    found, prev, child, place := atp.Find(index);
    if found != 0 {
      ExactIsSuccessor(atp.key, s, index, found);
      return;
    }
    PlugInorder(place, Leaf);
    LeafHeight();
    assert s == Lefts(place) + Rights(place);
    if s != [] { SuccessorAt(atp.key, s, Lefts(place), Rights(place), index); }
    if Rights(place) != [] { assert Rights(place)[0] in s; }
    found := atp.NearestTo(prev, child, 1, place);
    if found != 0 {
      return;
    }
    found := atp.First();
    assert s != [] ==> s[0] in s;
  }

  lemma {:induction false} ExactIsSuccessor(key: KeyOf, s: seq<nat>, index: int, e: nat)
    requires e in s && key(e) == index
    ensures CyclicSuccessor(key, s, index, e)
  {
  }

  // ----- Past the busy ones

  // The order, starting at position i and going round.
  function From(s: seq<nat>, i: nat): seq<nat>
    requires i <= |s|
  {
    s[i..] + s[..i]
  }

  // The next entry in turn; after the last it is the first again.
  lemma {:induction false} TurnNext(s: seq<nat>, i: nat, k: nat, at: nat)
    requires i < |s| && k < |s| && at < |s| && Distinct(s) && 0 !in s
    requires |From(s, i)| == |s| && From(s, i)[k] == s[at]
    ensures var n := if Beside(s, at, 1) == 0 then EndOn(s, 0) else Beside(s, at, 1);
            && n in s && n != 0
            && if k + 1 < |s| then n == From(s, i)[k + 1] && n != s[i] else n == s[i]
  {
    var r := From(s, i);
    FromAt(s, i, k);
    assert at == if k < |s| - i then i + k else k - (|s| - i);
    if at + 1 < |s| { assert s[at + 1] in s; }
    if k + 1 < |s| { FromAt(s, i, k + 1); }
  }

  ghost predicate Distinct(s: seq<nat>) {
    forall a, b :: 0 <= a < b < |s| ==> s[a] != s[b]
  }

  lemma {:induction false} FromAt(s: seq<nat>, i: nat, k: nat)
    requires i < |s| && k < |s|
    ensures |From(s, i)| == |s| && From(s, i)[k] == if k < |s| - i then s[i + k] else s[k - (|s| - i)]
  {
  }

  // Goes on from an entry, round the tree, to the first that is not busy.
  method SkipBusy(atp: AvlTree, start: nat, busy: set<nat>) returns (entry: nat, ghost i: nat, ghost k: nat)
    requires atp.Valid() && Sorted(atp.key, Inorder(atp.tree)) && start in Inorder(atp.tree)
    ensures i < |Inorder(atp.tree)| && Inorder(atp.tree)[i] == start
            && |From(Inorder(atp.tree), i)| == |Inorder(atp.tree)|
    ensures entry != 0 ==>
              && k < |Inorder(atp.tree)| && entry == From(Inorder(atp.tree), i)[k] && entry !in busy
              && forall j :: 0 <= j < k ==> From(Inorder(atp.tree), i)[j] in busy
    ensures entry == 0 ==> forall x :: x in Inorder(atp.tree) ==> x in busy
  {
    hide Inorder, Plug, Shows, Balanced, Beside, EndOn, From, Distinct, Sorted;
    ghost var s := Inorder(atp.tree);
    NodesOf(atp);
    DistinctAll(atp.key, s);
    i :| 0 <= i < |s| && s[i] == start;
    entry, k := start, 0;
    FromAt(s, i, 0);
    FromHas(s, i);
    ghost var r := From(s, i);
    while entry in busy
      invariant k < |s| == |r| && entry == r[k] && entry != 0 && entry in s
      invariant forall j :: 0 <= j < k ==> r[j] in busy
      decreases |s| - k
    {
      ghost var path, here := Locate(atp.tree, entry);
      ghost var at;
      var next;
      next, at := atp.Walk(entry, 1, path, here);
      TurnNext(s, i, k, at);
      if next == 0 {
        next := atp.First();
      }
      entry := next;
      if entry == 0 || entry == start {
        entry := 0;
        return;
      }
      k := k + 1;
    }
  }

  lemma {:induction false} DistinctAll(key: KeyOf, s: seq<nat>)
    requires Sorted(key, s)
    ensures Distinct(s)
  {
    forall a, b | 0 <= a < b < |s| ensures s[a] != s[b] { assert key(s[a]) < key(s[b]); }
  }

  lemma {:induction false} FromHas(s: seq<nat>, i: nat)
    requires i <= |s|
    ensures |From(s, i)| == |s| && forall x :: x in From(s, i) <==> x in s
  {
    assert s == s[..i] + s[i..];
  }

  // `entry` is the first that is not busy, going round from `start`, at position i, which is
  // the wanted one or the next.
  ghost predicate FirstIdle(key: KeyOf, s: seq<nat>, index: int, busy: set<nat>, start: nat, i: nat, k: nat,
                            entry: nat) {
    && CyclicSuccessor(key, s, index, start) && i < |s| && s[i] == start
    && k < |From(s, i)| && entry == From(s, i)[k] && entry in s && entry !in busy
    && forall j :: 0 <= j < k ==> From(s, i)[j] in busy
  }

  method Choose(atp: AvlTree, index: int, busy: set<nat>) returns (start: nat, entry: nat, ghost i: nat, ghost k: nat)
    requires atp.Valid() && Sorted(atp.key, Inorder(atp.tree)) && Inorder(atp.tree) != []
    ensures CyclicSuccessor(atp.key, Inorder(atp.tree), index, start)
    ensures entry != 0 ==> FirstIdle(atp.key, Inorder(atp.tree), index, busy, start, i, k, entry)
    ensures entry == 0 ==> forall x :: x in Inorder(atp.tree) ==> x in busy
  {
    hide Inorder, From;
    start := FindEntry(atp, index);
    entry, i, k := SkipBusy(atp, start, busy);
    FromHas(Inorder(atp.tree), i);
  }

  // ----- Picking in rotation

  lemma {:induction false} NextInRotation(key: KeyOf, s: seq<nat>, a: nat, e: nat)
    requires Sorted(key, s) && a < |s| && CyclicSuccessor(key, s, key(s[a]) + 1, e)
    ensures e == if a + 1 < |s| then s[a + 1] else s[0]
  {
    var j :| 0 <= j < |s| && s[j] == e;
    if a + 1 < |s| {
      assert s[a + 1] in s && key(s[a + 1]) >= key(s[a]) + 1;
    } else {
      assert s[0] in s;
      forall x | x in s ensures key(x) < key(s[a]) + 1 {
        var i :| 0 <= i < |s| && s[i] == x;
      }
    }
  }

  // As many picks in rotation as there are entries, on a tree that stays as it is and with every
  // entry let go before the next pick, go through all entries once, in order and round.
  lemma {:induction false} RotationVisitsAll(key: KeyOf, s: seq<nat>, rotor: seq<int>, picks: seq<nat>) returns (i: nat)
    requires Sorted(key, s) && |s| > 0 && |picks| == |s| && |rotor| == |s| + 1
    requires forall j :: 0 <= j < |s| ==>
               CyclicSuccessor(key, s, rotor[j], picks[j]) && rotor[j + 1] == key(picks[j]) + 1
    ensures i < |s| && picks == From(s, i) && multiset(picks) == multiset(s)
  {
    hide CyclicSuccessor, From;
    assert picks[0] in s by { InOrder(key, s, rotor[0], picks[0]); }
    i :| 0 <= i < |s| && s[i] == picks[0];
    FromAt(s, i, 0);
    var j := 1;
    while j < |s|
      invariant 1 <= j <= |s| && forall m :: 0 <= m < j ==> picks[m] == From(s, i)[m]
    {
      FromAt(s, i, j - 1);
      FromAt(s, i, j);
      var a := if j - 1 < |s| - i then i + j - 1 else j - 1 - (|s| - i);
      assert rotor[j - 1 + 1] == key(picks[j - 1]) + 1;
      NextInRotation(key, s, a, picks[j]);
      j := j + 1;
    }
    FromPermutes(s, i);
  }

  lemma {:induction false} InOrder(key: KeyOf, s: seq<nat>, index: int, e: nat)
    requires CyclicSuccessor(key, s, index, e)
    ensures e in s
  {
  }

  lemma {:induction false} FromPermutes(s: seq<nat>, i: nat)
    requires i < |s|
    ensures multiset(From(s, i)) == multiset(s)
  {
    assert s == s[..i] + s[i..];
  }
}

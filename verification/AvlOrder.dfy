/**
 Positions in the order of the tree: searching by key, and going to the next node.
 */
module AvlOrder {

  import opened AvlShape
  import opened AvlMemory
  import opened AvlSwap
  import opened AvlBalance

  type KeyOf = nat -> int

  ghost predicate Sorted(key: KeyOf, s: seq<nat>) {
    forall i, j :: 0 <= i < j < |s| ==> key(s[i]) < key(s[j])
  }

  ghost predicate AllBelow(key: KeyOf, s: seq<nat>, v: int) {
    forall x :: x in s ==> key(x) < v
  }

  ghost predicate AllAbove(key: KeyOf, s: seq<nat>, v: int) {
    forall x :: x in s ==> v < key(x)
  }

  // The nodes are those of the tree.
  lemma {:induction false} IdsInorder(t: Tree)
    ensures forall x :: x in Ids(t) <==> x in Inorder(t)
  {
    if t.Node? {
      IdsInorder(t.left);
      IdsInorder(t.right);
    }
  }

  lemma {:induction false} SortedAround(key: KeyOf, a: seq<nat>, x: nat, b: seq<nat>)
    requires Sorted(key, a + [x] + b)
    ensures AllBelow(key, a, key(x)) && AllAbove(key, b, key(x))
  {
    var s := a + [x] + b;
    assert s[|a|] == x;
    forall y | y in a ensures key(y) < key(x) {
      var i :| 0 <= i < |a| && a[i] == y;
      assert s[i] == y;
    }
    forall y | y in b ensures key(x) < key(y) {
      var i :| 0 <= i < |b| && b[i] == y;
      assert s[|a| + 1 + i] == y;
    }
  }

  // A search that compares with the node and goes to one side leaves only smaller keys to the
  // left of the new place and only greater ones to the right.
  lemma {:induction false} Narrowed(key: KeyOf, path: Path, t: Tree, v: int, side: Side)
    requires t.Node? && Sorted(key, Inorder(Plug(path, t))) && AllBelow(key, Lefts(path), v)
             && AllAbove(key, Rights(path), v)
    requires if side == 0 then v < key(t.id) else key(t.id) < v
    ensures var path' := Step(side, t.id, t.bal, Kid(t, 1 - side), path);
            AllBelow(key, Lefts(path'), v) && AllAbove(key, Rights(path'), v)
              && Plug(path', Kid(t, side)) == Plug(path, t)
  {
    hide Sorted;
    PlugInorder(path, t);
    KidsOf(side, t);
    var l, a, b, r := Lefts(path), Inorder(t.left), Inorder(t.right), Rights(path);
    assert l + (a + [t.id] + b) + r == (l + a) + [t.id] + (b + r);
    SortedAround(key, l + a, t.id, b + r);
    hide Inorder;
    if side == 0 {
      forall x | x in [t.id] + b + r ensures v < key(x) { assert x == t.id || x in b + r; }
    } else {
      forall x | x in l + a + [t.id] ensures key(x) < v { assert x == t.id || x in l + a; }
    }
  }

  // The next position in a sequence, to the right for side 1 and to the left for side 0.
  function Beside(s: seq<nat>, i: nat, side: Side): nat
    requires i < |s|
  {
    if side == 1 then if i + 1 < |s| then s[i + 1] else 0
    else if i > 0 then s[i - 1] else 0
  }

  // The node nearest to a place, on the given side of it.
  function Nearest(path: Path, side: Side): nat {
    if side == 1 then if Rights(path) == [] then 0 else Rights(path)[0]
    else if Lefts(path) == [] then 0 else Lefts(path)[|Lefts(path)| - 1]
  }

  // The end of a sequence on the given side.
  function EndOn(s: seq<nat>, side: Side): nat {
    if s == [] then 0 else if side == 0 then s[0] else s[|s| - 1]
  }

  // Next to a node is the near end of its subtree on that side, or what is nearest beyond it.
  lemma {:induction false} BesideNode(path: Path, t: Tree, side: Side) returns (i: nat)
    requires t.Node?
    ensures var s := Inorder(Plug(path, t));
            && i < |s| && s[i] == t.id
            && Beside(s, i, side) == if Kid(t, side).Node? then EndOn(Inorder(Kid(t, side)), 1 - side)
               else Nearest(path, side)
  {
    hide Plug, Lefts, Rights, Inorder;
    PlugInorder(path, t);
    KidsOf(0, t);
    MakeOrder(0, t.left, t.id, t.bal, t.right);
    var l, a, b, r := Lefts(path), Inorder(t.left), Inorder(t.right), Rights(path);
    var s := Inorder(Plug(path, t));
    assert s == l + (a + [t.id] + b) + r;
    i := |l| + |a|;
    assert s[i] == t.id;
    NonemptyOrder(t.left);
    NonemptyOrder(t.right);
    assert i + 1 < |s| ==> s[i + 1] == (if b != [] then b[0] else r[0]);
    assert i > 0 ==> s[i - 1] == if a != [] then a[|a| - 1] else l[|l| - 1];
  }

  lemma {:induction false} NonemptyOrder(t: Tree)
    ensures t.Node? <==> Inorder(t) != []
  {
  }

  // Down along one side to where there is no child on it: the end of the order on that side.
  lemma {:induction false} EndAlong(q: Path, s: Tree, side: Side)
    requires Along(q, side) && s.Node? && Kid(s, side).Leaf?
    ensures EndOn(Inorder(Plug(q, s)), side) == s.id
  {
    PlugInorder(q, s);
    AlongOrder(q, side);
    KidsOf(side, s);
    MakeOrder(side, Kid(s, side), s.id, s.bal, Kid(s, 1 - side));
    LeafHeight();
    var o := Inorder(Plug(q, s));
    assert o == Lefts(q) + Inorder(s) + Rights(q);
    if side == 0 {
      assert Inorder(s)[0] == s.id;
    } else {
      assert Inorder(s)[|Inorder(s)| - 1] == s.id;
    }
  }

  lemma {:induction false} FindStart(key: KeyOf, m: Memory, root: nat, t: Tree, v: int)
    requires Shows(m, root, Top, t)
    ensures root == Root(t) && Plug(Top, t) == t && AllBelow(key, Lefts(Top), v) && AllAbove(key, Rights(Top), v)
  {
  }

  lemma {:induction false} RootOfShown(m: Memory, root: nat, path: Path, t: Tree)
    requires Shows(m, root, path, t) && Root(t) == 0
    ensures t == Leaf
  {
  }

  lemma {:induction false} InTree(path: Path, t: Tree)
    requires t.Node?
    ensures t.id in Ids(Plug(path, t))
  {
    PlugIds(path, t);
  }

  // A node between smaller and greater keys keeps the order, and no node has its key.
  lemma {:induction false} AddOrder(key: KeyOf, tree: Tree, place: Path, node: nat)
    requires Plug(place, Leaf) == tree && Sorted(key, Inorder(tree))
    requires AllBelow(key, Lefts(place), key(node)) && AllAbove(key, Rights(place), key(node))
    ensures var after := Lefts(place) + [node] + Rights(place);
            Sorted(key, after) && Dropped(after, Inorder(tree), node)
    ensures !exists x :: x in Inorder(tree) && key(x) == key(node)
  {
    hide Plug, Lefts, Rights, Inorder, Dropped;
    PlugInorder(place, Leaf);
    LeafHeight();
    var l, r := Lefts(place), Rights(place);
    assert Inorder(tree) == l + r;
    DroppedAt(l, node, r);
    SortedWith(key, l, node, r);
  }

  lemma {:induction false} SortedWith(key: KeyOf, l: seq<nat>, node: nat, r: seq<nat>)
    requires Sorted(key, l + r) && AllBelow(key, l, key(node)) && AllAbove(key, r, key(node))
    ensures Sorted(key, l + [node] + r)
    ensures !exists x :: x in l + r && key(x) == key(node)
  {
    var o, after := l + r, l + [node] + r;
    forall i, j | 0 <= i < j < |after| ensures key(after[i]) < key(after[j]) {
      if i == |l| {
        assert after[j] == r[j - |l| - 1] && r[j - |l| - 1] in r;
      } else if j == |l| {
        assert after[i] == l[i] && l[i] in l;
      } else {
        var i', j' := if i < |l| then i else i - 1, if j < |l| then j else j - 1;
        assert after[i] == o[i'] && after[j] == o[j'];
      }
    }
  }

  lemma {:induction false} PlugDown(path: Path, t: Tree, side: Side)
    requires t.Node?
    ensures Plug(Step(side, t.id, t.bal, Kid(t, 1 - side), path), Kid(t, side)) == Plug(path, t)
  {
    KidsOf(side, t);
  }

  lemma {:induction false} EndReached(tree: Tree, q: Path, side: Side)
    requires Along(q, side) && Plug(q, Leaf) == tree
    ensures EndOn(Inorder(tree), side) == Above(q, 0)
  {
    if q.Step? {
      MakeKids(side, Leaf, q.id, q.bal, q.other);
      EndAlong(q.up, Make(side, Leaf, q.id, q.bal, q.other), side);
    }
  }

  // The nearest node on a side is the parent, if the place is on its other side, and else what
  // is nearest to the parent.
  lemma {:induction false} NearestUp(path: Path, side: Side)
    ensures Nearest(path, side) == if path.Top? then 0 else if path.side == side then Nearest(path.up, side)
            else path.id
  {
  }

  // Without one node the order stays an order.
  lemma {:induction false} DroppedSorted(key: KeyOf, before: seq<nat>, after: seq<nat>, x: nat)
    requires Sorted(key, before) && Dropped(before, after, x)
    ensures Sorted(key, after)
  {
    var i :| 0 <= i < |before| && before[i] == x && after == before[..i] + before[i + 1..];
    assert forall j :: 0 <= j < |after| ==> after[j] == before[if j < i then j else j + 1];
  }

  // `after` is `before` with x put next to y: right before it for side 0, right after it for 1.
  ghost predicate PutBeside(before: seq<nat>, after: seq<nat>, x: nat, y: nat, side: Side) {
    exists i :: 0 <= i < |before| && before[i] == y && after == before[..i + side] + [x] + before[i + side..]
  }

  // The empty place next to a node that has no child on that side.
  lemma {:induction false} PlaceHere(at: Path, t: Tree, side: Side, x: nat)
    requires t.Node? && Kid(t, side).Leaf?
    ensures var place := Step(side, t.id, t.bal, Kid(t, 1 - side), at);
            && Plug(place, Leaf) == Plug(at, t)
            && PutBeside(Inorder(Plug(at, t)), Lefts(place) + [x] + Rights(place), x, t.id, side)
  {
    PlugDown(at, t, side);
    var place := Step(side, t.id, t.bal, Kid(t, 1 - side), at);
    PlugInorder(place, Leaf);
    PutThere(Lefts(place), Rights(place), x, t.id, side);
  }

  lemma {:induction false} PutThere(l: seq<nat>, r: seq<nat>, x: nat, y: nat, side: Side)
    requires if side == 1 then l != [] && l[|l| - 1] == y else r != [] && r[0] == y
    ensures PutBeside(l + [] + r, l + [x] + r, x, y, side)
  {
    var o := l + [] + r;
    assert o == l + r;
    var i := if side == 1 then |l| - 1 else |l|;
    assert o[i] == y && o[..i + side] == l && o[i + side..] == r;
  }

  // The empty place next to it beyond its neighbour's subtree.
  lemma {:induction false} PlaceBeyond(at: Path, t: Tree, q: Path, s: Tree, side: Side, x: nat)
    requires t.Node? && Along(q, 1 - side) && s.Node? && Kid(s, 1 - side).Leaf? && Plug(q, s) == Kid(t, side)
    ensures var place := Step(1 - side, s.id, s.bal, Kid(s, side),
                              Compose(q, Step(side, t.id, t.bal, Kid(t, 1 - side), at)));
            && Plug(place, Leaf) == Plug(at, t)
            && PutBeside(Inorder(Plug(at, t)), Lefts(place) + [x] + Rights(place), x, t.id, side)
  {
    hide Inorder;
    var base := Step(side, t.id, t.bal, Kid(t, 1 - side), at);
    var place := Step(1 - side, s.id, s.bal, Kid(s, side), Compose(q, base));
    PlugDown(Compose(q, base), s, 1 - side);
    ComposePlug(q, base, s);
    PlugDown(at, t, side);
    PlugInorder(place, Leaf);
    LeafHeight();
    ComposeOrder(q, base);
    AlongOrder(q, 1 - side);
    PutThere(Lefts(place), Rights(place), x, t.id, side);
  }
}

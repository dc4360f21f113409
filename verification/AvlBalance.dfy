/**
 The ways up and down the tree: what an insertion or a removal has to repair at each step, and
 where a node and its neighbours are.
 */
module AvlBalance {

  import opened AvlShape
  import opened AvlMemory
  import opened AvlRotation
  import opened AvlSwap

  // ----- The end of every operation

  // The whole tree is in memory, balanced, with the given nodes in order.
  predicate Done(m: Memory, root: nat, t: Tree, order: seq<nat>) {
    Shows(m, root, Top, t) && Balanced(t) && Inorder(t) == order && Size(t) == |order|
  }

  lemma {:induction false} DoneAt(m: Memory, root: nat, path: Path, t: Tree, order: seq<nat>)
    requires Shows(m, root, path, t) && Balanced(t) && AvlPath(path, Height(t))
    requires Lefts(path) + Inorder(t) + Rights(path) == order
    ensures Done(m, root, Plug(path, t), order)
  {
    ShowsPlug(m, root, path, t);
    PlugAvl(path, t);
    PlugInorder(path, t);
    SizeIsLength(Plug(path, t));
  }

  lemma {:induction false} DoneAtTop(m: Memory, root: nat, path: Path, t: Tree, order: seq<nat>)
    requires path.Top? && Shows(m, root, path, t) && Balanced(t) && Lefts(path) + Inorder(t) + Rights(path) == order
    ensures Done(m, root, t, order)
  {
    DoneAt(m, root, path, t, order);
  }

  // A node with another balance.
  lemma {:induction false} Rebalanced(m: Memory, root: nat, path: Path, t: Tree, b: int)
    requires Shows(m, root, path, t) && path.Step?
    ensures path.id < |m| && m[path.id].balance == path.bal && m[path.id].parent == Above(path.up, 0) && path.id != 0
    ensures m[path.id].parent != 0 ==> m[path.id].index == AboveSide(path.up, 0)
    ensures path.up.Step? ==> m[path.id].parent != 0
    ensures Shows(m[path.id := m[path.id].(balance := b)], root, path.up, Make(path.side, t, path.id, b, path.other))
  {
    hide Make, Holds, HoldsPath, Ids, PathIds, Apart, ApartPath;
    var Step(side, id, bal, other, up) := path;
    StepFacts(m, root, path, Root(t));
    AboveIn(up);
    var m' := m[id := m[id].(balance := b)];
    StepFacts(m', root, path.(bal := b), Root(t));
    HoldsFrame(m, m', t, id, side);
    HoldsFrame(m, m', other, id, 1 - side);
    HoldsPathFrame(m, m', root, root, up, id, 0, 0);
    ShowsUp(m', root, path.(bal := b), t);
  }

  // The order does not depend on where in the tree one looks from.
  lemma {:induction false} SameOrder(path: Path, t: Tree, b: int)
    requires path.Step?
    ensures Lefts(path.up) + Inorder(Make(path.side, t, path.id, b, path.other)) + Rights(path.up)
            == Lefts(path) + Inorder(t) + Rights(path)
  {
    PlugInorder(path.(bal := b), t);
    PlugInorder(path.up, Make(path.side, t, path.id, b, path.other));
  }

  // ----- Rotations where they are needed

  // The side a balance of -2 or 2 leans to.
  function LeftOf(balance: int): Side {
    if balance < 0 then 0 else 1
  }

  predicate Rotatable(t: Tree, left: Side) {
    && t.Node? && Kid(t, left).Node? && -1 <= Kid(t, left).bal <= 1
    && (Kid(t, left).bal == Heavy(left, -1) ==> Kid(Kid(t, left), 1 - left).Node?)
  }

  // ----- Insertion

  // What holds on the way up from an insertion: the subtree grew by one, the rest is as it was.
  predicate Growing(m: Memory, root: nat, path: Path, t: Tree, h: nat, order: seq<nat>) {
    && Shows(m, root, path, t)
    && Balanced(t) && AvlPath(path, h) && Height(t) == h + 1 && (h == 0 || (t.Node? && t.bal != 0))
    && Lefts(path) + Inorder(t) + Rights(path) == order
  }

  function WithLeaf(m: Memory, node: nat, parent: nat, whichChild: Side): Memory
    requires node < |m| && parent < |m|
  {
    var m' := m[node := Cell(0, 0, parent, whichChild, 0)];
    if parent != 0 then m'[parent := WithChild(m'[parent], whichChild, node)] else m'
  }

  lemma {:induction false} NewLeaf(m: Memory, root: nat, place: Path, node: nat, parent: nat, whichChild: Side)
    requires Shows(m, root, place, Leaf) && 0 < node < |m| && node !in PathIds(place)
    requires parent == Above(place, 0) && (parent != 0 ==> whichChild == AboveSide(place, 0))
    ensures parent < |m|
    ensures Shows(WithLeaf(m, node, parent, whichChild), if parent == 0 then node else root, place,
                  Node(Leaf, node, 0, Leaf))
  {
    AboveIn(place);
    var m' := WithLeaf(m, node, parent, whichChild);
    Replanted(m, m', root, if parent == 0 then node else root, place, 0, node);
  }

  lemma {:induction false} InsertStart(m: Memory, root: nat, tree: Tree, place: Path, node: nat, parent: nat,
                                       whichChild: Side)
    requires Shows(m, root, Top, tree) && Balanced(tree) && Plug(place, Leaf) == tree
    requires parent == Above(place, 0) && (parent != 0 ==> whichChild == AboveSide(place, 0))
    requires 0 < node < |m| && node !in Ids(tree)
    ensures parent < |m| && parent != node
    ensures Growing(WithLeaf(m, node, parent, whichChild), if parent == 0 then node else root, place,
                    Node(Leaf, node, 0, Leaf), 0,
                    Lefts(place) + [node] + Rights(place))
    ensures |Lefts(place) + [node] + Rights(place)| == Size(tree) + 1
  {
    PlugInorder(place, Leaf);
    SizeIsLength(tree);
    ShowsPlug(m, root, place, Leaf);
    PlugIds(place, Leaf);
    PlugAvl(place, Leaf);
    AboveIn(place);
    NewLeaf(m, root, place, node, parent, whichChild);
    assert Inorder(Node(Leaf, node, 0, Leaf)) == [node];
  }

  lemma {:induction false} GrownOut(m: Memory, root: nat, path: Path, t: Tree, h: nat, order: seq<nat>)
    requires Growing(m, root, path, t, h, order) && Above(path, 0) == 0
    ensures Done(m, root, t, order)
  {
    assert path.Top?;
    DoneAt(m, root, path, t, order);
  }

  lemma {:induction false} GrowUp(m: Memory, root: nat, path: Path, t: Tree, h: nat, order: seq<nat>)
    requires Growing(m, root, path, t, h, order) && path.Step?
    ensures path.id < |m| && m[path.id].balance == path.bal && m[path.id].parent == Above(path.up, 0)
    ensures m[path.id].parent != 0 ==> m[path.id].index == AboveSide(path.up, 0)
    ensures var b := path.bal + Heavy(path.side, 1);
            var m', t' := m[path.id := m[path.id].(balance := b)], Make(path.side, t, path.id, b, path.other);
            if b == 0 then Done(m', root, Plug(path.up, t'), order)
            else if path.bal == 0 then Growing(m', root, path.up, t', 1 + Max(h, Height(path.other)), order)
            else
              var f := Make(path.side, t, path.id, path.bal, path.other);
              && b in {-2, 2} && LeftOf(b) == path.side && Shows(m, root, path.up, f) && f.Node? && f.id == path.id
              && Rotatable(f, path.side)
              && Kid(f, path.side) == t && Kid(f, 1 - path.side) == path.other
  {
    hide Shows, Balanced, Inorder, Lefts, Rights, Ids, Size, Height, Rotated, Make, Plug;
    var b := path.bal + Heavy(path.side, 1);
    Rebalanced(m, root, path, t, b);
    var m', t' := m[path.id := m[path.id].(balance := b)], Make(path.side, t, path.id, b, path.other);
    SameOrder(path, t, b);
    GrowStep(path, t, h);
    if b == 0 {
      DoneAt(m', root, path.up, t', order);
    } else if path.bal != 0 {
      ShowsUp(m, root, path, t);
      MakeKids(path.side, t, path.id, path.bal, path.other);
    }
  }

  lemma {:induction false} GrowRotated(m: Memory, root: nat, path: Path, t: Tree, h: nat, order: seq<nat>)
    requires path.Step? && Balanced(t) && AvlPath(path, h) && Height(t) == h + 1 && (h == 0 || (t.Node? && t.bal != 0))
    requires Lefts(path) + Inorder(t) + Rights(path) == order
    requires path.bal != 0 && path.bal + Heavy(path.side, 1) != 0
    requires t.Node? && (t.bal == Heavy(path.side, -1) ==> Kid(t, 1 - path.side).Node?)
    requires Shows(m, root, path.up, Rotated(path.side, t, path.id, path.other))
    ensures Done(m, root, Plug(path.up, Rotated(path.side, t, path.id, path.other)), order)
  {
    hide Shows, Balanced, Inorder, Lefts, Rights, Ids, Size, Height, Rotated, Make, Plug;
    GrowStep(path, t, h);
    RotatedKeepsOrder(path.side, t, path.id, path.bal, path.other);
    SameOrder(path, t, path.bal);
    DoneAt(m, root, path.up, Rotated(path.side, t, path.id, path.other), order);
  }

  // ----- Removal: the way up

  // What holds on the way up from a removal: the subtree shrank by one, the rest is as it was.
  predicate Shrinking(m: Memory, root: nat, path: Path, t: Tree, h: nat, order: seq<nat>) {
    && Shows(m, root, path, t)
    && Balanced(t) && AvlPath(path, h) && Height(t) + 1 == h
    && Lefts(path) + Inorder(t) + Rights(path) == order
  }

  lemma {:induction false} ShrunkOut(m: Memory, root: nat, path: Path, t: Tree, h: nat, order: seq<nat>)
    requires Shrinking(m, root, path, t, h, order) && path.Top?
    ensures Done(m, root, t, order)
  {
    DoneAt(m, root, path, t, order);
  }

  lemma {:induction false} ShrinkUp(m: Memory, root: nat, path: Path, t: Tree, h: nat, order: seq<nat>)
    requires Shrinking(m, root, path, t, h, order) && path.Step?
    ensures path.id < |m| && m[path.id].balance == path.bal && m[path.id].parent == Above(path.up, 0)
    ensures path.up.Step? ==> m[path.id].index == path.up.side && m[path.id].parent != 0
    ensures var b := path.bal - Heavy(path.side, 1);
            var m', t' := m[path.id := m[path.id].(balance := b)], Make(path.side, t, path.id, b, path.other);
            if path.bal == 0 then Done(m', root, Plug(path.up, t'), order)
            else if b == 0 then Shrinking(m', root, path.up, t', 1 + Max(h, Height(path.other)), order)
            else
              var f := Make(path.side, t, path.id, path.bal, path.other);
              && b in {-2, 2} && LeftOf(b) == 1 - path.side && Shows(m, root, path.up, f) && f.Node? && f.id == path.id
              && Rotatable(f, 1 - path.side)
              && Kid(f, path.side) == t && Kid(f, 1 - path.side) == path.other
  {
    hide Shows, Balanced, Inorder, Lefts, Rights, Ids, Size, Height, Rotated, Make, Plug;
    var b := path.bal - Heavy(path.side, 1);
    Rebalanced(m, root, path, t, b);
    var m', t' := m[path.id := m[path.id].(balance := b)], Make(path.side, t, path.id, b, path.other);
    SameOrder(path, t, b);
    ShrinkStep(path, t, h);
    if path.bal == 0 {
      DoneAt(m', root, path.up, t', order);
    } else if b != 0 {
      ShowsUp(m, root, path, t);
      MakeKids(path.side, t, path.id, path.bal, path.other);
    }
  }

  lemma {:induction false} ShrinkRotated(m: Memory, root: nat, path: Path, t: Tree, h: nat, order: seq<nat>)
    requires path.Step? && Balanced(t) && AvlPath(path, h) && Height(t) + 1 == h
    requires Lefts(path) + Inorder(t) + Rights(path) == order
    requires path.bal != 0 && path.bal - Heavy(path.side, 1) != 0
    requires path.other.Node? && (path.other.bal == Heavy(1 - path.side, -1) ==> Kid(path.other, path.side).Node?)
    requires Shows(m, root, path.up, Rotated(1 - path.side, path.other, path.id, t))
    ensures var r := Rotated(1 - path.side, path.other, path.id, t);
            if path.other.bal != 0 then Shrinking(m, root, path.up, r, 1 + Max(h, Height(path.other)), order)
            else Done(m, root, Plug(path.up, r), order)
  {
    hide Shows, Balanced, Inorder, Lefts, Rights, Ids, Size, Height, Rotated, Plug;
    var r := Rotated(1 - path.side, path.other, path.id, t);
    ShrinkStep(path, t, h);
    RotatedKeepsOrder(1 - path.side, path.other, path.id, path.bal, t);
    assert Make(1 - path.side, path.other, path.id, path.bal, t) == Make(path.side, t, path.id, path.bal, path.other);
    SameOrder(path, t, path.bal);
    if path.other.bal == 0 {
      DoneAt(m, root, path.up, r, order);
    }
  }

  // ----- Removal: taking the node out

  // The second sequence is the first without its one occurrence of x.
  ghost predicate Dropped(before: seq<nat>, after: seq<nat>, x: nat) {
    exists i :: 0 <= i < |before| && before[i] == x && after == before[..i] + before[i + 1..]
  }

  lemma {:induction false} DroppedAt(a: seq<nat>, x: nat, b: seq<nat>)
    ensures Dropped(a + [x] + b, a + b, x)
  {
    var before := a + [x] + b;
    assert before[|a|] == x && before[..|a|] == a && before[|a| + 1..] == b;
  }

  lemma {:induction false} Grouped(a: seq<nat>, b: seq<nat>, c: seq<nat>, d: seq<nat>, e: seq<nat>)
    ensures a + (b + c + d) + e == (a + b) + c + (d + e)
    ensures c == [] ==> (a + b) + (d + e) == a + (b + d) + e
    ensures b == [] ==> b + d == d
    ensures d == [] ==> b + d == b
  {
  }

  lemma {:induction false} LeafHeight()
    ensures Height(Leaf) == 0 && Inorder(Leaf) == [] && Balanced(Leaf)
  {
  }

  lemma {:induction false} SidesOf(c: Cell)
    ensures ChildOf(c, 0) == c.left && ChildOf(c, 1) == c.right
  {
  }

  lemma {:induction false} ChildSet(c: Cell, side: Side, n: nat)
    ensures var d := WithChild(c, side, n);
            ChildOf(d, side) == n && ChildOf(d, 1 - side) == ChildOf(c, 1 - side) && d.parent == c.parent
              && d.index == c.index
  {
  }

  // The place of a node in the tree.
  lemma {:induction false} Locate(t: Tree, x: nat) returns (path: Path, at: Tree)
    requires x in Ids(t)
    ensures Plug(path, at) == t && at.Node? && at.id == x
  {
    if t.id == x {
      path, at := Top, t;
    } else if x in Ids(t.left) {
      path, at := Locate(t.left, x);
      ComposePlug(path, Step(0, t.id, t.bal, t.right, Top), at);
      path := Compose(path, Step(0, t.id, t.bal, t.right, Top));
    } else {
      path, at := Locate(t.right, x);
      ComposePlug(path, Step(1, t.id, t.bal, t.left, Top), at);
      path := Compose(path, Step(1, t.id, t.bal, t.left, Top));
    }
  }

  lemma {:induction false} SpliceAddresses(m: Memory, root: nat, path: Path, t: Tree, k: Tree)
    requires Shows(m, root, path, t) && t.Node? && (k == t.left || k == t.right)
    ensures k.Node? ==> 0 < k.id < |m| && k.id != Above(path, 0)
    ensures path.Step? ==> 0 < path.id < |m|
  {
    var j: Side := if k == t.left then 0 else 1;
    assert Holds(m, k, t.id, j);
    RootIn(k);
    AboveIn(path);
  }

  lemma {:induction false} SplicedOut(m: Memory, m': Memory, root: nat, root': nat, path: Path, t: Tree, k: Tree,
                                      i: Side)
    requires Shows(m, root, path, t) && t.Node? && (k == t.left || k == t.right) && (path.Step? ==> i == path.side)
    requires SameBut(m, m', {Root(k), Above(path, 0)}) && Rehung(m, m', root, root', path, Root(k))
    requires Moved(m, m', k, Above(path, 0), i)
    ensures Shows(m', root', path, k)
  {
    RootIn(k);
    AboveIn(path);
    var j: Side := if k == t.left then 0 else 1;
    assert Holds(m, k, t.id, j) && Apart(k) && Ids(k) <= Ids(t);
    Adopted(m, m', k, t.id, j, Above(path, 0), i);
    Replanted(m, m', root, root', path, t.id, Root(k));
  }

  // Removing a node with at most one child.
  lemma {:induction false} DroppedHere(tree: Tree, path: Path, t: Tree, k: Tree)
    requires Balanced(tree) && Plug(path, t) == tree && t.Node? && (t.left.Leaf? || t.right.Leaf?)
    requires k == if t.left.Leaf? then t.right else t.left
    ensures Dropped(Inorder(tree), Lefts(path) + Inorder(k) + Rights(path), t.id)
    ensures |Inorder(tree)| == |Lefts(path) + Inorder(k) + Rights(path)| + 1
    ensures Balanced(k) && AvlPath(path, Height(k) + 1)
  {
    hide Balanced, AvlPath, Plug, Inorder, Lefts, Rights, Size, Height, Dropped;
    PlugInorder(path, t);
    PlugAvl(path, t);
    KidsOf(0, t);
    MakeAvl(0, t.left, t.id, t.bal, t.right);
    MakeOrder(0, t.left, t.id, t.bal, t.right);
    LeafHeight();
    var l, r := Lefts(path), Rights(path);
    DroppedAt(l + Inorder(t.left), t.id, Inorder(t.right) + r);
    Grouped(l, Inorder(t.left), [t.id], Inorder(t.right), r);
    Grouped(l, Inorder(t.left), [], Inorder(t.right), r);
  }

  // ----- Removal: a node with two children

  lemma {:induction false} SameLength(m: Memory, m': Memory, root: nat, root': nat, node: nat, delete: nat, tmp: nat,
                                      left: Side)
    requires CanTakeSpot(m, node, delete, tmp, left) && TookSpot(m, m', root, root', node, delete, tmp, left)
    ensures |m'| == |m|
  {
  }

  lemma {:induction false} PlugStep(path: Path, t: Tree)
    requires path.Step?
    ensures Plug(path, t) == Plug(path.up, Make(path.side, t, path.id, path.bal, path.other))
  {
  }

  lemma {:induction false} SameAvl(z: Parts)
    ensures forall h :: AvlPath(z.Whole(z.d), h) ==> AvlPath(z.Whole(z.node), h)
  {
    forall h: nat | AvlPath(z.Whole(z.d), h) ensures AvlPath(z.Whole(z.node), h) {
      ComposeAvl(z.q, z.Base(z.d), z.Base(z.node), h);
    }
  }

  lemma {:induction false} LeftNeighbour(l: seq<nat>, q: seq<nat>, k: seq<nat>, n: nat, d: nat, f: seq<nat>,
                                         r: seq<nat>)
    ensures (l + q) + (k + [n] + []) + ([] + ([d] + f + r)) == (l + q + (k + [n])) + [d] + (f + r)
    ensures (l + q) + k + ([] + ([n] + f + r)) == (l + q + (k + [n])) + (f + r)
  {
  }

  lemma {:induction false} RightNeighbour(l: seq<nat>, f: seq<nat>, d: nat, n: nat, k: seq<nat>, q: seq<nat>,
                                          r: seq<nat>)
    ensures ((l + f + [d]) + []) + ([] + [n] + k) + (q + r) == (l + f) + [d] + (([n] + k) + (q + r))
    ensures ((l + f + [n]) + []) + k + (q + r) == (l + f) + (([n] + k) + (q + r))
  {
  }

  lemma {:induction false} SwapOrder(tree: Tree, s: Tree, z: Parts)
    requires z.Low(z.node) == s && Plug(z.Whole(z.d), s) == tree && Along(z.q, 1 - z.left)
    ensures var o := Lefts(z.Whole(z.node)) + Inorder(z.k) + Rights(z.Whole(z.node));
            Dropped(Inorder(tree), o, z.d) && |Inorder(tree)| == |o| + 1
  {
    hide Inorder, Make, Plug, Dropped, Compose;
    PlugInorder(z.Whole(z.d), s);
    MakeOrder(1 - z.left, Leaf, z.node, z.sb, z.k);
    LeafHeight();
    ComposeOrder(z.q, z.Base(z.d));
    ComposeOrder(z.q, z.Base(z.node));
    AlongOrder(z.q, 1 - z.left);
    var l, r, f, k := Lefts(z.p), Rights(z.p), Inorder(z.far), Inorder(z.k);
    if z.left == 0 {
      LeftNeighbour(l, Lefts(z.q), k, z.node, z.d, f, r);
      DroppedAt(l + Lefts(z.q) + (k + [z.node]), z.d, f + r);
    } else {
      RightNeighbour(l, f, z.d, z.node, k, Rights(z.q), r);
      DroppedAt(l + f, z.d, ([z.node] + k) + (Rights(z.q) + r));
    }
  }

  // Removing a node with two children, whose neighbour takes its place.
  lemma {:induction false} PartsOf(tree: Tree, at: Path, low: Tree, s: Tree, z: Parts)
    requires Balanced(tree) && Plug(at, low) == tree && low.Node? && s.Node? && Along(z.q, 1 - z.left)
    requires z == Parts(at, z.q, z.left, low.id, low.bal, Kid(low, 1 - z.left), s.id, s.bal, Kid(s, z.left))
    requires Plug(z.q, s) == Kid(low, z.left) && Kid(s, 1 - z.left).Leaf?
    ensures z.Low(z.node) == s && Plug(z.Whole(z.d), s) == tree
    ensures var o := Lefts(z.Whole(z.node)) + Inorder(z.k) + Rights(z.Whole(z.node));
            Dropped(Inorder(tree), o, z.d) && |Inorder(tree)| == |o| + 1
    ensures Balanced(z.k) && AvlPath(z.Whole(z.node), Height(z.k) + 1)
  {
    hide Balanced, AvlPath, Plug, Inorder, Lefts, Rights, Size, Height, Make, Compose, Dropped;
    KidsOf(1 - z.left, s);
    KidsOf(z.left, low);
    ComposePlug(z.q, z.Base(z.d), s);
    PlugStep(z.Base(z.d), Kid(low, z.left));
    PlugAvl(z.Whole(z.d), s);
    MakeAvl(1 - z.left, Leaf, s.id, s.bal, z.k);
    LeafHeight();
    SameAvl(z);
    SwapOrder(tree, s, z);
  }

  lemma {:induction false} OutsideOf(tree: Tree, z: Parts, x: nat)
    requires Plug(z.Whole(z.d), z.Low(z.node)) == tree && x !in Ids(tree)
    ensures Outside(x, z)
  {
    PlugIds(z.Whole(z.d), z.Low(z.node));
    ComposeIds(z.q, z.Base(z.d));
    MakeIds(1 - z.left, Leaf, z.node, z.sb, z.k);
  }

  lemma {:induction false} LowChild(z: Parts, x: nat)
    ensures var low := z.Low(x);
            && low.Node? && low.id == x && (low.left.Leaf? || low.right.Leaf?)
            && z.k == if low.left.Leaf? then low.right else low.left
  {
  }
}

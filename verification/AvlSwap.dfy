/**
 Taking a node with two children out of the tree: a neighbour in order takes its place, and a
 placeholder takes the neighbour's.
 */
module AvlSwap {

  import opened AvlShape
  import opened AvlMemory
  import opened AvlRotation

  // ----- Paths in two parts

  // The way up through `q`, and on through `base`.
  function Compose(q: Path, base: Path): Path {
    match q
    case Top => base
    case Step(side, id, bal, other, up) => Step(side, id, bal, other, Compose(up, base))
  }

  // Every step of the path is on the given side.
  predicate Along(q: Path, side: Side) {
    q.Step? ==> q.side == side && Along(q.up, side)
  }

  // The node at the upper end of the path, or `n` if it is empty.
  function Uppermost(q: Path, n: nat): nat {
    if q.Top? then n else Uppermost(q.up, q.id)
  }

  lemma {:induction false} ComposePlug(q: Path, base: Path, t: Tree)
    ensures Plug(Compose(q, base), t) == Plug(base, Plug(q, t))
    decreases q
  {
    if q.Step? { ComposePlug(q.up, base, Make(q.side, t, q.id, q.bal, q.other)); }
  }

  lemma {:induction false} ComposeOrder(q: Path, base: Path)
    ensures Lefts(Compose(q, base)) == Lefts(base) + Lefts(q)
    ensures Rights(Compose(q, base)) == Rights(q) + Rights(base)
  {
    hide Inorder;
    if q.Step? { ComposeOrder(q.up, base); }
  }

  lemma {:induction false} AlongOrder(q: Path, side: Side)
    requires Along(q, side)
    ensures if side == 0 then Lefts(q) == [] else Rights(q) == []
  {
    if q.Step? { AlongOrder(q.up, side); }
  }

  lemma {:induction false} ComposeAvl(q: Path, base: Path, base': Path, h: nat)
    requires AvlPath(Compose(q, base), h)
    requires forall k :: AvlPath(base, k) ==> AvlPath(base', k)
    ensures AvlPath(Compose(q, base'), h)
  {
    hide Balanced, Height;
    if q.Step? { ComposeAvl(q.up, base, base', 1 + Max(h, Height(q.other))); }
  }

  lemma {:induction false} ComposeIds(q: Path, base: Path)
    ensures PathIds(Compose(q, base)) == PathIds(q) + PathIds(base)
    ensures ApartPath(Compose(q, base)) <==> ApartPath(q) && ApartPath(base) && PathIds(q) !! PathIds(base)
  {
    hide Ids, Apart;
    if q.Step? { ComposeIds(q.up, base); }
  }

  lemma {:induction false} ComposeHolds(m: Memory, root: nat, q: Path, base: Path, n: nat)
    requires base.Step?
    ensures HoldsPath(m, root, Compose(q, base), n, 0, 0) ==>
              HoldsPath(m, root, q, n, base.id, base.side) && HoldsPath(m, root, base, Uppermost(q, n), 0, 0)
    ensures HoldsPath(m, root, q, n, base.id, base.side) && HoldsPath(m, root, base, Uppermost(q, n), 0, 0) ==>
              HoldsPath(m, root, Compose(q, base), n, 0, 0)
    decreases q
  {
    hide Holds;
    if q.Step? { ComposeHolds(m, root, q.up, base, q.id); }
  }

  lemma {:induction false} UppermostIn(q: Path, n: nat)
    ensures q.Step? ==> Uppermost(q, n) in PathIds(q)
    decreases q
  {
    if q.Step? { UppermostIn(q.up, q.id); }
  }

  // ----- The swap in memory

  // A node of the inner path: the lowest one has a new child, the highest one a new parent.
  function Spliced(c: Cell, q: Path, id: nat, n: nat, top: nat, x: nat): Cell
    requires q.Step?
  {
    var d := if id == q.id then WithChild(c, q.side, n) else c;
    if id == top then d.(parent := x) else d
  }

  lemma {:induction false} Regrafted(m: Memory, m': Memory, root: nat, root': nat, q: Path, n: nat, n': nat, d: nat,
                                     x: nat, i: Side)
    requires HoldsPath(m, root, q, n, d, i) && q.Step? && ApartPath(q) && d != 0 && x != 0
    requires |m'| == |m| && forall k :: k in PathIds(q) && 0 < k < |m| ==>
               m'[k] == Spliced(m[k], q, k, n', Uppermost(q, 0), x)
    requires x < |m| && ChildOf(m'[x], i) == Uppermost(q, 0)
    ensures HoldsPath(m', root', q, n', x, i)
    decreases q
  {
    hide Ids, Apart;
    var Step(side, id, bal, other, up) := q;
    assert id in PathIds(q);
    UppermostIn(up, id);
    HoldsFrame(m, m', other, id, 1 - side);
    if up.Step? {
      assert WithChild(m[up.id], up.side, id) == m[up.id];
      Regrafted(m, m', root, root', up, id, id, d, x, i);
    }
  }

  // The subtree that keeps its side but gets another parent.
  predicate NewParent(m: Memory, m': Memory, t: Tree, p: nat) {
    t.Node? ==> t.id < |m| == |m'| && m'[t.id] == m[t.id].(parent := p)
  }

  // The parts of the tree around a node `d` with two children and the neighbour `node` that
  // replaces it: the way up from d, the way from the neighbour up to d, and their subtrees.
  datatype Parts = Parts(p: Path, q: Path, left: Side, d: nat, bal: int, far: Tree, node: nat, sb: int, k: Tree) {
    function Base(x: nat): Path { Step(left, x, bal, far, p) }
    function Whole(x: nat): Path { Compose(q, Base(x)) }
    function Low(x: nat): Tree { Make(1 - left, Leaf, x, sb, k) }
  }

  lemma {:induction false} PartsBefore(m: Memory, root: nat, z: Parts)
    requires Shows(m, root, z.Whole(z.d), z.Low(z.node))
    ensures 0 < z.node < |m| && 0 < z.d < |m| && z.node != z.d
    ensures Is(m[z.node], 1 - z.left, 0, Root(z.k), Above(z.q, z.d), AboveSide(z.q, z.left), z.sb)
    ensures Is(m[z.d], z.left, Uppermost(z.q, z.node), Root(z.far), Above(z.p, 0), AboveSide(z.p, 0), z.bal)
    ensures Holds(m, z.k, z.node, z.left) && Holds(m, z.far, z.d, 1 - z.left)
    ensures HoldsPath(m, root, z.q, z.node, z.d, z.left) && HoldsPath(m, root, z.p, z.d, 0, 0)
    ensures Apart(z.k) && Apart(z.far) && ApartPath(z.q) && ApartPath(z.p)
    ensures z.node !in Ids(z.k) && z.node !in Ids(z.far) && z.node !in PathIds(z.q) && z.node !in PathIds(z.p)
    ensures z.d !in Ids(z.k) && z.d !in Ids(z.far) && z.d !in PathIds(z.q) && z.d !in PathIds(z.p)
    ensures Ids(z.k) !! Ids(z.far) && Ids(z.k) !! PathIds(z.q) && Ids(z.k) !! PathIds(z.p)
    ensures Ids(z.far) !! PathIds(z.q) && Ids(z.far) !! PathIds(z.p) && PathIds(z.q) !! PathIds(z.p)
  {
    hide Make, Is, Holds, HoldsPath, Ids, PathIds, Apart, ApartPath;
    var base := z.Base(z.d);
    ComposeHolds(m, root, z.q, base, z.node);
    ComposeIds(z.q, base);
    ComposeAbove(z.q, base);
    MakeHolds(m, 1 - z.left, Leaf, z.node, z.sb, z.k, Above(z.q, z.d), AboveSide(z.q, z.left));
    MakeIds(1 - z.left, Leaf, z.node, z.sb, z.k);
    StepFacts(m, root, base, Uppermost(z.q, z.node));
  }

  lemma {:induction false} ComposeAbove(q: Path, base: Path)
    requires base.Step?
    ensures Above(Compose(q, base), 0) == Above(q, base.id) && AboveSide(Compose(q, base), 0) == AboveSide(q, base.side)
  {
  }

  lemma {:induction false} StepFacts(m: Memory, root: nat, path: Path, n: nat)
    requires path.Step?
    ensures HoldsPath(m, root, path, n, 0, 0) <==>
              && 0 < path.id < |m| && Is(m[path.id], path.side, n, Root(path.other), Above(path.up, 0),
                                         AboveSide(path.up, 0), path.bal)
              && Holds(m, path.other, path.id, 1 - path.side) && HoldsPath(m, root, path.up, path.id, 0, 0)
    ensures PathIds(path) == {path.id} + Ids(path.other) + PathIds(path.up)
    ensures ApartPath(path) <==>
              && path.id !in Ids(path.other) && path.id !in PathIds(path.up) && Ids(path.other) !! PathIds(path.up)
              && Apart(path.other) && ApartPath(path.up)
  {
  }

  // Address x is not part of the tree.
  predicate Outside(x: nat, z: Parts) {
    x != z.node && x != z.d && x !in Ids(z.k) && x !in Ids(z.far) && x !in PathIds(z.q) && x !in PathIds(z.p)
  }

  // The ends of the inner path, lower and upper, if it has any.
  function Touched(z: Parts, tmp: nat): set<nat> {
    {z.node, tmp, Root(z.far), Root(z.k), Above(z.p, 0), Above(z.q, 0), Uppermost(z.q, 0)}
  }

  lemma {:induction false} SwapInMemory(m: Memory, m': Memory, root: nat, root': nat, z: Parts, tmp: nat)
    requires Shows(m, root, z.Whole(z.d), z.Low(z.node)) && 0 < tmp < |m| && Outside(tmp, z)
    requires 0 < z.node < |m| == |m'|
    requires Is(m'[z.node], z.left, Uppermost(z.q, tmp), Root(z.far), Above(z.p, 0), AboveSide(z.p, 0), z.bal)
    requires Is(m'[tmp], 1 - z.left, 0, Root(z.k), Above(z.q, z.node), AboveSide(z.q, z.left), z.sb)
    requires z.q.Step? ==> forall k :: k in PathIds(z.q) && 0 < k < |m| ==>
               m'[k] == Spliced(m[k], z.q, k, tmp, Uppermost(z.q, 0), z.node)
    requires NewParent(m, m', z.far, z.node) && NewParent(m, m', z.k, tmp) && Rehung(m, m', root, root', z.p, z.node)
    requires SameBut(m, m', Touched(z, tmp))
    ensures Shows(m', root', z.Whole(z.node), z.Low(tmp))
  {
    hide Make, Is, Holds, HoldsPath, Ids, PathIds, Apart, ApartPath, Uppermost, Spliced;
    var base := z.Base(z.node);
    PartsBefore(m, root, z);
    SubtreesMoved(m, m', root, root', z, tmp);
    InnerMoved(m, m', root, root', z, tmp);
    StepFacts(m', root', base, Uppermost(z.q, tmp));
    ComposeHolds(m', root', z.q, base, tmp);
    ComposeIds(z.q, base);
    ComposeAbove(z.q, base);
    MakeHolds(m', 1 - z.left, Leaf, tmp, z.sb, z.k, Above(z.q, z.node), AboveSide(z.q, z.left));
    MakeIds(1 - z.left, Leaf, tmp, z.sb, z.k);
    assert Ids(Leaf) == {} && Apart(Leaf) && Holds(m', Leaf, tmp, 1 - z.left) by { LeafFacts(m', tmp, 1 - z.left); }
  }

  lemma {:induction false} LeafFacts(m: Memory, p: nat, i: Side)
    ensures Ids(Leaf) == {} && Apart(Leaf) && Holds(m, Leaf, p, i)
  {
  }

  lemma {:induction false} SubtreesMoved(m: Memory, m': Memory, root: nat, root': nat, z: Parts, tmp: nat)
    requires Shows(m, root, z.Whole(z.d), z.Low(z.node)) && 0 < tmp < |m| && Outside(tmp, z)
    requires NewParent(m, m', z.far, z.node) && NewParent(m, m', z.k, tmp) && Rehung(m, m', root, root', z.p, z.node)
    requires SameBut(m, m', Touched(z, tmp))
    ensures Holds(m', z.far, z.node, 1 - z.left) && Holds(m', z.k, tmp, z.left)
            && HoldsPath(m', root', z.p, z.node, 0, 0)
  {
    hide Shows, Make, Is, Holds, HoldsPath, Ids, PathIds, Apart, ApartPath, Uppermost, Compose;
    PartsBefore(m, root, z);
    RootIn(z.far);
    RootIn(z.k);
    AboveIn(z.p);
    UppermostIn(z.q, 0);
    NothingUp(z.q);
    IndexOf(m, z.far, z.d, 1 - z.left);
    IndexOf(m, z.k, z.node, z.left);
    Adopted(m, m', z.far, z.d, 1 - z.left, z.node, 1 - z.left);
    Adopted(m, m', z.k, z.node, z.left, tmp, z.left);
    Replanted(m, m', root, root', z.p, z.d, z.node);
  }

  lemma {:induction false} IndexOf(m: Memory, t: Tree, p: nat, i: Side)
    requires Holds(m, t, p, i) && p != 0
    ensures t.Node? ==> 0 < t.id < |m| && m[t.id].index == i && m[t.id].parent == p
  {
  }

  lemma {:induction false} NothingUp(q: Path)
    ensures Above(q, 0) == 0 || Above(q, 0) in PathIds(q)
    ensures q.Top? ==> Uppermost(q, 0) == 0
  {
  }

  lemma {:induction false} InnerMoved(m: Memory, m': Memory, root: nat, root': nat, z: Parts, tmp: nat)
    requires HoldsPath(m, root, z.q, z.node, z.d, z.left) && ApartPath(z.q) && 0 < z.d && 0 < z.node < |m| == |m'|
    requires Is(m'[z.node], z.left, Uppermost(z.q, tmp), Root(z.far), Above(z.p, 0), AboveSide(z.p, 0), z.bal)
    requires z.q.Step? ==> forall k :: k in PathIds(z.q) && 0 < k < |m| ==>
               m'[k] == Spliced(m[k], z.q, k, tmp, Uppermost(z.q, 0), z.node)
    ensures HoldsPath(m', root', z.q, tmp, z.node, z.left)
  {
    if z.q.Step? {
      UppermostSame(z.q, tmp, 0);
      Regrafted(m, m', root, root', z.q, z.node, tmp, z.d, z.node, z.left);
    }
  }

  lemma {:induction false} UppermostSame(q: Path, n: nat, n': nat)
    requires q.Step?
    ensures Uppermost(q, n) == Uppermost(q, n')
  {
  }

  // ----- The stores of the swap, in two stages

  // The child on the right if there is one, else the one on the left.
  function OnlyChild(c: Cell): nat {
    if c.right != 0 then c.right else c.left
  }

  predicate CanTakeSpot(m: Memory, node: nat, delete: nat, tmp: nat, left: Side) {
    && 0 < node < |m| && 0 < delete < |m| && 0 < tmp < |m| && node != delete && tmp !in [node, delete]
    && var a, f, p := ChildOf(m[delete], left), ChildOf(m[delete], 1 - left), m[delete].parent;
       && 0 < a < |m| && 0 < f < |m| && p < |m| && a != f
       && tmp !in [a, f, p] && delete !in [a, f, p] && node !in [f, p] && p !in [a, f]
  }

  // `node` is in the place of `delete`; `tmp` is a copy of what it was.
  predicate TookSpot(m: Memory, m': Memory, root: nat, root': nat, node: nat, delete: nat, tmp: nat, left: Side)
    requires CanTakeSpot(m, node, delete, tmp, left)
  {
    var a, f, p := ChildOf(m[delete], left), ChildOf(m[delete], 1 - left), m[delete].parent;
    && |m'| == |m|
    && m'[node] == (if a == node then WithChild(m[delete], left, tmp) else m[delete])
    && m'[tmp] == (if a == node then m[node].(parent := node) else m[node])
    && (a != node ==> m'[a] == m[a].(parent := node))
    && m'[f] == m[f].(parent := node)
    && (if p == 0 then root' == node else root' == root && m'[p] == WithChild(m[p], m[delete].index, node))
    && (forall n :: 0 <= n < |m| && n !in [node, tmp, a, f, p] ==> m'[n] == m[n])
  }

  predicate CanLeaveBehind(m: Memory, tmp: nat) {
    && 0 < tmp < |m|
    && var c, p := OnlyChild(m[tmp]), m[tmp].parent;
       c < |m| && 0 < p < |m| && p != tmp && c != tmp && c != p
  }

  // `tmp` is in the place of the node it is a copy of.
  predicate LeftBehind(m: Memory, m': Memory, tmp: nat)
    requires CanLeaveBehind(m, tmp)
  {
    var c, p := OnlyChild(m[tmp]), m[tmp].parent;
    && |m'| == |m|
    && m'[p] == WithChild(m[p], m[tmp].index, tmp)
    && (c != 0 ==> m'[c] == m[c].(parent := tmp))
    && (forall n :: 0 <= n < |m| && n != p && (n != c || c == 0) ==> m'[n] == m[n])
  }

  // The addresses involved.
  lemma {:induction false} SwapAddresses(m: Memory, root: nat, z: Parts, tmp: nat)
    requires Shows(m, root, z.Whole(z.d), z.Low(z.node)) && 0 < tmp < |m| && Outside(tmp, z) && z.far.Node?
    ensures CanTakeSpot(m, z.node, z.d, tmp, z.left)
    ensures ChildOf(m[z.d], z.left) == Uppermost(z.q, z.node) && ChildOf(m[z.d], 1 - z.left) == z.far.id
            && m[z.d].parent == Above(z.p, 0)
    ensures OnlyChild(m[z.node]) == Root(z.k) && Root(z.k) < |m| && m[z.node].parent == Above(z.q, z.d)
            && m[z.node].index == AboveSide(z.q, z.left)
    ensures Above(z.q, z.d) < |m| && Above(z.q, z.d) != Root(z.k) && Root(z.k) !in [tmp, z.node]
    ensures z.q.Step? <==> Uppermost(z.q, z.node) != z.node
  {
    hide Shows, Make, Holds, HoldsPath, Ids, PathIds, Apart, ApartPath, Uppermost, Compose;
    PartsBefore(m, root, z);
    RootIn(z.far);
    RootIn(z.k);
    AboveIn(z.p);
    AboveIn(z.q);
    UppermostIn(z.q, z.node);
    InRange(m, root, z);
    IndexOf(m, z.far, z.d, 1 - z.left);
    IndexOf(m, z.k, z.node, z.left);
    EmptyUp(z.q, z.node);
  }

  lemma {:induction false} EmptyUp(q: Path, n: nat)
    ensures q.Top? ==> Uppermost(q, n) == n
  {
  }

  lemma {:induction false} InRange(m: Memory, root: nat, z: Parts)
    requires HoldsPath(m, root, z.q, z.node, z.d, z.left) && HoldsPath(m, root, z.p, z.d, 0, 0)
    requires z.node < |m| && z.d < |m|
    ensures Above(z.p, 0) < |m| || Above(z.p, 0) == 0
    ensures Above(z.q, z.d) < |m| && Uppermost(z.q, z.node) < |m|
    ensures z.q.Step? ==> 0 < z.q.id && 0 < Uppermost(z.q, z.node)
    ensures z.p.Step? ==> 0 < z.p.id < |m|
  {
    if z.q.Step? { UppermostRange(m, root, z.q, z.node, z.d, z.left); }
  }

  lemma {:induction false} UppermostRange(m: Memory, root: nat, q: Path, n: nat, p: nat, i: Side)
    requires HoldsPath(m, root, q, n, p, i) && q.Step?
    ensures 0 < Uppermost(q, n) < |m|
    decreases q
  {
    if q.up.Step? { UppermostRange(m, root, q.up, q.id, p, i); }
  }

  lemma {:induction false} MayLeaveBehind(m: Memory, m': Memory, root: nat, root': nat, z: Parts, tmp: nat)
    requires Shows(m, root, z.Whole(z.d), z.Low(z.node)) && 0 < tmp < |m| && Outside(tmp, z) && z.far.Node?
    requires CanTakeSpot(m, z.node, z.d, tmp, z.left) && TookSpot(m, m', root, root', z.node, z.d, tmp, z.left)
    ensures CanLeaveBehind(m', tmp) && OnlyChild(m'[tmp]) == Root(z.k) && m'[tmp].parent == Above(z.q, z.node)
            && m'[tmp].index == AboveSide(z.q, z.left)
    ensures m'[tmp] == m[z.node].(parent := Above(z.q, z.node))
  {
    hide Shows, Make, Holds, HoldsPath, Ids, PathIds, Apart, ApartPath, Uppermost, Compose, ChildOf, WithChild;
    SwapAddresses(m, root, z, tmp);
    PartsBefore(m, root, z);
    InRange(m, root, z);
    AboveIn(z.q);
    EmptyUp(z.q, z.node);
  }

  // The nodes after both stages.
  lemma {:induction false} SwappedNodes(m: Memory, m1: Memory, m2: Memory, root: nat, root': nat, z: Parts, tmp: nat)
    requires Shows(m, root, z.Whole(z.d), z.Low(z.node)) && 0 < tmp < |m| && Outside(tmp, z) && z.far.Node?
    requires CanTakeSpot(m, z.node, z.d, tmp, z.left) && TookSpot(m, m1, root, root', z.node, z.d, tmp, z.left)
    requires CanLeaveBehind(m1, tmp) && LeftBehind(m1, m2, tmp)
    ensures |m2| == |m|
    ensures Is(m2[z.node], z.left, Uppermost(z.q, tmp), Root(z.far), Above(z.p, 0), AboveSide(z.p, 0), z.bal)
    ensures Is(m2[tmp], 1 - z.left, 0, Root(z.k), Above(z.q, z.node), AboveSide(z.q, z.left), z.sb)
    ensures NewParent(m, m2, z.far, z.node) && NewParent(m, m2, z.k, tmp) && Rehung(m, m2, root, root', z.p, z.node)
    ensures SameBut(m, m2, Touched(z, tmp))
    ensures z.q.Step? ==> forall k :: k in PathIds(z.q) && 0 < k < |m| ==>
              m2[k] == Spliced(m[k], z.q, k, tmp, Uppermost(z.q, 0), z.node)
  {
    hide Shows, Make, Holds, HoldsPath, Ids, PathIds, Apart, ApartPath, Uppermost, Compose;
    SwapAddresses(m, root, z, tmp);
    MayLeaveBehind(m, m1, root, root', z, tmp);
    PartsBefore(m, root, z);
    InRange(m, root, z);
    RootIn(z.far);
    RootIn(z.k);
    AboveIn(z.p);
    AboveIn(z.q);
    IndexOf(m, z.k, z.node, z.left);
    EmptyUp(z.q, tmp);
    EmptyUp(z.q, z.node);
    EmptyUp(z.q, 0);
    if z.q.Step? {
      UppermostSame(z.q, z.node, 0);
      UppermostSame(z.q, tmp, 0);
      UppermostIn(z.q, 0);
    }
  }

  lemma {:induction false} Swapped(m: Memory, m1: Memory, m2: Memory, root: nat, root': nat, z: Parts, tmp: nat)
    requires Shows(m, root, z.Whole(z.d), z.Low(z.node)) && 0 < tmp < |m| && Outside(tmp, z) && z.far.Node?
    requires CanTakeSpot(m, z.node, z.d, tmp, z.left) && TookSpot(m, m1, root, root', z.node, z.d, tmp, z.left)
    requires CanLeaveBehind(m1, tmp) && LeftBehind(m1, m2, tmp)
    ensures Shows(m2, root', z.Whole(z.node), z.Low(tmp))
  {
    hide Shows, Is, Spliced, SameBut, Rehung, NewParent, TookSpot, LeftBehind;
    SwappedNodes(m, m1, m2, root, root', z, tmp);
    SwapInMemory(m, m2, root, root', z, tmp);
  }
}

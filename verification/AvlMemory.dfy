/**
 Trees in memory: nodes linked to their children and back to their parents.
 */
module AvlMemory {

  import opened AvlShape

  // A node in memory. 0 is the null address.
  datatype Cell = Cell(left: nat, right: nat, parent: nat, index: Side, balance: int)

  // All nodes, by address.
  type Memory = seq<Cell>

  function ChildOf(c: Cell, side: Side): nat {
    if side == 0 then c.left else c.right
  }

  function WithChild(c: Cell, side: Side, n: nat): Cell {
    if side == 0 then c.(left := n) else c.(right := n)
  }

  function Root(t: Tree): nat {
    if t.Leaf? then 0 else t.id
  }

  function Ids(t: Tree): set<nat> {
    if t.Leaf? then {} else Ids(t.left) + {t.id} + Ids(t.right)
  }

  function PathIds(path: Path): set<nat> {
    match path
    case Top => {}
    case Step(_, id, _, other, up) => {id} + Ids(other) + PathIds(up)
  }

  // No address occurs twice.
  predicate Apart(t: Tree) {
    t.Node? ==>
      && t.id !in Ids(t.left) && t.id !in Ids(t.right) && Ids(t.left) !! Ids(t.right)
      && Apart(t.left) && Apart(t.right)
  }

  predicate ApartPath(path: Path) {
    match path
    case Top => true
    case Step(_, id, _, other, up) =>
      && id !in Ids(other) && id !in PathIds(up) && Ids(other) !! PathIds(up)
      && Apart(other) && ApartPath(up)
  }

  // A node with the given children, parent, place and balance. The place of a root does not
  // matter.
  predicate Is(c: Cell, side: Side, near: nat, far: nat, p: nat, i: Side, bal: int) {
    && ChildOf(c, side) == near && ChildOf(c, 1 - side) == far
    && c.parent == p && (p != 0 ==> c.index == i) && c.balance == bal
  }

  // Memory `m` holds the tree, as child `i` of node `p`.
  predicate Holds(m: Memory, t: Tree, p: nat, i: Side) {
    t.Node? ==>
      && 0 < t.id < |m| && Is(m[t.id], 0, Root(t.left), Root(t.right), p, i, t.bal)
      && Holds(m, t.left, t.id, 0) && Holds(m, t.right, t.id, 1)
  }

  // The node a place hangs from, and on which side; `p` and `i` at the top.
  function Above(path: Path, p: nat): nat {
    if path.Top? then p else path.id
  }

  function AboveSide(path: Path, i: Side): Side {
    if path.Top? then i else path.side
  }

  // The path is in memory, with `n` in its place; at the top it hangs from child `i` of `p`, or
  // from `root` when p is null.
  predicate HoldsPath(m: Memory, root: nat, path: Path, n: nat, p: nat, i: Side) {
    match path
    case Top => if p == 0 then root == n else p < |m| && ChildOf(m[p], i) == n
    case Step(side, id, bal, other, up) =>
      && 0 < id < |m| && Is(m[id], side, n, Root(other), Above(up, p), AboveSide(up, i), bal)
      && Holds(m, other, id, 1 - side)
      && HoldsPath(m, root, up, id, p, i)
  }

  // A whole tree in memory, seen from a place in it.
  predicate Shows(m: Memory, root: nat, path: Path, t: Tree) {
    && Holds(m, t, Above(path, 0), AboveSide(path, 0)) && HoldsPath(m, root, path, Root(t), 0, 0)
    && Apart(t) && ApartPath(path) && Ids(t) !! PathIds(path)
  }

  // ----- Nodes from either side

  lemma {:induction false} MakeHolds(m: Memory, side: Side, near: Tree, id: nat, bal: int, far: Tree, p: nat, i: Side)
    ensures Holds(m, Make(side, near, id, bal, far), p, i) <==>
              && 0 < id < |m| && Is(m[id], side, Root(near), Root(far), p, i, bal)
              && Holds(m, near, id, side) && Holds(m, far, id, 1 - side)
    ensures Root(Make(side, near, id, bal, far)) == id
  {
  }

  lemma {:induction false} MakeIds(side: Side, near: Tree, id: nat, bal: int, far: Tree)
    ensures Ids(Make(side, near, id, bal, far)) == {id} + Ids(near) + Ids(far)
    ensures Apart(Make(side, near, id, bal, far)) <==>
              id !in Ids(near) && id !in Ids(far) && Ids(near) !! Ids(far) && Apart(near) && Apart(far)
  {
  }

  // One step up the path is one more node on the tree.
  lemma {:induction false} ShowsUp(m: Memory, root: nat, path: Path, t: Tree)
    requires path.Step?
    ensures Shows(m, root, path, t) <==> Shows(m, root, path.up, Make(path.side, t, path.id, path.bal, path.other))
  {
    hide Make;
    var Step(side, id, bal, other, up) := path;
    MakeHolds(m, side, t, id, bal, other, Above(up, 0), AboveSide(up, 0));
    MakeIds(side, t, id, bal, other);
    hide Holds, Apart, Ids;
  }

  // One step down: the child's subtree, and the node as part of the path.
  lemma {:induction false} ShowsDown(m: Memory, root: nat, path: Path, t: Tree, side: Side)
    requires Shows(m, root, path, t) && t.Node?
    ensures 0 < t.id < |m| && ChildOf(m[t.id], side) == Root(Kid(t, side))
            && (ChildOf(m[t.id], side) != 0 <==> Kid(t, side).Node?)
    ensures m[t.id].parent == Above(path, 0) && (path.Step? ==> m[t.id].index == path.side && path.id != 0)
            && m[t.id].balance == t.bal
    ensures Shows(m, root, Step(side, t.id, t.bal, Kid(t, 1 - side), path), Kid(t, side))
  {
    ShowsUp(m, root, Step(side, t.id, t.bal, Kid(t, 1 - side), path), Kid(t, side));
    KidsOf(side, t);
  }

  lemma {:induction false} ShowsPlug(m: Memory, root: nat, path: Path, t: Tree)
    ensures Shows(m, root, path, t) <==> Shows(m, root, Top, Plug(path, t))
    decreases path
  {
    hide Shows, Make;
    if path.Step? {
      ShowsUp(m, root, path, t);
      ShowsPlug(m, root, path.up, Make(path.side, t, path.id, path.bal, path.other));
    }
  }

  lemma {:induction false} PlugIds(path: Path, t: Tree)
    ensures Ids(Plug(path, t)) == Ids(t) + PathIds(path)
    decreases path
  {
    hide Make, Ids;
    if path.Step? {
      MakeIds(path.side, t, path.id, path.bal, path.other);
      PlugIds(path.up, Make(path.side, t, path.id, path.bal, path.other));
    }
  }

  // ----- What a change of memory leaves alone

  lemma {:induction false} HoldsFrame(m: Memory, m': Memory, t: Tree, p: nat, i: Side)
    requires Holds(m, t, p, i)
    requires |m'| == |m| && forall n :: n in Ids(t) && 0 < n < |m| ==> m'[n] == m[n]
    ensures Holds(m', t, p, i)
  {
    if t.Node? {
      HoldsFrame(m, m', t.left, t.id, 0);
      HoldsFrame(m, m', t.right, t.id, 1);
    }
  }

  lemma {:induction false} HoldsPathFrame(m: Memory, m': Memory, root: nat, root': nat, path: Path, n: nat, p: nat,
                                          i: Side)
    requires HoldsPath(m, root, path, n, p, i)
    requires |m'| == |m| && forall k :: k in PathIds(path) && 0 < k < |m| ==> m'[k] == m[k]
    requires if p == 0 then root' == root else p < |m| && ChildOf(m'[p], i) == ChildOf(m[p], i)
    ensures HoldsPath(m', root', path, n, p, i)
  {
    match path
    case Top =>
    case Step(side, id, bal, other, up) =>
      HoldsFrame(m, m', other, id, 1 - side);
      HoldsPathFrame(m, m', root, root', up, id, p, i);
  }

  // Another subtree in the same place: only the link down to it changes.
  lemma {:induction false} Replanted(m: Memory, m': Memory, root: nat, root': nat, path: Path, n: nat, n': nat)
    requires HoldsPath(m, root, path, n, 0, 0) && ApartPath(path)
    requires |m'| == |m| && forall k :: k in PathIds(path) && 0 < k < |m| && k != Above(path, 0) ==> m'[k] == m[k]
    requires path.Top? ==> root' == n'
    requires path.Step? ==> root' == root && path.id < |m| && m'[path.id] == WithChild(m[path.id], path.side, n')
    ensures HoldsPath(m', root', path, n', 0, 0)
  {
    match path
    case Top =>
    case Step(side, id, bal, other, up) =>
      HoldsFrame(m, m', other, id, 1 - side);
      HoldsPathFrame(m, m', root, root', up, id, 0, 0);
  }

  // The same tree as another node's child: only its root's way up changes.
  lemma {:induction false} Adopted(m: Memory, m': Memory, t: Tree, p: nat, i: Side, p': nat, i': Side)
    requires Holds(m, t, p, i) && Apart(t)
    requires |m'| == |m| && forall n :: n in Ids(t) && 0 < n < |m| && n != t.id ==> m'[n] == m[n]
    requires t.Node? && t.id < |m| ==> m'[t.id] == m[t.id].(parent := p', index := i')
    ensures Holds(m', t, p', i')
  {
    if t.Node? {
      HoldsFrame(m, m', t.left, t.id, 0);
      HoldsFrame(m, m', t.right, t.id, 1);
    }
  }

  lemma {:induction false} RootIn(t: Tree)
    ensures t.Node? ==> t.id in Ids(t)
    ensures Root(t) == 0 || Root(t) in Ids(t)
  {
  }
}

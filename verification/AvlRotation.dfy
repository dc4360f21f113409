/**
 Rotations in memory.
 */
module AvlRotation {

  import opened AvlShape
  import opened AvlMemory

  // The link from above, and the root, lead to `n`; the rest of the node above is as it was.
  predicate Rehung(m: Memory, m': Memory, root: nat, root': nat, path: Path, n: nat) {
    if path.Top? then root' == n
    else root' == root && path.id < |m| == |m'| && m'[path.id] == WithChild(m[path.id], path.side, n)
  }

  // The way up from the root of `t` leads to child `i` of `p`; the rest of that node is as it was.
  predicate Moved(m: Memory, m': Memory, t: Tree, p: nat, i: Side) {
    t.Node? ==> t.id < |m| == |m'| && m'[t.id] == m[t.id].(parent := p, index := i)
  }

  predicate SameBut(m: Memory, m': Memory, changed: set<nat>) {
    |m'| == |m| && forall n :: 0 < n < |m| && n !in changed ==> m'[n] == m[n]
  }

  // From here on the tree is as before, but for what hangs in the place.
  lemma {:induction false} SingleInMemory(m: Memory, m': Memory, root: nat, root': nat, path: Path,
                                          left: Side, a: Tree, child: nat, cb: int, s: Tree, node: nat, nb: int,
                                          far: Tree, b: int)
    requires Shows(m, root, path, Make(left, Make(left, a, child, cb, s), node, nb, far))
    requires node < |m'| && Is(m'[node], left, Root(s), Root(far), child, 1 - left, -b)
    requires child < |m'| && Is(m'[child], left, Root(a), node, Above(path, 0), AboveSide(path, 0), b)
    requires Moved(m, m', s, node, left) && Rehung(m, m', root, root', path, child)
    requires SameBut(m, m', {node, child, Root(s), Above(path, 0)})
    ensures Shows(m', root', path, Single(left, a, child, b, s, node, far))
  {
    hide Make, Is, Holds, HoldsPath, Ids, PathIds, Apart, ApartPath;
    var c, low := Make(left, a, child, cb, s), Make(left, s, node, -b, far);
    var p, i := Above(path, 0), AboveSide(path, 0);
    MakeHolds(m, left, c, node, nb, far, p, i);
    MakeHolds(m, left, a, child, cb, s, node, left);
    MakeIds(left, c, node, nb, far);
    MakeIds(left, a, child, cb, s);
    RootIn(s);
    AboveIn(path);
    HoldsFrame(m, m', a, child, left);
    HoldsFrame(m, m', far, node, 1 - left);
    Adopted(m, m', s, child, 1 - left, node, left);
    Replanted(m, m', root, root', path, node, child);
    MakeHolds(m', left, s, node, -b, far, child, 1 - left);
    MakeHolds(m', left, a, child, b, low, p, i);
    MakeIds(left, s, node, -b, far);
    MakeIds(left, a, child, b, low);
  }

  // Where the nodes that a single rotation touches are, and that they are different nodes.
  lemma {:induction false} SingleBefore(m: Memory, root: nat, path: Path, left: Side, a: Tree, child: nat, cb: int,
                                        s: Tree,
                                        node: nat, nb: int, far: Tree)
    requires Shows(m, root, path, Make(left, Make(left, a, child, cb, s), node, nb, far))
    ensures node < |m| && Is(m[node], left, child, Root(far), Above(path, 0), AboveSide(path, 0), nb)
    ensures child < |m| && Is(m[child], left, Root(a), Root(s), node, left, cb)
    ensures node != 0 && child != 0 && node != child
    ensures s.Node? ==> 0 < s.id < |m| && s.id != node && s.id != child && s.id != Above(path, 0)
    ensures path.Step? ==> path.id < |m| && path.id != node && path.id != child && path.id != 0
  {
    hide Make, Is, Apart, ApartPath;
    var c := Make(left, a, child, cb, s);
    MakeHolds(m, left, c, node, nb, far, Above(path, 0), AboveSide(path, 0));
    MakeHolds(m, left, a, child, cb, s, node, left);
    MakeIds(left, c, node, nb, far);
    MakeIds(left, a, child, cb, s);
    RootIn(s);
    AboveIn(path);
  }

  lemma {:induction false} DoubleInMemory(m: Memory, m': Memory, root: nat, root': nat, path: Path,
                                          left: Side, a: Tree, child: nat, cb: int, s: Tree, g: nat, gb: int, t: Tree,
                                          node: nat, nb: int, far: Tree)
    requires Shows(m, root, path, Make(left, Make(left, a, child, cb, Make(left, s, g, gb, t)), node, nb, far))
    requires child < |m'|
             && Is(m'[child], left, Root(a), Root(s), g, left, if gb == Heavy(left, -1) then Heavy(left, 1) else 0)
    requires node < |m'| && Is(m'[node], left, Root(t), Root(far), g, 1 - left,
                               if gb == Heavy(left, 1) then Heavy(left, -1) else 0)
    requires g < |m'| && Is(m'[g], left, child, node, Above(path, 0), AboveSide(path, 0), 0)
    requires Moved(m, m', s, child, 1 - left) && Moved(m, m', t, node, left) && Rehung(m, m', root, root', path, g)
    requires SameBut(m, m', {node, child, g, Root(s), Root(t), Above(path, 0)})
    ensures Shows(m', root', path, Double(left, a, child, s, g, gb, t, node, far))
  {
    hide Make, Is, Holds, HoldsPath, Ids, PathIds, Apart, ApartPath, Heavy, Double, Shows;
    var right: Side := 1 - left;
    DoubleBefore(m, root, path, left, a, child, cb, s, g, gb, t, node, nb, far);
    RootIn(s);
    RootIn(t);
    AboveIn(path);
    HoldsFrame(m, m', a, child, left);
    HoldsFrame(m, m', far, node, right);
    Adopted(m, m', s, g, left, child, right);
    Adopted(m, m', t, g, right, node, left);
    Replanted(m, m', root, root', path, node, g);
    DoubleAfter(m', root', path, left, a, child, s, g, gb, t, node, far);
  }

  lemma {:induction false} DoubleNodes(m: Memory, root: nat, path: Path, left: Side, a: Tree, child: nat, cb: int,
                                       s: Tree, g: nat, gb: int, t: Tree, node: nat, nb: int, far: Tree)
    requires Shows(m, root, path, Make(left, Make(left, a, child, cb, Make(left, s, g, gb, t)), node, nb, far))
    ensures g < |m| && Is(m[g], left, Root(s), Root(t), child, 1 - left, gb) && g != node && g != child && g != 0
    ensures s.Node? ==>
              && 0 < s.id < |m| && s.id != node && s.id != child && s.id != g
              && s.id != Above(path, 0) && s.id != Root(t)
    ensures t.Node? ==>
              && 0 < t.id < |m| && t.id != node && t.id != child && t.id != g
              && t.id != Above(path, 0) && t.id != Root(s)
    ensures path.Step? ==> path.id != g
  {
    hide Make, Is, Apart, ApartPath, HoldsPath;
    var b := Make(left, s, g, gb, t);
    var c := Make(left, a, child, cb, b);
    DoubleBefore(m, root, path, left, a, child, cb, s, g, gb, t, node, nb, far);
    MakeHolds(m, left, c, node, nb, far, Above(path, 0), AboveSide(path, 0));
    MakeHolds(m, left, a, child, cb, b, node, left);
    MakeHolds(m, left, s, g, gb, t, child, 1 - left);
    RootIn(s);
    RootIn(t);
    AboveIn(path);
  }

  // The parts of the tree share no node.
  ghost predicate Separate(path: Path, a: Tree, child: nat, s: Tree, g: nat, t: Tree, node: nat, far: Tree) {
    && Apart(a) && Apart(s) && Apart(t) && Apart(far) && ApartPath(path)
    && child != g && g != node && node != child
    && (forall n :: n == child || n == g || n == node ==>
          n !in Ids(a) && n !in Ids(s) && n !in Ids(t) && n !in Ids(far) && n !in PathIds(path))
    && Ids(a) !! Ids(s) && Ids(a) !! Ids(t) && Ids(a) !! Ids(far) && Ids(a) !! PathIds(path)
    && Ids(s) !! Ids(t) && Ids(s) !! Ids(far) && Ids(s) !! PathIds(path)
    && Ids(t) !! Ids(far) && Ids(t) !! PathIds(path) && Ids(far) !! PathIds(path)
  }

  lemma {:induction false} DoubleBefore(m: Memory, root: nat, path: Path, left: Side, a: Tree, child: nat, cb: int,
                                        s: Tree, g: nat, gb: int, t: Tree, node: nat, nb: int, far: Tree)
    requires Shows(m, root, path, Make(left, Make(left, a, child, cb, Make(left, s, g, gb, t)), node, nb, far))
    ensures Separate(path, a, child, s, g, t, node, far) && HoldsPath(m, root, path, node, 0, 0)
    ensures child != 0 && g != 0 && node != 0
    ensures Holds(m, a, child, left) && Holds(m, s, g, left) && Holds(m, t, g, 1 - left)
            && Holds(m, far, node, 1 - left)
  {
    hide Make, Is, Holds, HoldsPath, Ids, PathIds, Apart, ApartPath;
    var b := Make(left, s, g, gb, t);
    var c := Make(left, a, child, cb, b);
    MakeHolds(m, left, c, node, nb, far, Above(path, 0), AboveSide(path, 0));
    MakeHolds(m, left, a, child, cb, b, node, left);
    MakeHolds(m, left, s, g, gb, t, child, 1 - left);
    MakeIds(left, c, node, nb, far);
    MakeIds(left, a, child, cb, b);
    MakeIds(left, s, g, gb, t);
  }

  lemma {:induction false} DoubleAfter(m: Memory, root: nat, path: Path, left: Side, a: Tree, child: nat,
                                       s: Tree, g: nat, gb: int, t: Tree, node: nat, far: Tree)
    requires Separate(path, a, child, s, g, t, node, far) && HoldsPath(m, root, path, g, 0, 0)
    requires Holds(m, a, child, left) && Holds(m, s, child, 1 - left) && Holds(m, t, node, left)
             && Holds(m, far, node, 1 - left)
    requires 0 < child < |m|
             && Is(m[child], left, Root(a), Root(s), g, left, if gb == Heavy(left, -1) then Heavy(left, 1) else 0)
    requires 0 < node < |m|
             && Is(m[node], left, Root(t), Root(far), g, 1 - left, if gb == Heavy(left, 1) then Heavy(left, -1) else 0)
    requires 0 < g < |m| && Is(m[g], left, child, node, Above(path, 0), AboveSide(path, 0), 0)
    ensures Shows(m, root, path, Double(left, a, child, s, g, gb, t, node, far))
  {
    hide Make, Is, Holds, HoldsPath, Ids, PathIds, Apart, ApartPath, Heavy;
    var x, y := if gb == Heavy(left, -1) then Heavy(left, 1) else 0,
                if gb == Heavy(left, 1) then Heavy(left, -1) else 0;
    var lo, hi := Make(left, a, child, x, s), Make(left, t, node, y, far);
    MakeHolds(m, left, a, child, x, s, g, left);
    MakeHolds(m, left, t, node, y, far, g, 1 - left);
    MakeHolds(m, left, lo, g, 0, hi, Above(path, 0), AboveSide(path, 0));
    MakeIds(left, a, child, x, s);
    MakeIds(left, t, node, y, far);
    MakeIds(left, lo, g, 0, hi);
  }

  lemma {:induction false} AboveIn(path: Path)
    ensures Above(path, 0) == 0 || Above(path, 0) in PathIds(path)
    ensures 0 !in PathIds(path) ==> (path.Step? <==> Above(path, 0) != 0)
  {
  }

  lemma {:induction false} IsFacts(c: Cell, side: Side, near: nat, far: nat, p: nat, i: Side, bal: int)
    requires Is(c, side, near, far, p, i, bal)
    ensures ChildOf(c, side) == near && ChildOf(c, 1 - side) == far && c.parent == p && (p != 0 ==> c.index == i)
            && c.balance == bal
  {
  }

  // A node after its child on side k, its way up and its balance were set.
  lemma {:induction false} IsChanged(c: Cell, side: Side, near: nat, far: nat, p: nat, i: Side, bal: int,
                                     k: Side, n: nat, p': nat, i': Side, j: Side, bal': int)
    requires Is(c, side, near, far, p, i, bal) && (p' != 0 ==> i' == j)
    ensures Is(WithChild(c, k, n).(balance := bal', index := i', parent := p'), side,
               if k == side then n else near, if k == side then far else n, p', j, bal')
  {
  }

  lemma {:induction false} IsBoth(c: Cell, side: Side, near: nat, far: nat, p: nat, i: Side, j: Side, bal: int)
    requires p != 0 ==> i == j
    ensures Is(WithChild(WithChild(c, side, near), 1 - side, far).(balance := bal, parent := p, index := i), side,
               near, far, p, j, bal)
  {
  }

  lemma {:induction false} SameButNone(m: Memory, changed: set<nat>)
    ensures SameBut(m, m, changed)
  {
  }

  lemma {:induction false} Stored(m: Memory, m': Memory, changed: set<nat>, n: nat, c: Cell)
    requires SameBut(m, m', changed) && n in changed && n < |m'|
    ensures SameBut(m, m'[n := c], changed)
  {
  }

  function Attached(m: Memory, n: nat, side: Side, c: nat): Memory
    requires n < |m| && c < |m|
  {
    var m' := m[n := WithChild(m[n], side, c)];
    if c != 0 then m'[c := m'[c].(parent := n, index := side)] else m'
  }
}

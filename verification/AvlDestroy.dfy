/**
 Taking a tree apart without rebalancing: children before their parents.
 */
module AvlDestroy {

  import opened AvlShape
  import opened AvlMemory
  import opened AvlRotation
  import opened AvlBalance

  function Postorder(t: Tree): seq<nat> {
    if t.Leaf? then [] else Postorder(t.left) + Postorder(t.right) + [t.id]
  }

  // Every node is in the post-order exactly as often as in the order, which is once.
  lemma {:induction false} PostorderIsPermutation(t: Tree)
    ensures multiset(Postorder(t)) == multiset(Inorder(t))
  {
    if t.Node? {
      PostorderIsPermutation(t.left);
      PostorderIsPermutation(t.right);
    }
  }

  // What is left to visit once the subtree in this place is done.
  function Rest(path: Path): seq<nat> {
    match path
    case Top => []
    case Step(side, id, _, other, up) => (if side == 0 then Postorder(other) else []) + [id] + Rest(up)
  }

  // On the way up everything to the left is gone, and everything to the right untouched.
  predicate Swept(path: Path) {
    match path
    case Top => true
    case Step(side, _, _, other, up) => (if side == 0 then Balanced(other) else other.Leaf?) && Swept(up)
  }

  predicate Single(t: Tree) {
    t.Node? && t.left.Leaf? && t.right.Leaf?
  }

  // A subtree with something still to visit in it, and the whole of what is to visit.
  function Todo(path: Path, t: Tree): seq<nat> {
    Postorder(t) + Rest(path)
  }

  lemma {:induction false} GoLeft(path: Path, t: Tree)
    requires t.Node? && Balanced(t) && Swept(path)
    ensures var path' := Step(0, t.id, t.bal, t.right, path);
            && Swept(path') && Balanced(t.left) && Todo(path', t.left) == Todo(path, t)
            && Size(t.left) + PathSize(path') == Size(t) + PathSize(path)
  {
    assert Postorder(t.left) + (Postorder(t.right) + [t.id] + Rest(path))
           == (Postorder(t.left) + Postorder(t.right) + [t.id]) + Rest(path);
  }

  // A node without a left child has at most a single node on the right.
  lemma {:induction false} GoRight(path: Path, t: Tree)
    requires t.Node? && Balanced(t) && Swept(path) && t.left.Leaf?
    ensures var path' := Step(1, t.id, t.bal, Leaf, path);
            if t.right.Leaf? then Single(t)
            else
              && Single(t.right) && Swept(path') && Todo(path', t.right) == Todo(path, t)
              && Size(t.right) + PathSize(path') == Size(t) + PathSize(path)
  {
    hide Balanced, Height, Postorder, Size, PathSize;
    MakeAvl(0, t.left, t.id, t.bal, t.right);
    LeafHeight();
    if t.right.Node? {
      var r := t.right;
      MakeAvl(0, r.left, r.id, r.bal, r.right);
      NonemptyIsNode(r.left);
      NonemptyIsNode(r.right);
      RightOnly(path, t);
    }
  }

  lemma {:induction false} RightOnly(path: Path, t: Tree)
    requires t.Node? && t.left.Leaf? && Single(t.right)
    ensures var path' := Step(1, t.id, t.bal, Leaf, path);
            Todo(path', t.right) == Todo(path, t) && Size(t.right) + PathSize(path') == Size(t) + PathSize(path)
  {
    assert Postorder(t.right) == [] + [] + [t.right.id];
    assert Postorder(t) == [] + Postorder(t.right) + [t.id];
    assert Todo(path, t) == [t.right.id] + ([] + [t.id] + Rest(path));
  }

  lemma {:induction false} SingleTodo(path: Path, t: Tree)
    requires Single(t)
    ensures Todo(path, t) == [t.id] + Rest(path) && Size(t) == 1
  {
    hide Rest;
    assert Postorder(Leaf) == [];
    assert Postorder(t) == [] + [] + [t.id];
  }

  // Once the subtree in a place is gone, the node above comes next, or what it has on the right.
  lemma {:induction false} GoUp(path: Path)
    requires path.Step? && Swept(path)
    ensures var Step(side, id, bal, other, up) := path;
            if side == 1 || other.Leaf? then
              var t := Make(side, Leaf, id, bal, other);
              Single(t) && t.id == id && Swept(up) && Rest(path) == Todo(up, t)
                && PathSize(path) == Size(t) + PathSize(up)
            else
              var path' := Step(1, id, bal, Leaf, up);
              && Balanced(other) && Swept(path') && Rest(path) == Todo(path', other)
              && PathSize(path) == Size(other) + PathSize(path')
  {
    var Step(side, id, bal, other, up) := path;
    if side == 1 || other.Leaf? {
      SingleTodo(up, Make(side, Leaf, id, bal, other));
      assert [] + [id] + Rest(up) == [id] + Rest(up);
    } else {
      assert Postorder(other) + [id] + Rest(up) == Postorder(other) + ([] + [id] + Rest(up));
    }
  }

  // Memory holds what is around node n in a place; what it holds at n does not matter.
  predicate Around(m: Memory, root: nat, path: Path, n: nat) {
    HoldsPath(m, root, path, n, 0, 0) && ApartPath(path) && n !in PathIds(path)
  }

  lemma {:induction false} ShownAround(m: Memory, root: nat, path: Path, t: Tree)
    requires Shows(m, root, path, t) && t.Node?
    ensures 0 < t.id < |m| && root != 0 && Around(m, root, path, t.id)
  {
    RootStays(m, root, path, t.id);
  }

  // Cutting off its parent whatever is at n.
  lemma {:induction false} CutOff(m: Memory, root: nat, path: Path, n: nat)
    requires Around(m, root, path, n) && path.Step?
    ensures 0 < path.id < |m|
    ensures Shows(m[path.id := WithChild(m[path.id], path.side, 0)], root, path, Leaf)
  {
    AboveIn(path);
    var m' := m[path.id := WithChild(m[path.id], path.side, 0)];
    Replanted(m, m', root, root, path, n, 0);
  }

  lemma {:induction false} RootStays(m: Memory, root: nat, path: Path, n: nat)
    requires Around(m, root, path, n) && n != 0
    ensures root != 0
  {
    if path.Step? { RootStays(m, root, path.up, path.id); }
  }

  // ----- No node is returned twice

  predicate Distinct(s: seq<nat>) {
    forall i, j :: 0 <= i < j < |s| ==> s[i] != s[j]
  }

  lemma {:induction false} PostorderIds(t: Tree)
    ensures forall n :: n in Postorder(t) <==> n in Ids(t)
  {
    if t.Node? {
      PostorderIds(t.left);
      PostorderIds(t.right);
    }
  }

  lemma {:induction false} VisitedOnce(m: Memory, root: nat, t: Tree)
    requires Shows(m, root, Top, t)
    ensures Distinct(Postorder(t))
  {
    ApartDistinct(t);
  }

  lemma {:induction false} ApartDistinct(t: Tree)
    requires Apart(t)
    ensures Distinct(Postorder(t))
  {
    if t.Node? {
      ApartDistinct(t.left);
      ApartDistinct(t.right);
      PostorderIds(t.left);
      PostorderIds(t.right);
      var l, r := Postorder(t.left), Postorder(t.right);
      assert forall i :: 0 <= i < |l| ==> l[i] in l;
      assert forall i :: 0 <= i < |r| ==> r[i] in r;
    }
  }

  lemma {:induction false} NotReturnedYet(nodes: seq<nat>, node: nat, path: Path)
    requires Distinct(nodes + [node] + Rest(path))
    ensures node !in nodes && (path.Step? ==> path.id !in nodes && path.id != node)
  {
    var s := nodes + [node] + Rest(path);
    assert s[|nodes|] == node && forall i :: 0 <= i < |nodes| ==> s[i] == nodes[i];
    if path.Step? {
      var k := |nodes| + 1 + if path.side == 0 then |Postorder(path.other)| else 0;
      assert s[k] == path.id;
    }
  }
}

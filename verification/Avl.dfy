/**
 The AVL tree (`avl_tree_t`): nodes linked both ways, found by key, inserted and removed in
 place with rotations on the way back up.
 */
module Avl {

  import opened AvlShape
  import opened AvlMemory
  import opened AvlRotation
  import opened AvlSwap
  import opened AvlBalance
  import opened AvlOrder
  import D = AvlDestroy

  class AvlTree {
    var memory: Memory
    var root: nat
    var numNodes: nat
    const key: KeyOf
    ghost var tree: Tree

    ghost predicate Valid()
      reads this
    {
      Shows(memory, root, Top, tree) && Balanced(tree) && numNodes == Size(tree)
    }

    // One store; `since` and `touched` record what has changed.
    method Put(n: nat, c: Cell, ghost since: Memory, ghost touched: set<nat>)
      requires n < |memory| && n in touched && SameBut(since, memory, touched)
      modifies `memory
      ensures |memory| == |old(memory)|
      ensures memory == old(memory)[n := c] && SameBut(since, memory, touched)
    {
      Stored(since, memory, touched, n, c);
      memory := memory[n := c];
    }

    // Makes c, if any, the child of n.
    method Attach(n: nat, side: Side, c: nat, ghost since: Memory, ghost touched: set<nat>)
      requires n < |memory| && n in touched && SameBut(since, memory, touched)
      requires c < |memory| && (c != 0 ==> c in touched && c != n)
      modifies `memory
      ensures |memory| == |old(memory)|
      ensures memory == Attached(old(memory), n, side, c) && SameBut(since, memory, touched)
    {
      hide SameBut;
      Put(n, WithChild(memory[n], side, c), since, touched);
      if c != 0 {
        Put(c, memory[c].(parent := n, index := side), since, touched);
      }
    }

    // Makes n the child of p, or the root.
    method Hang(p: nat, side: Side, n: nat, ghost since: Memory, ghost touched: set<nat>)
      requires SameBut(since, memory, touched) && (p != 0 ==> p < |memory| && p in touched)
      modifies `memory, `root
      ensures |memory| == |old(memory)|
      ensures if p == 0 then root == n && memory == old(memory)
              else root == old(root) && memory == old(memory)[p := WithChild(old(memory)[p], side, n)]
      ensures SameBut(since, memory, touched)
    {
      hide SameBut;
      if p != 0 {
        Put(p, WithChild(memory[p], side, n), since, touched);
      } else {
        root := n;
      }
    }

    // The child's other subtree moves over to the node, and the child moves up above it.
    method SingleRotation(node: nat, left: Side, balance: int, ghost path: Path, ghost a: Tree, ghost s: Tree,
                          ghost nb: int, ghost far: Tree,
                          child: nat, ghost childBal: int)
      requires Shows(memory, root, path, Make(left, Make(left, a, child, childBal, s), node, nb, far))
      modifies `memory, `root
      ensures |memory| == |old(memory)|
      ensures Shows(memory, root, path, Single(left, a, child, balance, s, node, far))
    {
      hide Shows, Make, Single, Holds, HoldsPath, Ids, PathIds, Apart, ApartPath, Is, WithChild, ChildOf;
      ghost var m, r := memory, root;
      SingleBefore(m, root, path, left, a, child, childBal, s, node, nb, far);
      IsFacts(m[node], left, child, Root(far), Above(path, 0), AboveSide(path, 0), nb);
      IsFacts(m[child], left, Root(a), Root(s), node, left, childBal);
      var right: Side := 1 - left;
      var parent, whichChild := memory[node].parent, memory[node].index;
      var cright := ChildOf(memory[child], right);
      ghost var touched := {node, child, Root(s), Above(path, 0)};
      assert SameBut(m, memory, touched);
      hide SameBut;
      Attach(node, left, cright, m, touched);
      Put(child, WithChild(memory[child], right, node), m, touched);
      Put(node, memory[node].(balance := -balance, index := right, parent := child), m, touched);
      Put(child, memory[child].(balance := balance, index := whichChild, parent := parent), m, touched);
      Hang(parent, whichChild, child, m, touched);
      IsChanged(m[node], left, child, Root(far), Above(path, 0), AboveSide(path, 0), nb, left, cright, child, right,
                right, -balance);
      IsChanged(m[child], left, Root(a), Root(s), node, left, childBal, right, node, parent, whichChild,
                AboveSide(path, 0), balance);
      assert memory[node] == WithChild(m[node], left, cright).(balance := -balance, index := right, parent := child);
      assert memory[child] == WithChild(m[child], right, node).(balance := balance, index := whichChild,
                                                                parent := parent);
      SingleInMemory(m, memory, r, root, path, left, a, child, childBal, s, node, nb, far, balance);
    }

    // The grandchild's subtrees go to its two neighbours.
    method Release(node: nat, left: Side, child: nat, gleft: nat, gright: nat, ghost since: Memory,
                   ghost touched: set<nat>)
      requires node < |memory| && child < |memory| && node != child && gleft < |memory| && gright < |memory|
      requires node !in [gleft, gright] && child !in [gleft, gright] && (gleft != 0 ==> gleft != gright)
      requires SameBut(since, memory, touched) && {node, child, gleft, gright} <= touched
      modifies `memory
      ensures |memory| == |old(memory)| && SameBut(since, memory, touched)
      ensures memory[node] == WithChild(old(memory)[node], left, gright)
      ensures memory[child] == WithChild(old(memory)[child], 1 - left, gleft)
      ensures gleft != 0 ==> memory[gleft] == old(memory)[gleft].(parent := child, index := 1 - left)
      ensures gright != 0 ==> memory[gright] == old(memory)[gright].(parent := node, index := left)
      ensures forall n :: 0 <= n < |memory| && n !in {node, child, gleft, gright} ==> memory[n] == old(memory)[n]
    {
      hide WithChild, SameBut;
      Attach(node, left, gright, since, touched);
      Attach(child, 1 - left, gleft, since, touched);
    }

    // It goes up above them.
    method Climb(node: nat, left: Side, child: nat, gchild: nat, parent: nat, whichChild: Side, ghost since: Memory,
                 ghost touched: set<nat>)
      requires node < |memory| && child < |memory| && gchild < |memory| && parent < |memory|
      requires node !in [child, gchild, parent] && child !in [gchild, parent] && gchild != parent
      requires SameBut(since, memory, touched) && {node, child, gchild, parent} <= touched
      modifies `memory, `root
      ensures |memory| == |old(memory)| && SameBut(since, memory, touched)
      ensures var m := old(memory);
              var b := m[gchild].balance;
              && memory[node] == m[node].(balance := if b == Heavy(left, 1) then Heavy(left, -1) else 0,
                                          index := 1 - left, parent := gchild)
              && memory[child] == m[child].(balance := if b == Heavy(left, -1) then Heavy(left, 1) else 0,
                                            index := left, parent := gchild)
              && memory[gchild] == WithChild(WithChild(m[gchild], left, child), 1 - left, node).(balance := 0,
                      parent := parent, index := whichChild)
              && (if parent == 0 then root == gchild
                  else root == old(root) && memory[parent] == WithChild(m[parent], whichChild, gchild))
              && (forall n :: 0 <= n < |memory| && n !in {node, child, gchild, parent} ==> memory[n] == m[n])
    {
      hide WithChild, Heavy, SameBut;
      var right: Side := 1 - left;
      var leftHeavy, rightHeavy := Heavy(left, 1), Heavy(left, -1);
      var balance := memory[gchild].balance;
      Put(gchild, WithChild(memory[gchild], left, child), since, touched);
      Put(child, memory[child].(balance := if balance == rightHeavy then leftHeavy else 0, parent := gchild,
                                index := left), since, touched);
      Put(gchild, WithChild(memory[gchild], right, node), since, touched);
      Put(node, memory[node].(balance := if balance == leftHeavy then rightHeavy else 0, parent := gchild,
                              index := right), since, touched);
      Put(gchild, memory[gchild].(balance := 0, parent := parent, index := whichChild), since, touched);
      Hang(parent, whichChild, gchild, since, touched);
    }

    // The grandchild's subtrees move to its two neighbours, and it moves up above them.
    method DoubleRotation(node: nat, left: Side, ghost path: Path, ghost a: Tree, ghost cb: int, ghost s: Tree,
                          gchild: nat, ghost gb: int,
                          ghost t: Tree, ghost nb: int, ghost far: Tree, child: nat)
      requires Shows(memory, root, path,
                     Make(left, Make(left, a, child, cb, Make(left, s, gchild, gb, t)), node, nb, far))
      modifies `memory, `root
      ensures |memory| == |old(memory)|
      ensures Shows(memory, root, path, Double(left, a, child, s, gchild, gb, t, node, far))
    {
      hide Shows, Make, Double, Holds, HoldsPath, Ids, PathIds, Apart, ApartPath, Is, WithChild, ChildOf, SameBut;
      ghost var m, r := memory, root;
      ghost var p, i := Above(path, 0), AboveSide(path, 0);
      MakeHolds(m, left, s, gchild, gb, t, child, 1 - left);
      SingleBefore(m, root, path, left, a, child, cb, Make(left, s, gchild, gb, t), node, nb, far);
      DoubleNodes(m, root, path, left, a, child, cb, s, gchild, gb, t, node, nb, far);
      IsFacts(m[node], left, child, Root(far), p, i, nb);
      IsFacts(m[gchild], left, Root(s), Root(t), child, 1 - left, gb);
      var parent, whichChild := memory[node].parent, memory[node].index;
      var gleft, gright := ChildOf(memory[gchild], left), ChildOf(memory[gchild], 1 - left);
      ghost var touched := {node, child, gchild, gleft, gright, parent};
      SameButNone(m, touched);
      Release(node, left, child, gleft, gright, m, touched);
      Climb(node, left, child, gchild, parent, whichChild, m, touched);
      IsChanged(m[node], left, child, Root(far), p, i, nb, left, Root(t), gchild, 1 - left, 1 - left,
                if gb == Heavy(left, 1) then Heavy(left, -1) else 0);
      IsChanged(m[child], left, Root(a), gchild, node, left, cb, 1 - left, Root(s), gchild, left, left,
                if gb == Heavy(left, -1) then Heavy(left, 1) else 0);
      IsBoth(m[gchild], left, child, node, p, m[node].index, i, 0);
      DoubleInMemory(m, memory, r, root, path, left, a, child, cb, s, gchild, gb, t, node, nb, far);
    }

    // Rotates `node`, which leans by two, and says whether its subtree became lower.
    method Rotation(node: nat, balance: int, ghost path: Path, ghost t: Tree) returns (shrank: bool)
      requires balance == -2 || balance == 2
      requires Shows(memory, root, path, t) && t.Node? && t.id == node
      requires Rotatable(t, LeftOf(balance))
      modifies `memory, `root
      ensures |memory| == |old(memory)|
      ensures Shows(memory, root, path,
                    Rotated(LeftOf(balance), Kid(t, LeftOf(balance)), node, Kid(t, 1 - LeftOf(balance))))
      ensures shrank == (Kid(t, LeftOf(balance)).bal != 0)
    {
      hide Shows, Make, Holds, HoldsPath, Ids, PathIds, Apart, ApartPath, Is, ChildOf, Single, Double;
      var left: Side := if balance < 0 then 0 else 1;
      var rightHeavy := Heavy(left, -1);
      ghost var c, far := Kid(t, left), Kid(t, 1 - left);
      ghost var a, s := Kid(c, left), Kid(c, 1 - left);
      KidsOf(left, t);
      KidsOf(left, c);
      SingleBefore(memory, root, path, left, a, c.id, c.bal, s, node, t.bal, far);
      IsFacts(memory[node], left, c.id, Root(far), Above(path, 0), AboveSide(path, 0), t.bal);
      IsFacts(memory[c.id], left, Root(a), Root(s), node, left, c.bal);
      var child := ChildOf(memory[node], left);
      var childBal := memory[child].balance;
      if childBal != rightHeavy {
        childBal := childBal + rightHeavy;
        SingleRotation(node, left, childBal, path, a, s, t.bal, far, child, c.bal);
        return childBal == 0;
      }
      KidsOf(left, s);
      var gchild := ChildOf(memory[child], 1 - left);
      DoubleRotation(node, left, path, a, c.bal, Kid(s, left), gchild, s.bal, Kid(s, 1 - left), t.bal, far, child);
      return true;
    }

    // Inserts a node at an empty place of the tree, and restores the balance above it.
    method Insert(node: nat, parent: nat, whichChild: Side, ghost place: Path)
      requires Valid() && Plug(place, Leaf) == tree
      requires parent == Above(place, 0) && (parent != 0 ==> whichChild == AboveSide(place, 0))
      requires 0 < node < |memory| && node !in Ids(tree)
      modifies this
      ensures |memory| == |old(memory)|
      ensures Valid() && Inorder(tree) == Lefts(place) + [node] + Rights(place)
    {
      hide Shows, Balanced, Plug, Inorder, Lefts, Rights, Ids, Size, Height, Rotated, Make, WithChild;
      ghost var path, t, h: nat := place, Node(Leaf, node, 0, Leaf), 0;
      ghost var order := Lefts(place) + [node] + Rights(place);
      InsertStart(memory, root, tree, place, node, parent, whichChild);
      numNodes := numNodes + 1;
      memory := memory[node := Cell(0, 0, parent, whichChild, 0)];
      if parent != 0 {
        memory := memory[parent := WithChild(memory[parent], whichChild, node)];
      } else {
        root := node;
      }
      var up, which := parent, whichChild;
      while true
        invariant Growing(memory, root, path, t, h, order)
        invariant up == Above(path, 0) && (up != 0 ==> which == AboveSide(path, 0))
        invariant numNodes == |order| && |memory| == |old(memory)|
        decreases path
      {
        if up == 0 {
          GrownOut(memory, root, path, t, h, order);
          tree := t;
          return;
        }
        GrowUp(memory, root, path, t, h, order);
        var n := up;
        var oldBalance := memory[n].balance;
        var newBalance := oldBalance + Heavy(which, 1);
        if newBalance == 0 {
          memory := memory[n := memory[n].(balance := 0)];
          tree := Plug(path.up, Make(path.side, t, path.id, 0, path.other));
          return;
        }
        if oldBalance != 0 {
          ghost var f := Make(path.side, t, path.id, path.bal, path.other);
          var _ := Rotation(n, newBalance, path.up, f);
          tree := Plug(path.up, Rotated(path.side, t, path.id, path.other));
          GrowRotated(memory, root, path, t, h, order);
          return;
        }
        memory := memory[n := memory[n].(balance := newBalance)];
        up, which := memory[n].parent, memory[n].index;
        h := 1 + Max(h, Height(path.other));
        t := Make(path.side, t, path.id, newBalance, path.other);
        path := path.up;
      }
    }

    // `node` moves to the place of `delete`; `tmp` becomes a copy of what it was.
    method TakeSpot(node: nat, delete: nat, tmp: nat, left: Side)
      requires CanTakeSpot(memory, node, delete, tmp, left)
      modifies `memory, `root
      ensures TookSpot(old(memory), memory, old(root), root, node, delete, tmp, left)
    {
      hide WithChild, ChildOf;
      ghost var m := memory;
      ghost var a, f, p := ChildOf(m[delete], left), ChildOf(m[delete], 1 - left), m[delete].parent;
      ChildSet(m[delete], left, tmp);
      memory := memory[tmp := memory[node]];
      memory := memory[node := memory[delete]];
      if ChildOf(memory[node], left) == node {
        memory := memory[node := WithChild(memory[node], left, tmp)];
      }
      LinkAll(node, left);
    }

    // The parent and the children of a node get to know it.
    method LinkAll(node: nat, left: Side)
      requires 0 < node < |memory|
      requires var a, f, p := ChildOf(memory[node], left), ChildOf(memory[node], 1 - left), memory[node].parent;
               && 0 < a < |memory| && 0 < f < |memory| && p < |memory| && a != f && node !in [a, f, p] && p !in [a, f]
      modifies `memory, `root
      ensures |memory| == |old(memory)|
      ensures var m := old(memory);
              var a, f, p := ChildOf(m[node], left), ChildOf(m[node], 1 - left), m[node].parent;
              && memory[a] == m[a].(parent := node) && memory[f] == m[f].(parent := node)
              && (if p == 0 then root == node
                  else root == old(root) && memory[p] == WithChild(m[p], m[node].index, node))
              && (forall n :: 0 <= n < |m| && n != a && n != f && (p == 0 || n != p) ==> memory[n] == m[n])
    {
      hide WithChild, ChildOf;
      var parent := memory[node].parent;
      if parent != 0 {
        memory := memory[parent := WithChild(memory[parent], memory[node].index, node)];
      } else {
        root := node;
      }
      var near, far := ChildOf(memory[node], left), ChildOf(memory[node], 1 - left);
      memory := memory[near := memory[near].(parent := node)];
      memory := memory[far := memory[far].(parent := node)];
    }

    // `tmp` takes the place of the node it is a copy of. It has a parent and at most one child.
    method LeaveBehind(tmp: nat)
      requires CanLeaveBehind(memory, tmp)
      modifies `memory
      ensures LeftBehind(old(memory), memory, tmp)
    {
      var parent := memory[tmp].parent;
      memory := memory[parent := WithChild(memory[parent], memory[tmp].index, tmp)];
      var c := OnlyChild(memory[tmp]);
      if c != 0 {
        memory := memory[c := memory[c].(parent := tmp)];
      }
    }

    // The node next in order on the given side: down once to that side, then as far as possible
    // to the other.
    method Neighbour(delete: nat, left: Side, ghost p: Path, ghost t: Tree)
      returns (node: nat, ghost q: Path, ghost s: Tree)
      requires Shows(memory, root, p, t) && t.Node? && t.id == delete && Kid(t, left).Node?
      ensures Along(q, 1 - left) && Plug(q, s) == Kid(t, left) && s.Node? && s.id == node && Kid(s, 1 - left).Leaf?
      ensures Shows(memory, root, Compose(q, Step(left, delete, t.bal, Kid(t, 1 - left), p)), s)
      ensures node == EndOn(Inorder(Kid(t, left)), 1 - left)
    {
      hide Shows, Make, Holds, Inorder, EndOn;
      var right: Side := 1 - left;
      ghost var base := Step(left, delete, t.bal, Kid(t, 1 - left), p);
      ShowsDown(memory, root, p, t, left);
      q, s := Top, Kid(t, left);
      node := ChildOf(memory[delete], left);
      ShowsDown(memory, root, Compose(q, base), s, right);
      while ChildOf(memory[node], right) != 0
        invariant Along(q, right) && Plug(q, s) == Kid(t, left) && s.Node? && s.id == node && 0 < node < |memory|
        invariant Shows(memory, root, Compose(q, base), s)
                  && (ChildOf(memory[node], right) != 0 <==> Kid(s, right).Node?)
        decreases s
      {
        ShowsDown(memory, root, Compose(q, base), s, right);
        KidsOf(right, s);
        q, s := Step(right, s.id, s.bal, Kid(s, left), q), Kid(s, right);
        node := ChildOf(memory[node], right);
        ShowsDown(memory, root, Compose(q, base), s, right);
      }
      EndAlong(q, s, right);
    }

    // Takes a node with at most one child out, leaving the child's subtree in its place.
    method Splice(delete: nat, ghost path: Path, ghost t: Tree) returns (parent: nat, whichChild: Side, ghost k: Tree)
      requires Shows(memory, root, path, t) && t.Node? && t.id == delete && (t.left.Leaf? || t.right.Leaf?)
      modifies `memory, `root
      ensures |memory| == |old(memory)|
      ensures k == if t.left.Leaf? then t.right else t.left
      ensures Shows(memory, root, path, k)
      ensures parent == Above(path, 0) && (path.Step? ==> whichChild == path.side && parent != 0)
    {
      hide Shows, Make, Holds, HoldsPath, Ids, Apart, PathIds, ApartPath, WithChild;
      ghost var m, r := memory, root;
      k := if t.left.Leaf? then t.right else t.left;
      ShowsDown(memory, root, path, t, 0);
      ShowsDown(memory, root, path, t, 1);
      SpliceAddresses(memory, root, path, t, k);
      parent, whichChild := memory[delete].parent, memory[delete].index;
      var node := if memory[delete].left != 0 then memory[delete].left else memory[delete].right;
      if node != 0 {
        memory := memory[node := memory[node].(parent := parent, index := whichChild)];
      }
      if parent == 0 {
        root := node;
      } else {
        memory := memory[parent := WithChild(memory[parent], whichChild, node)];
      }
      SplicedOut(m, memory, r, root, path, t, k, whichChild);
    }

    // Walks up from a subtree that became lower, adjusting balances and rotating, for as long as
    // the height keeps changing.
    method Rebalance(start: nat, startSide: Side, ghost place: Path, ghost s: Tree, ghost h0: nat,
                     ghost order: seq<nat>)
      requires Shrinking(memory, root, place, s, h0, order)
      requires start == Above(place, 0) && (place.Step? ==> startSide == place.side && start != 0)
      modifies `memory, `root, `tree
      ensures |memory| == |old(memory)|
      ensures Done(memory, root, tree, order)
    {
      hide Shows, Balanced, AvlPath, Plug, Inorder, Lefts, Rights, Ids, Size, Height, Rotated, Make, WithChild, Heavy;
      var parent, whichChild := start, startSide;
      ghost var path, t, h: nat := place, s, h0;
      while parent != 0
        invariant Shrinking(memory, root, path, t, h, order)
        invariant parent == Above(path, 0) && (path.Step? ==> whichChild == path.side && parent != 0)
        invariant |memory| == |old(memory)|
        decreases path
      {
        ShrinkUp(memory, root, path, t, h, order);
        var node := parent;
        var oldBalance := memory[node].balance;
        var newBalance := oldBalance - Heavy(whichChild, 1);
        parent, whichChild := memory[node].parent, memory[node].index;
        if oldBalance == 0 {
          memory := memory[node := memory[node].(balance := newBalance)];
          tree := Plug(path.up, Make(path.side, t, path.id, newBalance, path.other));
          return;
        }
        if newBalance == 0 {
          memory := memory[node := memory[node].(balance := newBalance)];
          t := Make(path.side, t, path.id, newBalance, path.other);
        } else {
          ghost var f := Make(path.side, t, path.id, path.bal, path.other);
          var shrank := Rotation(node, newBalance, path.up, f);
          ShrinkRotated(memory, root, path, t, h, order);
          if !shrank {
            tree := Plug(path.up, Rotated(1 - path.side, path.other, path.id, t));
            return;
          }
          t := Rotated(1 - path.side, path.other, path.id, t);
        }
        h := 1 + Max(h, Height(path.other));
        path := path.up;
      }
      ShrunkOut(memory, root, path, t, h, order);
      tree := t;
    }

    // Swaps a node with two children for its neighbour on the taller side; `tmp` stands in for it
    // where the neighbour was, and has at most one child there.
    method SwapOut(data: nat, tmp: nat, ghost at: Path, ghost low: Tree) returns (ghost z: Parts)
      requires Shows(memory, root, at, low) && Balanced(tree) && Plug(at, low) == tree
      requires low.Node? && low.id == data && low.left.Node? && low.right.Node?
      requires 0 < tmp < |memory| && tmp !in Ids(tree)
      modifies `memory, `root
      ensures |memory| == |old(memory)|
      ensures z.d == data && Shows(memory, root, z.Whole(z.node), z.Low(tmp))
      ensures var t := z.Low(tmp);
              && t.Node? && t.id == tmp && (t.left.Leaf? || t.right.Leaf?)
              && z.k == if t.left.Leaf? then t.right else t.left
      ensures var o := Lefts(z.Whole(z.node)) + Inorder(z.k) + Rights(z.Whole(z.node));
              Dropped(Inorder(tree), o, data) && |Inorder(tree)| == |o| + 1
      ensures Balanced(z.k) && AvlPath(z.Whole(z.node), Height(z.k) + 1)
    {
      hide Shows, Balanced, AvlPath, Plug, Inorder, Lefts, Rights, Size, Height, Make, WithChild, ChildOf, Heavy,
        Compose, Dropped, Ids;
      hide CanTakeSpot, TookSpot, CanLeaveBehind, LeftBehind, Outside;
      ShowsDown(memory, root, at, low, 0);
      var left: Side := if memory[data].balance <= 0 then 0 else 1;
      var node;
      ghost var q, s;
      node, q, s := Neighbour(data, left, at, low);
      z := Parts(at, q, left, data, low.bal, Kid(low, 1 - left), node, s.bal, Kid(s, left));
      PartsOf(tree, at, low, s, z);
      OutsideOf(tree, z, tmp);
      SwapAddresses(memory, root, z, tmp);
      ghost var m, r := memory, root;
      TakeSpot(node, data, tmp, left);
      ghost var m1 := memory;
      SameLength(m, m1, r, root, node, data, tmp, left);
      MayLeaveBehind(m, m1, r, root, z, tmp);
      LeaveBehind(tmp);
      Swapped(m, m1, memory, r, root, z, tmp);
      LowChild(z, tmp);
    }

    // Removes a node. `tmp` is the address of a node outside the tree that stands in for it.
    method Remove(data: nat, tmp: nat)
      requires Valid() && data in Ids(tree) && 0 < tmp < |memory| && tmp !in Ids(tree)
      modifies this
      ensures |memory| == |old(memory)|
      ensures Valid() && Dropped(old(Inorder(tree)), Inorder(tree), data)
    {
      hide Shows, Balanced, AvlPath, Plug, Inorder, Lefts, Rights, Size, Height, Make, WithChild, ChildOf, Heavy,
        Compose, Dropped;
      ghost var at, low := Locate(tree, data);
      SizeIsLength(tree);
      ShowsPlug(memory, root, at, low);
      ShowsDown(memory, root, at, low, 0);
      ShowsDown(memory, root, at, low, 1);
      SidesOf(memory[data]);
      ghost var before := Inorder(tree);
      ghost var k := if low.left.Leaf? then low.right else low.left;
      var delete := data;
      if memory[data].left != 0 && memory[data].right != 0 {
        ghost var z := SwapOut(data, tmp, at, low);
        delete := tmp;
        at, low, k := z.Whole(z.node), z.Low(tmp), z.k;
      } else {
        DroppedHere(tree, at, low, k);
      }
      numNodes := numNodes - 1;
      var parent, whichChild;
      ghost var k';
      parent, whichChild, k' := Splice(delete, at, low);
      ghost var order := Lefts(at) + Inorder(k) + Rights(at);
      if parent == 0 {
        tree := k;
        DoneAtTop(memory, root, at, k, order);
        return;
      }
      Rebalance(parent, whichChild, at, k, Height(k) + 1, order);
    }

    // Looks a key up. If no node has it, `prev` and `child` are the empty place where a node
    // with it belongs.
    method Find(value: int) returns (node: nat, prev: nat, child: Side, ghost place: Path)
      requires Valid() && Sorted(key, Inorder(tree))
      ensures node != 0 ==> node in Ids(tree) && key(node) == value
      ensures node == 0 ==>
                && Plug(place, Leaf) == tree && prev == Above(place, 0)
                && (place.Step? ==> child == place.side && prev != 0)
                && AllBelow(key, Lefts(place), value) && AllAbove(key, Rights(place), value)
    {
      hide Shows, Balanced, Inorder, Lefts, Rights, Ids, Size, Height, Make, Sorted, Plug;
      ghost var t := tree;
      node, prev, child, place := root, 0, 0, Top;
      FindStart(key, memory, root, tree, value);
      while node != 0
        invariant Shows(memory, root, place, t) && node == Root(t) && Plug(place, t) == tree
        invariant prev == Above(place, 0) && (place.Step? ==> child == place.side && prev != 0)
        invariant AllBelow(key, Lefts(place), value) && AllAbove(key, Rights(place), value)
        decreases t
      {
        prev := node;
        ShowsDown(memory, root, place, t, 0);
        ShowsDown(memory, root, place, t, 1);
        if value == key(node) {
          InTree(place, t);
          return;
        }
        child := if value < key(node) then 0 else 1;
        Narrowed(key, place, t, value, child);
        place, t := Step(child, t.id, t.bal, Kid(t, 1 - child), place), Kid(t, child);
        node := ChildOf(memory[node], child);
      }
      RootOfShown(memory, root, place, t);
    }

    // Adds a node, unless one with its key is there already.
    method Add(node: nat)
      requires Valid() && Sorted(key, Inorder(tree)) && 0 < node < |memory| && node !in Ids(tree)
      modifies this
      ensures |memory| == |old(memory)|
      ensures Valid() && Sorted(key, Inorder(tree))
      ensures if exists x :: x in old(Inorder(tree)) && key(x) == key(node) then Inorder(tree) == old(Inorder(tree))
              else Dropped(Inorder(tree), old(Inorder(tree)), node)
    {
      hide Shows, Balanced, Lefts, Rights, Size, Height, Make, Plug, Inorder;
      IdsInorder(tree);
      var found, prev, child;
      ghost var place;
      found, prev, child, place := Find(key(node));
      if found != 0 {
        return;
      }
      AddOrder(key, tree, place, node);
      Insert(node, prev, child, place);
    }

    // The node at one end of the order.
    method EndMost(side: Side) returns (prev: nat)
      requires Valid()
      ensures prev == EndOn(Inorder(tree), side)
    {
      hide Shows, Balanced, Inorder, Ids, Size, Height, Make, Plug;
      ghost var q, t, s := Top, tree, tree;
      var node := root;
      prev := 0;
      FindStart(key, memory, root, tree, 0);
      while node != 0
        invariant Shows(memory, root, q, t) && node == Root(t) && Plug(q, t) == tree && Along(q, side)
        invariant prev == Above(q, 0) && (q.Step? ==> prev != 0)
        decreases t
      {
        prev := node;
        ShowsDown(memory, root, q, t, side);
        PlugDown(q, t, side);
        q, t := Step(side, t.id, t.bal, Kid(t, 1 - side), q), Kid(t, side);
        node := ChildOf(memory[node], side);
      }
      RootOfShown(memory, root, q, t);
      EndReached(tree, q, side);
    }

    method First() returns (node: nat)
      requires Valid()
      ensures node == EndOn(Inorder(tree), 0)
    {
      node := EndMost(0);
    }

    method Last() returns (node: nat)
      requires Valid()
      ensures node == EndOn(Inorder(tree), 1)
    {
      node := EndMost(1);
    }

    // The node before (left 0) or after (left 1) a given one, or null at the end.
    method Walk(oldNode: nat, left: Side, ghost at: Path, ghost here: Tree) returns (node: nat, ghost i: nat)
      requires Valid() && Plug(at, here) == tree && here.Node? && here.id == oldNode
      ensures i < |Inorder(tree)| && Inorder(tree)[i] == oldNode && node == Beside(Inorder(tree), i, left)
      ensures Kid(here, left).Leaf? ==> node == Nearest(at, left)
    {
      hide Shows, Balanced, Inorder, Lefts, Rights, Size, Height, Make, Plug, Beside, Compose;
      ghost var path, t := at, here;
      ShowsPlug(memory, root, path, t);
      ShowsDown(memory, root, path, t, left);
      i := BesideNode(path, t, left);
      if ChildOf(memory[oldNode], left) != 0 {
        ghost var q, s;
        node, q, s := Neighbour(oldNode, left, path, t);
      } else {
        ghost var near := Nearest(path, left);
        node := oldNode;
        while true
          invariant Shows(memory, root, path, t) && t.Node? && node == t.id && Nearest(path, left) == near
          decreases path
        {
          ShowsDown(memory, root, path, t, left);
          var wasChild := memory[node].index;
          node := memory[node].parent;
          NearestUp(path, left);
          if node == 0 {
            return;
          }
          if wasChild == 1 - left {
            return;
          }
          ShowsUp(memory, root, path, t);
          MakeKids(path.side, t, path.id, path.bal, path.other);
          t := Make(path.side, t, path.id, path.bal, path.other);
          path := path.up;
        }
      }
    }

    // The node nearest to an empty place, on the given side of it.
    method NearestTo(node: nat, child: Side, direction: Side, ghost place: Path) returns (data: nat)
      requires Valid() && Plug(place, Leaf) == tree
      requires node == Above(place, 0) && (place.Step? ==> child == place.side && node != 0)
      ensures data == Nearest(place, direction)
    {
      hide Shows, Balanced, Inorder, Lefts, Rights, Size, Height, Make, Plug, Beside;
      if node == 0 {
        NearestUp(place, direction);
        return 0;
      }
      NearestUp(place, direction);
      if child != direction {
        return node;
      }
      MakeKids(child, Leaf, place.id, place.bal, place.other);
      PlugStep(place, Leaf);
      ghost var i;
      data, i := Walk(node, direction, place.up, Make(child, Leaf, place.id, place.bal, place.other));
    }

    // Inserts a node right before (0) or right after (1) the node `here`.
    method InsertHere(newNode: nat, here: nat, direction: Side, ghost at: Path, ghost t: Tree)
      requires Valid() && Plug(at, t) == tree && t.Node? && t.id == here
      requires 0 < newNode < |memory| && newNode !in Ids(tree)
      modifies this
      ensures |memory| == |old(memory)|
      ensures Valid() && PutBeside(old(Inorder(tree)), Inorder(tree), newNode, here, direction)
    {
      hide Shows, Balanced, Inorder, Lefts, Rights, Size, Height, Make, Plug, PutBeside, Compose, Ids;
      var node, child := here, direction;
      ghost var place := Step(direction, t.id, t.bal, Kid(t, 1 - direction), at);
      ShowsPlug(memory, root, at, t);
      ShowsDown(memory, root, at, t, direction);
      if ChildOf(memory[node], child) != 0 {
        ghost var q, s;
        node, q, s := Neighbour(here, direction, at, t);
        child := 1 - child;
        ShowsDown(memory, root, Compose(q, place), s, child);
        PlaceBeyond(at, t, q, s, direction, newNode);
        place := Step(child, s.id, s.bal, Kid(s, direction), Compose(q, place));
      } else {
        PlaceHere(at, t, direction, newNode);
      }
      Insert(newNode, node, child, place);
    }

    // ----- Destroying the tree

    // Between two calls: all that is left of the tree around the node returned last. Nothing is
    // said of that node itself, nor of those returned before it: the caller may have freed them.
    ghost predicate Sweeping(cookie: Cookie, place: Path, last: nat)
      reads this
    {
      && 0 < last < |memory| && root != 0 && D.Around(memory, root, place, last)
      && D.Swept(place) && numNodes == 1 + PathSize(place)
      && cookie.Cookie? && cookie.parent == Above(place, 0)
      && (place.Step? ==> cookie.child == place.side && cookie.parent != 0)
    }

    // After the last call.
    ghost predicate Destroyed(cookie: Cookie)
      reads this
    {
      cookie.Cookie? && cookie.parent == 0 && root == 0 && numNodes == 0
    }

    // The node found, or its right child if it has one, is the next to return.
    method CheckRightSide(node: nat, ghost path: Path, ghost t: Tree)
      returns (next: nat, cookie: Cookie, ghost place: Path)
      requires Shows(memory, root, path, t) && t.Node? && t.id == node && t.left.Leaf? && Balanced(t) && D.Swept(path)
      requires numNodes == Size(t) + PathSize(path)
      ensures Sweeping(cookie, place, next)
      ensures [next] + D.Rest(place) == D.Todo(path, t)
    {
      hide Shows, Balanced, Size, PathSize, D.Around;
      next := node;
      place := path;
      ghost var last := t;
      ShowsDown(memory, root, path, t, 1);
      D.GoRight(path, t);
      if ChildOf(memory[node], 1) != 0 {
        next := ChildOf(memory[node], 1);
        place, last := Step(1, t.id, t.bal, Leaf, path), t.right;
      }
      D.SingleTodo(place, last);
      D.ShownAround(memory, root, place, last);
      ShowsDown(memory, root, place, last, 0);
      var parent := memory[next].parent;
      cookie := if parent == 0 then Cookie(0, 1) else Cookie(parent, memory[next].index);
    }

    // Down the left children.
    method GoLeftmost(start: nat, ghost at: Path, ghost from: Tree) returns (node: nat, ghost path: Path, ghost t: Tree)
      requires Shows(memory, root, at, from) && from.Node? && from.id == start && Balanced(from) && D.Swept(at)
      ensures Shows(memory, root, path, t) && t.Node? && t.id == node && t.left.Leaf? && Balanced(t) && D.Swept(path)
      ensures D.Todo(path, t) == D.Todo(at, from) && Size(t) + PathSize(path) == Size(from) + PathSize(at)
    {
      hide Shows, Balanced, Size, PathSize, D.Todo, D.Swept;
      node, path, t := start, at, from;
      ShowsDown(memory, root, path, t, 0);
      while ChildOf(memory[node], 0) != 0
        invariant Shows(memory, root, path, t) && t.Node? && t.id == node && Balanced(t) && D.Swept(path)
        invariant 0 < node < |memory| && (ChildOf(memory[node], 0) != 0 <==> t.left.Node?)
        invariant D.Todo(path, t) == D.Todo(at, from) && Size(t) + PathSize(path) == Size(from) + PathSize(at)
        decreases t
      {
        ShowsDown(memory, root, path, t, 0);
        D.GoLeft(path, t);
        path, t := Step(0, t.id, t.bal, t.right, path), t.left;
        node := ChildOf(memory[node], 0);
        ShowsDown(memory, root, path, t, 0);
      }
    }

    // The first call: the leftmost node, or its right child.
    method DestroyFirst() returns (node: nat, cookie: Cookie, ghost place: Path)
      requires Valid()
      ensures var todo := D.Postorder(tree);
              if todo == [] then node == 0 && Destroyed(cookie)
              else node == todo[0] && Sweeping(cookie, place, node) && D.Rest(place) == todo[1..]
    {
      hide Shows, Balanced, Size, PathSize, D.Swept, D.Around;
      node, cookie, place := 0, Cookie(0, 1), Top;
      FindStart(key, memory, root, tree, 0);
      if root == 0 {
        RootOfShown(memory, root, Top, tree);
        EmptyTree();
        return;
      }
      StartSweep(tree);
      ghost var path, t;
      node, path, t := GoLeftmost(root, Top, tree);
      node, cookie, place := CheckRightSide(node, path, t);
    }

    // One call: returns the next node, or null when all have been returned, and then the tree is
    // empty. Of the nodes it changes only the parent of the one returned last.
    method DestroyNodes(cookie: Cookie, ghost place: Path, ghost last: nat)
      returns (node: nat, cookie': Cookie, ghost place': Path)
      requires if cookie.Fresh? then Valid() else Sweeping(cookie, place, last) || Destroyed(cookie)
      modifies `memory, `root, `numNodes
      ensures var todo := if cookie.Fresh? then D.Postorder(tree) else if old(root) == 0 then [] else D.Rest(place);
              if todo == [] then node == 0 && Destroyed(cookie')
              else node == todo[0] && Sweeping(cookie', place', node) && D.Rest(place') == todo[1..]
      ensures |memory| == |old(memory)|
      ensures forall n :: 0 <= n < |memory| && (cookie.Cookie? && cookie.parent != 0 ==> n != cookie.parent) ==>
                memory[n] == old(memory)[n]
    {
      hide Shows, Balanced, Inorder, Size, PathSize, Make, WithChild, D.Postorder, D.Rest, D.Swept, D.Around;
      node, cookie', place' := 0, Cookie(0, 1), Top;
      if cookie.Fresh? {
        node, cookie', place' := DestroyFirst();
        return;
      }
      if cookie.parent == 0 {
        if root != 0 {
          root := 0;
          numNodes := 0;
          AllVisited();
        }
        return;
      }
      D.GoUp(place);
      D.CutOff(memory, root, place, last);
      var parent, child := cookie.parent, cookie.child;
      memory := memory[parent := WithChild(memory[parent], child, 0)];
      numNodes := numNodes - 1;
      ghost var up := Make(place.side, Leaf, place.id, place.bal, place.other);
      MakeKids(place.side, Leaf, place.id, place.bal, place.other);
      ShowsUp(memory, root, place, Leaf);
      ShowsDown(memory, root, place.up, up, 1);
      if child == 1 || ChildOf(memory[parent], 1) == 0 {
        node := parent;
        place' := place.up;
        D.SingleTodo(place', up);
        D.ShownAround(memory, root, place', up);
        var above := memory[parent].parent;
        cookie' := if above == 0 then Cookie(0, 1) else Cookie(above, memory[parent].index);
        return;
      }
      node := ChildOf(memory[parent], 1);
      ghost var path, t := Step(1, place.id, place.bal, Leaf, place.up), place.other;
      var leftmost;
      leftmost, path, t := GoLeftmost(node, path, t);
      node, cookie', place' := CheckRightSide(leftmost, path, t);
    }

    // The caller frees the node returned last: what becomes of it is no concern of the tree.
    method Free(node: nat, contents: Cell, ghost cookie: Cookie, ghost place: Path)
      requires Sweeping(cookie, place, node)
      modifies `memory
      ensures Sweeping(cookie, place, node) && memory == old(memory)[node := contents]
    {
      hide PathSize, D.Swept;
      memory := memory[node := contents];
      HoldsPathFrame(old(memory), memory, root, root, place, node, 0, 0);
    }

    // The loop that empties a tree: every node once, children before parents, each freed before
    // the next is asked for, and not touched again.
    method DestroyAll(freed: nat -> Cell) returns (nodes: seq<nat>)
      requires Valid()
      modifies `memory, `root, `numNodes
      ensures nodes == D.Postorder(tree) && root == 0 && numNodes == 0
      ensures |memory| == |old(memory)| && forall n :: n in nodes ==> n < |memory| && memory[n] == freed(n)
    {
      hide Shows, Balanced, Inorder, Size, PathSize, D.Postorder, D.Rest, D.Swept, D.Around;
      var node, cookie;
      ghost var place;
      nodes := [];
      D.VisitedOnce(memory, root, tree);
      node, cookie, place := DestroyNodes(Fresh, Top, 0);
      while node != 0
        invariant node != 0 ==> Sweeping(cookie, place, node) && nodes + [node] + D.Rest(place) == D.Postorder(tree)
        invariant node == 0 ==> nodes == D.Postorder(tree) && Destroyed(cookie)
        invariant |memory| == |old(memory)| && forall n :: n in nodes ==> n < |memory| && memory[n] == freed(n)
        decreases |D.Postorder(tree)| - |nodes|
      {
        D.NotReturnedYet(nodes, node, place);
        Free(node, freed(node), cookie, place);
        nodes := nodes + [node];
        ghost var rest := D.Rest(place);
        node, cookie, place := DestroyNodes(cookie, place, node);
        assert rest != [] ==> rest == [rest[0]] + rest[1..];
      }
    }

    // An empty tree in the given memory.
    constructor (memory: Memory, key: KeyOf)
      ensures Valid() && tree == Leaf && this.memory == memory && this.key == key
    {
      this.memory := memory;
      this.key := key;
      root := 0;
      numNodes := 0;
      tree := Leaf;
    }
  }

  // Where the destruction stands: not begun, or the parent of the node returned last and on
  // which side of it that node was.
  datatype Cookie = Fresh | Cookie(parent: nat, child: Side)

  lemma {:induction false} StartSweep(t: Tree)
    ensures D.Swept(Top) && D.Todo(Top, t) == D.Postorder(t) && PathSize(Top) == 0
  {
  }

  lemma {:induction false} AllVisited()
    ensures D.Rest(Top) == []
  {
  }
}

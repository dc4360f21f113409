/**
 Balanced search trees as values: height, order, the path from a place in the tree up to the
 root, and what a rotation does.
 */
module AvlShape {

  // 0 is left, 1 is right.
  type Side = s: int | 0 <= s <= 1

  // A node holds its address and the balance stored with it.
  datatype Tree = Leaf | Node(left: Tree, id: nat, bal: int, right: Tree)

  function Max(a: int, b: int): int { if a < b then b else a }

  function Height(t: Tree): nat {
    if t.Leaf? then 0 else 1 + Max(Height(t.left), Height(t.right))
  }

  function Size(t: Tree): nat {
    if t.Leaf? then 0 else Size(t.left) + 1 + Size(t.right)
  }

  function Inorder(t: Tree): seq<nat> {
    if t.Leaf? then [] else Inorder(t.left) + [t.id] + Inorder(t.right)
  }

  // Stored balances are height differences, and none exceeds one.
  predicate Balanced(t: Tree) {
    t.Node? ==> Balanced(t.left) && Balanced(t.right) && t.bal == Height(t.right) - Height(t.left) && -1 <= t.bal <= 1
  }

  // ----- Either side

  // The child on the given side, and the node with the given children there and opposite.
  function Kid(t: Tree, side: Side): Tree
    requires t.Node?
  {
    if side == 0 then t.left else t.right
  }

  function Make(side: Side, near: Tree, id: nat, bal: int, far: Tree): Tree {
    if side == 0 then Node(near, id, bal, far) else Node(far, id, bal, near)
  }

  lemma {:induction false} MakeKids(side: Side, near: Tree, id: nat, bal: int, far: Tree)
    ensures var t := Make(side, near, id, bal, far);
            t.Node? && Kid(t, side) == near && Kid(t, 1 - side) == far && t.id == id && t.bal == bal
  {
  }

  lemma {:induction false} MakeOrder(side: Side, near: Tree, id: nat, bal: int, far: Tree)
    ensures var t := Make(side, near, id, bal, far);
            && Inorder(t) == (if side == 0 then Inorder(near) + [id] + Inorder(far)
                              else Inorder(far) + [id] + Inorder(near))
            && Size(t) == Size(near) + 1 + Size(far)
  {
  }

  lemma {:induction false} MakeAvl(side: Side, near: Tree, id: nat, bal: int, far: Tree)
    ensures var t := Make(side, near, id, bal, far);
            && Height(t) == 1 + Max(Height(near), Height(far))
            && (Balanced(t) <==>
                  && Balanced(near) && Balanced(far)
                  && bal == Heavy(side, Height(near) - Height(far)) && -1 <= bal <= 1)
  {
  }

  // A node seen from either side.
  lemma {:induction false} KidsOf(side: Side, t: Tree)
    requires t.Node?
    ensures t == Make(side, Kid(t, side), t.id, t.bal, Kid(t, 1 - side))
  {
  }

  // The balance of a node whose child on `side` is taller by d.
  function Heavy(side: Side, d: int): int {
    if side == 0 then -d else d
  }

  // ----- Places in a tree

  // The way from a place up to the root: on which side of each node it lies, and what hangs on
  // the other side.
  datatype Path = Top | Step(side: Side, id: nat, bal: int, other: Tree, up: Path)

  function Plug(path: Path, t: Tree): Tree {
    match path
    case Top => t
    case Step(side, id, bal, other, up) => Plug(up, Make(side, t, id, bal, other))
  }

  // What comes before and after the place, in order.
  function Lefts(path: Path): seq<nat> {
    match path
    case Top => []
    case Step(side, id, _, other, up) => if side == 0 then Lefts(up) else Lefts(up) + Inorder(other) + [id]
  }

  function Rights(path: Path): seq<nat> {
    match path
    case Top => []
    case Step(side, id, _, other, up) => if side == 0 then [id] + Inorder(other) + Rights(up) else Rights(up)
  }

  function PathSize(path: Path): nat {
    match path
    case Top => 0
    case Step(_, _, _, other, up) => 1 + Size(other) + PathSize(up)
  }

  // The path belongs to a balanced tree that has a subtree of height h in this place.
  predicate AvlPath(path: Path, h: nat) {
    match path
    case Top => true
    case Step(side, _, bal, other, up) =>
      Balanced(other) && bal == Heavy(side, h - Height(other)) && -1 <= bal <= 1
        && AvlPath(up, 1 + Max(h, Height(other)))
  }

  lemma {:induction false} PlugInorder(path: Path, t: Tree)
    ensures Inorder(Plug(path, t)) == Lefts(path) + Inorder(t) + Rights(path)
    ensures Size(Plug(path, t)) == Size(t) + PathSize(path)
    decreases path
  {
    hide Inorder, Size, Make;
    match path
    case Top =>
    case Step(side, id, bal, other, up) =>
      MakeOrder(side, t, id, bal, other);
      PlugInorder(up, Make(side, t, id, bal, other));
      if side == 0 {
        assert Lefts(up) + (Inorder(t) + [id] + Inorder(other)) + Rights(up)
               == Lefts(up) + Inorder(t) + ([id] + Inorder(other) + Rights(up));
      } else {
        assert Lefts(up) + (Inorder(other) + [id] + Inorder(t)) + Rights(up)
               == (Lefts(up) + Inorder(other) + [id]) + Inorder(t) + Rights(up);
      }
  }

  lemma {:induction false} SizeIsLength(t: Tree)
    ensures Size(t) == |Inorder(t)|
  {
    if t.Node? {
      SizeIsLength(t.left);
      SizeIsLength(t.right);
    }
  }

  lemma {:induction false} PlugAvl(path: Path, t: Tree)
    ensures Balanced(Plug(path, t)) <==> Balanced(t) && AvlPath(path, Height(t))
    decreases path
  {
    hide Balanced, Height, Make;
    match path
    case Top =>
    case Step(side, id, bal, other, up) =>
      MakeAvl(side, t, id, bal, other);
      PlugAvl(up, Make(side, t, id, bal, other));
  }

  // ----- Rotation

  // A single rotation: `child`, with subtrees a and m, comes up and `id` goes down to its other
  // side.
  function Single(left: Side, a: Tree, child: nat, bal: int, m: Tree, id: nat, far: Tree): Tree {
    Make(left, a, child, bal, Make(left, m, id, -bal, far))
  }

  // A double rotation: the grandchild `g`, with subtrees m and n, comes up between the two.
  function Double(left: Side, a: Tree, child: nat, m: Tree, g: nat, bal: int, n: Tree, id: nat, far: Tree): Tree {
    Make(left,
         Make(left, a, child, if bal == Heavy(left, -1) then Heavy(left, 1) else 0, m),
         g, 0,
         Make(left, n, id, if bal == Heavy(left, 1) then Heavy(left, -1) else 0, far))
  }

  // The rotation of a node whose child on `left` has become too tall. The stored balance of
  // the node itself plays no part.
  function Rotated(left: Side, child: Tree, id: nat, far: Tree): Tree
    requires child.Node? && (child.bal == Heavy(left, -1) ==> Kid(child, 1 - left).Node?)
  {
    var a, b := Kid(child, left), Kid(child, 1 - left);
    if child.bal != Heavy(left, -1) then
      Single(left, a, child.id, child.bal + Heavy(left, -1), b, id, far)
    else
      Double(left, a, child.id, Kid(b, left), b.id, b.bal, Kid(b, 1 - left), id, far)
  }

  lemma {:induction false} SingleIsBalanced(left: Side, a: Tree, child: nat, bal: int, m: Tree, id: nat, far: Tree)
    requires Balanced(Make(left, a, child, bal, m)) && Balanced(far)
             && Height(Make(left, a, child, bal, m)) == Height(far) + 2
    requires bal != Heavy(left, -1)
    ensures var r := Single(left, a, child, bal + Heavy(left, -1), m, id, far);
            Balanced(r) && Height(r) == Height(far) + (if bal != 0 then 2 else 3)
  {
    hide Balanced, Height, Make;
    MakeAvl(left, a, child, bal, m);
    var c := bal + Heavy(left, -1);
    MakeAvl(left, m, id, -c, far);
    MakeAvl(left, a, child, c, Make(left, m, id, -c, far));
  }

  lemma {:induction false} DoubleIsBalanced(left: Side, a: Tree, child: nat, m: Tree, g: nat, bal: int, n: Tree,
                                            id: nat, far: Tree)
    requires var b := Make(left, m, g, bal, n);
             var c := Make(left, a, child, Heavy(left, -1), b);
             Balanced(c) && Balanced(far) && Height(c) == Height(far) + 2
    ensures var r := Double(left, a, child, m, g, bal, n, id, far);
            Balanced(r) && Height(r) == Height(far) + 2
  {
    hide Balanced, Height, Make;
    var b := Make(left, m, g, bal, n);
    MakeAvl(left, m, g, bal, n);
    MakeAvl(left, a, child, Heavy(left, -1), b);
    var x, y := if bal == Heavy(left, -1) then Heavy(left, 1) else 0,
                if bal == Heavy(left, 1) then Heavy(left, -1) else 0;
    MakeAvl(left, a, child, x, m);
    MakeAvl(left, n, id, y, far);
    MakeAvl(left, Make(left, a, child, x, m), g, 0, Make(left, n, id, y, far));
  }

  // A rotation restores the balance, and makes the subtree one lower exactly when the child was
  // not in balance.
  lemma {:induction false} RotatedIsBalanced(left: Side, child: Tree, id: nat, far: Tree)
    requires Balanced(child) && Balanced(far) && Height(child) == Height(far) + 2
    ensures child.Node? && (child.bal == Heavy(left, -1) ==> Kid(child, 1 - left).Node?)
    ensures var r := Rotated(left, child, id, far);
            Balanced(r) && Height(r) == Height(far) + (if child.bal != 0 then 2 else 3)
  {
    hide Balanced, Height, Make, Single, Double;
    NonemptyIsNode(child);
    KidsOf(left, child);
    var a, b := Kid(child, left), Kid(child, 1 - left);
    if child.bal != Heavy(left, -1) {
      SingleIsBalanced(left, a, child.id, child.bal, b, id, far);
    } else {
      MakeAvl(left, a, child.id, child.bal, b);
      NonemptyIsNode(b);
      KidsOf(left, b);
      DoubleIsBalanced(left, a, child.id, Kid(b, left), b.id, b.bal, Kid(b, 1 - left), id, far);
    }
  }

  lemma {:induction false} NonemptyIsNode(t: Tree)
    ensures t.Node? <==> Height(t) > 0
  {
  }

  lemma {:induction false} SingleKeepsOrder(left: Side, a: Tree, child: nat, bal: int, bal': int, m: Tree, id: nat,
                                            bal'': int, far: Tree)
    ensures var t := Make(left, Make(left, a, child, bal, m), id, bal'', far);
            var r := Single(left, a, child, bal', m, id, far);
            Inorder(r) == Inorder(t) && Size(r) == Size(t)
  {
    hide Inorder, Size, Make;
    MakeOrder(left, a, child, bal, m);
    MakeOrder(left, Make(left, a, child, bal, m), id, bal'', far);
    MakeOrder(left, m, id, -bal', far);
    MakeOrder(left, a, child, bal', Make(left, m, id, -bal', far));
  }

  lemma {:induction false} Regrouped(a: seq<nat>, c: nat, m: seq<nat>, g: nat, n: seq<nat>, d: nat, f: seq<nat>)
    ensures (a + [c] + (m + [g] + n)) + [d] + f == (a + [c] + m) + [g] + (n + [d] + f)
    ensures a + [c] + ((m + [g] + n) + [d] + f) == (a + [c] + m) + [g] + (n + [d] + f)
  {
  }

  lemma {:induction false} DoubleKeepsOrder(left: Side, a: Tree, child: nat, m: Tree, g: nat, bal: int, n: Tree,
                                            bal': int, id: nat, bal'': int, far: Tree)
    ensures var t := Make(left, Make(left, a, child, bal', Make(left, m, g, bal, n)), id, bal'', far);
            var r := Double(left, a, child, m, g, bal, n, id, far);
            Inorder(r) == Inorder(t) && Size(r) == Size(t)
  {
    hide Inorder, Size, Make;
    var b := Make(left, m, g, bal, n);
    MakeOrder(left, m, g, bal, n);
    MakeOrder(left, a, child, bal', b);
    MakeOrder(left, Make(left, a, child, bal', b), id, bal'', far);
    var x, y := if bal == Heavy(left, -1) then Heavy(left, 1) else 0,
                if bal == Heavy(left, 1) then Heavy(left, -1) else 0;
    MakeOrder(left, a, child, x, m);
    MakeOrder(left, n, id, y, far);
    MakeOrder(left, Make(left, a, child, x, m), g, 0, Make(left, n, id, y, far));
    var i, j, k, l := Inorder(a), Inorder(m), Inorder(n), Inorder(far);
    if left == 0 {
      Regrouped(i, child, j, g, k, id, l);
    } else {
      Regrouped(l, id, k, g, j, child, i);
    }
  }

  // It keeps the order.
  lemma {:induction false} RotatedKeepsOrder(left: Side, child: Tree, id: nat, bal: int, far: Tree)
    requires child.Node? && (child.bal == Heavy(left, -1) ==> Kid(child, 1 - left).Node?)
    ensures Inorder(Rotated(left, child, id, far)) == Inorder(Make(left, child, id, bal, far))
    ensures Size(Rotated(left, child, id, far)) == Size(Make(left, child, id, bal, far))
  {
    hide Inorder, Size, Make, Single, Double;
    KidsOf(left, child);
    var a, b := Kid(child, left), Kid(child, 1 - left);
    if child.bal != Heavy(left, -1) {
      SingleKeepsOrder(left, a, child.id, child.bal, child.bal + Heavy(left, -1), b, id, bal, far);
    } else {
      KidsOf(left, b);
      DoubleKeepsOrder(left, a, child.id, Kid(b, left), b.id, b.bal, Kid(b, 1 - left), child.bal, id, bal, far);
    }
  }

  // ----- Heights on the way up

  // A subtree that grew by one, under its parent: the parent comes into balance, or leans and
  // grows in turn, or needs a rotation that takes the growth back.
  lemma {:induction false} GrowStep(path: Path, t: Tree, h: nat)
    requires path.Step? && Balanced(t) && AvlPath(path, h) && Height(t) == h + 1 && (h == 0 || (t.Node? && t.bal != 0))
    ensures var Step(side, id, bal, other, up) := path;
            var b, h' := bal + Heavy(side, 1), 1 + Max(h, Height(other));
            var t' := Make(side, t, id, b, other);
            if b == 0 then Balanced(t') && AvlPath(up, Height(t'))
            else if bal == 0 then Balanced(t') && Height(t') == h' + 1 && AvlPath(up, h') && t'.Node? && t'.bal != 0
              && h' > 0
            else
              && b == Heavy(side, 2) && t.Node? && -1 <= t.bal <= 1
              && (t.bal == Heavy(side, -1) ==> Kid(t, 1 - side).Node?)
              && Balanced(Rotated(side, t, id, other)) && AvlPath(up, Height(Rotated(side, t, id, other)))
  {
    hide Balanced, Height, Make, Rotated;
    var Step(side, id, bal, other, up) := path;
    MakeAvl(side, t, id, bal + Heavy(side, 1), other);
    MakeKids(side, t, id, bal + Heavy(side, 1), other);
    if bal != 0 && bal + Heavy(side, 1) != 0 {
      RotatedIsBalanced(side, t, id, other);
      BalanceIn(t);
    }
  }

  // A subtree that shrank by one, under its parent: the parent leans and keeps its height, or
  // comes into balance and shrinks in turn, or needs a rotation that may do either.
  lemma {:induction false} ShrinkStep(path: Path, t: Tree, h: nat)
    requires path.Step? && Balanced(t) && AvlPath(path, h) && Height(t) + 1 == h
    ensures var Step(side, id, bal, other, up) := path;
            var b, h' := bal - Heavy(side, 1), 1 + Max(h, Height(other));
            var t' := Make(side, t, id, b, other);
            && AvlPath(up, h')
            && if bal == 0 then Balanced(t') && Height(t') == h'
               else if b == 0 then Balanced(t') && Height(t') + 1 == h'
               else
                 && b == Heavy(1 - side, 2) && other.Node? && -1 <= other.bal <= 1
                 && (other.bal == Heavy(1 - side, -1) ==> Kid(other, side).Node?)
                 && var r := Rotated(1 - side, other, id, t);
                    Balanced(r) && (if other.bal != 0 then Height(r) + 1 == h' else Height(r) == h')
  {
    hide Balanced, Height, Make, Rotated;
    var Step(side, id, bal, other, up) := path;
    MakeAvl(side, t, id, bal - Heavy(side, 1), other);
    if bal != 0 && bal - Heavy(side, 1) != 0 {
      RotatedIsBalanced(1 - side, other, id, t);
      BalanceIn(other);
    }
  }

  lemma {:induction false} BalanceIn(t: Tree)
    requires Balanced(t) && t.Node?
    ensures -1 <= t.bal <= 1
  {
  }

  // ----- How low a balanced tree is

  function Fib(n: nat): nat {
    if n < 2 then n else Fib(n - 1) + Fib(n - 2)
  }

  lemma {:induction false} FibStep(n: nat)
    ensures Fib(n) <= Fib(n + 1) && Fib(n + 2) == Fib(n + 1) + Fib(n)
  {
  }

  lemma {:induction false} EmptyTree()
    ensures Size(Leaf) == 0 && Height(Leaf) == 0 && Fib(2) == 1
  {
    assert Fib(1) == 1;
  }

  // The height is logarithmic in the number of nodes: a tree of height h holds at least
  // Fib(h + 2) - 1 of them.
  lemma {:induction false} HeightIsLow(t: Tree)
    requires Balanced(t)
    ensures Size(t) >= Fib(Height(t) + 2) - 1
  {
    hide Height, Size, Balanced, Fib;
    if t.Leaf? {
      EmptyTree();
    } else {
      MakeOrder(0, t.left, t.id, t.bal, t.right);
      MakeAvl(0, t.left, t.id, t.bal, t.right);
      HeightIsLow(t.left);
      HeightIsLow(t.right);
      var a, b := Height(t.left), Height(t.right);
      FibStep(a + 1);
      FibStep(b + 1);
      FibStep(Height(t));
    }
  }
}

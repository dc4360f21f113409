/**
 The fileset itself: three trees of files, moved between as files come and go, and the
 counters and rotors beside them. Every method runs under the pick lock.
 */
module Fileset {

  import opened AvlShape
  import opened AvlMemory
  import opened AvlBalance
  import opened AvlOrder
  import opened Avl
  import opened FilesetPick
  import R = FilesetRuns

  datatype Outcome = Wait | Nothing | Entry(entry: nat)

  ghost function Held(atp: AvlTree): set<nat>
    reads atp
  {
    Ids(atp.tree)
  }

  // A tree over the given nodes, in order of their index.
  ghost predicate TreeOk(atp: AvlTree, key: KeyOf, size: nat, tmp: nat)
    reads atp
  {
    atp.Valid() && atp.key == key && Sorted(key, Inorder(atp.tree)) && |atp.memory| == size && tmp !in Ids(atp.tree)
  }

  // Moves a file from one tree to another.
  method MoveEntry(src: AvlTree, dst: AvlTree, entry: nat, ghost key: KeyOf, ghost size: nat, tmp: nat)
    requires src != dst && TreeOk(src, key, size, tmp) && TreeOk(dst, key, size, tmp)
    requires 0 < tmp < size && 0 < entry < size && entry != tmp
    requires entry in Held(src) && entry !in Held(dst) && forall x :: x in Held(dst) ==> key(x) != key(entry)
    modifies src, dst
    ensures TreeOk(src, key, size, tmp) && TreeOk(dst, key, size, tmp)
    ensures Held(src) == old(Held(src)) - {entry} && Held(dst) == old(Held(dst)) + {entry}
  {
    hide Inorder, Ids, Shows, Balanced, Sorted, Dropped;
    ghost var s, d := Inorder(src.tree), Inorder(dst.tree);
    NodesOf(src);
    NodesOf(dst);
    src.Remove(entry, tmp);
    DroppedSorted(key, s, Inorder(src.tree), entry);
    NodesOf(src);
    SetWithout(key, s, Inorder(src.tree), entry);
    assert Held(src) == old(Held(src)) - {entry};
    dst.Add(entry);
    NodesOf(dst);
    SetWithout(key, Inorder(dst.tree), d, entry);
    assert Held(dst) == old(Held(dst)) + {entry};
  }

  lemma {:induction false} SetWithout(key: KeyOf, before: seq<nat>, after: seq<nat>, x: nat)
    requires Sorted(key, before) && Dropped(before, after, x)
    ensures forall y :: y in after <==> y in before && y != x
    ensures x in before
  {
    var i :| 0 <= i < |before| && before[i] == x && after == before[..i] + before[i + 1..];
    var l, r := before[..i], before[i + 1..];
    assert x !in l && x !in r by { OnlyAt(key, before, i); }
    hide Sorted, Dropped;
    assert before == l + [x] + r;
  }

  lemma {:induction false} OnlyAt(key: KeyOf, s: seq<nat>, i: nat)
    requires Sorted(key, s) && i < |s|
    ensures s[i] !in s[..i] && s[i] !in s[i + 1..]
  {
    forall j | 0 <= j < |s| && j != i ensures s[j] != s[i] {
      assert key(s[if j < i then j else i]) < key(s[if j < i then i else j]);
    }
  }

  class FileSet {
    const key: KeyOf
    const size: nat
    const tmp: nat
    var files: map<nat, R.File>
    var free: AvlTree
    var noex: AvlTree
    var exist: AvlTree
    var idle: int
    var neRotor: int
    var exRotor: map<nat, int>
    ghost var drift: nat

    ghost function Value(): R.Fileset
      reads this, free, noex, exist
    {
      R.Fileset(files, R.Trees(Held(free), Held(noex), Held(exist)), idle, drift)
    }

    ghost predicate Valid()
      reads this, free, noex, exist
    {
      && free != noex && free != exist && noex != exist && 0 < tmp < size
      && TreeOk(free, key, size, tmp) && TreeOk(noex, key, size, tmp) && TreeOk(exist, key, size, tmp)
      && (forall f :: f in files ==> 0 < f < size && f != tmp)
      && (forall f, g :: f in files && g in files && key(f) == key(g) ==> f == g)
      && R.TreesOk(Value())
    }

    constructor (key: KeyOf, size: nat, tmp: nat)
      requires 0 < tmp < size
      ensures Valid() && files == map[] && idle == 0 && drift == 0 && this.key == key && this.size == size
              && this.tmp == tmp
      ensures fresh(free) && fresh(noex) && fresh(exist)
    {
      this.key, this.size, this.tmp := key, size, tmp;
      files, idle, neRotor, exRotor, drift := map[], 0, 0, map[], 0;
      var blank := seq(size, _ => Cell(0, 0, 0, 0, 0));
      free := new AvlTree(blank, key);
      noex := new AvlTree(blank, key);
      exist := new AvlTree(blank, key);
    }

    // A new file, with the next index; it is free.
    method AddFile(entry: nat)
      requires Valid() && 0 < entry < size && entry != tmp && entry !in files
      requires key(entry) == idle && forall f :: f in files ==> key(f) != idle
      modifies this`files, this`idle, free
      ensures Valid() && files == old(files)[entry := R.File(true, false, false, false, 0)]
      ensures idle == old(idle) + 1 && Value().trees == old(Value()).trees.(free := old(Value()).trees.free + {entry})
    {
      hide Ids, Inorder, Shows, Balanced, Sorted, Dropped, AvlTree.Valid;
      idle := idle + 1;
      files := files[entry := R.File(true, false, false, false, 0)];
      ghost var s := Inorder(free.tree);
      NodesOf(free);
      free.Add(entry);
      NodesOf(free);
      SetWithout(key, Inorder(free.tree), s, entry);
      assert Held(free) == old(Held(free)) + {entry};
    }

    // Sets the flags of an entry and moves it.
    method Relocate(src: AvlTree, dst: AvlTree, entry: nat, file: R.File)
      requires Valid() && entry in files && src != dst
      requires src == free || src == noex || src == exist
      requires dst == free || dst == noex || dst == exist
      requires entry in Held(src) && entry !in Held(dst)
      modifies this`files, src, dst
      ensures files == old(files)[entry := file]
      ensures TreeOk(free, key, size, tmp) && TreeOk(noex, key, size, tmp) && TreeOk(exist, key, size, tmp)
      ensures Held(src) == old(Held(src)) - {entry} && Held(dst) == old(Held(dst)) + {entry}
    {
      hide Ids, TreeOk;
      R.InItsTree(Value(), entry);
      files := files[entry := file];
      MoveEntry(src, dst, entry, key, size, tmp);
    }

    // Moves an entry to the tree for files that exist or to the one for files that do not, and
    // sets its flags, as far as they say something else.
    method SetExists(entry: nat, value: bool)
      requires Valid() && entry in files
      modifies this`files, free, noex, exist
      ensures Valid()
      ensures files == old(files)[entry := R.Declared(old(files)[entry], value)]
      ensures Value().trees == R.Moved(old(Value()).trees, entry, old(files)[entry], value)
      ensures !files[entry].free && files[entry].present == value && entry !in Held(free)
      ensures (entry in Held(exist) <==> value) && (entry in Held(noex) <==> !value)
    {
      hide Ids, TreeOk, R.TreesOk;
      R.InItsTree(Value(), entry);
      R.DeclaredTrees(Value(), entry, value);
      var file := files[entry];
      if value {
        if file.free {
          Relocate(free, exist, entry, file.(free := false, present := true));
        } else if !file.present {
          Relocate(noex, exist, entry, file.(present := true));
        } else {
          assert files == files[entry := file];
        }
      } else {
        if file.free {
          Relocate(free, noex, entry, file.(free := false, present := false));
        } else if file.present {
          Relocate(exist, noex, entry, file.(present := false));
        } else {
          assert files == files[entry := file];
        }
      }
    }

    // Counts the opens; a busy entry becomes idle, and those who wait for it are to be woken.
    method Settle(entry: nat, incr: int) returns (broadcast: bool, signal: bool)
      requires Valid() && entry in files
      modifies this`files, this`idle
      ensures Valid()
      ensures var file := old(files)[entry].(opens := old(files)[entry].opens + incr);
              && (if file.busy then files == old(files)[entry := file.(busy := false, waiting := false)]
                  && idle == old(idle) + 1
                  else files == old(files)[entry := file] && idle == old(idle))
              && broadcast == (file.busy && file.waiting) && signal == (file.busy && idle >= 1)
    {
      hide Ids, TreeOk, R.TreesOk;
      ghost var fs := Value();
      var file := files[entry];
      file := file.(opens := file.opens + incr);
      broadcast, signal := false, false;
      if file.busy {
        file := file.(busy := false);
        if file.waiting {
          file := file.(waiting := false);
          broadcast := true;
        }
        idle := idle + 1;
        signal := idle >= 1;
      }
      files := files[entry := file];
      R.SameTrees(fs, entry, file, idle, drift);
    }

    method Release(entry: nat, update: R.Update, incr: int) returns (broadcast: bool, signal: bool)
      requires Valid() && entry in files
      modifies this`files, this`idle, free, noex, exist
      ensures Valid() && Value() == R.Released(old(Value()), entry, update, incr)
      ensures broadcast == (old(files)[entry].busy && old(files)[entry].waiting)
      ensures signal == (old(files)[entry].busy && idle >= 1)
      ensures update.Keep? ==> unchanged(free) && unchanged(noex) && unchanged(exist)
    {
      hide Ids, TreeOk, R.TreesOk, R.Moved;
      if update.Declare? {
        SetExists(entry, update.value);
      }
      ghost var files1 := files;
      broadcast, signal := Settle(entry, incr);
      assert old(files)[entry := files1[entry]][entry := files[entry]] == old(files)[entry := files[entry]];
    }

    // Lets an entry go. Says whether to wake everybody who waits for it, and somebody who waits
    // for an idle file.
    method Unbusy(entry: nat, update: R.Update, incr: int) returns (broadcast: bool, signal: bool)
      requires Valid() && entry in files
      modifies this`files, this`idle, free, noex, exist
      ensures Valid() && Value() == R.Released(old(Value()), entry, update, incr)
      ensures broadcast == (old(files)[entry].busy && old(files)[entry].waiting)
      ensures signal == (old(files)[entry].busy && idle >= 1)
      ensures update.Keep? ==> unchanged(free) && unchanged(noex) && unchanged(exist)
      ensures files.Keys == old(files).Keys && files[entry].opens == old(files)[entry].opens + incr
      ensures !files[entry].busy && (old(files)[entry].busy ==> !files[entry].waiting)
      ensures idle == old(idle) + if old(files)[entry].busy then 1 else 0
      ensures forall v :: update == R.Declare(v) ==>
                && !files[entry].free && files[entry].present == v && entry !in Held(free)
                && (entry in Held(exist) <==> v) && (entry in Held(noex) <==> !v)
      ensures update.Keep? ==>
                files[entry].free == old(files)[entry].free && files[entry].present == old(files)[entry].present
      ensures forall f :: f in files && f != entry ==>
                && files[f] == old(files)[f] && (f in Held(free) <==> f in old(Held(free)))
                && (f in Held(exist) <==> f in old(Held(exist))) && (f in Held(noex) <==> f in old(Held(noex)))
    {
      hide Ids, TreeOk, R.TreesOk, R.Released;
      R.ReleasedExactly(Value(), entry, update, incr);
      broadcast, signal := Release(entry, update, incr);
    }

    // Holds an entry that nobody holds.
    method Take(entry: nat)
      requires Valid() && entry in files
      modifies this`files, this`idle
      ensures Valid() && Value() == R.Picked(old(Value()), entry)
    {
      hide Ids, TreeOk, R.TreesOk;
      R.SameTrees(Value(), entry, files[entry].(busy := true), idle - 1, drift);
      idle := idle - 1;
      files := files[entry := files[entry].(busy := true)];
    }

    function TreeFor(kind: R.Kind): AvlTree
      reads this
    {
      match kind
      case Unique => free
      case NoExist => noex
      case Exist => exist
    }

    function BusyFiles(): set<nat>
      reads this
    {
      set f | f in files && files[f].busy
    }

    function Rotor(tid: nat): int
      reads this
    {
      if tid in exRotor then exRotor[tid] else 0
    }

    // The index that a pick starts from.
    function Wanted(kind: R.Kind, byIndex: bool, index: int, random: int, tid: nat): int
      reads this
    {
      if kind == R.Unique then (if index != 0 then index else random)
      else if byIndex then index
      else if kind == R.NoExist then neRotor
      else Rotor(tid)
    }

    // Moves the rotor past the file that a pick starts from.
    method Turn(kind: R.Kind, tid: nat, first: nat)
      requires Valid()
      modifies this`neRotor, this`exRotor
      ensures Valid() && Value() == old(Value())
      ensures neRotor == (if kind == R.NoExist then key(first) + 1 else old(neRotor))
      ensures exRotor == (if kind == R.NoExist then old(exRotor) else old(exRotor)[tid := key(first) + 1])
    {
      if kind == R.NoExist {
        neRotor := key(first) + 1;
      } else {
        exRotor := exRotor[tid := key(first) + 1];
      }
    }

    // Picks a file of the given kind that nobody holds, and holds it. `random` is the number
    // drawn when no index is asked for.
    method Pick(kind: R.Kind, byIndex: bool, index: int, random: int, tid: nat)
      returns (r: Outcome, ghost start: nat, ghost i: nat, ghost k: nat)
      requires Valid()
      modifies this`files, this`idle, this`neRotor, this`exRotor
      ensures Valid()
      ensures r.Wait? <==> old(idle) == 0 && old(files) != map[]
      ensures r.Wait? ==> Value() == old(Value())
      ensures r.Nothing? ==> Value() == old(Value()) && forall f :: f in R.TreeOf(Value().trees, kind) ==>
                f in files && files[f].busy
      ensures r.Entry? ==>
                && old(idle) != 0 && r.entry in R.TreeOf(old(Value()).trees, kind) && r.entry in old(files)
                && !old(files)[r.entry].busy
                && Value() == R.Picked(old(Value()), r.entry)
      ensures r.Entry? ==>
                FirstIdle(key, Inorder(TreeFor(kind).tree), old(Wanted(kind, byIndex, index, random, tid)),
                          old(BusyFiles()), start, i, k, r.entry)
      ensures !r.Wait? && Inorder(TreeFor(kind).tree) != [] ==>
                CyclicSuccessor(key, Inorder(TreeFor(kind).tree),
                                if kind == R.Unique then (if index != 0 then index else random)
                                else if byIndex then index
                                else if kind == R.NoExist then old(neRotor)
                                else if tid in old(exRotor) then old(exRotor)[tid] else 0, start)
      ensures r.Entry? ==>
                && (kind == R.Unique ==> old(files)[r.entry].free)
                && (kind == R.Exist ==> !old(files)[r.entry].free && old(files)[r.entry].present)
                && (kind == R.NoExist ==> !old(files)[r.entry].free && !old(files)[r.entry].present)
      ensures r.Nothing? ==> forall f :: f in files && !files[f].busy ==>
                && (kind == R.Unique ==> !files[f].free)
                && (kind == R.Exist ==> files[f].free || !files[f].present)
                && (kind == R.NoExist ==> files[f].free || files[f].present)
      ensures if kind != R.Unique && !byIndex && !r.Wait? && Inorder(TreeFor(kind).tree) != []
              then
                && neRotor == (if kind == R.NoExist then key(start) + 1 else old(neRotor))
                && exRotor == (if kind == R.NoExist then old(exRotor) else old(exRotor)[tid := key(start) + 1])
              else neRotor == old(neRotor) && exRotor == old(exRotor)
    {
      hide Ids, Inorder, Shows, Balanced, Sorted, FirstIdle, CyclicSuccessor, R.TreesOk, AvlTree.Valid, R.Picked;
      start, i, k := 0, 0, 0;
      KindsOf(this, kind);
      if files == map[] {
        NoFiles(this, kind);
        return Nothing, start, i, k;
      }
      if idle == 0 {
        return Wait, start, i, k;
      }
      var atp := TreeFor(kind);
      KeysOf(this, kind);
      EmptyOf(atp);
      if atp.numNodes == 0 {
        return Nothing, start, i, k;
      }
      var first, entry;
      first, entry, i, k := Choose(atp, Wanted(kind, byIndex, index, random, tid), BusyFiles());
      start := first;
      if kind != R.Unique && !byIndex {
        Turn(kind, tid, first);
      }
      if entry == 0 {
        return Nothing, start, i, k;
      }
      FirstIdleIn(key, Inorder(atp.tree), old(Wanted(kind, byIndex, index, random, tid)), BusyFiles(), start, i, k,
                  entry);
      Take(entry);
      r := Entry(entry);
    }

    // Takes a file by name, to delete or to close it, unless somebody holds it: then it is
    // marked as waited for and the caller has to sleep.
    method Claim(f: nat, purpose: R.Purpose) returns (taken: bool)
      requires Valid() && f in files
      modifies this`files, this`idle, this`drift
      ensures Valid() && taken == !old(files)[f].busy
      ensures taken ==> Value() == R.Claimed(old(Value()), f, purpose)
      ensures taken ==>
                && files == old(files)[f := old(files)[f].(busy := true)] && Value().trees == old(Value()).trees
                && idle == old(idle) - (if purpose == R.Close && old(files)[f].opens != 1 then 0 else 1)
      ensures !taken ==> Value() == old(Value()).(files := old(files)[f := old(files)[f].(waiting := true)])
    {
      hide Ids, TreeOk, R.TreesOk;
      if files[f].busy {
        R.SameTrees(Value(), f, files[f].(waiting := true), idle, drift);
        files := files[f := files[f].(waiting := true)];
        return false;
      }
      var opens := files[f].opens;
      R.SameTrees(Value(), f, files[f].(busy := true), idle, drift);
      files := files[f := files[f].(busy := true)];
      ghost var fs := Value();
      if purpose == R.Delete || opens == 1 {
        idle := idle - 1;
      } else {
        drift := drift + 1;
      }
      R.SameTrees(fs, f, files[f], idle, drift);
      assert files[f := files[f]] == files;
      return true;
    }
  }

  // Some file of the kind can be picked, and nobody holds any of them.
  ghost predicate AllIdle(fs: FileSet, kind: R.Kind)
    reads fs, fs.free, fs.noex, fs.exist
  {
    && fs.Valid() && fs.idle != 0 && Inorder(fs.TreeFor(kind).tree) != []
    && forall f :: f in Held(fs.TreeFor(kind)) ==> f in fs.files && !fs.files[f].busy
  }

  // The same files, apart from who waits for them.
  ghost predicate SameFiles(files: map<nat, R.File>, others: map<nat, R.File>) {
    && files.Keys == others.Keys
    && forall f :: f in files ==> files[f].(waiting := false) == others[f].(waiting := false)
  }

  // One pick in rotation, and the file let go again.
  method RotateOnce(fs: FileSet, kind: R.Kind, tid: nat) returns (entry: nat)
    requires AllIdle(fs, kind) && kind != R.Unique
    modifies fs`files, fs`idle, fs`neRotor, fs`exRotor, fs.free, fs.noex, fs.exist
    ensures unchanged(fs.free) && unchanged(fs.noex) && unchanged(fs.exist)
    ensures AllIdle(fs, kind) && fs.idle == old(fs.idle) && SameFiles(fs.files, old(fs.files))
    ensures CyclicSuccessor(fs.key, Inorder(fs.TreeFor(kind).tree), old(fs.Wanted(kind, false, 0, 0, tid)), entry)
    ensures fs.Wanted(kind, false, 0, 0, tid) == fs.key(entry) + 1
  {
    hide Ids, Inorder, FirstIdle, CyclicSuccessor, FileSet.Valid, R.Released, TreeOk, R.TreeOf;
    ghost var s, from, busy := Inorder(fs.TreeFor(kind).tree), fs.Wanted(kind, false, 0, 0, tid), fs.BusyFiles();
    NodesInOrder(fs, kind);
    assert s[0] in s && s[0] in fs.files && !fs.files[s[0]].busy;
    var r, start, i, k := fs.Pick(kind, false, 0, 0, tid);
    entry := r.entry;
    NobodyBusy(fs.key, s, from, busy, start, i, k, entry);
    var broadcast, signal := fs.Unbusy(entry, R.Keep, 0);
  }

  // Picks in rotation as many files as there are of the kind, letting each go before the next
  // pick: they are all of them, in order and round from where the rotor stood.
  method RotateAll(fs: FileSet, kind: R.Kind, tid: nat) returns (picks: seq<nat>, ghost i: nat)
    requires AllIdle(fs, kind) && kind != R.Unique
    modifies fs`files, fs`idle, fs`neRotor, fs`exRotor, fs.free, fs.noex, fs.exist
    ensures unchanged(fs.free) && unchanged(fs.noex) && unchanged(fs.exist)
    ensures AllIdle(fs, kind) && fs.idle == old(fs.idle) && SameFiles(fs.files, old(fs.files))
    ensures i < |Inorder(fs.TreeFor(kind).tree)| && picks == From(Inorder(fs.TreeFor(kind).tree), i)
    ensures CyclicSuccessor(fs.key, Inorder(fs.TreeFor(kind).tree), old(fs.Wanted(kind, false, 0, 0, tid)), picks[0])
    ensures multiset(picks) == multiset(Inorder(fs.TreeFor(kind).tree))
  {
    hide Ids, Inorder, CyclicSuccessor, From, FileSet.Valid;
    ghost var s := Inorder(fs.TreeFor(kind).tree);
    ghost var rotor := [fs.Wanted(kind, false, 0, 0, tid)];
    picks := [];
    NodesInOrder(fs, kind);
    var n := fs.TreeFor(kind).numNodes;
    while |picks| < n
      invariant |picks| <= n && |rotor| == |picks| + 1
      invariant unchanged(fs.free) && unchanged(fs.noex) && unchanged(fs.exist)
      invariant AllIdle(fs, kind) && fs.idle == old(fs.idle) && SameFiles(fs.files, old(fs.files))
      invariant rotor[0] == old(fs.Wanted(kind, false, 0, 0, tid))
                && rotor[|picks|] == fs.Wanted(kind, false, 0, 0, tid)
      invariant forall j :: 0 <= j < |picks| ==>
        CyclicSuccessor(fs.key, s, rotor[j], picks[j]) && rotor[j + 1] == fs.key(picks[j]) + 1
    {
      var entry := RotateOnce(fs, kind, tid);
      picks := picks + [entry];
      rotor := rotor + [fs.key(entry) + 1];
    }
    i := RotationVisitsAll(fs.key, s, rotor, picks);
  }

  lemma {:induction false} NodesInOrder(fs: FileSet, kind: R.Kind)
    requires fs.Valid()
    ensures Sorted(fs.key, Inorder(fs.TreeFor(kind).tree))
    ensures fs.TreeFor(kind).numNodes == |Inorder(fs.TreeFor(kind).tree)|
    ensures forall f :: f in Inorder(fs.TreeFor(kind).tree) <==> f in Held(fs.TreeFor(kind))
    ensures R.TreeOf(fs.Value().trees, kind) == Held(fs.TreeFor(kind))
  {
    KeysOf(fs, kind);
    SizeIsLength(fs.TreeFor(kind).tree);
    EmptyOf(fs.TreeFor(kind));
  }

  // A pick that skips nobody takes the file it starts from.
  lemma {:induction false} NobodyBusy(key: KeyOf, s: seq<nat>, index: int, busy: set<nat>,
                                      start: nat, i: nat, k: nat, entry: nat)
    requires FirstIdle(key, s, index, busy, start, i, k, entry) && forall x :: x in s ==> x !in busy
    ensures entry == start
  {
    FromAt(s, i, 0);
  }

  lemma {:induction false} KeysOf(fs: FileSet, kind: R.Kind)
    requires fs.Valid()
    ensures forall f :: f in R.TreeOf(fs.Value().trees, kind) ==> f in fs.files
    ensures R.TreeOf(fs.Value().trees, kind) == Held(fs.TreeFor(kind))
    ensures TreeOk(fs.TreeFor(kind), fs.key, fs.size, fs.tmp)
  {
  }

  // The tree for a kind has the files with its flags.
  lemma {:induction false} KindsOf(fs: FileSet, kind: R.Kind)
    requires fs.Valid()
    ensures forall f :: f in fs.files ==>
              (f in R.TreeOf(fs.Value().trees, kind) <==>
                 match kind
                 case Unique => fs.files[f].free
                 case Exist => !fs.files[f].free && fs.files[f].present
                 case NoExist => !fs.files[f].free && !fs.files[f].present)
  {
    hide Ids, TreeOk;
    forall f | f in fs.files ensures f in R.TreeOf(fs.Value().trees, kind) <==>
                 match kind
                 case Unique => fs.files[f].free
                 case Exist => !fs.files[f].free && fs.files[f].present
                 case NoExist => !fs.files[f].free && !fs.files[f].present
    {
      R.KindsAreFlags(fs.Value(), f);
    }
  }

  lemma {:induction false} NoFiles(fs: FileSet, kind: R.Kind)
    requires fs.Valid() && fs.files == map[]
    ensures R.TreeOf(fs.Value().trees, kind) == {} && Inorder(fs.TreeFor(kind).tree) == []
  {
    hide Inorder, Ids;
    KeysOf(fs, kind);
    EmptyOf(fs.TreeFor(kind));
  }

  lemma {:induction false} EmptyOf(atp: AvlTree)
    requires atp.Valid()
    ensures atp.numNodes == 0 <==> Inorder(atp.tree) == []
    ensures atp.numNodes == 0 <==> Held(atp) == {}
    ensures forall x :: x in Held(atp) <==> x in Inorder(atp.tree)
  {
    SizeIsLength(atp.tree);
    IdsInorder(atp.tree);
  }

  lemma {:induction false} FirstIdleIn(key: KeyOf, s: seq<nat>, index: int, busy: set<nat>, start: nat, i: nat, k: nat,
                                       e: nat)
    requires FirstIdle(key, s, index, busy, start, i, k, e)
    ensures e in s && e !in busy
  {
  }
}

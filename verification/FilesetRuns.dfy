/**
 The files of a fileset and the threads that share them, as a state machine: picking a file,
 claiming an open one to delete or close it, and letting it go, each under the pick lock.
 */
module FilesetRuns {

  // A file by its flags, and how often it is open.
  datatype File = File(free: bool, present: bool, busy: bool, waiting: bool, opens: int)

  // The three trees, as the files they hold.
  datatype Trees = Trees(free: set<nat>, noex: set<nat>, exist: set<nat>)

  datatype Kind = Unique | NoExist | Exist

  // `drift`, for specification, counts the claims that took a file without counting it out.
  datatype Fileset = Fileset(files: map<nat, File>, trees: Trees, idle: int, drift: nat)

  datatype Purpose = Delete | Close

  datatype Thread = Ready | AwaitsIdle | Sleeping(file: nat) | Holding(file: nat)

  datatype State = State(fs: Fileset, threads: map<nat, Thread>)

  // ----- The operations

  function TreeOf(trees: Trees, kind: Kind): set<nat> {
    match kind
    case Unique => trees.free
    case NoExist => trees.noex
    case Exist => trees.exist
  }

  // A file that is picked becomes busy and is counted out.
  function Picked(fs: Fileset, f: nat): Fileset
    requires f in fs.files
  {
    fs.(files := fs.files[f := fs.files[f].(busy := true)], idle := fs.idle - 1)
  }

  // A file claimed by name: deleting counts it out, closing does so only for the last open.
  function Claimed(fs: Fileset, f: nat, purpose: Purpose): Fileset
    requires f in fs.files
  {
    var counted := purpose == Delete || fs.files[f].opens == 1;
    fs.(files := fs.files[f := fs.files[f].(busy := true)],
        idle := if counted then fs.idle - 1 else fs.idle,
        drift := if counted then fs.drift else fs.drift + 1)
  }

  // The flags and trees after a file is declared to exist or not to.
  function Declared(file: File, value: bool): File {
    if value then
      if file.free then file.(free := false, present := true) else file.(present := true)
    else
      if file.free then file.(free := false, present := false) else file.(present := false)
  }

  function Moved(trees: Trees, f: nat, file: File, value: bool): Trees {
    if value then
      if file.free then trees.(free := trees.free - {f}, exist := trees.exist + {f})
      else if !file.present then trees.(noex := trees.noex - {f}, exist := trees.exist + {f})
      else trees
    else
      if file.free then trees.(free := trees.free - {f}, noex := trees.noex + {f})
      else if file.present then trees.(exist := trees.exist - {f}, noex := trees.noex + {f})
      else trees
  }

  datatype Update = Keep | Declare(value: bool)

  // Letting a file go. Only a busy one is counted in, and its waiters woken.
  function Released(fs: Fileset, f: nat, update: Update, incr: int): Fileset
    requires f in fs.files
  {
    var file := fs.files[f];
    var file1 := if update.Declare? then Declared(file, update.value) else file;
    var file2 := file1.(opens := file1.opens + incr);
    var trees := if update.Declare? then Moved(fs.trees, f, file, update.value) else fs.trees;
    if file.busy then
      fs.(files := fs.files[f := file2.(busy := false, waiting := false)], trees := trees, idle := fs.idle + 1)
    else
      fs.(files := fs.files[f := file2], trees := trees)
  }

  // ----- The steps

  datatype Action =
    | Pick(t: nat, kind: Kind, f: nat)
    | PickFails(t: nat, kind: Kind)
    | AwaitIdle(t: nat)
    | Claim(t: nat, f: nat, purpose: Purpose)
    | Wake(t: nat)
    | Release(t: nat, update: Update, incr: int)

  predicate Enabled(s: State, a: Action) {
    && a.t in s.threads
    && match a
       case Pick(t, kind, f) =>
         s.threads[t].Ready? && s.fs.idle != 0 && f in TreeOf(s.fs.trees, kind) && f in s.fs.files
           && !s.fs.files[f].busy
       case PickFails(t, kind) =>
         s.threads[t].Ready? && s.fs.idle != 0 &&
         forall f :: f in TreeOf(s.fs.trees, kind) && f in s.fs.files ==> s.fs.files[f].busy
       case AwaitIdle(t) => s.threads[t].Ready? && s.fs.idle == 0
       case Claim(t, f, _) => s.threads[t].Ready? && f in s.fs.files
       case Wake(t) => s.threads[t].Sleeping? || s.threads[t].AwaitsIdle?
       case Release(t, _, _) => s.threads[t].Holding? && s.threads[t].file in s.fs.files
  }

  // All threads that sleep for some file to be let go.
  function Woken(threads: map<nat, Thread>): map<nat, Thread> {
    map t | t in threads :: if threads[t].Sleeping? then Ready else threads[t]
  }

  function Apply(s: State, a: Action): State
    requires Enabled(s, a)
  {
    match a
    case Pick(t, _, f) => State(Picked(s.fs, f), s.threads[t := Holding(f)])
    case PickFails(_, _) => s
    case AwaitIdle(t) => s.(threads := s.threads[t := AwaitsIdle])
    case Claim(t, f, purpose) =>
      if s.fs.files[f].busy then
        State(s.fs.(files := s.fs.files[f := s.fs.files[f].(waiting := true)]), s.threads[t := Sleeping(f)])
      else
        State(Claimed(s.fs, f, purpose), s.threads[t := Holding(f)])
    case Wake(t) => s.(threads := s.threads[t := Ready])
    case Release(t, update, incr) =>
      var f := s.threads[t].file;
      State(Released(s.fs, f, update, incr),
            (if s.fs.files[f].waiting then Woken(s.threads) else s.threads)[t := Ready])
  }

  // A new fileset: every file is free, none is open or held.
  predicate Init(s: State) {
    && (forall f :: f in s.fs.files ==> s.fs.files[f] == File(true, false, false, false, 0))
    && s.fs.trees == Trees(s.fs.files.Keys, {}, {}) && s.fs.idle == |s.fs.files| && s.fs.drift == 0
    && (forall t :: t in s.threads ==> s.threads[t].Ready?)
  }

  ghost predicate IsRun(states: seq<State>, actions: seq<Action>) {
    && |states| == |actions| + 1 && Init(states[0])
    && (forall i :: 0 <= i < |actions| ==>
          Enabled(states[i], actions[i]) && states[i + 1] == Apply(states[i], actions[i]))
  }

  // ----- What every run keeps

  // Each file is in exactly the tree that its flags name.
  ghost predicate TreesOk(fs: Fileset) {
    && (forall f :: f in fs.trees.free <==> f in fs.files && fs.files[f].free)
    && (forall f :: f in fs.trees.exist <==> f in fs.files && !fs.files[f].free && fs.files[f].present)
    && (forall f :: f in fs.trees.noex <==> f in fs.files && !fs.files[f].free && !fs.files[f].present)
  }

  // A busy file has exactly one holder, and no other file has any.
  ghost predicate HoldersOk(s: State) {
    && (forall t :: t in s.threads && s.threads[t].Holding? ==>
          s.threads[t].file in s.fs.files && s.fs.files[s.threads[t].file].busy)
    && (forall t, u :: t in s.threads && u in s.threads && s.threads[t].Holding? && s.threads[u] == s.threads[t] ==>
          t == u)
    && (forall f :: f in s.fs.files && s.fs.files[f].busy ==> exists t :: t in s.threads && s.threads[t] == Holding(f))
  }

  // Whoever sleeps for a file will be woken when it is let go: the file is busy and says so.
  ghost predicate SleepersOk(s: State) {
    forall t :: t in s.threads && s.threads[t].Sleeping? ==>
      && s.threads[t].file in s.fs.files
      && s.fs.files[s.threads[t].file].busy && s.fs.files[s.threads[t].file].waiting
  }

  function IdleFiles(fs: Fileset): set<nat> {
    set f | f in fs.files && !fs.files[f].busy
  }

  // The count of idle files is off by exactly the claims that were not counted out.
  predicate CountOk(fs: Fileset) {
    fs.idle == |IdleFiles(fs)| + fs.drift
  }

  ghost predicate Inv(s: State) {
    TreesOk(s.fs) && HoldersOk(s) && SleepersOk(s) && CountOk(s.fs)
  }

  lemma {:induction false} InitKeeps(s: State)
    requires Init(s)
    ensures Inv(s)
  {
    assert IdleFiles(s.fs) == s.fs.files.Keys;
  }

  // ----- Counting

  lemma {:induction false} BusyNow(fs: Fileset, fs': Fileset, f: nat)
    requires f in fs.files && !fs.files[f].busy && f in fs'.files && fs'.files[f].busy
    requires forall g :: g != f ==>
               (g in fs.files <==> g in fs'.files) && (g in fs.files ==> fs.files[g].busy == fs'.files[g].busy)
    ensures |IdleFiles(fs)| == |IdleFiles(fs')| + 1
  {
    assert IdleFiles(fs) == IdleFiles(fs') + {f};
  }

  lemma {:induction false} SameIdle(fs: Fileset, fs': Fileset)
    requires fs.files.Keys == fs'.files.Keys && forall g :: g in fs.files ==> fs.files[g].busy == fs'.files[g].busy
    ensures |IdleFiles(fs)| == |IdleFiles(fs')|
  {
    assert IdleFiles(fs) == IdleFiles(fs');
  }

  // ----- Steps

  lemma {:induction false} TakeKeeps(s: State, fs': Fileset, t: nat, f: nat)
    requires Inv(s) && t in s.threads && s.threads[t].Ready? && f in s.fs.files && !s.fs.files[f].busy
    requires fs' == Picked(s.fs, f) || fs' == Claimed(s.fs, f, Delete) || fs' == Claimed(s.fs, f, Close)
    ensures Inv(State(fs', s.threads[t := Holding(f)]))
  {
    hide HoldersOk, TreesOk;
    BusyNow(s.fs, fs', f);
    HeldOnce(s, fs', t, f);
    SameTrees(s.fs, f, fs'.files[f], fs'.idle, fs'.drift);
  }

  lemma {:induction false} HeldOnce(s: State, fs': Fileset, t: nat, f: nat)
    requires HoldersOk(s) && t in s.threads && s.threads[t].Ready? && f in s.fs.files && !s.fs.files[f].busy
    requires fs'.files == s.fs.files[f := s.fs.files[f].(busy := true)]
    ensures HoldersOk(State(fs', s.threads[t := Holding(f)]))
  {
    var s' := State(fs', s.threads[t := Holding(f)]);
    forall g | g in s'.fs.files && s'.fs.files[g].busy
      ensures exists u :: u in s'.threads && s'.threads[u] == Holding(g)
    {
      if g == f {
        assert s'.threads[t] == Holding(f);
      } else {
        assert s.fs.files[g].busy;
        var u :| u in s.threads && s.threads[u] == Holding(g);
        assert s'.threads[u] == Holding(g);
      }
    }
  }

  lemma {:induction false} SleepKeeps(s: State, t: nat, f: nat)
    requires Inv(s) && t in s.threads && s.threads[t].Ready? && f in s.fs.files && s.fs.files[f].busy
    ensures Inv(State(s.fs.(files := s.fs.files[f := s.fs.files[f].(waiting := true)]), s.threads[t := Sleeping(f)]))
  {
    var s' := State(s.fs.(files := s.fs.files[f := s.fs.files[f].(waiting := true)]), s.threads[t := Sleeping(f)]);
    SameIdle(s.fs, s'.fs);
    forall g | g in s'.fs.files && s'.fs.files[g].busy
      ensures exists u :: u in s'.threads && s'.threads[u] == Holding(g)
    {
      assert s.fs.files[g].busy;
      var u :| u in s.threads && s.threads[u] == Holding(g);
      assert s'.threads[u] == Holding(g);
    }
  }

  lemma {:induction false} RelabelKeeps(s: State, t: nat, now: Thread)
    requires Inv(s) && t in s.threads && !s.threads[t].Holding? && (now.Ready? || now.AwaitsIdle?)
    ensures Inv(s.(threads := s.threads[t := now]))
  {
    var s' := s.(threads := s.threads[t := now]);
    forall g | g in s'.fs.files && s'.fs.files[g].busy
      ensures exists u :: u in s'.threads && s'.threads[u] == Holding(g)
    {
      var u :| u in s.threads && s.threads[u] == Holding(g);
      assert s'.threads[u] == Holding(g);
    }
  }

  lemma {:induction false} ReleaseKeeps(s: State, t: nat, update: Update, incr: int)
    requires Inv(s) && Enabled(s, Release(t, update, incr))
    ensures Inv(Apply(s, Release(t, update, incr)))
  {
    hide TreesOk, HoldersOk, SleepersOk;
    var s' := Apply(s, Release(t, update, incr));
    var f := s.threads[t].file;
    HeldIsBusy(s, t);
    assert CountOk(s'.fs) by { BusyNow(s'.fs, s.fs, f); }
    ReleasedTrees(s.fs, f, update, incr);
    LetGo(s, t, update, incr);
    NobodySleeps(s, t, update, incr);
  }

  lemma {:induction false} HeldIsBusy(s: State, t: nat)
    requires HoldersOk(s) && t in s.threads && s.threads[t].Holding?
    ensures s.threads[t].file in s.fs.files && s.fs.files[s.threads[t].file].busy
  {
  }

  lemma {:induction false} ReleasedTrees(fs: Fileset, f: nat, update: Update, incr: int)
    requires TreesOk(fs) && f in fs.files
    ensures TreesOk(Released(fs, f, update, incr))
  {
  }

  // What a release leaves, flag by flag. Declaring a file to exist or not makes it so, whatever
  // it was, and puts it in that tree; its opens are counted; nothing else changes.
  lemma {:induction false} ReleasedExactly(fs: Fileset, f: nat, update: Update, incr: int)
    requires TreesOk(fs) && f in fs.files
    ensures var fs' := Released(fs, f, update, incr);
            && fs'.files.Keys == fs.files.Keys
            && fs'.files[f].opens == fs.files[f].opens + incr
            && (fs.files[f].busy ==> !fs'.files[f].busy && !fs'.files[f].waiting && fs'.idle == fs.idle + 1)
            && (!fs.files[f].busy ==>
                  !fs'.files[f].busy && fs'.files[f].waiting == fs.files[f].waiting && fs'.idle == fs.idle)
            && (forall v :: update == Declare(v) ==>
                  && !fs'.files[f].free && fs'.files[f].present == v
                  && f !in fs'.trees.free && (f in fs'.trees.exist <==> v) && (f in fs'.trees.noex <==> !v))
            && (update == Keep ==>
                  && fs'.files[f].free == fs.files[f].free && fs'.files[f].present == fs.files[f].present
                  && fs'.trees == fs.trees)
            && (forall g :: g in fs.files && g != f ==>
                  && fs'.files[g] == fs.files[g]
                  && (g in fs'.trees.free <==> g in fs.trees.free)
                  && (g in fs'.trees.exist <==> g in fs.trees.exist)
                  && (g in fs'.trees.noex <==> g in fs.trees.noex))
  {
    InItsTree(fs, f);
  }

  // What a claim changes: the file is held, and it is counted out unless it is closed while open
  // more than once or not at all.
  lemma {:induction false} ClaimedExactly(fs: Fileset, f: nat, purpose: Purpose)
    requires f in fs.files
    ensures var fs' := Claimed(fs, f, purpose);
            && fs'.trees == fs.trees && fs'.files == fs.files[f := fs'.files[f]]
            && fs'.files[f].busy && fs'.files[f].free == fs.files[f].free && fs'.files[f].opens == fs.files[f].opens
            && fs'.files[f].present == fs.files[f].present && fs'.files[f].waiting == fs.files[f].waiting
            && fs'.idle == fs.idle - (if purpose == Close && fs.files[f].opens != 1 then 0 else 1)
  {
  }

  // The tree that a pick of some kind looks in has exactly the files of that kind.
  lemma {:induction false} KindsAreFlags(fs: Fileset, f: nat)
    requires TreesOk(fs)
    ensures f in TreeOf(fs.trees, Unique) <==> f in fs.files && fs.files[f].free
    ensures f in TreeOf(fs.trees, Exist) <==> f in fs.files && !fs.files[f].free && fs.files[f].present
    ensures f in TreeOf(fs.trees, NoExist) <==> f in fs.files && !fs.files[f].free && !fs.files[f].present
  {
  }

  lemma {:induction false} DeclaredTrees(fs: Fileset, f: nat, value: bool)
    requires TreesOk(fs) && f in fs.files
    ensures TreesOk(fs.(files := fs.files[f := Declared(fs.files[f], value)],
                        trees := Moved(fs.trees, f, fs.files[f], value)))
  {
  }

  lemma {:induction false} SameTrees(fs: Fileset, f: nat, file: File, idle: int, drift: nat)
    requires TreesOk(fs) && f in fs.files && file.free == fs.files[f].free && file.present == fs.files[f].present
    ensures TreesOk(Fileset(fs.files[f := file], fs.trees, idle, drift))
  {
  }

  // The tree a file is in, and that it is in no other.
  lemma {:induction false} InItsTree(fs: Fileset, f: nat)
    requires TreesOk(fs) && f in fs.files
    ensures f in fs.trees.free <==> fs.files[f].free
    ensures f in fs.trees.exist <==> !fs.files[f].free && fs.files[f].present
    ensures f in fs.trees.noex <==> !fs.files[f].free && !fs.files[f].present
    ensures fs.trees.free <= fs.files.Keys && fs.trees.exist <= fs.files.Keys && fs.trees.noex <= fs.files.Keys
  {
  }

  lemma {:induction false} LetGo(s: State, t: nat, update: Update, incr: int)
    requires HoldersOk(s) && Enabled(s, Release(t, update, incr))
    ensures HoldersOk(Apply(s, Release(t, update, incr)))
  {
    var s' := Apply(s, Release(t, update, incr));
    forall g | g in s'.fs.files && s'.fs.files[g].busy
      ensures exists u :: u in s'.threads && s'.threads[u] == Holding(g)
    {
      assert s.fs.files[g].busy;
      var u :| u in s.threads && s.threads[u] == Holding(g);
      assert s'.threads[u] == Holding(g);
    }
  }

  lemma {:induction false} NobodySleeps(s: State, t: nat, update: Update, incr: int)
    requires HoldersOk(s) && SleepersOk(s) && Enabled(s, Release(t, update, incr))
    ensures SleepersOk(Apply(s, Release(t, update, incr)))
  {
    HeldIsBusy(s, t);
  }

  lemma {:induction false} StepKeeps(s: State, a: Action)
    requires Inv(s) && Enabled(s, a)
    ensures Inv(Apply(s, a))
  {
    hide Inv;
    match a
    case Pick(t, _, f) => TakeKeeps(s, Picked(s.fs, f), t, f);
    case PickFails(_, _) =>
    case AwaitIdle(t) => RelabelKeeps(s, t, AwaitsIdle);
    case Claim(t, f, purpose) =>
      if s.fs.files[f].busy {
        SleepKeeps(s, t, f);
      } else {
        TakeKeeps(s, Claimed(s.fs, f, purpose), t, f);
      }
    case Wake(t) => RelabelKeeps(s, t, Ready);
    case Release(t, update, incr) => ReleaseKeeps(s, t, update, incr);
  }

  lemma {:induction false} RunKeeps(states: seq<State>, actions: seq<Action>, i: nat)
    requires IsRun(states, actions) && i < |states|
    ensures Inv(states[i])
  {
    hide Inv, Apply;
    if i == 0 {
      InitKeeps(states[0]);
    } else {
      RunKeeps(states, actions, i - 1);
      assert Enabled(states[i - 1], actions[i - 1]);
      StepKeeps(states[i - 1], actions[i - 1]);
    }
  }

  // ----- What that means

  // In every run, at every moment: the three trees partition the files, by the flags; nobody
  // shares a held file; and whoever sleeps for a file sleeps for one that is held and whose
  // release will wake them.
  lemma {:induction false} RunsAreSafe(states: seq<State>, actions: seq<Action>, i: nat, f: nat, t: nat, u: nat)
    requires IsRun(states, actions) && i < |states| && f in states[i].fs.files && t in states[i].threads
             && u in states[i].threads
    ensures var s := states[i];
            var file := s.fs.files[f];
            && (f in s.fs.trees.free <==> file.free)
            && (f in s.fs.trees.exist <==> !file.free && file.present)
            && (f in s.fs.trees.noex <==> !file.free && !file.present)
            && (s.threads[t] == Holding(f) && s.threads[u] == Holding(f) ==> t == u)
            && (s.threads[t] == Sleeping(f) ==>
                  file.busy && file.waiting && exists h :: h in s.threads && h != t && s.threads[h] == Holding(f))
            && (file.busy <==> exists h :: h in s.threads && s.threads[h] == Holding(f))
  {
    RunKeeps(states, actions, i);
  }

  // A pick hands out a file of the kind asked for, which nobody held, and leaves everything but
  // its being held as it was; it finds none only if every file of that kind is held.
  lemma {:induction false} PickIsOfItsKind(states: seq<State>, actions: seq<Action>, i: nat)
    requires IsRun(states, actions) && i < |actions|
    ensures var s, a := states[i], actions[i];
            && (a.Pick? ==>
                  && a.f in s.fs.files && !s.fs.files[a.f].busy
                  && (a.kind == Unique ==> s.fs.files[a.f].free)
                  && (a.kind == Exist ==> !s.fs.files[a.f].free && s.fs.files[a.f].present)
                  && (a.kind == NoExist ==> !s.fs.files[a.f].free && !s.fs.files[a.f].present)
                  && states[i + 1].fs.files == s.fs.files[a.f := s.fs.files[a.f].(busy := true)]
                  && states[i + 1].threads[a.t] == Holding(a.f))
            && (a.PickFails? ==> forall f :: f in s.fs.files && !s.fs.files[f].busy ==>
                  && (a.kind == Unique ==> !s.fs.files[f].free)
                  && (a.kind == Exist ==> s.fs.files[f].free || !s.fs.files[f].present)
                  && (a.kind == NoExist ==> s.fs.files[f].free || s.fs.files[f].present))
  {
    RunKeeps(states, actions, i);
    assert Enabled(states[i], actions[i]) && states[i + 1] == Apply(states[i], actions[i]);
    hide HoldersOk, SleepersOk;
    var fs := states[i].fs;
    forall f ensures f in TreeOf(fs.trees, Unique) <==> f in fs.files && fs.files[f].free {
      KindsAreFlags(fs, f);
    }
  }

  /** A file that a thread lets go as existing or not is that, in every run, until it is let go
      again with another word: a deleted file is not handed out as an existing one. */
  lemma {:induction false} ReleaseDecides(states: seq<State>, actions: seq<Action>, i: nat, v: bool)
    requires IsRun(states, actions) && i < |actions| && actions[i].Release? && actions[i].update == Declare(v)
    ensures var f := states[i].threads[actions[i].t].file;
            && f in states[i + 1].fs.files && !states[i + 1].fs.files[f].free && states[i + 1].fs.files[f].present == v
            && (f in states[i + 1].fs.trees.exist <==> v) && (f in states[i + 1].fs.trees.noex <==> !v)
            && states[i + 1].fs.files[f].opens == states[i].fs.files[f].opens + actions[i].incr
  {
    RunKeeps(states, actions, i);
    assert Enabled(states[i], actions[i]) && states[i + 1] == Apply(states[i], actions[i]);
    hide TreesOk, HoldersOk, SleepersOk, Released;
    ReleasedExactly(states[i].fs, states[i].threads[actions[i].t].file, actions[i].update, actions[i].incr);
  }

  // Letting a file go leaves nobody asleep for it.
  lemma {:induction false} ReleaseWakesAll(s: State, t: nat, update: Update, incr: int, u: nat)
    requires Inv(s) && Enabled(s, Release(t, update, incr)) && u in s.threads
    ensures var s' := Apply(s, Release(t, update, incr));
            u in s'.threads && s'.threads[u] != Sleeping(s.threads[t].file) && !s'.fs.files[s.threads[t].file].busy
  {
    ReleaseKeeps(s, t, update, incr);
  }

  // ----- The count of idle files

  // A close that takes a file open more than once, or not at all, does not count it out.
  predicate Uncounted(s: State, a: Action) {
    a.Claim? && a.purpose == Close && a.f in s.fs.files && !s.fs.files[a.f].busy && s.fs.files[a.f].opens != 1
  }

  lemma {:induction false} DriftSteps(s: State, a: Action)
    requires Enabled(s, a)
    ensures Apply(s, a).fs.drift == s.fs.drift + if Uncounted(s, a) then 1 else 0
  {
  }

  // The count of idle files is exact at a moment of a run if and only if no close before took
  // a file that was not open exactly once; otherwise it is too high.
  lemma {:induction false} CountIsExactIff(states: seq<State>, actions: seq<Action>, i: nat)
    requires IsRun(states, actions) && i < |states|
    ensures states[i].fs.idle >= |IdleFiles(states[i].fs)|
    ensures states[i].fs.idle == |IdleFiles(states[i].fs)| <==>
              forall k :: 0 <= k < i ==> !Uncounted(states[k], actions[k])
  {
    RunKeeps(states, actions, i);
    DriftIsZeroIff(states, actions, i);
  }

  lemma {:induction false} DriftIsZeroIff(states: seq<State>, actions: seq<Action>, i: nat)
    requires IsRun(states, actions) && i < |states|
    ensures states[i].fs.drift == 0 <==> forall k :: 0 <= k < i ==> !Uncounted(states[k], actions[k])
  {
    hide Apply;
    if i > 0 {
      DriftIsZeroIff(states, actions, i - 1);
      assert Enabled(states[i - 1], actions[i - 1]);
      DriftSteps(states[i - 1], actions[i - 1]);
      if forall k :: 0 <= k < i - 1 ==> !Uncounted(states[k], actions[k]) {
        assert forall k :: 0 <= k < i ==> k == i - 1 || !Uncounted(states[k], actions[k]);
      }
    }
  }

  // A fileset of one file, in the given tree, with one thread.
  function One(file: File, kind: Kind, idle: int, drift: nat, thread: Thread): State {
    var trees := Trees(if kind == Unique then {1} else {}, if kind == NoExist then {1} else {},
                       if kind == Exist then {1} else {});
    State(Fileset(map[1 := file], trees, idle, drift), map[0 := thread])
  }

  lemma {:induction false} OnePicked(file: File, kind: Kind, idle: int, drift: nat)
    requires !file.busy && idle != 0
    ensures Enabled(One(file, kind, idle, drift, Ready), Pick(0, kind, 1))
    ensures Apply(One(file, kind, idle, drift, Ready), Pick(0, kind, 1))
            == One(file.(busy := true), kind, idle - 1, drift, Holding(1))
  {
    assert map[0 := Ready][0 := Holding(1)] == map[0 := Holding(1)];
    assert map[1 := file][1 := file.(busy := true)] == map[1 := file.(busy := true)];
  }

  lemma {:induction false} OneClosed(file: File, kind: Kind, idle: int, drift: nat)
    requires !file.busy && file.opens != 1
    ensures Enabled(One(file, kind, idle, drift, Ready), Claim(0, 1, Close))
    ensures Apply(One(file, kind, idle, drift, Ready), Claim(0, 1, Close))
            == One(file.(busy := true), kind, idle, drift + 1, Holding(1))
  {
    assert map[0 := Ready][0 := Holding(1)] == map[0 := Holding(1)];
    assert map[1 := file][1 := file.(busy := true)] == map[1 := file.(busy := true)];
  }

  lemma {:induction false} OneReleased(file: File, kind: Kind, idle: int, drift: nat, incr: int)
    requires file.busy && !file.waiting
    ensures Enabled(One(file, kind, idle, drift, Holding(1)), Release(0, Keep, incr))
    ensures Apply(One(file, kind, idle, drift, Holding(1)), Release(0, Keep, incr)) ==
              One(file.(busy := false, opens := file.opens + incr), kind, idle + 1, drift, Ready)
  {
    assert map[0 := Holding(1)][0 := Ready] == map[0 := Ready];
    var after := file.(busy := false, opens := file.opens + incr);
    assert map[1 := file][1 := after] == map[1 := after];
  }

  lemma {:induction false} OneCreated(idle: int, drift: nat)
    ensures Enabled(One(File(true, false, true, false, 0), Unique, idle, drift, Holding(1)),
                    Release(0, Declare(true), 1))
    ensures Apply(One(File(true, false, true, false, 0), Unique, idle, drift, Holding(1)),
                  Release(0, Declare(true), 1)) ==
              One(File(false, true, false, false, 1), Exist, idle + 1, drift, Ready)
  {
    assert map[0 := Holding(1)][0 := Ready] == map[0 := Ready];
    var before, after := File(true, false, true, false, 0), File(false, true, false, false, 1);
    assert map[1 := before][1 := after] == map[1 := after];
    assert {1} - {1} == {} && {} + {1} == {1};
  }

  // One file, opened twice and closed once: the count says two files are idle.
  lemma {:induction false} CloseCanOvercount() returns (states: seq<State>, actions: seq<Action>)
    ensures IsRun(states, actions) && |states| == 7
    ensures |states[6].fs.files| == 1 && states[6].fs.idle == 2
  {
    hide Apply, Enabled, Init, One;
    var a, b, c := File(true, false, false, false, 0), File(false, true, false, false, 1),
      File(false, true, false, false, 2);
    var s0, s1 := One(a, Unique, 1, 0, Ready), One(a.(busy := true), Unique, 0, 0, Holding(1));
    var s2, s3 := One(b, Exist, 1, 0, Ready), One(b.(busy := true), Exist, 0, 0, Holding(1));
    var s4, s5 := One(c, Exist, 1, 0, Ready), One(c.(busy := true), Exist, 1, 1, Holding(1));
    var s6 := One(b, Exist, 2, 1, Ready);
    states := [s0, s1, s2, s3, s4, s5, s6];
    actions := [Pick(0, Unique, 1), Release(0, Declare(true), 1), Pick(0, Exist, 1), Release(0, Keep, 1),
                Claim(0, 1, Close), Release(0, Keep, -1)];
    OneStart();
    OnePicked(a, Unique, 1, 0);
    OneCreated(0, 0);
    OnePicked(b, Exist, 1, 0);
    OneReleased(b.(busy := true), Exist, 0, 0, 1);
    OneClosed(c, Exist, 1, 0);
    OneReleased(c.(busy := true), Exist, 1, 1, -1);
    OneSize(b, 2, 1);
  }

  lemma {:induction false} OneStart()
    ensures Init(One(File(true, false, false, false, 0), Unique, 1, 0, Ready))
  {
    var s := One(File(true, false, false, false, 0), Unique, 1, 0, Ready);
    assert s.fs.files.Keys == {1};
  }

  lemma {:induction false} OneSize(file: File, idle: int, drift: nat)
    ensures var s := One(file, Exist, idle, drift, Ready); |s.fs.files| == 1 && s.fs.idle == idle
  {
  }
}

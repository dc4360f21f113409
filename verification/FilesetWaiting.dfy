/**
 Waiting for an idle file: the same threads, with the signals that wake them. A release signals
 the condition once; the thread it wakes goes on with its own pick, which may find nothing of
 the kind it wants, and then the signal is used up while others sleep on.
 */
module FilesetWaiting {

  import R = FilesetRuns

  // What each thread that waits for an idle file wants, and which of them have been signalled
  // but have not run yet.
  datatype State = State(base: R.State, wants: map<nat, R.Kind>, woken: set<nat>)

  function Asleep(s: State): set<nat> {
    s.wants.Keys - s.woken
  }

  // ----- The steps

  // A signal wakes at least one of those who sleep; anybody may also wake without one. Whoever
  // wakes keeps the lock until the pick is done or goes back to sleep.
  datatype Action =
    | Other(step: R.Action)
    | Await(t: nat, kind: R.Kind)
    | Release(t: nat, update: R.Update, incr: int, signalled: set<nat>)
    | Spurious(t: nat)
    | Resume(t: nat, f: nat)
    | ResumeEmpty(t: nat)
    | ResumeWait(t: nat)

  // The base step that an action is, once a thread that resumes is ready again.
  function Step(s: State, a: Action): R.Action
    requires a.Resume? || a.ResumeEmpty? ==> a.t in s.wants
  {
    match a
    case Other(step) => step
    case Await(t, _) => R.AwaitIdle(t)
    case Release(t, update, incr, _) => R.Release(t, update, incr)
    case Spurious(t) => R.Wake(t)
    case Resume(t, f) => R.Pick(t, s.wants[t], f)
    case ResumeEmpty(t) => R.PickFails(t, s.wants[t])
    case ResumeWait(t) => R.AwaitIdle(t)
  }

  predicate Enabled(s: State, a: Action) {
    match a
    case Other(step) =>
      && R.Enabled(s.base, step)
      && (step.Pick? || step.PickFails? || step.Claim? || (step.Wake? && s.base.threads[step.t].Sleeping?))
    case Await(_, _) => R.Enabled(s.base, Step(s, a))
    case Release(_, _, _, signalled) =>
      && R.Enabled(s.base, Step(s, a)) && signalled <= Asleep(s)
      && (if R.Apply(s.base, Step(s, a)).fs.idle >= 1 then Asleep(s) != {} ==> signalled != {} else signalled == {})
    case Spurious(t) => t in Asleep(s)
    case _ =>
      && a.t in s.wants && a.t in s.woken && R.Enabled(s.base, R.Wake(a.t))
      && R.Enabled(R.Apply(s.base, R.Wake(a.t)), Step(s, a))
  }

  function Apply(s: State, a: Action): State
    requires Enabled(s, a)
  {
    match a
    case Other(step) => s.(base := R.Apply(s.base, step))
    case Await(t, kind) => s.(base := R.Apply(s.base, Step(s, a)), wants := s.wants[t := kind])
    case Release(_, _, _, signalled) => s.(base := R.Apply(s.base, Step(s, a)), woken := s.woken + signalled)
    case Spurious(t) => s.(woken := s.woken + {t})
    case ResumeWait(t) => State(R.Apply(R.Apply(s.base, R.Wake(t)), Step(s, a)), s.wants, s.woken - {t})
    case _ => State(R.Apply(R.Apply(s.base, R.Wake(a.t)), Step(s, a)), s.wants - {a.t}, s.woken - {a.t})
  }

  predicate Init(s: State) {
    R.Init(s.base) && s.wants == map[] && s.woken == {}
  }

  ghost predicate IsRun(states: seq<State>, actions: seq<Action>) {
    && |states| == |actions| + 1 && Init(states[0])
    && (forall i :: 0 <= i < |actions| ==>
          Enabled(states[i], actions[i]) && states[i + 1] == Apply(states[i], actions[i]))
  }

  // ----- What every run keeps

  ghost predicate WaitersOk(s: State) {
    && s.woken <= s.wants.Keys
    && forall t :: t in s.wants <==> t in s.base.threads && s.base.threads[t].AwaitsIdle?
  }

  ghost predicate Inv(s: State) {
    R.Inv(s.base) && WaitersOk(s)
  }

  lemma {:induction false} BaseKeeps(s: State, a: Action)
    requires R.Inv(s.base) && Enabled(s, a)
    ensures R.Inv(Apply(s, a).base)
  {
    hide R.Inv, R.Apply, R.Enabled;
    match a
    case Other(step) => R.StepKeeps(s.base, step);
    case Await(_, _) => R.StepKeeps(s.base, Step(s, a));
    case Release(_, _, _, _) => R.StepKeeps(s.base, Step(s, a));
    case Spurious(_) =>
    case _ =>
      R.StepKeeps(s.base, R.Wake(a.t));
      R.StepKeeps(R.Apply(s.base, R.Wake(a.t)), Step(s, a));
  }

  lemma {:induction false} StepKeeps(s: State, a: Action)
    requires Inv(s) && Enabled(s, a)
    ensures Inv(Apply(s, a))
  {
    hide R.Inv;
    BaseKeeps(s, a);
  }

  lemma {:induction false} RunKeeps(states: seq<State>, actions: seq<Action>, i: nat)
    requires IsRun(states, actions) && i < |states|
    ensures Inv(states[i])
  {
    hide Apply, R.Inv, R.Init;
    if i == 0 {
      R.InitKeeps(states[0].base);
      NobodyWaits(states[0]);
    } else {
      RunKeeps(states, actions, i - 1);
      assert Enabled(states[i - 1], actions[i - 1]);
      StepKeeps(states[i - 1], actions[i - 1]);
    }
  }

  lemma {:induction false} NobodyWaits(s: State)
    requires Init(s)
    ensures WaitersOk(s)
  {
  }

  // ----- Lost wake-ups

  // Somebody sleeps although more files count as idle than there are woken threads to take them.
  predicate Lost(s: State) {
    Asleep(s) != {} && s.base.fs.idle > |s.woken|
  }

  // A woken thread finds nothing of its kind and returns, while others sleep, and every other
  // idle file already has a woken thread to come for it.
  predicate Wastes(s: State, a: Action) {
    a.ResumeEmpty? && Asleep(s) != {} && s.base.fs.idle == |s.woken|
  }

  lemma {:induction false} IdleChange(s: State, a: Action)
    requires Inv(s) && Enabled(s, a)
    ensures var idle, idle' := s.base.fs.idle, Apply(s, a).base.fs.idle;
            match a
            case Other(_) => idle' <= idle
            case Await(_, _) => idle' == idle == 0
            case Release(_, _, _, _) => idle' == idle + 1 && idle' >= 1
            case Spurious(_) => idle' == idle
            case Resume(_, _) => idle' == idle - 1
            case ResumeEmpty(_) => idle' == idle
            case ResumeWait(_) => idle' == idle == 0
  {
    hide R.TreesOk, R.SleepersOk;
  }

  lemma {:induction false} WokenChange(s: State, a: Action)
    requires Inv(s) && Enabled(s, a)
    ensures var woken, woken' := |s.woken|, |Apply(s, a).woken|;
            match a
            case Other(_) => woken' == woken && Asleep(Apply(s, a)) == Asleep(s)
            case Await(_, _) => woken' == woken
            case Release(_, _, _, signalled) =>
              woken' == woken + |signalled| && Asleep(Apply(s, a)) == Asleep(s) - signalled
            case Spurious(t) => woken' == woken + 1 && Asleep(Apply(s, a)) == Asleep(s) - {t}
            case Resume(_, _) => woken' == woken - 1 && Asleep(Apply(s, a)) == Asleep(s)
            case ResumeEmpty(_) => woken' == woken - 1 && Asleep(Apply(s, a)) == Asleep(s)
            case ResumeWait(_) => woken' == woken - 1
  {
    hide R.Inv, R.Apply, R.Enabled;
    match a
    case Other(_) =>
    case Await(_, _) =>
    case Release(_, _, _, signalled) => MoreWoken(s.wants, s.woken, signalled);
    case Spurious(t) => MoreWoken(s.wants, s.woken, {t});
    case _ => OneGone(s.wants, s.woken, a.t);
  }

  lemma {:induction false} MoreWoken(wants: map<nat, R.Kind>, woken: set<nat>, more: set<nat>)
    requires woken <= wants.Keys && more <= wants.Keys - woken
    ensures |woken + more| == |woken| + |more| && wants.Keys - (woken + more) == (wants.Keys - woken) - more
  {
  }

  lemma {:induction false} OneGone(wants: map<nat, R.Kind>, woken: set<nat>, t: nat)
    requires woken <= wants.Keys && t in woken
    ensures |woken - {t}| == |woken| - 1 && (wants - {t}).Keys - (woken - {t}) == wants.Keys - woken
  {
  }

  // A step loses a wake-up if and only if it wastes a signal.
  lemma {:induction false} LosesIff(s: State, a: Action)
    requires Inv(s) && Enabled(s, a) && !Lost(s)
    ensures Lost(Apply(s, a)) <==> Wastes(s, a)
  {
    hide R.Inv, R.Apply, R.Enabled, Apply, WaitersOk;
    IdleChange(s, a);
    WokenChange(s, a);
    if a.Release? && Asleep(s) != {} {
      ReleaseSignals(s, a);
    }
  }

  lemma {:induction false} ReleaseSignals(s: State, a: Action)
    requires Inv(s) && Enabled(s, a) && a.Release? && Asleep(s) != {}
    ensures |a.signalled| >= 1
  {
    hide R.Inv, R.Apply, R.Enabled;
    IdleChange(s, a);
    assert a.signalled != {};
  }

  /** No wake-up is lost up to some moment of a run if and only if no signal was wasted before it. */
  lemma {:induction false} NoneLostIff(states: seq<State>, actions: seq<Action>, i: nat)
    requires IsRun(states, actions) && i < |states|
    ensures (forall j :: 0 <= j <= i ==> !Lost(states[j])) <==>
              (forall k :: 0 <= k < i ==> !Wastes(states[k], actions[k]))
  {
    hide Apply, Inv, Lost, Wastes, Enabled, Init;
    if i == 0 {
      NotLostYet(states[0]);
    } else {
      NoneLostIff(states, actions, i - 1);
      if forall j :: 0 <= j <= i - 1 ==> !Lost(states[j]) {
        RunKeeps(states, actions, i - 1);
        assert Enabled(states[i - 1], actions[i - 1]) && !Lost(states[i - 1]);
        LosesIff(states[i - 1], actions[i - 1]);
        assert Lost(states[i]) <==> Wastes(states[i - 1], actions[i - 1]);
      } else {
        var j :| 0 <= j <= i - 1 && Lost(states[j]);
        var k :| 0 <= k < i - 1 && Wastes(states[k], actions[k]);
      }
    }
  }

  lemma {:induction false} NotLostYet(s: State)
    requires Init(s)
    ensures !Lost(s)
  {
  }

  /** As long as no signal was wasted, once everybody who was woken has run, a thread that still
      sleeps does so because every file is held. */
  lemma {:induction false} NobodyLeftBehind(states: seq<State>, actions: seq<Action>, i: nat, t: nat, f: nat)
    requires IsRun(states, actions) && i < |states| && forall k :: 0 <= k < i ==> !Wastes(states[k], actions[k])
    requires states[i].woken == {} && t in Asleep(states[i]) && f in states[i].base.fs.files
    ensures states[i].base.fs.files[f].busy
  {
    NoneLostIff(states, actions, i);
    RunKeeps(states, actions, i);
    assert !Lost(states[i]);
    assert R.IdleFiles(states[i].base.fs) == {};
    assert f !in R.IdleFiles(states[i].base.fs);
  }

  // A woken thread finds a file when all files are of its kind and the count is right: then no
  // signal is wasted.
  lemma {:induction false} OneKindSuffices(s: State, t: nat)
    requires Inv(s) && t in s.wants && s.base.fs.drift == 0
    requires R.TreeOf(s.base.fs.trees, s.wants[t]) == s.base.fs.files.Keys
    ensures !Enabled(s, ResumeEmpty(t))
  {
    var fs := s.base.fs;
    if fs.idle != 0 {
      assert R.IdleFiles(fs) != {};
      var f :| f in R.IdleFiles(fs);
      assert f in R.TreeOf(fs.trees, s.wants[t]) && !fs.files[f].busy;
    }
  }

  // ----- A run that loses one

  function Example(file: R.File, trees: R.Trees, idle: int, t0: R.Thread, t1: R.Thread, t2: R.Thread): R.State {
    R.State(R.Fileset(map[1 := file], trees, idle, 0), map[0 := t0, 1 := t1, 2 := t2])
  }

  const FREE := R.File(true, false, false, false, 0)
  const HELD := R.File(true, false, true, false, 0)
  const THERE := R.File(false, true, false, false, 0)
  const IN_FREE := R.Trees({1}, {}, {})
  const IN_EXIST := R.Trees({}, {}, {1})
  const BOTH: map<nat, R.Kind> := map[1 := R.NoExist, 2 := R.Exist]

  lemma {:induction false} FirstPick()
    ensures var s := State(Example(FREE, IN_FREE, 1, R.Ready, R.Ready, R.Ready), map[], {});
            && Init(s) && Enabled(s, Other(R.Pick(0, R.Unique, 1)))
            && Apply(s, Other(R.Pick(0, R.Unique, 1)))
               == State(Example(HELD, IN_FREE, 0, R.Holding(1), R.Ready, R.Ready), map[], {})
  {
    assert map[1 := FREE][1 := HELD] == map[1 := HELD];
    Renamed(R.Ready, R.Ready, R.Ready, R.Holding(1));
  }

  lemma {:induction false} Renamed(t0: R.Thread, t1: R.Thread, t2: R.Thread, now: R.Thread)
    ensures var threads: map<nat, R.Thread> := map[0 := t0, 1 := t1, 2 := t2];
            && threads[0 := now] == map[0 := now, 1 := t1, 2 := t2]
            && threads[1 := now] == map[0 := t0, 1 := now, 2 := t2]
            && threads[2 := now] == map[0 := t0, 1 := t1, 2 := now]
  {
  }

  lemma {:induction false} BothWait()
    ensures var s := State(Example(HELD, IN_FREE, 0, R.Holding(1), R.Ready, R.Ready), map[], {});
            var s' := State(Example(HELD, IN_FREE, 0, R.Holding(1), R.AwaitsIdle, R.Ready), map[1 := R.NoExist], {});
            && Enabled(s, Await(1, R.NoExist)) && Apply(s, Await(1, R.NoExist)) == s'
            && Enabled(s', Await(2, R.Exist))
            && Apply(s', Await(2, R.Exist))
               == State(Example(HELD, IN_FREE, 0, R.Holding(1), R.AwaitsIdle, R.AwaitsIdle), BOTH, {})
  {
    Renamed(R.Holding(1), R.Ready, R.Ready, R.AwaitsIdle);
    Renamed(R.Holding(1), R.AwaitsIdle, R.Ready, R.AwaitsIdle);
    var none: map<nat, R.Kind> := map[];
    assert none[1 := R.NoExist] == map[1 := R.NoExist];
    assert map[1 := R.NoExist][2 := R.Exist] == BOTH;
  }

  lemma {:induction false} LetGoAsExisting()
    ensures var s := State(Example(HELD, IN_FREE, 0, R.Holding(1), R.AwaitsIdle, R.AwaitsIdle), BOTH, {});
            var a := Release(0, R.Declare(true), 0, {1});
            && Enabled(s, a)
            && Apply(s, a) == State(Example(THERE, IN_EXIST, 1, R.Ready, R.AwaitsIdle, R.AwaitsIdle), BOTH, {1})
  {
    var s := State(Example(HELD, IN_FREE, 0, R.Holding(1), R.AwaitsIdle, R.AwaitsIdle), BOTH, {});
    Renamed(R.Holding(1), R.AwaitsIdle, R.AwaitsIdle, R.Ready);
    assert map[1 := HELD][1 := THERE] == map[1 := THERE];
    assert Asleep(s) == {1, 2};
    assert IN_FREE.free - {1} == {} && IN_FREE.exist + {1} == {1};
  }

  lemma {:induction false} FindsNothing()
    ensures var s := State(Example(THERE, IN_EXIST, 1, R.Ready, R.AwaitsIdle, R.AwaitsIdle), BOTH, {1});
            && Enabled(s, ResumeEmpty(1))
            && Apply(s, ResumeEmpty(1))
               == State(Example(THERE, IN_EXIST, 1, R.Ready, R.Ready, R.AwaitsIdle), map[2 := R.Exist], {})
  {
    Renamed(R.Ready, R.AwaitsIdle, R.AwaitsIdle, R.Ready);
    assert BOTH - {1} == map[2 := R.Exist];
  }

  /** Two threads wait, one for a file that does not exist and one for a file that does. The only
      file is let go as an existing one, the signal goes to the first, which finds nothing and
      returns; the second sleeps on beside an idle file of the kind it wants. */
  lemma {:induction false} WakeUpCanBeLost() returns (states: seq<State>, actions: seq<Action>)
    ensures IsRun(states, actions)
    ensures var s := states[|states| - 1];
            && s.woken == {} && 2 in Asleep(s) && s.wants[2] == R.Exist
            && 1 in s.base.fs.trees.exist && 1 in s.base.fs.files && !s.base.fs.files[1].busy
            && s.base.threads == map[0 := R.Ready, 1 := R.Ready, 2 := R.AwaitsIdle]
  {
    hide Init, Enabled, Apply;
    FirstPick();
    BothWait();
    LetGoAsExisting();
    FindsNothing();
    states := [State(Example(FREE, IN_FREE, 1, R.Ready, R.Ready, R.Ready), map[], {}),
               State(Example(HELD, IN_FREE, 0, R.Holding(1), R.Ready, R.Ready), map[], {}),
               State(Example(HELD, IN_FREE, 0, R.Holding(1), R.AwaitsIdle, R.Ready), map[1 := R.NoExist], {}),
               State(Example(HELD, IN_FREE, 0, R.Holding(1), R.AwaitsIdle, R.AwaitsIdle), BOTH, {}),
               State(Example(THERE, IN_EXIST, 1, R.Ready, R.AwaitsIdle, R.AwaitsIdle), BOTH, {1}),
               State(Example(THERE, IN_EXIST, 1, R.Ready, R.Ready, R.AwaitsIdle), map[2 := R.Exist], {})];
    actions := [Other(R.Pick(0, R.Unique, 1)), Await(1, R.NoExist), Await(2, R.Exist),
                Release(0, R.Declare(true), 0, {1}), ResumeEmpty(1)];
  }
}

/** The pending-timer protocol: the expiration callbacks, however late they are scheduled, against Mod, Del
    and DelSync (wireguard/device/timers.go:21-67). The regions under modifyingLock are single steps;
    runningLock is held across steps. */
module Timers {
  /** Where a started callback is: waiting for runningLock, holding it, in the expiration function, or about
      to release the lock. */
  datatype CallbackPc = Fired | Holding | Running | Leaving | Finished

  /** Where a DelSync is: after its first Del, holding runningLock, or after its second Del. */
  datatype SyncPc = Waiting | Locked | Cleared | Returned

  datatype Owner = Free | Callback(g: nat) | Sync(t: nat)

  /** `armed`: the underlying time.Timer will fire. `mods` and `runs` count the calls of Mod and of the
      expiration function. */
  datatype State = State(isPending: bool, armed: bool, runningLock: Owner, callbacks: seq<CallbackPc>, syncs: seq<SyncPc>,
                         mods: nat, runs: nat)

  const INIT := State(false, false, Free, [], [], 0, 0)

  datatype Step =
    | Mod                 // by anyone, the expiration function included
    | Del                 // likewise
    | Fire                // the time.Timer starts the callback
    | Acquire(g: nat)     // the callback gets runningLock
    | Check(g: nat)       // it tests and clears isPending, and calls the expiration function or not
    | Complete(g: nat)    // the expiration function returns
    | Release(g: nat)     // the callback releases runningLock
    | SyncFirstDel        // DelSync: the first Del
    | SyncLock(t: nat)    // it gets runningLock
    | SyncSecondDel(t: nat)
    | SyncReturn(t: nat)  // it releases runningLock

  predicate Enabled(s: State, step: Step) {
    match step
    case Mod => true
    case Del => true
    case Fire => s.armed
    case Acquire(g) => g < |s.callbacks| && s.callbacks[g] == Fired && s.runningLock == Free
    case Check(g) => g < |s.callbacks| && s.callbacks[g] == Holding
    case Complete(g) => g < |s.callbacks| && s.callbacks[g] == Running
    case Release(g) => g < |s.callbacks| && s.callbacks[g] == Leaving
    case SyncFirstDel => true
    case SyncLock(t) => t < |s.syncs| && s.syncs[t] == Waiting && s.runningLock == Free
    case SyncSecondDel(t) => t < |s.syncs| && s.syncs[t] == Locked
    case SyncReturn(t) => t < |s.syncs| && s.syncs[t] == Cleared
  }

  function Deleted(s: State): State {
    s.(isPending := false, armed := false)
  }

  function Apply(s: State, step: Step): State
    requires Enabled(s, step)
  {
    match step
    case Mod => s.(isPending := true, armed := true, mods := s.mods + 1)
    case Del => Deleted(s)
    case Fire => s.(armed := false, callbacks := s.callbacks + [Fired])
    case Acquire(g) => s.(runningLock := Callback(g), callbacks := s.callbacks[g := Holding])
    case Check(g) =>
      if !s.isPending then s.(callbacks := s.callbacks[g := Leaving])
      else s.(isPending := false, callbacks := s.callbacks[g := Running], runs := s.runs + 1)
    case Complete(g) => s.(callbacks := s.callbacks[g := Leaving])
    case Release(g) => s.(runningLock := Free, callbacks := s.callbacks[g := Finished])
    case SyncFirstDel => Deleted(s).(syncs := s.syncs + [Waiting])
    case SyncLock(t) => s.(runningLock := Sync(t), syncs := s.syncs[t := Locked])
    case SyncSecondDel(t) => Deleted(s).(syncs := s.syncs[t := Cleared])
    case SyncReturn(t) => s.(runningLock := Free, syncs := s.syncs[t := Returned])
  }

  predicate Possible(s: State, run: seq<Step>)
    decreases |run|
  {
    run == [] || (Enabled(s, run[0]) && Possible(Apply(s, run[0]), run[1..]))
  }

  function After(s: State, run: seq<Step>): State
    requires Possible(s, run)
    decreases |run|
  {
    if run == [] then s else After(Apply(s, run[0]), run[1..])
  }

  ghost predicate CallbackOk(s: State, g: nat)
    requires g < |s.callbacks|
  {
    s.callbacks[g] in {Holding, Running, Leaving} <==> s.runningLock == Callback(g)
  }

  ghost predicate SyncOk(s: State, t: nat)
    requires t < |s.syncs|
  {
    s.syncs[t] in {Locked, Cleared} <==> s.runningLock == Sync(t)
  }

  ghost predicate OwnerOk(s: State) {
    && (s.runningLock.Callback? ==> s.runningLock.g < |s.callbacks|)
    && (s.runningLock.Sync? ==> s.runningLock.t < |s.syncs|)
  }

  /** runningLock is held by whoever is between taking and releasing it, and every run of the expiration
      function, past or pending, was asked for. */
  ghost predicate Inv(s: State) {
    && (forall g: nat {:trigger CallbackOk(s, g)} :: g < |s.callbacks| ==> CallbackOk(s, g))
    && (forall t: nat {:trigger SyncOk(s, t)} :: t < |s.syncs| ==> SyncOk(s, t))
    && OwnerOk(s)
    && s.runs + (if s.isPending then 1 else 0) <= s.mods
  }

  lemma CallbackStep(s: State, step: Step, g: nat)
    requires Inv(s) && Enabled(s, step) && g < |Apply(s, step).callbacks|
    ensures CallbackOk(Apply(s, step), g)
  {
    if g < |s.callbacks| {
      assert CallbackOk(s, g);
    }
    if step.Acquire? || step.Check? || step.Complete? || step.Release? {
      assert CallbackOk(s, step.g);
    }
    if step.SyncLock? || step.SyncReturn? {
      assert SyncOk(s, step.t);
    }
  }

  lemma SyncStep(s: State, step: Step, t: nat)
    requires Inv(s) && Enabled(s, step) && t < |Apply(s, step).syncs|
    ensures SyncOk(Apply(s, step), t)
  {
    if t < |s.syncs| {
      assert SyncOk(s, t);
    }
    if step.Acquire? || step.Release? {
      assert CallbackOk(s, step.g);
    }
    if step.SyncLock? || step.SyncSecondDel? || step.SyncReturn? {
      assert SyncOk(s, step.t);
    }
  }

  lemma StepInv(s: State, step: Step)
    requires Inv(s) && Enabled(s, step)
    ensures Inv(Apply(s, step))
  {
    hide CallbackOk, SyncOk;
    var s' := Apply(s, step);
    forall g: nat | g < |s'.callbacks| ensures CallbackOk(s', g) {
      CallbackStep(s, step, g);
    }
    forall t: nat | t < |s'.syncs| ensures SyncOk(s', t) {
      SyncStep(s, step, t);
    }
  }

  lemma {:induction false} RunInv(s: State, run: seq<Step>)
    requires Inv(s) && Possible(s, run)
    ensures Inv(After(s, run))
    decreases |run|
  {
    hide Inv;
    if run != [] {
      StepInv(s, run[0]);
      RunInv(Apply(s, run[0]), run[1..]);
    }
  }

  /** In every interleaving the expiration function runs at most once for each Mod, and never twice at the
      same time. */
  lemma RunsAtMostMods(run: seq<Step>)
    requires Possible(INIT, run)
    ensures var s := After(INIT, run);
            && s.runs <= s.mods
            && forall g, h :: 0 <= g < h < |s.callbacks| ==> !(s.callbacks[g] == Running && s.callbacks[h] == Running)
  {
    RunInv(INIT, run);
    var s := After(INIT, run);
    forall g, h | 0 <= g < h < |s.callbacks| ensures !(s.callbacks[g] == Running && s.callbacks[h] == Running) {
      assert CallbackOk(s, g) && CallbackOk(s, h);
    }
  }

  /** No callback is in the expiration function, and none will enter it as things are. */
  ghost predicate Quiet(s: State) {
    !s.isPending && forall g :: 0 <= g < |s.callbacks| ==> s.callbacks[g] != Running
  }

  lemma StaysQuiet(s: State, step: Step)
    requires Quiet(s) && Enabled(s, step) && step != Mod
    ensures Quiet(Apply(s, step)) && Apply(s, step).runs == s.runs
  {
  }

  lemma {:induction false} StaysQuietRun(s: State, run: seq<Step>)
    requires Quiet(s) && Possible(s, run) && Mod !in run
    ensures Quiet(After(s, run)) && After(s, run).runs == s.runs
    decreases |run|
  {
    if run != [] {
      StaysQuiet(s, run[0]);
      StaysQuietRun(Apply(s, run[0]), run[1..]);
    }
  }

  lemma {:induction false} Split(s: State, a: seq<Step>, b: seq<Step>)
    requires Possible(s, a + b)
    ensures Possible(s, a) && Possible(After(s, a), b) && After(s, a + b) == After(After(s, a), b)
    decreases |a|
  {
    hide Enabled, Apply;
    if a == [] {
      assert a + b == b;
    } else {
      assert (a + b)[0] == a[0] && (a + b)[1..] == a[1..] + b;
      Split(Apply(s, a[0]), a[1..], b);
    }
  }

  /** No run of the expiration function has been asked for. */
  lemma {:induction false} NotPending(s: State, run: seq<Step>)
    requires !s.isPending && Possible(s, run) && Mod !in run
    ensures !After(s, run).isPending && After(s, run).runs == s.runs
    decreases |run|
  {
    if run != [] {
      NotPending(Apply(s, run[0]), run[1..]);
    }
  }

  /** In every interleaving, from any Del on, that of Del itself or either one of DelSync, no run of the expiration function
      starts until a later Mod. */
  lemma DelStops(before: seq<Step>, del: Step, later: seq<Step>)
    requires Possible(INIT, before + [del] + later) && (del.Del? || del.SyncFirstDel? || del.SyncSecondDel?) && Mod !in later
    ensures Possible(INIT, before) && After(INIT, before + [del] + later).runs == After(INIT, before).runs
  {
    Split(INIT, before + [del], later);
    Split(INIT, before, [del]);
    var s := After(INIT, before);
    assert Enabled(s, del) && After(s, [del]) == Apply(s, del);
    NotPending(Apply(s, del), later);
  }

  /** After a Mod, the expiration function runs as soon as the timer fires and its callback gets the lock. */
  lemma ModRuns(s: State)
    requires s.runningLock == Free
    ensures var run := [Mod, Fire, Acquire(|s.callbacks|), Check(|s.callbacks|)];
            && Possible(s, run) && After(s, run).runs == s.runs + 1
            && |After(s, run).callbacks| == |s.callbacks| + 1 && After(s, run).callbacks[|s.callbacks|] == Running
  {
    var g := |s.callbacks|;
    var s1 := Apply(s, Mod);
    var s2 := Apply(s1, Fire);
    var s3 := Apply(s2, Acquire(g));
    var s4 := Apply(s3, Check(g));
    hide Enabled, Apply;
    First(s3, Check(g), []);
    First(s2, Acquire(g), [Check(g)]);
    First(s1, Fire, [Acquire(g), Check(g)]);
    First(s, Mod, [Fire, Acquire(g), Check(g)]);
    assert [Check(g)] + [] == [Check(g)] && [Acquire(g)] + [Check(g)] == [Acquire(g), Check(g)];
    assert [Fire] + [Acquire(g), Check(g)] == [Fire, Acquire(g), Check(g)];
    assert [Mod] + [Fire, Acquire(g), Check(g)] == [Mod, Fire, Acquire(g), Check(g)];
  }

  lemma First(s: State, step: Step, rest: seq<Step>)
    requires Enabled(s, step) && Possible(Apply(s, step), rest)
    ensures Possible(s, [step] + rest) && After(s, [step] + rest) == After(Apply(s, step), rest)
  {
    hide Enabled, Apply;
    assert ([step] + rest)[1..] == rest;
  }

  /** In every interleaving, from the second Del of a DelSync on, hence after it returns, the expiration
      function is not running and does not start, until a later Mod; even if the callback had re-armed the
      timer while DelSync was waiting for it. */
  lemma DelSyncStops(before: seq<Step>, t: nat, later: seq<Step>)
    requires Possible(INIT, before + [SyncSecondDel(t)] + later) && Mod !in later
    ensures Possible(INIT, before + [SyncSecondDel(t)])
    ensures var s := After(INIT, before + [SyncSecondDel(t)]);
            var s' := After(INIT, before + [SyncSecondDel(t)] + later);
            Quiet(s') && s'.runs == s.runs
  {
    hide Enabled, Apply;
    Split(INIT, before + [SyncSecondDel(t)], later);
    Split(INIT, before, [SyncSecondDel(t)]);
    RunInv(INIT, before);
    SecondDelQuiet(After(INIT, before), t);
    StaysQuietRun(After(INIT, before + [SyncSecondDel(t)]), later);
  }

  lemma SecondDelQuiet(s: State, t: nat)
    requires Inv(s) && Possible(s, [SyncSecondDel(t)])
    ensures Quiet(After(s, [SyncSecondDel(t)]))
  {
    assert Enabled(s, SyncSecondDel(t));
    var s' := Apply(s, SyncSecondDel(t));
    assert After(s, [SyncSecondDel(t)]) == s';
    assert s.syncs[t] == Locked && SyncOk(s, t);
    forall g | 0 <= g < |s'.callbacks| ensures s'.callbacks[g] != Running {
      assert s'.callbacks[g] == s.callbacks[g] && CallbackOk(s, g);
    }
  }

  /** Plain Del gives no such promise: the expiration function may be running when it returns. */
  lemma DelDoesNotWait()
    ensures var run := [Mod, Fire, Acquire(0), Check(0), Del]; Possible(INIT, run) && !Quiet(After(INIT, run))
  {
    var s1 := Apply(INIT, Mod);
    var s2 := Apply(s1, Fire);
    var s3 := Apply(s2, Acquire(0));
    var s4 := Apply(s3, Check(0));
    var s5 := Apply(s4, Del);
    assert s5.callbacks[0] == Running;
    var run := [Mod, Fire, Acquire(0), Check(0), Del];
    assert run[1..] == [Fire, Acquire(0), Check(0), Del] && run[1..][1..] == [Acquire(0), Check(0), Del]
        && run[1..][1..][1..] == [Check(0), Del] && run[1..][1..][1..][1..] == [Del] && run[1..][1..][1..][1..][1..] == [];
    assert Possible(s4, [Del]) && After(s4, [Del]) == s5;
    assert Possible(s3, [Check(0), Del]) && After(s3, [Check(0), Del]) == s5;
    assert Possible(s2, run[1..][1..]) && After(s2, run[1..][1..]) == s5;
  }
}

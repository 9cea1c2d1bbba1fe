/**
 Which snapshot is installed (`install_snapshot` and `set_catalog` in `tempr_services/src/intelligence.rs`).  The
 service remembers the id of the snapshot it installed, to ignore a second install of it.  An install keeps the lock
 of that id while it replaces the catalog; a set forgets the id in one lock section and replaces the catalog after it.
 Any number of installs and sets interleave.
 */
module InstallProtocol {
  import opened Wrappers

  type Thread = nat
  type SnapshotId = nat

  /** Where the engine's catalog comes from. */
  datatype Source = Initial | OfSnapshot(id: SnapshotId) | Supplied(catalog: nat)

  /** Where an `install_snapshot` call stands. */
  datatype Stage =
    | Waiting   // about to take the lock and compare ids
    | Locked    // in the lock: about to replace the catalog
    | Replaced  // in the lock: about to remember the id

  datatype Install = Install(id: SnapshotId, stage: Stage)

  /** A `set_catalog` call, before or after it forgot the id. */
  datatype Setting = Setting(catalog: nat, forgot: bool)

  datatype State = State(
    catalog: Source,
    installed: Option<SnapshotId>,
    held: Option<Thread>,
    installs: map<Thread, Install>,
    sets: map<Thread, Setting>)

  datatype Step =
    | CallInstall(t: Thread, id: SnapshotId)
    | Lock(t: Thread)
    | Replace(t: Thread)
    | Remember(t: Thread)
    | CallSet(t: Thread, catalog: nat)
    | Forget(t: Thread)
    | Supply(t: Thread)

  predicate Init(s: State) {
    s == State(Initial, None, None, map[], map[])
  }

  predicate Enabled(s: State, step: Step) {
    match step
    case CallInstall(t, _) => t !in s.installs && t !in s.sets
    case Lock(t) => t in s.installs && s.installs[t].stage.Waiting? && s.held.None?
    case Replace(t) => t in s.installs && s.installs[t].stage.Locked?
    case Remember(t) => t in s.installs && s.installs[t].stage.Replaced?
    case CallSet(t, _) => t !in s.installs && t !in s.sets
    case Forget(t) => t in s.sets && !s.sets[t].forgot && s.held.None?
    case Supply(t) => t in s.sets && s.sets[t].forgot
  }

  /** An install of the remembered snapshot returns at once. */
  predicate Ignored(s: State, step: Step)
    requires Enabled(s, step)
  {
    step.Lock? && s.installed == Some(s.installs[step.t].id)
  }

  function Next(s: State, step: Step): State
    requires Enabled(s, step)
  {
    match step
    case CallInstall(t, id) => s.(installs := s.installs[t := Install(id, Waiting)])
    case Lock(t) =>
      if Ignored(s, step) then s.(installs := s.installs - {t})
      else s.(held := Some(t), installs := s.installs[t := s.installs[t].(stage := Locked)])
    case Replace(t) =>
      s.(catalog := OfSnapshot(s.installs[t].id), installs := s.installs[t := s.installs[t].(stage := Stage.Replaced)])
    case Remember(t) => s.(installed := Some(s.installs[t].id), held := None, installs := s.installs - {t})
    case CallSet(t, catalog) => s.(sets := s.sets[t := Setting(catalog, false)])
    case Forget(t) => s.(installed := None, sets := s.sets[t := s.sets[t].(forgot := true)])
    case Supply(t) => s.(catalog := Supplied(s.sets[t].catalog), sets := s.sets - {t})
  }

  ghost predicate Run(states: seq<State>, steps: seq<Step>) {
    && |states| == |steps| + 1 && Init(states[0])
    && forall i :: 0 <= i < |steps| ==> Enabled(states[i], steps[i]) && states[i + 1] == Next(states[i], steps[i])
  }

  /** The lock is held exactly by an install between its comparison and its return. */
  ghost predicate LockInv(s: State) {
    && (s.held.Some? ==> s.held.value in s.installs && !s.installs[s.held.value].stage.Waiting?)
    && forall t :: t in s.installs && !s.installs[t].stage.Waiting? ==> s.held == Some(t)
  }

  /** The snapshot the service takes for installed: the remembered one, or the one about to be remembered. */
  function Claimed(s: State): Option<SnapshotId> {
    if s.held.Some? && s.held.value in s.installs && s.installs[s.held.value].stage.Replaced?
    then Some(s.installs[s.held.value].id) else s.installed
  }

  // --- who wrote the catalog last ---

  /** Among the first `i` steps, the last to replace the catalog is a set's. */
  ghost predicate SuppliedLast(steps: seq<Step>, i: nat)
    requires i <= |steps|
  {
    i > 0 && (steps[i - 1].Supply? || (!steps[i - 1].Replace? && SuppliedLast(steps, i - 1)))
  }

  ghost predicate Tracked(s: State, supplied: bool) {
    && LockInv(s)
    && (supplied ==> s.catalog.Supplied?)
    && (!supplied && Claimed(s).Some? ==> s.catalog == OfSnapshot(Claimed(s).value))
  }

  lemma LockKeeps(s: State, supplied: bool, t: Thread)
    requires Tracked(s, supplied) && Enabled(s, Lock(t))
    ensures Tracked(Next(s, Lock(t)), supplied)
  {
    assert s.held.None?;
  }

  lemma StepTracks(s: State, step: Step, supplied: bool)
    requires Tracked(s, supplied) && Enabled(s, step)
    ensures Tracked(Next(s, step), step.Supply? || (!step.Replace? && supplied))
  {
    match step
    case CallInstall(_, _) =>
    case Lock(t) => LockKeeps(s, supplied, t);
    case Replace(t) => assert s.held == Some(t);
    case Remember(t) => assert s.held == Some(t);
    case CallSet(_, _) =>
    case Forget(_) => assert s.held.None?;
    case Supply(_) =>
  }

  lemma {:induction false} RunTracks(states: seq<State>, steps: seq<Step>, i: nat)
    requires Run(states, steps) && i < |states|
    ensures Tracked(states[i], SuppliedLast(steps, i))
  {
    if i > 0 {
      RunTracks(states, steps, i - 1);
      StepTracks(states[i - 1], steps[i - 1], SuppliedLast(steps, i - 1));
    }
  }

  /** In every interleaving, the remembered id names the installed catalog exactly when no set was the last to replace
      it. */
  lemma RememberedIsInstalled(states: seq<State>, steps: seq<Step>, i: nat)
    requires Run(states, steps) && i < |states|
    requires states[i].held.None? && states[i].installed.Some?
    ensures states[i].catalog == OfSnapshot(states[i].installed.value) <==> !SuppliedLast(steps, i)
  {
    RunTracks(states, steps, i);
  }

  // --- without an overlap ---

  /** A set has forgotten the id and not yet replaced the catalog. */
  ghost predicate BetweenSteps(s: State) { exists t :: t in s.sets && s.sets[t].forgot }

  /** An install is under way in the lock while a set is between its two steps. */
  ghost predicate Overlap(s: State) { s.held.Some? && BetweenSteps(s) }

  ghost predicate Named(s: State) {
    && LockInv(s)
    && (BetweenSteps(s) ==> s.installed.None?)
    && (Claimed(s).Some? ==> s.catalog == OfSnapshot(Claimed(s).value))
  }

  lemma SupplyNames(s: State, t: Thread)
    requires Named(s) && Enabled(s, Supply(t)) && !Overlap(s)
    ensures Named(Next(s, Supply(t)))
  {
    assert BetweenSteps(s);
  }

  lemma ForgetNames(s: State, t: Thread)
    requires Named(s) && Enabled(s, Forget(t))
    ensures Named(Next(s, Forget(t)))
  {
    assert s.held.None?;
  }

  lemma InstallNames(s: State, step: Step)
    requires Named(s) && Enabled(s, step) && (step.Lock? || step.Replace? || step.Remember?) && !Overlap(s)
    ensures Named(Next(s, step))
  {
    var n := Next(s, step);
    assert n.sets == s.sets && (BetweenSteps(n) <==> BetweenSteps(s));
    assert step.Lock? ==> s.held.None?;
    assert step.Replace? || step.Remember? ==> s.held == Some(step.t);
  }

  lemma CallSetNames(s: State, step: Step)
    requires Named(s) && Enabled(s, step) && step.CallSet?
    ensures Named(Next(s, step))
  {
    var n := Next(s, step);
    if u :| u in n.sets && n.sets[u].forgot { assert u in s.sets && s.sets[u].forgot; }
  }

  lemma StepNames(s: State, step: Step)
    requires Named(s) && Enabled(s, step) && !Overlap(s)
    ensures Named(Next(s, step))
  {
    match step
    case CallInstall(_, _) => assert BetweenSteps(Next(s, step)) <==> BetweenSteps(s);
    case Lock(_) => InstallNames(s, step);
    case Replace(_) => InstallNames(s, step);
    case Remember(_) => InstallNames(s, step);
    case CallSet(_, _) => CallSetNames(s, step);
    case Forget(t) => ForgetNames(s, t);
    case Supply(t) => SupplyNames(s, t);
  }

  lemma {:induction false} RunNames(states: seq<State>, steps: seq<Step>, i: nat)
    requires Run(states, steps) && i < |states|
    requires forall k :: 0 <= k < i ==> !Overlap(states[k])
    ensures Named(states[i])
  {
    if i > 0 {
      RunNames(states, steps, i - 1);
      StepNames(states[i - 1], steps[i - 1]);
    }
  }

  /** As long as no install is under way while a set is between its two steps, an ignored install is of the snapshot
      whose catalog is installed. */
  lemma IgnoredIsInstalled(states: seq<State>, steps: seq<Step>, i: nat)
    requires Run(states, steps) && i < |steps| && Ignored(states[i], steps[i])
    requires forall k :: 0 <= k < i ==> !Overlap(states[k])
    ensures states[i].catalog == OfSnapshot(states[i].installs[steps[i].t].id)
  {
    RunNames(states, steps, i);
  }

  // --- with one ---

  const SET_DURING_INSTALL: seq<Step> :=
    [CallSet(0, 7), Forget(0), CallInstall(1, 3), Lock(1), Replace(1), Remember(1), Supply(0), CallInstall(1, 3), Lock(1)]

  /** One of the states of that interleaving. */
  function StateAfter(i: nat): State {
    if i == 0 then State(Initial, None, None, map[], map[])
    else if i == 1 then State(Initial, None, None, map[], map[0 := Setting(7, false)])
    else if i == 2 then State(Initial, None, None, map[], map[0 := Setting(7, true)])
    else if i == 3 then State(Initial, None, None, map[1 := Install(3, Waiting)], map[0 := Setting(7, true)])
    else if i == 4 then State(Initial, None, Some(1), map[1 := Install(3, Locked)], map[0 := Setting(7, true)])
    else if i == 5 then State(OfSnapshot(3), None, Some(1), map[1 := Install(3, Stage.Replaced)], map[0 := Setting(7, true)])
    else if i == 6 then State(OfSnapshot(3), Some(3), None, map[], map[0 := Setting(7, true)])
    else if i == 7 then State(Supplied(7), Some(3), None, map[], map[])
    else if i == 8 then State(Supplied(7), Some(3), None, map[1 := Install(3, Waiting)], map[])
    else State(Supplied(7), Some(3), None, map[], map[])
  }

  function InterleavedStates(): (states: seq<State>)
    ensures |states| == 10 && forall i :: 0 <= i < 10 ==> states[i] == StateAfter(i)
  {
    seq(10, i requires 0 <= i < 10 => StateAfter(i))
  }

  /**
   A set forgets the id, an install of snapshot 3 completes, and the set replaces its catalog: the id still names
   snapshot 3, so installing it again is ignored and the supplied catalog stays.
   */
  lemma IgnoredThoughReplaced()
    ensures
      var states := InterleavedStates();
      && Run(states, SET_DURING_INSTALL) && Ignored(states[8], SET_DURING_INSTALL[8])
      && states[8].installs[1].id == 3 && states[9].catalog == Supplied(7)
  {
    var states, steps := InterleavedStates(), SET_DURING_INSTALL;
    forall i | 0 <= i < 9 ensures Enabled(states[i], steps[i]) && states[i + 1] == Next(states[i], steps[i]) {
      InterleavingStep(i);
    }
  }

  lemma InterleavingStep(i: nat)
    requires i < 9
    ensures Enabled(StateAfter(i), SET_DURING_INSTALL[i]) && StateAfter(i + 1) == Next(StateAfter(i), SET_DURING_INSTALL[i])
  {
    var n := Next(StateAfter(i), SET_DURING_INSTALL[i]);
    assert n.installs == StateAfter(i + 1).installs && n.sets == StateAfter(i + 1).sets;
  }
}

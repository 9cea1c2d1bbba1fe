/**
 Query runs racing with their cancellation (`tempr_services/src/query.rs`).  Every lock section is one step;
 any number of runs and cancels interleave.  A run id is used for one run.
 */
module QueryProtocol {
  type RunId = nat
  type Thread = nat

  datatype Outcome = Success | Error | Cancelled

  /** The registered run: whether the driver handle is there to be taken, and the flag `cancel` sets. */
  datatype ActiveRun = ActiveRun(handle: bool, cancelled: bool)

  /** Where `execute_streaming_with_id` stands. */
  datatype Pc =
    | Took               // consumed a pending cancel, if there was one
    | Borrow             // registered, waiting for a connection
    | Attach             // has a connection, about to hand over the cancel handle
    | Send               // read "not cancelled": about to send the statement
    | Running            // the statement was sent
    | Finish             // `finish` has not removed the run yet
    | Removed            // removed from the active runs, not yet in the completed ones
    | Over

  /** A run with its history: was it cancelled before it registered, did a cancel find it active, was its
      statement sent, did a cancel take its handle, how often did it finish. */
  datatype Story = Story(pc: Pc, pre: bool, found: bool, sent: bool, taken: bool, failed: bool, flag: bool, finishes: nat)

  /** Where a `cancel` that did not find the run active stands. */
  datatype CancelPc = CheckCompleted | Arm

  datatype Cancelling = Cancelling(pc: CancelPc, id: RunId)

  datatype State = State(
    active: map<RunId, ActiveRun>,
    completed: map<RunId, Outcome>,
    pending: set<RunId>,
    runs: map<RunId, Story>,
    cancels: map<Thread, Cancelling>)

  datatype Step =
    | Start(id: RunId)                       // pending_cancels.remove
    | Register(id: RunId)                    // active_runs.insert
    | Borrowed(id: RunId, ok: bool)          // a connection, or an error
    | AttachHandle(id: RunId)                // the handle goes in, the flag comes out
    | SendStatement(id: RunId)
    | Return(id: RunId, ok: bool)            // the stream ended or failed
    | Remove(id: RunId)                      // finish: active_runs.remove
    | Complete(id: RunId)                    // finish: completed_runs.insert
    | Cancel(t: Thread, id: RunId)           // cancel: first lock section
    | LookCompleted(t: Thread)
    | ArmPending(t: Thread)

  ghost predicate Init(s: State) { s == State(map[], map[], {}, map[], map[]) }

  predicate At(s: State, id: RunId, pc: Pc) { id in s.runs && s.runs[id].pc == pc }

  predicate Enabled(s: State, step: Step) {
    match step
    case Start(id) => id !in s.runs
    case Register(id) => At(s, id, Took)
    case Borrowed(id, _) => At(s, id, Borrow)
    case AttachHandle(id) => At(s, id, Attach)
    case SendStatement(id) => At(s, id, Send)
    case Return(id, _) => At(s, id, Running)
    case Remove(id) => At(s, id, Finish)
    case Complete(id) => At(s, id, Removed)
    case Cancel(t, _) => t !in s.cancels
    case LookCompleted(t) => t in s.cancels && s.cancels[t].pc == CheckCompleted
    case ArmPending(t) => t in s.cancels && s.cancels[t].pc == Arm
  }

  function With(s: State, id: RunId, r: Story): State { s.(runs := s.runs[id := r]) }

  function OutcomeOf(r: Story): Outcome { if r.flag then Cancelled else if r.failed then Error else Success }

  function Next(s: State, step: Step): State
    requires Enabled(s, step)
  {
    match step
    case Start(id) =>
      With(s.(pending := s.pending - {id}), id, Story(Took, id in s.pending, false, false, false, false, false, 0))
    case Register(id) =>
      var r := s.runs[id];
      With(s.(active := s.active[id := ActiveRun(false, r.pre)]), id,
           if r.pre then r.(pc := Finish, failed := true) else r.(pc := Borrow))
    case Borrowed(id, ok) => With(s, id, if ok then s.runs[id].(pc := Attach) else s.runs[id].(pc := Finish, failed := true))
    case AttachHandle(id) =>
      if id !in s.active then With(s, id, s.runs[id].(pc := Send))
      else
        With(s.(active := s.active[id := s.active[id].(handle := true)]), id,
             if s.active[id].cancelled then s.runs[id].(pc := Finish, failed := true) else s.runs[id].(pc := Send))
    case SendStatement(id) => With(s, id, s.runs[id].(pc := Running, sent := true))
    case Return(id, ok) => With(s, id, s.runs[id].(pc := Finish, failed := !ok))
    case Remove(id) =>
      if id !in s.active then With(s, id, s.runs[id].(pc := Over))
      else With(s.(active := s.active - {id}), id, s.runs[id].(pc := Removed, flag := s.active[id].cancelled))
    case Complete(id) =>
      var r := s.runs[id];
      With(s.(completed := s.completed[id := OutcomeOf(r)]), id, r.(pc := Over, finishes := r.finishes + 1))
    case Cancel(t, id) =>
      if id in s.active then
        var a := s.active[id];
        var n := s.(active := s.active[id := ActiveRun(false, true)]);
        if id in s.runs then With(n, id, s.runs[id].(found := true, taken := s.runs[id].taken || a.handle)) else n
      else s.(cancels := s.cancels[t := Cancelling(CheckCompleted, id)])
    case LookCompleted(t) =>
      if s.cancels[t].id in s.completed then s.(cancels := s.cancels - {t})
      else s.(cancels := s.cancels[t := Cancelling(Arm, s.cancels[t].id)])
    case ArmPending(t) => s.(pending := s.pending + {s.cancels[t].id}, cancels := s.cancels - {t})
  }

  // --- the invariant, run by run ---

  predicate RunInv(s: State, id: RunId, r: Story) {
    && (id in s.active <==> r.pc.Borrow? || r.pc.Attach? || r.pc.Send? || r.pc.Running? || r.pc.Finish?)
    && (id in s.completed <==> r.pc.Over?)
    && r.finishes == (if r.pc.Over? then 1 else 0)
    && (id in s.active ==> (s.active[id].cancelled <==> r.pre || r.found))
    && (r.pc.Removed? || r.pc.Over? ==> (r.flag <==> r.pre || r.found))
    && (r.pc.Over? ==> s.completed[id] == OutcomeOf(r))
    && (r.pc.Took? || r.pc.Borrow? || r.pc.Attach? || r.pc.Send? ==> !r.sent)
    && (r.pc.Took? ==> !r.found && !r.taken)
    && (r.pc.Borrow? || r.pc.Attach? ==> !r.pre)
    && (r.pc.Send? || r.pc.Running? ==> !r.pre && (r.found ==> r.taken) && (!r.found ==> s.active[id].handle))
    && (r.pre ==> !r.sent)
    && (r.sent && r.pc.Finish? ==> (r.found ==> r.taken) && (!r.found ==> s.active[id].handle))
    && (r.sent && r.found ==> r.taken)
  }

  ghost predicate Inv(s: State) {
    && (forall id :: id in s.active || id in s.completed ==> id in s.runs)
    && (forall id :: id in s.runs ==> RunInv(s, id, s.runs[id]))
  }

  /** A step about one run concerns no other. */
  lemma OneRun(s: State, n: State, id: RunId)
    requires Inv(s) && id in n.runs && RunInv(n, id, n.runs[id])
    requires forall x :: x != id ==> (x in n.runs <==> x in s.runs) && (x in n.active <==> x in s.active) && (x in n.completed <==> x in s.completed)
    requires forall x :: x != id && x in s.runs ==> n.runs[x] == s.runs[x]
    requires forall x :: x != id && x in s.active ==> n.active[x] == s.active[x]
    requires forall x :: x != id && x in s.completed ==> n.completed[x] == s.completed[x]
    ensures Inv(n)
  {
    forall x | x in n.runs ensures RunInv(n, x, n.runs[x]) {
      if x != id { assert RunInv(s, x, s.runs[x]); }
    }
  }

  predicate Opening(step: Step) {
    step.Start? || step.Register? || step.Borrowed? || step.AttachHandle?
  }

  predicate Closing(step: Step) { step.SendStatement? || step.Return? || step.Remove? || step.Complete? }

  lemma OpeningKeeps(s: State, step: Step)
    requires Inv(s) && Enabled(s, step) && Opening(step)
    ensures Inv(Next(s, step))
  {
    var id := step.id;
    if id in s.runs { assert RunInv(s, id, s.runs[id]); }
    OneRun(s, Next(s, step), id);
  }

  lemma ClosingKeeps(s: State, step: Step)
    requires Inv(s) && Enabled(s, step) && Closing(step)
    ensures Inv(Next(s, step))
  {
    assert RunInv(s, step.id, s.runs[step.id]);
    OneRun(s, Next(s, step), step.id);
  }

  lemma CancelStepKeeps(s: State, step: Step)
    requires Inv(s) && Enabled(s, step) && (step.Cancel? || step.LookCompleted? || step.ArmPending?)
    ensures Inv(Next(s, step))
  {
    var n := Next(s, step);
    if step.Cancel? && step.id in s.active {
      assert RunInv(s, step.id, s.runs[step.id]);
      OneRun(s, n, step.id);
    } else {
      forall x | x in n.runs ensures RunInv(n, x, n.runs[x]) { assert RunInv(s, x, s.runs[x]); }
    }
  }

  // --- whole runs ---

  ghost predicate Run(states: seq<State>, steps: seq<Step>) {
    && |states| == |steps| + 1 && Init(states[0])
    && forall i :: 0 <= i < |steps| ==> Enabled(states[i], steps[i]) && states[i + 1] == Next(states[i], steps[i])
  }

  lemma {:induction false} RunKeeps(states: seq<State>, steps: seq<Step>, i: nat)
    requires Run(states, steps) && i < |states|
    ensures Inv(states[i])
  {
    if i > 0 {
      RunKeeps(states, steps, i - 1);
      var step := steps[i - 1];
      if Opening(step) {
        OpeningKeeps(states[i - 1], step);
      } else if Closing(step) {
        ClosingKeeps(states[i - 1], step);
      } else {
        CancelStepKeeps(states[i - 1], step);
      }
    }
  }

  /** In every interleaving a run is never both active and completed, and it finishes at most once. */
  lemma ActiveOrCompleted(states: seq<State>, steps: seq<Step>, i: nat, id: RunId)
    requires Run(states, steps) && i < |states|
    ensures !(id in states[i].active && id in states[i].completed)
    ensures id in states[i].runs ==> states[i].runs[id].finishes <= 1
    ensures id in states[i].completed <==> id in states[i].runs && states[i].runs[id].finishes == 1
  {
    RunKeeps(states, steps, i);
    if id in states[i].runs { assert RunInv(states[i], id, states[i].runs[id]); }
  }

  /** In every interleaving a finished run is `Cancelled` exactly when a cancel found it active or was armed
      before the run consumed it; and then its statement was never sent, or a cancel took its driver handle. */
  lemma CancelledExactly(states: seq<State>, steps: seq<Step>, i: nat, id: RunId)
    requires Run(states, steps) && i < |states| && id in states[i].completed
    ensures id in states[i].runs
    ensures states[i].completed[id] == Cancelled <==> states[i].runs[id].found || states[i].runs[id].pre
    ensures states[i].completed[id] == Cancelled ==> !states[i].runs[id].sent || states[i].runs[id].taken
    ensures states[i].runs[id].pre ==> !states[i].runs[id].sent
  {
    RunKeeps(states, steps, i);
    assert RunInv(states[i], id, states[i].runs[id]);
  }

  /** From one state to a later one: a run keeps its early cancel for good, and the found flag once set. */
  ghost predicate Remembers(s: State, n: State, id: RunId) {
    id in s.runs ==> id in n.runs && n.runs[id].pre == s.runs[id].pre && (s.runs[id].found ==> n.runs[id].found)
  }

  lemma OpeningRemembers(s: State, step: Step, id: RunId)
    requires Enabled(s, step) && Opening(step)
    ensures Remembers(s, Next(s, step), id)
  {
  }

  lemma ClosingRemembers(s: State, step: Step, id: RunId)
    requires Enabled(s, step) && Closing(step)
    ensures Remembers(s, Next(s, step), id)
  {
  }

  lemma CancelRemembers(s: State, step: Step, id: RunId)
    requires Enabled(s, step) && !Opening(step) && !Closing(step)
    ensures Remembers(s, Next(s, step), id)
  {
  }

  lemma StepRemembers(s: State, step: Step, n: State, id: RunId)
    requires Enabled(s, step) && n == Next(s, step)
    ensures Remembers(s, n, id)
  {
    if Opening(step) {
      OpeningRemembers(s, step, id);
    } else if Closing(step) {
      ClosingRemembers(s, step, id);
    } else {
      CancelRemembers(s, step, id);
    }
  }

  lemma RunRemembers(states: seq<State>, steps: seq<Step>, id: RunId)
    requires Run(states, steps)
    ensures forall k :: 0 <= k < |steps| ==> Remembers(states[k], states[k + 1], id)
  {
    forall k | 0 <= k < |steps| ensures Remembers(states[k], states[k + 1], id) {
      StepRemembers(states[k], steps[k], states[k + 1], id);
    }
  }

  lemma {:induction false} RemembersOn(states: seq<State>, i: nat, j: nat, id: RunId)
    requires i <= j < |states| && forall k :: 0 <= k < |states| - 1 ==> Remembers(states[k], states[k + 1], id)
    ensures Remembers(states[i], states[j], id)
    decreases j - i
  {
    if i < j {
      RemembersOn(states, i, j - 1, id);
      assert Remembers(states[j - 1], states[j - 1 + 1], id);
    }
  }

  /** What a run's story records stays recorded. */
  lemma StoriesStay(states: seq<State>, steps: seq<Step>, i: nat, j: nat, id: RunId)
    requires Run(states, steps) && i <= j < |states| && id in states[i].runs
    ensures Remembers(states[i], states[j], id)
  {
    RunRemembers(states, steps, id);
    RemembersOn(states, i, j, id);
  }

  /** A cancel that finds the run active decides its outcome, whatever happens later. */
  lemma CancelDecides(states: seq<State>, steps: seq<Step>, i: nat, t: Thread, id: RunId, j: nat)
    requires Run(states, steps) && i < |steps| && steps[i] == Cancel(t, id) && id in states[i].active
    requires i < j < |states| && id in states[j].completed
    ensures states[j].completed[id] == Cancelled
    ensures id in states[j].runs && (!states[j].runs[id].sent || states[j].runs[id].taken)
  {
    RunKeeps(states, steps, i);
    StoriesStay(states, steps, i + 1, j, id);
    CancelledExactly(states, steps, j, id);
  }

  /** A cancel armed before the run starts waits for it: the run completes as `Cancelled` and nothing is sent. */
  lemma ArmedCancelDecides(states: seq<State>, steps: seq<Step>, i: nat, id: RunId, j: nat)
    requires Run(states, steps) && i < |states| && id in states[i].pending && id !in states[i].runs
    requires i <= j < |states| && id in states[j].runs
    ensures states[j].runs[id].pre && !states[j].runs[id].sent
    ensures id in states[j].completed ==> states[j].completed[id] == Cancelled
  {
    PendingWaits(states, steps, i, id, j);
    RunKeeps(states, steps, j);
    assert RunInv(states[j], id, states[j].runs[id]);
  }

  /** The armed cancel is still there, or the run has taken it. */
  ghost predicate Waits(s: State, id: RunId) {
    if id in s.runs then s.runs[id].pre else id in s.pending
  }

  lemma StepWaits(s: State, step: Step, n: State, id: RunId)
    requires Enabled(s, step) && n == Next(s, step) && Waits(s, id)
    ensures Waits(n, id)
  {
    if id in s.runs { StepRemembers(s, step, n, id); } else { StillPending(s, step, id); }
  }

  lemma StillPending(s: State, step: Step, id: RunId)
    requires Enabled(s, step) && id in s.pending && id !in s.runs
    ensures Waits(Next(s, step), id)
  {
  }

  lemma RunWaits(states: seq<State>, steps: seq<Step>, id: RunId)
    requires Run(states, steps)
    ensures forall k :: 0 <= k < |steps| ==> Waits(states[k], id) ==> Waits(states[k + 1], id)
  {
    forall k | 0 <= k < |steps| && Waits(states[k], id) ensures Waits(states[k + 1], id) {
      StepWaits(states[k], steps[k], states[k + 1], id);
    }
  }

  lemma {:induction false} WaitsOn(states: seq<State>, i: nat, j: nat, id: RunId)
    requires i <= j < |states| && forall k :: 0 <= k < |states| - 1 ==> Waits(states[k], id) ==> Waits(states[k + 1], id)
    requires Waits(states[i], id)
    ensures Waits(states[j], id)
    decreases j - i
  {
    if i < j {
      WaitsOn(states, i, j - 1, id);
      assert Waits(states[j - 1], id) ==> Waits(states[j - 1 + 1], id);
    }
  }

  lemma PendingWaits(states: seq<State>, steps: seq<Step>, i: nat, id: RunId, j: nat)
    requires Run(states, steps) && i <= j < |states| && id in states[i].pending && id !in states[i].runs
    ensures Waits(states[j], id)
  {
    RunWaits(states, steps, id);
    WaitsOn(states, i, j, id);
  }

  // --- outcomes, in terms of the steps alone ---

  /** One of the first `i` steps is `step`. */
  ghost predicate Did(steps: seq<Step>, i: nat, step: Step)
    requires i <= |steps|
  {
    exists k :: 0 <= k < i && steps[k] == step
  }

  /** One of the first `i` steps cancels the run while it is active. */
  ghost predicate CancelledActive(states: seq<State>, steps: seq<Step>, i: nat, id: RunId)
    requires i <= |steps| < |states|
  {
    exists k :: 0 <= k < i && steps[k].Cancel? && steps[k].id == id && id in states[k].active
  }

  /** And takes the driver handle. */
  ghost predicate TookHandle(states: seq<State>, steps: seq<Step>, i: nat, id: RunId)
    requires i <= |steps| < |states|
  {
    exists k :: 0 <= k < i && steps[k].Cancel? && steps[k].id == id && id in states[k].active && states[k].active[id].handle
  }

  /** The run started while a cancel was armed for it. */
  ghost predicate StartedArmed(states: seq<State>, steps: seq<Step>, i: nat, id: RunId)
    requires i <= |steps| < |states|
  {
    exists k :: 0 <= k < i && steps[k] == Start(id) && id in states[k].pending
  }

  predicate Ended(r: Story) { r.pc.Finish? || r.pc.Removed? || r.pc.Over? }

  /** What the steps so far say about a run. */
  datatype Facts = Facts(armed: bool, cancelled: bool, took: bool, sent: bool, ok: bool, failed: bool, completed: bool)

  ghost function FactsAt(states: seq<State>, steps: seq<Step>, i: nat, id: RunId): Facts
    requires i <= |steps| < |states|
  {
    Facts(StartedArmed(states, steps, i, id), CancelledActive(states, steps, i, id), TookHandle(states, steps, i, id),
          Did(steps, i, SendStatement(id)), Did(steps, i, Return(id, true)),
          Did(steps, i, Borrowed(id, false)) || Did(steps, i, Return(id, false)), Did(steps, i, Complete(id)))
  }

  function FactsAfter(f: Facts, s: State, step: Step, id: RunId): Facts {
    var found := step.Cancel? && step.id == id && id in s.active;
    Facts(f.armed || (step == Start(id) && id in s.pending), f.cancelled || found, f.took || (found && s.active[id].handle),
          f.sent || step == SendStatement(id), f.ok || step == Return(id, true),
          f.failed || step == Borrowed(id, false) || step == Return(id, false), f.completed || step == Complete(id))
  }

  /** A run's story says what the steps say. */
  predicate Told(s: State, id: RunId, f: Facts) {
    if id in s.runs then
      var r := s.runs[id];
      && (r.found <==> f.cancelled) && (r.taken <==> f.took) && (r.pre <==> f.armed) && (r.sent <==> f.sent)
      && (f.ok <==> Ended(r) && !r.failed)
      && (f.failed ==> Ended(r) && r.failed)
      && (Ended(r) && r.failed && !r.pre && !r.found ==> f.failed)
      && (r.pc.Attach? || r.pc.Borrow? || r.pc.Send? || r.pc.Running? ==> !r.pre)
      && (id in s.completed <==> f.completed)
    else f == Facts(false, false, false, false, false, false, false) && id !in s.active && id !in s.completed
  }

  lemma DidNext(steps: seq<Step>, i: nat, step: Step)
    requires i < |steps|
    ensures Did(steps, i + 1, step) <==> Did(steps, i, step) || steps[i] == step
  {
  }

  lemma CancelsNext(states: seq<State>, steps: seq<Step>, i: nat, id: RunId)
    requires i < |steps| < |states|
    ensures
      var now := steps[i].Cancel? && steps[i].id == id && id in states[i].active;
      && (CancelledActive(states, steps, i + 1, id) <==> CancelledActive(states, steps, i, id) || now)
      && (TookHandle(states, steps, i + 1, id) <==> TookHandle(states, steps, i, id) || (now && states[i].active[id].handle))
    ensures StartedArmed(states, steps, i + 1, id) <==>
            StartedArmed(states, steps, i, id) || (steps[i] == Start(id) && id in states[i].pending)
  {
  }

  lemma FactsNext(states: seq<State>, steps: seq<Step>, i: nat, id: RunId)
    requires i < |steps| < |states|
    ensures FactsAt(states, steps, i + 1, id) == FactsAfter(FactsAt(states, steps, i, id), states[i], steps[i], id)
  {
    CancelsNext(states, steps, i, id);
    DidNext(steps, i, SendStatement(id));
    DidNext(steps, i, Return(id, true));
    DidNext(steps, i, Return(id, false));
    DidNext(steps, i, Borrowed(id, false));
    DidNext(steps, i, Complete(id));
  }

  predicate Touches(step: Step, id: RunId) {
    (Opening(step) || Closing(step) || step.Cancel?) && step.id == id
  }

  lemma UntouchedStays(s: State, step: Step, id: RunId)
    requires Enabled(s, step) && !Touches(step, id)
    ensures
      var n := Next(s, step);
      && (id in n.runs <==> id in s.runs) && (id in s.runs ==> n.runs[id] == s.runs[id])
      && (id in n.active <==> id in s.active) && (id in n.completed <==> id in s.completed)
  {
  }

  lemma OpeningTold(s: State, step: Step, f: Facts)
    requires Enabled(s, step) && Opening(step) && Told(s, step.id, f) && (step.id in s.runs ==> RunInv(s, step.id, s.runs[step.id]))
    ensures Told(Next(s, step), step.id, FactsAfter(f, s, step, step.id))
  {
  }

  lemma ClosingTold(s: State, step: Step, f: Facts)
    requires Enabled(s, step) && Closing(step) && Told(s, step.id, f) && (step.id in s.runs ==> RunInv(s, step.id, s.runs[step.id]))
    ensures Told(Next(s, step), step.id, FactsAfter(f, s, step, step.id))
  {
  }

  lemma CancelTold(s: State, step: Step, f: Facts)
    requires Enabled(s, step) && step.Cancel? && Told(s, step.id, f) && (step.id in s.runs ==> RunInv(s, step.id, s.runs[step.id]))
    ensures Told(Next(s, step), step.id, FactsAfter(f, s, step, step.id))
  {
  }

  lemma UntouchedTold(s: State, step: Step, id: RunId, f: Facts)
    requires Enabled(s, step) && Told(s, id, f) && !Touches(step, id)
    ensures FactsAfter(f, s, step, id) == f && Told(Next(s, step), id, f)
  {
    UntouchedStays(s, step, id);
  }

  lemma StepTold(s: State, step: Step, id: RunId, f: Facts)
    requires Inv(s) && Enabled(s, step) && Told(s, id, f)
    ensures Told(Next(s, step), id, FactsAfter(f, s, step, id))
  {
    if id in s.runs { assert RunInv(s, id, s.runs[id]); }
    if !Touches(step, id) {
      UntouchedTold(s, step, id, f);
    } else if Opening(step) {
      OpeningTold(s, step, f);
    } else if Closing(step) {
      ClosingTold(s, step, f);
    } else {
      CancelTold(s, step, f);
    }
  }

  lemma {:induction false} RunTold(states: seq<State>, steps: seq<Step>, i: nat, id: RunId)
    requires Run(states, steps) && i < |states|
    ensures Told(states[i], id, FactsAt(states, steps, i, id))
  {
    if i > 0 {
      RunTold(states, steps, i - 1, id);
      RunKeeps(states, steps, i - 1);
      StepTold(states[i - 1], steps[i - 1], id, FactsAt(states, steps, i - 1, id));
      FactsNext(states, steps, i - 1, id);
    }
  }

  /**
   In every interleaving, what a run completes as: `Cancelled` exactly when it started while a cancel was armed for it,
   or a cancel found it active; otherwise `Success` exactly when its stream ended well, and `Error` exactly when it got
   no connection or its stream failed.  A cancelled run whose statement was sent lost its driver handle to a cancel.
   */
  lemma OutcomeExactly(states: seq<State>, steps: seq<Step>, i: nat, id: RunId)
    requires Run(states, steps) && i < |states|
    ensures id in states[i].completed <==> Did(steps, i, Complete(id))
    ensures id in states[i].completed ==>
      var cancelled := StartedArmed(states, steps, i, id) || CancelledActive(states, steps, i, id);
      && (states[i].completed[id] == Cancelled <==> cancelled)
      && (states[i].completed[id] == Success <==> !cancelled && Did(steps, i, Return(id, true)))
      && (states[i].completed[id] == Error <==> !cancelled && (Did(steps, i, Borrowed(id, false)) || Did(steps, i, Return(id, false))))
      && (cancelled && Did(steps, i, SendStatement(id)) ==> TookHandle(states, steps, i, id))
    ensures StartedArmed(states, steps, i, id) ==> !Did(steps, i, SendStatement(id))
  {
    RunTold(states, steps, i, id);
    RunKeeps(states, steps, i);
    if id in states[i].runs { assert RunInv(states[i], id, states[i].runs[id]); }
  }

  // --- armed cancels ---

  /** A cancel was armed for the run, and no start of it came after. */
  ghost predicate Armed(states: seq<State>, steps: seq<Step>, i: nat, id: RunId)
    requires i <= |steps| < |states|
  {
    exists k :: 0 <= k < i && ArmsAt(states, steps, k, id) && forall m :: k < m < i ==> steps[m] != Start(id)
  }

  predicate ArmsAt(states: seq<State>, steps: seq<Step>, k: nat, id: RunId)
    requires k < |steps| < |states|
  {
    steps[k].ArmPending? && steps[k].t in states[k].cancels && states[k].cancels[steps[k].t].id == id
  }

  /** A cancel is armed only after it found the run neither active nor completed. */
  ghost predicate Absent(states: seq<State>, steps: seq<Step>, i: nat, t: Thread, id: RunId)
    requires i <= |steps| < |states|
  {
    exists a, b :: 0 <= a < b < i && steps[a] == Cancel(t, id) && id !in states[a].active
                && steps[b] == LookCompleted(t) && id !in states[b].completed
  }

  ghost predicate MissedActive(states: seq<State>, steps: seq<Step>, i: nat, t: Thread, id: RunId)
    requires i <= |steps| < |states|
  {
    exists a :: 0 <= a < i && steps[a] == Cancel(t, id) && id !in states[a].active
  }

  lemma ArmedNext(states: seq<State>, steps: seq<Step>, i: nat, id: RunId)
    requires i < |steps| < |states|
    ensures Armed(states, steps, i + 1, id) <==>
            ArmsAt(states, steps, i, id) || (Armed(states, steps, i, id) && steps[i] != Start(id))
  {
  }

  lemma MissedOn(states: seq<State>, steps: seq<Step>, i: nat, t: Thread, id: RunId)
    requires i < |steps| < |states|
    ensures MissedActive(states, steps, i, t, id) ==> MissedActive(states, steps, i + 1, t, id)
    ensures Absent(states, steps, i, t, id) ==> Absent(states, steps, i + 1, t, id)
    ensures steps[i] == Cancel(t, id) && id !in states[i].active ==> MissedActive(states, steps, i + 1, t, id)
    ensures MissedActive(states, steps, i, t, id) && steps[i] == LookCompleted(t) && id !in states[i].completed ==>
              Absent(states, steps, i + 1, t, id)
  {
  }

  lemma CancelFrom(s: State, step: Step, t: Thread)
    requires Enabled(s, step) && t in Next(s, step).cancels
    ensures
      var now := Next(s, step).cancels[t];
      || (t in s.cancels && s.cancels[t] == now)
      || (step == Cancel(t, now.id) && now.id !in s.active && now.pc == CheckCompleted)
      || (t in s.cancels && s.cancels[t].id == now.id && step == LookCompleted(t) && now.id !in s.completed && now.pc == Arm)
  {
  }

  lemma CancelTells(states: seq<State>, steps: seq<Step>, i: nat, t: Thread)
    requires i < |steps| < |states| && Enabled(states[i], steps[i]) && states[i + 1] == Next(states[i], steps[i])
    requires t in states[i].cancels ==>
               && MissedActive(states, steps, i, t, states[i].cancels[t].id)
               && (states[i].cancels[t].pc == Arm ==> Absent(states, steps, i, t, states[i].cancels[t].id))
    requires t in states[i + 1].cancels
    ensures MissedActive(states, steps, i + 1, t, states[i + 1].cancels[t].id)
    ensures states[i + 1].cancels[t].pc == Arm ==> Absent(states, steps, i + 1, t, states[i + 1].cancels[t].id)
  {
    CancelFrom(states[i], steps[i], t);
    MissedOn(states, steps, i, t, states[i + 1].cancels[t].id);
  }

  lemma PendingTells(states: seq<State>, steps: seq<Step>, i: nat, id: RunId)
    requires i < |steps| < |states| && Enabled(states[i], steps[i]) && states[i + 1] == Next(states[i], steps[i])
    requires id in states[i].pending <==> Armed(states, steps, i, id)
    ensures id in states[i + 1].pending <==> Armed(states, steps, i + 1, id)
  {
    ArmedNext(states, steps, i, id);
  }

  lemma {:induction false} RunCancelTold(states: seq<State>, steps: seq<Step>, i: nat, t: Thread)
    requires Run(states, steps) && i < |states| && t in states[i].cancels
    ensures MissedActive(states, steps, i, t, states[i].cancels[t].id)
    ensures states[i].cancels[t].pc == Arm ==> Absent(states, steps, i, t, states[i].cancels[t].id)
  {
    if i > 0 {
      if t in states[i - 1].cancels { RunCancelTold(states, steps, i - 1, t); }
      CancelTells(states, steps, i - 1, t);
    }
  }

  lemma {:induction false} RunPendingTold(states: seq<State>, steps: seq<Step>, i: nat, id: RunId)
    requires Run(states, steps) && i < |states|
    ensures id in states[i].pending <==> Armed(states, steps, i, id)
  {
    if i > 0 {
      RunPendingTold(states, steps, i - 1, id);
      PendingTells(states, steps, i - 1, id);
    }
  }

  /** In every interleaving, a cancel is armed for a run exactly when one was armed and no start has consumed it, and
      whoever arms one has found the run neither active nor completed. */
  lemma ArmedExactly(states: seq<State>, steps: seq<Step>, i: nat, id: RunId)
    requires Run(states, steps) && i < |states|
    ensures id in states[i].pending <==> Armed(states, steps, i, id)
    ensures i < |steps| && ArmsAt(states, steps, i, id) ==> Absent(states, steps, i, steps[i].t, id)
  {
    RunPendingTold(states, steps, i, id);
    if i < |steps| && ArmsAt(states, steps, i, id) {
      assert Enabled(states[i], steps[i]);
      RunCancelTold(states, steps, i, steps[i].t);
    }
  }
}

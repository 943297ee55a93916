/**
 What the tracker's settings do in a run, read off its steps: who is turned away and who is queued,
 who has a timer, and which step ended an execution with which status.
 */
module SlotRuns {
  import opened Options
  import opened Tracker
  import opened Slots

  /** The settings in force after these steps: those of the last reconfiguration, or else the first ones. */
  function Rejecting(reject: bool, steps: seq<Step>): bool {
    if steps == [] then reject
    else if steps[|steps| - 1].Reconfigured? then steps[|steps| - 1].reject
    else Rejecting(reject, steps[..|steps| - 1])
  }

  function Timing(timed: bool, steps: seq<Step>): bool {
    if steps == [] then timed
    else if steps[|steps| - 1].Reconfigured? then steps[|steps| - 1].timed
    else Timing(timed, steps[..|steps| - 1])
  }

  function Limiting(limit: int, steps: seq<Step>): int {
    if steps == [] then limit
    else if steps[|steps| - 1].Reconfigured? then steps[|steps| - 1].limit
    else Limiting(limit, steps[..|steps| - 1])
  }

  lemma {:induction false} SettingsInForce(n: int, reject: bool, timed: bool, steps: seq<Step>)
    requires Legal(NewTracker(n, reject, timed), steps)
    ensures var c := Run(NewTracker(n, reject, timed), steps).c;
            c.reject == Rejecting(reject, steps) && c.timed == Timing(timed, steps)
    ensures var limit := Limiting(n, steps);
            Cur(Run(NewTracker(n, reject, timed), steps)).limit == if limit > 0 then limit else 0
    decreases |steps|
  {
    if steps == [] {
    } else {
      var k := |steps| - 1;
      SettingsInForce(n, reject, timed, steps[..k]);
      SettingsStay(Run(NewTracker(n, reject, timed), steps[..k]), steps[k]);
    }
  }

  lemma SettingsStay(s: State, step: Step)
    requires s.sems != [] && Enabled(s, step)
    ensures var t := Next(s, step);
            if step.Reconfigured?
            then t.c.reject == step.reject && t.c.timed == step.timed
                 && Cur(t).limit == if step.limit > 0 then step.limit else 0
            else t.c.reject == s.c.reject && t.c.timed == s.c.timed && Cur(t).limit == Cur(s).limit
  {
  }

  /** In every run no more executions are active than the limit in force allows, if there is one. */
  lemma LimitHolds(n: int, reject: bool, timed: bool, steps: seq<Step>)
    requires Legal(NewTracker(n, reject, timed), steps)
    ensures Limiting(n, steps) > 0 ==> |Run(NewTracker(n, reject, timed), steps).c.active| <= Limiting(n, steps)
  {
    hide Run, Legal, Limiting, Claimants;
    SlotConservation(n, reject, timed, steps);
    SettingsInForce(n, reject, timed, steps);
  }

  // ----- Refused or queued -----

  /** The k-th step was a start that found its semaphore full. */
  ghost predicate FoundFull(s: State, steps: seq<Step>, k: nat, id: Id)
    requires s.sems != []
  {
    && k < |steps| && steps[k] == TrySend(id) && Legal(s, steps[..k])
    && var t := Run(s, steps[..k]); id in t.stage && t.stage[id].Looked? && !Room(t, t.stage[id].sem)
  }

  ghost predicate Queued(s: State, reject: bool, steps: seq<Step>, id: Id)
    requires s.sems != []
  {
    exists k :: 0 <= k < |steps| && FoundFull(s, steps, k, id) && !Rejecting(reject, steps[..k])
  }

  ghost predicate TurnedAway(s: State, reject: bool, steps: seq<Step>, id: Id)
    requires s.sems != []
  {
    exists k :: 0 <= k < |steps|
                && ((FoundFull(s, steps, k, id) && Rejecting(reject, steps[..k])) || steps[k] == GiveUp(id))
  }

  lemma Longer(s: State, reject: bool, steps: seq<Step>, id: Id)
    requires s.sems != [] && steps != []
    ensures Queued(s, reject, steps[..|steps| - 1], id) ==> Queued(s, reject, steps, id)
    ensures TurnedAway(s, reject, steps[..|steps| - 1], id) ==> TurnedAway(s, reject, steps, id)
  {
    var init := steps[..|steps| - 1];
    forall k | 0 <= k < |init| ensures init[..k] == steps[..k] && init[k] == steps[k] { }
    hide Rejecting;
    if Queued(s, reject, init, id) {
      var k :| 0 <= k < |init| && FoundFull(s, init, k, id) && !Rejecting(reject, init[..k]);
      assert FoundFull(s, steps, k, id);
    }
    if TurnedAway(s, reject, init, id) {
      var k :| 0 <= k < |init|
               && ((FoundFull(s, init, k, id) && Rejecting(reject, init[..k])) || init[k] == GiveUp(id));
      assert steps[k] == GiveUp(id) || FoundFull(s, steps, k, id);
    }
  }

  predicate InQueue(st: Stage) { st.Waiting? || st.Blocked? }

  lemma EntersQueue(s: State, step: Step, id: Id)
    requires Inv(s) && Enabled(s, step) && id in Next(s, step).stage
    ensures InQueue(Next(s, step).stage[id]) && !(id in s.stage && InQueue(s.stage[id])) ==>
              step == TrySend(id) && id in s.stage && s.stage[id].Looked? && !Room(s, s.stage[id].sem) && !s.c.reject
    ensures Next(s, step).stage[id].Refused? && !At(s, id, Refused) ==>
              step == GiveUp(id) || (step == TrySend(id) && id in s.stage && s.stage[id].Looked?
                                     && !Room(s, s.stage[id].sem) && s.c.reject)
  {
    hide Tables, LogOk, Conserved, OldServed;
  }

  /** In every run, whoever waits found its semaphore full while the setting was to queue, and whoever is refused
      found it full while the setting was to reject, or gave up waiting. */
  lemma {:induction false} AdmissionExact(n: int, reject: bool, timed: bool, steps: seq<Step>, id: Id)
    requires Legal(NewTracker(n, reject, timed), steps) && id in Run(NewTracker(n, reject, timed), steps).stage
    ensures var s := NewTracker(n, reject, timed); var st := Run(s, steps).stage[id];
            (InQueue(st) ==> Queued(s, reject, steps, id)) && (st.Refused? ==> TurnedAway(s, reject, steps, id))
    decreases |steps|
  {
    if steps == [] {
      assert false;
    } else {
      var s, k := NewTracker(n, reject, timed), |steps| - 1;
      var t := Run(s, steps[..k]);
      if id in t.stage { AdmissionExact(n, reject, timed, steps[..k], id); }
      RunKeeps(n, reject, timed, steps[..k]);
      SettingsInForce(n, reject, timed, steps[..k]);
      Longer(s, reject, steps, id);
      hide Inv, Enabled, Next, Rejecting;
      EntersQueue(t, steps[k], id);
      if steps[k] == TrySend(id) && id in t.stage && t.stage[id].Looked? && !Room(t, t.stage[id].sem) {
        assert FoundFull(s, steps, k, id);
      }
    }
  }

  lemma {:induction false} NeverReconfigured(reject: bool, steps: seq<Step>)
    requires forall k :: 0 <= k < |steps| ==> !steps[k].Reconfigured?
    ensures Rejecting(reject, steps) == reject
  {
    if steps == [] {
    } else {
      NeverReconfigured(reject, steps[..|steps| - 1]);
    }
  }

  /** Set to reject, nobody ever waits. */
  lemma RejectNeverQueues(n: int, timed: bool, steps: seq<Step>, id: Id)
    requires Legal(NewTracker(n, true, timed), steps) && id in Run(NewTracker(n, true, timed), steps).stage
    requires forall k :: 0 <= k < |steps| ==> !steps[k].Reconfigured?
    ensures var st := Run(NewTracker(n, true, timed), steps).stage[id]; !st.Waiting? && !st.Blocked?
  {
    var s := NewTracker(n, true, timed);
    AdmissionExact(n, true, timed, steps, id);
    hide Run, Legal, FoundFull;
    if Queued(s, true, steps, id) {
      var k :| 0 <= k < |steps| && FoundFull(s, steps, k, id) && !Rejecting(true, steps[..k]);
      NeverReconfigured(true, steps[..k]);
      assert false;
    }
  }

  /** Set to queue, nobody is refused who did not give up itself. */
  lemma QueueNeverRefuses(n: int, timed: bool, steps: seq<Step>, id: Id)
    requires Legal(NewTracker(n, false, timed), steps) && At(Run(NewTracker(n, false, timed), steps), id, Refused)
    requires forall k :: 0 <= k < |steps| ==> !steps[k].Reconfigured?
    ensures GiveUp(id) in steps
  {
    var s := NewTracker(n, false, timed);
    AdmissionExact(n, false, timed, steps, id);
    hide Run, Legal, FoundFull;
    var k :| 0 <= k < |steps|
             && ((FoundFull(s, steps, k, id) && Rejecting(false, steps[..k])) || steps[k] == GiveUp(id));
    NeverReconfigured(false, steps[..k]);
  }

  // ----- Timers -----

  /** The execution was registered while timeouts were on. */
  ghost predicate RegisteredTimed(timed: bool, steps: seq<Step>, id: Id) {
    exists k :: 0 <= k < |steps| && steps[k] == Registered(id) && Timing(timed, steps[..k])
  }

  lemma RegisteredSnoc(timed: bool, steps: seq<Step>, id: Id)
    requires steps != []
    ensures var init, step := steps[..|steps| - 1], steps[|steps| - 1];
            RegisteredTimed(timed, steps, id) <==>
            RegisteredTimed(timed, init, id) || (step == Registered(id) && Timing(timed, init))
  {
    var init := steps[..|steps| - 1];
    forall k | 0 <= k < |init| ensures init[..k] == steps[..k] && init[k] == steps[k] { }
    hide Timing;
    if k :| 0 <= k < |init| && init[k] == Registered(id) && Timing(timed, init[..k]) {
      assert steps[k] == Registered(id) && Timing(timed, steps[..k]);
    }
  }

  /** Only who got as far as being registered has had a timer, and who is active has it still. */
  ghost predicate TimersKept(s: State, id: Id) {
    && (id in s.armed ==> id in s.stage && (s.stage[id].Active? || Ended(s.stage[id])))
    && (id in s.c.timers <==> id in s.c.active && id in s.armed)
  }

  lemma TimersChange(s: State, step: Step, id: Id)
    requires Inv(s) && Enabled(s, step) && TimersKept(s, id)
    ensures id in Next(s, step).armed <==> id in s.armed || (step == Registered(id) && s.c.timed)
    ensures TimersKept(Next(s, step), id)
  {
    hide Inv;
    ActiveIs(s, id);
    assert step.NodeEvent? || step.Timeout? || step.Cancel? ==> (step.id in s.c.active <==> At(s, step.id, Active)) by {
      if step.NodeEvent? || step.Timeout? || step.Cancel? { ActiveIs(s, step.id); }
    }
  }

  lemma ActiveIs(s: State, id: Id)
    requires Inv(s)
    ensures s.sems != [] && (id in s.c.active <==> At(s, id, Active))
  {
  }

  /** In every run exactly the executions registered while timeouts were on have had a timer, which may fire, and
      exactly the active ones among them have one still. */
  lemma {:induction false} TimersExact(n: int, reject: bool, timed: bool, steps: seq<Step>, id: Id)
    requires Legal(NewTracker(n, reject, timed), steps)
    ensures var s := Run(NewTracker(n, reject, timed), steps);
            && (Enabled(s, Timeout(id)) <==> RegisteredTimed(timed, steps, id))
            && (id in s.c.timers <==> id in s.c.active && RegisteredTimed(timed, steps, id))
            && TimersKept(s, id)
    decreases |steps|
  {
    if steps == [] {
    } else {
      var k := |steps| - 1;
      var t := Run(NewTracker(n, reject, timed), steps[..k]);
      TimersExact(n, reject, timed, steps[..k], id);
      RunKeeps(n, reject, timed, steps[..k]);
      SettingsInForce(n, reject, timed, steps[..k]);
      RegisteredSnoc(timed, steps, id);
      hide Inv, Next, RegisteredTimed, Timing;
      TimersChange(t, steps[k], id);
    }
  }

  // ----- Which step ends an execution -----

  /** What the events accounted to an execution up to the k-th step add up to. */
  ghost function AddedUp(s: State, steps: seq<Step>, id: Id): Exec
    requires s.sems != [] && Legal(s, steps)
  {
    Accounted(Exec(1, false, ""), EventsOf(s, steps, id))
  }

  lemma EndsHere(s: State, step: Step, id: Id)
    requires Inv(s) && Enabled(s, step) && id in s.c.active
    ensures var t := Next(s, step);
            if step == Timeout(id) then At(t, id, Releasing(Failed("timeout")))
            else if step == Cancel(id) then At(t, id, Releasing(Cancelled))
            else if step.NodeEvent? && step.id == id && s.c.active[id].pending + step.ev.outputs <= 1 then
              At(t, id, Releasing(StatusOf(Account(s.c.active[id], step.ev))))
            else id in t.c.active
  {
    hide LogOk, Conserved, OldServed;
    assert At(s, id, Active);
  }

  /** In every run an active execution is ended by its timeout, its cancellation, or an event that leaves nothing
      pending, and by nothing else, with the status that is due: timed out, cancelled, or that of its events. */
  lemma EndsExact(n: int, reject: bool, timed: bool, steps: seq<Step>, id: Id)
    requires steps != [] && Legal(NewTracker(n, reject, timed), steps)
    requires id in Run(NewTracker(n, reject, timed), steps[..|steps| - 1]).c.active
    ensures var s, step := NewTracker(n, reject, timed), steps[|steps| - 1];
            var t, x := Run(s, steps), AddedUp(s, steps, id);
            if step == Timeout(id) then At(t, id, Releasing(Failed("timeout")))
            else if step == Cancel(id) then At(t, id, Releasing(Cancelled))
            else if step.NodeEvent? && step.id == id && x.pending <= 0 then
              At(t, id, Releasing(if x.failed then Failed(x.reason) else Success))
            else id in t.c.active && t.c.active[id] == x
  {
    hide Inv, Run, EventsOf, Accounted, Next, Enabled, Legal;
    var s, k := NewTracker(n, reject, timed), |steps| - 1;
    LastStep(s, steps);
    RunKeeps(n, reject, timed, steps[..k]);
    RunExplained(n, reject, timed, steps[..k], id);
    RunExplained(n, reject, timed, steps, id);
    EndsHere(Run(s, steps[..k]), steps[k], id);
    LastEvent(s, steps, id);
  }

  lemma LastStep(s: State, steps: seq<Step>)
    requires s.sems != [] && steps != [] && Legal(s, steps)
    ensures var init, step := steps[..|steps| - 1], steps[|steps| - 1];
            Legal(s, init) && Enabled(Run(s, init), step) && Run(s, steps) == Next(Run(s, init), step)
  {
  }

  lemma LastEvent(s: State, steps: seq<Step>, id: Id)
    requires s.sems != [] && steps != [] && Legal(s, steps) && id in Run(s, steps[..|steps| - 1]).c.active
    ensures var init, step := steps[..|steps| - 1], steps[|steps| - 1];
            AddedUp(s, steps, id) == if step.NodeEvent? && step.id == id then Account(AddedUp(s, init, id), step.ev)
                                     else AddedUp(s, init, id)
  {
    var init, step := steps[..|steps| - 1], steps[|steps| - 1];
    var evs := EventsOf(s, init, id);
    if step.NodeEvent? && step.id == id {
      AccountedSnoc(Exec(1, false, ""), evs, step.ev);
    } else {
      assert evs + [] == evs;
    }
  }

  // ----- Every execution gets on -----

  function Rank(st: Stage): nat {
    match st
    case Asking => 0
    case Looked(_) => 1
    case Waiting => 2
    case Blocked(_) => 3
    case Starting => 4
    case Active => 5
    case Releasing(_) => 6
    case Checked(_) => 7
    case Receiving(_, _) => 8
    case Reporting(_) => 9
    case Finished(_) => 10
    case Refused => 10
  }

  /** The step by which an execution goes on, giving up where it waits and being cancelled where it runs. */
  function GoOn(st: Stage, id: Id): Step
    requires Rank(st) < 10
  {
    match st
    case Asking => Look(id)
    case Looked(_) => TrySend(id)
    case Waiting => Queue(id)
    case Blocked(_) => GiveUp(id)
    case Starting => Registered(id)
    case Active => Cancel(id)
    case Releasing(_) => CheckRelease(id)
    case Checked(_) => Evaluate(id)
    case Receiving(_, _) => TakeBack(id)
    case Reporting(_) => Report(id)
  }

  lemma GetsOn(s: State, id: Id)
    requires Inv(s) && id in s.stage && Rank(s.stage[id]) < 10
    ensures var step := GoOn(s.stage[id], id);
            Enabled(s, step) && id in Next(s, step).stage && Rank(Next(s, step).stage[id]) > Rank(s.stage[id])
  {
    hide Inv;
    InvSafe(s);
    ActiveIs(s, id);
  }

  /** Wherever a run has brought an execution, nothing can keep it from its end: of itself, being cancelled and giving
      up where it has to, it comes to be reported finished or to be refused. */
  lemma {:induction false} ComesToItsEnd(n: int, reject: bool, timed: bool, steps: seq<Step>, id: Id)
    returns (more: seq<Step>)
    requires Legal(NewTracker(n, reject, timed), steps) && id in Run(NewTracker(n, reject, timed), steps).stage
    ensures steps <= more && Legal(NewTracker(n, reject, timed), more)
    ensures var t := Run(NewTracker(n, reject, timed), more);
            id in t.stage && (t.stage[id].Finished? || t.stage[id].Refused?)
    decreases 10 - Rank(Run(NewTracker(n, reject, timed), steps).stage[id])
  {
    var c := NewTracker(n, reject, timed);
    var s := Run(c, steps);
    if Rank(s.stage[id]) == 10 {
      more := steps;
    } else {
      RunKeeps(n, reject, timed, steps);
      hide Inv, Enabled, Next;
      GetsOn(s, id);
      var longer := steps + [GoOn(s.stage[id], id)];
      assert longer[..|steps|] == steps;
      more := ComesToItsEnd(n, reject, timed, longer, id);
    }
  }

  /** There is no limit and nobody has met one. */
  ghost predicate Unlimited(s: State) {
    && s.sems != [] && Cur(s).limit == 0
    && forall id :: id in s.stage ==> s.stage[id].Starting? || s.stage[id].Active? || Ended(s.stage[id])
  }

  lemma UnlimitedStays(s: State, step: Step)
    requires Inv(s) && Unlimited(s) && Enabled(s, step) && !step.Reconfigured?
    ensures Unlimited(Next(s, step))
  {
    hide LogOk, Conserved, OldServed;
  }

  /** Without a limit nobody is refused and nobody waits. */
  lemma {:induction false} NoLimitNoRefusal(n: int, reject: bool, timed: bool, steps: seq<Step>)
    requires n <= 0 && Legal(NewTracker(n, reject, timed), steps)
    requires forall k :: 0 <= k < |steps| ==> !steps[k].Reconfigured?
    ensures Unlimited(Run(NewTracker(n, reject, timed), steps))
    decreases |steps|
  {
    if steps == [] {
    } else {
      var k := |steps| - 1;
      NoLimitNoRefusal(n, reject, timed, steps[..k]);
      RunKeeps(n, reject, timed, steps[..k]);
      hide Inv, Next, Enabled, Unlimited;
      UnlimitedStays(Run(NewTracker(n, reject, timed), steps[..k]), steps[k]);
    }
  }
}

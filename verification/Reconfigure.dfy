/**
 Replacing the tracker's semaphore while executions are under way: exactly when it is safe, how far
 the limit can be exceeded when it is not, and which release never returns.
 */
module Reconfiguring {
  import opened Tracker
  import opened Slots

  /** What Deployment actually checks before it reconfigures. */
  predicate Idle(c: Core) { |c.active| == 0 }

  ghost predicate SafeForGood(s: State)
    requires s.sems != []
  {
    forall steps :: Legal(s, steps) ==> Safe(Run(s, steps))
  }

  // ----- Continuations -----

  ghost predicate Reach(s: State, steps: seq<Step>, t: State) {
    s.sems != [] && Legal(s, steps) && Run(s, steps) == t
  }

  lemma Stay(s: State)
    requires s.sems != []
    ensures Reach(s, [], s)
  {
  }

  lemma Go(s: State, steps: seq<Step>, t: State, step: Step)
    requires Reach(s, steps, t) && Enabled(t, step)
    ensures Reach(s, steps + [step], Next(t, step))
  {
    assert (steps + [step])[..|steps|] == steps;
  }

  /** Holds a slot it has not begun to receive. */
  predicate Holds(st: Stage) { st.Starting? || st.Active? || st.Releasing? || st.Checked? }

  /** The active table has this execution exactly while it is active. */
  predicate Listed(s: State, id: Id) { id in s.c.active <==> At(s, id, Active) }

  // ----- A release that finds nothing -----

  /** An ended execution goes on to receive from the current semaphore. */
  lemma GoesToReceive(s: State, steps: seq<Step>, t: State, id: Id) returns (more: seq<Step>, u: State)
    requires Reach(s, steps, t) && Cur(t).limit > 0 && id in t.stage && (t.stage[id].Releasing? || t.stage[id].Checked?)
    ensures Reach(s, more, u) && u == t.(stage := t.stage[id := Receiving(t.stage[id].status, G(t))])
  {
    hide Reach;
    more, u := steps, t;
    if u.stage[id].Releasing? {
      Go(s, more, u, CheckRelease(id));
      more, u := more + [CheckRelease(id)], Next(u, CheckRelease(id));
    }
    Go(s, more, u, Evaluate(id));
    more, u := more + [Evaluate(id)], Next(u, Evaluate(id));
  }

  /** A holder comes to release: it registers and is cancelled, as far as it has not got there yet. */
  lemma GoesToRelease(s: State, steps: seq<Step>, t: State, id: Id) returns (more: seq<Step>, u: State)
    requires Reach(s, steps, t) && id in t.stage && Holds(t.stage[id]) && Listed(t, id)
    ensures Reach(s, more, u) && u.sems == t.sems && id in u.stage && (u.stage[id].Releasing? || u.stage[id].Checked?)
  {
    hide Reach;
    more, u := steps, t;
    if u.stage[id].Starting? {
      Go(s, more, u, Registered(id));
      more, u := more + [Registered(id)], Next(u, Registered(id));
    }
    if u.stage[id].Active? {
      Go(s, more, u, Cancel(id));
      more, u := more + [Cancel(id)], Next(u, Cancel(id));
    }
  }

  /** After an unsafe replacement some execution comes to hold a slot the new semaphore knows nothing of. */
  lemma OrphanHolds(s: State, limit: int, reject: bool, timed: bool)
    returns (steps: seq<Step>, t: State, id: Id)
    requires Inv(s) && UpToDate(s) && limit > 0 && Orphans(s) != {}
    ensures Reach(Forced(s, limit, reject, timed), steps, t) && Cur(t) == Sem(limit, 0)
    ensures id in t.stage && Holds(t.stage[id]) && Tables(t) && Listed(t, id)
  {
    var f := Forced(s, limit, reject, timed);
    ForcedTables(s, limit, reject, timed);
    Stay(f);
    steps, t := [], f;
    if x :| x in s.stage && Holds(s.stage[x]) {
      id := x;
    } else {
      id := WaitingOrphan(s);
      var g := s.stage[id].sem;
      if !Room(f, g) {
        var r := SomeReceiver(s);
        Go(f, steps, t, TakeBack(r));
        TablesNext(t, TakeBack(r));
        steps, t := steps + [TakeBack(r)], Next(t, TakeBack(r));
      }
      hide Inv, Tables, Reach, Claimants;
      steps, t := GotOldSlot(f, steps, t, id);
    }
  }

  /** A start that has read a replaced semaphore with room gets a slot there. */
  lemma GotOldSlot(s: State, steps: seq<Step>, t: State, id: Id) returns (more: seq<Step>, u: State)
    requires Reach(s, steps, t) && id in t.stage && (t.stage[id].Looked? || t.stage[id].Blocked?)
    requires t.stage[id].sem != G(t) && Room(t, t.stage[id].sem) && Tables(t)
    ensures Reach(s, more, u) && u.stage == t.stage[id := Starting] && Cur(u) == Cur(t) && Tables(u) && Listed(u, id)
  {
    hide Reach;
    var step := if t.stage[id].Looked? then TrySend(id) else Acquire(id);
    Go(s, steps, t, step);
    TablesNext(t, step);
    more, u := steps + [step], Next(t, step);
  }

  lemma WaitingOrphan(s: State) returns (id: Id)
    requires Inv(s) && UpToDate(s) && Orphans(s) != {} && forall x :: x in s.stage ==> !Holds(s.stage[x])
    ensures id in s.stage && (s.stage[id].Looked? || s.stage[id].Blocked?) && s.stage[id].sem == G(s)
  {
    id :| id in Orphans(s);
    assert StageOk(s, s.stage[id]) && Current(s.stage[id], G(s), Cur(s).limit);
  }

  /** If nobody holds a slot and yet there is no room, somebody is about to receive. */
  lemma SomeReceiver(s: State) returns (r: Id)
    requires Inv(s) && UpToDate(s) && Cur(s).limit > 0 && !Room(s, G(s))
    requires forall x :: x in s.stage ==> !Holds(s.stage[x])
    ensures r in s.stage && s.stage[r].Receiving? && s.stage[r].sem == G(s) && Cur(s).tokens > 0
  {
    assert |Claimants(s.stage, G(s))| > 0;
    r :| r in Claimants(s.stage, G(s));
    assert Current(s.stage[r], G(s), Cur(s).limit);
  }

  /** After an unsafe replacement a release can find the new semaphore empty. */
  lemma ReleaseFindsEmpty(s: State, limit: int, reject: bool, timed: bool)
    returns (steps: seq<Step>, t: State, id: Id)
    requires Inv(s) && UpToDate(s) && limit > 0 && Orphans(s) != {}
    ensures Reach(Forced(s, limit, reject, timed), steps, t) && Cur(t) == Sem(limit, 0)
    ensures id in t.stage && t.stage[id].Receiving? && t.stage[id].sem == G(t) && !Enabled(t, TakeBack(id))
  {
    hide Inv, Tables, Reach, Claimants, Orphans, UpToDate, Next, Forced, Holds;
    var f := Forced(s, limit, reject, timed);
    steps, t, id := OrphanHolds(s, limit, reject, timed);
    steps, t := GoesToRelease(f, steps, t, id);
    steps, t := GoesToReceive(f, steps, t, id);
  }

  /** After a replacement by no semaphore, a release that has already seen a limit reads what is not there. */
  lemma ReleaseFindsNothing(s: State, limit: int, reject: bool, timed: bool, id: Id) returns (t: State)
    requires s.sems != [] && limit <= 0 && id in s.stage && s.stage[id].Checked?
    ensures Reach(Forced(s, limit, reject, timed), [] + [Evaluate(id)], t)
    ensures id in t.stage && t.stage[id] == Receiving(s.stage[id].status, G(t)) && Cur(t) == Sem(0, 0)
  {
    var f := Forced(s, limit, reject, timed);
    Stay(f);
    Go(f, [], f, Evaluate(id));
    t := Next(f, Evaluate(id));
  }

  /** And that release never returns: whatever happens, it goes on waiting. */
  lemma {:induction false} NeverReturns(t: State, id: Id, more: seq<Step>)
    requires t.sems != [] && Legal(t, more)
    requires id in t.stage && t.stage[id].Receiving?
    requires t.stage[id].sem < |t.sems| && t.sems[t.stage[id].sem] == Sem(0, 0)
    requires id !in t.c.active
    ensures var u := Run(t, more); id in u.stage && u.stage[id] == t.stage[id] && id !in u.c.active
    ensures |Run(t, more).sems| >= |t.sems| && Run(t, more).sems[t.stage[id].sem] == Sem(0, 0)
    decreases |more|
  {
    if more == [] {
    } else {
      var n := |more| - 1;
      NeverReturns(t, id, more[..n]);
      KeepsWaiting(Run(t, more[..n]), more[n], id);
    }
  }

  lemma KeepsWaiting(t: State, step: Step, id: Id)
    requires t.sems != [] && Enabled(t, step)
    requires id in t.stage && t.stage[id].Receiving?
    requires t.stage[id].sem < |t.sems| && t.sems[t.stage[id].sem] == Sem(0, 0)
    requires id !in t.c.active
    ensures var u := Next(t, step); id in u.stage && u.stage[id] == t.stage[id] && id !in u.c.active
    ensures |Next(t, step).sems| >= |t.sems| && Next(t, step).sems[t.stage[id].sem] == Sem(0, 0)
  {
  }

  // ----- Exactly when it is safe -----

  lemma UnsafeOnce(f: State, steps: seq<Step>, t: State, id: Id)
    requires Reach(f, steps, t) && id in t.stage && t.stage[id].Receiving? && t.stage[id].sem < |t.sems|
    requires t.sems[t.stage[id].sem].tokens == 0
    ensures f.sems != [] && !SafeForGood(f)
  {
    assert !Safe(t);
  }

  lemma SafeWhenSafe(s: State, limit: int, reject: bool, timed: bool)
    requires Inv(s) && UpToDate(s) && SafeToReplace(s, limit)
    ensures SafeForGood(Forced(s, limit, reject, timed))
  {
    var f := Forced(s, limit, reject, timed);
    hide Inv, SafeToReplace, Safe;
    ForcedExact(s, limit, reject, timed);
    forall steps | Legal(f, steps) ensures Safe(Run(f, steps)) {
      ContinuationKeeps(f, steps);
      InvSafe(Run(f, steps));
    }
  }

  /** Replacing the semaphore leaves every continuation safe if and only if it is safe to: without a limit
      afterwards, no release has seen one already; with one, nobody holds a slot but those already receiving from
      the old semaphore, and no start is about to send on it. */
  lemma ReplaceExact(s: State, limit: int, reject: bool, timed: bool)
    requires Inv(s) && UpToDate(s)
    ensures SafeForGood(Forced(s, limit, reject, timed)) <==> SafeToReplace(s, limit)
  {
    assert s.sems != [];
    hide Inv, UpToDate, SafeForGood, Forced;
    if SafeToReplace(s, limit) {
      SafeWhenSafe(s, limit, reject, timed);
    } else if limit > 0 {
      UnsafeUnderLimit(s, limit, reject, timed);
    } else {
      var id :| id in s.stage && s.stage[id].Checked?;
      UnsafeWithout(s, limit, reject, timed, id);
    }
  }

  lemma UnsafeUnderLimit(s: State, limit: int, reject: bool, timed: bool)
    requires Inv(s) && UpToDate(s) && limit > 0 && Orphans(s) != {}
    ensures Forced(s, limit, reject, timed).sems != [] && !SafeForGood(Forced(s, limit, reject, timed))
  {
    hide Inv, UpToDate, SafeForGood, Reach, Orphans, Enabled, Forced;
    var steps, t, id := ReleaseFindsEmpty(s, limit, reject, timed);
    UnsafeOnce(Forced(s, limit, reject, timed), steps, t, id);
  }

  lemma UnsafeWithout(s: State, limit: int, reject: bool, timed: bool, id: Id)
    requires s.sems != [] && limit <= 0 && id in s.stage && s.stage[id].Checked?
    ensures !SafeForGood(Forced(s, limit, reject, timed))
  {
    hide SafeForGood, Reach;
    var t := ReleaseFindsNothing(s, limit, reject, timed, id);
    UnsafeOnce(Forced(s, limit, reject, timed), [] + [Evaluate(id)], t, id);
  }

  /** That of every moment of every run. */
  lemma ReconfigureExact(maxConcurrency: int, queue: bool, timeouts: bool, steps: seq<Step>,
                         limit: int, reject: bool, timed: bool)
    requires Legal(NewTracker(maxConcurrency, queue, timeouts), steps)
    ensures var s := Run(NewTracker(maxConcurrency, queue, timeouts), steps);
            SafeForGood(Forced(s, limit, reject, timed)) <==> SafeToReplace(s, limit)
  {
    hide Run, Legal, SafeForGood, SafeToReplace;
    RunKeeps(maxConcurrency, queue, timeouts, steps);
    ReplaceExact(Run(NewTracker(maxConcurrency, queue, timeouts), steps), limit, reject, timed);
  }

  // ----- How far the limit is exceeded -----

  /** Under a limit the claims exceed the tokens by no more than n. */
  ghost predicate Level(s: State, n: nat)
    requires s.sems != []
  {
    Cur(s).limit > 0 ==> |Claimants(s.stage, G(s))| <= Cur(s).tokens + n
  }

  lemma MoveLevel(s: State, t: State, id: Id, st: Stage, g: nat, d: int, n: nat)
    requires s.sems != [] && Moves(s, t, id, st, g, d) && Level(s, n)
    requires Cur(s).limit > 0 ==>
               (if Claims(st, G(s)) then 1 else 0) - (if id in s.stage && Claims(s.stage[id], G(s)) then 1 else 0) <=
               (if g == G(s) then d else 0)
    ensures Level(t, n)
  {
    ClaimsChange(s.stage, G(s), id, st);
    hide Claimants;
  }

  lemma MovingLevel(s: State, step: Step, n: nat)
    requires Tables(s) && Level(s, n) && Enabled(s, step) && !Tabling(step) && !step.Reconfigured?
    ensures Level(Next(s, step), n)
  {
    var t := Next(s, step);
    var g := if step.TrySend? || step.Acquire? || step.TakeBack? then s.stage[step.id].sem else G(s);
    assert step.id in s.stage ==> StageOk(s, s.stage[step.id]);
    var d := if (step.TrySend? || step.Acquire?) && Room(s, g) then 1 else if step.TakeBack? then -1 else 0;
    hide Tables, Level;
    MoveLevel(s, t, step.id, t.stage[step.id], g, d, n);
  }

  lemma TablingLevel(s: State, step: Step, n: nat)
    requires Tables(s) && Level(s, n) && Enabled(s, step) && Tabling(step)
    ensures Level(Next(s, step), n)
  {
    var t := Next(s, step);
    if t.stage == s.stage {
      assert Level(t, n);
    } else {
      var id := step.id;
      assert id in s.c.active <==> At(s, id, Active);
      hide Tables, Level;
      MoveLevel(s, t, id, t.stage[id], G(s), 0, n);
    }
  }

  lemma {:induction false} ContinuationLevel(s: State, more: seq<Step>, n: nat)
    requires Tables(s) && Level(s, n) && Legal(s, more)
    ensures Tables(Run(s, more)) && Level(Run(s, more), n)
    decreases |more|
  {
    if more == [] {
    } else {
      var t, step := Run(s, more[..|more| - 1]), more[|more| - 1];
      ContinuationLevel(s, more[..|more| - 1], n);
      TablesNext(t, step);
      if step.Reconfigured? {
        assert Claimants(t.stage, |t.sems|) == {};
      } else if Tabling(step) {
        TablingLevel(t, step, n);
      } else {
        MovingLevel(t, step, n);
      }
    }
  }

  /** Whatever happens after a replacement, active executions never exceed the limit by more than the executions
      the new semaphore did not know of. */
  lemma ExcessBounded(s: State, limit: int, reject: bool, timed: bool, more: seq<Step>)
    requires Inv(s) && Legal(Forced(s, limit, reject, timed), more)
    ensures var t := Run(Forced(s, limit, reject, timed), more);
            Cur(t).limit > 0 ==> |t.c.active| <= Cur(t).limit + |Orphans(s)|
  {
    var f := Forced(s, limit, reject, timed);
    ForcedTables(s, limit, reject, timed);
    assert Level(f, |Orphans(s)|);
    ContinuationLevel(f, more, |Orphans(s)|);
    var t := Run(f, more);
    hide Run, Legal;
    var c := Claimants(t.stage, G(t));
    forall id | id in t.c.active.Keys ensures id in c { assert At(t, id, Active); }
    SubsetSize(t.c.active.Keys, c);
    assert |t.c.active.Keys| == |t.c.active|;
    TokensBounded(t, G(t));
  }

  // ----- That it is exceeded -----

  lemma {:induction false} Above(s: set<Id>) returns (x: Id)
    ensures forall y :: y in s ==> y < x
  {
    if s == {} {
      x := 0;
    } else {
      var y :| y in s;
      x := Above(s - {y});
      assert forall z :: z in s ==> z == y || z in s - {y};
      if x <= y { x := y + 1; }
    }
  }

  /** These are the same but for x, which was unknown, has been started and is active. */
  ghost predicate OneStarted(t: State, u: State, x: Id)
    requires t.sems != [] && u.sems != []
  {
    && x !in t.stage && u.stage == t.stage[x := Active] && |u.sems| == |t.sems|
    && Cur(u) == Sem(Cur(t).limit, Cur(t).tokens + 1) && u.c.active.Keys == t.c.active.Keys + {x}
  }

  /** While the current semaphore has room one more execution can be started. */
  lemma StartOne(s: State, steps: seq<Step>, t: State) returns (more: seq<Step>, u: State, x: Id)
    requires Reach(s, steps, t) && Room(t, G(t)) && Tables(t)
    ensures Reach(s, more, u) && OneStarted(t, u, x) && Tables(u) && |u.c.active| == |t.c.active| + 1
  {
    hide Reach, Tables;
    x := Above(t.stage.Keys);
    more, u := steps, t;
    Go(s, more, u, Start(x));
    TablesNext(u, Start(x));
    more, u := more + [Start(x)], Next(u, Start(x));
    Go(s, more, u, Look(x));
    TablesNext(u, Look(x));
    more, u := more + [Look(x)], Next(u, Look(x));
    Go(s, more, u, TrySend(x));
    TablesNext(u, TrySend(x));
    more, u := more + [TrySend(x)], Next(u, TrySend(x));
    Go(s, more, u, Registered(x));
    TablesNext(u, Registered(x));
    more, u := more + [Registered(x)], Next(u, Registered(x));
    UnknownIsNotActive(t, x);
    assert u.c.active.Keys == t.c.active.Keys + {x};
    assert |u.c.active.Keys| == |u.c.active| && |t.c.active.Keys| == |t.c.active|;
  }

  lemma UnknownIsNotActive(t: State, x: Id)
    requires Tables(t) && x !in t.stage
    ensures x !in t.c.active
  {
  }

  /** The current semaphore can be filled with new executions, all of them active, leaving the others alone. */
  lemma {:induction false} Fill(s: State, steps: seq<Step>, t: State, n: nat) returns (more: seq<Step>, u: State)
    requires Reach(s, steps, t) && Tables(t) && Cur(t).tokens + n == Cur(t).limit
    ensures Reach(s, more, u) && Tables(u) && |u.c.active| == |t.c.active| + n
    ensures |u.sems| == |t.sems| && Cur(u) == Sem(Cur(t).limit, Cur(t).limit)
    ensures forall id :: id in t.stage ==> id in u.stage && u.stage[id] == t.stage[id]
    decreases n
  {
    hide Reach, Tables;
    if n == 0 {
      more, u := steps, t;
    } else {
      var x;
      more, u, x := StartOne(s, steps, t);
      more, u := Fill(s, more, u, n - 1);
    }
  }

  /** After every unsafe replacement by a limit some continuation has more than the limit active. */
  lemma LimitExceeded(s: State, limit: int, reject: bool, timed: bool) returns (steps: seq<Step>, t: State)
    requires Inv(s) && UpToDate(s) && limit > 0 && Orphans(s) != {}
    ensures Reach(Forced(s, limit, reject, timed), steps, t) && Cur(t).limit == limit && |t.c.active| > limit
  {
    hide Inv, Tables, Reach, Claimants, Orphans, UpToDate, Next, Forced;
    var f := Forced(s, limit, reject, timed);
    var id;
    steps, t, id := OrphanHolds(s, limit, reject, timed);
    if t.stage[id].Starting? { steps, t := Registers(f, steps, t, id); }
    if t.stage[id].Active? {
      steps, t := FillBeside(f, steps, t, id);
    } else {
      steps, t := FillBehind(f, steps, t, id);
    }
  }

  lemma Registers(s: State, steps: seq<Step>, t: State, id: Id) returns (more: seq<Step>, u: State)
    requires Reach(s, steps, t) && At(t, id, Starting) && Tables(t)
    ensures Reach(s, more, u) && At(u, id, Active) && u.sems == t.sems && Tables(u)
  {
    hide Reach, Tables;
    Go(s, steps, t, Registered(id));
    TablesNext(t, Registered(id));
    more, u := steps + [Registered(id)], Next(t, Registered(id));
  }

  /** An active execution without token, and the semaphore filled beside it. */
  lemma FillBeside(s: State, steps: seq<Step>, t: State, id: Id) returns (more: seq<Step>, u: State)
    requires Reach(s, steps, t) && At(t, id, Active) && Tables(t) && Cur(t).tokens == 0
    ensures Reach(s, more, u) && Cur(u).limit == Cur(t).limit && |u.c.active| > Cur(t).limit
  {
    assert id in t.c.active;
    assert |t.c.active| > 0 by { if t.c.active == map[] { assert id in t.c.active.Keys; } }
    hide Reach, Tables;
    more, u := Fill(s, steps, t, Cur(t).limit);
  }

  /** A release without token of its own takes one from the filled semaphore, and one more is started. */
  lemma FillBehind(s: State, steps: seq<Step>, t: State, id: Id) returns (more: seq<Step>, u: State)
    requires Reach(s, steps, t) && id in t.stage && (t.stage[id].Releasing? || t.stage[id].Checked?)
    requires Tables(t) && Cur(t).tokens == 0 && Cur(t).limit > 0
    ensures Reach(s, more, u) && Cur(u).limit == Cur(t).limit && |u.c.active| > Cur(t).limit
  {
    var limit := Cur(t).limit;
    hide Reach, Tables;
    more, u := Fill(s, steps, t, limit);
    more, u := TakesToken(s, more, u, id);
    var x;
    more, u, x := StartOne(s, more, u);
  }

  lemma TakesToken(s: State, steps: seq<Step>, t: State, id: Id) returns (more: seq<Step>, u: State)
    requires Reach(s, steps, t) && id in t.stage && (t.stage[id].Releasing? || t.stage[id].Checked?)
    requires Tables(t) && Cur(t).tokens > 0 && Cur(t).limit > 0
    ensures Reach(s, more, u) && Tables(u) && u.c == t.c && Cur(u) == Sem(Cur(t).limit, Cur(t).tokens - 1)
  {
    hide Reach, Tables;
    more, u := GoesToReceive(s, steps, t, id);
    ReceivingTables(t, u, id);
    Go(s, more, u, TakeBack(id));
    TablesNext(u, TakeBack(id));
    more, u := more + [TakeBack(id)], Next(u, TakeBack(id));
  }

  lemma ReceivingTables(t: State, u: State, id: Id)
    requires Tables(t) && id in t.stage && (t.stage[id].Releasing? || t.stage[id].Checked?)
    requires u == t.(stage := t.stage[id := Receiving(t.stage[id].status, G(t))])
    ensures Tables(u)
  {
    TokensBounded(t, G(t));
    hide Tables;
    assert Moves(t, u, id, Receiving(t.stage[id].status, G(t)), G(t), 0);
    MoveTables(t, u, id, Receiving(t.stage[id].status, G(t)), G(t), 0);
  }

  /** More than the limit can come to be active exactly when there are executions the new semaphore does not know. */
  lemma LimitExceededExact(s: State, limit: int, reject: bool, timed: bool)
    requires Inv(s) && UpToDate(s) && limit > 0
    ensures (exists steps, t :: Reach(Forced(s, limit, reject, timed), steps, t)
               && t.sems != [] && Cur(t).limit > 0 && |t.c.active| > Cur(t).limit) <==> Orphans(s) != {}
  {
    if Orphans(s) != {} {
      hide Reach, Inv, UpToDate, Orphans;
      var steps, t := LimitExceeded(s, limit, reject, timed);
      assert Reach(Forced(s, limit, reject, timed), steps, t) && |t.c.active| > Cur(t).limit;
    } else {
      forall steps, t | Reach(Forced(s, limit, reject, timed), steps, t)
        ensures t.sems != [] && (Cur(t).limit > 0 ==> |t.c.active| <= Cur(t).limit)
      {
        ExcessBounded(s, limit, reject, timed, steps);
      }
    }
  }

  lemma SameSize(a: set<Id>, b: set<Id>)
    requires a <= b && |a| == |b|
    ensures a == b
  {
    assert b == a + (b - a);
  }

  /** The guard in terms a caller can read: where there was a limit, all tokens belong to releases already
      receiving, and no start has read the semaphore. */
  lemma GuardInTokens(s: State)
    requires Inv(s) && UpToDate(s) && Cur(s).limit > 0
    ensures Orphans(s) == {} <==>
            Cur(s).tokens == |Receivers(s.stage, G(s))|
            && forall id :: id in s.stage ==> !s.stage[id].Looked? && !s.stage[id].Blocked?
  {
    var r, c := Receivers(s.stage, G(s)), Claimants(s.stage, G(s));
    assert r <= c;
    forall id | id in s.stage ensures Current(s.stage[id], G(s), Cur(s).limit) { }
    if Orphans(s) == {} {
      forall id | id in s.stage ensures !s.stage[id].Looked? && !s.stage[id].Blocked? && (id in c ==> id in r) {
        assert id !in Orphans(s);
      }
      assert r == c;
    }
    if Cur(s).tokens == |r| {
      SameSize(r, c);
      forall id | id in Orphans(s) ensures s.stage[id].Looked? || s.stage[id].Blocked? {
        assert Current(s.stage[id], G(s), Cur(s).limit);
        assert id in c ==> id in r;
      }
    }
  }

  /** Idle is not enough: a start that has its slot but is not registered yet is invisible to it, so that an idle
      tracker can be one it is not safe to reconfigure, to whatever limit. */
  lemma IdleIsNotQuiescent(id: Id, was: int, limit: int)
    requires was > 0 && limit > 0
    ensures exists steps, s :: Reach(NewTracker(was, false, false), steps, s) && Idle(s.c)
              && !SafeToReplace(s, limit) && !SafeForGood(Forced(s, limit, false, false))
  {
    var s0 := NewTracker(was, false, false);
    NewTrackerInv(was, false, false);
    Stay(s0);
    hide Reach, SafeForGood;
    var steps, s := [], s0;
    Go(s0, steps, s, Start(id));
    steps, s := steps + [Start(id)], Next(s, Start(id));
    Go(s0, steps, s, Look(id));
    steps, s := steps + [Look(id)], Next(s, Look(id));
    Go(s0, steps, s, TrySend(id));
    steps, s := steps + [TrySend(id)], Next(s, TrySend(id));
    assert id in Orphans(s);
    assert Reach(s0, steps, s) && Idle(s.c);
    ReachedExact(was, steps, s, limit);
  }

  lemma ReachedExact(was: int, steps: seq<Step>, s: State, limit: int)
    requires Reach(NewTracker(was, false, false), steps, s)
    ensures s.sems != [] && (SafeForGood(Forced(s, limit, false, false)) <==> SafeToReplace(s, limit))
  {
    ReconfigureExact(was, false, false, steps, limit, false, false);
  }
}

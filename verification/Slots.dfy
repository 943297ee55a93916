/**
 The concurrency slots of the execution tracker, with every step its callers take: reading the
 semaphore, sending on it and receiving from it are separate, because the field is read without
 the lock and the semaphore may be replaced in between.
 */
module Slots {
  import opened Options
  import opened Tracker

  /** A semaphore: how many tokens it takes and how many it has. One of limit zero is no semaphore at all;
      nothing is ever sent on it or received from it. */
  datatype Sem = Sem(limit: nat, tokens: nat)

  /** How far an execution has come. A number says which semaphore it has read and will use. */
  datatype Stage =
    | Asking                                      // has seen that there is a limit
    | Looked(sem: nat)                            // has read the semaphore it will try
    | Waiting                                     // found it full and is about to queue
    | Blocked(sem: nat)                           // queued on it
    | Starting                                    // may go ahead, not registered yet
    | Active
    | Releasing(status: Status)                   // removed, has its slot to give back
    | Checked(status: Status)                     // has seen that there is a limit
    | Receiving(status: Status, sem: nat)         // has read the semaphore it takes a token from
    | Reporting(status: Status)
    | Finished(status: Status)
    | Refused

  /** `sems` are all semaphores there ever were, the current one last. `armed` are the executions whose timer was
      ever set: a fired timer may still be on its way after Stop. */
  datatype State = State(c: Core, sems: seq<Sem>, stage: map<Id, Stage>, armed: set<Id>, log: seq<(Id, Status)>)

  datatype Step =
    | Start(id: Id)          // a fresh execution asks whether there is a limit
    | Look(id: Id)           // reads the semaphore
    | TrySend(id: Id)        // tries to send on it
    | Queue(id: Id)          // reads it again, to wait for it
    | Acquire(id: Id)        // gets through
    | GiveUp(id: Id)         // is cancelled while it waits
    | Registered(id: Id)
    | NodeEvent(id: Id, ev: Event)
    | Timeout(id: Id)
    | Cancel(id: Id)
    | CheckRelease(id: Id)   // an ended execution asks whether there is a limit
    | Evaluate(id: Id)       // reads the semaphore
    | TakeBack(id: Id)       // receives from it
    | Report(id: Id)
    | Reconfigured(limit: int, reject: bool, timed: bool)

  predicate At(s: State, id: Id, st: Stage) { id in s.stage && s.stage[id] == st }

  /** Which semaphore is the current one. */
  function G(s: State): nat
    requires s.sems != []
  {
    |s.sems| - 1
  }

  function Cur(s: State): Sem
    requires s.sems != []
  {
    s.sems[|s.sems| - 1]
  }

  predicate Room(s: State, g: nat) { g < |s.sems| && s.sems[g].tokens < s.sems[g].limit }

  function Put(s: State, g: nat): seq<Sem>
    requires g < |s.sems|
  {
    s.sems[g := s.sems[g].(tokens := s.sems[g].tokens + 1)]
  }

  function Take(s: State, g: nat): seq<Sem>
    requires g < |s.sems| && s.sems[g].tokens > 0
  {
    s.sems[g := s.sems[g].(tokens := s.sems[g].tokens - 1)]
  }

  /** Everyone has been refused, or has given back its slot. */
  predicate Quiescent(s: State) {
    forall id :: id in s.stage ==> s.stage[id].Refused? || s.stage[id].Reporting? || s.stage[id].Finished?
  }

  predicate Enabled(s: State, step: Step)
    requires s.sems != []
  {
    match step
    case Start(id) => id !in s.stage
    case Look(id) => At(s, id, Asking)
    case TrySend(id) => id in s.stage && s.stage[id].Looked?
    case Queue(id) => At(s, id, Waiting)
    case Acquire(id) => id in s.stage && s.stage[id].Blocked? && Room(s, s.stage[id].sem)
    case GiveUp(id) => id in s.stage && s.stage[id].Blocked?
    case Registered(id) => At(s, id, Starting)
    case NodeEvent(_, _) => true
    case Timeout(id) => id in s.armed
    case Cancel(_) => true
    case CheckRelease(id) => id in s.stage && s.stage[id].Releasing?
    case Evaluate(id) => id in s.stage && s.stage[id].Checked?
    case TakeBack(id) =>
      id in s.stage && s.stage[id].Receiving? && s.stage[id].sem < |s.sems| && s.sems[s.stage[id].sem].tokens > 0
    case Report(id) => id in s.stage && s.stage[id].Reporting?
    case Reconfigured(_, _, _) => Quiescent(s)
  }

  /** Removal from `active`, whoever does it: the execution now owes its slot and its report. */
  function End(s: State, id: Id, status: Status): State {
    if id in s.c.active then s.(c := Forget(s.c, id), stage := s.stage[id := Releasing(status)]) else s
  }

  /** A reconfiguration at any moment: a new, empty semaphore; whoever has read the old one still uses that. */
  function Forced(s: State, limit: int, reject: bool, timed: bool): State {
    s.(c := s.c.(reject := reject, timed := timed), sems := s.sems + [Sem(if limit > 0 then limit else 0, 0)])
  }

  function Next(s: State, step: Step): (t: State)
    requires s.sems != [] && Enabled(s, step)
    ensures t.sems != []
  {
    match step
    case Start(id) => s.(stage := s.stage[id := if Cur(s).limit == 0 then Starting else Asking])
    case Look(id) => s.(stage := s.stage[id := Looked(G(s))])
    case TrySend(id) =>
      if Room(s, s.stage[id].sem) then s.(sems := Put(s, s.stage[id].sem), stage := s.stage[id := Starting])
      else s.(stage := s.stage[id := if s.c.reject then Refused else Waiting])
    case Queue(id) => s.(stage := s.stage[id := Blocked(G(s))])
    case Acquire(id) => s.(sems := Put(s, s.stage[id].sem), stage := s.stage[id := Starting])
    case GiveUp(id) => s.(stage := s.stage[id := Refused])
    case Registered(id) =>
      s.(c := Register(s.c, id), stage := s.stage[id := Active],
         armed := if s.c.timed then s.armed + {id} else s.armed)
    case NodeEvent(id, ev) =>
      if Completes(s.c, id, ev) then End(s, id, StatusOf(Account(s.c.active[id], ev)))
      else s.(c := Record(s.c, id, ev))
    case Timeout(id) => End(s, id, Failed("timeout"))
    case Cancel(id) => End(s, id, Cancelled)
    case CheckRelease(id) =>
      var status := s.stage[id].status;
      s.(stage := s.stage[id := if Cur(s).limit == 0 then Reporting(status) else Checked(status)])
    case Evaluate(id) => s.(stage := s.stage[id := Receiving(s.stage[id].status, G(s))])
    case TakeBack(id) =>
      s.(sems := Take(s, s.stage[id].sem), stage := s.stage[id := Reporting(s.stage[id].status)])
    case Report(id) =>
      s.(stage := s.stage[id := Finished(s.stage[id].status)], log := s.log + [(id, s.stage[id].status)])
    case Reconfigured(limit, reject, timed) => Forced(s, limit, reject, timed)
  }

  /** A run: every step is one the code could take where it stands. */
  ghost predicate Legal(s: State, steps: seq<Step>)
    requires s.sems != []
    decreases |steps|, 0
  {
    steps == [] ||
    (Legal(s, steps[..|steps| - 1]) && Enabled(Run(s, steps[..|steps| - 1]), steps[|steps| - 1]))
  }

  ghost function Run(s: State, steps: seq<Step>): (t: State)
    requires s.sems != [] && Legal(s, steps)
    ensures t.sems != []
    decreases |steps|, 1
  {
    if steps == [] then s else Next(Run(s, steps[..|steps| - 1]), steps[|steps| - 1])
  }

  function NewTracker(maxConcurrency: int, reject: bool, timed: bool): State {
    State(Core(reject, timed, map[], {}), [Sem(if maxConcurrency > 0 then maxConcurrency else 0, 0)], map[], {}, [])
  }

  // ----- The invariant -----

  /** The execution has, or will come to have, a claim on the current semaphore, the g-th: it holds a slot it will
      give back there, or is about to get one from a semaphore that has been replaced. */
  predicate Claims(st: Stage, g: nat) {
    st.Starting? || st.Active? || st.Releasing? || st.Checked? || (st.Receiving? && st.sem == g)
    || ((st.Looked? || st.Blocked?) && st.sem != g)
  }

  ghost function Claimants(stage: map<Id, Stage>, g: nat): set<Id> {
    set id | id in stage && Claims(stage[id], g)
  }

  /** The executions about to take a token from the g-th semaphore. */
  ghost function Receivers(stage: map<Id, Stage>, g: nat): set<Id> {
    set id | id in stage && stage[id].Receiving? && stage[id].sem == g
  }

  /** Tables, stages and log agree, and every semaphore referred to exists. */
  ghost predicate Tables(s: State) {
    && s.sems != []
    && (forall g :: 0 <= g < |s.sems| ==> s.sems[g].tokens <= s.sems[g].limit)
    && (forall id :: id in s.c.active <==> At(s, id, Active))
    && s.c.timers <= s.c.active.Keys
    && (forall id :: id in s.armed ==> id in s.stage)
    && (forall id :: id in s.stage ==> StageOk(s, s.stage[id]))
  }

  ghost predicate StageOk(s: State, st: Stage) { st.Looked? || st.Blocked? || st.Receiving? ==> st.sem < |s.sems| }

  /** The sink's log has one entry for each finished execution and no other. */
  ghost predicate LogOk(s: State) {
    && (forall i :: 0 <= i < |s.log| ==> At(s, s.log[i].0, Finished(s.log[i].1)))
    && (forall i, j :: 0 <= i < j < |s.log| ==> s.log[i].0 != s.log[j].0)
    && (forall id :: id in s.stage && s.stage[id].Finished? ==> (id, s.stage[id].status) in s.log)
  }

  /** Under a limit the tokens are the claims, and nobody can still get a slot from a replaced semaphore; without
      one nobody is about to receive from what is not there. */
  ghost predicate Conserved(s: State)
    requires s.sems != []
  {
    if Cur(s).limit > 0 then
      && Cur(s).tokens == |Claimants(s.stage, G(s))|
      && forall id :: id in s.stage && (s.stage[id].Looked? || s.stage[id].Blocked?) ==> s.stage[id].sem == G(s)
    else
      forall id :: id in s.stage ==> !s.stage[id].Checked? && !(s.stage[id].Receiving? && s.stage[id].sem == G(s))
  }

  /** Whoever is about to receive from a replaced semaphore finds a token there. */
  ghost predicate OldServed(s: State)
    requires s.sems != []
  {
    forall g :: 0 <= g < G(s) ==> |Receivers(s.stage, g)| <= s.sems[g].tokens
  }

  ghost predicate Inv(s: State) { Tables(s) && LogOk(s) && Conserved(s) && OldServed(s) }

  // ----- Each step keeps it -----

  lemma ClaimsChange(stage: map<Id, Stage>, g: nat, id: Id, st: Stage)
    ensures |Claimants(stage[id := st], g)| ==
            |Claimants(stage, g)| + (if Claims(st, g) then 1 else 0)
            - (if id in stage && Claims(stage[id], g) then 1 else 0)
  {
    var h, h' := Claimants(stage, g), Claimants(stage[id := st], g);
    assert h' == if Claims(st, g) then h + {id} else h - {id};
  }

  lemma ReceiversChange(stage: map<Id, Stage>, g: nat, id: Id, st: Stage)
    ensures |Receivers(stage[id := st], g)| ==
            |Receivers(stage, g)| + (if st.Receiving? && st.sem == g then 1 else 0)
            - (if id in stage && stage[id].Receiving? && stage[id].sem == g then 1 else 0)
  {
    var h, h' := Receivers(stage, g), Receivers(stage[id := st], g);
    assert h' == if st.Receiving? && st.sem == g then h + {id} else h - {id};
  }

  /** What one step does to one execution's stage and to at most one semaphore. */
  ghost predicate Moves(s: State, t: State, id: Id, st: Stage, g: nat, d: int)
    requires s.sems != []
  {
    && t.stage == s.stage[id := st] && |t.sems| == |s.sems| && g < |s.sems|
    && (forall h :: 0 <= h < |s.sems| ==> t.sems[h].limit == s.sems[h].limit)
    && (forall h :: 0 <= h < |s.sems| && h != g ==> t.sems[h].tokens == s.sems[h].tokens)
    && t.sems[g].tokens == s.sems[g].tokens + d
  }

  /** A move that changes claims and tokens of the current semaphore alike, takes no receiver for nothing, and
      leaves no reference to a replaced semaphore behind keeps the slots conserved. */
  lemma MoveConserves(s: State, t: State, id: Id, st: Stage, g: nat, d: int)
    requires s.sems != [] && Moves(s, t, id, st, g, d) && Conserved(s) && OldServed(s)
    requires Cur(s).limit > 0 ==>
               (if Claims(st, G(s)) then 1 else 0) - (if id in s.stage && Claims(s.stage[id], G(s)) then 1 else 0) ==
               (if g == G(s) then d else 0)
    requires Cur(s).limit > 0 ==> ((st.Looked? || st.Blocked?) ==> st.sem == G(s))
    requires Cur(s).limit == 0 ==> !st.Checked? && !(st.Receiving? && st.sem == G(s))
    requires st.Receiving? ==> st.sem == G(s)
    requires g < G(s) && d < 0 ==> d == -1 && id in s.stage && s.stage[id].Receiving? && s.stage[id].sem == g
    ensures Conserved(t) && OldServed(t)
  {
    ClaimsChange(s.stage, G(s), id, st);
    forall h | 0 <= h < G(s) ensures |Receivers(t.stage, h)| <= t.sems[h].tokens {
      ReceiversChange(s.stage, h, id, st);
      assert |Receivers(s.stage, h)| <= s.sems[h].tokens;
    }
    hide Claimants, Receivers;
  }

  lemma LogUnchanged(s: State, t: State, id: Id, st: Stage)
    requires LogOk(s) && t.log == s.log && t.stage == s.stage[id := st]
    requires !st.Finished? && (id in s.stage ==> !s.stage[id].Finished?)
    ensures LogOk(t)
  {
  }

  /** Within an invariant state and under a limit only the current semaphore is still to be sent on. */
  lemma CurrentOnly(s: State, id: Id)
    requires Inv(s) && id in s.stage && (s.stage[id].Looked? || s.stage[id].Blocked?)
    ensures s.stage[id].sem <= G(s) && (Cur(s).limit > 0 ==> s.stage[id].sem == G(s))
  {
    assert StageOk(s, s.stage[id]);
  }

  lemma MoveTables(s: State, t: State, id: Id, st: Stage, g: nat, d: int)
    requires Tables(s) && Moves(s, t, id, st, g, d) && t.c == s.c && t.armed == s.armed
    requires !st.Active? && !At(s, id, Active) && StageOk(s, st) && t.sems[g].tokens <= t.sems[g].limit
    ensures Tables(t)
  {
    forall x | x in t.stage ensures StageOk(t, t.stage[x]) { assert x != id ==> StageOk(s, s.stage[x]); }
  }

  lemma TokensBounded(s: State, g: nat)
    requires Tables(s) && g < |s.sems|
    ensures s.sems[g].tokens <= s.sems[g].limit
  {
  }

  /** The steps of a start that only read. */
  lemma ReadingKeeps(s: State, step: Step)
    requires Inv(s) && Enabled(s, step) && (step.Start? || step.Look? || step.Queue? || step.GiveUp?)
    ensures Inv(Next(s, step))
  {
    if step.GiveUp? { CurrentOnly(s, step.id); }
    hide LogOk, Conserved, OldServed, Tables;
    TokensBounded(s, G(s));
    var t := Next(s, step);
    LogUnchanged(s, t, step.id, t.stage[step.id]);
    MoveTables(s, t, step.id, t.stage[step.id], G(s), 0);
    MoveConserves(s, t, step.id, t.stage[step.id], G(s), 0);
  }

  /** The steps of a start that send. */
  lemma SendingKeeps(s: State, step: Step)
    requires Inv(s) && Enabled(s, step) && (step.TrySend? || step.Acquire?)
    ensures Inv(Next(s, step))
  {
    CurrentOnly(s, step.id);
    hide LogOk, Conserved, OldServed, Tables;
    var g := s.stage[step.id].sem;
    TokensBounded(s, g);
    var t := Next(s, step);
    var d := if Room(s, g) then 1 else 0;
    LogUnchanged(s, t, step.id, t.stage[step.id]);
    MoveTables(s, t, step.id, t.stage[step.id], g, d);
    MoveConserves(s, t, step.id, t.stage[step.id], g, d);
  }

  lemma RegisterKeeps(s: State, id: Id)
    requires Inv(s) && Enabled(s, Registered(id))
    ensures Inv(Next(s, Registered(id)))
  {
    hide LogOk, Conserved, OldServed;
    LogUnchanged(s, Next(s, Registered(id)), id, Active);
    MoveConserves(s, Next(s, Registered(id)), id, Active, G(s), 0);
  }

  lemma EndKeeps(s: State, id: Id, status: Status)
    requires Inv(s)
    ensures Inv(End(s, id, status))
  {
    hide LogOk, Conserved, OldServed;
    if id in s.c.active {
      LogUnchanged(s, End(s, id, status), id, Releasing(status));
      MoveConserves(s, End(s, id, status), id, Releasing(status), G(s), 0);
    }
  }

  lemma ReleasingKeeps(s: State, step: Step)
    requires Inv(s) && Enabled(s, step) && (step.CheckRelease? || step.Evaluate? || step.TakeBack?)
    ensures Inv(Next(s, step))
  {
    assert step.id in s.stage && StageOk(s, s.stage[step.id]);
    if Cur(s).limit == 0 { NothingToReceive(s, step.id); }
    hide LogOk, Conserved, OldServed, Tables;
    var t := Next(s, step);
    var g, d := if step.TakeBack? then s.stage[step.id].sem else G(s), if step.TakeBack? then -1 else 0;
    TokensBounded(s, g);
    LogUnchanged(s, t, step.id, t.stage[step.id]);
    MoveTables(s, t, step.id, t.stage[step.id], g, d);
    MoveConserves(s, t, step.id, t.stage[step.id], g, d);
  }

  lemma NothingToReceive(s: State, id: Id)
    requires Inv(s) && Cur(s).limit == 0 && id in s.stage
    ensures !s.stage[id].Checked? && !(s.stage[id].Receiving? && s.stage[id].sem == G(s))
  {
  }

  lemma LogGrows(s: State, id: Id)
    requires LogOk(s) && s.sems != [] && Enabled(s, Report(id))
    ensures LogOk(Next(s, Report(id)))
  {
    var t := Next(s, Report(id));
    var n := |s.log|;
    assert t.log == s.log + [(id, s.stage[id].status)] && t.stage == s.stage[id := Finished(s.stage[id].status)];
    assert s.stage[id].Reporting?;
    hide Next, Enabled;
    forall i | 0 <= i < n ensures At(t, t.log[i].0, Finished(t.log[i].1)) && t.log[i].0 != id {
      assert At(s, s.log[i].0, Finished(s.log[i].1));
    }
    forall x | x in t.stage && t.stage[x].Finished? ensures (x, t.stage[x].status) in t.log {
      if x != id { assert (x, s.stage[x].status) in s.log; } else { assert t.log[n] in t.log; }
    }
  }

  lemma ReportKeeps(s: State, id: Id)
    requires Inv(s) && Enabled(s, Report(id))
    ensures Inv(Next(s, Report(id)))
  {
    LogGrows(s, id);
    hide LogOk, Conserved, OldServed, Tables;
    TokensBounded(s, G(s));
    var t := Next(s, Report(id));
    MoveTables(s, t, id, Finished(s.stage[id].status), G(s), 0);
    MoveConserves(s, t, id, Finished(s.stage[id].status), G(s), 0);
  }

  // ----- Replacing the semaphore -----

  predicate Reads(st: Stage) { st.Looked? || st.Blocked? || st.Receiving? }

  /** Everyone who has read a semaphore has read the current one, and everyone who has seen a limit sees one still. */
  ghost predicate UpToDate(s: State)
    requires s.sems != []
  {
    forall id :: id in s.stage ==> Current(s.stage[id], G(s), Cur(s).limit)
  }

  predicate Current(st: Stage, g: nat, limit: nat) {
    (Reads(st) ==> st.sem == g) && (Reads(st) || st.Asking? || st.Waiting? || st.Checked? ==> limit > 0)
  }

  /** The executions a new semaphore would not know of: those that hold a slot and are not already receiving from
      the old semaphore, and the starts about to send on the old one. */
  ghost function Orphans(s: State): set<Id>
    requires s.sems != []
  {
    Claimants(s.stage, |s.sems|)
  }

  /** There is no limit afterwards and no release has already seen that there was one; or there is one, and nobody
      would be unknown to its semaphore. */
  ghost predicate SafeToReplace(s: State, limit: int)
    requires s.sems != []
  {
    if limit <= 0 then forall id :: id in s.stage ==> !s.stage[id].Checked? else Orphans(s) == {}
  }

  lemma ForcedTables(s: State, limit: int, reject: bool, timed: bool)
    requires Tables(s) && LogOk(s)
    ensures Tables(Forced(s, limit, reject, timed)) && LogOk(Forced(s, limit, reject, timed))
  {
    var t := Forced(s, limit, reject, timed);
    forall id | id in t.stage ensures StageOk(t, t.stage[id]) { assert StageOk(s, s.stage[id]); }
    forall id ensures id in t.c.active <==> At(t, id, Active) { assert id in s.c.active <==> At(s, id, Active); }
    forall i | 0 <= i < |t.log| ensures At(t, t.log[i].0, Finished(t.log[i].1)) {
      assert At(s, s.log[i].0, Finished(s.log[i].1));
    }
  }

  /** Those about to receive from the current semaphore are among those whose tokens it has. */
  lemma ReceiversServed(s: State)
    requires Inv(s)
    ensures |Receivers(s.stage, G(s))| <= Cur(s).tokens
  {
    var r, c := Receivers(s.stage, G(s)), Claimants(s.stage, G(s));
    if Cur(s).limit > 0 {
      assert r <= c;
      SubsetSize(r, c);
    } else {
      assert r == {};
    }
  }

  lemma SubsetSize(a: set<Id>, b: set<Id>)
    requires a <= b
    ensures |a| <= |b|
  {
    assert b == a + (b - a);
  }

  lemma ForcedOldServed(s: State, limit: int, reject: bool, timed: bool)
    requires Inv(s)
    ensures OldServed(Forced(s, limit, reject, timed))
  {
    ReceiversServed(s);
    hide Receivers;
    var t := Forced(s, limit, reject, timed);
    forall g | 0 <= g < G(t) ensures |Receivers(t.stage, g)| <= t.sems[g].tokens {
      if g < G(s) { assert |Receivers(s.stage, g)| <= s.sems[g].tokens; }
    }
  }

  /** Replacing the semaphore at any moment keeps the invariant exactly when it is safe to. */
  lemma ForcedExact(s: State, limit: int, reject: bool, timed: bool)
    requires Inv(s) && UpToDate(s)
    ensures Inv(Forced(s, limit, reject, timed)) <==> SafeToReplace(s, limit)
  {
    ForcedTables(s, limit, reject, timed);
    ForcedOldServed(s, limit, reject, timed);
    hide Tables, LogOk, OldServed;
    var t := Forced(s, limit, reject, timed);
    assert Orphans(s) == Claimants(t.stage, G(t));
    assert forall id :: id in s.stage && (s.stage[id].Looked? || s.stage[id].Blocked?) ==> id in Orphans(s);
  }

  lemma QuiescentIsSafe(s: State, limit: int)
    requires s.sems != [] && Quiescent(s)
    ensures UpToDate(s) && SafeToReplace(s, limit)
  {
  }

  lemma NextKeeps(s: State, step: Step)
    requires Inv(s) && Enabled(s, step)
    ensures Inv(Next(s, step))
  {
    assert s.sems != [];
    hide Inv;
    match step
    case Registered(id) => RegisterKeeps(s, id);
    case NodeEvent(id, ev) => EventKeeps(s, id, ev);
    case Timeout(id) => EndKeeps(s, id, Failed("timeout"));
    case Cancel(id) => EndKeeps(s, id, Cancelled);
    case Report(id) => ReportKeeps(s, id);
    case Reconfigured(limit, reject, timed) =>
      QuiescentIsSafe(s, limit);
      ForcedExact(s, limit, reject, timed);
    case TrySend(_) => SendingKeeps(s, step);
    case Acquire(_) => SendingKeeps(s, step);
    case CheckRelease(_) => ReleasingKeeps(s, step);
    case Evaluate(_) => ReleasingKeeps(s, step);
    case TakeBack(_) => ReleasingKeeps(s, step);
    case _ => ReadingKeeps(s, step);
  }

  lemma EventKeeps(s: State, id: Id, ev: Event)
    requires Inv(s)
    ensures Inv(Next(s, NodeEvent(id, ev)))
  {
    if Completes(s.c, id, ev) {
      EndKeeps(s, id, StatusOf(Account(s.c.active[id], ev)));
    } else {
      hide LogOk, Conserved, OldServed;
      var t := Next(s, NodeEvent(id, ev));
      SameSlots(s, t);
    }
  }

  predicate Tabling(step: Step) { step.Registered? || step.NodeEvent? || step.Timeout? || step.Cancel? }

  lemma TablingTables(s: State, step: Step)
    requires Tables(s) && Enabled(s, step) && Tabling(step)
    ensures Tables(Next(s, step))
  {
    var t := Next(s, step);
    assert t.sems == s.sems;
    forall id | id in t.stage ensures StageOk(t, t.stage[id]) { assert id in s.stage ==> StageOk(s, s.stage[id]); }
    forall id ensures id in t.c.active <==> At(t, id, Active) { assert id in s.c.active <==> At(s, id, Active); }
  }

  lemma MovingTables(s: State, step: Step)
    requires Tables(s) && Enabled(s, step) && !Tabling(step) && !step.Reconfigured?
    ensures Tables(Next(s, step))
  {
    var t := Next(s, step);
    var g := if step.TrySend? || step.Acquire? || step.TakeBack? then s.stage[step.id].sem else G(s);
    assert step.id in s.stage ==> StageOk(s, s.stage[step.id]);
    TokensBounded(s, g);
    assert At(s, step.id, Active) ==> step.id in s.c.active;
    var d := if (step.TrySend? || step.Acquire?) && Room(s, g) then 1 else if step.TakeBack? then -1 else 0;
    hide Tables;
    MoveTables(s, t, step.id, t.stage[step.id], g, d);
  }

  /** The tables agree after any step, conserved or not. */
  lemma TablesNext(s: State, step: Step)
    requires Tables(s) && Enabled(s, step)
    ensures Tables(Next(s, step))
  {
    if Tabling(step) {
      TablingTables(s, step);
    } else if step.Reconfigured? {
      var t := Next(s, step);
      forall id | id in t.stage ensures StageOk(t, t.stage[id]) { assert StageOk(s, s.stage[id]); }
      forall id ensures id in t.c.active <==> At(t, id, Active) { assert id in s.c.active <==> At(s, id, Active); }
    } else {
      MovingTables(s, step);
    }
  }

  lemma SameSlots(s: State, t: State)
    requires s.sems != [] && t.sems == s.sems && t.stage == s.stage && t.log == s.log
    ensures LogOk(t) == LogOk(s) && Conserved(t) == Conserved(s) && OldServed(t) == OldServed(s)
  {
  }

  lemma CurrentKept(s: State, step: Step, id: Id)
    requires s.sems != [] && Enabled(s, step) && id in Next(s, step).stage && !step.Reconfigured?
    requires id in s.stage ==> Current(s.stage[id], G(s), Cur(s).limit)
    ensures var t := Next(s, step); |t.sems| == |s.sems| && Current(t.stage[id], G(t), Cur(t).limit)
  {
  }

  lemma UpToDateKept(s: State, step: Step)
    requires Inv(s) && UpToDate(s) && Enabled(s, step)
    ensures UpToDate(Next(s, step))
  {
    var t := Next(s, step);
    if step.Reconfigured? {
      QuiescentIsSafe(t, 0);
    } else {
      assert s.sems != [];
      hide Inv, Next, Enabled, Current;
      forall id | id in t.stage ensures Current(t.stage[id], G(t), Cur(t).limit) { CurrentKept(s, step, id); }
    }
  }

  lemma {:induction false} ContinuationKeeps(s: State, steps: seq<Step>)
    requires Inv(s) && Legal(s, steps)
    ensures Inv(Run(s, steps))
    decreases |steps|
  {
    if steps == [] {
    } else {
      hide Inv, Next, Enabled;
      ContinuationKeeps(s, steps[..|steps| - 1]);
      NextKeeps(Run(s, steps[..|steps| - 1]), steps[|steps| - 1]);
    }
  }

  lemma NewTrackerInv(maxConcurrency: int, reject: bool, timed: bool)
    ensures Inv(NewTracker(maxConcurrency, reject, timed)) && UpToDate(NewTracker(maxConcurrency, reject, timed))
  {
    assert Claimants(NewTracker(maxConcurrency, reject, timed).stage, 0) == {};
  }

  lemma {:induction false} RunKeeps(maxConcurrency: int, reject: bool, timed: bool, steps: seq<Step>)
    requires Legal(NewTracker(maxConcurrency, reject, timed), steps)
    ensures Inv(Run(NewTracker(maxConcurrency, reject, timed), steps))
    ensures UpToDate(Run(NewTracker(maxConcurrency, reject, timed), steps))
    decreases |steps|
  {
    hide Inv, Next, Enabled, UpToDate;
    if steps == [] {
      NewTrackerInv(maxConcurrency, reject, timed);
    } else {
      var n := |steps| - 1;
      RunKeeps(maxConcurrency, reject, timed, steps[..n]);
      NextKeeps(Run(NewTracker(maxConcurrency, reject, timed), steps[..n]), steps[n]);
      UpToDateKept(Run(NewTracker(maxConcurrency, reject, timed), steps[..n]), steps[n]);
    }
  }

  // ----- Main results -----

  lemma ActiveClaim(s: State)
    requires Inv(s)
    ensures |s.c.active| <= |Claimants(s.stage, G(s))|
  {
    var c := Claimants(s.stage, G(s));
    forall id | id in s.c.active.Keys ensures id in c { assert At(s, id, Active); }
    SubsetSize(s.c.active.Keys, c);
    assert |s.c.active.Keys| == |s.c.active|;
  }

  /** Whoever is about to receive finds a token, and the limit on active executions holds. */
  ghost predicate Safe(s: State)
    requires s.sems != []
  {
    && (forall id :: id in s.stage && s.stage[id].Receiving? ==>
          s.stage[id].sem < |s.sems| && s.sems[s.stage[id].sem].tokens > 0)
    && (Cur(s).limit > 0 ==> |s.c.active| <= Cur(s).limit)
  }

  lemma InvSafe(s: State)
    requires Inv(s)
    ensures Safe(s)
  {
    ActiveClaim(s);
    ReceiversServed(s);
    forall id | id in s.stage && s.stage[id].Receiving?
      ensures s.stage[id].sem < |s.sems| && s.sems[s.stage[id].sem].tokens > 0
    {
      var g := s.stage[id].sem;
      assert StageOk(s, s.stage[id]);
      assert id in Receivers(s.stage, g);
      assert |Receivers(s.stage, g)| <= s.sems[g].tokens;
    }
    hide Claimants, Receivers;
    assert Cur(s).tokens <= Cur(s).limit;
  }

  /** In every run: under a limit the semaphore's tokens are the executions that have a slot, so no more than the
      limit are ever active; a timer is only kept for an active execution. */
  lemma SlotConservation(maxConcurrency: int, reject: bool, timed: bool, steps: seq<Step>)
    requires Legal(NewTracker(maxConcurrency, reject, timed), steps)
    ensures var s := Run(NewTracker(maxConcurrency, reject, timed), steps);
            && (Cur(s).limit > 0 ==>
                  Cur(s).tokens == |Claimants(s.stage, G(s))| && |s.c.active| <= Cur(s).tokens <= Cur(s).limit)
            && s.c.timers <= s.c.active.Keys
  {
    hide Run, Legal, Claimants, Receivers;
    RunKeeps(maxConcurrency, reject, timed, steps);
    var s := Run(NewTracker(maxConcurrency, reject, timed), steps);
    ActiveClaim(s);
    TokensBounded(s, G(s));
  }

  /** In every run each execution is reported finished at most once, whoever ends it, and never while it is
      active; and a slot can always be given back without waiting. */
  lemma FinishedOnce(maxConcurrency: int, reject: bool, timed: bool, steps: seq<Step>)
    requires Legal(NewTracker(maxConcurrency, reject, timed), steps)
    ensures var s := Run(NewTracker(maxConcurrency, reject, timed), steps);
            && (forall i, j :: 0 <= i < j < |s.log| ==> s.log[i].0 != s.log[j].0)
            && (forall i :: 0 <= i < |s.log| ==> s.log[i].0 !in s.c.active)
            && (forall id :: id in s.stage && s.stage[id].Receiving? ==> Enabled(s, TakeBack(id)))
  {
    hide Run, Legal, Claimants, Receivers, Conserved, OldServed;
    RunKeeps(maxConcurrency, reject, timed, steps);
    var s := Run(NewTracker(maxConcurrency, reject, timed), steps);
    InvSafe(s);
    assert forall i :: 0 <= i < |s.log| ==> At(s, s.log[i].0, Finished(s.log[i].1));
  }

  /** Where a stage can lead: an execution's end is decided once, by the step that removes it from `active`. */
  ghost predicate Leads(a: Stage, b: Stage) {
    || a == b
    || (a.Asking? && b.Looked?)
    || (a.Looked? && (b.Starting? || b.Waiting? || b.Refused?))
    || (a.Waiting? && b.Blocked?)
    || (a.Blocked? && (b.Starting? || b.Refused?))
    || (a.Starting? && b.Active?)
    || (a.Active? && b.Releasing?)
    || (a.Releasing? && (b == Checked(a.status) || b == Reporting(a.status)))
    || (a.Checked? && b.Receiving? && b.status == a.status)
    || (a.Receiving? && b == Reporting(a.status))
    || (a.Reporting? && b == Finished(a.status))
  }

  lemma StagesAdvance(s: State, step: Step, id: Id)
    requires Inv(s) && Enabled(s, step) && id in s.stage
    ensures id in Next(s, step).stage && Leads(s.stage[id], Next(s, step).stage[id])
  {
    assert id in s.c.active <==> At(s, id, Active);
    hide LogOk, Conserved, OldServed;
  }

  // ----- Which status is reported -----

  /** The events accounted to an execution while it was active. */
  ghost function EventsOf(s: State, steps: seq<Step>, id: Id): seq<Event>
    requires s.sems != [] && Legal(s, steps)
    decreases |steps|
  {
    if steps == [] then []
    else
      var n := |steps| - 1;
      EventsOf(s, steps[..n], id) +
      match steps[n]
      case NodeEvent(x, ev) => if x == id && id in Run(s, steps[..n]).c.active then [ev] else []
      case _ => []
  }

  predicate Ended(st: Stage) { st.Releasing? || st.Checked? || st.Receiving? || st.Reporting? || st.Finished? }

  /** What an execution that started out with one pending datagram has become after these events. */
  ghost predicate Explained(s: State, evs: seq<Event>, id: Id) {
    var x := Accounted(Exec(1, false, ""), evs);
    && (id in s.c.active ==> s.c.active[id] == x)
    && (id !in s.c.active && (id in s.stage ==> !Ended(s.stage[id])) ==> evs == [])
    && (id in s.stage && Ended(s.stage[id]) ==>
          s.stage[id].status in {Failed("timeout"), Cancelled} || (s.stage[id].status == StatusOf(x) && x.pending <= 0))
  }

  lemma AccountedSnoc(x: Exec, evs: seq<Event>, ev: Event)
    ensures Accounted(x, evs + [ev]) == Account(Accounted(x, evs), ev)
  {
    assert (evs + [ev])[..|evs|] == evs;
  }

  lemma EventExplained(s: State, evs: seq<Event>, id: Id, ev: Event)
    requires Inv(s) && id in s.c.active && Explained(s, evs, id)
    ensures Explained(Next(s, NodeEvent(id, ev)), evs + [ev], id)
  {
    AccountedSnoc(Exec(1, false, ""), evs, ev);
    hide Conserved, OldServed, LogOk, Accounted;
  }

  lemma TablingExplained(s: State, step: Step, evs: seq<Event>, id: Id)
    requires Inv(s) && Enabled(s, step) && Explained(s, evs, id) && Tabling(step)
    requires !(step.NodeEvent? && step.id == id && id in s.c.active)
    ensures Explained(Next(s, step), evs, id)
  {
    assert Accounted(Exec(1, false, ""), []) == Exec(1, false, "");
    assert id in s.c.active <==> At(s, id, Active);
    hide Conserved, OldServed, LogOk, Accounted, StatusOf, Tables;
  }

  lemma MovingExplained(s: State, step: Step, evs: seq<Event>, id: Id)
    requires Inv(s) && Enabled(s, step) && Explained(s, evs, id) && !Tabling(step)
    ensures Explained(Next(s, step), evs, id)
  {
    hide Inv, Accounted, StatusOf, Next, Enabled;
    MovingStage(s, step, id);
  }

  lemma MovingStage(s: State, step: Step, id: Id)
    requires Inv(s) && Enabled(s, step) && !Tabling(step)
    ensures var t := Next(s, step);
            && t.c.active == s.c.active
            && ((id in t.stage && Ended(t.stage[id])) <==> (id in s.stage && Ended(s.stage[id])))
            && (id in s.stage && Ended(s.stage[id]) ==> t.stage[id].status == s.stage[id].status)
  {
    hide Tables, Conserved, OldServed, LogOk;
  }

  lemma {:induction false} RunExplained(maxConcurrency: int, reject: bool, timed: bool, steps: seq<Step>, id: Id)
    requires Legal(NewTracker(maxConcurrency, reject, timed), steps)
    ensures var s := NewTracker(maxConcurrency, reject, timed); Explained(Run(s, steps), EventsOf(s, steps, id), id)
    decreases |steps|
  {
    var s := NewTracker(maxConcurrency, reject, timed);
    if steps == [] {
      assert Run(s, steps) == s;
    } else {
      var n := |steps| - 1;
      RunExplained(maxConcurrency, reject, timed, steps[..n], id);
      RunKeeps(maxConcurrency, reject, timed, steps[..n]);
      hide Inv, Enabled, Explained, Next;
      var t, evs := Run(s, steps[..n]), EventsOf(s, steps[..n], id);
      if steps[n].NodeEvent? && steps[n].id == id && id in t.c.active {
        EventExplained(t, evs, id, steps[n].ev);
      } else {
        if Tabling(steps[n]) { TablingExplained(t, steps[n], evs, id); } else { MovingExplained(t, steps[n], evs, id); }
        assert evs + [] == evs;
      }
    }
  }

  /** In every run each status reported is a timeout, a cancellation, or the status of exactly the events
      accounted to that execution while it was active, the last of which left nothing pending. */
  lemma ReportedStatus(maxConcurrency: int, reject: bool, timed: bool, steps: seq<Step>, i: nat)
    requires Legal(NewTracker(maxConcurrency, reject, timed), steps)
    requires i < |Run(NewTracker(maxConcurrency, reject, timed), steps).log|
    ensures var s := NewTracker(maxConcurrency, reject, timed);
            var (id, status) := Run(s, steps).log[i];
            var x := Accounted(Exec(1, false, ""), EventsOf(s, steps, id));
            status == Failed("timeout") || status == Cancelled || (status == StatusOf(x) && x.pending <= 0)
  {
    hide Run, EventsOf, Legal;
    var s := NewTracker(maxConcurrency, reject, timed);
    RunKeeps(maxConcurrency, reject, timed, steps);
    RunExplained(maxConcurrency, reject, timed, steps, Run(s, steps).log[i].0);
  }
}

/**
 When does a tracked execution end? Datagrams of many executions move over the wires while nodes
 receive them, emit others and only afterwards report. This follows the pending count of each
 execution against the datagrams really in flight, for every interleaving.
 */
module Completion {
  import opened Options
  import opened Tracker
  import opened Runner

  /** How many wires each port of the handling node feeds. */
  type FanOut = map<Port, nat>

  function Fan(fan: FanOut, p: Port): nat { if p in fan then fan[p] else 0 }

  function Copies(fan: FanOut, ports: seq<Port>): nat {
    if ports == [] then 0 else Fan(fan, ports[0]) + Copies(fan, ports[1..])
  }

  /** Datagrams are known by the execution they belong to. `queued` sit on wires, `held` are being
      handled, `owed` have been handled and emitted but not reported yet, `stored` are in durable
      queues. `begun` are the execution ids given out so far; no id is given out twice. */
  datatype State = State(c: Core, queued: multiset<Id>, held: multiset<Id>, owed: seq<(Id, Event)>,
                         stored: multiset<Id>, begun: set<Id>)

  datatype Step =
    | Begin(id: Id)                                // the trigger starts an execution and holds its seed
    | Seed(id: Id, copies: nat)                    // the seed goes out to so many wires
    | Receive(id: Id)
    | Emit(id: Id, fan: FanOut, o: Outcome)        // a node has handled a datagram and sends its outputs
    | Report(i: nat)                               // and then reports it
    | Drain(id: Id)                                // a durable queue retries an entry it took earlier
    | Lose(id: Id)                                 // a wire drops or strands a queued datagram
    | Stop(id: Id)                                 // a node is stopped while handling
    | Abort(id: Id)                                // timeout or cancellation

  /** What the outstanding reports of one execution will still take off its pending count. */
  function Owed(owed: seq<(Id, Event)>, id: Id): int {
    if owed == [] then 0
    else Owed(owed[..|owed| - 1], id) + if owed[|owed| - 1].0 == id then 1 - owed[|owed| - 1].1.outputs else 0
  }

  predicate Enabled(s: State, step: Step) {
    match step
    case Begin(id) => id !in s.begun
    case Seed(id, _) => id in s.held
    case Receive(id) => id in s.queued
    case Emit(id, _, o) => id in s.held && o.Handled? && o.ev.outputs == |o.ports|
    case Report(i) => i < |s.owed|
    case Drain(id) => id in s.stored
    case Lose(id) => id in s.queued
    case Stop(id) => id in s.held
    case Abort(id) => true
  }

  function Next(s: State, step: Step): State
    requires Enabled(s, step)
  {
    match step
    case Begin(id) => s.(c := Register(s.c, id), held := s.held + multiset{id}, begun := s.begun + {id})
    case Seed(id, copies) =>
      s.(held := s.held - multiset{id}, queued := s.queued[id := s.queued[id] + copies])
    case Receive(id) => s.(queued := s.queued - multiset{id}, held := s.held + multiset{id})
    case Emit(id, fan, o) =>
      s.(held := s.held - multiset{id}, queued := s.queued[id := s.queued[id] + Copies(fan, o.ports)],
         owed := s.owed + [(id, o.ev)], stored := if o.stored then s.stored + multiset{id} else s.stored)
    case Report(i) =>
      s.(c := Record(s.c, s.owed[i].0, s.owed[i].1), owed := s.owed[..i] + s.owed[i + 1..])
    case Drain(id) => s.(stored := s.stored - multiset{id}, held := s.held + multiset{id})
    case Lose(id) => s.(queued := s.queued - multiset{id})
    case Stop(id) => s.(held := s.held - multiset{id})
    case Abort(id) => s.(c := Forget(s.c, id))
  }

  ghost predicate Legal(s: State, steps: seq<Step>)
    decreases |steps|, 0
  {
    steps == [] ||
    (Legal(s, steps[..|steps| - 1]) && Enabled(Run(s, steps[..|steps| - 1]), steps[|steps| - 1]))
  }

  ghost function Run(s: State, steps: seq<Step>): State
    requires Legal(s, steps)
    decreases |steps|, 1
  {
    if steps == [] then s else Next(Run(s, steps[..|steps| - 1]), steps[|steps| - 1])
  }

  function Start(c: Core): State
    requires c.active == map[]
  {
    State.State(c, multiset{}, multiset{}, [], multiset{}, {})
  }

  /** Datagrams of an execution that exist: on a wire or in a node's hands. */
  function InFlight(s: State, id: Id): nat { s.queued[id] + s.held[id] }

  // ----- What a flow lets escape -----

  /** What one step lets escape the count of an execution: an output counted but not delivered, or a datagram
      lost without report, counts up; a second copy, or a stored datagram coming back, counts down. */
  function Escape(step: Step, id: Id): int {
    match step
    case Seed(x, copies) => if x == id then 1 - copies else 0
    case Emit(x, fan, o) => if x == id && o.Handled? then |o.ports| - Copies(fan, o.ports) else 0
    case Drain(x) => if x == id then -1 else 0
    case Lose(x) => if x == id then 1 else 0
    case Stop(x) => if x == id then 1 else 0
    case _ => 0
  }

  function Escaped(steps: seq<Step>, id: Id): int {
    if steps == [] then 0 else Escaped(steps[..|steps| - 1], id) + Escape(steps[|steps| - 1], id)
  }

  // ----- Stored datagrams -----

  function Storings(steps: seq<Step>, id: Id): nat {
    if steps == [] then 0
    else
      var step := steps[|steps| - 1];
      Storings(steps[..|steps| - 1], id) +
      if step.Emit? && step.id == id && step.o.Handled? && step.o.stored then 1 else 0
  }

  function Retries(steps: seq<Step>, id: Id): nat {
    if steps == [] then 0
    else Retries(steps[..|steps| - 1], id) + if steps[|steps| - 1] == Drain(id) then 1 else 0
  }

  /** A datagram in a durable queue comes back once: in every run those there now and those that came back are those
      that went there. */
  lemma {:induction false} StoredBalance(c: Core, steps: seq<Step>, id: Id)
    requires c.active == map[] && Legal(Start(c), steps)
    ensures Run(Start(c), steps).stored[id] + Retries(steps, id) == Storings(steps, id)
    decreases |steps|
  {
    if steps == [] {
    } else {
      var n := |steps| - 1;
      StoredBalance(c, steps[..n], id);
      StoredStep(Run(Start(c), steps[..n]), steps[n], id);
    }
  }

  lemma StoredStep(s: State, step: Step, id: Id)
    requires Enabled(s, step)
    ensures Next(s, step).stored[id] + (if step == Drain(id) then 1 else 0) ==
            s.stored[id] + if step.Emit? && step.id == id && step.o.stored then 1 else 0
  {
    hide Copies, Record;
  }

  /** A timeout or cancellation ends an execution whatever is pending, and leaves the others. */
  lemma AbortEnds(s: State, id: Id)
    ensures Enabled(s, Abort(id)) && Next(s, Abort(id)).c.active == s.c.active - {id}
  {
  }

  // ----- The accounting law -----

  lemma OwedGrows(owed: seq<(Id, Event)>, x: (Id, Event), id: Id)
    ensures Owed(owed + [x], id) == Owed(owed, id) + if x.0 == id then 1 - x.1.outputs else 0
  {
    assert (owed + [x])[..|owed|] == owed;
  }

  lemma {:induction false} OwedWithout(owed: seq<(Id, Event)>, i: nat, id: Id)
    requires i < |owed|
    ensures Owed(owed[..i] + owed[i + 1..], id) == Owed(owed, id) - if owed[i].0 == id then 1 - owed[i].1.outputs else 0
    decreases |owed|
  {
    var n := |owed| - 1;
    if i == n {
      assert owed[..i] + owed[i + 1..] == owed[..n];
    } else {
      OwedWithout(owed[..n], i, id);
      assert owed[..i] + owed[i + 1..] == (owed[..n][..i] + owed[..n][i + 1..]) + [owed[n]];
      OwedGrows(owed[..n][..i] + owed[..n][i + 1..], owed[n], id);
    }
  }

  lemma {:induction false} OwedNothing(owed: seq<(Id, Event)>, id: Id)
    requires forall j :: 0 <= j < |owed| ==> owed[j].0 != id
    ensures Owed(owed, id) == 0
  {
    if owed == [] {
    } else {
      OwedNothing(owed[..|owed| - 1], id);
    }
  }

  /** An id not given out is nowhere. */
  ghost predicate Unused(s: State, id: Id) {
    && id !in s.c.active && id !in s.queued && id !in s.held && id !in s.stored
    && forall j :: 0 <= j < |s.owed| ==> s.owed[j].0 != id
  }

  /** The pending count of an execution is what is in flight, corrected by its outstanding reports and by what
      has escaped. */
  ghost predicate Law(s: State, escaped: int, id: Id) {
    && (id in s.c.active ==> s.c.active[id].pending == InFlight(s, id) + Owed(s.owed, id) + escaped)
    && (id !in s.begun ==> Unused(s, id) && escaped == 0)
  }

  lemma BeginKeeps(s: State, id: Id, x: Id, e: int)
    requires Law(s, e, x) && id !in s.begun
    ensures Law(Next(s, Begin(id)), e, x)
  {
    hide Owed;
    if id == x { OwedNothing(s.owed, x); }
  }

  lemma EmitKeeps(s: State, step: Step, x: Id, e: int)
    requires Law(s, e, x) && step.Emit? && Enabled(s, step)
    ensures Law(Next(s, step), e + Escape(step, x), x)
  {
    hide Copies, Owed;
    OwedGrows(s.owed, (step.id, step.o.ev), x);
  }

  lemma ReportKeeps(s: State, step: Step, x: Id, e: int)
    requires Law(s, e, x) && step.Report? && Enabled(s, step)
    ensures Law(Next(s, step), e, x)
  {
    hide Owed;
    OwedWithout(s.owed, step.i, x);
  }

  lemma OthersKeep(s: State, step: Step, x: Id, e: int)
    requires Law(s, e, x) && !step.Report? && !step.Emit? && !step.Begin? && Enabled(s, step)
    ensures Law(Next(s, step), e + Escape(step, x), x)
  {
    hide Copies, Owed;
  }

  lemma NextKeepsLaw(s: State, step: Step, escaped: int, id: Id)
    requires Law(s, escaped, id) && Enabled(s, step)
    ensures Law(Next(s, step), escaped + Escape(step, id), id)
  {
    hide Law, Next;
    match step
    case Begin(x) => BeginKeeps(s, x, id, escaped);
    case Emit(_, _, _) => EmitKeeps(s, step, id, escaped);
    case Report(_) => ReportKeeps(s, step, id, escaped);
    case _ => OthersKeep(s, step, id, escaped);
  }

  /** In every interleaving an execution's pending count is its datagrams in flight, plus what its outstanding
      reports will still take off, plus what the steps so far have let escape. */
  lemma {:induction false} AccountingLaw(c: Core, steps: seq<Step>, id: Id)
    requires c.active == map[] && Legal(Start(c), steps)
    ensures Law(Run(Start(c), steps), Escaped(steps, id), id)
    decreases |steps|
  {
    if steps == [] {
      assert Run(Start(c), steps) == Start(c);
    } else {
      hide Law, Enabled, Next, Escape;
      AccountingLaw(c, steps[..|steps| - 1], id);
      NextKeepsLaw(Run(Start(c), steps[..|steps| - 1]), steps[|steps| - 1], Escaped(steps[..|steps| - 1], id), id);
    }
  }

  // ----- Nothing escapes a balanced run -----

  /** Each output reaches as many wires as it is counted for, nothing is lost or retried. */
  predicate Balanced(step: Step) {
    match step
    case Seed(_, copies) => copies == 1
    case Emit(_, fan, o) => o.Handled? && !o.stored && forall i :: 0 <= i < |o.ports| ==> Fan(fan, o.ports[i]) == 1
    case Drain(_) => false
    case Lose(_) => false
    case Stop(_) => false
    case _ => true
  }

  lemma {:induction false} OneCopyEach(fan: FanOut, ports: seq<Port>)
    requires forall i :: 0 <= i < |ports| ==> Fan(fan, ports[i]) == 1
    ensures Copies(fan, ports) == |ports|
  {
    if ports == [] {
    } else {
      OneCopyEach(fan, ports[1..]);
    }
  }

  lemma {:induction false} NothingEscapes(steps: seq<Step>, id: Id)
    requires forall i :: 0 <= i < |steps| ==> Balanced(steps[i])
    ensures Escaped(steps, id) == 0
    decreases |steps|
  {
    if steps == [] {
    } else {
      var n := |steps| - 1;
      NothingEscapes(steps[..n], id);
      assert Balanced(steps[n]);
      match steps[n]
      case Emit(_, fan, o) => OneCopyEach(fan, o.ports);
      case _ =>
    }
  }

  // ----- Main results -----

  /** Reports of an execution, other than the i-th, that are still to come. */
  ghost predicate OnlyReport(s: State, i: nat)
    requires i < |s.owed|
  {
    forall j :: 0 <= j < |s.owed| && j != i ==> s.owed[j].0 != s.owed[i].0
  }

  /** In every run, a report ends its execution exactly when what is in flight and what the steps have let escape
      are outweighed by what the execution's other outstanding reports will still add. */
  lemma CompletionExact(c: Core, steps: seq<Step>, i: nat)
    requires c.active == map[] && Legal(Start(c), steps) && i < |Run(Start(c), steps).owed|
    requires Run(Start(c), steps).owed[i].0 in Run(Start(c), steps).c.active
    ensures var s := Run(Start(c), steps);
            var id, rest := s.owed[i].0, s.owed[..i] + s.owed[i + 1..];
            Completes(s.c, id, s.owed[i].1) <==> InFlight(s, id) + Escaped(steps, id) + Owed(rest, id) <= 0
  {
    hide Run, Legal, Escaped;
    var s := Run(Start(c), steps);
    AccountingLaw(c, steps, s.owed[i].0);
    OwedWithout(s.owed, i, s.owed[i].0);
  }

  /** So, with no other report of the execution outstanding and nothing escaped, Finished fires exactly when its
      last datagram has been consumed; and with a balance that is not zero it does not. */
  lemma EscapesDecide(c: Core, steps: seq<Step>, i: nat)
    requires c.active == map[] && Legal(Start(c), steps) && i < |Run(Start(c), steps).owed|
    requires Run(Start(c), steps).owed[i].0 in Run(Start(c), steps).c.active && OnlyReport(Run(Start(c), steps), i)
    ensures var s := Run(Start(c), steps); var id := s.owed[i].0;
            && (Escaped(steps, id) == 0 ==> (Completes(s.c, id, s.owed[i].1) <==> InFlight(s, id) == 0))
            && (Escaped(steps, id) > 0 ==> !Completes(s.c, id, s.owed[i].1))
            && (Escaped(steps, id) < 0 ==>
                  (Completes(s.c, id, s.owed[i].1) <==> InFlight(s, id) <= -Escaped(steps, id)))
  {
    hide Run, Legal, Completes, Escaped;
    CompletionExact(c, steps, i);
    var s := Run(Start(c), steps);
    OwedNothing(s.owed[..i] + s.owed[i + 1..], s.owed[i].0);
  }

  lemma CompletionSound(c: Core, steps: seq<Step>, i: nat)
    requires c.active == map[] && Legal(Start(c), steps) && i < |Run(Start(c), steps).owed|
    requires Run(Start(c), steps).owed[i].0 in Run(Start(c), steps).c.active
    requires (forall k :: 0 <= k < |steps| ==> Balanced(steps[k])) && OnlyReport(Run(Start(c), steps), i)
    ensures var s := Run(Start(c), steps);
            Completes(s.c, s.owed[i].0, s.owed[i].1) <==> InFlight(s, s.owed[i].0) == 0
  {
    hide Run, Legal, Completes, Escaped, OnlyReport;
    EscapesDecide(c, steps, i);
    NothingEscapes(steps, Run(Start(c), steps).owed[i].0);
  }

  lemma StaysPending(s: State, step: Step, id: Id)
    requires Enabled(s, step) && (id in s.c.active ==> s.c.active[id].pending > 0)
    ensures id in Next(s, step).c.active ==> Next(s, step).c.active[id].pending > 0
  {
    hide Copies, Owed;
  }

  lemma {:induction false} ActiveIsPending(c: Core, steps: seq<Step>, id: Id)
    requires c.active == map[] && Legal(Start(c), steps) && id in Run(Start(c), steps).c.active
    ensures Run(Start(c), steps).c.active[id].pending > 0
    decreases |steps|
  {
    hide Next, Enabled;
    var n := |steps| - 1;
    assert steps != [];
    if id in Run(Start(c), steps[..n]).c.active { ActiveIsPending(c, steps[..n], id); }
    StaysPending(Run(Start(c), steps[..n]), steps[n], id);
  }

  /** And none is forgotten: in a balanced run, an execution with nothing in flight and no report
      outstanding has ended. */
  lemma NothingLeftMeansEnded(c: Core, steps: seq<Step>, id: Id)
    requires c.active == map[] && Legal(Start(c), steps)
    requires forall k :: 0 <= k < |steps| ==> Balanced(steps[k])
    requires InFlight(Run(Start(c), steps), id) == 0
    requires forall j :: 0 <= j < |Run(Start(c), steps).owed| ==> Run(Start(c), steps).owed[j].0 != id
    ensures id !in Run(Start(c), steps).c.active
  {
    hide Run, Legal, Escaped;
    var s := Run(Start(c), steps);
    AccountingLaw(c, steps, id);
    NothingEscapes(steps, id);
    OwedNothing(s.owed, id);
    if id in s.c.active { ActiveIsPending(c, steps, id); }
  }

  /** A balanced run cannot end an execution early unless another node of it has emitted two or more
      datagrams and not reported them yet. */
  lemma EarlyOnlyBehindFanOut(c: Core, steps: seq<Step>, i: nat)
    requires c.active == map[] && Legal(Start(c), steps) && i < |Run(Start(c), steps).owed|
    requires Run(Start(c), steps).owed[i].0 in Run(Start(c), steps).c.active
    requires forall k :: 0 <= k < |steps| ==> Balanced(steps[k])
    ensures var s := Run(Start(c), steps); var id := s.owed[i].0;
            Completes(s.c, id, s.owed[i].1) && InFlight(s, id) > 0 ==>
              exists j :: 0 <= j < |s.owed| && j != i && s.owed[j].0 == id && s.owed[j].1.outputs >= 2
  {
    hide Run, Legal, Completes, Escaped;
    CompletionExact(c, steps, i);
    var s := Run(Start(c), steps);
    var id, rest := s.owed[i].0, s.owed[..i] + s.owed[i + 1..];
    NothingEscapes(steps, id);
    if forall j :: 0 <= j < |s.owed| && j != i && s.owed[j].0 == id ==> s.owed[j].1.outputs < 2 {
      OwedNonNegative(rest, id);
    }
  }

  lemma {:induction false} OwedNonNegative(owed: seq<(Id, Event)>, id: Id)
    requires forall j :: 0 <= j < |owed| && owed[j].0 == id ==> owed[j].1.outputs < 2
    ensures Owed(owed, id) >= 0
  {
    if owed == [] {
    } else {
      OwedNonNegative(owed[..|owed| - 1], id);
    }
  }

  // ----- Executions that can never end -----

  /** Nothing of the execution is left anywhere, and no report still to come lowers its count. */
  ghost predicate Stuck(s: State, id: Id) {
    && id in s.begun && id in s.c.active && s.c.active[id].pending > 0
    && id !in s.queued && id !in s.held && id !in s.stored
    && forall j :: 0 <= j < |s.owed| && s.owed[j].0 == id ==> s.owed[j].1.outputs >= 1
  }

  lemma ReportStaysStuck(s: State, i: nat, id: Id)
    requires Stuck(s, id) && i < |s.owed|
    ensures Stuck(Next(s, Step.Report(i)), id)
  {
    var (x, ev) := s.owed[i];
    assert x == id ==> ev.outputs >= 1;
    var t := Next(s, Step.Report(i));
    assert id in t.c.active && t.c.active[id].pending > 0;
    forall j | 0 <= j < |t.owed| && t.owed[j].0 == id ensures t.owed[j].1.outputs >= 1 {
      assert t.owed[j] == if j < i then s.owed[j] else s.owed[j + 1];
    }
  }

  lemma OtherStaysStuck(s: State, step: Step, id: Id)
    requires Stuck(s, id) && Enabled(s, step) && step != Abort(id) && !step.Report?
    ensures Stuck(Next(s, step), id)
  {
    hide Copies, Record;
    var t := Next(s, step);
    assert id in t.begun && id in t.c.active && t.c.active[id] == s.c.active[id];
    assert id !in t.queued && id !in t.held && id !in t.stored;
    assert t.owed == s.owed || (step.Emit? && step.id != id && t.owed == s.owed + [(step.id, step.o.ev)]);
    hide Next, Enabled;
  }

  /** Such an execution is never finished, whatever happens, unless it times out or is cancelled. */
  lemma {:induction false} StuckForGood(s: State, id: Id, more: seq<Step>)
    requires Stuck(s, id) && Legal(s, more) && Abort(id) !in more
    ensures id in Run(s, more).c.active && Stuck(Run(s, more), id)
    decreases |more|
  {
    if more == [] {
    } else {
      var n := |more| - 1;
      hide Next, Enabled;
      StuckForGood(s, id, more[..n]);
      assert more[n] in more;
      if more[n].Report? {
        assert more[n].i < |Run(s, more[..n]).owed| by { ReportInside(Run(s, more[..n]), more[n]); }
        ReportStaysStuck(Run(s, more[..n]), more[n].i, id);
      } else {
        OtherStaysStuck(Run(s, more[..n]), more[n], id);
      }
    }
  }

  lemma ReportInside(s: State, step: Step)
    requires step.Report? && Enabled(s, step)
    ensures step.i < |s.owed|
  {
  }

  // ----- How the count goes wrong outside those conditions -----

  /** The state these steps lead to from an idle system. */
  ghost predicate Reached(c: Core, steps: seq<Step>, s: State)
    requires c.active == map[]
  {
    Legal(Start(c), steps) && Run(Start(c), steps) == s
  }

  lemma Extend(c: Core, steps: seq<Step>, s: State, step: Step)
    requires c.active == map[] && Reached(c, steps, s) && Enabled(s, step)
    ensures Reached(c, steps + [step], Next(s, step))
  {
    assert (steps + [step])[..|steps|] == steps;
  }

  /** Execution 0 is running, with this pending count, these outstanding output counts and these
      numbers of datagrams queued and held. */
  ghost predicate Now(s: State, pending: int, outputs: seq<nat>, queued: nat, held: nat) {
    0 in s.begun && s.c.active.Keys == {0} && s.c.active[0].pending == pending && |s.owed| == |outputs|
    && (forall i :: 0 <= i < |outputs| ==> s.owed[i] == (0, Event(outputs[i], None, false)))
    && s.queued[0] == queued && s.held[0] == held && s.stored == multiset{}
  }

  lemma Received(c: Core, steps: seq<Step>, s: State, pending: int, outputs: seq<nat>, queued: nat, held: nat)
    returns (t: State)
    requires c.active == map[] && Reached(c, steps, s) && Now(s, pending, outputs, queued, held) && queued > 0
    ensures Reached(c, steps + [Receive(0)], t) && Now(t, pending, outputs, queued - 1, held + 1)
  {
    hide Reached, Owed;
    Extend(c, steps, s, Receive(0));
    t := Next(s, Receive(0));
  }

  lemma Sent(c: Core, steps: seq<Step>, s: State, pending: int, outputs: seq<nat>, queued: nat, held: nat,
             fan: FanOut, ports: seq<Port>, copies: nat)
    returns (t: State)
    requires c.active == map[] && Reached(c, steps, s) && Now(s, pending, outputs, queued, held) && held > 0
    requires copies == Copies(fan, ports)
    ensures Reached(c, steps + [Emit(0, fan, Emitted(ports))], t)
    ensures Now(t, pending, outputs + [|ports|], queued + copies, held - 1)
  {
    hide Reached, Owed, Copies;
    Extend(c, steps, s, Emit(0, fan, Emitted(ports)));
    t := Next(s, Emit(0, fan, Emitted(ports)));
  }

  lemma Reported(c: Core, steps: seq<Step>, s: State, pending: int, n: nat, queued: nat, held: nat) returns (t: State)
    requires c.active == map[] && Reached(c, steps, s) && Now(s, pending, [n], queued, held) && pending + n > 1
    ensures Reached(c, steps + [Step.Report(0)], t) && Now(t, pending + n - 1, [], queued, held)
  {
    hide Reached, Owed;
    Extend(c, steps, s, Step.Report(0));
    t := Next(s, Step.Report(0));
  }

  lemma Begun(c: Core) returns (t: State)
    requires c.active == map[]
    ensures Reached(c, [Begin(0)], t) && t.held == multiset{0} && t.queued == multiset{} && t.owed == []
    ensures t.c.active.Keys == {0} && t.c.active[0].pending == 1 && t.begun == {0} && t.stored == multiset{}
  {
    assert Reached(c, [], Start(c));
    hide Reached;
    assert [] + [Begin(0)] == [Begin(0)];
    Extend(c, [], Start(c), Begin(0));
    t := Next(Start(c), Begin(0));
  }

  /** Execution 0 starts and its seed goes to so many wires. */
  function Seeding(copies: nat): seq<Step> { [Begin(0)] + [Seed(0, copies)] }

  lemma Seeded(c: Core, copies: nat) returns (t: State)
    requires c.active == map[]
    ensures Reached(c, Seeding(copies), t) && Now(t, 1, [], copies, 0)
  {
    hide Reached, Owed;
    var s := Begun(c);
    Extend(c, [Begin(0)], s, Seed(0, copies));
    t := Next(s, Seed(0, copies));
  }

  /** A trigger whose port feeds two or more wires: the first branch to finish ends the execution under the others. */
  lemma SplitTriggerEndsEarly(c: Core, copies: nat)
    requires c.active == map[] && copies >= 2
    ensures exists s :: Reached(c, Seeding(copies) + [Receive(0)] + [Emit(0, map[], Emitted([]))], s)
              && |s.owed| == 1 && Completes(s.c, 0, s.owed[0].1) && InFlight(s, 0) == copies - 1
  {
    hide Reached, Seeding;
    var s := Seeded(c, copies);
    s := Received(c, Seeding(copies), s, 1, [], copies, 0);
    s := Sent(c, Seeding(copies) + [Receive(0)], s, 1, [], copies - 1, 1, map[], [], 0);
    assert Completes(s.c, 0, s.owed[0].1);
  }

  /** A trigger whose port feeds no wire: the execution it starts is never finished. */
  lemma UnwiredTriggerNeverEnds(c: Core, s: State, more: seq<Step>)
    requires c.active == map[] && Reached(c, Seeding(0), s) && Legal(s, more) && Abort(0) !in more
    ensures InFlight(s, 0) == 0 && 0 in Run(s, more).c.active
  {
    var t := Seeded(c, 0);
    assert s == t;
    StuckForGood(s, 0, more);
  }

  /** One node receives the seed and emits on its only port, which feeds n wires. */
  function Emitting(n: nat): seq<Step> { Seeding(1) + [Receive(0)] + [Emit(0, map["out" := n], Emitted(["out"]))] }

  lemma OutputSent(c: Core, n: nat) returns (s: State)
    requires c.active == map[]
    ensures Reached(c, Emitting(n), s) && Now(s, 1, [1], n, 0)
  {
    OnOnePort(n);
    hide Reached, Seeding, Copies;
    s := Seeded(c, 1);
    s := Received(c, Seeding(1), s, 1, [], 1, 0);
    s := Sent(c, Seeding(1) + [Receive(0)], s, 1, [], 0, 1, map["out" := n], ["out"], n);
    assert [] + [1] == [1];
    hide Now;
  }

  lemma OnOnePort(n: nat)
    ensures Copies(map["out" := n], ["out"]) == n && |["out"]| == 1
  {
    assert Copies(map["out" := n], []) == 0;
    assert ["out"][1..] == [];
  }

  /** A port the node does not have feeds no wire. */
  lemma {:induction false} NoSuchPort(fan: FanOut, ports: seq<Port>)
    requires forall i :: 0 <= i < |ports| ==> ports[i] !in fan
    ensures Copies(fan, ports) == 0
  {
    if ports == [] {
    } else {
      NoSuchPort(fan, ports[1..]);
    }
  }

  /** An output on a port without wires is counted but never arrives: in every continuation, however long, the
      execution stays open with nothing of it left. */
  lemma UnwiredOutputNeverEnds(c: Core, s: State, more: seq<Step>)
    requires c.active == map[] && Reached(c, Emitting(0), s) && Legal(s, more) && Abort(0) !in more
    ensures InFlight(s, 0) == 0 && 0 in Run(s, more).c.active
  {
    var t := OutputSent(c, 0);
    assert s == t;
    hide Emitting;
    StuckForGood(s, 0, more);
  }

  /** An output on a port feeding two or more wires: once it is reported, the first copy consumed ends the
      execution under the others. */
  lemma SplitOutputEndsEarly(c: Core, n: nat)
    requires c.active == map[] && n >= 2
    ensures exists s :: Reached(c, Emitting(n) + [Step.Report(0)] + [Receive(0)] + [Emit(0, map[], Emitted([]))], s)
              && |s.owed| == 1 && Completes(s.c, 0, s.owed[0].1) && InFlight(s, 0) == n - 1
  {
    hide Reached, Emitting;
    var s := OutputSent(c, n);
    s := Reported(c, Emitting(n), s, 1, 1, n, 0);
    s := Received(c, Emitting(n) + [Step.Report(0)], s, 1, [], n, 0);
    s := Sent(c, Emitting(n) + [Step.Report(0)] + [Receive(0)], s, 1, [], n - 1, 1, map[], [], 0);
    assert Completes(s.c, 0, s.owed[0].1);
  }

  const WIRED: FanOut := map["out" := 1]

  function Both(): seq<Step> { Seeding(1) + [Receive(0)] + [Emit(0, WIRED, Emitted(["out", "out"]))] }

  /** One node emits two datagrams, a second node consumes the first of them. */
  function Overtaking(): seq<Step> { Both() + [Receive(0)] + [Emit(0, WIRED, Emitted([]))] }

  lemma BothSent(c: Core) returns (s: State)
    requires c.active == map[]
    ensures Reached(c, Both(), s) && Now(s, 1, [2], 2, 0)
  {
    OneCopyEach(WIRED, ["out", "out"]);
    hide Reached, Seeding, Copies;
    s := Seeded(c, 1);
    s := Received(c, Seeding(1), s, 1, [], 1, 0);
    s := Sent(c, Seeding(1) + [Receive(0)], s, 1, [], 0, 1, WIRED, ["out", "out"], 2);
  }

  /** Outputs are sent before they are reported: of two outputs the first can be consumed and reported
      while the sender has yet to report, and the execution ends with the second still queued. */
  lemma SentBeforeReportedEndsEarly(c: Core)
    requires c.active == map[]
    ensures forall i :: 0 <= i < |Overtaking()| ==> Balanced(Overtaking()[i])
    ensures exists s :: Reached(c, Overtaking(), s)
              && |s.owed| == 2 && Completes(s.c, 0, s.owed[1].1) && InFlight(s, 0) == 1
  {
    OvertakingBalanced();
    hide Balanced, Reached, Overtaking;
    var s := Overtaken(c);
    EndsNow(s);
  }

  lemma Overtaken(c: Core) returns (s: State)
    requires c.active == map[]
    ensures Reached(c, Overtaking(), s) && Now(s, 1, [2, 0], 1, 0)
  {
    hide Reached, Both, Copies, Now, Emitted;
    NoSuchPort(WIRED, []);
    s := BothSent(c);
    s := Received(c, Both(), s, 1, [2], 2, 0);
    s := Sent(c, Both() + [Receive(0)], s, 1, [2], 1, 1, WIRED, [], 0);
    assert [2] + [0] == [2, 0];
  }

  lemma EndsNow(s: State)
    requires Now(s, 1, [2, 0], 1, 0)
    ensures |s.owed| == 2 && Completes(s.c, 0, s.owed[1].1) && InFlight(s, 0) == 1
  {
    assert [2, 0][1] == 0;
  }

  lemma OvertakingBalanced()
    ensures forall i :: 0 <= i < |Overtaking()| ==> Balanced(Overtaking()[i])
  {
    forall i | 0 <= i < |Overtaking()| ensures Balanced(Overtaking()[i]) {
      assert i == 0 || i == 1 || i == 2 || i == 3 || i == 4 || i == 5;
    }
  }
}

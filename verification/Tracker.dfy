/**
 Execution tracking: what a tracked execution counts and what status its events add up to. Each
 function on `Core` is what one critical section does to the tracker's tables.
 */
module Tracker {
  import opened Options

  type Id = nat

  datatype Exec = Exec(pending: int, failed: bool, reason: string)

  datatype Status = Success | Failed(reason: string) | Cancelled

  /** What a node reports for one datagram: how many outputs, its error if any, and whether the policy was "fail". */
  datatype Event = Event(outputs: nat, err: Option<string>, fail: bool)

  /** The tracker's settings and tables; its semaphore is the subject of the slot protocol. */
  datatype Core = Core(reject: bool, timed: bool, active: map<Id, Exec>, timers: set<Id>)

  function Register(c: Core, id: Id): Core {
    c.(active := c.active[id := Exec(1, false, "")], timers := if c.timed then c.timers + {id} else c.timers)
  }

  function Forget(c: Core, id: Id): Core {
    c.(active := c.active - {id}, timers := c.timers - {id})
  }

  function Account(x: Exec, ev: Event): Exec {
    Exec(x.pending + ev.outputs - 1, x.failed || (ev.err.Some? && ev.fail),
         if ev.err.Some? && ev.fail then ev.err.value else x.reason)
  }

  predicate Completes(c: Core, id: Id, ev: Event) {
    id in c.active && Account(c.active[id], ev).pending <= 0
  }

  function Record(c: Core, id: Id, ev: Event): Core {
    if id !in c.active then c
    else if Completes(c, id, ev) then Forget(c, id)
    else c.(active := c.active[id := Account(c.active[id], ev)])
  }

  function StatusOf(x: Exec): Status { if x.failed then Failed(x.reason) else Success }

  /** All the events of one execution, accounted in order. */
  function Accounted(x: Exec, evs: seq<Event>): Exec {
    if evs == [] then x else Account(Accounted(x, evs[..|evs| - 1]), evs[|evs| - 1])
  }

  predicate Fails(ev: Event) { ev.err.Some? && ev.fail }

  function Outputs(evs: seq<Event>): nat {
    if evs == [] then 0 else Outputs(evs[..|evs| - 1]) + evs[|evs| - 1].outputs
  }

  /** The i-th event is the last unhandled failure. */
  ghost predicate LastFailure(evs: seq<Event>, i: nat) {
    i < |evs| && Fails(evs[i]) && forall j :: i < j < |evs| ==> !Fails(evs[j])
  }

  lemma LastFailureGrows(evs: seq<Event>, i: nat)
    requires evs != [] && LastFailure(evs[..|evs| - 1], i) && !Fails(evs[|evs| - 1])
    ensures LastFailure(evs, i)
  {
    forall j | i < j < |evs| - 1 ensures !Fails(evs[j]) { assert evs[j] == evs[..|evs| - 1][j]; }
  }

  /** An execution's status is that of its last unhandled failure, and a success exactly when it had none;
      what is pending is one seed plus all outputs less one for every event. */
  lemma {:induction false} StatusExact(evs: seq<Event>)
    ensures var x := Accounted(Exec(1, false, ""), evs);
            && x.pending == 1 + Outputs(evs) - |evs|
            && (StatusOf(x) == Success <==> forall i :: 0 <= i < |evs| ==> !Fails(evs[i]))
            && (StatusOf(x) != Success ==>
                  exists i: nat :: LastFailure(evs, i) && StatusOf(x) == Failed(evs[i].err.value))
  {
    if evs == [] {
    } else {
      var n := |evs| - 1;
      var init := evs[..n];
      StatusExact(init);
      var x := Accounted(Exec(1, false, ""), init);
      assert Accounted(Exec(1, false, ""), evs) == Account(x, evs[n]);
      hide Accounted, Outputs;
      if Fails(evs[n]) {
        assert LastFailure(evs, n);
      } else if StatusOf(x) != Success {
        var i: nat :| LastFailure(init, i) && StatusOf(x) == Failed(init[i].err.value);
        LastFailureGrows(evs, i);
      }
      assert forall i :: 0 <= i < n ==> init[i] == evs[i];
    }
  }
}

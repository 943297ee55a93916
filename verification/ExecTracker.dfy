/** The tracker as an object: what each of its critical sections and semaphore operations does to its fields. */
module ExecTrackerModel {
  import opened Tracker
  import opened Slots
  import opened Reconfiguring

  /** The tracker's own fields, with the protocol they are part of. Each method is one step of it. */
  class ExecTracker {
    var limit: nat
    var tokens: nat
    var reject: bool
    var timed: bool
    var active: map<Id, Exec>
    var timers: set<Id>
    ghost var proto: State

    ghost predicate Mirrors()
      reads this
    {
      proto.sems != [] && Cur(proto) == Sem(limit, tokens) && proto.c == Core(reject, timed, active, timers)
    }

    ghost predicate Valid()
      reads this
    {
      Mirrors() && Inv(proto)
    }

    constructor (maxConcurrency: int, reject: bool, timed: bool)
      ensures Valid() && UpToDate(proto) && proto == NewTracker(maxConcurrency, reject, timed)
    {
      limit := if maxConcurrency > 0 then maxConcurrency else 0;
      this.reject, this.timed := reject, timed;
      tokens, active, timers := 0, map[], {};
      proto := NewTracker(maxConcurrency, reject, timed);
      NewTrackerInv(maxConcurrency, reject, timed);
    }

    /** A step of a caller that leaves these fields alone: looking at the limit, reading the semaphore, giving up,
        reporting, or using a semaphore that has been replaced. */
    ghost method Elsewhere(step: Step)
      requires Valid() && Enabled(proto, step)
      requires Next(proto, step).c == proto.c && Cur(Next(proto, step)) == Cur(proto)
      modifies this`proto
      ensures Valid() && proto == Next(old(proto), step)
    {
      NextKeeps(proto, step);
      proto := Next(proto, step);
    }

    /** The non-blocking send on the semaphore by a start that has read it. */
    method TryAcquire(id: Id) returns (ok: bool)
      requires Valid() && id in proto.stage && proto.stage[id] == Looked(G(proto)) && limit > 0
      modifies this`tokens, this`proto
      ensures Valid() && proto == Next(old(proto), TrySend(id))
      ensures At(proto, id, if ok then Starting else if reject then Refused else Waiting)
      ensures ok <==> |Claimants(old(proto).stage, G(old(proto)))| < limit
    {
      hide Inv, Claimants;
      TokensAreClaims(proto);
      ok := tokens < limit;
      if ok { tokens := tokens + 1; }
      NextKeeps(proto, TrySend(id));
      proto := Next(proto, TrySend(id));
    }

    /** The blocking send of a queued start, at a moment it is looked at again. */
    method AcquireQueued(id: Id) returns (ok: bool)
      requires Valid() && id in proto.stage && proto.stage[id] == Blocked(G(proto)) && limit > 0
      modifies this`tokens, this`proto
      ensures Valid() && (ok <==> At(proto, id, Starting))
      ensures ok ==> Enabled(old(proto), Acquire(id)) && proto == Next(old(proto), Acquire(id))
      ensures !ok ==> proto == old(proto)
      ensures !ok ==> |Claimants(proto.stage, G(proto))| == limit
    {
      hide Inv, Claimants;
      TokensAreClaims(proto);
      ok := tokens < limit;
      if ok {
        tokens := tokens + 1;
        NextKeeps(proto, Acquire(id));
        proto := Next(proto, Acquire(id));
      }
    }

    /** Registers a start that may go ahead; the number of active executions stays within the limit. */
    method RegisterExecution(id: Id)
      requires Valid() && At(proto, id, Starting)
      modifies this`active, this`timers, this`proto
      ensures Valid() && proto == Next(old(proto), Registered(id))
      ensures id !in old(active) && active.Keys == old(active).Keys + {id} && active[id].pending == 1
      ensures limit > 0 ==> |active| <= tokens <= limit
    {
      hide Inv, Claimants;
      ActiveStage(proto, id);
      NextKeeps(proto, Registered(id));
      RegisteredFields(proto, id);
      hide Next, Enabled;
      active := active[id := Exec(1, false, "")];
      if timed { timers := timers + {id}; }
      proto := Next(proto, Registered(id));
      ActiveWithinLimit(proto);
    }

    /** The part timeouts and cancellations share: of all who try to end an execution the first finds it. */
    method Remove(id: Id, timeout: bool) returns (found: bool)
      requires Valid() && (timeout ==> id in proto.armed)
      modifies this`active, this`timers, this`proto
      ensures Valid() && proto == Next(old(proto), if timeout then Timeout(id) else Cancel(id))
      ensures found <==> At(old(proto), id, Active)
      ensures found ==> At(proto, id, Releasing(if timeout then Failed("timeout") else Cancelled))
      ensures !found ==> proto == old(proto)
    {
      hide Inv;
      ActiveStage(proto, id);
      found := id in active;
      if found {
        active := active - {id};
        timers := timers - {id};
      }
      NextKeeps(proto, if timeout then Timeout(id) else Cancel(id));
      proto := Next(proto, if timeout then Timeout(id) else Cancel(id));
    }

    /** Accounts one event; a straggler of an execution that has ended changes nothing. */
    method RecordEvent(id: Id, ev: Event) returns (done: bool, status: Status)
      requires Valid()
      modifies this`active, this`timers, this`proto
      ensures Valid() && proto == Next(old(proto), NodeEvent(id, ev))
      ensures done <==> id in old(active) && old(active)[id].pending + ev.outputs <= 1
      ensures done ==> At(proto, id, Releasing(status))
      ensures id !in old(active) ==> proto == old(proto)
    {
      hide Inv;
      NextKeeps(proto, NodeEvent(id, ev));
      proto := Next(proto, NodeEvent(id, ev));
      done, status := false, Success;
      if id !in active { return; }
      var st := active[id];
      st := st.(pending := st.pending + ev.outputs - 1);
      if ev.err.Some? && ev.fail { st := st.(failed := true, reason := ev.err.value); }
      active := active[id := st];
      if st.pending <= 0 {
        active := active - {id};
        if id in timers { timers := timers - {id}; }
        assert old(active) - {id} == active && old(timers) - {id} == timers;
        done, status := true, if st.failed then Failed(st.reason) else Success;
      }
    }

    /** The receive by which an ended execution that has read the semaphore gives back its slot; that there is a
        token follows from the protocol. */
    method ReleaseSlot(id: Id)
      requires Valid() && id in proto.stage && proto.stage[id].Receiving? && proto.stage[id].sem == G(proto)
      modifies this`tokens, this`proto
      ensures Enabled(old(proto), TakeBack(id)) && Valid() && proto == Next(old(proto), TakeBack(id))
      ensures At(proto, id, Reporting(old(proto).stage[id].status))
      ensures limit > 0 ==> tokens == |Claimants(proto.stage, G(proto))| == old(tokens) - 1
    {
      hide Inv, Claimants;
      InvSafe(proto);
      tokens := tokens - 1;
      NextKeeps(proto, TakeBack(id));
      proto := Next(proto, TakeBack(id));
      TokensAreClaims(proto);
    }

    /** Replaces the semaphore. The tracker stays consistent exactly when that is safe, and then only is every
        continuation. */
    method ReconfigureLimits(maxConcurrency: int, reject: bool, timed: bool)
      requires Valid()
      modifies this
      ensures Mirrors() && proto == Forced(old(proto), maxConcurrency, reject, timed)
      ensures UpToDate(old(proto)) ==> (Valid() <==> SafeToReplace(old(proto), maxConcurrency))
      ensures UpToDate(old(proto)) ==> (Valid() <==> SafeForGood(proto))
    {
      ghost var s := proto;
      this.reject, this.timed, tokens := reject, timed, 0;
      limit := if maxConcurrency > 0 then maxConcurrency else 0;
      proto := Forced(proto, maxConcurrency, reject, timed);
      if UpToDate(s) {
        ForcedExact(s, maxConcurrency, reject, timed);
        ReplaceExact(s, maxConcurrency, reject, timed);
      }
      hide Inv, SafeForGood, SafeToReplace, UpToDate;
    }
  }

  lemma ActiveStage(s: State, id: Id)
    requires Inv(s)
    ensures id in s.c.active <==> At(s, id, Active)
  {
  }

  lemma RegisteredFields(s: State, id: Id)
    requires s.sems != [] && Enabled(s, Registered(id))
    ensures Next(s, Registered(id)).c == Register(s.c, id) && Next(s, Registered(id)).sems == s.sems
  {
  }

  lemma ActiveWithinLimit(s: State)
    requires Inv(s)
    ensures Cur(s).limit > 0 ==> |s.c.active| <= Cur(s).tokens <= Cur(s).limit
  {
    hide Claimants;
    ActiveClaim(s);
    TokensAreClaims(s);
  }

  lemma TokensAreClaims(s: State)
    requires Inv(s)
    ensures Cur(s).limit > 0 ==> Cur(s).tokens == |Claimants(s.stage, G(s))|
    ensures Cur(s).tokens <= Cur(s).limit
  {
  }
}

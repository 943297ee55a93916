/**
 How a node handles one datagram: the retry loop and the terminal error policies, down to the
 single event it reports for execution tracking.
 */
module Runner {
  import opened Options
  import opened Tracker

  type Port = string

  /** One call of the node's own code: the ports it emitted to, or an error (a panic counts as one). */
  datatype Attempt = Returned(ports: seq<Port>) | Errored(message: string)

  /** How an enqueue to the node's durable queue would end. */
  datatype StoreResult = NoQueue | StoreFails | Stores

  datatype Policy = Fail | Retry(max: int) | ErrorPort | Discard | StoreForward

  /** What the node knows besides the policy: whether its error port is wired up, and its durable queue. */
  datatype Node = Node(policy: Policy, hasErrorPort: bool, store: StoreResult)

  /** Either the node was stopped while backing off and reports nothing, or it emits on `ports`, in
      order, and reports `ev`; `stored` tells that the datagram went to the durable queue instead. */
  datatype Outcome = Stopped | Handled(ports: seq<Port>, ev: Event, stored: bool)

  function Failure(message: string): Outcome { Handled([], Event(0, Some(message), true), false) }

  function Terminal(n: Node, message: string): Outcome {
    match n.policy
    case ErrorPort =>
      if n.hasErrorPort then Handled(["error"], Event(1, Some(message), false), false) else Failure(message)
    case Discard => Handled([], Event(0, Some(message), false), false)
    case StoreForward =>
      if n.store.Stores? then Handled([], Event(0, Some(message), false), true) else Failure(message)
    case _ => Failure(message)
  }

  /** The number of calls the policy allows for one datagram. */
  function Allowed(p: Policy): nat { if p.Retry? && p.max > 0 then p.max + 1 else 1 }

  function Most(p: Policy, calls: seq<Attempt>): nat {
    if Allowed(p) <= |calls| then Allowed(p) else |calls|
  }

  ghost predicate FirstSuccess(calls: seq<Attempt>, n: nat, k: nat) {
    k < n <= |calls| && calls[k].Returned? && AllFail(calls, k)
  }

  ghost predicate AllFail(calls: seq<Attempt>, n: nat) {
    n <= |calls| && forall i :: 0 <= i < n ==> calls[i].Errored?
  }

  function Emitted(ports: seq<Port>): Outcome { Handled(ports, Event(|ports|, None, false), false) }

  /** What the policy promises, said without the loop: the first success within the allowed calls is
      emitted and reported; if all of them fail, the last error meets the terminal policy; if the node
      is stopped before either, nothing is reported. */
  ghost predicate Promised(n: Node, calls: seq<Attempt>, o: Outcome) {
    var most := Most(n.policy, calls);
    || (exists k: nat :: FirstSuccess(calls, most, k) && o == Emitted(calls[k].ports))
    || (AllFail(calls, most) && |calls| < Allowed(n.policy) && o == Stopped)
    || (AllFail(calls, most) && |calls| >= Allowed(n.policy) && o == Terminal(n, calls[most - 1].message))
  }

  /** Runs one datagram through the node. `calls` are the results its code would give, one per call;
      when they run out the node is being stopped. */
  method Handle(n: Node, calls: seq<Attempt>) returns (o: Outcome)
    ensures Promised(n, calls, o)
  {
    var attempt := 1;
    while attempt <= |calls|
      invariant 1 <= attempt <= |calls| + 1 && attempt <= Allowed(n.policy)
      invariant forall i :: 0 <= i < attempt - 1 ==> calls[i].Errored?
      decreases |calls| - attempt
    {
      var r := calls[attempt - 1];
      if r.Returned? {
        assert FirstSuccess(calls, Most(n.policy, calls), attempt - 1);
        return Emitted(r.ports);
      }
      if n.policy.Retry? {
        if attempt <= n.policy.max {
          attempt := attempt + 1;
          continue;
        }
        return Failure(r.message);
      }
      return Terminal(n, r.message);
    }
    return Stopped;
  }

  /** What a report means: it counts the ports emitted to, it carries an error exactly when no call
      succeeded, and that error counts as a failure exactly when the datagram went nowhere: not to the
      error port, not to the durable queue, and not discarded by choice. */
  lemma ReportMeaning(n: Node, calls: seq<Attempt>, o: Outcome)
    requires Promised(n, calls, o) && o.Handled?
    ensures o.ev.outputs == |o.ports|
    ensures o.ev.err.Some? <==> AllFail(calls, Most(n.policy, calls))
    ensures o.ev.fail <==> o.ev.err.Some? && o.ports == [] && !o.stored && !n.policy.Discard?
    ensures o.stored <==> o.ev.err.Some? && n.policy.StoreForward? && n.store.Stores?
    ensures o.ev.err.Some? ==> o.ports == if n.policy.ErrorPort? && n.hasErrorPort then ["error"] else []
  {
    var most := Most(n.policy, calls);
    if k: nat :| FirstSuccess(calls, most, k) && o == Emitted(calls[k].ports) {
      assert !calls[k].Errored?;
    }
  }

  /** How many calls it takes, and whose result is reported: with retries one call and as many again as allowed, else
      one. The first that succeeds is emitted as it came; if none does the report has the error of the last. Nothing
      is reported exactly when the node is stopped before. */
  lemma CallsExact(n: Node, calls: seq<Attempt>, o: Outcome)
    requires Promised(n, calls, o)
    ensures var most := if n.policy.Retry? && n.policy.max > 0 then n.policy.max + 1 else 1;
            if i :| 0 <= i < |calls| && i < most && calls[i].Returned? && forall j :: 0 <= j < i ==> calls[j].Errored?
            then o == Handled(calls[i].ports, Event(|calls[i].ports|, None, false), false)
            else if |calls| < most then o == Stopped
            else o.Handled? && calls[most - 1].Errored? && o.ev.err == Some(calls[most - 1].message)
  {
  }

  /** The promise leaves no choice: it names one outcome for every node and every sequence of results. */
  lemma PromisedUnique(n: Node, calls: seq<Attempt>, a: Outcome, b: Outcome)
    requires Promised(n, calls, a) && Promised(n, calls, b)
    ensures a == b
  {
    var most := Most(n.policy, calls);
    if AllFail(calls, most) {
      assert forall k: nat :: !FirstSuccess(calls, most, k);
    } else {
      var i: nat :| FirstSuccess(calls, most, i) && a == Emitted(calls[i].ports);
      var j: nat :| FirstSuccess(calls, most, j) && b == Emitted(calls[j].ports);
      assert i >= j && j >= i;
    }
  }

  /** A datagram whose time to live has passed is reported without calling the node. */
  function Expired(): Outcome { Handled([], Event(0, None, true), false) }

  /** That report uses up the datagram but, bearing no error, leaves the status of its execution as it was. */
  lemma ExpiredIsNoFailure(evs: seq<Event>)
    ensures Expired().Handled? && Expired().ports == [] && !Expired().stored
    ensures var x := Exec(1, false, "");
            StatusOf(Accounted(x, evs + [Expired().ev])) == StatusOf(Accounted(x, evs))
            && Accounted(x, evs + [Expired().ev]).pending == Accounted(x, evs).pending - 1
  {
    assert (evs + [Expired().ev])[..|evs|] == evs;
  }
}

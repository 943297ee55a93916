/**
 The bounded wire between two ports: a ring buffer with four overflow policies and two counters.
 The ring is proved to implement a bounded sequence, and every interleaving of sends, receives and
 closes is proved to deliver in order, without duplicates, and with counters that add up.
 */
module Wire {

  datatype Policy = Block | DropOldest | DropNewest | Sample(every: int)

  /** What the wire holds, with the ring buffer seen as the sequence it stands for. */
  datatype State<T> = State(cap: nat, policy: Policy, queue: seq<T>, closed: bool,
                            sampleN: nat, delivered: nat, dropped: nat)

  datatype SendResult = Delivered | Dropped | SendClosed | SendCancelled | MustWait

  datatype ReceiveResult<T> = Got(value: T) | ReceiveClosed | ReceiveCancelled | NothingYet

  predicate Valid<T>(s: State<T>) {
    s.cap > 0 && |s.queue| <= s.cap && (s.policy.Sample? ==> s.policy.every >= 1)
  }

  predicate Full<T>(s: State<T>) { |s.queue| >= s.cap }

  /** A fresh wire; a capacity or sampling period below one is raised to one. */
  function New<T>(capacity: int, policy: Policy): (s: State<T>)
    ensures Valid(s)
  {
    State(if capacity <= 0 then 1 else capacity,
          if policy.Sample? && policy.every < 1 then Sample(1) else policy, [], false, 0, 0, 0)
  }

  function Push<T>(s: State<T>, d: T): State<T> {
    s.(queue := s.queue + [d], delivered := s.delivered + 1)
  }

  function PopOldest<T>(s: State<T>): State<T>
    requires s.queue != []
  {
    s.(queue := s.queue[1..])
  }

  /** A send entering the wire; on MustWait the caller waits and comes back through Wake. */
  function AfterSend<T>(s: State<T>, d: T, cancelled: bool): (State<T>, SendResult)
    requires Valid(s)
  {
    if s.closed then (s, SendClosed)
    else if !Full(s) then (Push(s, d), Delivered)
    else match s.policy
      case Block => (s, if cancelled then SendCancelled else MustWait)
      case DropOldest => (Push(PopOldest(s).(dropped := s.dropped + 1), d), Delivered)
      case DropNewest => (s.(dropped := s.dropped + 1), Dropped)
      case Sample(k) =>
        var n := s.sampleN + 1;
        if n % k != 0 then (s.(sampleN := n, dropped := s.dropped + 1), Dropped)
        else (Push(PopOldest(s).(sampleN := n), d), Delivered)
  }

  /** A blocked send waking up: cancellation is looked at before room is. */
  function AfterWake<T>(s: State<T>, d: T, cancelled: bool): (State<T>, SendResult)
    requires Valid(s)
  {
    if cancelled then (s, SendCancelled)
    else if Full(s) && !s.closed then (s, MustWait)
    else if s.closed then (s, SendClosed)
    else (Push(s, d), Delivered)
  }

  function AfterReceive<T>(s: State<T>, cancelled: bool): (State<T>, ReceiveResult<T>) {
    if cancelled then (s, ReceiveCancelled)
    else if s.queue != [] then (PopOldest(s), Got(s.queue[0]))
    else (s, if s.closed then ReceiveClosed else NothingYet)
  }

  function AfterClose<T>(s: State<T>): State<T> { s.(closed := true) }

  // ----- Every interleaving -----

  datatype Op<T> = DoSend(d: T, cancelled: bool) | DoWake(d: T, cancelled: bool) | DoReceive(cancelled: bool) | DoClose

  /** How a datagram left the queue. */
  datatype Removal<T> = Received(d: T) | Evicted(d: T)

  /** The wire, all it ever accepted, all that ever left it, in order, and how its sends ended. */
  datatype History<T> = History(s: State<T>, accepted: seq<T>, removed: seq<Removal<T>>,
                                overflows: nat, completed: nat)

  function RecordSend<T>(h: History<T>, d: T, r: (State<T>, SendResult), overflow: bool): History<T>
    requires |r.0.queue| <= |h.s.queue| ==> r.1.Delivered? ==> h.s.queue != []
  {
    var evicted := r.1.Delivered? && |r.0.queue| <= |h.s.queue|;
    History(r.0,
            h.accepted + if r.1.Delivered? then [d] else [],
            h.removed + if evicted then [Evicted(h.s.queue[0])] else [],
            h.overflows + if overflow then 1 else 0,
            h.completed + if r.1.Delivered? || r.1.Dropped? then 1 else 0)
  }

  function Step<T>(h: History<T>, op: Op<T>): (r: History<T>)
    requires Valid(h.s)
    ensures Valid(r.s) && r.s.policy == h.s.policy && r.s.cap == h.s.cap
  {
    match op
    case DoSend(d, c) => RecordSend(h, d, AfterSend(h.s, d, c), !h.s.closed && Full(h.s))
    case DoWake(d, c) => RecordSend(h, d, AfterWake(h.s, d, c), false)
    case DoReceive(c) =>
      var r := AfterReceive(h.s, c);
      h.(s := r.0, removed := h.removed + if r.1.Got? then [Received(r.1.value)] else [])
    case DoClose => h.(s := AfterClose(h.s))
  }

  /** Only a blocked sender wakes up, and only the block policy blocks one. */
  predicate Legal<T>(s: State<T>, op: Op<T>) { op.DoWake? ==> s.policy.Block? }

  function Values<T>(rs: seq<Removal<T>>): (ds: seq<T>)
    ensures |ds| == |rs|
  {
    seq(|rs|, i requires 0 <= i < |rs| => rs[i].d)
  }

  function ReceivedOf<T>(rs: seq<Removal<T>>): seq<T> {
    if rs == [] then []
    else ReceivedOf(rs[..|rs| - 1]) + if rs[|rs| - 1].Received? then [rs[|rs| - 1].d] else []
  }

  function EvictedCount<T>(rs: seq<Removal<T>>): nat {
    if rs == [] then 0 else EvictedCount(rs[..|rs| - 1]) + if rs[|rs| - 1].Evicted? then 1 else 0
  }

  function Run<T>(h: History<T>, ops: seq<Op<T>>): (r: History<T>)
    requires Valid(h.s) && forall i :: 0 <= i < |ops| ==> Legal(h.s, ops[i])
    ensures Valid(r.s) && r.s.policy == h.s.policy && r.s.cap == h.s.cap
  {
    if ops == [] then h
    else Step(Run(h, ops[..|ops| - 1]), ops[|ops| - 1])
  }

  function Start<T>(capacity: int, policy: Policy): (h: History<T>)
    ensures Valid(h.s)
  {
    History(New(capacity, policy), [], [], 0, 0)
  }

  /** Sends that found the open wire full, and how each policy answers for them in its counters. */
  ghost predicate CountersOk<T>(h: History<T>)
    requires Valid(h.s)
  {
    && h.s.delivered == |h.accepted|
    && match h.s.policy
       case Block => EvictedCount(h.removed) == 0 && h.s.dropped == 0
       case DropOldest => EvictedCount(h.removed) == h.s.dropped == h.overflows
       case DropNewest => EvictedCount(h.removed) == 0 && h.s.dropped == h.overflows
       case Sample(k) =>
         h.s.sampleN == h.overflows && EvictedCount(h.removed) == h.overflows / k &&
         h.s.dropped == h.overflows - h.overflows / k
  }

  ghost predicate Inv<T>(h: History<T>) {
    && Valid(h.s)
    && h.accepted == Values(h.removed) + h.s.queue
    && CountersOk(h)
    && (!h.s.policy.DropOldest? ==> h.completed == h.s.delivered + h.s.dropped)
    && (h.s.policy.DropOldest? ==> h.completed == h.s.delivered)
  }

  lemma MulMono(a: int, b: int, k: int)
    requires a <= b && k >= 0
    ensures a * k <= b * k
  {
  }

  lemma DivUnique(x: int, q: int, r: int, k: int)
    requires k >= 1 && x == q * k + r && 0 <= r < k
    ensures x / k == q && x % k == r
  {
    var p := x / k;
    assert x == p * k + x % k;
    assert (p + 1) * k == p * k + k && (q + 1) * k == q * k + k;
    if p < q { MulMono(p + 1, q, k); }
    if q < p { MulMono(q + 1, p, k); }
  }

  lemma DivStep(n: nat, k: int)
    requires k >= 1
    ensures (n + 1) / k == n / k + if (n + 1) % k == 0 then 1 else 0
  {
    var q, r := n / k, n % k;
    if r + 1 < k {
      DivUnique(n + 1, q, r + 1, k);
    } else {
      assert (q + 1) * k == q * k + k;
      DivUnique(n + 1, q + 1, 0, k);
    }
  }

  lemma ValuesGrow<T>(rs: seq<Removal<T>>, r: Removal<T>)
    ensures Values(rs + [r]) == Values(rs) + [r.d]
    ensures EvictedCount(rs + [r]) == EvictedCount(rs) + if r.Evicted? then 1 else 0
    ensures ReceivedOf(rs + [r]) == ReceivedOf(rs) + if r.Received? then [r.d] else []
  {
    assert (rs + [r])[..|rs|] == rs;
  }

  // ----- What every step keeps -----

  lemma QueueGrows<T>(accepted: seq<T>, removed: seq<Removal<T>>, queue: seq<T>, d: T)
    requires accepted == Values(removed) + queue
    ensures accepted + [d] == Values(removed) + (queue + [d])
  {
  }

  lemma QueueShrinks<T>(accepted: seq<T>, removed: seq<Removal<T>>, queue: seq<T>, r: Removal<T>)
    requires accepted == Values(removed) + queue && queue != [] && r.d == queue[0]
    ensures accepted == Values(removed + [r]) + queue[1..]
  {
    ValuesGrow(removed, r);
    assert queue == [queue[0]] + queue[1..];
  }

  lemma SendKeepsInv<T>(h: History<T>, d: T, cancelled: bool)
    requires Inv(h)
    ensures Inv(Step(h, DoSend(d, cancelled)))
  {
    hide Values, EvictedCount;
    assert h.removed + [] == h.removed && h.accepted + [] == h.accepted;
    if !h.s.closed {
      QueueGrows(h.accepted, h.removed, h.s.queue, d);
      if Full(h.s) {
        var out := Evicted(h.s.queue[0]);
        ValuesGrow(h.removed, out);
        QueueShrinks(h.accepted, h.removed, h.s.queue, out);
        QueueGrows(h.accepted, h.removed + [out], h.s.queue[1..], d);
        if h.s.policy.Sample? { DivStep(h.s.sampleN, h.s.policy.every); }
      }
    }
  }

  lemma WakeKeepsInv<T>(h: History<T>, d: T, cancelled: bool)
    requires Inv(h) && h.s.policy.Block?
    ensures Inv(Step(h, DoWake(d, cancelled)))
  {
    hide Values, EvictedCount;
    assert h.removed + [] == h.removed && h.accepted + [] == h.accepted;
    QueueGrows(h.accepted, h.removed, h.s.queue, d);
  }

  lemma ReceiveKeepsInv<T>(h: History<T>, cancelled: bool)
    requires Inv(h)
    ensures Inv(Step(h, DoReceive(cancelled)))
  {
    hide Values, EvictedCount;
    assert h.removed + [] == h.removed;
    if h.s.queue != [] {
      ValuesGrow(h.removed, Received(h.s.queue[0]));
      QueueShrinks(h.accepted, h.removed, h.s.queue, Received(h.s.queue[0]));
    }
  }

  lemma StepKeepsInv<T>(h: History<T>, op: Op<T>)
    requires Inv(h) && Legal(h.s, op)
    ensures Inv(Step(h, op))
  {
    match op
    case DoSend(d, c) => SendKeepsInv(h, d, c);
    case DoWake(d, c) => WakeKeepsInv(h, d, c);
    case DoReceive(c) => ReceiveKeepsInv(h, c);
    case DoClose =>
  }

  lemma {:induction false} RunKeepsInv<T>(h: History<T>, ops: seq<Op<T>>)
    requires Inv(h) && forall i :: 0 <= i < |ops| ==> Legal(h.s, ops[i])
    ensures Inv(Run(h, ops))
  {
    if ops == [] {
    } else {
      hide Inv, Step;
      RunKeepsInv(h, ops[..|ops| - 1]);
      StepKeepsInv(Run(h, ops[..|ops| - 1]), ops[|ops| - 1]);
    }
  }

  lemma StartInv<T>(capacity: int, policy: Policy)
    ensures Inv(Start<T>(capacity, policy))
  {
    var h := Start<T>(capacity, policy);
    assert Values(h.removed) + h.s.queue == [];
  }

  // ----- Main results -----

  lemma {:induction false} RemovalsSplit<T>(rs: seq<Removal<T>>)
    ensures |rs| == |ReceivedOf(rs)| + EvictedCount(rs)
    ensures EvictedCount(rs) == 0 ==> ReceivedOf(rs) == Values(rs)
  {
    if rs == [] {
    } else {
      var init := rs[..|rs| - 1];
      RemovalsSplit(init);
      assert rs == init + [rs[|rs| - 1]];
      ValuesGrow(init, rs[|rs| - 1]);
    }
  }

  /** `got` are the elements of `from` at these positions, in order and none twice. */
  ghost predicate Picks<T>(pos: seq<nat>, from: seq<T>, got: seq<T>) {
    && |pos| == |got|
    && (forall i :: 0 <= i < |pos| ==> pos[i] < |from| && from[pos[i]] == got[i])
    && forall i, j :: 0 <= i < j < |pos| ==> pos[i] < pos[j]
  }

  lemma PicksLast<T>(pos: seq<nat>, from: seq<T>, got: seq<T>, x: T)
    requires Picks(pos, from, got)
    ensures Picks(pos, from + [x], got) && Picks(pos + [|from|], from + [x], got + [x])
  {
  }

  /** The positions, in the order of acceptance, of the datagrams received among the first removals. */
  lemma {:induction false} ReceivedPositions<T>(rs: seq<Removal<T>>) returns (pos: seq<nat>)
    ensures Picks(pos, Values(rs), ReceivedOf(rs))
  {
    pos := [];
    if rs == [] {
    } else {
      var n := |rs| - 1;
      pos := ReceivedPositions(rs[..n]);
      assert Values(rs) == Values(rs[..n]) + [rs[n].d];
      hide Picks;
      PicksLast(pos, Values(rs[..n]), ReceivedOf(rs[..n]), rs[n].d);
      if rs[n].Received? {
        pos := pos + [n];
      } else {
        assert ReceivedOf(rs) == ReceivedOf(rs[..n]);
      }
    }
  }

  /** In every run the queue is bounded and what was received is an in-order selection of what was accepted. */
  lemma ReceivesInOrder<T>(capacity: int, policy: Policy, ops: seq<Op<T>>) returns (pos: seq<nat>)
    requires forall i :: 0 <= i < |ops| ==> Legal(Start<T>(capacity, policy).s, ops[i])
    ensures var h := Run(Start(capacity, policy), ops);
            |h.s.queue| <= h.s.cap == (if capacity <= 0 then 1 else capacity) &&
            Picks(pos, h.accepted, ReceivedOf(h.removed))
  {
    var h := Run(Start(capacity, policy), ops);
    StartInv<T>(capacity, policy);
    RunKeepsInv(Start(capacity, policy), ops);
    pos := ReceivedPositions(h.removed);
  }

  /** Under block and dropNewest nothing accepted is ever lost: received then queued is exactly what was accepted. */
  lemma NothingAcceptedIsLost<T>(capacity: int, policy: Policy, ops: seq<Op<T>>)
    requires policy.Block? || policy.DropNewest?
    requires forall i :: 0 <= i < |ops| ==> Legal(Start<T>(capacity, policy).s, ops[i])
    ensures var h := Run(Start(capacity, policy), ops); h.accepted == ReceivedOf(h.removed) + h.s.queue
  {
    var h := Run(Start(capacity, policy), ops);
    StartInv<T>(capacity, policy);
    RunKeepsInv(Start(capacity, policy), ops);
    RemovalsSplit(h.removed);
  }

  /** What the two counters say, policy by policy, after any run with N sends that found the open wire full. */
  lemma CountersAddUp<T>(capacity: int, policy: Policy, ops: seq<Op<T>>)
    requires forall i :: 0 <= i < |ops| ==> Legal(Start<T>(capacity, policy).s, ops[i])
    ensures var h := Run(Start(capacity, policy), ops);
            var received, depth, N := |ReceivedOf(h.removed)|, |h.s.queue|, h.overflows;
            match h.s.policy
            case Block => h.s.dropped == 0 && h.s.delivered == received + depth && h.completed == h.s.delivered
            case DropOldest => h.s.dropped == N && h.s.delivered == received + depth + h.s.dropped
            case DropNewest => h.s.dropped == N && h.s.delivered == received + depth && h.completed == h.s.delivered + N
            case Sample(k) => k >= 1 && h.s.dropped == N - N / k && h.s.delivered == received + depth + N / k
  {
    var h := Run(Start(capacity, policy), ops);
    StartInv<T>(capacity, policy);
    RunKeepsInv(Start(capacity, policy), ops);
    RemovalsSplit(h.removed);
  }

  // ----- What a call returns -----

  /** The wire is closed exactly after a close. */
  lemma {:induction false} ClosedByClose<T>(h: History<T>, ops: seq<Op<T>>)
    requires Valid(h.s) && forall i :: 0 <= i < |ops| ==> Legal(h.s, ops[i])
    ensures Run(h, ops).s.closed <==> h.s.closed || exists i :: 0 <= i < |ops| && ops[i].DoClose?
  {
    if ops == [] {
    } else {
      var n := |ops| - 1;
      ClosedByClose(h, ops[..n]);
      assert forall i :: 0 <= i < n ==> ops[..n][i] == ops[i];
      ClosedStep(Run(h, ops[..n]), ops[n]);
    }
  }

  lemma ClosedStep<T>(h: History<T>, op: Op<T>)
    requires Valid(h.s)
    ensures Step(h, op).s.closed <==> h.s.closed || op.DoClose?
  {
  }

  /** After any run, a receive that is not cancelled returns the oldest accepted datagram that has not left the wire,
      and takes it out; it waits only if there is none and the wire was not closed. */
  lemma ReceiveExact<T>(capacity: int, policy: Policy, ops: seq<Op<T>>)
    requires forall i :: 0 <= i < |ops| ==> Legal(Start<T>(capacity, policy).s, ops[i])
    ensures var h := Run(Start(capacity, policy), ops); var r := AfterReceive(h.s, false).1;
            && |h.removed| <= |h.accepted|
            && (if |h.removed| < |h.accepted|
                then r == Got(h.accepted[|h.removed|])
                     && Step(h, DoReceive(false)).removed == h.removed + [Received(h.accepted[|h.removed|])]
                else r == if (exists i :: 0 <= i < |ops| && ops[i].DoClose?) then ReceiveClosed else NothingYet)
  {
    var h := Run(Start(capacity, policy), ops);
    StartInv<T>(capacity, policy);
    RunKeepsInv(Start(capacity, policy), ops);
    ClosedByClose(Start<T>(capacity, policy), ops);
    hide Run, CountersOk;
  }

  /** A send is refused on a closed wire and accepted where there is room. On a full wire it waits, evicts the oldest
      datagram, is dropped, or is sampled, as the policy says: of those that find the wire full every k-th evicts. */
  ghost predicate SendReturns<T>(h: History<T>, closed: bool, cap: int, policy: Policy, d: T, r: SendResult,
                                 t: History<T>)
  {
    var depth := |h.accepted| - |h.removed|;
    if closed then r == SendClosed && Stays(h, t)
    else if depth < cap then r == Delivered && t.accepted == h.accepted + [d] && t.removed == h.removed
    else
      && depth == cap && |h.removed| < |h.accepted|
      && match policy
         case Block => r == MustWait && Stays(h, t)
         case DropNewest => r == Dropped && Stays(h, t)
         case DropOldest => r == Delivered && Evicts(h, t, d)
         case Sample(k) =>
           if (h.overflows + 1) % (if k < 1 then 1 else k) != 0 then r == Dropped && Stays(h, t)
           else r == Delivered && Evicts(h, t, d)
  }

  ghost predicate Stays<T>(h: History<T>, t: History<T>) { t.accepted == h.accepted && t.removed == h.removed }

  ghost predicate Evicts<T>(h: History<T>, t: History<T>, d: T)
    requires |h.removed| < |h.accepted|
  {
    t.accepted == h.accepted + [d] && t.removed == h.removed + [Evicted(h.accepted[|h.removed|])]
  }

  lemma OneSend<T>(h: History<T>, policy: Policy, d: T)
    requires Inv(h) && h.s.policy == if policy.Sample? && policy.every < 1 then Sample(1) else policy
    ensures SendReturns(h, h.s.closed, h.s.cap, policy, d, AfterSend(h.s, d, false).1, Step(h, DoSend(d, false)))
  {
    hide Values, EvictedCount;
    assert h.removed + [] == h.removed && h.accepted + [] == h.accepted;
    assert |h.s.queue| == |h.accepted| - |h.removed|;
    if h.s.queue != [] { assert h.s.queue[0] == h.accepted[|h.removed|]; }
  }

  /** After any run sends that are not cancelled end so; and a sender that wakes up gets through as soon as there is
      room, or is refused once the wire is closed. */
  lemma SendExact<T>(capacity: int, policy: Policy, ops: seq<Op<T>>, d: T)
    requires forall i :: 0 <= i < |ops| ==> Legal(Start<T>(capacity, policy).s, ops[i])
    ensures var h, cap := Run(Start(capacity, policy), ops), if capacity < 1 then 1 else capacity;
            var closed := exists i :: 0 <= i < |ops| && ops[i].DoClose?;
            && SendReturns(h, closed, cap, policy, d, AfterSend(h.s, d, false).1, Step(h, DoSend(d, false)))
            && AfterWake(h.s, d, false).1 ==
               (if closed then SendClosed else if |h.accepted| - |h.removed| < cap then Delivered else MustWait)
            && AfterSend(h.s, d, true).1 ==
               (if !closed && |h.accepted| - |h.removed| >= cap && policy.Block? then SendCancelled
                else AfterSend(h.s, d, false).1)
            && AfterWake(h.s, d, true) == (h.s, SendCancelled) && AfterReceive(h.s, true) == (h.s, ReceiveCancelled)
  {
    hide Step, SendReturns, Inv, Run;
    var h := Run(Start(capacity, policy), ops);
    StartInv<T>(capacity, policy);
    RunKeepsInv(Start(capacity, policy), ops);
    ClosedByClose(Start<T>(capacity, policy), ops);
    DepthIs(h);
    OneSend(h, policy, d);
  }

  lemma DepthIs<T>(h: History<T>)
    requires Inv(h)
    ensures |h.s.queue| == |h.accepted| - |h.removed|
  {
    hide CountersOk;
  }

  /** All that n receives in a row return from a closed wire. */
  function DrainClosed<T>(s: State<T>, n: nat): (State<T>, seq<ReceiveResult<T>>)
    decreases n
  {
    if n == 0 then (s, [])
    else
      var r := AfterReceive(s, false);
      var rest := DrainClosed(r.0, n - 1);
      (rest.0, [r.1] + rest.1)
  }

  /** Closing loses nothing: receives still return the queue in order, and only then the closed error. */
  lemma {:induction false} CloseDrains<T>(s: State<T>, n: nat)
    requires s.closed
    ensures var r := DrainClosed(s, n).1;
            |r| == n && forall i :: 0 <= i < n ==> r[i] == if i < |s.queue| then Got(s.queue[i]) else ReceiveClosed
    decreases n
  {
    if n == 0 {
    } else {
      CloseDrains(AfterReceive(s, false).0, n - 1);
    }
  }

  // ----- The ring buffer -----

  lemma ModWrap(x: nat, n: nat)
    requires 0 < n && x < 2 * n
    ensures x % n == if x < n then x else x - n
  {
    if x >= n { DivUnique(x, 1, x - n, n); }
  }

  class Ring<T(0)> {
    const policy: Policy
    const zero: T
    const buf: array<T>
    var head: nat
    var count: nat
    var closed: bool
    var sampleN: nat
    var delivered: nat
    var dropped: nat

    ghost predicate Ok()
      reads this`head, this`count
    {
      buf.Length > 0 && head < buf.Length && count <= buf.Length && (policy.Sample? ==> policy.every >= 1)
    }

    /** The queued datagrams, oldest first. */
    ghost function Queue(): (q: seq<T>)
      requires Ok()
      reads this`head, this`count, buf
      ensures |q| == count
    {
      if head + count <= buf.Length then buf[head..head + count] else buf[head..] + buf[..head + count - buf.Length]
    }

    ghost function View(): State<T>
      requires Ok()
      reads this, buf
    {
      State(buf.Length, policy, Queue(), closed, sampleN, delivered, dropped)
    }

    constructor (capacity: int, policy: Policy, zero: T)
      ensures Ok() && fresh(buf) && View() == New(capacity, policy)
    {
      this.policy := if policy.Sample? && policy.every < 1 then Sample(1) else policy;
      this.zero := zero;
      buf := new T[if capacity <= 0 then 1 else capacity];
      head, count, closed, sampleN, delivered, dropped := 0, 0, false, 0, 0, 0;
    }

    method PushLocked(d: T)
      requires Ok() && count < buf.Length
      modifies this`count, buf
      ensures Ok() && Queue() == old(Queue()) + [d]
    {
      var tail := (head + count) % buf.Length;
      ModWrap(head + count, buf.Length);
      buf[tail] := d;
      count := count + 1;
    }

    method PopOldestLocked()
      requires Ok() && count > 0
      modifies this`head, this`count, buf
      ensures Ok() && Queue() == old(Queue())[1..]
    {
      ModWrap(head + 1, buf.Length);
      buf[head] := zero;
      head := (head + 1) % buf.Length;
      count := count - 1;
    }

    method Send(d: T, cancelled: bool) returns (r: SendResult)
      requires Ok()
      modifies this, buf
      ensures Ok() && (View(), r) == AfterSend(old(View()), d, cancelled)
    {
      hide Queue;
      if closed { return SendClosed; }
      if count >= buf.Length {
        match policy
        case Block => return if cancelled then SendCancelled else MustWait;
        case DropOldest =>
          PopOldestLocked();
          dropped := dropped + 1;
        case DropNewest =>
          dropped := dropped + 1;
          return Dropped;
        case Sample(k) =>
          sampleN := sampleN + 1;
          if sampleN % k != 0 {
            dropped := dropped + 1;
            return Dropped;
          }
          PopOldestLocked();
      }
      PushLocked(d);
      delivered := delivered + 1;
      return Delivered;
    }

    method Wake(d: T, cancelled: bool) returns (r: SendResult)
      requires Ok()
      modifies this, buf
      ensures Ok() && (View(), r) == AfterWake(old(View()), d, cancelled)
    {
      hide Queue;
      if cancelled { return SendCancelled; }
      if count >= buf.Length && !closed { return MustWait; }
      if closed { return SendClosed; }
      PushLocked(d);
      delivered := delivered + 1;
      return Delivered;
    }

    method Receive(cancelled: bool) returns (r: ReceiveResult<T>)
      requires Ok()
      modifies this, buf
      ensures Ok() && (View(), r) == AfterReceive(old(View()), cancelled)
    {
      if cancelled { return ReceiveCancelled; }
      if count == 0 { return if closed then ReceiveClosed else NothingYet; }
      var d := buf[head];
      assert d == Queue()[0];
      hide Queue;
      PopOldestLocked();
      return Got(d);
    }

    method Close()
      requires Ok()
      modifies this`closed
      ensures Ok() && View() == AfterClose(old(View()))
    {
      closed := true;
    }
  }
}

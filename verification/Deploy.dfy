/**
 Hot deployment: which wires and nodes survive a redeploy, and whether the nodes left running still
 hold the wires everybody else uses. Inbox wires are objects: they are known by the number they were
 allocated under, and a closed one stays closed.
 */
module Deploy {
  import opened Flow
  import opened Options

  type WireId = nat

  /** A running node and the wire objects it took hold of when it was started. */
  datatype Running = Running(mark: NodePrint, inputs: map<Port, WireId>, outputs: map<Port, seq<WireId>>, starts: nat)

  datatype State = State(inboxes: map<NodePort, WireId>, prints: map<NodePort, string>, nodes: map<Id, Running>,
                         next: WireId, closed: set<WireId>)

  function Initial(): State { State(map[], map[], map[], 0, {}) }

  /** The input ports a node of this type receives on. */
  function Listens(env: Env, d: NodeDef): (ps: set<Port>)
    ensures ps <= InputsOf(env, d)
  {
    if d.typeName !in env.types then {}
    else
      var info := env.types[d.typeName];
      match info.kind
      case Processor(multi) => if multi then InputsOf(env, d) else if info.inputs == [] then {} else {info.inputs[0]}
      case _ => {}
  }

  /** The current inboxes of these targets; a target without inbox is skipped. */
  function Live(inboxes: map<NodePort, WireId>, targets: seq<NodePort>): seq<WireId> {
    if targets == [] then []
    else
      var n := |targets| - 1;
      Live(inboxes, targets[..n]) + if targets[n] in inboxes then [inboxes[targets[n]]] else []
  }

  function Start(env: Env, f: File, inboxes: map<NodePort, WireId>, id: Id, prior: nat): Running
    requires id in NodeMap(f.nodes)
  {
    var d := NodeMap(f.nodes)[id];
    Running(PrintOf(f, id),
            map p | p in Listens(env, d) && NodePort(id, p) in inboxes :: inboxes[NodePort(id, p)],
            map p | p in EffectiveOutputs(env, d) :: Live(inboxes, Targets(f.wires, NodePort(id, p))),
            prior + 1)
  }

  /** This inbox keeps its wire. */
  predicate Kept(s: State, want: map<NodePort, string>, key: NodePort) {
    key in want && key in s.prints && s.prints[key] == want[key]
  }

  /** Inboxes whose fingerprint is unchanged keep their wire, the others get new wires, and whatever is
      replaced or no longer asked for is closed. */
  ghost predicate Reconciled(s: State, want: map<NodePort, string>, t: State) {
    && t.nodes == s.nodes && t.prints == want && t.inboxes.Keys == want.Keys && s.next <= t.next
    && (forall k :: k in want && Kept(s, want, k) ==> k in s.inboxes && t.inboxes[k] == s.inboxes[k])
    && (forall k :: k in want && !Kept(s, want, k) ==> s.next <= t.inboxes[k] < t.next)
    && (forall j, k :: j in want && k in want && j != k && !Kept(s, want, j) && !Kept(s, want, k) ==>
          t.inboxes[j] != t.inboxes[k])
    && (forall w :: w in t.closed <==>
          w in s.closed || exists k :: k in s.inboxes && !Kept(s, want, k) && s.inboxes[k] == w)
  }

  predicate Unaffected(s: State, f: File, id: Id) {
    id in NodeMap(f.nodes) && id in s.nodes && s.nodes[id].mark == PrintOf(f, id)
  }

  function Prior(s: State, id: Id): nat { if id in s.nodes then s.nodes[id].starts else 0 }

  /** Unaffected nodes are left alone, the others are stopped, and those of the file started anew,
      until a start fails. */
  ghost predicate Restarted(env: Env, s: State, f: File, t: State, ok: bool) {
    && t.nodes.Keys <= NodeMap(f.nodes).Keys && (ok <==> t.nodes.Keys == NodeMap(f.nodes).Keys)
    && (forall id :: id in NodeMap(f.nodes) && Unaffected(s, f, id) ==> id in t.nodes && t.nodes[id] == s.nodes[id])
    && (forall id :: id in t.nodes && !Unaffected(s, f, id) ==>
          t.nodes[id] == Start(env, f, t.inboxes, id, Prior(s, id)))
  }

  datatype Event = Deployed(f: File, ok: bool) | Stopped

  ghost predicate DeployStep(env: Env, s: State, f: File, t: State, ok: bool) {
    if WellFormed(env, f)
    then Reconciled(s, Want(env, f), t.(nodes := s.nodes)) && Restarted(env, s, f, t, ok)
    else t == s && !ok
  }

  ghost predicate StopStep(s: State, t: State) {
    t == State(map[], map[], map[], s.next, s.closed + s.inboxes.Values)
  }

  ghost predicate Next(env: Env, s: State, e: Event, t: State) {
    match e
    case Deployed(f, ok) => DeployStep(env, s, f, t, ok)
    case Stopped => StopStep(s, t)
  }

  /** A history: the states between any deploys, failed ones included, and stops. */
  ghost predicate History(env: Env, ss: seq<State>, es: seq<Event>) {
    |ss| == |es| + 1 && ss[0] == Initial() && forall i :: 0 <= i < |es| ==> Next(env, ss[i], es[i], ss[i + 1])
  }

  // ----- Invariant -----

  /** The inbox map: every inbox has a fingerprint, an open wire of its own, and no closed wire is to come. */
  ghost predicate InboxInv(s: State) {
    && s.prints.Keys == s.inboxes.Keys
    && (forall k :: k in s.inboxes ==> s.inboxes[k] < s.next && s.inboxes[k] !in s.closed)
    && (forall j, k :: j in s.inboxes && k in s.inboxes && j != k ==> s.inboxes[j] != s.inboxes[k])
    && (forall w :: w in s.closed ==> w < s.next)
  }

  ghost predicate PortInv(env: Env, s: State, id: Id, m: NodePrint, p: Port) {
    NodePort(id, p) in s.prints && s.prints[NodePort(id, p)] == InboxPrint(env, m.def, m.wires, NodePort(id, p))
  }

  /** A running node receives on exactly its live inboxes, whose fingerprints are those its own implies. */
  ghost predicate NodeInv(env: Env, s: State, id: Id)
    requires id in s.nodes
  {
    var r := s.nodes[id];
    && r.inputs.Keys == Listens(env, r.mark.def)
    && (forall p :: p in r.inputs ==> NodePort(id, p) in s.inboxes && s.inboxes[NodePort(id, p)] == r.inputs[p])
    && (forall p :: p in InputsOf(env, r.mark.def) ==> PortInv(env, s, id, r.mark, p))
  }

  ghost predicate Inv(env: Env, s: State) {
    InboxInv(s) && forall id :: id in s.nodes ==> NodeInv(env, s, id)
  }

  lemma KeptIsOpen(s: State, want: map<NodePort, string>, t: State, k: NodePort)
    requires InboxInv(s) && Reconciled(s, want, t) && k in t.inboxes && Kept(s, want, k)
    ensures t.inboxes[k] < t.next && t.inboxes[k] !in t.closed
  {
    hide Kept;
  }

  lemma NewIsOpen(s: State, want: map<NodePort, string>, t: State, k: NodePort)
    requires InboxInv(s) && Reconciled(s, want, t) && k in t.inboxes && !Kept(s, want, k)
    ensures t.inboxes[k] < t.next && t.inboxes[k] !in t.closed
  {
    hide Kept;
  }

  lemma NewIsApart(s: State, want: map<NodePort, string>, t: State, j: NodePort, k: NodePort)
    requires InboxInv(s) && Reconciled(s, want, t) && j in t.inboxes && k in t.inboxes && j != k
    ensures t.inboxes[j] != t.inboxes[k]
  {
    hide Kept;
  }

  lemma ReconciledKeeps(s: State, want: map<NodePort, string>, t: State)
    requires InboxInv(s) && Reconciled(s, want, t)
    ensures InboxInv(t)
  {
    forall k | k in t.inboxes ensures t.inboxes[k] < t.next && t.inboxes[k] !in t.closed {
      if Kept(s, want, k) { KeptIsOpen(s, want, t, k); } else { NewIsOpen(s, want, t, k); }
    }
    forall j, k | j in t.inboxes && k in t.inboxes && j != k ensures t.inboxes[j] != t.inboxes[k] {
      NewIsApart(s, want, t, j, k);
    }
    hide Kept;
  }

  lemma KeptPort(env: Env, s: State, f: File, t: State, id: Id, p: Port)
    requires Unaffected(s, f, id) && Reconciled(s, Want(env, f), t) && p in InputsOf(env, s.nodes[id].mark.def)
    requires PortInv(env, s, id, s.nodes[id].mark, p)
    ensures PortInv(env, t, id, s.nodes[id].mark, p)
    ensures NodePort(id, p) in s.inboxes && NodePort(id, p) in t.inboxes
    ensures t.inboxes[NodePort(id, p)] == s.inboxes[NodePort(id, p)]
  {
    SamePrintSameInbox(env, f, id, p);
    hide Want, InboxPrint, InputsOf;
    assert Kept(s, Want(env, f), NodePort(id, p));
  }

  lemma KeptNodeInv(env: Env, s: State, f: File, t: State, id: Id)
    requires id in s.nodes && NodeInv(env, s, id) && Unaffected(s, f, id) && Reconciled(s, Want(env, f), t)
    ensures NodeInv(env, t, id)
  {
    var m := s.nodes[id].mark;
    assert t.nodes == s.nodes;
    forall p | p in InputsOf(env, m.def)
      ensures PortInv(env, t, id, m, p) && NodePort(id, p) in s.inboxes && NodePort(id, p) in t.inboxes
      ensures t.inboxes[NodePort(id, p)] == s.inboxes[NodePort(id, p)]
    {
      assert PortInv(env, s, id, m, p);
      KeptPort(env, s, f, t, id, p);
    }
    hide Want, InboxPrint, InputsOf, Reconciled, Unaffected, Listens;
  }

  lemma StartedPort(env: Env, s: State, f: File, t: State, id: Id, p: Port)
    requires id in NodeMap(f.nodes) && Reconciled(s, Want(env, f), t.(nodes := s.nodes))
    requires p in InputsOf(env, NodeMap(f.nodes)[id])
    ensures PortInv(env, t, id, PrintOf(f, id), p) && NodePort(id, p) in t.inboxes
  {
    SamePrintSameInbox(env, f, id, p);
    hide Want, InboxPrint, InputsOf;
  }

  lemma StartShape(env: Env, f: File, inboxes: map<NodePort, WireId>, id: Id, prior: nat)
    requires id in NodeMap(f.nodes)
    requires forall p :: p in InputsOf(env, NodeMap(f.nodes)[id]) ==> NodePort(id, p) in inboxes
    ensures var r := Start(env, f, inboxes, id, prior);
            r.mark == PrintOf(f, id) && r.inputs.Keys == Listens(env, NodeMap(f.nodes)[id])
            && forall p :: p in r.inputs ==> NodePort(id, p) in inboxes && inboxes[NodePort(id, p)] == r.inputs[p]
  {
    hide Listens, Live, Targets, EffectiveOutputs, NodeMap, InputsOf;
  }

  lemma StartedNodeInv(env: Env, s: State, f: File, t: State, id: Id, prior: nat)
    requires id in NodeMap(f.nodes) && Reconciled(s, Want(env, f), t.(nodes := s.nodes))
    requires id in t.nodes && t.nodes[id] == Start(env, f, t.inboxes, id, prior)
    ensures NodeInv(env, t, id)
  {
    hide Want, InboxPrint, InputsOf, Reconciled, Listens, Start, NodeMap, PortInv, Touching;
    forall p | p in InputsOf(env, NodeMap(f.nodes)[id])
      ensures PortInv(env, t, id, PrintOf(f, id), p) && NodePort(id, p) in t.inboxes
    {
      StartedPort(env, s, f, t, id, p);
    }
    StartShape(env, f, t.inboxes, id, prior);
  }

  /** An invariant of one node looks at the inbox maps and that node only. */
  lemma SameNodeInv(env: Env, s: State, t: State, id: Id)
    requires id in s.nodes && id in t.nodes && s.nodes[id] == t.nodes[id]
    requires s.inboxes == t.inboxes && s.prints == t.prints
    requires NodeInv(env, s, id)
    ensures NodeInv(env, t, id)
  {
  }

  lemma DeployKeepsNode(env: Env, s: State, f: File, t: State, ok: bool, id: Id)
    requires Reconciled(s, Want(env, f), t.(nodes := s.nodes)) && Restarted(env, s, f, t, ok) && id in t.nodes
    requires id in s.nodes ==> NodeInv(env, s, id)
    ensures NodeInv(env, t, id)
  {
    hide Reconciled, NodeInv, Want, Start;
    if Unaffected(s, f, id) {
      KeptNodeInv(env, s, f, t.(nodes := s.nodes), id);
      SameNodeInv(env, t.(nodes := s.nodes), t, id);
    } else {
      StartedNodeInv(env, s, f, t, id, Prior(s, id));
    }
  }

  lemma NextKeeps(env: Env, s: State, e: Event, t: State)
    requires Inv(env, s) && Next(env, s, e, t)
    ensures Inv(env, t)
  {
    hide NodeInv, Want, Restarted, Reconciled, WellFormed;
    if e.Deployed? && WellFormed(env, e.f) {
      ReconciledKeeps(s, Want(env, e.f), t.(nodes := s.nodes));
      forall id | id in t.nodes ensures NodeInv(env, t, id) { DeployKeepsNode(env, s, e.f, t, e.ok, id); }
    }
  }

  lemma {:induction false} HistoryKeeps(env: Env, ss: seq<State>, es: seq<Event>, k: nat)
    requires History(env, ss, es) && k < |ss|
    ensures Inv(env, ss[k])
  {
    hide Next, NodeInv;
    if k == 0 {
    } else {
      hide Inv;
      HistoryKeeps(env, ss, es, k - 1);
      NextKeeps(env, ss[k - 1], es[k - 1], ss[k]);
    }
  }

  // ----- Receivers -----

  /** After any history, every running node receives on the live, open inbox of each port it listens on. */
  lemma ReceiverSafety(env: Env, ss: seq<State>, es: seq<Event>, k: nat, id: Id)
    requires History(env, ss, es) && k < |ss| && id in ss[k].nodes
    ensures var s, r := ss[k], ss[k].nodes[id];
            r.inputs.Keys == Listens(env, r.mark.def) &&
            forall p :: p in r.inputs ==>
              NodePort(id, p) in s.inboxes && s.inboxes[NodePort(id, p)] == r.inputs[p] && r.inputs[p] !in s.closed
  {
    HistoryKeeps(env, ss, es, k);
    assert NodeInv(env, ss[k], id);
  }

  // ----- Senders -----

  lemma {:induction false} LiveIsAll(inboxes: map<NodePort, WireId>, targets: seq<NodePort>)
    requires forall i :: 0 <= i < |targets| ==> targets[i] in inboxes
    ensures |Live(inboxes, targets)| == |targets|
    ensures forall i :: 0 <= i < |targets| ==> Live(inboxes, targets)[i] == inboxes[targets[i]]
  {
    if targets == [] {
    } else {
      LiveIsAll(inboxes, targets[..|targets| - 1]);
    }
  }

  lemma TargetHasInbox(env: Env, f: File, from: NodePort, i: nat)
    requires WellFormed(env, f) && i < |Targets(f.wires, from)|
    ensures Targets(f.wires, from)[i] in Want(env, f)
  {
    hide Sources;
    var k := TargetIsWired(f.wires, from, i);
    assert EndpointsOk(env, NodeMap(f.nodes), f.wires[k]);
    var j := NodeMapFrom(f.nodes, f.wires[k].to.node);
    assert TypeOk(env, f.nodes[j].def);
    assert NodePort(f.wires[k].to.node, f.wires[k].to.port) in Inboxes(env, NodeMap(f.nodes));
  }

  /** A node started by a deploy holds, for each of its ports, the inbox of every wire leaving it: one per
      wire, in file order, none skipped, each the live object and open. */
  lemma StartedSenderExact(env: Env, s: State, f: File, t: State, ok: bool, id: Id, p: Port)
    requires Inv(env, s) && WellFormed(env, f) && DeployStep(env, s, f, t, ok)
    requires id in t.nodes && !Unaffected(s, f, id) && p in EffectiveOutputs(env, NodeMap(f.nodes)[id])
    ensures p in t.nodes[id].outputs
    ensures var held, to := t.nodes[id].outputs[p], Targets(f.wires, NodePort(id, p));
            |held| == |to| && forall i :: 0 <= i < |to| ==>
              to[i] in t.inboxes && held[i] == t.inboxes[to[i]] && held[i] !in t.closed
  {
    hide WellFormed, Sources;
    NextKeeps(env, s, Deployed(f, ok), t);
    var to := Targets(f.wires, NodePort(id, p));
    forall i | 0 <= i < |to| ensures to[i] in t.inboxes { TargetHasInbox(env, f, NodePort(id, p), i); }
    LiveIsAll(t.inboxes, to);
  }

  /** Every validated wire leaves on a port its sender really has. */
  lemma WiredPortsExist(env: Env, f: File, k: nat)
    requires WellFormed(env, f) && k < |f.wires|
    ensures f.wires[k].from.node in NodeMap(f.nodes)
    ensures f.wires[k].from.port in EffectiveOutputs(env, NodeMap(f.nodes)[f.wires[k].from.node])
  {
    assert EndpointsOk(env, NodeMap(f.nodes), f.wires[k]);
    var j := NodeMapFrom(f.nodes, f.wires[k].from.node);
    assert TypeOk(env, f.nodes[j].def);
  }

  /** The wire object w that serves this inbox now also serves it later. */
  predicate Serves(s: State, key: NodePort, w: WireId) { key in s.inboxes && s.inboxes[key] == w }

  predicate SamePrint(s: State, t: State, key: NodePort) {
    key in s.prints && key in t.prints && s.prints[key] == t.prints[key]
  }

  lemma OneStep(env: Env, s: State, e: Event, t: State, key: NodePort)
    requires Inv(env, s) && Next(env, s, e, t) && key in s.inboxes
    ensures SamePrint(s, t, key) ==> Serves(t, key, s.inboxes[key])
    ensures !SamePrint(s, t, key) ==> s.inboxes[key] in t.closed
  {
    hide NodeInv, Sources, Restarted, WellFormed;
    if e.Deployed? && WellFormed(env, e.f) && !SamePrint(s, t, key) {
      assert !Kept(s, Want(env, e.f), key);
    }
  }

  lemma ClosedForGood(env: Env, s: State, e: Event, t: State, w: WireId)
    requires Next(env, s, e, t) && w in s.closed
    ensures w in t.closed
  {
    hide Restarted, WellFormed, Want;
  }

  /** An inbox is still served by the same wire exactly when its fingerprint stayed the same at every
      deploy in between; otherwise the old wire is closed for good. */
  lemma {:induction false} InboxIdentity(env: Env, ss: seq<State>, es: seq<Event>, i: nat, k: nat, key: NodePort)
    requires History(env, ss, es) && i <= k < |ss| && key in ss[i].inboxes
    ensures Serves(ss[k], key, ss[i].inboxes[key]) <==> forall j :: i <= j <= k ==> SamePrint(ss[i], ss[j], key)
    ensures !Serves(ss[k], key, ss[i].inboxes[key]) ==> ss[i].inboxes[key] in ss[k].closed
  {
    hide Inv, Next;
    HistoryKeeps(env, ss, es, k);
    var w := ss[i].inboxes[key];
    if k == i {
      assert SamePrint(ss[i], ss[k], key) by { InvMaps(env, ss[k]); }
    } else {
      InboxIdentity(env, ss, es, i, k - 1, key);
      HistoryKeeps(env, ss, es, k - 1);
      InvMaps(env, ss[k]);
      InvMaps(env, ss[k - 1]);
      if Serves(ss[k - 1], key, w) {
        OneStep(env, ss[k - 1], es[k - 1], ss[k], key);
      } else {
        ClosedForGood(env, ss[k - 1], es[k - 1], ss[k], w);
      }
    }
  }

  lemma InvMaps(env: Env, s: State)
    requires Inv(env, s)
    ensures s.prints.Keys == s.inboxes.Keys
    ensures forall k :: k in s.inboxes ==> s.inboxes[k] !in s.closed
  {
  }

  /** A node was started by the i-th event and has been kept through the k-th. */
  ghost predicate KeptSince(ss: seq<State>, i: nat, k: nat, id: Id) {
    && i <= k < |ss|
    && forall j :: i <= j <= k ==> id in ss[j].nodes && id in ss[i].nodes && ss[j].nodes[id] == ss[i].nodes[id]
  }

  /** What a kept node sends to on its n-th target is the live inbox if and only if that inbox's fingerprint
      was the same in every deploy since the node started; otherwise it is a closed wire. */
  lemma KeptSenderExact(env: Env, ss: seq<State>, es: seq<Event>, i: nat, k: nat, id: Id, p: Port, n: nat)
    requires History(env, ss, es) && 0 < i && KeptSince(ss, i, k, id)
    requires es[i - 1].Deployed? && WellFormed(env, es[i - 1].f) && !Unaffected(ss[i - 1], es[i - 1].f, id)
    requires id in NodeMap(es[i - 1].f.nodes) && p in EffectiveOutputs(env, NodeMap(es[i - 1].f.nodes)[id])
    requires n < |Targets(es[i - 1].f.wires, NodePort(id, p))|
    ensures p in ss[k].nodes[id].outputs && n < |ss[k].nodes[id].outputs[p]|
    ensures var key, held := Targets(es[i - 1].f.wires, NodePort(id, p))[n], ss[k].nodes[id].outputs[p][n];
            (Serves(ss[k], key, held) <==> forall j :: i <= j <= k ==> SamePrint(ss[i], ss[j], key))
            && (!Serves(ss[k], key, held) ==> held in ss[k].closed)
  {
    hide WellFormed, Inv, DeployStep;
    HistoryKeeps(env, ss, es, i - 1);
    assert Next(env, ss[i - 1], es[i - 1], ss[i]);
    StartedSenderExact(env, ss[i - 1], es[i - 1].f, ss[i], es[i - 1].ok, id, p);
    InboxIdentity(env, ss, es, i, k, Targets(es[i - 1].f.wires, NodePort(id, p))[n]);
  }

  // ----- What a redeploy loses -----

  /** Some running node receives on this wire. */
  ghost predicate Read(s: State, w: WireId) {
    exists id, p :: id in s.nodes && p in s.nodes[id].inputs && s.nodes[id].inputs[p] == w
  }

  /** The fingerprint of this inbox was the same after every step from the i-th to the k-th. */
  ghost predicate Undisturbed(ss: seq<State>, i: nat, k: nat, key: NodePort)
    requires i <= k < |ss|
  {
    forall j :: i <= j <= k ==> SamePrint(ss[i], ss[j], key)
  }

  lemma ClosedIsNotRead(env: Env, s: State, w: WireId)
    requires Inv(env, s) && w in s.closed
    ensures !Read(s, w)
  {
    forall id, p | id in s.nodes && p in s.nodes[id].inputs ensures s.nodes[id].inputs[p] !in s.closed {
      assert NodeInv(env, s, id);
      assert s.inboxes[NodePort(id, p)] !in s.closed;
    }
  }

  lemma {:induction false} StaysClosed(env: Env, ss: seq<State>, es: seq<Event>, k: nat, m: nat, w: WireId)
    requires History(env, ss, es) && k <= m < |ss| && w in ss[k].closed
    ensures w in ss[m].closed
    decreases m
  {
    if m == k {
    } else {
      StaysClosed(env, ss, es, k, m - 1, w);
      ClosedForGood(env, ss[m - 1], es[m - 1], ss[m], w);
    }
  }

  /** What is queued on an inbox stays receivable exactly as long as its fingerprint stays the same: until then its
      wire serves the inbox and is open; from the first deploy that changes or drops it on, the wire is closed and no
      node ever receives on it again, so whatever it still holds is lost. */
  lemma QueueLostExact(env: Env, ss: seq<State>, es: seq<Event>, i: nat, k: nat, key: NodePort)
    requires History(env, ss, es) && i <= k < |ss| && key in ss[i].inboxes
    ensures var w := ss[i].inboxes[key];
            if Undisturbed(ss, i, k, key) then Serves(ss[k], key, w) && w !in ss[k].closed
            else w in ss[k].closed && forall m :: k <= m < |ss| ==> !Read(ss[m], w)
  {
    hide Inv, Next, Read, Serves, SamePrint;
    var w := ss[i].inboxes[key];
    InboxIdentity(env, ss, es, i, k, key);
    if Undisturbed(ss, i, k, key) {
      HistoryKeeps(env, ss, es, k);
      ServingIsOpen(env, ss[k], key, w);
    } else {
      forall m | k <= m < |ss| ensures !Read(ss[m], w) {
        StaysClosed(env, ss, es, k, m, w);
        HistoryKeeps(env, ss, es, m);
        ClosedIsNotRead(env, ss[m], w);
      }
    }
  }

  lemma ServingIsOpen(env: Env, s: State, key: NodePort, w: WireId)
    requires Inv(env, s) && Serves(s, key, w)
    ensures w !in s.closed
  {
  }

  /** One deploy or stop takes exactly the wires of those inboxes whose fingerprint changed or which are gone. */
  lemma StepLosesExactly(env: Env, s: State, e: Event, t: State, w: WireId)
    requires Inv(env, s) && Next(env, s, e, t)
    ensures w in s.inboxes.Values && w !in t.inboxes.Values <==>
            exists key :: key in s.inboxes && s.inboxes[key] == w && !SamePrint(s, t, key)
  {
    NextKeeps(env, s, e, t);
    InvMaps(env, s);
    InvMaps(env, t);
    hide Next, NodeInv, Reconciled;
    if key :| key in s.inboxes && s.inboxes[key] == w && !SamePrint(s, t, key) {
      OneStep(env, s, e, t, key);
      assert forall k :: k in t.inboxes ==> t.inboxes[k] !in t.closed;
    }
    if w in s.inboxes.Values && w !in t.inboxes.Values {
      var key :| key in s.inboxes && s.inboxes[key] == w;
      OneStep(env, s, e, t, key);
      assert key in t.inboxes && t.inboxes[key] == w ==> w in t.inboxes.Values;
    }
  }

  // ----- Redeploying the same file -----

  /** A second deploy of a file changes no wire and, if the first succeeded, no node and no counter of starts. */
  lemma RedeployIsNoOp(env: Env, s: State, f: File, t: State, u: State, done: bool, ok: bool)
    requires Inv(env, s) && DeployStep(env, s, f, t, done) && DeployStep(env, t, f, u, ok)
    ensures done ==> ok && u.nodes == t.nodes
    ensures u.inboxes == t.inboxes && u.prints == t.prints && u.closed == t.closed
  {
    hide WellFormed, NodeInv, Want, Reconciled, Restarted;
    if WellFormed(env, f) {
      NextKeeps(env, s, Deployed(f, done), t);
      assert t.prints == Want(env, f) by { ReconciledPrints(s, Want(env, f), t.(nodes := s.nodes)); }
      RedeployKeepsWires(t, Want(env, f), u.(nodes := t.nodes));
      if done { RedeployKeepsNodes(env, s, f, t, u, ok); }
    }
  }

  lemma ReconciledPrints(s: State, want: map<NodePort, string>, t: State)
    requires Reconciled(s, want, t)
    ensures t.prints == want
  {
  }

  lemma RedeployKeepsNodes(env: Env, s: State, f: File, t: State, u: State, ok: bool)
    requires Restarted(env, s, f, t, true) && Restarted(env, t, f, u, ok)
    ensures ok && u.nodes == t.nodes
  {
    hide Start, NodeMap, Unaffected;
    forall id | id in NodeMap(f.nodes) ensures Unaffected(t, f, id) { DeployedIsUnaffected(env, s, f, t, id); }
  }

  lemma DeployedIsUnaffected(env: Env, s: State, f: File, t: State, id: Id)
    requires Restarted(env, s, f, t, true) && id in NodeMap(f.nodes)
    ensures Unaffected(t, f, id)
  {
    hide Start, NodeMap, Touching;
    assert id in t.nodes;
    if !Unaffected(s, f, id) { StartMark(env, f, t.inboxes, id, Prior(s, id)); }
  }

  lemma StartMark(env: Env, f: File, inboxes: map<NodePort, WireId>, id: Id, prior: nat)
    requires id in NodeMap(f.nodes)
    ensures Start(env, f, inboxes, id, prior).mark == PrintOf(f, id)
  {
  }

  lemma RedeployKeepsWires(t: State, want: map<NodePort, string>, u: State)
    requires InboxInv(t) && t.prints == want && Reconciled(t, want, u)
    ensures u.inboxes == t.inboxes && u.prints == t.prints && u.closed == t.closed
  {
    assert forall k :: k in want ==> Kept(t, want, k);
  }

  // ----- A sender left behind -----

  const SRC := NodeDef("src", 1, "", "", "", "", "", false)
  const SINK := NodeDef("sink", 1, "", "", "", "", "", false)
  const IN := NodePort("b", "in")
  const OLD := Wire("w1", NodePort("a", "out"), IN)
  const ADDED := Wire("w2", NodePort("c", "out"), IN)

  /** One source feeding a sink. */
  const ONE := File([Node("a", SRC), Node("b", SINK)], [OLD], "streaming")
  /** The same, with a second source on the sink's input. */
  const TWO := File([Node("a", SRC), Node("b", SINK), Node("c", SRC)], [OLD, ADDED], "streaming")

  predicate Offers(env: Env) {
    env.types == map["src" := TypeInfo(Source, []), "sink" := TypeInfo(Processor(false), ["in"])]
    && env.outputs("src", "") == Some({"out"}) && env.outputs("sink", "") == Some({})
  }

  lemma NodesOfOne()
    ensures NodeMap(ONE.nodes) == map["a" := SRC, "b" := SINK]
  {
    assert ONE.nodes[..1] == [Node("a", SRC)];
    assert NodeMap([Node("a", SRC)]) == map["a" := SRC] by { assert [Node("a", SRC)][..0] == []; }
  }

  lemma NodesOfTwo()
    ensures NodeMap(TWO.nodes) == map["a" := SRC, "b" := SINK, "c" := SRC]
  {
    assert TWO.nodes[..2] == ONE.nodes;
    NodesOfOne();
  }

  lemma OneWellFormed(env: Env)
    requires Offers(env)
    ensures WellFormed(env, ONE)
  {
    NodesOfOne();
    hide NodeMap;
    assert HasKind(env, ONE.nodes, Source) by { assert ONE.nodes[0].def == SRC; }
  }

  lemma TwoWellFormed(env: Env)
    requires Offers(env)
    ensures WellFormed(env, TWO)
  {
    NodesOfTwo();
    hide NodeMap;
    assert HasKind(env, TWO.nodes, Source) by { assert TWO.nodes[0].def == SRC; }
  }

  lemma SourcesOfOne()
    ensures Sources(WireSet(ONE.wires), IN) == multiset{OLD.from}
  {
    assert WireSet(ONE.wires) == {OLD};
    hide Sources;
    forall src ensures Sources({OLD}, IN)[src] == multiset{OLD.from}[src] {
      SourcesCount({OLD}, IN, src);
      assert Feeding({OLD}, IN, src) == if src == OLD.from then {OLD} else {};
    }
  }

  lemma SourcesOfTwo()
    ensures Sources(WireSet(TWO.wires), IN) == multiset{OLD.from, ADDED.from}
  {
    assert WireSet(TWO.wires) == {OLD, ADDED};
    hide Sources;
    forall src ensures Sources({OLD, ADDED}, IN)[src] == multiset{OLD.from, ADDED.from}[src] {
      SourcesCount({OLD, ADDED}, IN, src);
      assert Feeding({OLD, ADDED}, IN, src) ==
             if src == OLD.from then {OLD} else if src == ADDED.from then {ADDED} else {};
    }
  }

  lemma WantedPrints(env: Env)
    requires Offers(env)
    ensures IN in Want(env, ONE) && Want(env, ONE)[IN] == env.digest("", multiset{OLD.from})
    ensures IN in Want(env, TWO) && Want(env, TWO)[IN] == env.digest("", multiset{OLD.from, ADDED.from})
  {
    NodesOfOne();
    NodesOfTwo();
    SourcesOfOne();
    SourcesOfTwo();
    hide NodeMap, Sources;
    assert "in" in InputsOf(env, SINK);
  }

  lemma SamePrintOfSender()
    ensures "a" in NodeMap(ONE.nodes) && "a" in NodeMap(TWO.nodes) && PrintOf(ONE, "a") == PrintOf(TWO, "a")
  {
    NodesOfOne();
    NodesOfTwo();
    assert Touching(WireSet(ONE.wires), "a") == {OLD} == Touching(WireSet(TWO.wires), "a");
  }

  lemma OldSenderTargets()
    ensures Targets(ONE.wires, NodePort("a", "out")) == [IN]
  {
    assert Targets(ONE.wires[..0], NodePort("a", "out")) == [];
  }

  /** Adding a second source to an input leaves the first source running, and sending into a closed wire. */
  lemma AddedSourceStrandsSender(env: Env, t: State, u: State, done: bool, ok: bool)
    requires Offers(env) && DeployStep(env, Initial(), ONE, t, done) && DeployStep(env, t, TWO, u, ok)
    requires env.digest("", multiset{OLD.from}) != env.digest("", multiset{OLD.from, ADDED.from})
    ensures done ==> "a" in u.nodes && "a" in t.nodes && u.nodes["a"] == t.nodes["a"]
    ensures done ==> "out" in u.nodes["a"].outputs && |u.nodes["a"].outputs["out"]| == 1
    ensures done ==> IN in u.inboxes && u.nodes["a"].outputs["out"][0] != u.inboxes[IN]
                     && u.nodes["a"].outputs["out"][0] in u.closed
  {
    OneWellFormed(env);
    TwoWellFormed(env);
    WantedPrints(env);
    SamePrintOfSender();
    hide NodeMap, WellFormed, Want, PrintOf;
    StrandedByOne(env, t, done);
    if done { DeployedIsUnaffected(env, Initial(), ONE, t, "a"); }
    hide Reconciled;
    ReconciledPrints(Initial(), Want(env, ONE), t.(nodes := map[]));
    ReconciledPrints(t, Want(env, TWO), u.(nodes := t.nodes));
    OneStep(env, t, Deployed(TWO, ok), u, IN);
    NextKeeps(env, t, Deployed(TWO, ok), u);
  }

  lemma StrandedByOne(env: Env, t: State, ok: bool)
    requires Offers(env) && DeployStep(env, Initial(), ONE, t, ok)
    ensures Inv(env, t)
    ensures ok ==> "a" in t.nodes && "out" in t.nodes["a"].outputs && IN in t.inboxes
                   && t.nodes["a"].outputs["out"] == [t.inboxes[IN]]
  {
    OneWellFormed(env);
    OldSenderTargets();
    InitialInv(env);
    NextKeepsDeploy(env, Initial(), ONE, t, ok);
    if ok {
      FirstStart(env, t, ok);
      hide *;
      OnlyTarget(env, Initial(), ONE, t, ok, "a", "out", IN);
    }
  }

  lemma OnlyTarget(env: Env, s: State, f: File, t: State, ok: bool, id: Id, p: Port, key: NodePort)
    requires DeployStep(env, s, f, t, ok)
    requires id in NodeMap(f.nodes) && id in t.nodes && !Unaffected(s, f, id)
    requires p in EffectiveOutputs(env, NodeMap(f.nodes)[id]) && Targets(f.wires, NodePort(id, p)) == [key]
    ensures Inv(env, s) && WellFormed(env, f) ==>
              p in t.nodes[id].outputs && key in t.inboxes && t.nodes[id].outputs[p] == [t.inboxes[key]]
  {
    hide *;
    if Inv(env, s) && WellFormed(env, f) {
      StartedSenderExact(env, s, f, t, ok, id, p);
      assert Targets(f.wires, NodePort(id, p))[0] == key;
    }
  }

  lemma InitialInv(env: Env)
    ensures Inv(env, Initial())
  {
  }

  lemma NextKeepsDeploy(env: Env, s: State, f: File, t: State, ok: bool)
    requires Inv(env, s) && DeployStep(env, s, f, t, ok)
    ensures Inv(env, t)
  {
    hide Inv, DeployStep;
    NextKeeps(env, s, Deployed(f, ok), t);
  }

  lemma FirstStart(env: Env, t: State, ok: bool)
    requires Offers(env) && DeployStep(env, Initial(), ONE, t, ok)
    ensures "a" in NodeMap(ONE.nodes) && "out" in EffectiveOutputs(env, NodeMap(ONE.nodes)["a"])
    ensures !Unaffected(Initial(), ONE, "a") && (ok ==> "a" in t.nodes)
  {
    OneWellFormed(env);
    NodesOfOne();
    hide NodeMap, WellFormed, Want, Start, Reconciled;
  }
}

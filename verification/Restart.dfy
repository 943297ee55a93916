/**
 What a redeploy leaves alone, read off the flow files: which edits restart a node, which ones replace
 an inbox, and what a running node receives and sends on.
 */
module Restarts {
  import opened Flow
  import opened Deploy
  import opened Options

  // ----- The same node in two files -----

  predicate Touches(w: Wire, id: Id) { w.from.node == id || w.to.node == id }

  ghost predicate SameWires(f: File, g: File, id: Id) {
    forall w :: (w in f.wires && Touches(w, id)) <==> (w in g.wires && Touches(w, id))
  }

  predicate SameNode(a: Node, b: Node) {
    && a.id == b.id
    && a.def.typeName == b.def.typeName && a.def.version == b.def.version && a.def.config == b.def.config
    && a.def.onError == b.def.onError && a.def.errorPolicy == b.def.errorPolicy
    && a.def.overflow == b.def.overflow && a.def.connection == b.def.connection && a.def.disabled == b.def.disabled
  }

  /** The two files have the same node under this id, and the same wires at it. */
  ghost predicate SameInBoth(f: File, g: File, id: Id) {
    && (exists a, b :: a in f.nodes && b in g.nodes && a.id == id && SameNode(a, b))
    && SameWires(f, g, id)
  }

  ghost predicate Has(f: File, id: Id) { exists a :: a in f.nodes && a.id == id }

  lemma HasExact(f: File, id: Id)
    ensures Has(f, id) <==> id in NodeMap(f.nodes)
  {
    if a :| a in f.nodes && a.id == id {
      var i :| 0 <= i < |f.nodes| && f.nodes[i] == a;
      NodeMapHas(f.nodes, i);
    }
    if id in NodeMap(f.nodes) {
      var i := NodeMapFrom(f.nodes, id);
      assert f.nodes[i] in f.nodes;
    }
  }

  lemma Defined(f: File, a: Node)
    requires DistinctNodes(f.nodes) && a in f.nodes
    ensures a.id in NodeMap(f.nodes) && NodeMap(f.nodes)[a.id] == a.def
  {
    var i :| 0 <= i < |f.nodes| && f.nodes[i] == a;
    NodeMapHas(f.nodes, i);
    var j := NodeMapFrom(f.nodes, a.id);
    assert i == j;
  }

  lemma SamePrintExact(f: File, g: File, id: Id)
    requires DistinctNodes(f.nodes) && DistinctNodes(g.nodes) && id in NodeMap(f.nodes) && id in NodeMap(g.nodes)
    ensures PrintOf(f, id) == PrintOf(g, id) <==> SameInBoth(f, g, id)
  {
    var i := NodeMapFrom(f.nodes, id);
    var j := NodeMapFrom(g.nodes, id);
    var a, b := f.nodes[i], g.nodes[j];
    assert a in f.nodes && b in g.nodes;
    forall x, y | x in f.nodes && y in g.nodes && x.id == id && SameNode(x, y) ensures x == a && y == b {
      Defined(f, x);
      Defined(g, y);
    }
    hide NodeMap;
    SameWiresExact(f, g, id);
    hide Touching, WireSet, SameWires;
  }

  lemma SameWiresExact(f: File, g: File, id: Id)
    ensures Touching(WireSet(f.wires), id) == Touching(WireSet(g.wires), id) <==> SameWires(f, g, id)
  {
    var s, t := Touching(WireSet(f.wires), id), Touching(WireSet(g.wires), id);
    assert forall w :: w in s <==> w in f.wires && Touches(w, id);
    assert forall w :: w in t <==> w in g.wires && Touches(w, id);
  }

  // ----- Which files are deployed -----

  predicate OfKind(env: Env, a: Node, kind: Kind) {
    a.def.typeName in env.types && env.types[a.def.typeName].kind == kind
  }

  /** The wire leads from an output of some node, or its error port, to an input of some node. */
  ghost predicate Connects(env: Env, f: File, w: Wire) {
    && (exists a :: a in f.nodes && a.id == w.from.node && env.outputs(a.def.typeName, a.def.config).Some?
                    && (w.from.port in env.outputs(a.def.typeName, a.def.config).value
                        || (w.from.port == "error" && a.def.onError == "errorPort")))
    && (exists b :: b in f.nodes && b.id == w.to.node && b.def.typeName in env.types
                    && w.to.port in env.types[b.def.typeName].inputs)
  }

  /** A triggered file has a trigger and no source; a streaming one has no trigger; any other has neither. */
  ghost predicate Fits(env: Env, f: File) {
    var source := exists a :: a in f.nodes && OfKind(env, a, Source);
    var trigger := exists a :: a in f.nodes && OfKind(env, a, Trigger);
    if f.mode == "triggered" then trigger && !source
    else if f.mode == "streaming" then !trigger
    else f.mode != "" && !source && !trigger
  }

  /** What a well-formed file is, read off the file and the registry alone. */
  lemma WellFormedExact(env: Env, f: File)
    ensures WellFormed(env, f) <==>
            && (forall i, j :: 0 <= i < j < |f.nodes| ==> f.nodes[i].id != f.nodes[j].id)
            && (forall a :: a in f.nodes ==>
                  a.def.typeName in env.types && env.outputs(a.def.typeName, a.def.config).Some?)
            && (forall w :: w in f.wires ==> w.id != "" && Connects(env, f, w))
            && (forall i, j :: 0 <= i < j < |f.wires| ==> f.wires[i].id != f.wires[j].id)
            && Fits(env, f)
  {
    ModeExact(env, f);
    forall a ensures a in f.nodes <==> exists i :: 0 <= i < |f.nodes| && f.nodes[i] == a { }
    hide ModeOk, HasKind, Fits, Connects, EndpointsOk, NodeMap;
    if DistinctNodes(f.nodes) && forall i :: 0 <= i < |f.nodes| ==> TypeOk(env, f.nodes[i].def) {
      forall w ensures EndpointsOk(env, NodeMap(f.nodes), w) <==> Connects(env, f, w) { ConnectsExact(env, f, w); }
    }
  }

  lemma ModeExact(env: Env, f: File)
    ensures ModeOk(f.mode, HasKind(env, f.nodes, Source), HasKind(env, f.nodes, Trigger)) <==> Fits(env, f)
  {
    KindExact(env, f, Source);
    KindExact(env, f, Trigger);
    hide HasKind, OfKind;
  }

  lemma KindExact(env: Env, f: File, kind: Kind)
    ensures HasKind(env, f.nodes, kind) <==> exists a :: a in f.nodes && OfKind(env, a, kind)
  {
    if a :| a in f.nodes && OfKind(env, a, kind) {
      var i :| 0 <= i < |f.nodes| && f.nodes[i] == a;
    }
    if HasKind(env, f.nodes, kind) {
      var i :| 0 <= i < |f.nodes| && f.nodes[i].def.typeName in env.types
               && env.types[f.nodes[i].def.typeName].kind == kind;
      assert f.nodes[i] in f.nodes && OfKind(env, f.nodes[i], kind);
    }
  }

  lemma ConnectsExact(env: Env, f: File, w: Wire)
    requires DistinctNodes(f.nodes) && forall i :: 0 <= i < |f.nodes| ==> TypeOk(env, f.nodes[i].def)
    ensures EndpointsOk(env, NodeMap(f.nodes), w) <==> Connects(env, f, w)
  {
    hide NodeMap;
    forall a | a in f.nodes ensures a.id in NodeMap(f.nodes) && NodeMap(f.nodes)[a.id] == a.def { Defined(f, a); }
    if w.from.node in NodeMap(f.nodes) {
      var i := NodeMapFrom(f.nodes, w.from.node);
      assert f.nodes[i] in f.nodes && TypeOk(env, f.nodes[i].def);
    }
    if w.to.node in NodeMap(f.nodes) {
      var i := NodeMapFrom(f.nodes, w.to.node);
      assert f.nodes[i] in f.nodes && TypeOk(env, f.nodes[i].def);
    }
  }

  // ----- Where a running node comes from -----

  /** The j-th event started this node. */
  ghost predicate StartedBy(ss: seq<State>, j: nat, id: Id)
    requires 0 < j < |ss|
  {
    id in ss[j].nodes && (id in ss[j - 1].nodes ==> ss[j].nodes[id] != ss[j - 1].nodes[id])
  }

  lemma {:induction false} Origin(env: Env, ss: seq<State>, es: seq<Event>, i: nat, id: Id) returns (j: nat)
    requires History(env, ss, es) && i < |ss| && id in ss[i].nodes
    ensures 0 < j <= i && StartedBy(ss, j, id) && KeptSince(ss, j, i, id)
    decreases i
  {
    hide Next;
    if i == 0 {
      assert false;
    } else if id in ss[i - 1].nodes && ss[i - 1].nodes[id] == ss[i].nodes[id] {
      j := Origin(env, ss, es, i - 1, id);
    } else {
      j := i;
    }
  }

  /** What starts a node is a deploy of a well-formed file that has it. */
  lemma StartedFrom(env: Env, s: State, e: Event, t: State, id: Id)
    requires Next(env, s, e, t) && id in t.nodes && (id in s.nodes ==> t.nodes[id] != s.nodes[id])
    ensures e.Deployed? && WellFormed(env, e.f) && id in NodeMap(e.f.nodes) && !Unaffected(s, e.f, id)
    ensures t.nodes[id] == Start(env, e.f, t.inboxes, id, Prior(s, id))
  {
    hide WellFormed, Reconciled, Want, Start, NodeMap;
  }

  lemma KeptOrStarted(env: Env, s: State, g: File, t: State, ok: bool, id: Id)
    requires WellFormed(env, g) && DeployStep(env, s, g, t, ok)
    ensures Unaffected(s, g, id) ==> id in t.nodes && t.nodes[id] == s.nodes[id]
    ensures id in t.nodes && !Unaffected(s, g, id) ==> t.nodes[id].starts == Prior(s, id) + 1
    ensures id in t.nodes ==> id in NodeMap(g.nodes)
    ensures ok && id in NodeMap(g.nodes) ==> id in t.nodes
  {
    hide WellFormed, Reconciled, Want, NodeMap, PrintOf, Live, EffectiveOutputs, Listens, Targets;
  }

  /** After any history a running node was started from some file f, and the deploy of a file g, failed or not,
      leaves it alone if and only if g has the same node with the same wires at it. Else it is gone or runs with
      one more start, and runs if the deploy succeeds and g has it. Its first start counts one. */
  lemma RestartExact(env: Env, ss: seq<State>, es: seq<Event>, i: nat, id: Id) returns (j: nat)
    requires History(env, ss, es) && i < |es| && id in ss[i].nodes && es[i].Deployed? && WellFormed(env, es[i].f)
    ensures 0 < j <= i && StartedBy(ss, j, id) && KeptSince(ss, j, i, id)
    ensures es[j - 1].Deployed? && WellFormed(env, es[j - 1].f)
    ensures id !in ss[j - 1].nodes ==> ss[j].nodes[id].starts == 1
    ensures var f, g, s, t := es[j - 1].f, es[i].f, ss[i], ss[i + 1];
            && ((id in t.nodes && t.nodes[id] == s.nodes[id]) <==> SameInBoth(f, g, id))
            && (id in t.nodes && t.nodes[id] != s.nodes[id] ==> t.nodes[id].starts == s.nodes[id].starts + 1)
            && (id in t.nodes ==> Has(g, id)) && (es[i].ok && Has(g, id) ==> id in t.nodes)
  {
    hide Next, WellFormed, SameInBoth, Has;
    j := Origin(env, ss, es, i, id);
    assert Next(env, ss[j - 1], es[j - 1], ss[j]) && Next(env, ss[i], es[i], ss[i + 1]);
    OneRestart(env, ss[j - 1], es[j - 1], ss[j], ss[i], es[i], ss[i + 1], id);
  }

  lemma StartCounts(env: Env, f: File, inboxes: map<NodePort, WireId>, id: Id, prior: nat)
    requires id in NodeMap(f.nodes)
    ensures var r := Start(env, f, inboxes, id, prior); r.mark == PrintOf(f, id) && r.starts == prior + 1
  {
    hide NodeMap, Live, Targets, EffectiveOutputs, Listens;
  }

  lemma Apart(env: Env, f: File)
    requires WellFormed(env, f)
    ensures DistinctNodes(f.nodes)
  {
  }

  lemma OneRestart(env: Env, r: State, d: Event, r': State, s: State, e: Event, t: State, id: Id)
    requires Next(env, r, d, r') && id in r'.nodes && (id in r.nodes ==> r'.nodes[id] != r.nodes[id])
    requires id in s.nodes && s.nodes[id] == r'.nodes[id]
    requires e.Deployed? && WellFormed(env, e.f) && Next(env, s, e, t)
    ensures d.Deployed? && WellFormed(env, d.f) && (id !in r.nodes ==> r'.nodes[id].starts == 1)
    ensures (id in t.nodes && t.nodes[id] == s.nodes[id]) <==> SameInBoth(d.f, e.f, id)
    ensures id in t.nodes && t.nodes[id] != s.nodes[id] ==> t.nodes[id].starts == s.nodes[id].starts + 1
    ensures (id in t.nodes ==> Has(e.f, id)) && (e.ok && Has(e.f, id) ==> id in t.nodes)
  {
    hide WellFormed, DeployStep, NodeMap, PrintOf, Start, SameInBoth, Has, DistinctNodes, Unaffected;
    StartedFrom(env, r, d, r', id);
    StartCounts(env, d.f, r'.inboxes, id, Prior(r, id));
    KeptOrStarted(env, s, e.f, t, e.ok, id);
    HasExact(e.f, id);
    Apart(env, d.f);
    Apart(env, e.f);
    UnaffectedExact(s, d.f, e.f, id);
  }

  lemma UnaffectedExact(s: State, f: File, g: File, id: Id)
    requires DistinctNodes(f.nodes) && DistinctNodes(g.nodes)
    requires id in s.nodes && id in NodeMap(f.nodes) && s.nodes[id].mark == PrintOf(f, id)
    ensures Unaffected(s, g, id) <==> SameInBoth(f, g, id)
  {
    HasExact(g, id);
    if id in NodeMap(g.nodes) {
      SamePrintExact(f, g, id);
    } else {
      assert forall b :: b in g.nodes ==> b.id != id;
    }
  }

  // ----- Which edits replace an inbox -----

  /** The file has this input, with this overflow policy, wired to these endpoints, each as often as said. */
  ghost predicate Fed(env: Env, f: File, key: NodePort, overflow: string, from: multiset<NodePort>) {
    && (exists a :: a in f.nodes && a.id == key.node && a.def.overflow == overflow
                    && a.def.typeName in env.types && key.port in env.types[a.def.typeName].inputs)
    && forall src :: from[src] == |set w | w in f.wires && w.to == key && w.from == src|
  }

  lemma FedByCount(f: File, key: NodePort, from: multiset<NodePort>)
    ensures from == Sources(WireSet(f.wires), key) <==>
            forall src :: from[src] == |set w | w in f.wires && w.to == key && w.from == src|
  {
    hide Sources;
    forall src ensures Sources(WireSet(f.wires), key)[src] == |set w | w in f.wires && w.to == key && w.from == src| {
      SourcesCount(WireSet(f.wires), key, src);
      assert Feeding(WireSet(f.wires), key, src) == set w | w in f.wires && w.to == key && w.from == src;
    }
  }

  /** A file asks for exactly the inputs it has, with the digest of policy and sources. */
  lemma WantExact(env: Env, f: File, key: NodePort)
    requires DistinctNodes(f.nodes)
    ensures key in Want(env, f) <==> exists o, m :: Fed(env, f, key, o, m)
    ensures forall o, m :: Fed(env, f, key, o, m) ==> key in Want(env, f) && Want(env, f)[key] == env.digest(o, m)
  {
    forall o, m | Fed(env, f, key, o, m) ensures key in Want(env, f) && Want(env, f)[key] == env.digest(o, m) {
      var a :| a in f.nodes && a.id == key.node && a.def.overflow == o
               && a.def.typeName in env.types && key.port in env.types[a.def.typeName].inputs;
      Defined(f, a);
      FedByCount(f, key, m);
      hide NodeMap, Sources, WireSet;
      assert key == NodePort(key.node, key.port);
    }
    if key in Want(env, f) {
      var i := NodeMapFrom(f.nodes, key.node);
      assert f.nodes[i] in f.nodes;
      FedByCount(f, key, Sources(WireSet(f.wires), key));
      assert Fed(env, f, key, f.nodes[i].def.overflow, Sources(WireSet(f.wires), key));
    }
  }

  /** The inboxes there are come from the last file that passed validation. */
  lemma {:induction false} InboxOrigin(env: Env, ss: seq<State>, es: seq<Event>, i: nat, key: NodePort)
    returns (j: nat)
    requires History(env, ss, es) && i < |ss| && key in ss[i].inboxes
    ensures 0 < j <= i && es[j - 1].Deployed? && WellFormed(env, es[j - 1].f) && ss[i].prints == Want(env, es[j - 1].f)
    ensures forall m :: j <= m < i ==> es[m].Deployed? && !WellFormed(env, es[m].f)
    decreases i
  {
    hide WellFormed, Want, Restarted, Reconciled;
    if i == 0 {
      assert false;
    } else {
      assert Next(env, ss[i - 1], es[i - 1], ss[i]);
      if es[i - 1].Deployed? && WellFormed(env, es[i - 1].f) {
        j := i;
        ReconciledPrints(ss[i - 1], Want(env, es[i - 1].f), ss[i].(nodes := ss[i - 1].nodes));
      } else {
        j := InboxOrigin(env, ss, es, i - 1, key);
      }
    }
  }

  /** After any history an inbox comes from the last file f that passed validation, and the deploy of a file g
      leaves its wire alone if and only if g has that input and the digests of policy and sources agree. */
  lemma InboxKeptExact(env: Env, ss: seq<State>, es: seq<Event>, i: nat, key: NodePort) returns (j: nat)
    requires History(env, ss, es) && i < |es| && key in ss[i].inboxes && es[i].Deployed? && WellFormed(env, es[i].f)
    ensures 0 < j <= i && es[j - 1].Deployed? && WellFormed(env, es[j - 1].f)
    ensures forall m :: j <= m < i ==> es[m].Deployed? && !WellFormed(env, es[m].f)
    ensures var f, g, s, t := es[j - 1].f, es[i].f, ss[i], ss[i + 1];
            && (exists o, m :: Fed(env, f, key, o, m))
            && (key in t.inboxes <==> exists o, m :: Fed(env, g, key, o, m))
            && (forall o, m, o', m' :: Fed(env, f, key, o, m) && Fed(env, g, key, o', m') ==>
                  (t.inboxes[key] == s.inboxes[key] <==> env.digest(o, m) == env.digest(o', m')))
  {
    hide Fed, WellFormed, Want, Next, Inv, DistinctNodes;
    j := InboxOrigin(env, ss, es, i, key);
    Apart(env, es[j - 1].f);
    Apart(env, es[i].f);
    WantExact(env, es[j - 1].f, key);
    WantExact(env, es[i].f, key);
    HistoryKeeps(env, ss, es, i);
    InvMaps(env, ss[i]);
    WireKeptExact(env, ss[i], es[i], ss[i + 1], key);
  }

  lemma WireKeptExact(env: Env, s: State, e: Event, t: State, key: NodePort)
    requires Inv(env, s) && Next(env, s, e, t) && e.Deployed? && WellFormed(env, e.f) && key in s.inboxes
    ensures key in s.prints && (key in t.inboxes <==> key in Want(env, e.f))
    ensures key in t.inboxes ==>
              (t.inboxes[key] == s.inboxes[key] <==> Want(env, e.f)[key] == s.prints[key])
  {
    NextKeeps(env, s, e, t);
    OneStep(env, s, e, t, key);
    hide NodeInv, WellFormed, Want, Reconciled, Restarted;
    InvMaps(env, s);
    InvMaps(env, t);
    ReconciledPrints(s, Want(env, e.f), t.(nodes := s.nodes));
  }

  // ----- What a running node is connected to -----

  /** A running node receives on all inputs of its type, the first one or none, as its kind has it, on each on the
      live and open inbox, and sends on the outputs of its configuration, with the error port if its policy asks. */
  lemma ConnectionsExact(env: Env, ss: seq<State>, es: seq<Event>, i: nat, id: Id) returns (j: nat, a: Node)
    requires History(env, ss, es) && i < |ss| && id in ss[i].nodes
    ensures 0 < j <= i && StartedBy(ss, j, id) && KeptSince(ss, j, i, id)
    ensures es[j - 1].Deployed? && a in es[j - 1].f.nodes && a.id == id
    ensures a.def.typeName in env.types && env.outputs(a.def.typeName, a.def.config).Some?
    ensures var info, r := env.types[a.def.typeName], ss[i].nodes[id];
            && (forall p :: p in r.inputs <==>
                  info.kind.Processor? && p in info.inputs && (info.kind.multi || p == info.inputs[0]))
            && (forall p :: p in r.inputs ==>
                  NodePort(id, p) in ss[i].inboxes && r.inputs[p] == ss[i].inboxes[NodePort(id, p)])
            && (forall p :: p in r.inputs ==> r.inputs[p] !in ss[i].closed)
            && (forall p :: p in r.outputs <==> p in env.outputs(a.def.typeName, a.def.config).value
                                                || (p == "error" && a.def.onError == "errorPort"))
  {
    hide Next, WellFormed, Inv;
    j := Origin(env, ss, es, i, id);
    assert Next(env, ss[j - 1], es[j - 1], ss[j]);
    StartedFrom(env, ss[j - 1], es[j - 1], ss[j], id);
    a := NodeOf(env, es[j - 1].f, id);
    ReceiverSafety(env, ss, es, i, id);
    StartPorts(env, es[j - 1].f, ss[j].inboxes, id, Prior(ss[j - 1], id));
  }

  lemma NodeOf(env: Env, f: File, id: Id) returns (a: Node)
    requires WellFormed(env, f) && id in NodeMap(f.nodes)
    ensures a in f.nodes && a == Node(id, NodeMap(f.nodes)[id]) && TypeOk(env, a.def)
  {
    var k := NodeMapFrom(f.nodes, id);
    a := f.nodes[k];
  }

  lemma StartPorts(env: Env, f: File, inboxes: map<NodePort, WireId>, id: Id, prior: nat)
    requires id in NodeMap(f.nodes)
    ensures var r := Start(env, f, inboxes, id, prior);
            r.mark.def == NodeMap(f.nodes)[id] && r.outputs.Keys == EffectiveOutputs(env, NodeMap(f.nodes)[id])
  {
    hide NodeMap, Live, Targets, EffectiveOutputs, Listens;
  }
}

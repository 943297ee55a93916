/**
 Flow files: nodes, wires, the checks a file must pass before it is deployed, and the two
 fingerprints that decide what a redeploy leaves running.
 */
module Flow {
  import opened Options

  type Id = string
  type Port = string

  /** A processor either listens on its first input only or, with `multi`, on all of them. */
  datatype Kind = Source | Trigger | Processor(multi: bool)

  datatype TypeInfo = TypeInfo(kind: Kind, inputs: seq<Port>)

  datatype NodePort = NodePort(node: Id, port: Port)

  datatype Wire = Wire(id: string, from: NodePort, to: NodePort)

  /** Everything about a node that counts for a restart; its display name does not. */
  datatype NodeDef = NodeDef(typeName: string, version: int, config: string, onError: string, errorPolicy: string,
                             overflow: string, connection: string, disabled: bool)

  datatype Node = Node(id: Id, def: NodeDef)

  datatype File = File(nodes: seq<Node>, wires: seq<Wire>, mode: string)

  /** The node registry, what an instance of a type and configuration emits on (none when the
      configuration is refused), and the digest taken of an inbox's overflow policy and sources. */
  datatype Env = Env(types: map<string, TypeInfo>, outputs: (string, string) -> Option<set<Port>>,
                     digest: (string, multiset<NodePort>) -> string)

  function NodeMap(nodes: seq<Node>): map<Id, NodeDef> {
    if nodes == [] then map[] else NodeMap(nodes[..|nodes| - 1])[nodes[|nodes| - 1].id := nodes[|nodes| - 1].def]
  }

  lemma {:induction false} NodeMapHas(nodes: seq<Node>, i: nat)
    requires i < |nodes|
    ensures nodes[i].id in NodeMap(nodes)
    decreases |nodes|
  {
    if i == |nodes| - 1 {
    } else {
      NodeMapHas(nodes[..|nodes| - 1], i);
    }
  }

  lemma {:induction false} NodeMapFrom(nodes: seq<Node>, id: Id) returns (i: nat)
    requires id in NodeMap(nodes)
    ensures i < |nodes| && nodes[i] == Node(id, NodeMap(nodes)[id])
    decreases |nodes|
  {
    i := |nodes| - 1;
    if nodes[i].id == id {
    } else {
      i := NodeMapFrom(nodes[..i], id);
    }
  }

  // ----- Validation -----

  predicate TypeOk(env: Env, d: NodeDef) {
    d.typeName in env.types && env.outputs(d.typeName, d.config).Some?
  }

  /** The ports a node can emit on, with the implicit error port. */
  function EffectiveOutputs(env: Env, d: NodeDef): set<Port> {
    (match env.outputs(d.typeName, d.config) case Some(ps) => ps case None => {})
    + if d.onError == "errorPort" then {"error"} else {}
  }

  /** A wire's endpoints exist; ports are only checked on nodes whose type is in order. */
  predicate EndpointsOk(env: Env, defs: map<Id, NodeDef>, w: Wire) {
    w.from.node in defs && w.to.node in defs
    && (TypeOk(env, defs[w.from.node]) ==> w.from.port in EffectiveOutputs(env, defs[w.from.node]))
    && (defs[w.to.node].typeName in env.types ==> w.to.port in env.types[defs[w.to.node].typeName].inputs)
  }

  predicate HasKind(env: Env, nodes: seq<Node>, kind: Kind) {
    exists i :: 0 <= i < |nodes| && nodes[i].def.typeName in env.types && env.types[nodes[i].def.typeName].kind == kind
  }

  predicate ModeOk(mode: string, hasSource: bool, hasTrigger: bool) {
    mode != "" && !(hasSource && hasTrigger) && (hasSource ==> mode == "streaming")
    && (hasTrigger ==> mode == "triggered") && (mode == "triggered" ==> hasTrigger)
  }

  ghost predicate DistinctNodes(nodes: seq<Node>) {
    forall i, j :: 0 <= i < j < |nodes| ==> nodes[i].id != nodes[j].id
  }

  ghost predicate NamedApart(wires: seq<Wire>) {
    (forall i :: 0 <= i < |wires| ==> wires[i].id != "")
    && forall i, j :: 0 <= i < j < |wires| ==> wires[i].id != wires[j].id
  }

  ghost predicate WellFormed(env: Env, f: File) {
    && DistinctNodes(f.nodes)
    && (forall i :: 0 <= i < |f.nodes| ==> TypeOk(env, f.nodes[i].def))
    && NamedApart(f.wires)
    && (forall i :: 0 <= i < |f.wires| ==> EndpointsOk(env, NodeMap(f.nodes), f.wires[i]))
    && ModeOk(f.mode, HasKind(env, f.nodes, Source), HasKind(env, f.nodes, Trigger))
  }

  lemma NodeMapEmpty(nodes: seq<Node>)
    ensures NodeMap(nodes[..0]) == map[]
  {
  }

  lemma NodeMapStep(nodes: seq<Node>, k: nat)
    requires k < |nodes|
    ensures NodeMap(nodes[..k + 1]) == NodeMap(nodes[..k])[nodes[k].id := nodes[k].def]
  {
    assert nodes[..k + 1][..k] == nodes[..k];
  }

  /** The first k nodes are in the table, and `ok` tells whether their ids are distinct. */
  ghost predicate Gathered(nodes: seq<Node>, k: nat, defs: map<Id, NodeDef>, ok: bool)
    requires k <= |nodes|
  {
    && (forall i :: 0 <= i < k ==> nodes[i].id in defs)
    && (forall id :: id in defs ==> exists i :: 0 <= i < k && nodes[i].id == id)
    && (if ok then DistinctNodes(nodes[..k]) && defs == NodeMap(nodes[..k]) else !DistinctNodes(nodes))
  }

  lemma GatherFresh(nodes: seq<Node>, k: nat, defs: map<Id, NodeDef>, ok: bool)
    requires k < |nodes| && Gathered(nodes, k, defs, ok) && nodes[k].id !in defs
    ensures Gathered(nodes, k + 1, defs[nodes[k].id := nodes[k].def], ok)
  {
    NodeMapStep(nodes, k);
    if ok { DistinctStep(nodes, k); }
    hide NodeMap, DistinctNodes;
    var more := defs[nodes[k].id := nodes[k].def];
    forall id | id in more ensures exists i :: 0 <= i < k + 1 && nodes[i].id == id {
      if id != nodes[k].id {
        var i :| 0 <= i < k && nodes[i].id == id;
      } else {
        assert nodes[k].id == id;
      }
    }
  }

  lemma DistinctStep(nodes: seq<Node>, k: nat)
    requires k < |nodes| && DistinctNodes(nodes[..k]) && forall i :: 0 <= i < k ==> nodes[i].id != nodes[k].id
    ensures DistinctNodes(nodes[..k + 1])
  {
    var prefix := nodes[..k + 1];
    forall i, j | 0 <= i < j < k + 1 ensures prefix[i].id != prefix[j].id {
      if j < k { assert nodes[..k][i].id != nodes[..k][j].id; }
    }
  }

  lemma GatherDuplicate(nodes: seq<Node>, k: nat, defs: map<Id, NodeDef>, ok: bool)
    requires k < |nodes| && Gathered(nodes, k, defs, ok) && nodes[k].id in defs
    ensures Gathered(nodes, k + 1, defs, false)
  {
    hide NodeMap;
    var i :| 0 <= i < k && nodes[i].id == nodes[k].id;
    forall id | id in defs ensures exists j :: 0 <= j < k + 1 && nodes[j].id == id {
      var j :| 0 <= j < k && nodes[j].id == id;
    }
  }

  method CollectNodes(nodes: seq<Node>) returns (defs: map<Id, NodeDef>, ok: bool)
    ensures ok <==> DistinctNodes(nodes)
    ensures ok ==> defs == NodeMap(nodes)
  {
    defs, ok := map[], true;
    NodeMapEmpty(nodes);
    assert Gathered(nodes, 0, defs, ok);
    hide NodeMap, Gathered;
    for k := 0 to |nodes|
      invariant Gathered(nodes, k, defs, ok)
    {
      if nodes[k].id in defs {
        GatherDuplicate(nodes, k, defs, ok);
        ok := false;
      } else {
        GatherFresh(nodes, k, defs, ok);
        defs := defs[nodes[k].id := nodes[k].def];
      }
    }
    GatherDone(nodes, defs, ok);
  }

  lemma GatherDone(nodes: seq<Node>, defs: map<Id, NodeDef>, ok: bool)
    requires Gathered(nodes, |nodes|, defs, ok)
    ensures (ok <==> DistinctNodes(nodes)) && (ok ==> defs == NodeMap(nodes))
  {
    assert nodes[..|nodes|] == nodes;
    hide NodeMap, DistinctNodes;
  }

  method CheckTypes(env: Env, nodes: seq<Node>) returns (ok: bool, hasSource: bool, hasTrigger: bool)
    ensures ok <==> forall i :: 0 <= i < |nodes| ==> TypeOk(env, nodes[i].def)
    ensures hasSource == HasKind(env, nodes, Source) && hasTrigger == HasKind(env, nodes, Trigger)
  {
    ok, hasSource, hasTrigger := true, false, false;
    for k := 0 to |nodes|
      invariant ok <==> forall i :: 0 <= i < k ==> TypeOk(env, nodes[i].def)
      invariant hasSource == HasKind(env, nodes[..k], Source) && hasTrigger == HasKind(env, nodes[..k], Trigger)
    {
      var d := nodes[k].def;
      assert nodes[..k + 1] == nodes[..k] + [nodes[k]];
      HasKindStep(env, nodes[..k], nodes[k], Source);
      HasKindStep(env, nodes[..k], nodes[k], Trigger);
      if d.typeName !in env.types {
        ok := false;
      } else {
        if env.types[d.typeName].kind == Source { hasSource := true; }
        if env.types[d.typeName].kind == Trigger { hasTrigger := true; }
        if env.outputs(d.typeName, d.config).None? { ok := false; }
      }
    }
    assert nodes[..|nodes|] == nodes;
  }

  lemma HasKindStep(env: Env, nodes: seq<Node>, n: Node, kind: Kind)
    ensures HasKind(env, nodes + [n], kind) <==>
            HasKind(env, nodes, kind) || (n.def.typeName in env.types && env.types[n.def.typeName].kind == kind)
  {
    var all := nodes + [n];
    assert all[|nodes|] == n;
    if HasKind(env, nodes, kind) {
      var i :| 0 <= i < |nodes| && nodes[i].def.typeName in env.types && env.types[nodes[i].def.typeName].kind == kind;
      assert all[i] == nodes[i];
    }
  }

  /** A wire is in order beside those before it. */
  ghost predicate WireOk(env: Env, defs: map<Id, NodeDef>, wires: seq<Wire>, k: nat)
    requires k < |wires|
  {
    wires[k].id != "" && EndpointsOk(env, defs, wires[k]) && forall i :: 0 <= i < k ==> wires[i].id != wires[k].id
  }

  lemma WiresOkExact(env: Env, defs: map<Id, NodeDef>, wires: seq<Wire>)
    ensures (forall k :: 0 <= k < |wires| ==> WireOk(env, defs, wires, k)) <==>
            NamedApart(wires) && forall i :: 0 <= i < |wires| ==> EndpointsOk(env, defs, wires[i])
  {
    hide EndpointsOk;
    if forall k :: 0 <= k < |wires| ==> WireOk(env, defs, wires, k) {
      forall i, j | 0 <= i < j < |wires| ensures wires[i].id != wires[j].id { assert WireOk(env, defs, wires, j); }
      forall i | 0 <= i < |wires| ensures wires[i].id != "" && EndpointsOk(env, defs, wires[i]) {
        assert WireOk(env, defs, wires, i);
      }
    }
  }

  function IdsOf(wires: seq<Wire>): set<string> { set w | w in wires :: w.id }

  lemma NoIds(wires: seq<Wire>)
    requires wires == []
    ensures IdsOf(wires) == {}
  {
  }

  lemma IdsStep(wires: seq<Wire>, k: nat)
    requires k < |wires|
    ensures IdsOf(wires[..k + 1]) == IdsOf(wires[..k]) + {wires[k].id}
    ensures wires[k].id in IdsOf(wires[..k]) <==> exists i :: 0 <= i < k && wires[i].id == wires[k].id
  {
    assert wires[..k + 1] == wires[..k] + [wires[k]];
    forall i | 0 <= i < k ensures wires[i].id in IdsOf(wires[..k]) { assert wires[i] in wires[..k]; }
  }

  method CheckWires(env: Env, defs: map<Id, NodeDef>, wires: seq<Wire>) returns (ok: bool)
    ensures ok <==> NamedApart(wires) && forall i :: 0 <= i < |wires| ==> EndpointsOk(env, defs, wires[i])
  {
    hide EndpointsOk, NamedApart, IdsOf;
    assert IdsOf(wires[..0]) == {} by { NoIds(wires[..0]); }
    var ids: set<string> := {};
    ok := true;
    for k := 0 to |wires|
      invariant ids == IdsOf(wires[..k])
      invariant ok <==> forall i :: 0 <= i < k ==> WireOk(env, defs, wires, i)
    {
      IdsStep(wires, k);
      assert WireOk(env, defs, wires, k) <==>
             wires[k].id != "" && wires[k].id !in ids && EndpointsOk(env, defs, wires[k]);
      if wires[k].id == "" || wires[k].id in ids { ok := false; }
      ids := ids + {wires[k].id};
      if !EndpointsOk(env, defs, wires[k]) { ok := false; }
    }
    WiresOkExact(env, defs, wires);
  }

  /** The checks of a flow file accept exactly the well-formed ones. */
  method Validate(env: Env, f: File) returns (ok: bool)
    ensures ok <==> WellFormed(env, f)
  {
    var defs, apart := CollectNodes(f.nodes);
    var typed, hasSource, hasTrigger := CheckTypes(env, f.nodes);
    var wired := CheckWires(env, defs, f.wires);
    ok := apart && typed && wired && ModeOk(f.mode, hasSource, hasTrigger);
  }

  // ----- Fingerprints -----

  function WireSet(wires: seq<Wire>): set<Wire> { set w | w in wires }

  function Touching(wires: set<Wire>, id: Id): set<Wire> {
    set w | w in wires && (w.from.node == id || w.to.node == id)
  }

  /** A node's fingerprint: its definition and every wire touching it. */
  datatype NodePrint = NodePrint(def: NodeDef, wires: set<Wire>)

  function PrintOf(f: File, id: Id): NodePrint
    requires id in NodeMap(f.nodes)
  {
    NodePrint(NodeMap(f.nodes)[id], Touching(WireSet(f.wires), id))
  }

  function Feeding(wires: set<Wire>, key: NodePort, src: NodePort): set<Wire> {
    set w | w in wires && w.to == key && w.from == src
  }

  ghost function Pick(wires: set<Wire>): (w: Wire)
    requires wires != {}
    ensures w in wires
  {
    var w :| w in wires;
    w
  }

  /** The endpoints feeding an input, each as often as it is wired to it. */
  ghost function Sources(wires: set<Wire>, key: NodePort): multiset<NodePort> {
    if wires == {} then multiset{}
    else
      var w := Pick(wires);
      Sources(wires - {w}, key) + if w.to == key then multiset{w.from} else multiset{}
  }

  lemma FeedingStep(wires: set<Wire>, w: Wire, key: NodePort, src: NodePort)
    requires w in wires
    ensures |Feeding(wires, key, src)| ==
            |Feeding(wires - {w}, key, src)| + if w.to == key && w.from == src then 1 else 0
  {
    var rest := Feeding(wires - {w}, key, src);
    if w.to == key && w.from == src {
      assert Feeding(wires, key, src) == rest + {w};
    } else {
      assert Feeding(wires, key, src) == rest;
    }
  }

  lemma {:induction false} SourcesCount(wires: set<Wire>, key: NodePort, src: NodePort)
    ensures Sources(wires, key)[src] == |Feeding(wires, key, src)|
  {
    if wires == {} {
      assert Feeding(wires, key, src) == {};
    } else {
      var w := Pick(wires);
      SourcesCount(wires - {w}, key, src);
      FeedingStep(wires, w, key, src);
    }
  }

  /** An input's sources depend only on the wires touching its node. */
  lemma SourcesLocal(wires: set<Wire>, key: NodePort)
    ensures Sources(wires, key) == Sources(Touching(wires, key.node), key)
  {
    forall src ensures Sources(wires, key)[src] == Sources(Touching(wires, key.node), key)[src] {
      SourcesCount(wires, key, src);
      SourcesCount(Touching(wires, key.node), key, src);
      assert Feeding(wires, key, src) == Feeding(Touching(wires, key.node), key, src);
    }
  }

  function InputsOf(env: Env, d: NodeDef): set<Port> {
    if d.typeName in env.types then set p | p in env.types[d.typeName].inputs else {}
  }

  /** Every input port of every node. */
  function Inboxes(env: Env, defs: map<Id, NodeDef>): set<NodePort> {
    set id, p | id in defs && p in InputsOf(env, defs[id]) :: NodePort(id, p)
  }

  ghost function InboxPrint(env: Env, d: NodeDef, wires: set<Wire>, key: NodePort): string {
    env.digest(d.overflow, Sources(wires, key))
  }

  /** The inbox fingerprints a file asks for. */
  ghost function Want(env: Env, f: File): map<NodePort, string> {
    var defs := NodeMap(f.nodes);
    map key | key in Inboxes(env, defs) :: InboxPrint(env, defs[key.node], WireSet(f.wires), key)
  }

  /** Any change that alters an inbox's fingerprint alters its owner's. */
  lemma SamePrintSameInbox(env: Env, f: File, id: Id, p: Port)
    requires id in NodeMap(f.nodes) && p in InputsOf(env, NodeMap(f.nodes)[id])
    ensures NodePort(id, p) in Want(env, f)
    ensures Want(env, f)[NodePort(id, p)] == InboxPrint(env, PrintOf(f, id).def, PrintOf(f, id).wires, NodePort(id, p))
  {
    SourcesLocal(WireSet(f.wires), NodePort(id, p));
  }

  /** Where an output leads, in file order. */
  function Targets(wires: seq<Wire>, from: NodePort): seq<NodePort> {
    if wires == [] then []
    else
      var n := |wires| - 1;
      Targets(wires[..n], from) + if wires[n].from == from then [wires[n].to] else []
  }

  /** One target per wire leaving the port: with distinct wires none is skipped and none doubled. */
  lemma {:induction false} TargetsAreWires(wires: seq<Wire>, from: NodePort, to: NodePort)
    requires forall i, j :: 0 <= i < j < |wires| ==> wires[i].id != wires[j].id
    ensures multiset(Targets(wires, from))[to] == |Feeding(WireSet(wires), to, from)|
  {
    if wires == [] {
      assert Feeding(WireSet(wires), to, from) == {};
    } else {
      var n := |wires| - 1;
      TargetsAreWires(wires[..n], from, to);
      LastIsNew(wires);
      hide *;
      FeedingStep(WireSet(wires), wires[n], to, from);
      TargetsStep(wires, from, to);
    }
  }

  /** The targets are where the wires leaving the port lead, all of them, in the order of the file. */
  lemma {:induction false} TargetsInOrder(wires: seq<Wire>, from: NodePort) returns (pos: seq<nat>)
    ensures |pos| == |Targets(wires, from)| && forall i, j :: 0 <= i < j < |pos| ==> pos[i] < pos[j]
    ensures forall i :: 0 <= i < |pos| ==> pos[i] < |wires| && wires[pos[i]].from == from
    ensures forall i :: 0 <= i < |pos| ==> wires[pos[i]].to == Targets(wires, from)[i]
    ensures forall k :: 0 <= k < |wires| && wires[k].from == from ==> k in pos
  {
    pos := [];
    if wires == [] {
    } else {
      var n := |wires| - 1;
      pos := TargetsInOrder(wires[..n], from);
      if wires[n].from == from { pos := pos + [n]; }
    }
  }

  lemma TargetsStep(wires: seq<Wire>, from: NodePort, to: NodePort)
    requires wires != []
    ensures var n := |wires| - 1;
            multiset(Targets(wires, from))[to] ==
            multiset(Targets(wires[..n], from))[to] + if wires[n].to == to && wires[n].from == from then 1 else 0
  {
    var n := |wires| - 1;
    assert Targets(wires, from) == Targets(wires[..n], from) + if wires[n].from == from then [wires[n].to] else [];
  }

  lemma LastIsNew(wires: seq<Wire>)
    requires wires != [] && forall i, j :: 0 <= i < j < |wires| ==> wires[i].id != wires[j].id
    ensures wires[|wires| - 1] in WireSet(wires)
    ensures WireSet(wires) - {wires[|wires| - 1]} == WireSet(wires[..|wires| - 1])
  {
    assert wires == wires[..|wires| - 1] + [wires[|wires| - 1]];
  }

  lemma {:induction false} TargetIsWired(wires: seq<Wire>, from: NodePort, i: nat) returns (k: nat)
    requires i < |Targets(wires, from)|
    ensures k < |wires| && wires[k].from == from && wires[k].to == Targets(wires, from)[i]
    decreases |wires|
  {
    var n := |wires| - 1;
    if i < |Targets(wires[..n], from)| { k := TargetIsWired(wires[..n], from, i); } else { k := n; }
  }
}

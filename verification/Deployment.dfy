/**
 The deployment as an object: the loops that reconcile inboxes, stop affected nodes and start
 missing ones, proved against the deploy relation.
 */
module DeploymentModel {
  import opened Flow
  import opened Deploy

  // ----- Tables built from a file -----

  function SourcesIn(m: map<NodePort, multiset<NodePort>>, key: NodePort): multiset<NodePort> {
    if key in m then m[key] else multiset{}
  }

  function TargetsIn(m: map<NodePort, seq<NodePort>>, key: NodePort): seq<NodePort> {
    if key in m then m[key] else []
  }

  lemma SourcesStep(wires: seq<Wire>, k: nat, key: NodePort)
    requires NamedApart(wires) && k < |wires|
    ensures Sources(WireSet(wires[..k + 1]), key) ==
            Sources(WireSet(wires[..k]), key) + if wires[k].to == key then multiset{wires[k].from} else multiset{}
  {
    hide Sources;
    var all, w := wires[..k + 1], wires[k];
    LastIsNew(all);
    assert all[..k] == wires[..k];
    var added := if w.to == key then multiset{w.from} else multiset{};
    forall src ensures Sources(WireSet(all), key)[src] == (Sources(WireSet(wires[..k]), key) + added)[src] {
      SourcesCount(WireSet(all), key, src);
      SourcesCount(WireSet(wires[..k]), key, src);
      FeedingStep(WireSet(all), w, key, src);
    }
  }

  /** Collects what feeds each input. */
  method CollectSources(wires: seq<Wire>) returns (m: map<NodePort, multiset<NodePort>>)
    requires NamedApart(wires)
    ensures forall key :: SourcesIn(m, key) == Sources(WireSet(wires), key)
  {
    m := map[];
    assert WireSet(wires[..0]) == {};
    for k := 0 to |wires|
      invariant forall key :: SourcesIn(m, key) == Sources(WireSet(wires[..k]), key)
    {
      var to, from := wires[k].to, wires[k].from;
      ghost var before := m;
      m := m[to := SourcesIn(m, to) + multiset{from}];
      forall key ensures SourcesIn(m, key) == Sources(WireSet(wires[..k + 1]), key) {
        assert SourcesIn(before, key) == Sources(WireSet(wires[..k]), key);
        SourcesStep(wires, k, key);
      }
    }
    assert wires[..|wires|] == wires;
  }

  /** Collects where each output leads, in file order. */
  method CollectTargets(wires: seq<Wire>) returns (m: map<NodePort, seq<NodePort>>)
    ensures forall from :: TargetsIn(m, from) == Targets(wires, from)
  {
    m := map[];
    for k := 0 to |wires|
      invariant forall from :: TargetsIn(m, from) == Targets(wires[..k], from)
    {
      assert wires[..k + 1][..k] == wires[..k];
      m := m[wires[k].from := TargetsIn(m, wires[k].from) + [wires[k].to]];
    }
    assert wires[..|wires|] == wires;
  }

  lemma NodeMapAt(nodes: seq<Node>, i: nat)
    requires DistinctNodes(nodes) && i < |nodes|
    ensures nodes[i].id in NodeMap(nodes) && NodeMap(nodes)[nodes[i].id] == nodes[i].def
  {
    NodeMapHas(nodes, i);
    var j := NodeMapFrom(nodes, nodes[i].id);
    assert i == j;
  }

  ghost predicate AsWanted(env: Env, f: File, want: map<NodePort, string>) {
    forall key :: key in want ==> key in Want(env, f) && want[key] == Want(env, f)[key]
  }

  ghost predicate HasInputs(env: Env, n: Node, want: map<NodePort, string>) {
    forall p :: p in InputsOf(env, n.def) ==> NodePort(n.id, p) in want
  }

  /** Adds the fingerprints of one node's inputs. */
  method AddInputs(env: Env, f: File, sources: map<NodePort, multiset<NodePort>>, k: nat, start: map<NodePort, string>)
    returns (want: map<NodePort, string>)
    requires WellFormed(env, f) && k < |f.nodes| && AsWanted(env, f, start)
    requires forall key :: SourcesIn(sources, key) == Sources(WireSet(f.wires), key)
    ensures AsWanted(env, f, want) && start.Keys <= want.Keys && HasInputs(env, f.nodes[k], want)
  {
    var n := f.nodes[k];
    assert TypeOk(env, n.def);
    hide Sources, NodeMap, Want, WellFormed;
    want := start;
    var inputs := env.types[n.def.typeName].inputs;
    for j := 0 to |inputs|
      invariant AsWanted(env, f, want) && start.Keys <= want.Keys
      invariant forall i :: 0 <= i < j ==> NodePort(n.id, inputs[i]) in want
    {
      var key := NodePort(n.id, inputs[j]);
      WantAt(env, f, k, inputs[j]);
      want := want[key := env.digest(n.def.overflow, SourcesIn(sources, key))];
    }
  }

  /** Derives the fingerprint of every input port's inbox. */
  method ComputeInboxPrints(env: Env, f: File) returns (want: map<NodePort, string>)
    requires WellFormed(env, f)
    ensures want == Want(env, f)
  {
    var sources := CollectSources(f.wires);
    want := map[];
    hide Sources, NodeMap, Want, WellFormed;
    for k := 0 to |f.nodes|
      invariant AsWanted(env, f, want)
      invariant forall i :: 0 <= i < k ==> HasInputs(env, f.nodes[i], want)
    {
      want := AddInputs(env, f, sources, k, want);
    }
    forall key | key in Want(env, f) ensures key in want {
      var i := WantFrom(env, f, key);
      assert HasInputs(env, f.nodes[i], want);
    }
    assert want == Want(env, f);
  }

  lemma WantAt(env: Env, f: File, k: nat, p: Port)
    requires WellFormed(env, f) && k < |f.nodes| && p in InputsOf(env, f.nodes[k].def)
    ensures var key := NodePort(f.nodes[k].id, p);
            && key in Want(env, f)
            && Want(env, f)[key] == env.digest(f.nodes[k].def.overflow, Sources(WireSet(f.wires), key))
  {
    NodeMapAt(f.nodes, k);
    hide Sources, NodeMap, InputsOf;
  }

  lemma WantFrom(env: Env, f: File, key: NodePort) returns (i: nat)
    requires key in Want(env, f)
    ensures i < |f.nodes| && f.nodes[i].id == key.node && key.port in InputsOf(env, f.nodes[i].def)
  {
    i := NodeMapFrom(f.nodes, key.node);
  }

  // ----- Reconciling inboxes, one at a time -----

  /** An inbox not looked at yet is as it was; one that was is as the reconciled state has it. */
  ghost predicate KeyAt(s: State, want: map<NodePort, string>, done: set<NodePort>, t: State, k: NodePort) {
    if k in done then
      && (k in t.inboxes <==> k in want) && (k in t.prints <==> k in want)
      && (k in want ==> t.prints[k] == want[k])
      && (k in want && Kept(s, want, k) ==> k in s.inboxes && t.inboxes[k] == s.inboxes[k])
      && (k in want && !Kept(s, want, k) ==> s.next <= t.inboxes[k] < t.next)
    else
      && (k in t.inboxes <==> k in s.inboxes) && (k in t.prints <==> k in s.inboxes)
      && (k in s.inboxes ==> t.inboxes[k] == s.inboxes[k])
      && (k in s.inboxes && k in s.prints ==> t.prints[k] == s.prints[k])
  }

  predicate Replaced(s: State, want: map<NodePort, string>, done: set<NodePort>, k: NodePort) {
    k in done && k in want && !Kept(s, want, k)
  }

  ghost predicate FreshApart(s: State, want: map<NodePort, string>, done: set<NodePort>, t: State) {
    forall j, k | Replaced(s, want, done, j) && Replaced(s, want, done, k) && j != k ::
      j in t.inboxes && k in t.inboxes ==> t.inboxes[j] != t.inboxes[k]
  }

  ghost predicate ClosedBy(s: State, want: map<NodePort, string>, done: set<NodePort>, w: WireId) {
    exists k :: k in s.inboxes && k in done && !Kept(s, want, k) && s.inboxes[k] == w
  }

  ghost predicate ClosedSoFar(s: State, want: map<NodePort, string>, done: set<NodePort>, t: State) {
    forall w :: w in t.closed <==> w in s.closed || ClosedBy(s, want, done, w)
  }

  /** The inboxes in `done` have been reconciled, the others are as they were. */
  ghost predicate Partly(s: State, want: map<NodePort, string>, done: set<NodePort>, t: State) {
    && t.nodes == s.nodes && s.next <= t.next
    && (forall k :: KeyAt(s, want, done, t, k))
    && FreshApart(s, want, done, t)
    && ClosedSoFar(s, want, done, t)
  }

  lemma ClosedByStep(s: State, want: map<NodePort, string>, done: set<NodePort>, k: NodePort, w: WireId)
    ensures ClosedBy(s, want, done + {k}, w) <==>
            ClosedBy(s, want, done, w) || (k in s.inboxes && !Kept(s, want, k) && s.inboxes[k] == w)
  {
    hide Kept;
    if ClosedBy(s, want, done, w) {
      var j :| j in s.inboxes && j in done && !Kept(s, want, j) && s.inboxes[j] == w;
      assert j in done + {k};
    }
  }

  lemma DropStep(s: State, want: map<NodePort, string>, done: set<NodePort>, t: State, k: NodePort)
    requires Partly(s, want, done, t) && k in s.inboxes && k !in want && k !in done
    ensures k in t.inboxes
    ensures Partly(s, want, done + {k},
                   t.(closed := t.closed + {t.inboxes[k]}, inboxes := t.inboxes - {k}, prints := t.prints - {k}))
  {
    assert !Kept(s, want, k);
    hide Kept, ClosedBy;
    assert KeyAt(s, want, done, t, k);
    var u := t.(closed := t.closed + {t.inboxes[k]}, inboxes := t.inboxes - {k}, prints := t.prints - {k});
    forall j ensures KeyAt(s, want, done + {k}, u, j) { assert KeyAt(s, want, done, t, j); }
    forall w ensures w in u.closed <==> w in s.closed || ClosedBy(s, want, done + {k}, w) {
      ClosedByStep(s, want, done, k, w);
    }
  }

  lemma KeepStep(s: State, want: map<NodePort, string>, done: set<NodePort>, t: State, k: NodePort)
    requires s.prints.Keys == s.inboxes.Keys && Partly(s, want, done, t) && k !in done && Kept(s, want, k)
    ensures Partly(s, want, done + {k}, t)
  {
    assert k in want && k in s.inboxes && s.prints[k] == want[k];
    hide Kept, ClosedBy;
    assert KeyAt(s, want, done, t, k);
    forall j ensures KeyAt(s, want, done + {k}, t, j) { assert KeyAt(s, want, done, t, j); }
    forall w ensures w in t.closed <==> w in s.closed || ClosedBy(s, want, done + {k}, w) {
      ClosedByStep(s, want, done, k, w);
    }
  }

  function Replace(t: State, k: NodePort, mark: string): State {
    t.(closed := if k in t.inboxes then t.closed + {t.inboxes[k]} else t.closed,
       inboxes := t.inboxes[k := t.next], prints := t.prints[k := mark], next := t.next + 1)
  }

  lemma ReplaceKeepsApart(s: State, want: map<NodePort, string>, done: set<NodePort>, t: State, k: NodePort)
    requires Partly(s, want, done, t) && k !in done && k in want
    ensures FreshApart(s, want, done + {k}, Replace(t, k, want[k]))
  {
    hide Kept, ClosedSoFar;
    forall j | Replaced(s, want, done, j) && j in t.inboxes ensures t.inboxes[j] < t.next {
      assert KeyAt(s, want, done, t, j);
    }
  }

  lemma ReplaceStep(s: State, want: map<NodePort, string>, done: set<NodePort>, t: State, k: NodePort)
    requires Partly(s, want, done, t) && k !in done && k in want && !Kept(s, want, k)
    ensures Partly(s, want, done + {k}, Replace(t, k, want[k]))
  {
    ReplaceKeepsApart(s, want, done, t, k);
    hide Kept, ClosedBy, FreshApart;
    var u := Replace(t, k, want[k]);
    assert KeyAt(s, want, done, t, k);
    forall j ensures KeyAt(s, want, done + {k}, u, j) { assert KeyAt(s, want, done, t, j); }
    forall w ensures w in u.closed <==> w in s.closed || ClosedBy(s, want, done + {k}, w) {
      ClosedByStep(s, want, done, k, w);
    }
  }

  lemma AllDone(s: State, want: map<NodePort, string>, done: set<NodePort>, t: State)
    requires Partly(s, want, done, t) && want.Keys <= done && s.inboxes.Keys <= done
    ensures Reconciled(s, want, t)
  {
    hide Kept;
    forall k ensures (k in t.inboxes <==> k in want) && (k in t.prints <==> k in want)
      ensures k in want ==> t.prints[k] == want[k]
      ensures k in want && Kept(s, want, k) ==> k in s.inboxes && t.inboxes[k] == s.inboxes[k]
      ensures k in want && !Kept(s, want, k) ==> s.next <= t.inboxes[k] < t.next
    {
      assert KeyAt(s, want, done, t, k);
    }
    hide KeyAt;
    assert t.prints == want && t.inboxes.Keys == want.Keys;
  }

  lemma NoneDone(s: State, want: map<NodePort, string>)
    requires s.prints.Keys == s.inboxes.Keys
    ensures Partly(s, want, {}, s)
  {
  }

  lemma LookUp(s: State, want: map<NodePort, string>, done: set<NodePort>, t: State, k: NodePort)
    requires s.prints.Keys == s.inboxes.Keys && Partly(s, want, done, t) && k in want && k !in done
    ensures (k in t.prints && t.prints[k] == want[k]) <==> Kept(s, want, k)
  {
    assert KeyAt(s, want, done, t, k);
  }

  class Deployment {
    var inboxes: map<NodePort, WireId>
    var prints: map<NodePort, string>
    var nodes: map<Id, Running>
    var next: WireId
    var closed: set<WireId>

    ghost function View(): State
      reads this
    {
      State(inboxes, prints, nodes, next, closed)
    }

    constructor ()
      ensures View() == Initial()
    {
      inboxes, prints, nodes, next, closed := map[], map[], map[], 0, {};
    }

    /** Closes and forgets the inboxes no longer asked for. */
    method CloseUnwanted(want: map<NodePort, string>)
      requires prints.Keys == inboxes.Keys
      modifies this
      ensures Partly(old(View()), want, old(inboxes.Keys) - want.Keys, View())
    {
      hide Partly;
      ghost var s := View();
      ghost var done := {};
      var todo := inboxes.Keys;
      NoneDone(s, want);
      while todo != {}
        invariant todo <= s.inboxes.Keys && done == (s.inboxes.Keys - todo) - want.Keys
        invariant Partly(s, want, done, View())
      {
        var k :| k in todo;
        todo := todo - {k};
        if k !in want {
          DropStep(s, want, done, View(), k);
          closed := closed + {inboxes[k]};
          inboxes := inboxes - {k};
          prints := prints - {k};
          done := done + {k};
        }
      }
      assert done == s.inboxes.Keys - want.Keys;
    }

    /** Gives every inbox asked for its wire: the one it has if its fingerprint is unchanged, else a new one. */
    method ReconcileInboxes(want: map<NodePort, string>)
      requires prints.Keys == inboxes.Keys
      modifies this
      ensures Reconciled(old(View()), want, View())
    {
      hide Partly, Reconciled, Kept;
      ghost var s := View();
      CloseUnwanted(want);
      ghost var done := s.inboxes.Keys - want.Keys;
      var todo := want.Keys;
      while todo != {}
        invariant todo <= want.Keys && done == (s.inboxes.Keys - want.Keys) + (want.Keys - todo)
        invariant Partly(s, want, done, View())
      {
        var k :| k in todo;
        todo := todo - {k};
        LookUp(s, want, done, View(), k);
        if k in prints && prints[k] == want[k] {
          KeepStep(s, want, done, View(), k);
        } else {
          ReplaceStep(s, want, done, View(), k);
          if k in inboxes { closed := closed + {inboxes[k]}; }
          inboxes := inboxes[k := next];
          next := next + 1;
          prints := prints[k := want[k]];
        }
        done := done + {k};
      }
      AllDone(s, want, done, View());
    }

    /** The current inboxes of an output's targets. */
    method InboxesForOutput(targets: seq<NodePort>) returns (wires: seq<WireId>)
      ensures wires == Live(inboxes, targets)
    {
      wires := [];
      for k := 0 to |targets|
        invariant wires == Live(inboxes, targets[..k])
      {
        assert targets[..k + 1][..k] == targets[..k];
        if targets[k] in inboxes { wires := wires + [inboxes[targets[k]]]; }
      }
      assert targets[..|targets|] == targets;
    }

    /** Resolves every output port of a node against the inboxes there are now. */
    method CaptureOutputs(ports: set<Port>, targets: map<NodePort, seq<NodePort>>, id: Id)
      returns (outputs: map<Port, seq<WireId>>)
      ensures outputs == map p | p in ports :: Live(inboxes, TargetsIn(targets, NodePort(id, p)))
    {
      hide Live, TargetsIn;
      outputs := map[];
      var todo := ports;
      while todo != {}
        invariant todo <= ports && outputs.Keys == ports - todo
        invariant forall p :: p in outputs ==> outputs[p] == Live(inboxes, TargetsIn(targets, NodePort(id, p)))
      {
        var p :| p in todo;
        todo := todo - {p};
        var wires := InboxesForOutput(TargetsIn(targets, NodePort(id, p)));
        outputs := outputs[p := wires];
      }
    }

    /** Starts one node on the wires it finds now; `refused` stands for a start that fails. */
    method StartNode(env: Env, f: File, targets: map<NodePort, seq<NodePort>>, id: Id, d: NodeDef, mark: NodePrint,
                     prior: nat, refused: bool) returns (ok: bool)
      requires id in NodeMap(f.nodes) && d == NodeMap(f.nodes)[id] && mark == PrintOf(f, id) && id !in nodes
      requires forall from :: TargetsIn(targets, from) == Targets(f.wires, from)
      modifies this`nodes
      ensures ok <==> !refused
      ensures nodes == if ok then old(nodes)[id := Start(env, f, inboxes, id, prior)] else old(nodes)
    {
      hide Targets, TargetsIn, Live, NodeMap, Touching, EffectiveOutputs, Listens;
      if refused { return false; }
      var outputs := CaptureOutputs(EffectiveOutputs(env, d), targets, id);
      var listens := Listens(env, d);
      var inputs := map p | p in listens && NodePort(id, p) in inboxes :: inboxes[NodePort(id, p)];
      ghost var r := Start(env, f, inboxes, id, prior);
      forall p | p in EffectiveOutputs(env, d) ensures outputs[p] == r.outputs[p] {
        assert TargetsIn(targets, NodePort(id, p)) == Targets(f.wires, NodePort(id, p));
      }
      assert outputs == r.outputs && inputs == r.inputs;
      nodes := nodes[id := Running(mark, inputs, outputs, prior + 1)];
      ok := true;
    }

    /** Stops the nodes that are gone or whose fingerprint changed. */
    method StopAffected(f: File, marks: map<Id, NodePrint>) returns (prior: map<Id, nat>)
      requires marks == map id | id in NodeMap(f.nodes) :: PrintOf(f, id)
      modifies this`nodes
      ensures nodes == map id | id in old(nodes) && Unaffected(old(View()), f, id) :: old(nodes)[id]
      ensures forall id :: id in prior <==> id in old(nodes) && id !in nodes
      ensures forall id :: id in prior ==> prior[id] == old(nodes)[id].starts
    {
      hide NodeMap, PrintOf;
      ghost var was := nodes;
      prior := map[];
      var todo := nodes.Keys;
      while todo != {}
        invariant todo <= was.Keys && nodes.Keys == todo + (set id | id in was && Unaffected(old(View()), f, id))
        invariant forall id :: id in nodes ==> nodes[id] == was[id]
        invariant forall id :: id in prior <==> id in was && id !in nodes
        invariant forall id :: id in prior ==> prior[id] == was[id].starts
      {
        var id :| id in todo;
        todo := todo - {id};
        if !(id in marks && marks[id] == nodes[id].mark) {
          prior := prior[id := nodes[id].starts];
          nodes := nodes - {id};
        }
      }
    }

    /** Starts every node of the file that is not running, until a start fails. */
    method StartMissing(env: Env, f: File, defs: map<Id, NodeDef>, marks: map<Id, NodePrint>,
                        targets: map<NodePort, seq<NodePort>>, prior: map<Id, nat>, refused: set<Id>) returns (ok: bool)
      requires defs == NodeMap(f.nodes) && marks == (map id | id in NodeMap(f.nodes) :: PrintOf(f, id))
      requires forall from :: TargetsIn(targets, from) == Targets(f.wires, from)
      requires nodes.Keys <= defs.Keys
      modifies this`nodes
      ensures nodes.Keys <= defs.Keys && (ok <==> nodes.Keys == defs.Keys)
      ensures ok <==> forall id :: id in defs && id !in old(nodes) ==> id !in refused
      ensures forall id :: id in old(nodes) ==> id in nodes && nodes[id] == old(nodes)[id]
      ensures forall id :: id in nodes && id !in old(nodes) ==>
                             nodes[id] == Start(env, f, inboxes, id, CountIn(prior, id))
    {
      hide NodeMap, PrintOf, Targets, TargetsIn, Start;
      ghost var was := nodes;
      var todo := defs.Keys;
      while todo != {}
        invariant todo <= defs.Keys && defs.Keys - todo <= nodes.Keys <= defs.Keys
        invariant forall id :: id in nodes && id !in was ==> id !in refused
        invariant forall id :: id in was ==> id in nodes && nodes[id] == was[id]
        invariant forall id :: id in nodes && id !in was ==> nodes[id] == Start(env, f, inboxes, id, CountIn(prior, id))
      {
        var id :| id in todo;
        todo := todo - {id};
        if id !in nodes {
          var started := StartNode(env, f, targets, id, defs[id], marks[id], CountIn(prior, id), id in refused);
          if !started { return false; }
        }
      }
      ok := true;
    }

    /** Deploys a file: refuses it if it is not well-formed, else reconciles inboxes, stops what is
        affected and starts what is missing. `refused` are the nodes whose start would fail. */
    method DeployFile(env: Env, f: File, refused: set<Id>) returns (ok: bool)
      requires prints.Keys == inboxes.Keys
      modifies this
      ensures DeployStep(env, old(View()), f, View(), ok)
      ensures ok <==> WellFormed(env, f) && NoneRefused(old(View()), f, refused)
    {
      hide WellFormed, NodeMap, PrintOf, Want, Reconciled, Start, Targets, TargetsIn, CountIn, DeployStep;
      ok := Validate(env, f);
      if !ok {
        assert DeployStep(env, View(), f, View(), ok) by { RefusedStep(env, View(), f); }
        return;
      }
      ghost var s := View();
      var defs, apart := CollectNodes(f.nodes);
      assert apart by { WellFormedApart(env, f); }
      var targets := CollectTargets(f.wires);
      var want := ComputeInboxPrints(env, f);
      ReconcileInboxes(want);
      ghost var m := View();
      var marks := MarksOf(f, defs);
      var prior := StopAffected(f, marks);
      ghost var kept := nodes;
      ok := StartMissing(env, f, defs, marks, targets, prior, refused);
      DeployDone(env, s, f, m, kept, prior, View(), ok);
      SameAffected(s, f, m, Want(env, f));
    }

    /** Stops everything and closes every wire. */
    method Stop()
      modifies this
      ensures StopStep(old(View()), View())
    {
      closed := closed + inboxes.Values;
      nodes, inboxes, prints := map[], map[], map[];
    }
  }

  /** No node the deploy has to start is one whose start fails. */
  ghost predicate NoneRefused(s: State, f: File, refused: set<Id>) {
    forall id :: id in NodeMap(f.nodes) && !Unaffected(s, f, id) ==> id !in refused
  }

  function CountIn(prior: map<Id, nat>, id: Id): nat { if id in prior then prior[id] else 0 }

  method MarksOf(f: File, defs: map<Id, NodeDef>) returns (marks: map<Id, NodePrint>)
    requires defs == NodeMap(f.nodes)
    ensures marks == map id | id in NodeMap(f.nodes) :: PrintOf(f, id)
  {
    hide NodeMap, Touching;
    marks := map id | id in defs :: NodePrint(defs[id], Touching(WireSet(f.wires), id));
  }

  lemma RefusedStep(env: Env, s: State, f: File)
    requires !WellFormed(env, f)
    ensures DeployStep(env, s, f, s, false)
  {
  }

  lemma WellFormedApart(env: Env, f: File)
    requires WellFormed(env, f)
    ensures DistinctNodes(f.nodes)
  {
  }

  /** Reconciling inboxes affects no node. */
  lemma SameAffected(s: State, f: File, m: State, want: map<NodePort, string>)
    requires Reconciled(s, want, m)
    ensures m.nodes == s.nodes && forall id :: Unaffected(m, f, id) <==> Unaffected(s, f, id)
  {
  }

  lemma DeployDone(env: Env, s: State, f: File, m: State, kept: map<Id, Running>, prior: map<Id, nat>,
                   t: State, ok: bool)
    requires WellFormed(env, f) && Reconciled(s, Want(env, f), m) && t == m.(nodes := t.nodes)
    requires kept == map id | id in m.nodes && Unaffected(m, f, id) :: m.nodes[id]
    requires forall id :: id in prior <==> id in m.nodes && id !in kept
    requires forall id :: id in prior ==> prior[id] == m.nodes[id].starts
    requires t.nodes.Keys <= NodeMap(f.nodes).Keys && (ok <==> t.nodes.Keys == NodeMap(f.nodes).Keys)
    requires forall id :: id in kept ==> id in t.nodes && t.nodes[id] == kept[id]
    requires forall id :: id in t.nodes && id !in kept ==>
                            t.nodes[id] == Start(env, f, t.inboxes, id, CountIn(prior, id))
    ensures DeployStep(env, s, f, t, ok)
  {
    hide WellFormed, Start, NodeMap, PrintOf, Want;
    assert m.nodes == s.nodes;
    assert m == t.(nodes := s.nodes);
    hide Reconciled;
    forall id ensures Unaffected(m, f, id) == Unaffected(s, f, id) { }
    forall id | id in t.nodes && !Unaffected(s, f, id) ensures CountIn(prior, id) == Prior(s, id) { }
  }

  /** Two deploys that succeed and leave the first source sending into a closed wire. */
  method StrandSender(env: Env) returns (d: Deployment)
    requires Offers(env) && env.digest("", multiset{OLD.from}) != env.digest("", multiset{OLD.from, ADDED.from})
    ensures fresh(d) && "a" in d.nodes && "out" in d.nodes["a"].outputs && |d.nodes["a"].outputs["out"]| == 1
    ensures IN in d.inboxes && d.nodes["a"].outputs["out"][0] != d.inboxes[IN]
            && d.nodes["a"].outputs["out"][0] in d.closed
  {
    d := new Deployment();
    OneWellFormed(env);
    TwoWellFormed(env);
    hide WellFormed, NodeMap, PrintOf, Want, Reconciled, Start, Targets, DeployStep, Unaffected, Offers, Inv;
    var first := d.DeployFile(env, ONE, {});
    ghost var t := d.View();
    assert t.prints.Keys == t.inboxes.Keys by { KeysAgree(env, Initial(), ONE, t, first); }
    var second := d.DeployFile(env, TWO, {});
    AddedSourceStrandsSender(env, t, d.View(), first, second);
  }

  lemma KeysAgree(env: Env, s: State, f: File, t: State, ok: bool)
    requires WellFormed(env, f) && DeployStep(env, s, f, t, ok)
    ensures t.prints.Keys == t.inboxes.Keys
  {
    hide WellFormed, Want, Restarted;
  }
}

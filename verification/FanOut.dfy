/**
 Sending one datagram to every wire of an output. The wires are tried in order and the first closed
 one ends the send, so a target left behind by a redeploy also cuts off the targets after it.
 */
module FanOut {
  import opened Flow
  import opened Deploy

  /** How many wires a send gets to before it meets a closed one. */
  function Reached(held: seq<WireId>, closed: set<WireId>): (n: nat)
    ensures n <= |held| && (forall i :: 0 <= i < n ==> held[i] !in closed)
    ensures n < |held| ==> held[n] in closed
  {
    if held == [] then 0
    else
      var n := Reached(held[..|held| - 1], closed);
      if n < |held| - 1 || held[|held| - 1] in closed then n else |held|
  }

  /** How the send on one wire ends: taken, dropped by the wire's own policy, or with a hard error. */
  datatype End = Delivered | Dropped | Closed | Cancelled

  predicate Hard(e: End) { e.Closed? || e.Cancelled? }

  /** The sends on these wires can end like that: a wire closed when the send begins refuses at once, any other one may
      still close under it, and a send blocked there then ends closed or cancelled. */
  predicate Consistent(held: seq<WireId>, closed: set<WireId>, ends: seq<End>) {
    |ends| == |held| && forall i :: 0 <= i < |held| ==> (held[i] in closed ==> ends[i].Closed?)
  }

  /** Neither a cancellation nor a wire closing under way cuts these sends short. */
  predicate Calm(held: seq<WireId>, closed: set<WireId>, ends: seq<End>) {
    |ends| == |held| && forall i :: 0 <= i < |held| ==> (Hard(ends[i]) ==> held[i] in closed)
  }

  /** Those of the first n wires that took their copy, in order. */
  function Taken(held: seq<WireId>, ends: seq<End>, n: nat): seq<WireId>
    requires n <= |held| == |ends|
  {
    if n == 0 then [] else Taken(held, ends, n - 1) + if ends[n - 1].Delivered? then [held[n - 1]] else []
  }

  /** `got` are the wires among the first n whose send was delivered, all of them, in order. */
  ghost predicate Chosen(pos: seq<nat>, held: seq<WireId>, ends: seq<End>, n: nat, got: seq<WireId>)
    requires n <= |held| == |ends|
  {
    && |pos| == |got| && (forall i, j :: 0 <= i < j < |pos| ==> pos[i] < pos[j])
    && (forall i :: 0 <= i < |pos| ==> pos[i] < n && ends[pos[i]].Delivered? && held[pos[i]] == got[i])
    && forall k :: 0 <= k < n && ends[k].Delivered? ==> k in pos
  }

  lemma ChosenNext(pos: seq<nat>, held: seq<WireId>, ends: seq<End>, n: nat, got: seq<WireId>)
    requires n < |held| == |ends| && Chosen(pos, held, ends, n, got)
    ensures if ends[n].Delivered? then Chosen(pos + [n], held, ends, n + 1, got + [held[n]])
            else Chosen(pos, held, ends, n + 1, got)
  {
    assert forall k :: k in pos + [n] <==> k in pos || k == n;
  }

  lemma {:induction false} TakenExact(held: seq<WireId>, ends: seq<End>, n: nat) returns (pos: seq<nat>)
    requires n <= |held| == |ends|
    ensures Chosen(pos, held, ends, n, Taken(held, ends, n))
  {
    pos := [];
    if n == 0 {
    } else {
      hide Chosen;
      pos := TakenExact(held, ends, n - 1);
      ChosenNext(pos, held, ends, n - 1, Taken(held, ends, n - 1));
      if ends[n - 1].Delivered? {
        pos := pos + [n - 1];
      } else {
        assert Taken(held, ends, n) == Taken(held, ends, n - 1);
      }
    }
  }

  /** Sends a copy to each wire in turn and stops at the first hard error: `tried` wires have had their send, of
      which those in `copies` took it. Drops are no errors. */
  method Send(held: seq<WireId>, closed: set<WireId>, ends: seq<End>)
    returns (copies: seq<WireId>, tried: nat, ok: bool)
    requires Consistent(held, closed, ends)
    ensures tried <= |held| && copies == Taken(held, ends, tried)
    ensures forall i :: 0 <= i < tried ==> ends[i].Delivered? || ends[i].Dropped?
    ensures tried < |held| ==> ends[tried].Closed? || ends[tried].Cancelled?
    ensures ok <==> tried == |held|
    ensures tried <= Reached(held, closed)
    ensures Calm(held, closed, ends) ==> tried == Reached(held, closed)
  {
    copies := [];
    for k := 0 to |held|
      invariant copies == Taken(held, ends, k) && forall i :: 0 <= i < k ==> !Hard(ends[i])
    {
      if Hard(ends[k]) { return copies, k, false; }
      if ends[k].Delivered? { copies := copies + [held[k]]; }
    }
    return copies, |held|, true;
  }

  /** A kept node's datagram gets to the live inbox of its n-th target if and only if neither that inbox
      nor one before it in the list had another fingerprint in a deploy since the node started. */
  lemma KeptSenderReaches(env: Env, ss: seq<State>, es: seq<Event>, i: nat, k: nat, id: Id, p: Port, n: nat)
    requires History(env, ss, es) && 0 < i && KeptSince(ss, i, k, id)
    requires es[i - 1].Deployed? && WellFormed(env, es[i - 1].f) && !Unaffected(ss[i - 1], es[i - 1].f, id)
    requires id in NodeMap(es[i - 1].f.nodes) && p in EffectiveOutputs(env, NodeMap(es[i - 1].f.nodes)[id])
    requires n < |Targets(es[i - 1].f.wires, NodePort(id, p))|
    ensures p in ss[k].nodes[id].outputs
    ensures var to := Targets(es[i - 1].f.wires, NodePort(id, p));
            n < Reached(ss[k].nodes[id].outputs[p], ss[k].closed) <==>
            forall m :: 0 <= m <= n ==> Undisturbed(ss, i, k, to[m])
  {
    hide Next, WellFormed, Targets, NodeMap, EffectiveOutputs, Unaffected, Serves, SamePrint;
    var to := Targets(es[i - 1].f.wires, NodePort(id, p));
    KeptSenderExact(env, ss, es, i, k, id, p, n);
    var held := ss[k].nodes[id].outputs[p];
    forall m | 0 <= m <= n ensures m < |held| && (held[m] !in ss[k].closed <==> Undisturbed(ss, i, k, to[m])) {
      KeptSenderExact(env, ss, es, i, k, id, p, m);
      OpenIffUndisturbed(env, ss, es, i, k, to[m], held[m]);
    }
  }

  lemma OpenIffUndisturbed(env: Env, ss: seq<State>, es: seq<Event>, i: nat, k: nat, key: NodePort, w: WireId)
    requires History(env, ss, es) && i <= k < |ss|
    requires Serves(ss[k], key, w) <==> forall j :: i <= j <= k ==> SamePrint(ss[i], ss[j], key)
    requires !Serves(ss[k], key, w) ==> w in ss[k].closed
    ensures w !in ss[k].closed <==> Undisturbed(ss, i, k, key)
  {
    HistoryKeeps(env, ss, es, k);
    InvMaps(env, ss[k]);
  }
}

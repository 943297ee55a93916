/**
 The drain loop racing with enqueues on one store-and-forward queue, without crashes. Peek, the
 delivery and Remove are separate steps, and any number of enqueues, with their evictions, may
 fall between them.
 */
module Drain {
  import opened Bytes
  import opened StoreForward

  /** Where the loop stands: about to peek, waiting for a delivery's outcome, or about to remove. */
  datatype Phase = Idle | Delivering(id: nat, payload: seq<Byte>) | Delivered(id: nat)

  /** What has become of an enqueued entry: still queued, taken out after its delivery, or dropped. */
  datatype Fate = Queued | Removed | DroppedByBounds | DroppedAsCorrupt

  /** The queue and the loop, with the deliveries made, the fate of every entry ever enqueued, the sum of
      the drop counts that Enqueue returned, what was enqueued and what was delivered under each number. */
  datatype State = State(q: Queue, phase: Phase, delivered: seq<nat>, fate: map<nat, Fate>, reported: nat,
                         stored: map<nat, File>, sent: map<nat, seq<Byte>>)

  datatype Step =
    | DoEnqueue(f: File, io: Io)
    | DoPeek
    | DeliverFails
    | DeliverSucceeds
    | DoRemove
    | Decay(id: nat, f: File)  // a file on disk goes bad

  /** The fates once the queue holds `order`: a queued or new entry that is no longer there was dropped. */
  function Recount(fate: map<nat, Fate>, next: nat, order: seq<nat>): map<nat, Fate> {
    map id | id in fate.Keys + {next} ::
      if id in order then Queued
      else if id in fate && !fate[id].Queued? then fate[id]
      else DroppedByBounds
  }

  function AfterEnqueue(s: State, f: File, io: Io): State
    requires f.Good?
  {
    match Enqueue(s.q, f, io)
    case Failed(q) => s.(q := q)
    case Stored(q, dropped) =>
      s.(q := q, fate := Recount(s.fate, s.q.nextSeq, q.order), reported := s.reported + dropped,
         stored := s.stored[s.q.nextSeq := f])
  }

  function AfterPeek(s: State): State {
    match Peek(s.q)
    case (q, Nothing) =>
      s.(q := q, fate := if s.q.order == [] then s.fate else s.fate[s.q.order[0] := DroppedAsCorrupt])
    case (q, Head(id, payload, _)) => s.(phase := Delivering(id, payload))
  }

  function AfterRemove(s: State): State
    requires s.phase.Delivered?
  {
    s.(phase := Idle, q := Remove(s.q, s.phase.id),
       fate := if s.phase.id in s.q.order then s.fate[s.phase.id := Removed] else s.fate)
  }

  function Next(s: State, step: Step): State {
    match step
    case DoEnqueue(f, io) => if f.Good? then AfterEnqueue(s, f, io) else s
    case DoPeek => if s.phase.Idle? then AfterPeek(s) else s
    case DeliverFails => if s.phase.Delivering? then s.(phase := Idle) else s
    case DeliverSucceeds =>
      if s.phase.Delivering? then
        s.(phase := Delivered(s.phase.id), delivered := s.delivered + [s.phase.id],
           sent := s.sent[s.phase.id := s.phase.payload])
      else s
    case DoRemove => if s.phase.Delivered? then AfterRemove(s) else s
    case Decay(id, f) =>
      if id in s.q.disk.files && !f.Good? then s.(q := s.q.(disk := s.q.disk.(files := s.q.disk.files[id := f]))) else s
  }

  function Run(s: State, steps: seq<Step>): State {
    if steps == [] then s else Next(Run(s, steps[..|steps| - 1]), steps[|steps| - 1])
  }

  /** A drain started on a freshly opened queue: what is on disk counts as enqueued. */
  ghost predicate Init(s: State) {
    && Inv(s.q) && s.phase.Idle? && s.delivered == [] && s.reported == 0
    && s.fate == (map id | id in s.q.order :: Queued) && s.stored == s.q.disk.files && s.sent == map[]
  }

  // ----- The invariant -----

  /** Delivered numbers rise, and whatever the loop holds or will still find lies beyond them. */
  ghost predicate Ordered(order: seq<nat>, phase: Phase, delivered: seq<nat>) {
    && Increasing(delivered)
    && (forall d, id :: d in delivered && id in order ==> d < id || phase == Delivered(id))
    && (phase.Delivering? ==> forall d :: d in delivered ==> d < phase.id)
    && (phase.Delivering? ==> forall id :: id in order ==> phase.id <= id)
    && (phase.Delivered? ==> phase.id in delivered && forall d :: d in delivered ==> d <= phase.id)
  }

  ghost predicate Traced(s: State) {
    && (forall id :: id in s.q.order <==> id in s.fate && s.fate[id].Queued?)
    && (forall id :: id in s.fate ==> id < s.q.nextSeq)
    && (forall id :: id in s.fate && s.fate[id].Removed? ==> id in s.delivered)
    && (forall id :: id in s.delivered ==> id in s.fate && !s.fate[id].DroppedAsCorrupt?)
    && (s.phase.Delivering? ==> s.phase.id in s.fate && !s.fate[s.phase.id].DroppedAsCorrupt?)
  }

  ghost function DroppedSet(fate: map<nat, Fate>): set<nat> {
    set id | id in fate && fate[id].DroppedByBounds?
  }

  ghost predicate Good(s: State) {
    && Inv(s.q) && Ordered(s.q.order, s.phase, s.delivered) && Traced(s)
    && s.reported == |DroppedSet(s.fate)| && s.fate.Keys == s.stored.Keys
  }

  // ----- Each step keeps it -----

  function ToSet(s: seq<nat>): set<nat> { set x | x in s }

  lemma {:induction false} ToSetSize(order: seq<nat>)
    requires Increasing(order)
    ensures |ToSet(order)| == |order|
  {
    if order == [] {
      assert ToSet(order) == {};
    } else {
      ToSetSize(order[1..]);
      assert ToSet(order) == {order[0]} + ToSet(order[1..]);
    }
  }

  /** Cutting k entries off the front loses exactly k entries. */
  lemma CutSize(order: seq<nat>, k: nat)
    requires Increasing(order) && k <= |order|
    ensures |ToSet(order[..k])| == k
  {
    ToSetSize(order[..k]);
  }

  /** An entry counts as dropped by the bounds afterwards iff it did before or is among those cut off. */
  lemma RecountOne(s: State, next: nat, all: seq<nat>, k: nat, id: nat)
    requires Traced(s) && s.q.nextSeq == next && all == s.q.order + [next] && k <= |all| && Increasing(all)
    ensures var fate := Recount(s.fate, next, all[k..]);
            id in DroppedSet(fate) <==> id in DroppedSet(s.fate) || id in ToSet(all[..k])
    ensures !(id in DroppedSet(s.fate) && id in ToSet(all[..k]))
  {
    CutDisjoint(all, k);
    assert id in all <==> id in s.q.order || id == next;
    assert id in all[..k] ==> id in all;
  }

  lemma UnionSize(a: set<nat>, b: set<nat>, u: set<nat>)
    requires a !! b && u == a + b
    ensures |u| == |a| + |b|
  {
  }

  lemma RecountDrops(s: State, next: nat, all: seq<nat>, k: nat)
    requires Traced(s) && s.q.nextSeq == next && all == s.q.order + [next] && k <= |all| && Increasing(all)
    ensures |DroppedSet(Recount(s.fate, next, all[k..]))| == |DroppedSet(s.fate)| + k
  {
    hide Traced, Increasing, DroppedSet, ToSet, Recount;
    var before, lost, after := DroppedSet(s.fate), ToSet(all[..k]), DroppedSet(Recount(s.fate, next, all[k..]));
    forall id: nat ensures (id in after <==> id in before || id in lost) && !(id in before && id in lost) {
      RecountOne(s, next, all, k, id);
    }
    CutSize(all, k);
    UnionSize(before, lost, after);
  }

  /** Entries leaving the queue, and a new one beyond all others joining it, disturb no order. */
  lemma OrderedShrinks(order: seq<nat>, less: seq<nat>, phase: Phase, delivered: seq<nat>, next: nat)
    requires Ordered(order, phase, delivered) && forall id :: id in less ==> id in order || id == next
    requires (forall d :: d in delivered ==> d < next) && (phase.Delivering? ==> phase.id < next)
    ensures Ordered(less, phase, delivered)
  {
  }

  lemma TracedAfterEnqueue(s: State, t: State, all: seq<nat>, k: nat)
    requires Traced(s) && all == s.q.order + [s.q.nextSeq] && k <= |all|
    requires t.q.order == all[k..] && t.q.nextSeq == s.q.nextSeq + 1
    requires t.phase == s.phase && t.delivered == s.delivered && t.fate == Recount(s.fate, s.q.nextSeq, all[k..])
    ensures Traced(t)
  {
    assert forall id :: id in all <==> id in s.q.order || id == s.q.nextSeq;
    assert forall id :: id in all[k..] ==> id in all;
  }

  lemma AppendShape(q: Queue, f: File)
    ensures Append(q, f).order == q.order + [q.nextSeq] && Append(q, f).nextSeq == q.nextSeq + 1
  {
  }

  lemma InvIncreasing(q: Queue)
    requires Inv(q)
    ensures Increasing(q.order)
  {
  }

  /** A stored entry goes to the end, and some number of entries goes from the front. */
  lemma EnqueueShape(q: Queue, f: File)
    requires Inv(q) && f.Good?
    ensures var r := Enqueue(q, f, Written); var all := q.order + [q.nextSeq];
            r.Stored? && Inv(r.q) && r.dropped <= |all| && r.q.order == all[r.dropped..]
            && r.q.nextSeq == q.nextSeq + 1 && Increasing(all)
  {
    hide Suffix, Fits, AgeCut, Enqueue, Inv, Append, Increasing;
    EnqueueOptimal(q, f);
    var all, r := Append(q, f), Enqueue(q, f, Written);
    SuffixInv(r.q, all, r.dropped);
    InvIncreasing(all);
    AppendShape(q, f);
  }

  lemma EnqueueKeeps(s: State, f: File)
    requires Good(s) && f.Good?
    ensures Good(AfterEnqueue(s, f, Written))
  {
    hide Enqueue, Inv, Ordered, DroppedSet, Recount, Increasing, Traced;
    EnqueueShape(s.q, f);
    BelowNext(s);
    var all, r, t := s.q.order + [s.q.nextSeq], Enqueue(s.q, f, Written), AfterEnqueue(s, f, Written);
    CutElements(s.q.order, s.q.nextSeq, r.dropped);
    OrderedShrinks(s.q.order, r.q.order, s.phase, s.delivered, s.q.nextSeq);
    TracedAfterEnqueue(s, t, all, r.dropped);
    RecountDrops(s, s.q.nextSeq, all, r.dropped);
    RecountKeys(s.fate, s.q.nextSeq, r.q.order);
  }

  lemma BelowNext(s: State)
    requires Traced(s)
    ensures (forall d :: d in s.delivered ==> d < s.q.nextSeq) && (s.phase.Delivering? ==> s.phase.id < s.q.nextSeq)
  {
  }

  lemma CutElements(order: seq<nat>, next: nat, k: nat)
    requires k <= |order| + 1
    ensures forall id :: id in (order + [next])[k..] ==> id in order || id == next
  {
  }

  lemma RecountKeys(fate: map<nat, Fate>, next: nat, order: seq<nat>)
    ensures Recount(fate, next, order).Keys == fate.Keys + {next}
  {
  }

  lemma FailedEnqueueKeeps(s: State, f: File, io: Io)
    requires Good(s) && f.Good? && !io.Written?
    ensures Good(AfterEnqueue(s, f, io))
  {
    FailedKeepsInv(s.q, f, io);
    hide Inv, Ordered, DroppedSet;
    assert AfterEnqueue(s, f, io).q.nextSeq == s.q.nextSeq + 1;
  }

  lemma RemovedElements(q: Queue, id: nat)
    requires Inv(q)
    ensures Inv(Remove(q, id)) && Remove(q, id).nextSeq == q.nextSeq
    ensures forall x :: x in Remove(q, id).order <==> x in q.order && x != id
  {
    RemoveKeepsInv(q, id);
    WithoutHead(q.order, id);
  }

  /** The oldest entry is the smallest number queued. */
  lemma HeadIsLeast(q: Queue)
    requires Inv(q) && q.order != []
    ensures q.order[0] in q.order && forall id :: id in q.order ==> q.order[0] <= id
  {
    forall id | id in q.order ensures q.order[0] <= id {
      var i :| 0 <= i < |q.order| && q.order[i] == id;
    }
  }

  lemma SameDropped(fate: map<nat, Fate>, id: nat, f: Fate)
    requires id in fate && fate[id].Queued? && !f.DroppedByBounds?
    ensures DroppedSet(fate[id := f]) == DroppedSet(fate)
  {
  }

  lemma CorruptPeekKeeps(s: State)
    requires Good(s) && s.phase.Idle? && s.q.order != []
    ensures Good(s.(q := Remove(s.q, s.q.order[0]), fate := s.fate[s.q.order[0] := DroppedAsCorrupt]))
  {
    hide Inv, Remove, DroppedSet;
    RemovedElements(s.q, s.q.order[0]);
    SameDropped(s.fate, s.q.order[0], DroppedAsCorrupt);
  }

  lemma PeekKeeps(s: State)
    requires Good(s) && s.phase.Idle?
    ensures Good(AfterPeek(s))
  {
    hide Inv, Remove, DroppedSet;
    if s.q.order != [] {
      CorruptPeekKeeps(s);
      HeadIsLeast(s.q);
    }
  }

  lemma RemoveKeeps(s: State)
    requires Good(s) && s.phase.Delivered?
    ensures Good(AfterRemove(s))
  {
    hide Inv, Remove, DroppedSet;
    RemovedElements(s.q, s.phase.id);
    if s.phase.id in s.q.order { SameDropped(s.fate, s.phase.id, Removed); }
  }

  lemma DeliverKeeps(s: State)
    requires Good(s) && s.phase.Delivering?
    ensures Good(Next(s, DeliverSucceeds))
  {
    hide Inv, DroppedSet;
    var t := Next(s, DeliverSucceeds);
    assert forall d :: d in t.delivered <==> d in s.delivered || d == s.phase.id;
    assert forall i :: 0 <= i < |s.delivered| ==> s.delivered[i] in s.delivered;
  }

  lemma DecayKeeps(s: State, id: nat, f: File)
    requires Good(s)
    ensures Good(Next(s, Decay(id, f)))
  {
    hide Sum, DroppedSet, Ordered;
  }

  lemma NextKeeps(s: State, step: Step)
    requires Good(s)
    ensures Good(Next(s, step))
  {
    match step
    case DoEnqueue(f, io) =>
      if f.Good? { if io.Written? { EnqueueKeeps(s, f); } else { FailedEnqueueKeeps(s, f, io); } }
    case DoPeek => if s.phase.Idle? { PeekKeeps(s); }
    case DeliverFails =>
    case DeliverSucceeds => if s.phase.Delivering? { DeliverKeeps(s); }
    case DoRemove => if s.phase.Delivered? { RemoveKeeps(s); }
    case Decay(id, f) => DecayKeeps(s, id, f);
  }

  lemma InitGood(s: State)
    requires Init(s)
    ensures Good(s)
  {
    assert DroppedSet(s.fate) == {};
  }

  lemma {:induction false} RunKeeps(s: State, steps: seq<Step>)
    requires Init(s)
    ensures Good(Run(s, steps))
  {
    if steps == [] {
      InitGood(s);
    } else {
      hide Good, Next;
      RunKeeps(s, steps[..|steps| - 1]);
      NextKeeps(Run(s, steps[..|steps| - 1]), steps[|steps| - 1]);
    }
  }

  // ----- Contents -----

  /** Payload p is the one that was enqueued under this number. */
  ghost predicate SameAsStored(s: State, id: nat, p: seq<Byte>) {
    id in s.stored && s.stored[id].Good? && s.stored[id].payload == p
  }

  ghost predicate Intact(s: State) {
    && (forall id :: id in s.q.disk.files && s.q.disk.files[id].Good? ==>
                       SameAsStored(s, id, s.q.disk.files[id].payload))
    && (forall id :: id in s.stored ==> id < s.q.nextSeq)
    && (s.phase.Delivering? ==> SameAsStored(s, s.phase.id, s.phase.payload))
    && (forall id :: id in s.sent ==> SameAsStored(s, id, s.sent[id]))
    && (forall id :: id in s.delivered <==> id in s.sent)
  }

  lemma IntactGrows(s: State, t: State, f: File)
    requires Intact(s) && f.Good? && t.phase == s.phase && t.delivered == s.delivered && t.sent == s.sent
    requires t.stored == s.stored[s.q.nextSeq := f] && t.q.nextSeq == s.q.nextSeq + 1
    requires forall id :: id in t.q.disk.files ==>
               if id == s.q.nextSeq then t.q.disk.files[id] == f
               else id in s.q.disk.files && s.q.disk.files[id] == t.q.disk.files[id]
    ensures Intact(t)
  {
    forall id | id in t.q.disk.files && t.q.disk.files[id].Good?
      ensures SameAsStored(t, id, t.q.disk.files[id].payload)
    {
      if id != s.q.nextSeq { assert SameAsStored(s, id, s.q.disk.files[id].payload); }
    }
    forall id | id in t.sent ensures SameAsStored(t, id, t.sent[id]) {
      assert SameAsStored(s, id, s.sent[id]);
    }
  }

  lemma EnqueueKeepsIntact(s: State, f: File)
    requires Inv(s.q) && Intact(s) && f.Good?
    ensures Intact(AfterEnqueue(s, f, Written))
  {
    hide Enqueue, Suffix, Inv, Fits, AgeCut, Recount, Intact;
    EnqueueOptimal(s.q, f);
    var all, r, t := Append(s.q, f), Enqueue(s.q, f, Written), AfterEnqueue(s, f, Written);
    SuffixInv(r.q, all, r.dropped);
    SuffixFiles(r.q, all, r.dropped);
    IntactGrows(s, t, f);
  }

  lemma NextKeepsIntact(s: State, step: Step)
    requires Inv(s.q) && Intact(s)
    ensures Intact(Next(s, step))
  {
    hide Inv, Recount, Without;
    match step
    case DoEnqueue(f, io) => if f.Good? && io.Written? { EnqueueKeepsIntact(s, f); }
    case DoPeek =>
    case DeliverFails =>
    case DeliverSucceeds =>
    case DoRemove =>
    case Decay(id, f) =>
  }

  lemma {:induction false} RunKeepsIntact(s: State, steps: seq<Step>)
    requires Init(s)
    ensures Intact(Run(s, steps))
  {
    if steps == [] {
    } else {
      var n := |steps| - 1;
      RunKeepsIntact(s, steps[..n]);
      RunKeeps(s, steps[..n]);
      NextKeepsIntact(Run(s, steps[..n]), steps[n]);
    }
  }

  // ----- Main results -----

  /** In every interleaving, deliveries happen in strictly increasing order of enqueueing, so none twice. */
  lemma DeliversInOrder(s: State, steps: seq<Step>)
    requires Init(s)
    ensures Increasing(Run(s, steps).delivered)
  {
    hide Run, Inv, Traced, DroppedSet, Increasing;
    RunKeeps(s, steps);
  }

  /** Every entry ever enqueued has exactly one recorded fate: it is still queued, was removed after its
      delivery, or was dropped by the bounds or as corrupt. The drop counts Enqueue returned add up to the
      entries the bounds dropped. A delivered entry that an enqueue evicts before its Remove is among those:
      it is delivered and counted as dropped; no delivered entry is ever dropped as corrupt. */
  lemma NothingVanishes(s: State, steps: seq<Step>)
    requires Init(s)
    ensures var t := Run(s, steps);
            && t.fate.Keys == t.stored.Keys && Inv(t.q) && t.reported == |DroppedSet(t.fate)|
            && (forall id :: id in t.stored ==>
                  id in t.q.order || id in t.delivered || t.fate[id].DroppedByBounds? || t.fate[id].DroppedAsCorrupt?)
            && (forall id :: id in t.stored ==> (id in t.q.order <==> t.fate[id].Queued?))
            && (forall id :: id in t.stored && t.fate[id].Removed? ==> id in t.delivered)
            && (forall id :: id in t.delivered ==>
                  id in t.stored && (t.fate[id].Removed? || t.fate[id].DroppedByBounds? || t.phase == Delivered(id)))
  {
    hide Run, Inv, DroppedSet, Increasing;
    RunKeeps(s, steps);
    var t := Run(s, steps);
    forall id | id in t.delivered && t.fate[id].Queued? ensures t.phase == Delivered(id) { assert id in t.q.order; }
  }

  /** That overlap does happen: one entry is delivered, an enqueue beyond the size bound evicts it, and the
      Remove that follows finds nothing. */
  lemma DeliveredAndDropped(s: State, f: File)
    requires Init(s) && |s.q.order| == 1 && s.q.disk.files[s.q.order[0]].Good?
    requires f.Good? && s.q.maxSize > 0 && f.size > s.q.maxSize
    ensures var id := s.q.order[0];
            var t := Run(s, [] + [DoPeek] + [DeliverSucceeds] + [DoEnqueue(f, Written)]);
            t.delivered == [id] && id in t.fate && t.fate[id] == DroppedByBounds
  {
    var id := s.q.order[0];
    assert id in s.q.order;
    Unroll(s, [], DoPeek);
    Unroll(s, [] + [DoPeek], DeliverSucceeds);
    Unroll(s, [] + [DoPeek] + [DeliverSucceeds], DoEnqueue(f, Written));
    var d := Run(s, [] + [DoPeek] + [DeliverSucceeds]);
    assert d.q == s.q && d.delivered == [id] && d.fate == s.fate;
    hide Run;
    OversizedEmpties(s.q, f);
    hide Enqueue;
  }

  /** An entry over the size bound takes the whole queue with it. */
  lemma OversizedEmpties(q: Queue, f: File)
    requires Inv(q) && f.Good? && q.maxSize > 0 && f.size > q.maxSize
    ensures Enqueue(q, f, Written).Stored? && Enqueue(q, f, Written).q.order == []
  {
    hide Enqueue, AgeCut, Fits, Append, Inv;
    EnqueueOptimal(q, f);
    NewEntryLost(q, f);
    AppendShape(q, f);
    var all, r := Append(q, f), Enqueue(q, f, Written);
    LastInSuffix(q.order, q.nextSeq, r.dropped);
  }

  lemma Unroll(s: State, steps: seq<Step>, step: Step)
    ensures Run(s, steps + [step]) == Next(Run(s, steps), step)
  {
    assert (steps + [step])[..|steps|] == steps;
  }

  /** Once the loop is idle, nothing delivered is still queued. */
  lemma DeliveredIsGone(s: State, steps: seq<Step>, id: nat)
    requires Init(s) && Run(s, steps).phase.Idle? && id in Run(s, steps).delivered
    ensures id !in Run(s, steps).q.order
  {
    hide Run, Inv, Traced, DroppedSet, Increasing;
    RunKeeps(s, steps);
  }

  /** A delivered payload is, byte for byte, the one enqueued under that number. */
  lemma DeliversWhatWasStored(s: State, steps: seq<Step>, id: nat)
    requires Init(s) && id in Run(s, steps).delivered
    ensures var t := Run(s, steps); id in t.sent && SameAsStored(t, id, t.sent[id])
  {
    hide Run, SameAsStored;
    RunKeepsIntact(s, steps);
  }

  // ----- What the loop gets done -----

  /** The entries with an intact file, in order. */
  function Intacts(order: seq<nat>, files: map<nat, File>): seq<nat> {
    if order == [] then []
    else (if order[0] in files && files[order[0]].Good? then [order[0]] else []) + Intacts(order[1..], files)
  }

  /** n rounds of the loop in which every delivery succeeds. */
  function Rounds(n: nat): seq<Step> {
    if n == 0 then [] else Rounds(n - 1) + [DoPeek] + [DeliverSucceeds] + [DoRemove]
  }

  function OneRound(s: State): State { Next(Next(Next(s, DoPeek), DeliverSucceeds), DoRemove) }

  /** One round takes the oldest entry out and delivers it if its file is intact; the others stay as they are. */
  lemma RoundExact(s: State)
    requires Good(s) && s.phase.Idle? && s.q.order != []
    ensures var t, id := OneRound(s), s.q.order[0];
            && Good(t) && t.phase.Idle? && t.q.order == s.q.order[1..]
            && t.q.disk.files == s.q.disk.files - {id}
            && t.delivered == s.delivered + if s.q.disk.files[id].Good? then [id] else []
  {
    hide Good, Next;
    NextKeeps(s, DoPeek);
    NextKeeps(Next(s, DoPeek), DeliverSucceeds);
    NextKeeps(Next(Next(s, DoPeek), DeliverSucceeds), DoRemove);
    RoundDoes(s);
  }

  lemma RoundDoes(s: State)
    requires Good(s) && s.phase.Idle? && s.q.order != []
    ensures s.q.order[0] in s.q.disk.files
    ensures var t, id := OneRound(s), s.q.order[0];
            && t.phase.Idle? && t.q.order == s.q.order[1..] && t.q.disk.files == s.q.disk.files - {id}
            && t.delivered == s.delivered + if s.q.disk.files[id].Good? then [id] else []
  {
    hide Ordered, Traced, DroppedSet, Sum;
    assert s.q.order[0] in s.q.order;
  }

  /** A delivery that fails leaves everything as it was: the next round takes the same entry again. */
  lemma FailedDeliveryRetries(s: State)
    requires Good(s) && s.phase.Idle? && s.q.order != [] && s.q.order[0] in s.q.disk.files
    requires s.q.disk.files[s.q.order[0]].Good?
    ensures Next(Next(s, DoPeek), DeliverFails) == s && Next(s, DoPeek).phase.Delivering?
    ensures Next(s, DoPeek).phase.id == s.q.order[0]
  {
  }

  lemma {:induction false} IntactsIgnore(order: seq<nat>, files: map<nat, File>, id: nat)
    requires id !in order
    ensures Intacts(order, files - {id}) == Intacts(order, files)
  {
    if order == [] {
    } else {
      IntactsIgnore(order[1..], files, id);
    }
  }

  lemma RunRounds(s: State, steps: seq<Step>, n: nat)
    ensures Run(s, steps + Rounds(n + 1)) == OneRound(Run(s, steps + Rounds(n)))
  {
    var r := steps + Rounds(n);
    Unroll(s, r, DoPeek);
    Unroll(s, r + [DoPeek], DeliverSucceeds);
    Unroll(s, r + [DoPeek] + [DeliverSucceeds], DoRemove);
    assert steps + Rounds(n + 1) == r + [DoPeek] + [DeliverSucceeds] + [DoRemove];
  }

  /** After any run in which the loop is between rounds, n further rounds in which every delivery succeeds deliver the
      intact ones among the n oldest entries, in order, and leave the others. As many rounds as there are entries
      deliver all that is intact and empty the queue. */
  lemma {:induction false} DrainsAll(s: State, steps: seq<Step>, n: nat)
    requires Init(s) && Run(s, steps).phase.Idle? && n <= |Run(s, steps).q.order|
    ensures var r, t := Run(s, steps), Run(s, steps + Rounds(n));
            && t.phase.Idle? && t.q.order == r.q.order[n..]
            && t.delivered + Intacts(t.q.order, t.q.disk.files) == r.delivered + Intacts(r.q.order, r.q.disk.files)
            && (n == |r.q.order| ==> t.q.order == [] && t.delivered == r.delivered + Intacts(r.q.order, r.q.disk.files))
    decreases n
  {
    hide Run, Good, Next, Intacts, Init;
    if n == 0 {
      assert steps + Rounds(0) == steps;
    } else {
      DrainsAll(s, steps, n - 1);
      RunRounds(s, steps, n - 1);
      var r, m := Run(s, steps), Run(s, steps + Rounds(n - 1));
      RunKeeps(s, steps + Rounds(n - 1));
      RoundExact(m);
      IntactsStep(m);
    }
    NoIntacts(Run(s, steps + Rounds(n)).q.disk.files);
  }

  lemma NoIntacts(files: map<nat, File>)
    ensures Intacts([], files) == []
  {
  }

  lemma IntactsStep(m: State)
    requires Good(m) && m.q.order != []
    ensures m.q.order[0] in m.q.disk.files
    ensures var id, files := m.q.order[0], m.q.disk.files;
            (if files[id].Good? then [id] else []) + Intacts(m.q.order[1..], files - {id}) == Intacts(m.q.order, files)
  {
    hide Ordered, Traced, DroppedSet, Sum;
    assert m.q.order[0] in m.q.order && m.q.order[0] !in m.q.order[1..];
    IntactsIgnore(m.q.order[1..], m.q.disk.files, m.q.order[0]);
  }
}

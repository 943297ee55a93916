/**
 The windowed join of the merge node. Arrivals on ports a and b wait under their key for a
 partner; every arrival is followed from the moment it comes in to the one fate it meets.
 */
module Join {

  type Key = string

  datatype Port = A | B

  /** `left` is joinType "left"; the window is checked positive when the node is built. */
  datatype Config = Config(window: int, left: bool)

  /** A waiting arrival: its number in the order of arrival, and when it came. */
  datatype Item = Item(id: nat, at: int)

  datatype Pending = Pending(a: map<Key, Item>, b: map<Key, Item>)

  datatype Arrival = Arrival(port: Port, key: Key, at: int)

  /** A joined pair (a side first), or an a-side arrival emitted with a nil partner. */
  datatype Output = Pair(a: nat, b: nat) | LeftOnly(a: nat)

  function Mine(p: Pending, port: Port): map<Key, Item> { if port.A? then p.a else p.b }
  function Other(p: Pending, port: Port): map<Key, Item> { if port.A? then p.b else p.a }

  predicate Stale(cfg: Config, it: Item, now: int) { now - it.at > cfg.window }

  predicate Matches(cfg: Config, p: Pending, x: Arrival) {
    x.key in Other(p, x.port) && !Stale(cfg, Other(p, x.port)[x.key], x.at)
  }

  function WithSides(port: Port, mine: map<Key, Item>, other: map<Key, Item>): Pending {
    if port.A? then Pending(mine, other) else Pending(other, mine)
  }

  /** What waits once the arrival has been matched or put down, before the expiry sweep. */
  function Placed(cfg: Config, p: Pending, x: Arrival, id: nat): Pending {
    WithSides(x.port,
              if Matches(cfg, p, x) then Mine(p, x.port) else Mine(p, x.port)[x.key := Item(id, x.at)],
              Other(p, x.port) - {x.key})
  }

  function Fresh(cfg: Config, m: map<Key, Item>, now: int): map<Key, Item> {
    map k | k in m && !Stale(cfg, m[k], now) :: m[k]
  }

  function Swept(cfg: Config, p: Pending, now: int): Pending {
    Pending(Fresh(cfg, p.a, now), Fresh(cfg, p.b, now))
  }

  function Next(cfg: Config, p: Pending, x: Arrival, id: nat): Pending {
    Swept(cfg, Placed(cfg, p, x, id), x.at)
  }

  function PairOf(x: Arrival, id: nat, other: nat): Output {
    if x.port.A? then Pair(id, other) else Pair(other, id)
  }

  function Matched(cfg: Config, p: Pending, x: Arrival, id: nat): set<Output> {
    if Matches(cfg, p, x) then {PairOf(x, id, Other(p, x.port)[x.key].id)} else {}
  }

  /** What the sweep emits: under a left join, each stale a-side item. */
  function SweptOut(cfg: Config, p: Pending, now: int): set<Output> {
    if cfg.left then set k | k in p.a && Stale(cfg, p.a[k], now) :: LeftOnly(p.a[k].id) else {}
  }

  function Emits(cfg: Config, p: Pending, x: Arrival, id: nat): set<Output> {
    Matched(cfg, p, x, id) + SweptOut(cfg, Placed(cfg, p, x, id), x.at)
  }

  // ----- What becomes of every arrival -----

  datatype Fate =
    | Waiting
    | Joined(partner: nat)
    | LeftEmitted
    | Replaced   // a later arrival on the same port with the same key took its place
    | StaleHit   // found too old by an arrival on the other port with the same key
    | Expired    // swept away without being emitted

  datatype History = History(p: Pending, arrivals: seq<Arrival>, fates: seq<Fate>, outputs: set<Output>)

  /** The fate of arrival i once the next arrival x (numbered |h.arrivals|) has been placed. */
  function PlacedFate(cfg: Config, h: History, x: Arrival, i: nat): Fate
    requires i <= |h.arrivals| == |h.fates|
  {
    var mine, other := Mine(h.p, x.port), Other(h.p, x.port);
    if i == |h.arrivals| then (if Matches(cfg, h.p, x) then Joined(other[x.key].id) else Waiting)
    else if x.key in other && other[x.key].id == i then
      (if Matches(cfg, h.p, x) then Joined(|h.arrivals|) else StaleHit)
    else if !Matches(cfg, h.p, x) && x.key in mine && mine[x.key].id == i then Replaced
    else h.fates[i]
  }

  function Place(cfg: Config, h: History, x: Arrival): (r: History)
    requires |h.arrivals| == |h.fates|
    ensures |r.arrivals| == |r.fates|
  {
    var n := |h.arrivals|;
    History(Placed(cfg, h.p, x, n), h.arrivals + [x],
            seq(n + 1, i requires 0 <= i < n + 1 => PlacedFate(cfg, h, x, i)),
            h.outputs + Matched(cfg, h.p, x, n))
  }

  /** Arrival i is the item waiting on its own port under its own key. */
  predicate Waits(p: Pending, x: Arrival, i: nat) {
    x.key in Mine(p, x.port) && Mine(p, x.port)[x.key] == Item(i, x.at)
  }

  function SweptFate(cfg: Config, h: History, i: nat, now: int): Fate
    requires i < |h.arrivals| == |h.fates|
  {
    var x := h.arrivals[i];
    if Waits(h.p, x, i) && Stale(cfg, Item(i, x.at), now)
    then (if cfg.left && x.port.A? then LeftEmitted else Expired) else h.fates[i]
  }

  function Sweep(cfg: Config, h: History, now: int): (r: History)
    requires |h.arrivals| == |h.fates|
    ensures |r.arrivals| == |r.fates|
  {
    History(Swept(cfg, h.p, now), h.arrivals,
            seq(|h.fates|, i requires 0 <= i < |h.fates| => SweptFate(cfg, h, i, now)),
            h.outputs + SweptOut(cfg, h.p, now))
  }

  /** One call of the join with everything that ever happened recorded beside the node's own state. */
  function Step(cfg: Config, h: History, x: Arrival): (r: History)
    requires |h.arrivals| == |h.fates|
    ensures |r.arrivals| == |r.fates|
    ensures r.arrivals == h.arrivals + [x] && r.p == Next(cfg, h.p, x, |h.arrivals|)
    ensures r.outputs == h.outputs + Emits(cfg, h.p, x, |h.arrivals|)
  {
    Sweep(cfg, Place(cfg, h, x), x.at)
  }

  function Run(cfg: Config, xs: seq<Arrival>): (h: History)
    ensures h.arrivals == xs && |h.fates| == |xs|
  {
    if xs == [] then History(Pending(map[], map[]), [], [], {})
    else Step(cfg, Run(cfg, xs[..|xs| - 1]), xs[|xs| - 1])
  }

  ghost predicate ClockAdvances(xs: seq<Arrival>) {
    forall i, j :: 0 <= i < j < |xs| ==> xs[i].at <= xs[j].at
  }

  // ----- The invariant -----

  ghost predicate Partners(cfg: Config, h: History, i: nat, j: nat)
    requires i < |h.arrivals| == |h.fates|
  {
    && j < |h.arrivals| && h.fates[j] == Joined(i)
    && h.arrivals[i].port != h.arrivals[j].port && h.arrivals[i].key == h.arrivals[j].key
    && -cfg.window <= h.arrivals[i].at - h.arrivals[j].at <= cfg.window
  }

  /** Everything waiting on one side is a numbered arrival of that side. */
  ghost predicate SideOk(h: History, port: Port, now: int)
  {
    forall k :: k in Mine(h.p, port) ==> ItemOk(h, port, k, Mine(h.p, port)[k], now)
  }

  ghost predicate ItemOk(h: History, port: Port, k: Key, it: Item, now: int) {
    it.id < |h.arrivals| && h.arrivals[it.id] == Arrival(port, k, it.at) && it.at <= now
  }

  ghost predicate FateOk(cfg: Config, h: History, i: nat)
    requires i < |h.arrivals| == |h.fates|
  {
    && (h.fates[i].Waiting? <==> Waits(h.p, h.arrivals[i], i))
    && (h.fates[i].Joined? ==> Partners(cfg, h, i, h.fates[i].partner))
    && (h.fates[i].LeftEmitted? ==> cfg.left && h.arrivals[i].port.A?)
    && (h.fates[i].Expired? ==> !(cfg.left && h.arrivals[i].port.A?))
  }

  ghost predicate OutputOk(h: History, o: Output)
    requires |h.arrivals| == |h.fates|
  {
    match o
    case Pair(a, b) => a < |h.arrivals| && h.arrivals[a].port.A? && h.fates[a] == Joined(b)
    case LeftOnly(a) => a < |h.arrivals| && h.fates[a] == LeftEmitted
  }

  ghost predicate Inv(cfg: Config, h: History, now: int) {
    && |h.arrivals| == |h.fates|
    && h.p.a.Keys !! h.p.b.Keys
    && SideOk(h, A, now) && SideOk(h, B, now)
    && (forall i :: 0 <= i < |h.fates| ==> FateOk(cfg, h, i))
    && (forall o :: o in h.outputs <==> OutputOk(h, o))
  }

  ghost predicate NothingStale(cfg: Config, p: Pending, now: int) {
    && (forall k :: k in p.a ==> !Stale(cfg, p.a[k], now))
    && (forall k :: k in p.b ==> !Stale(cfg, p.b[k], now))
  }

  lemma PlaceKeepsSides(cfg: Config, h: History, x: Arrival, last: int)
    requires Inv(cfg, h, last) && last <= x.at
    ensures var s := Place(cfg, h, x); s.p.a.Keys !! s.p.b.Keys && SideOk(s, A, x.at) && SideOk(s, B, x.at)
  {
    hide FateOk, OutputOk;
    var s := Place(cfg, h, x);
    forall port, k | k in Mine(s.p, port) ensures ItemOk(s, port, k, Mine(s.p, port)[k], x.at) {
      if k in Mine(h.p, port) { assert ItemOk(h, port, k, Mine(h.p, port)[k], last); }
    }
  }

  /** The partner found under the arrival's key is a waiting arrival of the other port. */
  lemma PartnerFound(cfg: Config, h: History, x: Arrival, last: int)
    requires Inv(cfg, h, last) && x.key in Other(h.p, x.port)
    ensures var it := Other(h.p, x.port)[x.key];
            it.id < |h.arrivals| && h.arrivals[it.id] == Arrival(if x.port.A? then B else A, x.key, it.at) &&
            it.at <= last && h.fates[it.id].Waiting?
  {
    var port := if x.port.A? then B else A;
    assert Other(h.p, x.port) == Mine(h.p, port);
    var it := Mine(h.p, port)[x.key];
    assert ItemOk(h, port, x.key, it, last);
    assert FateOk(cfg, h, it.id);
  }

  lemma PlaceKeepsWaiting(cfg: Config, h: History, x: Arrival, last: int, i: nat)
    requires Inv(cfg, h, last) && last <= x.at && i <= |h.arrivals|
    ensures var s := Place(cfg, h, x); s.fates[i].Waiting? <==> Waits(s.p, s.arrivals[i], i)
  {
    hide OutputOk, Partners;
    var s := Place(cfg, h, x);
    if i < |h.arrivals| {
      assert FateOk(cfg, h, i);
      var y := h.arrivals[i];
      if x.key in Other(h.p, x.port) { PartnerFound(cfg, h, x, last); }
      if y.port == x.port && y.key != x.key {
        assert Waits(s.p, y, i) <==> Waits(h.p, y, i);
      }
    }
  }

  /** Only waiting arrivals ever change fate. */
  lemma PlaceChangesWaiting(cfg: Config, h: History, x: Arrival, last: int, i: nat)
    requires Inv(cfg, h, last) && i < |h.arrivals|
    ensures Place(cfg, h, x).fates[i] == h.fates[i] || h.fates[i].Waiting?
  {
    hide OutputOk, Partners;
    if x.key in Other(h.p, x.port) { PartnerFound(cfg, h, x, last); }
    if x.key in Mine(h.p, x.port) {
      assert ItemOk(h, x.port, x.key, Mine(h.p, x.port)[x.key], last);
      assert FateOk(cfg, h, Mine(h.p, x.port)[x.key].id);
    }
  }

  lemma PlaceKeepsFate(cfg: Config, h: History, x: Arrival, last: int, i: nat)
    requires Inv(cfg, h, last) && last <= x.at && i <= |h.arrivals|
    ensures FateOk(cfg, Place(cfg, h, x), i)
  {
    var s := Place(cfg, h, x);
    PlaceKeepsWaiting(cfg, h, x, last, i);
    if x.key in Other(h.p, x.port) { PartnerFound(cfg, h, x, last); }
    if i < |h.arrivals| {
      assert FateOk(cfg, h, i);
      PlaceChangesWaiting(cfg, h, x, last, i);
      if h.fates[i].Joined? {
        PlaceChangesWaiting(cfg, h, x, last, h.fates[i].partner);
      }
    }
  }

  lemma PlaceKeepsOutput(cfg: Config, h: History, x: Arrival, last: int, o: Output)
    requires Inv(cfg, h, last) && last <= x.at
    ensures o in Place(cfg, h, x).outputs <==> OutputOk(Place(cfg, h, x), o)
  {
    hide Partners, Waits;
    var n := |h.arrivals|;
    if x.key in Other(h.p, x.port) { PartnerFound(cfg, h, x, last); }
    if o.a < n { PlaceChangesWaiting(cfg, h, x, last, o.a); }
  }

  lemma PlaceKeepsInv(cfg: Config, h: History, x: Arrival, last: int)
    requires Inv(cfg, h, last) && last <= x.at
    ensures Inv(cfg, Place(cfg, h, x), x.at)
  {
    hide FateOk, OutputOk, SideOk, PlacedFate, Placed;
    var s := Place(cfg, h, x);
    PlaceKeepsSides(cfg, h, x, last);
    forall i | 0 <= i < |s.fates| ensures FateOk(cfg, s, i) { PlaceKeepsFate(cfg, h, x, last, i); }
    forall o ensures o in s.outputs <==> OutputOk(s, o) { PlaceKeepsOutput(cfg, h, x, last, o); }
  }

  lemma SweepKeepsSides(cfg: Config, h: History, now: int)
    requires Inv(cfg, h, now)
    ensures var s := Sweep(cfg, h, now);
            s.p.a.Keys !! s.p.b.Keys && SideOk(s, A, now) && SideOk(s, B, now) && NothingStale(cfg, s.p, now)
  {
    hide FateOk, OutputOk;
    var s := Sweep(cfg, h, now);
    forall port, k | k in Mine(s.p, port) ensures ItemOk(s, port, k, Mine(s.p, port)[k], now) {
      assert ItemOk(h, port, k, Mine(h.p, port)[k], now);
    }
  }

  lemma SweepKeepsFate(cfg: Config, h: History, now: int, i: nat)
    requires Inv(cfg, h, now) && i < |h.arrivals|
    ensures FateOk(cfg, Sweep(cfg, h, now), i)
  {
    hide OutputOk;
    var s := Sweep(cfg, h, now);
    assert FateOk(cfg, h, i);
    if h.fates[i].Joined? { assert FateOk(cfg, h, h.fates[i].partner); }
  }

  lemma SweepKeepsOutput(cfg: Config, h: History, now: int, o: Output)
    requires Inv(cfg, h, now)
    ensures o in Sweep(cfg, h, now).outputs <==> OutputOk(Sweep(cfg, h, now), o)
  {
    hide Partners;
    var s := Sweep(cfg, h, now);
    if o.a < |h.arrivals| {
      assert FateOk(cfg, h, o.a);
      if s.fates[o.a] != h.fates[o.a] && s.fates[o.a].LeftEmitted? {
        assert h.arrivals[o.a].key in h.p.a;
      }
    }
    if o in SweptOut(cfg, h.p, now) {
      var k :| k in h.p.a && Stale(cfg, h.p.a[k], now) && o == LeftOnly(h.p.a[k].id);
      assert ItemOk(h, A, k, Mine(h.p, A)[k], now);
    }
  }

  lemma StepKeepsInv(cfg: Config, h: History, x: Arrival, last: int)
    requires Inv(cfg, h, last) && last <= x.at
    ensures Inv(cfg, Step(cfg, h, x), x.at) && NothingStale(cfg, Step(cfg, h, x).p, x.at)
  {
    hide FateOk, OutputOk, SideOk, SweptFate, Place;
    PlaceKeepsInv(cfg, h, x, last);
    var m := Place(cfg, h, x);
    var s := Sweep(cfg, m, x.at);
    SweepKeepsSides(cfg, m, x.at);
    forall i | 0 <= i < |s.fates| ensures FateOk(cfg, s, i) { SweepKeepsFate(cfg, m, x.at, i); }
    forall o ensures o in s.outputs <==> OutputOk(s, o) { SweepKeepsOutput(cfg, m, x.at, o); }
  }

  // ----- Whole runs -----

  /** After every arrival of every run: no key waits on both sides, nothing waiting is older than the
      window, and fates, waiting items and outputs agree (see Inv). */
  lemma {:induction false} RunKeepsInv(cfg: Config, xs: seq<Arrival>)
    requires ClockAdvances(xs)
    ensures var h := Run(cfg, xs); var now := if xs == [] then 0 else xs[|xs| - 1].at;
            Inv(cfg, h, now) && NothingStale(cfg, h.p, now)
  {
    hide FateOk, OutputOk, ItemOk, Step;
    if xs != [] {
      var n := |xs| - 1;
      RunKeepsInv(cfg, xs[..n]);
      if n == 0 {
        assert Run(cfg, xs[..n]) == History(Pending(map[], map[]), [], [], {});
        EmptyInv(cfg, xs[n].at);
        StepKeepsInv(cfg, Run(cfg, xs[..n]), xs[n], xs[n].at);
      } else {
        StepKeepsInv(cfg, Run(cfg, xs[..n]), xs[n], xs[n - 1].at);
      }
    } else {
      EmptyInv(cfg, 0);
    }
  }

  lemma EmptyInv(cfg: Config, now: int)
    ensures Inv(cfg, History(Pending(map[], map[]), [], [], {}), now)
  {
  }

  ghost predicate Mentions(o: Output, i: nat) {
    match o case Pair(a, b) => i == a || i == b case LeftOnly(a) => i == a
  }

  /** Every pair ever emitted joins an a arrival and a b arrival with equal keys no further apart than the window. */
  lemma PairsAreJoins(cfg: Config, xs: seq<Arrival>, a: nat, b: nat)
    requires ClockAdvances(xs) && Pair(a, b) in Run(cfg, xs).outputs
    ensures a < |xs| && b < |xs| && xs[a].port.A? && xs[b].port.B? && xs[a].key == xs[b].key
    ensures -cfg.window <= xs[a].at - xs[b].at <= cfg.window
  {
    RunKeepsInv(cfg, xs);
    assert OutputOk(Run(cfg, xs), Pair(a, b));
    assert FateOk(cfg, Run(cfg, xs), a);
  }

  lemma OneOutput(cfg: Config, h: History, now: int, o: Output, o': Output, i: nat)
    requires Inv(cfg, h, now) && o in h.outputs && o' in h.outputs && Mentions(o, i) && Mentions(o', i)
    ensures o == o'
  {
    assert OutputOk(h, o) && OutputOk(h, o');
    assert FateOk(cfg, h, o.a) && FateOk(cfg, h, o'.a);
  }

  /** No arrival is in two outputs. */
  lemma OneOutputEach(cfg: Config, xs: seq<Arrival>, o: Output, o': Output, i: nat)
    requires ClockAdvances(xs) && o in Run(cfg, xs).outputs && o' in Run(cfg, xs).outputs
    requires Mentions(o, i) && Mentions(o', i)
    ensures o == o'
  {
    RunKeepsInv(cfg, xs);
    OneOutput(cfg, Run(cfg, xs), if xs == [] then 0 else xs[|xs| - 1].at, o, o', i);
  }

  ghost predicate Emitted(h: History, i: nat) {
    exists o :: o in h.outputs && Mentions(o, i)
  }

  lemma EmittedExact(cfg: Config, h: History, now: int, i: nat)
    requires Inv(cfg, h, now) && i < |h.fates|
    ensures Emitted(h, i) <==> h.fates[i].Joined? || h.fates[i].LeftEmitted?
  {
    assert FateOk(cfg, h, i);
    if h.fates[i].Joined? {
      var j := h.fates[i].partner;
      assert FateOk(cfg, h, j);
      var o := if h.arrivals[i].port.A? then Pair(i, j) else Pair(j, i);
      assert OutputOk(h, o) && Mentions(o, i);
    }
    if h.fates[i].LeftEmitted? {
      assert OutputOk(h, LeftOnly(i)) && Mentions(LeftOnly(i), i);
    }
    if Emitted(h, i) {
      var o :| o in h.outputs && Mentions(o, i);
      assert OutputOk(h, o) && FateOk(cfg, h, o.a);
    }
  }

  lemma FirstWaits(cfg: Config, x: Arrival)
    requires cfg.window > 0 && x.port.A?
    ensures Step(cfg, History(Pending(map[], map[]), [], [], {}), x) ==
            History(Pending(map[x.key := Item(0, x.at)], map[]), [x], [Waiting], {})
  {
    var h := Step(cfg, History(Pending(map[], map[]), [], [], {}), x);
    assert h.p.a == map[x.key := Item(0, x.at)] && h.p.b == map[];
    assert h.fates == [Waiting];
  }

  /** A left join does lose an a arrival that a b arrival of the same key finds too old. */
  lemma StaleLeftItemIsLost(cfg: Config, x: Arrival, y: Arrival)
    requires cfg.window > 0 && cfg.left
    requires x.port.A? && y.port.B? && x.key == y.key && y.at - x.at > cfg.window
    ensures Run(cfg, [x, y]).outputs == {} && Run(cfg, [x, y]).fates == [StaleHit, Waiting]
  {
    assert [x, y][..1] == [x] && [x][..0] == [];
    FirstWaits(cfg, x);
    var h := History(Pending(map[x.key := Item(0, x.at)], map[]), [x], [Waiting], {});
    assert h == Run(cfg, [x]);
    var m := Place(cfg, h, y);
    assert m.fates == [StaleHit, Waiting] && m.p.a == map[];
  }

  // ----- Conservation -----

  lemma {:induction false} ImageSize<T, U>(s: set<T>, f: T -> U, image: set<U>)
    requires forall x, y :: x in s && y in s && f(x) == f(y) ==> x == y
    requires forall x :: x in s ==> f(x) in image
    requires forall y :: y in image ==> exists x :: x in s && f(x) == y
    ensures |image| == |s|
  {
    if s == {} {
      assert image == {};
    } else {
      var x :| x in s;
      forall y | y in image - {f(x)} ensures exists z :: z in s - {x} && f(z) == y {
        var z :| z in s && f(z) == y;
        assert z in s - {x};
      }
      ImageSize(s - {x}, f, image - {f(x)});
    }
  }

  /** The ways an arrival can be accounted for. */
  datatype Kind = JoinedA | JoinedB | LeftAlone | StillWaiting | WasReplaced | HitStale | SweptUp

  ghost function KindOf(f: Fate, port: Port): Kind {
    match f
    case Joined(_) => if port.A? then JoinedA else JoinedB
    case LeftEmitted => LeftAlone
    case Waiting => StillWaiting
    case Replaced => WasReplaced
    case StaleHit => HitStale
    case Expired => SweptUp
  }

  /** Which of the first n arrivals are of this kind. */
  ghost function OfKind(h: History, n: nat, k: Kind): (s: set<nat>)
    requires n <= |h.fates| == |h.arrivals|
    ensures forall i: nat :: i in s <==> i < n && KindOf(h.fates[i], h.arrivals[i].port) == k
  {
    if n == 0 then {}
    else OfKind(h, n - 1, k) + if KindOf(h.fates[n - 1], h.arrivals[n - 1].port) == k then {n - 1} else {}
  }

  /** How many of the first n arrivals are of this kind. */
  ghost function Tally(h: History, n: nat, k: Kind): nat
    requires n <= |h.fates| == |h.arrivals|
  {
    |OfKind(h, n, k)|
  }

  lemma TallyStep(h: History, n: nat, k: Kind)
    requires n <= |h.fates| == |h.arrivals|
    ensures Tally(h, n, k) ==
            if n == 0 then 0
            else Tally(h, n - 1, k) + if KindOf(h.fates[n - 1], h.arrivals[n - 1].port) == k then 1 else 0
  {
    if n > 0 { assert n - 1 !in OfKind(h, n - 1, k); }
  }

  lemma {:induction false} KindsAddUp(h: History, n: nat)
    requires n <= |h.fates| == |h.arrivals|
    ensures n == Tally(h, n, JoinedA) + Tally(h, n, JoinedB) + Tally(h, n, LeftAlone) + Tally(h, n, StillWaiting)
                 + Tally(h, n, WasReplaced) + Tally(h, n, HitStale) + Tally(h, n, SweptUp)
  {
    hide Tally;
    TallyStep(h, n, JoinedA);
    TallyStep(h, n, JoinedB);
    TallyStep(h, n, LeftAlone);
    TallyStep(h, n, StillWaiting);
    TallyStep(h, n, WasReplaced);
    TallyStep(h, n, HitStale);
    TallyStep(h, n, SweptUp);
    if n == 0 {
    } else {
      KindsAddUp(h, n - 1);
    }
  }

  ghost function Count(h: History, k: Kind): nat
    requires |h.fates| == |h.arrivals|
  {
    Tally(h, |h.fates|, k)
  }

  ghost function Pairs(h: History): set<Output> { set o | o in h.outputs && o.Pair? }
  ghost function LeftOnlys(h: History): set<Output> { set o | o in h.outputs && o.LeftOnly? }

  ghost function WaitingId(p: Pending, k: Key): nat {
    if k in p.a then p.a[k].id else if k in p.b then p.b[k].id else 0
  }

  lemma WaitingSize(cfg: Config, h: History, now: int)
    requires Inv(cfg, h, now)
    ensures Count(h, StillWaiting) == |h.p.a| + |h.p.b|
  {
    hide Inv, OfKind, WaitingId;
    SidesDisjoint(cfg, h, now);
    var ids := OfKind(h, |h.fates|, StillWaiting);
    var keys := h.p.a.Keys + h.p.b.Keys;
    forall k | k in keys
      ensures WaitingId(h.p, k) in ids && WaitingId(h.p, k) < |h.arrivals| && h.arrivals[WaitingId(h.p, k)].key == k
    {
      WaitingIs(cfg, h, now, k);
    }
    forall i | i in ids ensures exists k :: k in keys && WaitingId(h.p, k) == i {
      WaitingHasKey(cfg, h, now, i);
    }
    ImageSize(keys, k => WaitingId(h.p, k), ids);
  }

  lemma SidesDisjoint(cfg: Config, h: History, now: int)
    requires Inv(cfg, h, now)
    ensures |h.fates| == |h.arrivals| && |h.p.a.Keys + h.p.b.Keys| == |h.p.a| + |h.p.b|
  {
    assert |h.p.a.Keys| == |h.p.a| && |h.p.b.Keys| == |h.p.b|;
  }

  lemma WaitingHasKey(cfg: Config, h: History, now: int, i: nat)
    requires Inv(cfg, h, now) && i < |h.fates| && h.fates[i].Waiting?
    ensures exists k :: k in h.p.a.Keys + h.p.b.Keys && WaitingId(h.p, k) == i
  {
    assert FateOk(cfg, h, i);
    var k := h.arrivals[i].key;
    assert k in h.p.a.Keys + h.p.b.Keys && WaitingId(h.p, k) == i;
  }

  lemma WaitingIs(cfg: Config, h: History, now: int, k: Key)
    requires Inv(cfg, h, now) && k in h.p.a.Keys + h.p.b.Keys
    ensures var i := WaitingId(h.p, k);
            i < |h.arrivals| == |h.fates| && h.arrivals[i].key == k && h.fates[i].Waiting?
  {
    var port := if k in h.p.a then A else B;
    assert ItemOk(h, port, k, Mine(h.p, port)[k], now);
    assert FateOk(cfg, h, Mine(h.p, port)[k].id);
  }

  lemma PairsSize(cfg: Config, h: History, now: int)
    requires Inv(cfg, h, now)
    ensures Count(h, JoinedA) == |Pairs(h)| == Count(h, JoinedB) && Count(h, LeftAlone) == |LeftOnlys(h)|
  {
    hide OfKind;
    var n := |h.fates|;
    forall o | o in h.outputs ensures OutputOk(h, o) && FateOk(cfg, h, o.a) {}
    forall i | i in OfKind(h, n, JoinedA) ensures Pair(i, h.fates[i].partner) in Pairs(h) {
      assert OutputOk(h, Pair(i, h.fates[i].partner));
    }
    forall i | i in OfKind(h, n, JoinedB) ensures Pair(h.fates[i].partner, i) in Pairs(h) {
      assert FateOk(cfg, h, i);
      assert OutputOk(h, Pair(h.fates[i].partner, i));
    }
    forall i | i in OfKind(h, n, LeftAlone) ensures LeftOnly(i) in LeftOnlys(h) {
      assert OutputOk(h, LeftOnly(i));
    }
    ImageSize(Pairs(h), (o: Output) => o.a, OfKind(h, n, JoinedA));
    ImageSize(Pairs(h), (o: Output) => if o.Pair? then o.b else 0, OfKind(h, n, JoinedB));
    ImageSize(LeftOnlys(h), (o: Output) => o.a, OfKind(h, n, LeftAlone));
  }

  /** Arrivals balance: twice the pairs, plus left-emitted, waiting, replaced, found stale and swept away. */
  lemma ArrivalsBalance(cfg: Config, xs: seq<Arrival>)
    requires ClockAdvances(xs)
    ensures var h := Run(cfg, xs);
            |xs| == 2 * |Pairs(h)| + |LeftOnlys(h)| + |h.p.a| + |h.p.b|
                    + Count(h, WasReplaced) + Count(h, HitStale) + Count(h, SweptUp)
  {
    hide FateOk, OutputOk, Step, Tally;
    RunKeepsInv(cfg, xs);
    var h, now := Run(cfg, xs), if xs == [] then 0 else xs[|xs| - 1].at;
    WaitingSize(cfg, h, now);
    PairsSize(cfg, h, now);
    KindsAddUp(h, |xs|);
  }

  // ----- The node -----

  ghost function StaleKeys(cfg: Config, m: map<Key, Item>, now: int): set<Key> {
    set k | k in m && Stale(cfg, m[k], now)
  }

  /** The sweep has looked at the keys in `seen`. */
  ghost predicate PartlySwept(cfg: Config, m: map<Key, Item>, now: int, seen: set<Key>, kept: map<Key, Item>,
                              gone: seq<Key>)
  {
    var stale := set k | k in seen && k in m && Stale(cfg, m[k], now);
    kept == m - stale && |gone| == |stale| && forall k :: k in gone <==> k in stale
  }

  lemma SweepStart(cfg: Config, m: map<Key, Item>, now: int)
    ensures PartlySwept(cfg, m, now, m.Keys - m.Keys, m, [])
  {
  }

  lemma SweepStep(cfg: Config, m: map<Key, Item>, now: int, seen: set<Key>, kept: map<Key, Item>, gone: seq<Key>,
                  key: Key)
    requires PartlySwept(cfg, m, now, seen, kept, gone) && key in m && key !in seen
    ensures if Stale(cfg, m[key], now) then PartlySwept(cfg, m, now, seen + {key}, kept - {key}, gone + [key])
            else PartlySwept(cfg, m, now, seen + {key}, kept, gone)
  {
    var stale := set k | k in seen && k in m && Stale(cfg, m[k], now);
    var more := set k | k in seen + {key} && k in m && Stale(cfg, m[k], now);
    hide Stale;
    if Stale(cfg, m[key], now) { assert more == stale + {key}; } else { assert more == stale; }
  }

  lemma SweepDone(cfg: Config, m: map<Key, Item>, now: int, kept: map<Key, Item>, gone: seq<Key>)
    requires PartlySwept(cfg, m, now, m.Keys, kept, gone)
    ensures kept == Fresh(cfg, m, now)
    ensures |gone| == |StaleKeys(cfg, m, now)| && forall k :: k in gone <==> k in StaleKeys(cfg, m, now)
  {
    hide Stale;
    assert (set k | k in m.Keys && k in m && Stale(cfg, m[k], now)) == StaleKeys(cfg, m, now);
  }

  class Node {
    const cfg: Config
    var pendingA: map<Key, Item>
    var pendingB: map<Key, Item>

    constructor (cfg: Config)
      ensures this.cfg == cfg && View() == Pending(map[], map[])
    {
      this.cfg := cfg;
      pendingA, pendingB := map[], map[];
    }

    function View(): Pending
      reads this
    {
      Pending(pendingA, pendingB)
    }

    /** The loop over one side's map: deletes each stale item once and lists the keys it deleted. */
    static method SweepSide(cfg: Config, m: map<Key, Item>, now: int) returns (kept: map<Key, Item>, gone: seq<Key>)
      ensures kept == Fresh(cfg, m, now)
      ensures |gone| == |StaleKeys(cfg, m, now)| && forall k :: k in gone <==> k in StaleKeys(cfg, m, now)
    {
      kept, gone := m, [];
      var todo := m.Keys;
      SweepStart(cfg, m, now);
      hide PartlySwept;
      while todo != {}
        invariant todo <= m.Keys && PartlySwept(cfg, m, now, m.Keys - todo, kept, gone)
        decreases todo
      {
        var key :| key in todo;
        SweepStep(cfg, m, now, m.Keys - todo, kept, gone, key);
        assert m.Keys - (todo - {key}) == m.Keys - todo + {key};
        todo := todo - {key};
        if now - m[key].at > cfg.window { kept, gone := kept - {key}, gone + [key]; }
      }
      assert m.Keys - todo == m.Keys;
      SweepDone(cfg, m, now, kept, gone);
    }

    /** Evicts what is older than the window; a left join emits each evicted a-side item once. */
    method ExpireStale(now: int) returns (out: seq<Output>)
      modifies this
      ensures View() == Swept(cfg, old(View()), now)
      ensures forall o :: o in out <==> o in SweptOut(cfg, old(View()), now)
      ensures |out| == if cfg.left then |StaleKeys(cfg, old(pendingA), now)| else 0
    {
      var before := pendingA;
      var gone, goneB;
      pendingA, gone := SweepSide(cfg, pendingA, now);
      pendingB, goneB := SweepSide(cfg, pendingB, now);
      out := [];
      if cfg.left {
        out := seq(|gone|, i requires 0 <= i < |gone| => assert gone[i] in gone; LeftOnly(before[gone[i]].id));
        forall i | 0 <= i < |out| ensures out[i] in SweptOut(cfg, old(View()), now) { assert gone[i] in gone; }
        forall o | o in SweptOut(cfg, old(View()), now) ensures o in out {
          var k :| k in before && Stale(cfg, before[k], now) && o == LeftOnly(before[k].id);
          assert k in gone;
          var i :| 0 <= i < |gone| && gone[i] == k;
          assert out[i] == o;
        }
      }
    }

    method ProcessJoin(x: Arrival, id: nat) returns (results: seq<Output>)
      modifies this
      ensures View() == Next(cfg, old(View()), x, id)
      ensures forall o :: o in results <==> o in Emits(cfg, old(View()), x, id)
      ensures |results| == |Matched(cfg, old(View()), x, id)| +
                if cfg.left then |StaleKeys(cfg, Placed(cfg, old(View()), x, id).a, x.at)| else 0
    {
      results := [];
      var other := if x.port.A? then pendingB else pendingA;
      if x.key in other && x.at - other[x.key].at <= cfg.window {
        results := [PairOf(x, id, other[x.key].id)];
        if x.port.A? { pendingB := pendingB - {x.key}; } else { pendingA := pendingA - {x.key}; }
      } else {
        if x.key in other {
          if x.port.A? { pendingB := pendingB - {x.key}; } else { pendingA := pendingA - {x.key}; }
        }
        if x.port.A? { pendingA := pendingA[x.key := Item(id, x.at)]; }
        else { pendingB := pendingB[x.key := Item(id, x.at)]; }
      }
      assert View() == Placed(cfg, old(View()), x, id);
      var swept := ExpireStale(x.at);
      results := results + swept;
    }
  }
}

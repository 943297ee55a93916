/**
 What becomes of each arrival of a windowed join, said of the arrivals alone: which later arrival
 settles its fate and how, without the node's maps or anything recorded on the way.
 */
module JoinFates {
  import opened Join

  /** Arrival j can end the wait of arrival i: it has the same key, or comes more than the window later. */
  predicate Settles(cfg: Config, xs: seq<Arrival>, i: nat, j: nat) {
    i < j < |xs| && (xs[j].key == xs[i].key || xs[j].at - xs[i].at > cfg.window)
  }

  /** The first one that can, does. */
  ghost predicate Settler(cfg: Config, xs: seq<Arrival>, i: nat, j: nat) {
    Settles(cfg, xs, i, j) && forall k: nat :: i < k < j ==> !Settles(cfg, xs, i, k)
  }

  /** How arrival x, the n-th, settles the fate of y. */
  function SettledBy(cfg: Config, y: Arrival, x: Arrival, n: nat): Fate {
    if x.key == y.key then
      if x.port == y.port then Replaced else if x.at - y.at <= cfg.window then Joined(n) else StaleHit
    else if cfg.left && y.port.A? then LeftEmitted else Expired
  }

  /** Arrival i finds arrival p waiting for it. */
  ghost predicate Partner(cfg: Config, xs: seq<Arrival>, p: nat, i: nat)
    requires i < |xs|
    decreases i, 0
  {
    && p < i && Waited(cfg, xs, p) && Settler(cfg, xs, p, i)
    && xs[i].key == xs[p].key && xs[i].port != xs[p].port && xs[i].at - xs[p].at <= cfg.window
  }

  /** Arrival i found no partner when it came. */
  ghost predicate Waited(cfg: Config, xs: seq<Arrival>, i: nat)
    requires i < |xs|
    decreases i, 1
  {
    forall p: nat :: p < i ==> !Partner(cfg, xs, p, i)
  }

  /** The fate of arrival i: joined at once to the partner it finds; else settled by its settler, if there is
      one yet, and waiting if there is none. */
  ghost predicate FateIs(cfg: Config, xs: seq<Arrival>, i: nat, f: Fate)
    requires i < |xs|
  {
    && (forall p: nat :: p < i && Partner(cfg, xs, p, i) ==> f == Joined(p))
    && (Waited(cfg, xs, i) ==>
          && (forall j: nat :: Settler(cfg, xs, i, j) ==> f == SettledBy(cfg, xs[i], xs[j], j))
          && ((forall j: nat :: !Settler(cfg, xs, i, j)) ==> f == Waiting))
  }

  // ----- Earlier fates do not look at later arrivals -----

  lemma SettlerPrefix(cfg: Config, xs: seq<Arrival>, n: nat, i: nat, j: nat)
    requires n <= |xs| && j < n
    ensures Settler(cfg, xs[..n], i, j) <==> Settler(cfg, xs, i, j)
  {
    assert forall k: nat :: k <= j ==> (Settles(cfg, xs[..n], i, k) <==> Settles(cfg, xs, i, k));
  }

  lemma {:induction false} WaitedPrefix(cfg: Config, xs: seq<Arrival>, n: nat, i: nat)
    requires i < n <= |xs|
    ensures Waited(cfg, xs[..n], i) <==> Waited(cfg, xs, i)
    ensures forall p: nat :: p < i ==> (Partner(cfg, xs[..n], p, i) <==> Partner(cfg, xs, p, i))
    decreases i
  {
    forall p: nat | p < i ensures Partner(cfg, xs[..n], p, i) <==> Partner(cfg, xs, p, i) {
      WaitedPrefix(cfg, xs, n, p);
      SettlerPrefix(cfg, xs, n, p, i);
    }
  }

  lemma {:induction false} HasSettler(cfg: Config, xs: seq<Arrival>, i: nat, j: nat) returns (k: nat)
    requires Settles(cfg, xs, i, j)
    ensures k <= j && Settler(cfg, xs, i, k)
    decreases j
  {
    if m: nat :| i < m < j && Settles(cfg, xs, i, m) {
      k := HasSettler(cfg, xs, i, m);
    } else {
      k := j;
    }
  }

  /** Once something can settle it, an arrival that waited waits no more. */
  lemma SettledIsOver(cfg: Config, xs: seq<Arrival>, i: nat, j: nat, f: Fate)
    requires i < |xs| && Settles(cfg, xs, i, j) && Waited(cfg, xs, i) && FateIs(cfg, xs, i, f)
    ensures f != Waiting
  {
    var k := HasSettler(cfg, xs, i, j);
    assert f == SettledBy(cfg, xs[i], xs[k], k);
  }

  lemma OneSettler(cfg: Config, xs: seq<Arrival>, i: nat, j: nat, k: nat)
    requires Settler(cfg, xs, i, j) && Settler(cfg, xs, i, k)
    ensures j == k
  {
  }

  /** How one more arrival changes the fate of an earlier one. */
  function Later(cfg: Config, xs: seq<Arrival>, i: nat, f: Fate): Fate
    requires xs != [] && i < |xs|
  {
    var n := |xs| - 1;
    if f.Waiting? && Settles(cfg, xs, i, n) then SettledBy(cfg, xs[i], xs[n], n) else f
  }

  lemma LaterSettled(cfg: Config, xs: seq<Arrival>, i: nat, f: Fate, j: nat)
    requires xs != [] && i < |xs| - 1 && FateIs(cfg, xs[..|xs| - 1], i, f)
    requires Waited(cfg, xs, i) && Settler(cfg, xs, i, j)
    ensures Later(cfg, xs, i, f) == SettledBy(cfg, xs[i], xs[j], j)
  {
    var n := |xs| - 1;
    var ys := xs[..n];
    WaitedPrefix(cfg, xs, n, i);
    if j < n {
      SettlerPrefix(cfg, xs, n, i, j);
    } else {
      forall k: nat ensures !Settler(cfg, ys, i, k) {
        if Settler(cfg, ys, i, k) {
          SettlerPrefix(cfg, xs, n, i, k);
          OneSettler(cfg, xs, i, j, k);
        }
      }
    }
  }

  lemma LaterWaiting(cfg: Config, xs: seq<Arrival>, i: nat, f: Fate)
    requires xs != [] && i < |xs| - 1 && FateIs(cfg, xs[..|xs| - 1], i, f)
    requires Waited(cfg, xs, i) && forall j: nat :: !Settler(cfg, xs, i, j)
    ensures Later(cfg, xs, i, f) == Waiting
  {
    var n := |xs| - 1;
    WaitedPrefix(cfg, xs, n, i);
    forall k: nat ensures !Settler(cfg, xs[..n], i, k) {
      if Settler(cfg, xs[..n], i, k) { SettlerPrefix(cfg, xs, n, i, k); }
    }
    if Settles(cfg, xs, i, n) { var k := HasSettler(cfg, xs, i, n); }
  }

  lemma LaterFate(cfg: Config, xs: seq<Arrival>, i: nat, f: Fate)
    requires xs != [] && i < |xs| - 1 && FateIs(cfg, xs[..|xs| - 1], i, f)
    ensures FateIs(cfg, xs, i, Later(cfg, xs, i, f))
  {
    var n, g := |xs| - 1, Later(cfg, xs, i, f);
    WaitedPrefix(cfg, xs, n, i);
    hide Waited, Partner, Settler;
    if Waited(cfg, xs, i) {
      forall j: nat | Settler(cfg, xs, i, j) ensures i < j < |xs| && g == SettledBy(cfg, xs[i], xs[j], j) {
        SettlerInside(cfg, xs, i, j);
        LaterSettled(cfg, xs, i, f, j);
      }
      if forall j: nat :: !Settler(cfg, xs, i, j) { LaterWaiting(cfg, xs, i, f); }
    }
  }

  lemma SettlerInside(cfg: Config, xs: seq<Arrival>, i: nat, j: nat)
    requires Settler(cfg, xs, i, j)
    ensures i < j < |xs|
  {
  }

  // ----- One step -----

  lemma WaitingStep(cfg: Config, h: History, x: Arrival, last: int, i: nat)
    requires Inv(cfg, h, last) && last <= x.at && i < |h.arrivals| && h.fates[i].Waiting?
    ensures var y := h.arrivals[i];
            Step(cfg, h, x).fates[i] ==
            if x.key == y.key || x.at - y.at > cfg.window then SettledBy(cfg, y, x, |h.arrivals|) else Waiting
  {
    hide OutputOk, Partners, SideOk;
    assert FateOk(cfg, h, i);
    var y, s := h.arrivals[i], Place(cfg, h, x);
    PlaceKeepsWaiting(cfg, h, x, last, i);
    assert s.arrivals[i] == y;
  }

  lemma SettledStays(cfg: Config, h: History, x: Arrival, last: int, i: nat)
    requires Inv(cfg, h, last) && last <= x.at && i < |h.arrivals| && !h.fates[i].Waiting?
    ensures Step(cfg, h, x).fates[i] == h.fates[i]
  {
    hide OutputOk, Partners, SideOk, Placed;
    PlaceChangesWaiting(cfg, h, x, last, i);
    PlaceKeepsWaiting(cfg, h, x, last, i);
  }

  lemma NewFate(cfg: Config, h: History, x: Arrival, last: int)
    requires cfg.window > 0 && Inv(cfg, h, last) && last <= x.at
    ensures Step(cfg, h, x).fates[|h.arrivals|] ==
            if Matches(cfg, h.p, x) then Joined(Other(h.p, x.port)[x.key].id) else Waiting
  {
    hide OutputOk, Partners, SideOk;
    var s := Place(cfg, h, x);
    PlaceKeepsWaiting(cfg, h, x, last, |h.arrivals|);
  }

  // ----- Every run -----

  ghost predicate AllFates(cfg: Config, xs: seq<Arrival>) {
    forall i :: 0 <= i < |xs| ==> FateIs(cfg, xs, i, Run(cfg, xs).fates[i])
  }

  /** The maps match a new arrival exactly with its partner. */
  lemma MatchIsPartner(cfg: Config, xs: seq<Arrival>, last: int)
    requires xs != [] && ClockAdvances(xs)
    requires var n := |xs| - 1; Inv(cfg, Run(cfg, xs[..n]), last) && last <= xs[n].at && AllFates(cfg, xs[..n])
    ensures var n := |xs| - 1; var p := Run(cfg, xs[..n]).p; var x := xs[n];
            && (Matches(cfg, p, x) ==> Partner(cfg, xs, Other(p, x.port)[x.key].id, n))
            && (forall q: nat :: q < n && Partner(cfg, xs, q, n) ==>
                  Matches(cfg, p, x) && Other(p, x.port)[x.key].id == q)
  {
    var n := |xs| - 1;
    var ys, x := xs[..n], xs[n];
    var h := Run(cfg, ys);
    if Matches(cfg, h.p, x) {
      PartnerFound(cfg, h, x, last);
      WaitingIsPartner(cfg, xs, Other(h.p, x.port)[x.key].id);
    }
    forall q: nat | q < n && Partner(cfg, xs, q, n)
      ensures Matches(cfg, h.p, x) && Other(h.p, x.port)[x.key].id == q
    {
      PartnerWaits(cfg, xs, q);
      assert FateOk(cfg, h, q);
    }
  }

  /** An arrival still waiting is the partner of the next one of its key on the other port within the window. */
  lemma WaitingIsPartner(cfg: Config, xs: seq<Arrival>, q: nat)
    requires xs != [] && q < |xs| - 1 && FateIs(cfg, xs[..|xs| - 1], q, Waiting)
    requires var n := |xs| - 1; xs[n].key == xs[q].key && xs[n].port != xs[q].port && xs[n].at - xs[q].at <= cfg.window
    ensures Partner(cfg, xs, q, |xs| - 1)
  {
    var n := |xs| - 1;
    var ys := xs[..n];
    WaitedPrefix(cfg, xs, n, q);
    assert Waited(cfg, ys, q);
    forall k: nat | q < k < n ensures !Settles(cfg, xs, q, k) {
      assert Settles(cfg, xs, q, k) <==> Settles(cfg, ys, q, k);
      if Settles(cfg, ys, q, k) { SettledIsOver(cfg, ys, q, k, Waiting); }
    }
  }

  /** The partner of a new arrival was waiting until then. */
  lemma PartnerWaits(cfg: Config, xs: seq<Arrival>, q: nat)
    requires xs != [] && q < |xs| - 1 && Partner(cfg, xs, q, |xs| - 1)
    requires AllFates(cfg, xs[..|xs| - 1])
    ensures Run(cfg, xs[..|xs| - 1]).fates[q] == Waiting
  {
    var n := |xs| - 1;
    var ys := xs[..n];
    WaitedPrefix(cfg, xs, n, q);
    assert FateIs(cfg, ys, q, Run(cfg, ys).fates[q]);
    forall j: nat ensures !Settler(cfg, ys, q, j) {
      if Settler(cfg, ys, q, j) { SettlerPrefix(cfg, xs, n, q, j); }
    }
  }

  lemma RunStep(cfg: Config, xs: seq<Arrival>)
    requires xs != []
    ensures Run(cfg, xs) == Step(cfg, Run(cfg, xs[..|xs| - 1]), xs[|xs| - 1])
  {
  }

  lemma OldFate(cfg: Config, xs: seq<Arrival>, last: int, i: nat)
    requires xs != [] && i < |xs| - 1
    requires var n := |xs| - 1; Inv(cfg, Run(cfg, xs[..n]), last) && last <= xs[n].at
    ensures Run(cfg, xs).fates[i] == Later(cfg, xs, i, Run(cfg, xs[..|xs| - 1]).fates[i])
  {
    hide Run, Step, Inv;
    RunStep(cfg, xs);
    var n := |xs| - 1;
    var h := Run(cfg, xs[..n]);
    if h.fates[i].Waiting? { WaitingStep(cfg, h, xs[n], last, i); } else { SettledStays(cfg, h, xs[n], last, i); }
  }

  lemma LastFate(cfg: Config, xs: seq<Arrival>, last: int)
    requires cfg.window > 0 && xs != [] && ClockAdvances(xs)
    requires var n := |xs| - 1; Inv(cfg, Run(cfg, xs[..n]), last) && last <= xs[n].at && AllFates(cfg, xs[..n])
    ensures FateIs(cfg, xs, |xs| - 1, Run(cfg, xs).fates[|xs| - 1])
  {
    RunStep(cfg, xs);
    var n := |xs| - 1;
    var h := Run(cfg, xs[..n]);
    hide Run, Step, Inv, AllFates, ClockAdvances, Partner, FateIs;
    NewFate(cfg, h, xs[n], last);
    MatchIsPartner(cfg, xs, last);
    if Matches(cfg, h.p, xs[n]) {
      FoundFate(cfg, xs, n, true, Other(h.p, xs[n].port)[xs[n].key].id);
    } else {
      FoundFate(cfg, xs, n, false, 0);
    }
  }

  lemma FoundFate(cfg: Config, xs: seq<Arrival>, n: nat, found: bool, p: nat)
    requires |xs| == n + 1 && (found ==> Partner(cfg, xs, p, n))
    requires forall q: nat :: q < n && Partner(cfg, xs, q, n) ==> found && q == p
    ensures FateIs(cfg, xs, n, if found then Joined(p) else Waiting)
  {
    if found { assert p < n && !Waited(cfg, xs, n); }
    hide Partner;
    forall j: nat ensures !Settler(cfg, xs, n, j) { }
  }

  lemma {:induction false} FatesOfRun(cfg: Config, xs: seq<Arrival>)
    requires cfg.window > 0 && ClockAdvances(xs)
    ensures AllFates(cfg, xs)
  {
    hide Run, Inv, FateIs, ClockAdvances;
    if xs == [] {
    } else {
      var n := |xs| - 1;
      var ys := xs[..n];
      ClockPrefix(xs);
      FatesOfRun(cfg, ys);
      var last := RunInv(cfg, ys, xs[n].at);
      LastFate(cfg, xs, last);
      forall i | 0 <= i < |xs| ensures FateIs(cfg, xs, i, Run(cfg, xs).fates[i]) {
        if i < n {
          OldFate(cfg, xs, last, i);
          assert FateIs(cfg, ys, i, Run(cfg, ys).fates[i]);
          LaterFate(cfg, xs, i, Run(cfg, ys).fates[i]);
        }
      }
    }
  }

  lemma ClockPrefix(xs: seq<Arrival>)
    requires xs != [] && ClockAdvances(xs)
    ensures ClockAdvances(xs[..|xs| - 1]) && (|xs| > 1 ==> xs[|xs| - 2].at <= xs[|xs| - 1].at)
  {
  }

  /** The invariant holds at the time of the last arrival, or at any time when there was none. */
  lemma RunInv(cfg: Config, ys: seq<Arrival>, now: int) returns (last: int)
    requires ClockAdvances(ys) && (ys != [] ==> ys[|ys| - 1].at <= now)
    ensures Inv(cfg, Run(cfg, ys), last) && last <= now
  {
    RunKeepsInv(cfg, ys);
    if ys == [] {
      EmptyInv(cfg, now);
      last := now;
    } else {
      last := ys[|ys| - 1].at;
    }
  }

  // ----- Main results -----

  /** In every run the fate of every arrival is the one the arrivals alone determine. */
  lemma FateExact(cfg: Config, xs: seq<Arrival>, i: nat)
    requires cfg.window > 0 && ClockAdvances(xs) && i < |xs|
    ensures FateIs(cfg, xs, i, Run(cfg, xs).fates[i])
  {
    FatesOfRun(cfg, xs);
    hide FateIs, Run;
  }

  /** Arrival i found no partner, and the arrival that ended its wait had its key and took its place or came too
      late to join it, or had another key and i is not an a-side item of a left join. */
  ghost predicate Lost(cfg: Config, xs: seq<Arrival>, i: nat)
    requires i < |xs|
  {
    Waited(cfg, xs, i) && exists j: nat :: Settler(cfg, xs, i, j) && LostTo(cfg, xs[i], xs[j])
  }

  predicate LostTo(cfg: Config, y: Arrival, x: Arrival) {
    if x.key == y.key then x.port == y.port || x.at - y.at > cfg.window else !(cfg.left && y.port.A?)
  }

  /** Exactly these arrivals are dropped without a trace: neither waiting nor in any output. */
  lemma LossesExact(cfg: Config, xs: seq<Arrival>, i: nat)
    requires cfg.window > 0 && ClockAdvances(xs) && i < |xs|
    ensures !Emitted(Run(cfg, xs), i) && !Run(cfg, xs).fates[i].Waiting? <==> Lost(cfg, xs, i)
  {
    FateExact(cfg, xs, i);
    var last := RunInv(cfg, xs, xs[|xs| - 1].at);
    EmittedExact(cfg, Run(cfg, xs), last, i);
    hide Run, Inv, Emitted, ClockAdvances;
    LostFate(cfg, xs, i, Run(cfg, xs).fates[i]);
  }

  lemma PartnerOf(cfg: Config, xs: seq<Arrival>, i: nat) returns (p: nat)
    requires i < |xs| && !Waited(cfg, xs, i)
    ensures p < i && Partner(cfg, xs, p, i)
  {
    p :| p < i && Partner(cfg, xs, p, i);
  }

  lemma LostFate(cfg: Config, xs: seq<Arrival>, i: nat, f: Fate)
    requires i < |xs| && FateIs(cfg, xs, i, f)
    ensures f.Replaced? || f.StaleHit? || f.Expired? <==> Lost(cfg, xs, i)
  {
    hide Partner, Settler, Waited;
    if Waited(cfg, xs, i) {
      if j: nat :| Settler(cfg, xs, i, j) {
        SettlerInside(cfg, xs, i, j);
        forall k: nat | Settler(cfg, xs, i, k) ensures k == j { OneSettler(cfg, xs, i, j, k); }
      }
    } else {
      var p := PartnerOf(cfg, xs, i);
    }
  }

  /** A left join loses an a-side arrival exactly when the first later arrival of its key or beyond its window has
      its key and either came on port a or came too late. */
  lemma LeftJoinLoses(cfg: Config, xs: seq<Arrival>, i: nat)
    requires cfg.window > 0 && cfg.left && ClockAdvances(xs) && i < |xs| && xs[i].port.A?
    ensures !Emitted(Run(cfg, xs), i) && !Run(cfg, xs).fates[i].Waiting? <==>
            Waited(cfg, xs, i) && exists j: nat :: Settler(cfg, xs, i, j) && xs[j].key == xs[i].key
                                    && (xs[j].port.A? || xs[j].at - xs[i].at > cfg.window)
  {
    hide Run, Emitted, Waited, Settler;
    LossesExact(cfg, xs, i);
    forall j: nat | Settler(cfg, xs, i, j) ensures i < j < |xs| { SettlerInside(cfg, xs, i, j); }
  }

  /** The first n arrivals' losses. */
  ghost function LostAmong(cfg: Config, xs: seq<Arrival>, n: nat): (s: set<nat>)
    requires n <= |xs|
    ensures forall i: nat :: i in s <==> i < n && Lost(cfg, xs, i)
  {
    if n == 0 then {} else LostAmong(cfg, xs, n - 1) + if Lost(cfg, xs, n - 1) then {n - 1} else {}
  }

  lemma LossCount(cfg: Config, xs: seq<Arrival>)
    requires cfg.window > 0 && ClockAdvances(xs)
    ensures var h := Run(cfg, xs);
            |LostAmong(cfg, xs, |xs|)| == Count(h, WasReplaced) + Count(h, HitStale) + Count(h, SweptUp)
  {
    hide Run, Lost, OfKind, LostAmong, ClockAdvances;
    var h, n := Run(cfg, xs), |xs|;
    var a, b, c := OfKind(h, n, WasReplaced), OfKind(h, n, HitStale), OfKind(h, n, SweptUp);
    forall i: nat ensures i in LostAmong(cfg, xs, n) <==> i in a + b + c {
      if i < n {
        FateExact(cfg, xs, i);
        hide FateIs;
        LostFate(cfg, xs, i, h.fates[i]);
      }
    }
    assert LostAmong(cfg, xs, n) == a + b + c && a !! b && (a + b) !! c;
  }

  /** Every arrival is in a pair, emitted alone, waiting, or one of the losses the arrivals determine. */
  lemma BalanceExact(cfg: Config, xs: seq<Arrival>)
    requires cfg.window > 0 && ClockAdvances(xs)
    ensures var h := Run(cfg, xs);
            |xs| == 2 * |Pairs(h)| + |LeftOnlys(h)| + |h.p.a| + |h.p.b| + |LostAmong(cfg, xs, |xs|)|
  {
    hide Run, Lost, OfKind, LostAmong, ClockAdvances, Tally;
    ArrivalsBalance(cfg, xs);
    LossCount(cfg, xs);
  }
}

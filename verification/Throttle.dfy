/**
 The rate limiter of the delay node. It keeps, per key, only the release times of the last interval
 and forgets the rest for good; nevertheless it decides exactly as if it had kept the whole history.
 */
module Throttle {

  /** At most `max` releases per key in any `interval` (both checked positive when the node is built). */
  datatype Limit = Limit(max: int, interval: int)

  predicate Valid(l: Limit) { l.max > 0 && l.interval > 0 }

  type Windows = map<string, seq<int>>

  function Get(w: Windows, key: string): seq<int> {
    if key in w then w[key] else []
  }

  /** The first index from i on whose time is not strictly before the cutoff. */
  function Fresh(times: seq<int>, cutoff: int, i: nat): (k: nat)
    requires i <= |times|
    ensures i <= k <= |times|
    ensures forall j :: i <= j < k ==> times[j] < cutoff
    ensures k < |times| ==> times[k] >= cutoff
    decreases |times| - i
  {
    if i < |times| && times[i] < cutoff then Fresh(times, cutoff, i + 1) else i
  }

  /** Drops the leading times strictly before the cutoff. */
  function Prune(times: seq<int>, cutoff: int): (r: seq<int>) {
    times[Fresh(times, cutoff, 0)..]
  }

  /** One pass of the wait loop: the clock is read once and the datagram is released now or waits. */
  datatype Pass = Pass(key: string, now: int)

  predicate Admits(l: Limit, w: Windows, p: Pass) {
    |Prune(Get(w, p.key), p.now - l.interval)| < l.max
  }

  function After(l: Limit, w: Windows, p: Pass): Windows {
    if Admits(l, w, p) then w[p.key := Prune(Get(w, p.key), p.now - l.interval) + [p.now]] else w
  }

  /** The windows the node keeps, and beside them every release it ever made. */
  datatype State = State(windows: Windows, releases: Windows)

  function Step(l: Limit, s: State, p: Pass): State {
    if Admits(l, s.windows, p)
    then State(After(l, s.windows, p), s.releases[p.key := Get(s.releases, p.key) + [p.now]])
    else s
  }

  /** A whole run: any interleaving of passes for any keys. */
  function Run(l: Limit, ps: seq<Pass>): State {
    if ps == [] then State(map[], map[]) else Step(l, Run(l, ps[..|ps| - 1]), ps[|ps| - 1])
  }

  function CountIn(times: seq<int>, lo: int, hi: int): (n: nat)
    ensures n <= |times|
  {
    if times == [] then 0
    else CountIn(times[..|times| - 1], lo, hi) + if lo <= times[|times| - 1] <= hi then 1 else 0
  }

  ghost predicate ClockAdvances(ps: seq<Pass>) {
    forall i, j :: 0 <= i < j < |ps| ==> ps[i].now <= ps[j].now
  }

  ghost predicate Sorted(s: seq<int>) {
    forall i, j :: 0 <= i < j < |s| ==> s[i] <= s[j]
  }

  // ----- Counting -----

  lemma {:induction false} CountMonotone(times: seq<int>, lo: int, hi: int, lo': int, hi': int)
    requires forall i :: 0 <= i < |times| && lo <= times[i] <= hi ==> lo' <= times[i] <= hi'
    ensures CountIn(times, lo, hi) <= CountIn(times, lo', hi')
  {
    if times == [] {
    } else {
      CountMonotone(times[..|times| - 1], lo, hi, lo', hi');
    }
  }

  /** The first k times are too early and the others all count. */
  lemma {:induction false} CountFrom(times: seq<int>, k: nat, lo: int, hi: int)
    requires k <= |times|
    requires forall i :: 0 <= i < k ==> times[i] < lo
    requires forall i :: k <= i < |times| ==> lo <= times[i] <= hi
    ensures CountIn(times, lo, hi) == |times| - k
  {
    if times == [] {
    } else {
      var n := |times| - 1;
      CountFrom(times[..n], if k <= n then k else n, lo, hi);
    }
  }

  // ----- The window represents the history -----

  /** All of this key's releases: a prefix older than any window still to come, then exactly the window kept. */
  ghost predicate Represents(l: Limit, w: seq<int>, rel: seq<int>, now: int) {
    && Sorted(rel) && (forall i :: 0 <= i < |rel| ==> rel[i] <= now)
    && |w| <= |rel| && |w| <= l.max
    && (forall i :: 0 <= i < |w| ==> w[i] == rel[|rel| - |w| + i])
    && forall i :: 0 <= i < |rel| - |w| ==> rel[i] < now - l.interval
  }

  lemma PruneRepresents(l: Limit, w: seq<int>, rel: seq<int>, now: int)
    requires Represents(l, w, rel, now)
    ensures Represents(l, Prune(w, now - l.interval), rel, now)
    ensures forall i :: |rel| - |Prune(w, now - l.interval)| <= i < |rel| ==> rel[i] >= now - l.interval
  {
    var a, k := |rel| - |w|, Fresh(w, now - l.interval, 0);
    forall i | a <= i < a + k ensures rel[i] < now - l.interval {
      assert rel[i] == w[i - a];
    }
    if k < |w| {
      assert w[k] == rel[a + k];
    }
  }

  lemma PrunedCounts(l: Limit, w: seq<int>, rel: seq<int>, now: int)
    requires Valid(l) && Represents(l, w, rel, now)
    ensures |Prune(w, now - l.interval)| == CountIn(rel, now - l.interval, now)
  {
    PruneRepresents(l, w, rel, now);
    CountFrom(rel, |rel| - |Prune(w, now - l.interval)|, now - l.interval, now);
  }

  lemma RepresentsPast(l: Limit, w: seq<int>, rel: seq<int>, now: int)
    requires Represents(l, w, rel, now)
    ensures forall i :: 0 <= i < |rel| ==> rel[i] <= now
  {
  }

  lemma Released(l: Limit, w: seq<int>, rel: seq<int>, now: int)
    requires Represents(l, w, rel, now) && |w| < l.max
    ensures Represents(l, w + [now], rel + [now], now)
  {
    var a := |rel| - |w|;
    assert (rel + [now])[a..] == rel[a..] + [now];
  }

  ghost predicate Inv(l: Limit, s: State, now: int) {
    forall key :: Represents(l, Get(s.windows, key), Get(s.releases, key), now)
  }

  lemma StepKeepsWindow(l: Limit, s: State, p: Pass, key: string)
    requires Represents(l, Get(s.windows, key), Get(s.releases, key), p.now)
    ensures Represents(l, Get(Step(l, s, p).windows, key), Get(Step(l, s, p).releases, key), p.now)
  {
    hide Represents;
    if p.key == key && Admits(l, s.windows, p) {
      var w, rel := Get(s.windows, key), Get(s.releases, key);
      PruneRepresents(l, w, rel, p.now);
      Released(l, Prune(w, p.now - l.interval), rel, p.now);
    }
  }

  lemma StepKeepsInv(l: Limit, s: State, p: Pass)
    requires Inv(l, s, p.now)
    ensures Inv(l, Step(l, s, p), p.now)
  {
    forall key ensures Represents(l, Get(Step(l, s, p).windows, key), Get(Step(l, s, p).releases, key), p.now) {
      StepKeepsWindow(l, s, p, key);
    }
  }

  lemma {:induction false} RunKeepsInv(l: Limit, ps: seq<Pass>, now: int)
    requires Valid(l) && ClockAdvances(ps) && (ps != [] ==> ps[|ps| - 1].now <= now)
    ensures Inv(l, Run(l, ps), now)
  {
    if ps == [] {
    } else {
      var n := |ps| - 1;
      RunKeepsInv(l, ps[..n], ps[n].now);
      StepKeepsInv(l, Run(l, ps[..n]), ps[n]);
    }
  }

  // ----- Main results -----

  lemma AdmitsCounts(l: Limit, s: State, p: Pass)
    requires Valid(l) && Inv(l, s, p.now)
    ensures Admits(l, s.windows, p) <==> CountIn(Get(s.releases, p.key), p.now - l.interval, p.now) < l.max
  {
    PrunedCounts(l, Get(s.windows, p.key), Get(s.releases, p.key), p.now);
  }

  /** A pass is refused exactly when its key already has `max` releases in the closed interval ending now. */
  lemma AdmitExact(l: Limit, ps: seq<Pass>, p: Pass)
    requires Valid(l) && ClockAdvances(ps) && (ps != [] ==> ps[|ps| - 1].now <= p.now)
    ensures var s := Run(l, ps);
            Admits(l, s.windows, p) <==> CountIn(Get(s.releases, p.key), p.now - l.interval, p.now) < l.max
  {
    RunKeepsInv(l, ps, p.now);
    AdmitsCounts(l, Run(l, ps), p);
  }

  lemma CountGrows(times: seq<int>, t: int, lo: int, hi: int)
    ensures CountIn(times + [t], lo, hi) == CountIn(times, lo, hi) + if lo <= t <= hi then 1 else 0
  {
    assert (times + [t])[..|times|] == times;
  }

  lemma StepKeepsRate(l: Limit, s: State, p: Pass, key: string, t: int)
    requires Valid(l) && Inv(l, s, p.now)
    requires CountIn(Get(s.releases, key), t, t + l.interval) <= l.max
    ensures CountIn(Get(Step(l, s, p).releases, key), t, t + l.interval) <= l.max
  {
    hide Represents, CountIn, Fresh;
    var rel := Get(s.releases, key);
    if p.key == key && Admits(l, s.windows, p) {
      CountGrows(rel, p.now, t, t + l.interval);
      if t <= p.now <= t + l.interval {
        AdmitsCounts(l, s, p);
        RepresentsPast(l, Get(s.windows, key), rel, p.now);
        CountMonotone(rel, t, t + l.interval, p.now - l.interval, p.now);
      }
    }
  }

  /** No closed interval of length `interval`, wherever it starts, holds more than `max` releases of one key. */
  lemma {:induction false} RateBound(l: Limit, ps: seq<Pass>, key: string, t: int)
    requires Valid(l) && ClockAdvances(ps)
    ensures CountIn(Get(Run(l, ps).releases, key), t, t + l.interval) <= l.max
  {
    if ps == [] {
    } else {
      var n := |ps| - 1;
      RateBound(l, ps[..n], key, t);
      RunKeepsInv(l, ps[..n], ps[n].now);
      StepKeepsRate(l, Run(l, ps[..n]), ps[n], key, t);
    }
  }

  /** How long the code sleeps after a refused pass. */
  function Wait(l: Limit, window: seq<int>, now: int): int
    requires window != []
  {
    var wait := l.interval - (now - window[0]);
    if wait < 0 then 0 else wait
  }

  /** A refused pass sleeps until its oldest release is one interval old, and a later pass is let
      through exactly when it comes strictly after that instant: waking on the dot means one more pass. */
  lemma WakeUpExact(l: Limit, ps: seq<Pass>, p: Pass, later: int)
    requires Valid(l) && ClockAdvances(ps) && (ps != [] ==> ps[|ps| - 1].now <= p.now) && p.now <= later
    requires !Admits(l, Run(l, ps).windows, p)
    ensures var w := Run(l, ps).windows;
            var window := Prune(Get(w, p.key), p.now - l.interval);
            window != [] && p.now + Wait(l, window, p.now) == window[0] + l.interval &&
            (Admits(l, w, Pass(p.key, later)) <==> later > window[0] + l.interval)
  {
    hide Run, Represents, Prune;
    RunKeepsInv(l, ps, p.now);
    var s := Run(l, ps);
    RefusedWindow(l, Get(s.windows, p.key), Get(s.releases, p.key), p.now, later);
  }

  lemma RefusedWindow(l: Limit, w: seq<int>, rel: seq<int>, now: int, later: int)
    requires Valid(l) && Represents(l, w, rel, now) && now <= later && |Prune(w, now - l.interval)| >= l.max
    ensures Prune(w, now - l.interval) == w && w != [] && now - l.interval <= w[0] <= now
    ensures |Prune(w, later - l.interval)| < l.max <==> later > w[0] + l.interval
  {
    PruneRepresents(l, w, rel, now);
    assert w[0] == rel[|rel| - |w|];
  }

  // ----- The node -----

  /** `at` is the first of the readings at which the key is let through. */
  ghost predicate FirstAdmitted(l: Limit, w: Windows, key: string, readings: seq<int>, at: int) {
    exists i :: (
      && 0 <= i < |readings| && readings[i] == at && Admits(l, w, Pass(key, at))
      && forall j :: 0 <= j < i ==> !Admits(l, w, Pass(key, readings[j])))
  }

  class Node {
    const limit: Limit
    var windowByKey: Windows

    constructor (limit: Limit)
      requires Valid(limit)
      ensures this.limit == limit && windowByKey == map[]
    {
      this.limit := limit;
      windowByKey := map[];
    }

    static method PruneWindow(times: seq<int>, now: int, interval: int) returns (r: seq<int>)
      ensures r == Prune(times, now - interval)
    {
      var cutoff, i := now - interval, 0;
      while i < |times| && times[i] < cutoff
        invariant 0 <= i <= |times| && Fresh(times, cutoff, i) == Fresh(times, cutoff, 0)
      {
        i := i + 1;
      }
      r := times[i..];
    }

    /** Waits through the given clock readings until one lets the datagram through, or the context ends. */
    method ApplyThrottle(key: string, readings: seq<int>) returns (released: bool, at: int)
      modifies this
      ensures released ==> windowByKey == After(limit, old(windowByKey), Pass(key, at))
      ensures released ==> FirstAdmitted(limit, old(windowByKey), key, readings, at)
      ensures !released ==> windowByKey == old(windowByKey)
      ensures !released ==> forall j :: 0 <= j < |readings| ==> !Admits(limit, windowByKey, Pass(key, readings[j]))
    {
      for i := 0 to |readings|
        invariant windowByKey == old(windowByKey)
        invariant forall j :: 0 <= j < i ==> !Admits(limit, windowByKey, Pass(key, readings[j]))
      {
        at := readings[i];
        var window := PruneWindow(Get(windowByKey, key), at, limit.interval);
        if |window| < limit.max {
          windowByKey := windowByKey[key := window + [at]];
          return true, at;
        }
      }
      return false, 0;
    }
  }
}

/**
 The bounds of the store-and-forward queue, on time stamps and file sizes alone: what an enqueue drops
 and what it leaves.
 */
module StoreBounds {
  import opened StoreForward

  /** The age sweep has no use for this file: it does not read back, or it is older than the limit. */
  predicate Stale(x: File, now: int, maxAge: int) { x.Unreadable? || now - x.at > maxAge }

  /** The sizes of these entries, added up. */
  function Weight(ids: seq<nat>, sizes: map<nat, nat>): nat {
    if ids == [] then 0 else (if ids[0] in sizes then sizes[ids[0]] else 0) + Weight(ids[1..], sizes)
  }

  function FileSizes(files: map<nat, File>): map<nat, nat> { map id | id in files :: files[id].size }

  /** The n oldest files are stale and the next one, if any, is not. */
  ghost predicate StalePrefix(ids: seq<nat>, files: map<nat, File>, now: int, maxAge: int, n: nat)
    requires forall i :: 0 <= i < |ids| ==> ids[i] in files
  {
    && n <= |ids|
    && (forall i :: 0 <= i < n ==> Stale(files[ids[i]], now, maxAge))
    && (n < |ids| ==> !Stale(files[ids[n]], now, maxAge))
  }

  /** d is the least number, from n on, of oldest files without which the rest is within the size bound. */
  ghost predicate LeastDrop(ids: seq<nat>, sizes: map<nat, nat>, maxSize: int, n: nat, d: nat) {
    && n <= d <= |ids| && Weight(ids[d..], sizes) <= maxSize
    && forall i :: n <= i < d ==> Weight(ids[i..], sizes) > maxSize
  }

  lemma {:induction false} SumIsWeight(ids: seq<nat>, sizes: map<nat, nat>)
    ensures Sum(ids, sizes) == Weight(ids, sizes)
  {
    if ids == [] {
    } else {
      SumIsWeight(ids[1..], sizes);
    }
  }

  lemma {:induction false} SameWeight(ids: seq<nat>, a: map<nat, nat>, b: map<nat, nat>)
    requires forall i :: 0 <= i < |ids| ==> ids[i] in a && ids[i] in b && a[ids[i]] == b[ids[i]]
    ensures Weight(ids, a) == Weight(ids, b)
  {
    if ids == [] {
    } else {
      SameWeight(ids[1..], a, b);
    }
  }

  lemma CutIsStalePrefix(q: Queue, now: int)
    requires Inv(q) && q.maxAge > 0
    ensures forall i :: 0 <= i < |q.order| ==> q.order[i] in q.disk.files
    ensures StalePrefix(q.order, q.disk.files, now, q.maxAge, AgeCut(q, now, 0))
  {
    hide Sum;
    forall i | 0 <= i < |q.order| ensures q.order[i] in q.disk.files { assert q.order[i] in q.order; }
    var cut := AgeCut(q, now, 0);
    assert forall i :: 0 <= i < cut ==> TooOld(q, q.order[i], now);
  }

  lemma FitsIsWeight(q: Queue, i: nat)
    requires q.maxSize > 0 && i <= |q.order|
    ensures Fits(q, i) <==> Weight(q.order[i..], q.sizes) <= q.maxSize
  {
    SumIsWeight(q.order[i..], q.sizes);
  }

  /** Under an age bound the `aged` oldest entries go, all up to the first that is not stale at the new entry's
      time; under a size bound as many more as it takes for the rest to fit, and no more. The others stay as they are,
      and the count is how many went. */
  ghost predicate Bounded(q: Queue, f: File, aged: nat, r: Enqueued)
    requires f.Good?
  {
    var ids, files := q.order + [q.nextSeq], q.disk.files[q.nextSeq := f];
    && r.Stored? && r.dropped <= |ids| && r.q.order == ids[r.dropped..]
    && (forall i :: 0 <= i < |ids| ==> ids[i] in files)
    && (forall id :: id in r.q.order ==> id in files && id in r.q.disk.files && r.q.disk.files[id] == files[id])
    && (if q.maxAge > 0 then StalePrefix(ids, files, f.at, q.maxAge, aged) else aged == 0)
    && (if q.maxSize > 0 then LeastDrop(ids, q.sizes[q.nextSeq := f.size], q.maxSize, aged, r.dropped)
        else r.dropped == aged)
    && r.q.total == Weight(r.q.order, r.q.sizes)
  }

  lemma EnqueueExact(q: Queue, f: File) returns (aged: nat)
    requires Inv(q) && f.Good?
    ensures Bounded(q, f, aged, Enqueue(q, f, Written))
  {
    hide Inv, Fits, AgeCut, Suffix, Enqueue, Weight, Stale, StalePrefix, LeastDrop;
    var all, r := Append(q, f), Enqueue(q, f, Written);
    EnqueueOptimal(q, f);
    aged := AgeCut(all, f.at, 0);
    AllThere(all);
    if q.maxAge > 0 { CutIsStalePrefix(all, f.at); } else { NoCut(all, f.at); }
    SuffixFiles(r.q, all, r.dropped);
    DroppedBySize(all, aged, r.dropped);
    TotalIsWeight(r.q);
  }

  lemma AllThere(q: Queue)
    requires Inv(q)
    ensures forall i :: 0 <= i < |q.order| ==> q.order[i] in q.disk.files
  {
    forall i | 0 <= i < |q.order| ensures q.order[i] in q.disk.files { assert q.order[i] in q.order; }
  }

  lemma NoCut(q: Queue, now: int)
    requires q.maxAge <= 0
    ensures AgeCut(q, now, 0) == 0
  {
  }

  lemma DroppedBySize(all: Queue, cut: nat, k: nat)
    requires cut <= k <= |all.order| && Fits(all, k)
    requires forall i :: cut <= i < k ==> !Fits(all, i)
    ensures if all.maxSize > 0 then LeastDrop(all.order, all.sizes, all.maxSize, cut, k) else k == cut
  {
    hide Weight, Fits;
    if all.maxSize > 0 {
      FitsIsWeight(all, k);
      forall i | cut <= i < k ensures Weight(all.order[i..], all.sizes) > all.maxSize { FitsIsWeight(all, i); }
    } else {
      AlwaysFits(all, cut);
    }
  }

  lemma AlwaysFits(q: Queue, i: nat)
    requires q.maxSize <= 0 && i <= |q.order|
    ensures Fits(q, i)
  {
  }

  lemma SuffixFiles(d: Queue, q: Queue, k: nat)
    requires Suffix(d, q, k)
    ensures k <= |q.order| && d.order == q.order[k..]
    ensures forall id :: id in d.order ==>
                           id in d.disk.files && id in q.disk.files && d.disk.files[id] == q.disk.files[id]
    ensures Inv(d)
  {
    hide Inv;
    forall id | id in d.order
      ensures id in d.disk.files && id in q.disk.files && d.disk.files[id] == q.disk.files[id]
    {
      assert SameEntry(d, q, id);
    }
  }

  lemma TotalIsWeight(q: Queue)
    requires Inv(q)
    ensures q.total == Weight(q.order, q.sizes)
  {
    hide Sum, Weight;
    SumIsWeight(q.order, q.sizes);
  }

  /** Where recorded sizes are those of the files, the files left are within the size bound. */
  lemma FilesFit(q: Queue, f: File)
    requires Inv(q) && Measured(q) && f.Good? && q.maxSize > 0
    ensures var r := Enqueue(q, f, Written).q; Weight(r.order, FileSizes(r.disk.files)) <= q.maxSize
  {
    hide Inv, Enqueue, Weight;
    var r := Enqueue(q, f, Written);
    var aged := EnqueueExact(q, f);
    MeasuredKept(q, f, 0);
    SameWeight(r.q.order, r.q.sizes, FileSizes(r.q.disk.files));
    KeptSizes(q, f);
  }

  lemma KeptSizes(q: Queue, f: File)
    requires Inv(q) && Measured(q) && f.Good?
    ensures var r := Enqueue(q, f, Written).q; Weight(r.order, r.sizes) == Weight(r.order, q.sizes[q.nextSeq := f.size])
  {
    hide Inv, Enqueue, Weight, Fits, AgeCut;
    var r, all := Enqueue(q, f, Written), Append(q, f);
    EnqueueOptimal(q, f);
    MeasuredKept(q, f, 0);
    forall i | 0 <= i < |r.q.order|
      ensures r.q.order[i] in r.q.sizes && r.q.order[i] in all.sizes
      ensures r.q.sizes[r.q.order[i]] == all.sizes[r.q.order[i]]
    {
      var id := r.q.order[i];
      assert SameEntry(r.q, all, id) && id in all.order;
    }
    SameWeight(r.q.order, r.q.sizes, all.sizes);
  }

  /** With stamps in order no entry is left that is older than the age limit. */
  lemma SurvivorsAreFresh(q: Queue, f: File, id: nat)
    requires Inv(q) && f.Good? && q.maxAge > 0
    requires forall i :: 0 <= i < |q.order| ==> q.order[i] in q.disk.files && !q.disk.files[q.order[i]].Unreadable?
    requires forall i, j :: 0 <= i < j < |q.order| ==> q.disk.files[q.order[i]].at <= q.disk.files[q.order[j]].at
    requires forall i :: 0 <= i < |q.order| ==> q.disk.files[q.order[i]].at <= f.at
    requires id in Enqueue(q, f, Written).q.order
    ensures var files := Enqueue(q, f, Written).q.disk.files;
            id in files && !files[id].Unreadable? && f.at - files[id].at <= q.maxAge
  {
    hide Enqueue, Weight, Inv;
    var ids, files := q.order + [q.nextSeq], q.disk.files[q.nextSeq := f];
    var aged := EnqueueExact(q, f);
    NewIsApart(q);
    var r := Enqueue(q, f, Written);
    var i :| 0 <= i < |r.q.order| && r.q.order[i] == id;
    var k := r.dropped + i;
    assert id == ids[k] && aged <= k;
    assert !Stale(files[ids[aged]], f.at, q.maxAge);
    assert files[ids[aged]].at <= files[ids[k]].at;
  }

  lemma NewIsApart(q: Queue)
    requires Inv(q)
    ensures q.nextSeq !in q.order
  {
  }
}

/** The queue object of the store-and-forward package: the loops that keep its index and its directory in step. */
module DiskQueueModel {
  import opened StoreForward

  function InsertSorted(order: seq<nat>, id: nat): seq<nat> {
    if order == [] || id < order[0] then [id] + order else [order[0]] + InsertSorted(order[1..], id)
  }

  lemma {:induction false} InsertSortedElements(order: seq<nat>, id: nat)
    ensures |InsertSorted(order, id)| == |order| + 1
    ensures forall x :: x in InsertSorted(order, id) <==> x in order || x == id
  {
    if order == [] || id < order[0] {
    } else {
      InsertSortedElements(order[1..], id);
      assert forall x :: x in order <==> x == order[0] || x in order[1..];
    }
  }

  lemma {:induction false} InsertSortedIncreases(order: seq<nat>, id: nat)
    requires Increasing(order) && id !in order
    ensures Increasing(InsertSorted(order, id))
  {
    if order == [] || id < order[0] {
    } else {
      var rest := InsertSorted(order[1..], id);
      InsertSortedElements(order[1..], id);
      InsertSortedIncreases(order[1..], id);
      forall j | 0 <= j < |rest| ensures order[0] < rest[j] {
        assert rest[j] in rest;
        if rest[j] != id { assert rest[j] in order[1..]; }
      }
    }
  }

  lemma {:induction false} InsertSortedSum(order: seq<nat>, id: nat, sizes: map<nat, nat>)
    ensures Sum(InsertSorted(order, id), sizes) == Sum(order, sizes) + SizeOf(sizes, id)
  {
    if order == [] || id < order[0] {
      assert ([id] + order)[1..] == order;
    } else {
      InsertSortedSum(order[1..], id, sizes);
      assert ([order[0]] + InsertSorted(order[1..], id))[1..] == InsertSorted(order[1..], id);
    }
  }

  /** Above every number in the list, and no higher than needed. */
  ghost predicate NextAfter(order: seq<nat>, next: nat) {
    (forall id :: id in order ==> id < next) && (next == 0 || next - 1 in order)
  }

  lemma NextIsLastPlusOne(order: seq<nat>, next: nat)
    requires Increasing(order) && NextAfter(order, next)
    ensures next == if order == [] then 0 else order[|order| - 1] + 1
  {
    if order != [] {
      assert order[|order| - 1] in order;
      var i :| 0 <= i < |order| && order[i] == next - 1;
    }
  }

  lemma NextGrows(order: seq<nat>, next: nat, id: nat)
    requires NextAfter(order, next)
    ensures NextAfter(InsertSorted(order, id), if id >= next then id + 1 else next)
  {
    InsertSortedElements(order, id);
    hide InsertSorted;
  }

  /** The index of the entries seen so far. */
  ghost predicate Scanned(disk: Disk, seen: set<nat>, order: seq<nat>, sizes: map<nat, nat>, total: nat, next: nat) {
    && seen <= disk.files.Keys && Increasing(order) && NextAfter(order, next)
    && (forall id :: id in order <==> id in seen)
    && sizes.Keys == seen && (forall id :: id in sizes ==> sizes[id] == disk.files[id].size)
    && total == Sum(order, sizes)
  }

  lemma ScanStart(disk: Disk)
    ensures Scanned(disk, {}, [], map[], 0, 0)
  {
  }

  lemma ScanStep(disk: Disk, seen: set<nat>, order: seq<nat>, sizes: map<nat, nat>, total: nat, next: nat, id: nat)
    requires Scanned(disk, seen, order, sizes, total, next) && id in disk.files && id !in seen
    ensures Scanned(disk, seen + {id}, InsertSorted(order, id), sizes[id := disk.files[id].size],
                    total + disk.files[id].size, if id >= next then id + 1 else next)
  {
    hide InsertSorted, NextAfter, Sum, Increasing;
    InsertSortedElements(order, id);
    InsertSortedIncreases(order, id);
    var grown := sizes[id := disk.files[id].size];
    SumIgnores(order, sizes, grown);
    InsertSortedSum(order, id, grown);
    NextGrows(order, next, id);
  }

  lemma ScanDone(disk: Disk, order: seq<nat>, sizes: map<nat, nat>, total: nat, next: nat)
    requires Scanned(disk, disk.files.Keys, order, sizes, total, next)
    ensures Increasing(order) && (forall id :: id in order <==> id in disk.files)
    ensures sizes == (map id | id in disk.files :: disk.files[id].size) && total == Sum(order, sizes)
    ensures next == if order == [] then 0 else order[|order| - 1] + 1
  {
    NextIsLastPlusOne(order, next);
    hide NextAfter, Sum, Increasing;
  }

  /** Scans the directory in whatever order it lists its entries. Temporary files are not entries. */
  method BuildIndex(disk: Disk) returns (order: seq<nat>, sizes: map<nat, nat>, total: nat, nextSeq: nat)
    ensures Increasing(order) && (forall id :: id in order <==> id in disk.files)
    ensures sizes == (map id | id in disk.files :: disk.files[id].size) && total == Sum(order, sizes)
    ensures nextSeq == if order == [] then 0 else order[|order| - 1] + 1
  {
    hide Scanned, InsertSorted, Sum, Increasing;
    order, sizes, total, nextSeq := [], map[], 0, 0;
    ScanStart(disk);
    var todo := disk.files.Keys;
    assert disk.files.Keys - todo == {};
    while todo != {}
      invariant todo <= disk.files.Keys && Scanned(disk, disk.files.Keys - todo, order, sizes, total, nextSeq)
      decreases todo
    {
      var id :| id in todo;
      ScanStep(disk, disk.files.Keys - todo, order, sizes, total, nextSeq, id);
      assert disk.files.Keys - (todo - {id}) == disk.files.Keys - todo + {id};
      todo := todo - {id};
      if id >= nextSeq { nextSeq := id + 1; }
      order, sizes := InsertSorted(order, id), sizes[id := disk.files[id].size];
      total := total + disk.files[id].size;
    }
    assert disk.files.Keys - todo == disk.files.Keys;
    ScanDone(disk, order, sizes, total, nextSeq);
  }

  lemma {:induction false} WithoutAt(order: seq<nat>, id: nat, i: nat)
    requires i < |order| && order[i] == id && forall j :: 0 <= j < i ==> order[j] != id
    ensures Without(order, id) == order[..i] + order[i + 1..]
  {
    if i == 0 {
    } else {
      WithoutAt(order[1..], id, i - 1);
    }
  }

  lemma {:induction false} WithoutNone(order: seq<nat>, id: nat)
    requires forall j :: 0 <= j < |order| ==> order[j] != id
    ensures Without(order, id) == order
  {
    if order == [] {
    } else {
      WithoutNone(order[1..], id);
    }
  }

  class DiskQueue {
    const maxSize: int
    const maxAge: int
    var nextSeq: nat
    var order: seq<nat>
    var sizes: map<nat, nat>
    var total: int
    var disk: Disk
    /** What was done to the directory, in order. */
    ghost var log: seq<Effect>

    function View(): Queue
      reads this
    {
      Queue(maxSize, maxAge, nextSeq, order, sizes, total, disk)
    }

    constructor Open(disk: Disk, maxSize: int, maxAge: int)
      ensures Opened(View(), disk, maxSize, maxAge) && Inv(View()) && Measured(View()) && log == []
    {
      this.disk, this.maxSize, this.maxAge := disk, maxSize, maxAge;
      var o, s, t, n := BuildIndex(disk);
      order, sizes, total, nextSeq, log := o, s, t, n, [];
      new;
      OpenedInv(View(), disk, maxSize, maxAge);
    }

    /** Deletes the file and takes the id out of the index, wherever it stands. */
    method RemoveLocked(id: nat)
      modifies this
      ensures View() == Remove(old(View()), id) && log == old(log) + [Delete(id)]
    {
      disk := disk.(files := disk.files - {id});
      log := log + [Delete(id)];
      total := total - SizeOf(sizes, id);
      sizes := sizes - {id};
      if |order| > 0 && order[0] == id {
        order := order[1..];
        return;
      }
      hide Without;
      for i := 0 to |order|
        invariant order == old(order) && forall j :: 0 <= j < i ==> order[j] != id
        invariant disk == old(disk).(files := old(disk).files - {id}) && sizes == old(sizes) - {id}
        invariant total == old(total) - SizeOf(old(sizes), id) && nextSeq == old(nextSeq)
        invariant log == old(log) + [Delete(id)]
      {
        if order[i] == id {
          WithoutAt(order, id, i);
          order := order[..i] + order[i + 1..];
          return;
        }
      }
      WithoutNone(order, id);
    }

    /** Drops expired and unreadable entries from the head, deleting their files oldest first. */
    method DropExpiredLocked(now: int) returns (dropped: nat)
      modifies this
      ensures (View(), dropped) == DropExpired(old(View()), now)
      ensures dropped <= |old(order)| && order == old(order)[dropped..]
      ensures log == old(log) + Deletes(old(order)[..dropped])
    {
      dropped := 0;
      if maxAge <= 0 { return; }
      while |order| > 0
        invariant DropExpired(old(View()), now) == (DropExpired(View(), now).0, DropExpired(View(), now).1 + dropped)
        invariant dropped <= |old(order)| && order == old(order)[dropped..]
        invariant log == old(log) + Deletes(old(order)[..dropped])
        decreases |order|
      {
        var id := order[0];
        if id in disk.files && !disk.files[id].Unreadable? && now - disk.files[id].at <= maxAge { break; }
        RemoveLocked(id);
        DeletesStep(old(log), old(order), dropped);
        dropped := dropped + 1;
      }
    }

    /** Drops entries from the head until the rest fits, deleting their files oldest first. */
    method DropOverflowLocked() returns (dropped: nat)
      modifies this
      ensures (View(), dropped) == DropOverflow(old(View()))
      ensures dropped <= |old(order)| && order == old(order)[dropped..]
      ensures log == old(log) + Deletes(old(order)[..dropped])
    {
      dropped := 0;
      if maxSize <= 0 { return; }
      while total > maxSize && |order| > 0
        invariant DropOverflow(old(View())) == (DropOverflow(View()).0, DropOverflow(View()).1 + dropped)
        invariant dropped <= |old(order)| && order == old(order)[dropped..]
        invariant log == old(log) + Deletes(old(order)[..dropped])
        decreases |order|
      {
        RemoveLocked(order[0]);
        DeletesStep(old(log), old(order), dropped);
        dropped := dropped + 1;
      }
    }

    /** Writes the entry under a temporary name, renames it, and applies the bounds: exactly the effects, in that
        order, between which a crash is survived. A failed write leaves at most a temporary file. */
    method EnqueueEntry(f: File, io: Io) returns (ok: bool, dropped: nat)
      requires f.Good? && Inv(View())
      modifies this
      ensures Enqueue(old(View()), f, io) == if ok then Stored(View(), dropped) else Failed(View())
      ensures ok <==> io.Written?
      ensures Inv(View()) && (ok ==> log == old(log) + EnqueueEffects(old(View()), f))
      ensures !ok ==> log == old(log) + if LeavesTemp(io) then [WriteTemp(old(nextSeq))] else []
    {
      hide Inv, Enqueue, EnqueueEffects, Append, DropExpired, DropOverflow;
      ghost var q := View();
      var id := nextSeq;
      if io.Written? { EnqueueInv(q, f); EnqueueParts(q, f); } else { FailedKeepsInv(q, f, io); FailedParts(q, f, io); }
      nextSeq := nextSeq + 1;
      if io.WriteFails? {
        if io.partial {
          disk := disk.(temps := disk.temps + {id});
          log := log + [WriteTemp(id)];
        }
        return false, 0;
      }
      disk := disk.(temps := disk.temps + {id});
      log := log + [WriteTemp(id)];
      if io.RenameFails? { return false, 0; }
      disk := Disk(disk.files[id := f], disk.temps - {id});
      log := log + [Rename(id, f)];
      order := order + [id];
      sizes := sizes[id := f.size];
      total := total + f.size;
      AppendParts(q, f);
      assert View() == Append(q, f);
      var aged := DropExpiredLocked(f.at);
      var sized := DropOverflowLocked();
      EffectsOf(q, f, old(log), aged, sized);
      return true, aged + sized;
    }

    method PeekEntry() returns (p: Peeked)
      modifies this
      ensures (View(), p) == Peek(old(View()))
    {
      if |order| == 0 { return Nothing; }
      var id := order[0];
      if id !in disk.files || !disk.files[id].Good? {
        RemoveLocked(id);
        return Nothing;
      }
      return Head(id, disk.files[id].payload, disk.files[id].at);
    }
  }

  lemma DeletesStep(log: seq<Effect>, order: seq<nat>, k: nat)
    requires k < |order|
    ensures log + Deletes(order[..k]) + [Delete(order[k])] == log + Deletes(order[..k + 1])
    ensures order[k..][1..] == order[k + 1..]
  {
  }

  lemma AppendParts(q: Queue, f: File)
    ensures Append(q, f) ==
            Queue(q.maxSize, q.maxAge, q.nextSeq + 1, q.order + [q.nextSeq], q.sizes[q.nextSeq := f.size],
                  q.total + f.size, Disk(q.disk.files[q.nextSeq := f], q.disk.temps + {q.nextSeq} - {q.nextSeq}))
  {
    assert q.disk.temps + {q.nextSeq} - {q.nextSeq} == q.disk.temps - {q.nextSeq};
  }

  lemma EnqueueParts(q: Queue, f: File)
    requires f.Good?
    ensures var aged := DropExpired(Append(q, f), f.at); var sized := DropOverflow(aged.0);
            Enqueue(q, f, Written) == Stored(sized.0, aged.1 + sized.1)
  {
  }

  lemma FailedParts(q: Queue, f: File, io: Io)
    requires f.Good? && !io.Written?
    ensures Enqueue(q, f, io) ==
            Failed(q.(nextSeq := q.nextSeq + 1,
                      disk := if LeavesTemp(io) then q.disk.(temps := q.disk.temps + {q.nextSeq}) else q.disk))
  {
  }

  lemma EnqueueInv(q: Queue, f: File)
    requires Inv(q) && f.Good?
    ensures Enqueue(q, f, Written).Stored? && Inv(Enqueue(q, f, Written).q)
  {
    hide Enqueue, AgeCut, Fits, Append;
    EnqueueOptimal(q, f);
    SuffixInv(Enqueue(q, f, Written).q, Append(q, f), Enqueue(q, f, Written).dropped);
  }

  /** The two sweeps together delete what the enqueue drops, in order. */
  lemma EffectsOf(q: Queue, f: File, log: seq<Effect>, aged: nat, sized: nat)
    requires Inv(q) && f.Good? && Enqueue(q, f, Written).Stored? && aged + sized == Enqueue(q, f, Written).dropped
    requires aged + sized <= |Append(q, f).order|
    ensures var all := Append(q, f).order;
            log + [WriteTemp(q.nextSeq)] + [Rename(q.nextSeq, f)]
            + Deletes(all[..aged]) + Deletes(all[aged..][..sized]) ==
            log + EnqueueEffects(q, f)
  {
    hide Enqueue, Inv, Append;
    var all := Append(q, f).order;
    var two, es := [WriteTemp(q.nextSeq), Rename(q.nextSeq, f)], EnqueueEffects(q, f);
    assert es == two + Deletes(all[..aged + sized]);
    hide EnqueueEffects;
    assert Deletes(all[..aged]) + Deletes(all[aged..][..sized]) == Deletes(all[..aged + sized]);
    assert log + [WriteTemp(q.nextSeq)] + [Rename(q.nextSeq, f)] == log + two;
    hide Deletes;
  }
}

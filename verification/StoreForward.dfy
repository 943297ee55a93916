/**
 The store-and-forward queue: a disk-backed FIFO bounded in age and size, whose in-memory index is
 rebuilt from the entry files alone after a crash. An id is an entry's sequence number; the file
 names pad it to twenty digits, so names and numbers order alike.
 */
module StoreForward {
  import opened Bytes

  /** An entry file as it reads back: intact, with an undecodable payload, or not readable at all. */
  datatype File =
    | Good(size: nat, at: int, payload: seq<Byte>)
    | BadPayload(size: nat, at: int)
    | Unreadable(size: nat)

  /** The directory: entry files by sequence number, and temporary files a crash may have left. */
  datatype Disk = Disk(files: map<nat, File>, temps: set<nat>)

  datatype Queue = Queue(maxSize: int, maxAge: int, nextSeq: nat, order: seq<nat>, sizes: map<nat, nat>,
                         total: int, disk: Disk)

  function SizeOf(sizes: map<nat, nat>, id: nat): nat { if id in sizes then sizes[id] else 0 }

  function Sum(order: seq<nat>, sizes: map<nat, nat>): nat {
    if order == [] then 0 else SizeOf(sizes, order[0]) + Sum(order[1..], sizes)
  }

  ghost predicate Increasing(s: seq<nat>) { forall i, j :: 0 <= i < j < |s| ==> s[i] < s[j] }

  /** The index agrees with the directory: same entries, oldest first, sizes added up, fresh numbers ahead. */
  ghost predicate Inv(q: Queue) {
    && Increasing(q.order)
    && (forall id :: id in q.order <==> id in q.disk.files)
    && (forall id :: id in q.order <==> id in q.sizes)
    && q.total == Sum(q.order, q.sizes)
    && forall id :: id in q.order ==> id < q.nextSeq
  }

  /** The recorded size of each entry is the size of its file. A file that goes bad later may change size without
      the index noticing, so this is kept apart. */
  ghost predicate Measured(q: Queue) {
    forall id :: id in q.order ==> id in q.sizes && id in q.disk.files && q.sizes[id] == q.disk.files[id].size
  }

  // ----- Removing -----

  function Without(order: seq<nat>, id: nat): seq<nat> {
    if order == [] then [] else if order[0] == id then order[1..] else [order[0]] + Without(order[1..], id)
  }

  function Remove(q: Queue, id: nat): Queue {
    q.(disk := q.disk.(files := q.disk.files - {id}), total := q.total - SizeOf(q.sizes, id),
       sizes := q.sizes - {id}, order := Without(q.order, id))
  }

  // ----- Bounds -----

  /** What the age sweep drops from the head: unreadable files and entries older than the limit. */
  predicate TooOld(q: Queue, id: nat, now: int) {
    id !in q.disk.files || q.disk.files[id].Unreadable? || now - q.disk.files[id].at > q.maxAge
  }

  function DropExpired(q: Queue, now: int): (Queue, nat)
    decreases |q.order|
  {
    if q.maxAge <= 0 || q.order == [] || !TooOld(q, q.order[0], now) then (q, 0)
    else
      var r := DropExpired(Remove(q, q.order[0]), now);
      (r.0, r.1 + 1)
  }

  function DropOverflow(q: Queue): (Queue, nat)
    decreases |q.order|
  {
    if q.maxSize <= 0 || q.total <= q.maxSize || q.order == [] then (q, 0)
    else
      var r := DropOverflow(Remove(q, q.order[0]));
      (r.0, r.1 + 1)
  }

  // ----- Enqueue and Peek -----

  /** How the two file operations of an enqueue end. A write that fails may have left part of a file behind. */
  datatype Io = Written | WriteFails(partial: bool) | RenameFails

  predicate LeavesTemp(io: Io) { io.RenameFails? || (io.WriteFails? && io.partial) }

  function Append(q: Queue, f: File): Queue {
    var id := q.nextSeq;
    q.(nextSeq := id + 1, disk := Disk(q.disk.files[id := f], q.disk.temps - {id}),
       order := q.order + [id], sizes := q.sizes[id := f.size], total := q.total + f.size)
  }

  /** The queue afterwards, and how many entries the bounds dropped, or nothing if the write failed. */
  datatype Enqueued = Stored(q: Queue, dropped: nat) | Failed(q: Queue)

  function Enqueue(q: Queue, f: File, io: Io): Enqueued
    requires f.Good?
  {
    match io
    case Written =>
      var aged := DropExpired(Append(q, f), f.at);
      var sized := DropOverflow(aged.0);
      Stored(sized.0, aged.1 + sized.1)
    case _ =>
      Failed(q.(nextSeq := q.nextSeq + 1,
                disk := if LeavesTemp(io) then q.disk.(temps := q.disk.temps + {q.nextSeq}) else q.disk))
  }

  datatype Peeked = Nothing | Head(id: nat, payload: seq<Byte>, at: int)

  function Peek(q: Queue): (Queue, Peeked) {
    if q.order == [] then (q, Nothing)
    else
      var id := q.order[0];
      if id !in q.disk.files || !q.disk.files[id].Good? then (Remove(q, id), Nothing)
      else (q, Head(id, q.disk.files[id].payload, q.disk.files[id].at))
  }

  // ----- Removal keeps the index -----

  lemma {:induction false} SumIgnores(order: seq<nat>, sizes: map<nat, nat>, sizes': map<nat, nat>)
    requires forall id :: id in order ==> SizeOf(sizes, id) == SizeOf(sizes', id)
    ensures Sum(order, sizes) == Sum(order, sizes')
  {
    if order == [] {
    } else {
      SumIgnores(order[1..], sizes, sizes');
    }
  }

  lemma {:induction false} WithoutHead(order: seq<nat>, id: nat)
    requires Increasing(order)
    ensures Increasing(Without(order, id))
    ensures forall x :: x in Without(order, id) <==> x in order && x != id
    ensures id !in order ==> Without(order, id) == order
  {
    if order == [] {
    } else if order[0] == id {
      assert forall x :: x in order[1..] ==> x != id;
    } else {
      WithoutHead(order[1..], id);
      var w := Without(order[1..], id);
      assert Without(order, id) == [order[0]] + w;
      hide Without;
      forall x | x in w ensures order[0] < x { BehindHead(order, x); }
      InFront(order[0], w);
      forall x ensures x in [order[0]] + w <==> x in order && x != id {
        assert x in order <==> x == order[0] || x in order[1..];
      }
    }
  }

  lemma InFront(x: nat, w: seq<nat>)
    requires Increasing(w) && forall y :: y in w ==> x < y
    ensures Increasing([x] + w)
  {
    var s := [x] + w;
    forall i, j | 0 <= i < j < |s| ensures s[i] < s[j] {
      assert s[j] == w[j - 1] && w[j - 1] in w;
      if i > 0 { assert s[i] == w[i - 1]; }
    }
  }

  lemma BehindHead(order: seq<nat>, x: nat)
    requires order != [] && Increasing(order) && x in order[1..]
    ensures order[0] < x
  {
  }

  lemma {:induction false} SumWithout(order: seq<nat>, sizes: map<nat, nat>, id: nat)
    requires Increasing(order)
    ensures Sum(Without(order, id), sizes - {id}) == Sum(order, sizes) - if id in order then SizeOf(sizes, id) else 0
  {
    if order == [] {
    } else {
      if order[0] == id {
        assert id !in order[1..];
        SumIgnores(order[1..], sizes, sizes - {id});
      } else {
        SumWithout(order[1..], sizes, id);
        assert ([order[0]] + Without(order[1..], id))[1..] == Without(order[1..], id);
      }
    }
  }

  lemma RemoveKeepsInv(q: Queue, id: nat)
    requires Inv(q)
    ensures Inv(Remove(q, id))
  {
    hide Without, Sum;
    WithoutHead(q.order, id);
    SumWithout(q.order, q.sizes, id);
  }

  /** Removing an entry that is already gone changes nothing at all. */
  lemma RemoveEvicted(q: Queue, id: nat)
    requires Inv(q) && id !in q.order
    ensures Remove(q, id) == q
  {
    hide Sum, Without;
    WithoutHead(q.order, id);
    assert q.disk.files - {id} == q.disk.files;
    assert q.sizes - {id} == q.sizes;
  }

  // ----- What the bounds leave -----

  /** d is q without its k oldest entries: same order, files and sizes for the rest, index still consistent. */
  ghost predicate Suffix(d: Queue, q: Queue, k: nat) {
    && k <= |q.order| && d.order == q.order[k..]
    && Inv(d)
    && d.nextSeq == q.nextSeq && d.maxSize == q.maxSize && d.maxAge == q.maxAge && d.disk.temps == q.disk.temps
    && forall id :: id in d.order ==> SameEntry(d, q, id)
  }

  ghost predicate SameEntry(d: Queue, q: Queue, id: nat) {
    && id in d.disk.files && id in q.disk.files && d.disk.files[id] == q.disk.files[id]
    && SizeOf(d.sizes, id) == SizeOf(q.sizes, id)
  }

  lemma SuffixZero(q: Queue)
    requires Inv(q)
    ensures Suffix(q, q, 0)
  {
  }

  lemma HeadRemoved(q: Queue)
    requires Inv(q) && q.order != []
    ensures Suffix(Remove(q, q.order[0]), q, 1)
  {
    RemoveKeepsInv(q, q.order[0]);
    assert q.order[0] !in q.order[1..];
  }

  lemma SuffixStep(d: Queue, m: Queue, q: Queue, k: nat)
    requires Suffix(m, q, 1) && Suffix(d, m, k)
    ensures Suffix(d, q, k + 1)
  {
    hide Inv;
    assert q.order[1..][k..] == q.order[k + 1..];
    forall id | id in d.order ensures SameEntry(d, q, id) {
      assert SameEntry(d, m, id);
      assert id in m.order[k..] && id in m.order;
      assert SameEntry(m, q, id);
    }
  }

  /** The first entry from i on that the age limit keeps. */
  ghost function AgeCut(q: Queue, now: int, i: nat): (k: nat)
    requires i <= |q.order|
    ensures i <= k <= |q.order|
    ensures q.maxAge > 0 ==> forall j :: i <= j < k ==> TooOld(q, q.order[j], now)
    ensures q.maxAge > 0 && k < |q.order| ==> !TooOld(q, q.order[k], now)
    ensures q.maxAge <= 0 ==> k == i
    decreases |q.order| - i
  {
    if q.maxAge > 0 && i < |q.order| && TooOld(q, q.order[i], now) then AgeCut(q, now, i + 1) else i
  }

  lemma {:induction false} AgeCutShifts(q: Queue, m: Queue, now: int, i: nat)
    requires Suffix(m, q, 1) && i <= |m.order|
    ensures AgeCut(m, now, i) + 1 == AgeCut(q, now, i + 1)
    decreases |m.order| - i
  {
    hide Inv;
    if i == |m.order| {
    } else {
      assert m.order[i] == q.order[i + 1];
      assert SameEntry(m, q, m.order[i]);
      assert TooOld(m, m.order[i], now) <==> TooOld(q, q.order[i + 1], now);
      if TooOld(m, m.order[i], now) && m.maxAge > 0 { AgeCutShifts(q, m, now, i + 1); }
    }
  }

  lemma {:induction false} DropExpiredExact(q: Queue, now: int)
    requires Inv(q)
    ensures Suffix(DropExpired(q, now).0, q, DropExpired(q, now).1)
    ensures DropExpired(q, now).1 == AgeCut(q, now, 0)
    decreases |q.order|
  {
    hide Suffix, Inv;
    if q.maxAge <= 0 || q.order == [] || !TooOld(q, q.order[0], now) {
      SuffixZero(q);
    } else {
      HeadRemoved(q);
      var m := Remove(q, q.order[0]);
      SuffixInv(m, q, 1);
      DropExpiredExact(m, now);
      SuffixStep(DropExpired(m, now).0, m, q, DropExpired(m, now).1);
      AgeCutShifts(q, m, now, 0);
    }
  }

  lemma SuffixInv(d: Queue, q: Queue, k: nat)
    requires Suffix(d, q, k)
    ensures Inv(d) && k <= |q.order| && d.order == q.order[k..] && |d.order| == |q.order| - k
    ensures d.maxSize == q.maxSize && d.maxAge == q.maxAge && d.nextSeq == q.nextSeq
  {
  }

  /** The entries from i on fit the size bound. */
  ghost predicate Fits(q: Queue, i: nat)
    requires i <= |q.order|
  {
    q.maxSize <= 0 || Sum(q.order[i..], q.sizes) <= q.maxSize
  }

  lemma FitsShifts(q: Queue, m: Queue, i: nat)
    requires Suffix(m, q, 1) && i <= |m.order|
    ensures Fits(m, i) <==> Fits(q, i + 1)
  {
    hide Inv, Sum;
    assert m.order[i..] == q.order[i + 1..];
    forall id | id in m.order[i..] ensures SizeOf(m.sizes, id) == SizeOf(q.sizes, id) {
      assert id in m.order && SameEntry(m, q, id);
    }
    SumIgnores(m.order[i..], m.sizes, q.sizes);
  }

  /** k is the least number of entries whose removal makes the rest fit. */
  ghost predicate LeastFit(q: Queue, k: nat) {
    k <= |q.order| && Fits(q, k) && forall i :: 0 <= i < k ==> !Fits(q, i)
  }

  lemma {:induction false} DropOverflowExact(q: Queue)
    requires Inv(q)
    ensures Suffix(DropOverflow(q).0, q, DropOverflow(q).1)
    ensures LeastFit(q, DropOverflow(q).1)
    decreases |q.order|
  {
    hide Suffix, Fits, Inv, Remove;
    FitsAtZero(q);
    if q.maxSize <= 0 || q.total <= q.maxSize || q.order == [] {
      SuffixZero(q);
    } else {
      HeadRemoved(q);
      var m := Remove(q, q.order[0]);
      SuffixInv(m, q, 1);
      DropOverflowExact(m);
      var k := DropOverflow(m).1;
      SuffixStep(DropOverflow(m).0, m, q, k);
      FitsShifts(q, m, k);
      forall i | 0 <= i < k + 1 ensures !Fits(q, i) {
        if i > 0 { FitsShifts(q, m, i - 1); }
      }
    }
  }

  lemma FitsAtZero(q: Queue)
    requires Inv(q)
    ensures Fits(q, 0) <==> q.maxSize <= 0 || q.total <= q.maxSize
    ensures q.order == [] && q.total <= 0 ==> Fits(q, 0)
    ensures q.order == [] ==> q.total == 0
  {
    assert q.order[0..] == q.order;
  }

  // ----- Enqueue -----

  lemma SumAppends(order: seq<nat>, sizes: map<nat, nat>, id: nat)
    ensures Sum(order + [id], sizes) == Sum(order, sizes) + SizeOf(sizes, id)
  {
    if order == [] {
      assert order + [id] == [id] && [id][1..] == [];
    } else {
      assert (order + [id])[1..] == order[1..] + [id];
      SumAppends(order[1..], sizes, id);
    }
  }

  lemma Behind(order: seq<nat>, x: nat)
    requires Increasing(order) && forall y :: y in order ==> y < x
    ensures Increasing(order + [x]) && x !in order && forall y :: y in order + [x] <==> y in order || y == x
  {
    var s := order + [x];
    forall i, j | 0 <= i < j < |s| ensures s[i] < s[j] {
      assert s[i] == order[i] && order[i] in order;
      if j < |order| { assert s[j] == order[j]; }
    }
  }

  lemma AppendKeepsInv(q: Queue, f: File)
    requires Inv(q)
    ensures Inv(Append(q, f))
  {
    hide Sum;
    var a := Append(q, f);
    Behind(q.order, q.nextSeq);
    SumIgnores(q.order, q.sizes, a.sizes);
    SumAppends(q.order, a.sizes, q.nextSeq);
    hide Increasing;
  }

  lemma FailedKeepsInv(q: Queue, f: File, io: Io)
    requires Inv(q) && f.Good? && !io.Written?
    ensures Enqueue(q, f, io) == Failed(Enqueue(q, f, io).q) && Inv(Enqueue(q, f, io).q)
    ensures Enqueue(q, f, io).q.order == q.order && Enqueue(q, f, io).q.disk.files == q.disk.files
    ensures Enqueue(q, f, io).q.nextSeq == q.nextSeq + 1
    ensures Enqueue(q, f, io).q.disk.temps ==
            q.disk.temps + if io == RenameFails || io == WriteFails(true) then {q.nextSeq} else {}
  {
  }

  /** Entries from i on fit, counted in the queue that the age sweep has already cut at `cut`. */
  lemma FitsAfterCut(d: Queue, q: Queue, cut: nat, i: nat)
    requires Suffix(d, q, cut) && i <= |d.order|
    ensures Fits(d, i) <==> Fits(q, cut + i)
  {
    hide Inv, Sum;
    assert d.order[i..] == q.order[cut + i..];
    forall id | id in d.order[i..] ensures SizeOf(d.sizes, id) == SizeOf(q.sizes, id) {
      assert id in d.order && SameEntry(d, q, id);
    }
    SumIgnores(d.order[i..], d.sizes, q.sizes);
  }

  lemma SuffixTwice(d: Queue, m: Queue, q: Queue, j: nat, k: nat)
    requires Suffix(m, q, j) && Suffix(d, m, k)
    ensures Suffix(d, q, j + k)
  {
    hide Inv;
    assert q.order[j..][k..] == q.order[j + k..];
    forall id | id in d.order ensures SameEntry(d, q, id) {
      assert SameEntry(d, m, id);
      assert id in m.order[k..] && id in m.order;
      assert SameEntry(m, q, id);
    }
  }

  /** What is left after an enqueue is the longest suffix of the age-swept queue, new entry included,
      that fits the size bound; the returned count is exactly the number of entries lost. */
  lemma EnqueueOptimal(q: Queue, f: File)
    requires Inv(q) && f.Good?
    ensures Enqueue(q, f, Written).Stored?
    ensures var all, r := Append(q, f), Enqueue(q, f, Written);
            var cut := AgeCut(all, f.at, 0);
            Inv(all) && Suffix(r.q, all, r.dropped) && cut <= r.dropped && Fits(all, r.dropped) &&
            forall i :: cut <= i < r.dropped ==> !Fits(all, i)
  {
    hide Suffix, Fits, Inv, Append, DropExpired, DropOverflow, AgeCut;
    AppendKeepsInv(q, f);
    var all := Append(q, f);
    DropExpiredExact(all, f.at);
    var aged, cut := DropExpired(all, f.at).0, DropExpired(all, f.at).1;
    SuffixInv(aged, all, cut);
    DropOverflowExact(aged);
    var k := DropOverflow(aged).1;
    SuffixTwice(DropOverflow(aged).0, aged, all, cut, k);
    FitsAfterCut(aged, all, cut, k);
    forall i | cut <= i < cut + k ensures !Fits(all, i) {
      FitsAfterCut(aged, all, cut, i - cut);
    }
  }

  lemma AgeKeepsLast(q: Queue, f: File)
    requires f.Good?
    ensures AgeCut(Append(q, f), f.at, 0) <= |q.order| == |Append(q, f).order| - 1
  {
    var all := Append(q, f);
    assert all.order[|q.order|] == q.nextSeq;
    assert all.maxAge > 0 ==> !TooOld(all, q.nextSeq, f.at);
  }

  lemma LastInSuffix(order: seq<nat>, id: nat, k: nat)
    requires k <= |order| + 1
    ensures id in (order + [id])[k..] <==> k <= |order|
  {
    if k <= |order| { assert (order + [id])[k..][|order| - k] == id; }
  }

  /** The entry just written is itself dropped, and counted, exactly when it alone exceeds the size bound. */
  lemma NewEntryLost(q: Queue, f: File)
    requires Inv(q) && f.Good?
    ensures q.nextSeq !in Enqueue(q, f, Written).q.order <==> q.maxSize > 0 && f.size > q.maxSize
  {
    hide Suffix, Fits, Inv, AgeCut, Enqueue, DropExpired, DropOverflow;
    var all, r, n := Append(q, f), Enqueue(q, f, Written), |q.order|;
    EnqueueOptimal(q, f);
    SuffixInv(r.q, all, r.dropped);
    AgeKeepsLast(q, f);
    LastFits(q, f);
    LastInSuffix(q.order, q.nextSeq, r.dropped);
    if r.dropped <= n { FitsGrows(all, r.dropped, n); }
  }

  lemma LastFits(q: Queue, f: File)
    ensures var all, n := Append(q, f), |q.order|;
            Fits(all, n) <==> q.maxSize <= 0 || f.size <= q.maxSize
  {
    var all, n := Append(q, f), |q.order|;
    assert all.order[n..] == [q.nextSeq] && [q.nextSeq][1..] == [];
    assert Sum([q.nextSeq], all.sizes) == f.size + Sum([], all.sizes);
  }

  lemma {:induction false} FitsGrows(q: Queue, i: nat, j: nat)
    requires i <= j <= |q.order| && Fits(q, i)
    ensures Fits(q, j)
    decreases j - i
  {
    if i == j {
    } else {
      assert q.order[i..][1..] == q.order[i + 1..];
      FitsGrows(q, i + 1, j);
    }
  }

  function Stamp(q: Queue, id: nat): int {
    if id in q.disk.files && !q.disk.files[id].Unreadable? then q.disk.files[id].at else 0
  }

  ghost predicate StampsAdvance(q: Queue) {
    && (forall j, k :: 0 <= j < k < |q.order| ==> Stamp(q, q.order[j]) <= Stamp(q, q.order[k]))
    && forall id :: id in q.order ==> id in q.disk.files && !q.disk.files[id].Unreadable?
  }

  /** With readable entries whose timestamps never go back, the age sweep leaves nothing too old anywhere. */
  lemma AgeCutComplete(q: Queue, now: int, i: nat)
    requires StampsAdvance(q) && q.maxAge > 0 && AgeCut(q, now, 0) <= i < |q.order|
    ensures !TooOld(q, q.order[i], now)
  {
    var cut := AgeCut(q, now, 0);
    assert q.order[cut] in q.order && q.order[i] in q.order;
    assert Stamp(q, q.order[cut]) <= Stamp(q, q.order[i]);
  }

  /** So no survivor of an enqueue is older than the age limit. */
  lemma NothingExpiredStays(q: Queue, f: File, i: nat)
    requires Inv(q) && f.Good? && q.maxAge > 0 && StampsAdvance(Append(q, f))
    requires i < |Enqueue(q, f, Written).q.order|
    ensures !TooOld(Enqueue(q, f, Written).q, Enqueue(q, f, Written).q.order[i], f.at)
  {
    hide Fits, Inv, AgeCut, Enqueue, StampsAdvance;
    var all, r := Append(q, f), Enqueue(q, f, Written);
    EnqueueOptimal(q, f);
    AgeCutComplete(all, f.at, r.dropped + i);
    var id := r.q.order[i];
    assert id == all.order[r.dropped + i];
    assert SameEntry(r.q, all, id);
  }

  lemma RemoveMeasured(q: Queue, id: nat)
    requires Inv(q) && Measured(q)
    ensures Measured(Remove(q, id))
  {
    hide Sum;
    WithoutHead(q.order, id);
  }

  lemma AppendMeasured(q: Queue, f: File)
    requires Measured(q)
    ensures Measured(Append(q, f))
  {
  }

  lemma SuffixMeasured(d: Queue, q: Queue, k: nat)
    requires Suffix(d, q, k) && Measured(q)
    ensures Measured(d)
  {
    hide Sum, Increasing;
    forall x | x in d.order ensures x in d.sizes && x in d.disk.files && d.sizes[x] == d.disk.files[x].size {
      assert SameEntry(d, q, x) && x in q.order;
    }
  }

  /** Enqueues and removals keep recorded and real sizes equal, so the size bound is a bound on the files. */
  lemma MeasuredKept(q: Queue, f: File, id: nat)
    requires Inv(q) && Measured(q) && f.Good?
    ensures Measured(Remove(q, id)) && Enqueue(q, f, Written).Stored? && Measured(Enqueue(q, f, Written).q)
  {
    hide Enqueue, AgeCut, Fits, Append, Inv, Measured, Remove, Suffix;
    RemoveMeasured(q, id);
    AppendMeasured(q, f);
    EnqueueOptimal(q, f);
    SuffixMeasured(Enqueue(q, f, Written).q, Append(q, f), Enqueue(q, f, Written).dropped);
  }

  // ----- Crash and recovery -----

  /** The index that Open builds from a directory: every entry file, sorted by number. */
  ghost predicate Opened(s: Queue, disk: Disk, maxSize: int, maxAge: int) {
    && s.disk == disk && s.maxSize == maxSize && s.maxAge == maxAge
    && Increasing(s.order) && (forall id :: id in s.order <==> id in disk.files)
    && s.sizes == (map id | id in disk.files :: disk.files[id].size)
    && s.total == Sum(s.order, s.sizes)
    && s.nextSeq == if s.order == [] then 0 else s.order[|s.order| - 1] + 1
  }

  lemma OpenedInv(s: Queue, disk: Disk, maxSize: int, maxAge: int)
    requires Opened(s, disk, maxSize, maxAge)
    ensures Inv(s) && Measured(s)
  {
    forall id | id in s.order ensures id < s.nextSeq {
      var i :| 0 <= i < |s.order| && s.order[i] == id;
    }
  }

  lemma HasElement(s: seq<nat>)
    requires s != []
    ensures exists x :: x in s
  {
    assert s[0] in s;
  }

  lemma {:induction false} SameElements(a: seq<nat>, b: seq<nat>)
    requires Increasing(a) && Increasing(b) && forall x :: x in a <==> x in b
    ensures a == b
  {
    if a == [] {
      if b != [] { HasElement(b); }
    } else {
      assert a[0] in b;
      assert b[0] in a;
      assert a[0] == b[0];
      assert forall x :: x in a[1..] <==> x in a && x != a[0];
      assert forall x :: x in b[1..] <==> x in b && x != b[0];
      SameElements(a[1..], b[1..]);
    }
  }

  /** The changes to the directory, each of which happens as a whole or not at all. */
  datatype Effect = WriteTemp(id: nat) | Rename(id: nat, f: File) | Delete(id: nat)

  function Apply(d: Disk, e: Effect): Disk {
    match e
    case WriteTemp(id) => d.(temps := d.temps + {id})
    case Rename(id, f) => Disk(d.files[id := f], d.temps - {id})
    case Delete(id) => d.(files := d.files - {id})
  }

  function ApplyAll(d: Disk, es: seq<Effect>): Disk {
    if es == [] then d else Apply(ApplyAll(d, es[..|es| - 1]), es[|es| - 1])
  }

  function Deletes(ids: seq<nat>): (es: seq<Effect>)
    ensures |es| == |ids|
  {
    seq(|ids|, i requires 0 <= i < |ids| => Delete(ids[i]))
  }

  /** Everything a successful enqueue does to the directory, in order. */
  function EnqueueEffects(q: Queue, f: File): (es: seq<Effect>)
    requires Inv(q) && f.Good?
    ensures Enqueue(q, f, Written).Stored? && |es| == 2 + Enqueue(q, f, Written).dropped <= 2 + |Append(q, f).order|
  {
    EnqueueOptimal(q, f);
    [WriteTemp(q.nextSeq), Rename(q.nextSeq, f)] + Deletes(Append(q, f).order[..Enqueue(q, f, Written).dropped])
  }

  lemma {:induction false} DeletesApply(d: Disk, ids: seq<nat>)
    ensures ApplyAll(d, Deletes(ids)).temps == d.temps
    ensures forall id :: id in ApplyAll(d, Deletes(ids)).files <==> id in d.files && id !in ids
    ensures forall id :: id in ApplyAll(d, Deletes(ids)).files ==> ApplyAll(d, Deletes(ids)).files[id] == d.files[id]
  {
    if ids == [] {
    } else {
      var n := |ids| - 1;
      assert Deletes(ids)[..n] == Deletes(ids[..n]);
      DeletesApply(d, ids[..n]);
      assert ids == ids[..n] + [ids[n]];
    }
  }

  lemma {:induction false} ApplyAppends(d: Disk, a: seq<Effect>, b: seq<Effect>)
    ensures ApplyAll(d, a + b) == ApplyAll(ApplyAll(d, a), b)
  {
    if b == [] {
      assert a + b == a;
    } else {
      var n := |b| - 1;
      assert (a + b)[..|a| + n] == a + b[..n];
      ApplyAppends(d, a, b[..n]);
    }
  }

  /** The directory once the entry is in place: the two first effects of an enqueue. */
  lemma FirstEffects(d: Disk, id: nat, f: File)
    ensures ApplyAll(d, [WriteTemp(id)]) == d.(temps := d.temps + {id})
    ensures ApplyAll(d, [WriteTemp(id), Rename(id, f)]) == Disk(d.files[id := f], d.temps - {id})
  {
    var two := [WriteTemp(id), Rename(id, f)];
    assert two[..1] == [WriteTemp(id)] && [WriteTemp(id)][..0] == [];
    assert ApplyAll(d, []) == d;
    assert (d.temps + {id}) - {id} == d.temps - {id};
  }

  /** The directory after the first k effects of an enqueue. */
  lemma PartialEffects(q: Queue, f: File, k: nat)
    requires Inv(q) && f.Good? && k <= |EnqueueEffects(q, f)|
    ensures var d := ApplyAll(q.disk, EnqueueEffects(q, f)[..k]);
            if k < 2 then d.files == q.disk.files
            else d == ApplyAll(Append(q, f).disk, Deletes(Append(q, f).order[..k - 2]))
  {
    hide Inv, Enqueue, Append;
    var all, es := Append(q, f), EnqueueEffects(q, f);
    FirstEffects(q.disk, q.nextSeq, f);
    AppendDisk(q, f);
    if k == 0 {
      assert es[..k] == [];
    } else if k == 1 {
      assert es[..k] == [WriteTemp(q.nextSeq)];
    } else {
      TakeDeletes([WriteTemp(q.nextSeq), Rename(q.nextSeq, f)], all.order, Enqueue(q, f, Written).dropped, k - 2);
      hide EnqueueEffects, Deletes, ApplyAll;
      ApplyAppends(q.disk, [WriteTemp(q.nextSeq), Rename(q.nextSeq, f)], Deletes(all.order[..k - 2]));
    }
  }

  lemma AppendDisk(q: Queue, f: File)
    ensures Append(q, f).disk == Disk(q.disk.files[q.nextSeq := f], q.disk.temps - {q.nextSeq})
  {
  }

  lemma TakeDeletes(a: seq<Effect>, ids: seq<nat>, n: nat, k: nat)
    requires k <= n <= |ids|
    ensures (a + Deletes(ids[..n]))[..|a| + k] == a + Deletes(ids[..k])
  {
  }

  /** The effects are exactly what the enqueue does: applied in full they give its directory. */
  lemma EffectsComplete(q: Queue, f: File)
    requires Inv(q) && f.Good?
    ensures ApplyAll(q.disk, EnqueueEffects(q, f)) == Enqueue(q, f, Written).q.disk
  {
    hide Inv, Suffix, Fits, Append, ApplyAll, Deletes, AgeCut, Enqueue;
    EnqueueOptimal(q, f);
    var all, r := Append(q, f), Enqueue(q, f, Written);
    var es := EnqueueEffects(q, f);
    PartialEffects(q, f, |es|);
    assert es[..|es|] == es;
    DeletesApply(all.disk, all.order[..r.dropped]);
    SuffixFiles(r.q, all, r.dropped);
    assert ApplyAll(q.disk, es).files == r.q.disk.files;
  }

  lemma SuffixFiles(d: Queue, q: Queue, k: nat)
    requires Inv(q) && Suffix(d, q, k)
    ensures forall id :: id in d.disk.files <==> id in q.disk.files && id !in q.order[..k]
    ensures forall id :: id in d.disk.files ==> id in q.disk.files && d.disk.files[id] == q.disk.files[id]
    ensures d.disk.temps == q.disk.temps
  {
    CutDisjoint(q.order, k);
    forall id | id in d.disk.files ensures id in q.disk.files && d.disk.files[id] == q.disk.files[id] {
      assert id in d.order && SameEntry(d, q, id);
    }
  }

  lemma CutDisjoint(order: seq<nat>, k: nat)
    requires Increasing(order) && k <= |order|
    ensures forall id :: id in order[k..] <==> id in order && id !in order[..k]
  {
    assert order == order[..k] + order[k..];
    assert forall i, j :: 0 <= i < k <= j < |order| ==> order[i] < order[j];
  }

  lemma OpenAfterDeletes(q: Queue, j: nat, s: Queue)
    requires Inv(q) && j <= |q.order|
    requires Opened(s, ApplyAll(q.disk, Deletes(q.order[..j])), q.maxSize, q.maxAge)
    ensures s.order == q.order[j..]
    ensures forall id :: id in s.order ==> id in q.disk.files && s.disk.files[id] == q.disk.files[id]
  {
    hide ApplyAll, Sum, Deletes;
    DeletesApply(q.disk, q.order[..j]);
    CutDisjoint(q.order, j);
    SameElements(s.order, q.order[j..]);
  }

  /** A crash between any two disk effects of an enqueue, then Open: the queue before it, or the
      queue with the new entry and some of the oldest already gone, in the same order. */
  lemma CrashDuringEnqueue(q: Queue, f: File, k: nat, s: Queue)
    requires Inv(q) && f.Good? && k <= |EnqueueEffects(q, f)|
    requires Opened(s, ApplyAll(q.disk, EnqueueEffects(q, f)[..k]), q.maxSize, q.maxAge)
    ensures Inv(s) && Measured(s)
    ensures if k < 2 then s.order == q.order && s.disk.files == q.disk.files
            else
              var all := Append(q, f);
              s.order == all.order[k - 2..] &&
              forall id :: id in s.order ==> id in all.disk.files && s.disk.files[id] == all.disk.files[id]
  {
    hide ApplyAll, EnqueueEffects, Sum, Enqueue, Deletes;
    OpenedInv(s, ApplyAll(q.disk, EnqueueEffects(q, f)[..k]), q.maxSize, q.maxAge);
    PartialEffects(q, f, k);
    if k < 2 {
      SameElements(s.order, q.order);
    } else {
      AppendKeepsInv(q, f);
      OpenAfterDeletes(Append(q, f), k - 2, s);
    }
  }

  /** A crash around the single disk effect of a remove leaves the queue before it or after it. */
  lemma CrashDuringRemove(q: Queue, id: nat, done: bool, s: Queue)
    requires Inv(q)
    requires Opened(s, if done then Apply(q.disk, Delete(id)) else q.disk, q.maxSize, q.maxAge)
    ensures Inv(s) && s.order == (if done then Remove(q, id).order else q.order)
  {
    OpenedInv(s, if done then Apply(q.disk, Delete(id)) else q.disk, q.maxSize, q.maxAge);
    RemoveKeepsInv(q, id);
    SameElements(s.order, if done then Remove(q, id).order else q.order);
  }
}

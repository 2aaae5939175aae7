/** The buffer cache (bio.c) over the disk (memide.c). */
module BufferCache {
  import opened Basics
  import opened Blocks
  import opened LogSpec
  import opened Params

  const HEAD: nat := NBUF          // the list head `bcache.head`
  const NODEV: int := -1           // binit's `dev = -1`
  const ROOTDEV: int := 1          // the only device iderw serves

  datatype Buf = Buf(dev: int, blockno: nat, busy: bool, valid: bool, dirty: bool, data: Block)

  /** What bget does with its caller: a buffer to hold, sleep (the buffer is busy), or panic. */
  datatype Got = Hold(b: nat) | Asleep | Panic

  // ----- the LRU list -----

  /** `r` is walked forwards by `next` and backwards by `prev`. */
  ghost predicate Linked(r: seq<nat>, next: seq<nat>, prev: seq<nat>)
  {
    && |next| == |prev| == NBUF + 1
    && (forall i :: 0 <= i < |r| ==> r[i] <= NBUF)
    && (forall i :: 0 <= i < |r| - 1 ==> next[r[i]] == r[i+1] && prev[r[i+1]] == r[i])
  }

  ghost predicate Distinct(order: seq<nat>) { forall i, j :: 0 <= i < j < |order| ==> order[i] != order[j] }

  /** One circle: the head, the buffers in `order`, the head again. */
  ghost predicate Ring(order: seq<nat>, next: seq<nat>, prev: seq<nat>)
  {
    && (forall i :: 0 <= i < |order| ==> order[i] < NBUF)
    && Distinct(order)
    && Linked([HEAD] + order + [HEAD], next, prev)
  }

  function Without(order: seq<nat>, p: nat): seq<nat>
    requires p < |order|
  {
    order[..p] + order[p+1..]
  }

  /** `b->next->prev = b->prev; b->prev->next = b->next` (bio.c:131-132). */
  lemma {:induction false} Unlink(order: seq<nat>, next: seq<nat>, prev: seq<nat>, p: nat)
    requires Ring(order, next, prev) && p < |order|
    ensures var b := order[p];
            next[b] <= NBUF && prev[b] <= NBUF
            && Ring(Without(order, p), next[prev[b] := next[b]], prev[next[b] := prev[b]])
  {
    var b := order[p];
    var r := [HEAD] + order + [HEAD];
    var r' := [HEAD] + Without(order, p) + [HEAD];
    assert r[p+1] == b && next[b] == r[p+2] && prev[b] == r[p];
    var next', prev' := next[prev[b] := next[b]], prev[next[b] := prev[b]];
    forall i | 0 <= i < |r'| - 1 ensures next'[r'[i]] == r'[i+1] && prev'[r'[i+1]] == r'[i] {
      assert r'[i] == if i <= p then r[i] else r[i+1];
      assert r'[i+1] == if i + 1 <= p then r[i+1] else r[i+2];
    }
  }

  /** `b->next = head.next; b->prev = &head; head.next->prev = b; head.next = b` (bio.c:133-136). */
  lemma {:induction false} LinkFront(order: seq<nat>, next: seq<nat>, prev: seq<nat>, b: nat)
    requires Ring(order, next, prev) && b < NBUF && b !in order
    ensures next[HEAD] <= NBUF
            && Ring([b] + order, next[b := next[HEAD]][HEAD := b], prev[b := HEAD][next[HEAD] := b])
  {
    var r := [HEAD] + order + [HEAD];
    var r' := [HEAD] + ([b] + order) + [HEAD];
    assert next[r[0]] == r[1];
    var next', prev' := next[b := next[HEAD]][HEAD := b], prev[b := HEAD][next[HEAD] := b];
    forall i | 0 <= i < |r'| - 1 ensures next'[r'[i]] == r'[i+1] && prev'[r'[i+1]] == r'[i] {
      if i >= 1 { assert r'[i+1] == r[i]; }
      if i >= 2 { assert r'[i] == r[i-1] && r[i-1] == order[i-2]; }
    }
  }

  /** The two link arrays after brelse's six stores. */
  ghost function MovedNext(next: seq<nat>, prev: seq<nat>, b: nat): seq<nat>
    requires |next| == |prev| == NBUF + 1 && b < NBUF && prev[b] <= NBUF
  {
    var n := next[prev[b] := next[b]];
    n[b := n[HEAD]][HEAD := b]
  }

  ghost function MovedPrev(next: seq<nat>, prev: seq<nat>, b: nat): seq<nat>
    requires |next| == |prev| == NBUF + 1 && b < NBUF && next[b] <= NBUF && prev[b] <= NBUF
    requires next[prev[b] := next[b]][HEAD] <= NBUF
  {
    prev[next[b] := prev[b]][b := HEAD][next[prev[b] := next[b]][HEAD] := b]
  }

  lemma {:induction false} MoveToFront(order: seq<nat>, next: seq<nat>, prev: seq<nat>, p: nat)
    requires Ring(order, next, prev) && p < |order|
    ensures var b := order[p];
            && b != next[b] <= NBUF && b != prev[b] <= NBUF && next[prev[b] := next[b]][HEAD] <= NBUF
            && Ring([b] + Without(order, p), MovedNext(next, prev, b), MovedPrev(next, prev, b))
  {
    var b := order[p];
    var r := [HEAD] + order + [HEAD];
    assert r[p+1] == b && next[b] == r[p+2] && prev[b] == r[p];
    Unlink(order, next, prev, p);
    LinkFront(Without(order, p), next[prev[b] := next[b]], prev[next[b] := prev[b]], b);
  }

  // ----- choosing a buffer -----

  predicate Matches(b: Buf, dev: int, n: nat) { b.dev == dev && b.blockno == n }

  predicate Recyclable(b: Buf) { !b.busy && !b.dirty }

  ghost predicate IsOrder(order: seq<nat>)
  {
    |order| == NBUF && Distinct(order) && forall i :: 0 <= i < |order| ==> order[i] < NBUF
  }

  /** The most recently used position at or after p whose buffer caches block n of dev. */
  ghost function FirstMatch(bufs: seq<Buf>, order: seq<nat>, dev: int, n: nat, p: nat): (q: nat)
    requires |bufs| == NBUF && IsOrder(order) && p <= |order|
    ensures p <= q <= |order|
    ensures q < |order| ==> Matches(bufs[order[q]], dev, n)
    ensures forall i :: p <= i < q ==> !Matches(bufs[order[i]], dev, n)
    decreases |order| - p
  {
    if p == |order| || Matches(bufs[order[p]], dev, n) then p else FirstMatch(bufs, order, dev, n, p + 1)
  }

  /** The least recently used position before p whose buffer may be recycled, or -1. */
  ghost function LastFree(bufs: seq<Buf>, order: seq<nat>, p: nat): (q: int)
    requires |bufs| == NBUF && IsOrder(order) && p <= |order|
    ensures -1 <= q < p
    ensures q >= 0 ==> Recyclable(bufs[order[q]])
    ensures forall i :: q < i < p ==> !Recyclable(bufs[order[i]])
  {
    if p == 0 then -1 else if Recyclable(bufs[order[p-1]]) then p - 1 else LastFree(bufs, order, p - 1)
  }

  ghost function BgetResult(bufs: seq<Buf>, order: seq<nat>, dev: int, n: nat): (r: Got)
    requires |bufs| == NBUF && IsOrder(order)
    ensures r.Hold? ==> r.b < NBUF && !bufs[r.b].busy
  {
    var p := FirstMatch(bufs, order, dev, n, 0);
    if p < |order| then
      if bufs[order[p]].busy then Asleep else Hold(order[p])
    else
      var q := LastFree(bufs, order, |order|);
      if q >= 0 then Hold(order[q]) else Panic
  }

  /** A first scan that finds nothing has seen every buffer. */
  lemma {:induction false} NoMatch(bufs: seq<Buf>, order: seq<nat>, dev: int, n: nat)
    requires |bufs| == NBUF && IsOrder(order) && FirstMatch(bufs, order, dev, n, 0) == |order|
    ensures forall j :: 0 <= j < NBUF ==> !Matches(bufs[j], dev, n)
  {
    forall j | 0 <= j < NBUF ensures !Matches(bufs[j], dev, n) { EveryBufferListed(order, NBUF, j); }
  }

  /** bget can hand over a buffer for block n at once: one that caches it and is not busy, or any that may be
      recycled. */
  ghost predicate CanGet(bufs: seq<Buf>, n: nat)
  {
    && (forall i :: 0 <= i < |bufs| && Matches(bufs[i], ROOTDEV, n) ==> !bufs[i].busy)
    && ((exists i :: 0 <= i < |bufs| && Matches(bufs[i], ROOTDEV, n))
        || exists i :: 0 <= i < |bufs| && Recyclable(bufs[i]))
  }

  lemma {:induction false} GetsIff(bufs: seq<Buf>, order: seq<nat>, n: nat)
    requires |bufs| == NBUF && IsOrder(order) && Unique(bufs)
    ensures BgetResult(bufs, order, ROOTDEV, n).Hold? <==> CanGet(bufs, n)
  {
    var p, q := FirstMatch(bufs, order, ROOTDEV, n, 0), LastFree(bufs, order, NBUF);
    if p == NBUF {
      NoMatch(bufs, order, ROOTDEV, n);
      if q < 0 {
        forall i | 0 <= i < NBUF ensures !Recyclable(bufs[i]) { EveryBufferListed(order, NBUF, i); }
      }
    }
  }

  /** The buffer bget hands over: a hit is only marked busy, a recycled one is renamed and emptied. */
  function Taken(b: Buf, dev: int, n: nat): Buf {
    if Matches(b, dev, n) then b.(busy := true) else Buf(dev, n, true, false, false, b.data)
  }

  ghost function Below(n: nat): (s: set<nat>)
    ensures |s| == n && forall x :: x in s <==> 0 <= x < n
  {
    if n == 0 then {} else Below(n - 1) + {n - 1}
  }

  ghost function Listed(order: seq<nat>, k: nat): (s: set<nat>)
    requires k <= |order| && Distinct(order)
    ensures |s| == k && forall x :: x in s <==> exists i :: 0 <= i < k && order[i] == x
  {
    if k == 0 then {} else Listed(order, k - 1) + {order[k-1]}
  }

  /** n distinct entries below n: every number below n is on the list. */
  lemma {:induction false} EveryBufferListed(order: seq<nat>, n: nat, b: nat)
    requires |order| == n && Distinct(order) && (forall i :: 0 <= i < n ==> order[i] < n)
    requires b < n
    ensures b in order
  {
    var s, t := Below(n), Listed(order, n);
    assert t <= s;
    SameSize(t, s);
    assert b in s;
  }

  lemma {:induction false} SameSize(s: set<nat>, t: set<nat>)
    requires s <= t && |s| == |t|
    ensures s == t
  {
    assert t == s + (t - s);
  }

  // ----- cached data against the disk -----

  predicate IsFor(b: Buf, n: nat) { b.dev == ROOTDEV && b.valid && b.blockno == n }

  ghost predicate HasBuf(bufs: seq<Buf>, n: nat) { exists i :: 0 <= i < |bufs| && IsFor(bufs[i], n) }

  /** At most one buffer carries a given block of a real device. */
  ghost predicate Unique(bufs: seq<Buf>)
  {
    forall i, j :: 0 <= i < j < |bufs| && bufs[i].dev == bufs[j].dev != NODEV ==> bufs[i].blockno != bufs[j].blockno
  }

  /** `current` is the last value given to each block, `touched` the held buffers whose data was
      changed and not yet passed to bwrite or log_write. */
  ghost predicate BufOk(b: Buf, touched: bool, disk: Disk, current: Disk)
    requires |current| == |disk|
  {
    && (b.dev == ROOTDEV && b.valid ==>
          b.blockno < |disk| && b.data == current[b.blockno] && (b.dirty || touched || b.data == disk[b.blockno]))
    && (b.dirty ==> b.valid && b.dev == ROOTDEV)
    && (touched ==> b.busy && b.valid && b.dev == ROOTDEV)
  }

  ghost predicate Coherent(bufs: seq<Buf>, touched: set<nat>, disk: Disk, current: Disk)
  {
    && |bufs| == NBUF && |current| == |disk| && Unique(bufs)
    && (forall i :: 0 <= i < |bufs| ==> BufOk(bufs[i], i in touched, disk, current))
    && (forall i :: i in touched ==> i < NBUF)
    && (forall n: nat :: n < |disk| && !HasBuf(bufs, n) ==> current[n] == disk[n])
  }

  lemma {:induction false} HasBufAfter(bufs: seq<Buf>, i: nat, b: Buf, n: nat)
    requires i < |bufs| && (IsFor(bufs[i], n) ==> IsFor(b, n))
    ensures HasBuf(bufs, n) ==> HasBuf(bufs[i := b], n)
  {
    if HasBuf(bufs, n) {
      var j :| 0 <= j < |bufs| && IsFor(bufs[j], n);
      assert IsFor(bufs[i := b][j], n);
    }
  }

  /** bget: taking a hit, or recycling a buffer that is neither busy nor dirty. */
  lemma {:induction false} TakeKeeps(bufs: seq<Buf>, touched: set<nat>, disk: Disk, current: Disk, i: nat, dev: int,
                                     n: nat)
    requires Coherent(bufs, touched, disk, current) && i < NBUF && dev != NODEV
    requires !bufs[i].busy
    requires Matches(bufs[i], dev, n) ||
             (Recyclable(bufs[i]) && forall j :: 0 <= j < |bufs| ==> !Matches(bufs[j], dev, n))
    ensures Coherent(bufs[i := Taken(bufs[i], dev, n)], touched, disk, current)
  {
    var b := Taken(bufs[i], dev, n);
    var bufs' := bufs[i := b];
    assert i !in touched;
    forall m: nat | m < |disk| && !HasBuf(bufs', m) ensures current[m] == disk[m] {
      if !IsFor(bufs[i], m) || Matches(bufs[i], dev, n) { HasBufAfter(bufs, i, b, m); }
    }
  }

  /** iderw on a buffer that is not valid: read the block. */
  lemma {:induction false} FillKeeps(bufs: seq<Buf>, touched: set<nat>, disk: Disk, current: Disk, i: nat)
    requires Coherent(bufs, touched, disk, current) && i < NBUF
    requires bufs[i].dev == ROOTDEV && !bufs[i].valid && bufs[i].blockno < |disk|
    ensures disk[bufs[i].blockno] == current[bufs[i].blockno]
    ensures Coherent(bufs[i := bufs[i].(data := disk[bufs[i].blockno], valid := true)], touched, disk, current)
  {
    var n := bufs[i].blockno;
    var b := bufs[i].(data := disk[n], valid := true);
    assert !HasBuf(bufs, n);
    forall m: nat | m < |disk| && !HasBuf(bufs[i := b], m) ensures current[m] == disk[m] { HasBufAfter(bufs, i, b, m); }
  }

  /** The holder stores into b->data. */
  lemma {:induction false} StoreKeeps(bufs: seq<Buf>, touched: set<nat>, disk: Disk, current: Disk, i: nat, data: Block)
    requires Coherent(bufs, touched, disk, current) && i < NBUF
    requires bufs[i].dev == ROOTDEV && bufs[i].valid && bufs[i].busy
    ensures Coherent(bufs[i := bufs[i].(data := data)], touched + {i}, disk, current[bufs[i].blockno := data])
  {
    var n, b := bufs[i].blockno, bufs[i].(data := data);
    forall m: nat | m < |disk| && !HasBuf(bufs[i := b], m) ensures current[n := data][m] == disk[m] {
      HasBufAfter(bufs, i, b, m);
      assert IsFor(bufs[i], n);
    }
  }

  /** iderw on a dirty buffer: write the block. */
  lemma {:induction false} FlushKeeps(bufs: seq<Buf>, touched: set<nat>, disk: Disk, current: Disk, i: nat)
    requires Coherent(bufs, touched, disk, current) && i < NBUF
    requires bufs[i].dev == ROOTDEV && bufs[i].valid && bufs[i].busy
    ensures bufs[i].blockno < |disk|
    ensures Coherent(bufs[i := bufs[i].(dirty := false)], touched - {i}, disk[bufs[i].blockno := bufs[i].data], current)
  {
    var n, b := bufs[i].blockno, bufs[i].(dirty := false);
    var disk' := disk[n := bufs[i].data];
    forall m: nat | m < |disk| && !HasBuf(bufs[i := b], m)
      ensures current[m] == disk'[m]
    {
      HasBufAfter(bufs, i, b, m);
    }
  }

  /** log_write marks the buffer dirty. */
  lemma {:induction false} PinKeeps(bufs: seq<Buf>, touched: set<nat>, disk: Disk, current: Disk, i: nat)
    requires Coherent(bufs, touched, disk, current) && i < NBUF
    requires bufs[i].dev == ROOTDEV && bufs[i].valid
    ensures Coherent(bufs[i := bufs[i].(dirty := true)], touched - {i}, disk, current)
  {
    var b := bufs[i].(dirty := true);
    forall m: nat | m < |disk| && !HasBuf(bufs[i := b], m) ensures current[m] == disk[m] { HasBufAfter(bufs, i, b, m); }
  }

  /** brelse of a buffer with no change left to pass on. */
  lemma {:induction false} ReleaseKeeps(bufs: seq<Buf>, touched: set<nat>, disk: Disk, current: Disk, i: nat)
    requires Coherent(bufs, touched, disk, current) && i < NBUF && i !in touched
    ensures Coherent(bufs[i := bufs[i].(busy := false)], touched, disk, current)
  {
    var b := bufs[i].(busy := false);
    forall m: nat | m < |disk| && !HasBuf(bufs[i := b], m) ensures current[m] == disk[m] { HasBufAfter(bufs, i, b, m); }
  }

  // ----- the cache -----

  /** What some other process, one that only reads, may do: get a block, or release a buffer it holds. */
  datatype ReaderStep = Get(n: nat) | Put(b: nat)

  /** The blocks pinned in the cache. */
  ghost function Pinned(bufs: seq<Buf>): set<nat>
  {
    set i | 0 <= i < |bufs| && bufs[i].dev == ROOTDEV && bufs[i].dirty :: bufs[i].blockno
  }

  /** From `before` to `after` only reading happened: the buffers in `mine` are as they were, the same
      blocks are pinned with the same data, and nothing else became dirty. */
  ghost predicate OnlyRead(before: seq<Buf>, after: seq<Buf>, mine: set<nat>)
  {
    && |before| == |after|
    && (forall i :: 0 <= i < |after| && i in mine ==> after[i] == before[i])
    && (forall i :: 0 <= i < |after| ==> after[i].dirty == before[i].dirty)
    && (forall i :: 0 <= i < |after| && before[i].dirty ==> after[i] == before[i].(busy := after[i].busy))
  }

  lemma {:induction false} OnlyReadRefl(bufs: seq<Buf>, mine: set<nat>)
    ensures OnlyRead(bufs, bufs, mine)
  {}

  ghost function Busy(bufs: seq<Buf>): set<nat> { set b | 0 <= b < |bufs| && bufs[b].busy }

  /** Taking a buffer that was not busy disturbs no held and no pinned buffer. */
  lemma {:induction false} OneBuffer(before: seq<Buf>, after: seq<Buf>, b: nat)
    requires b < |before| == |after| && after == before[b := after[b]] && !before[b].busy
    requires after[b].dirty == before[b].dirty
    requires before[b].dirty ==> after[b] == before[b].(busy := true)
    ensures OnlyRead(before, after, Busy(before))
  {}

  lemma {:induction false} TakenReads(bufs: seq<Buf>, order: seq<nat>, n: nat)
    requires |bufs| == NBUF && IsOrder(order)
    ensures var r := BgetResult(bufs, order, ROOTDEV, n);
            r.Hold? ==> var b := Taken(bufs[r.b], ROOTDEV, n);
                        && b.dev == ROOTDEV && b.blockno == n && b.busy && b.dirty == bufs[r.b].dirty
                        && (bufs[r.b].dirty ==> b == bufs[r.b].(busy := true))
  {}

  lemma {:induction false} OnlyReadTrans(x: seq<Buf>, y: seq<Buf>, z: seq<Buf>, mine: set<nat>)
    requires OnlyRead(x, y, mine)
    requires OnlyRead(y, z, mine)
    ensures OnlyRead(x, z, mine)
  {}

  lemma {:induction false} OnlyReadPinned(x: seq<Buf>, y: seq<Buf>, mine: set<nat>)
    requires OnlyRead(x, y, mine)
    ensures Pinned(x) == Pinned(y)
  {}

  // ----- how many buffers can be pinned -----

  ghost predicate NoneBusy(bufs: seq<Buf>) { forall b :: 0 <= b < |bufs| ==> !bufs[b].busy }
  ghost predicate OnlyBusy(bufs: seq<Buf>, held: set<nat>) { forall b :: 0 <= b < |bufs| && bufs[b].busy ==> b in held }
  ghost predicate HasClean(bufs: seq<Buf>) { exists b :: 0 <= b < |bufs| && !bufs[b].dirty }

  /** The blocks pinned in the first k buffers. */
  ghost function PinnedBelow(bufs: seq<Buf>, k: nat): set<nat>
    requires k <= |bufs|
  {
    if k == 0 then {} else if bufs[k-1].dirty then PinnedBelow(bufs, k - 1) + {bufs[k-1].blockno}
    else PinnedBelow(bufs, k - 1)
  }

  lemma {:induction false} InPinnedBelow(bufs: seq<Buf>, k: nat, n: nat)
    requires k <= |bufs|
    ensures n in PinnedBelow(bufs, k) <==> exists i :: 0 <= i < k && bufs[i].dirty && bufs[i].blockno == n
  {
    if k > 0 { InPinnedBelow(bufs, k - 1, n); }
  }

  ghost predicate DirtyOnRoot(bufs: seq<Buf>)
  {
    forall i :: 0 <= i < |bufs| && bufs[i].dirty ==> bufs[i].dev == ROOTDEV
  }
  predicate AllDirty(bufs: seq<Buf>, k: nat) { k <= |bufs| && forall i :: 0 <= i < k ==> bufs[i].dirty }

  lemma {:induction false} NotPinnedBelow(bufs: seq<Buf>, k: nat)
    requires 0 < k <= |bufs| && Unique(bufs) && DirtyOnRoot(bufs) && bufs[k-1].dirty
    ensures bufs[k-1].blockno !in PinnedBelow(bufs, k - 1)
  {
    InPinnedBelow(bufs, k - 1, bufs[k-1].blockno);
  }

  /** They are as many as there are dirty buffers. */
  lemma {:induction false} PinnedCount(bufs: seq<Buf>, k: nat)
    requires k <= |bufs| && Unique(bufs) && DirtyOnRoot(bufs)
    ensures |PinnedBelow(bufs, k)| <= k && (|PinnedBelow(bufs, k)| == k <==> AllDirty(bufs, k))
  {
    hide Unique;
    hide DirtyOnRoot;
    if k > 0 {
      PinnedCount(bufs, k - 1);
      if bufs[k-1].dirty { NotPinnedBelow(bufs, k); }
      assert AllDirty(bufs, k) <==> AllDirty(bufs, k - 1) && bufs[k-1].dirty;
    }
  }

  lemma {:induction false} PinnedIs(bufs: seq<Buf>)
    requires DirtyOnRoot(bufs)
    ensures Pinned(bufs) == PinnedBelow(bufs, |bufs|)
  {
    forall n: nat ensures n in Pinned(bufs) <==> n in PinnedBelow(bufs, |bufs|) { InPinnedBelow(bufs, |bufs|, n); }
  }

  lemma {:induction false} DirtyAreRoot(bufs: seq<Buf>, touched: set<nat>, disk: Disk, current: Disk)
    requires Coherent(bufs, touched, disk, current)
    ensures DirtyOnRoot(bufs)
  {
    hide Unique;
    forall i | 0 <= i < |bufs| && bufs[i].dirty
      ensures bufs[i].dev == ROOTDEV
    {
      assert BufOk(bufs[i], i in touched, disk, current);
    }
  }

  /** Some buffer is clean if and only if fewer blocks are pinned than there are buffers. */
  lemma {:induction false} CleanIff(bufs: seq<Buf>, touched: set<nat>, disk: Disk, current: Disk)
    requires Coherent(bufs, touched, disk, current)
    ensures |Pinned(bufs)| <= NBUF && (HasClean(bufs) <==> |Pinned(bufs)| < NBUF)
  {
    hide Unique;
    hide DirtyOnRoot;
    hide Pinned;
    DirtyAreRoot(bufs, touched, disk, current);
    PinnedCount(bufs, NBUF);
    PinnedIs(bufs);
  }

  /** With every buffer pinned there is none for another block. */
  lemma {:induction false} NoneLeft(bufs: seq<Buf>, n: nat)
    requires !HasClean(bufs) && n !in Pinned(bufs)
    ensures !CanGet(bufs, n)
  {}

  /** Block n is pinned, or no block is. */
  ghost predicate PinnedOrNone(bufs: seq<Buf>, n: nat) { n in Pinned(bufs) || Pinned(bufs) == {} }

  lemma {:induction false} PinnedNow(bufs: seq<Buf>, n: nat)
    requires n in Pinned(bufs)
    ensures PinnedOrNone(bufs, n)
  {}

  /** After taking buffer b for block m, a block that is pinned can be had, and any block if nothing is pinned. */
  lemma {:induction false} SecondGets(before: seq<Buf>, after: seq<Buf>, b: nat, m: nat, n: nat)
    requires |before| == NBUF && b < NBUF && NoneBusy(before) && OnlyRead(before, after, {})
    requires after == before[b := after[b]]
    requires IsFor(after[b], m) && m != n && PinnedOrNone(before, n)
    requires Pinned(before) == {} ==> forall i :: 0 <= i < |before| ==> !before[i].dirty
    ensures CanGet(after, n)
  {
    if n in Pinned(before) {
      var i :| 0 <= i < |before| && before[i].dev == ROOTDEV && before[i].dirty && before[i].blockno == n;
      assert i != b && Matches(after[i], ROOTDEV, n);
    } else {
      var i := if b == 0 then 1 else 0;
      assert Recyclable(after[i]);
    }
  }

  lemma {:induction false} TwoBusy(x: seq<Buf>, y: seq<Buf>, z: seq<Buf>, b: nat, c: nat)
    requires NoneBusy(x) && b < |x| == |y| == |z| && c < |z| && y == x[b := y[b]] && z == y[c := z[c]]
    ensures OnlyBusy(z, {b, c})
  {}

  lemma {:induction false} HeldStays(x: seq<Buf>, y: seq<Buf>, b: nat)
    requires OnlyRead(x, y, {b}) && b < |x|
    ensures |y| == |x| && y[b] == x[b]
  {}

  /** A block that is neither pinned nor being changed is the same in the cache and on the disk. */
  lemma {:induction false} CleanAgrees(bufs: seq<Buf>, touched: set<nat>, disk: Disk, current: Disk, n: nat)
    requires Coherent(bufs, touched, disk, current) && n < |disk|
    requires touched == {} && n !in Pinned(bufs)
    ensures current[n] == disk[n]
  {
    if HasBuf(bufs, n) {
      var i :| 0 <= i < |bufs| && IsFor(bufs[i], n);
      assert BufOk(bufs[i], i in touched, disk, current);
      if bufs[i].dirty { assert false; }
    }
  }

  /** Writing a block out unpins it and no other. */
  lemma {:induction false} FlushUnpins(bufs: seq<Buf>, b: nat, data: Block)
    requires b < |bufs| && bufs[b].dev == ROOTDEV && Unique(bufs)
    ensures Pinned(bufs[b := bufs[b].(data := data, dirty := false)]) == Pinned(bufs) - {bufs[b].blockno}
  {
    var c := bufs[b := bufs[b].(data := data, dirty := false)];
    forall x ensures x in Pinned(c) <==> x in Pinned(bufs) && x != bufs[b].blockno {
      if x in Pinned(c) {
        var i :| 0 <= i < |c| && c[i].dev == ROOTDEV && c[i].dirty && c[i].blockno == x;
        assert i != b && bufs[i] == c[i];
      }
      if x in Pinned(bufs) && x != bufs[b].blockno {
        var i :| 0 <= i < |bufs| && bufs[i].dev == ROOTDEV && bufs[i].dirty && bufs[i].blockno == x;
        assert c[i] == bufs[i];
      }
    }
  }

  /** The list is in order of last release, most recent first. */
  ghost predicate ByRelease(order: seq<nat>, stamp: seq<int>, now: int)
  {
    && |stamp| == NBUF
    && (forall i :: 0 <= i < |order| ==> order[i] < NBUF && stamp[order[i]] < now)
    && (forall i :: 0 <= i < |order| - 1 ==> stamp[order[i]] > stamp[order[i+1]])
  }

  ghost function Position(order: seq<nat>, b: nat): (p: nat)
    requires IsOrder(order) && b < NBUF
    ensures p < NBUF && order[p] == b
  {
    EveryBufferListed(order, NBUF, b);
    var p :| 0 <= p < NBUF && order[p] == b;
    p
  }

  lemma {:induction false} StampFront(order: seq<nat>, stamp: seq<int>, now: int, p: nat)
    requires IsOrder(order) && ByRelease(order, stamp, now) && p < NBUF
    ensures ByRelease([order[p]] + Without(order, p), stamp[order[p] := now], now + 1)
  {
    hide Without;
    var o := [order[p]] + Without(order, p);
    FrontLength(order, p);
    forall i | 0 <= i < NBUF ensures o[i] < NBUF && stamp[order[p] := now][o[i]] < now + 1 { FrontAt(order, p, i); }
    forall i | 0 <= i < NBUF - 1 ensures stamp[order[p] := now][o[i]] > stamp[order[p] := now][o[i+1]] {
      FrontAt(order, p, i);
      FrontAt(order, p, i + 1);
    }
  }

  lemma {:induction false} FrontLength(order: seq<nat>, p: nat)
    requires p < |order|
    ensures |[order[p]] + Without(order, p)| == |order|
  {}

  lemma {:induction false} FrontAt(order: seq<nat>, p: nat, i: nat)
    requires p < |order| && i < |order|
    ensures |[order[p]] + Without(order, p)| == |order|
    ensures ([order[p]] + Without(order, p))[i] == if i == 0 then order[p] else if i <= p then order[i-1] else order[i]
  {}

  lemma {:induction false} EarlierIsNewer(order: seq<nat>, stamp: seq<int>, now: int, i: nat, j: nat)
    requires ByRelease(order, stamp, now) && i < j < |order|
    ensures stamp[order[i]] > stamp[order[j]]
    decreases j
  {
    if i + 1 < j { EarlierIsNewer(order, stamp, now, i, j - 1); }
    assert stamp[order[j-1]] > stamp[order[j-1+1]];
  }

  /** LRU REPLACEMENT. On a miss bget takes, of all the buffers that are neither busy nor dirty, the one
      released longest ago; it panics exactly when there is none. */
  lemma {:induction false} MissTakesOldest(bufs: seq<Buf>, order: seq<nat>, stamp: seq<int>, now: int, dev: int, n: nat)
    requires |bufs| == NBUF && IsOrder(order) && ByRelease(order, stamp, now)
    requires forall j :: 0 <= j < NBUF ==> !Matches(bufs[j], dev, n)
    ensures var r := BgetResult(bufs, order, dev, n);
            && !r.Asleep?
            && (r.Panic? <==> forall j :: 0 <= j < NBUF ==> !Recyclable(bufs[j]))
            && (r.Hold? ==> Recyclable(bufs[r.b]))
            && (r.Hold? ==> forall j :: 0 <= j < NBUF && Recyclable(bufs[j]) && j != r.b ==> stamp[r.b] < stamp[j])
  {
    var q := LastFree(bufs, order, NBUF);
    forall j | 0 <= j < NBUF && Recyclable(bufs[j])
      ensures q >= 0 && (j != order[q] ==> stamp[order[q]] < stamp[j])
    {
      EveryBufferListed(order, NBUF, j);
      var i :| 0 <= i < NBUF && order[i] == j;
      if i < q { EarlierIsNewer(order, stamp, now, i, q); }
    }
  }

  class Cache {
    const env: nat -> seq<ReaderStep>    // what other processes do before the t-th bread
    var clock: nat
    var bufs: seq<Buf>
    var next: seq<nat>
    var prev: seq<nat>
    var disk: Disk
    ghost var order: seq<nat>            // the LRU list, most recently released first
    ghost var stamp: seq<int>            // when each buffer was last released
    ghost var now: int
    ghost var current: Disk              // the last value given to each block
    ghost var touched: set<nat>          // buffers changed but not yet passed to bwrite or log_write
    ghost const boot: Disk               // the disk at boot
    ghost var writes: seq<Write>         // every block write since

    ghost predicate Valid()
      reads this
    {
      && |bufs| == |order| == NBUF && Ring(order, next, prev) && ByRelease(order, stamp, now)
      && Coherent(bufs, touched, disk, current)
      && disk == ApplyAll(boot, writes)
    }

    /** No other process uses the cache. */
    ghost predicate Alone() { forall t: nat :: env(t) == [] }

    /** What is to be had when no buffer is held. */
    lemma {:induction false} GetsFirst(n: nat)
      ensures NoneBusy(bufs) && HasClean(bufs) ==> CanGet(bufs, n)
      ensures !HasClean(bufs) && n !in Pinned(bufs) ==> !CanGet(bufs, n)
    {
      if n !in Pinned(bufs) && !HasClean(bufs) { NoneLeft(bufs, n); }
    }

    lemma {:induction false} NoneDirty()
      requires Valid()
      ensures Pinned(bufs) == {} ==> forall i :: 0 <= i < |bufs| ==> !bufs[i].dirty
      ensures Pinned(bufs) == {} ==> HasClean(bufs)
    {
      forall i | 0 <= i < |bufs| && bufs[i].dirty ensures bufs[i].blockno in Pinned(bufs) {
        assert BufOk(bufs[i], i in touched, disk, current);
      }
      assert Pinned(bufs) == {} ==> !bufs[0].dirty;
    }

    /** binit: every buffer on the list, none holding a block. */
    constructor (image: Disk, others: nat -> seq<ReaderStep>)
      ensures Valid() && disk == current == image && writes == [] && touched == {}
      ensures forall b :: 0 <= b < NBUF ==> !bufs[b].busy && !bufs[b].dirty
      ensures env == others && boot == image
    {
      boot := image;
      env, clock, disk, current, writes, touched := others, 0, image, image, [], {};
      bufs := seq(NBUF, _ => Buf(NODEV, 0, false, false, false, Block(seq(WORDS, _ => 0))));
      var nx: seq<nat>, pv: seq<nat> := seq(NBUF + 1, _ => HEAD), seq(NBUF + 1, _ => HEAD);
      ghost var ord: seq<nat> := [];
      var b := 0;
      while b < NBUF
        invariant 0 <= b <= NBUF && |ord| == b && Ring(ord, nx, pv)
        invariant forall i :: 0 <= i < b ==> ord[i] == b - 1 - i
      {
        LinkFront(ord, nx, pv, b);
        nx := nx[b := nx[HEAD]];
        pv := pv[b := HEAD];
        pv := pv[nx[HEAD] := b];
        nx := nx[HEAD := b];
        ord := [b] + ord;
        b := b + 1;
      }
      next, prev, order := nx, pv, ord;
      stamp, now := seq(NBUF, i => i), NBUF;
    }

    /** bget. The scans follow next from the head, then prev from the head. */
    method Bget(dev: int, n: nat) returns (r: Got)
      requires Valid() && dev != NODEV
      modifies this`bufs
      ensures r == BgetResult(old(bufs), order, dev, n)
      ensures bufs == if r.Hold? then old(bufs)[r.b := Taken(old(bufs)[r.b], dev, n)] else old(bufs)
      ensures Valid()
    {
      hide Coherent;
      hide ByRelease;
      ghost var ring := [HEAD] + order + [HEAD];
      var b := next[HEAD];
      ghost var p := 0;
      assert next[ring[0]] == ring[1];
      while b != HEAD
        invariant 0 <= p <= NBUF && b == ring[p + 1] && bufs == old(bufs)
        invariant FirstMatch(bufs, order, dev, n, 0) == FirstMatch(bufs, order, dev, n, p)
        decreases NBUF - p
      {
        assert b == order[p];
        if bufs[b].dev == dev && bufs[b].blockno == n {
          if !bufs[b].busy {
            TakeKeeps(bufs, touched, disk, current, b, dev, n);
            bufs := bufs[b := bufs[b].(busy := true)];
            return Hold(b);
          }
          return Asleep;
        }
        assert next[ring[p + 1]] == ring[p + 2];
        b := next[b];
        p := p + 1;
      }
      NoMatch(bufs, order, dev, n);
      r := Recycle(dev, n);
    }

    /** bget's second scan: recycle the least recently released buffer that is neither busy nor dirty. */
    method Recycle(dev: int, n: nat) returns (r: Got)
      requires Valid() && dev != NODEV
      requires forall j :: 0 <= j < NBUF ==> !Matches(bufs[j], dev, n)
      modifies this`bufs
      ensures var q := LastFree(old(bufs), order, NBUF); r == if q >= 0 then Hold(order[q]) else Panic
      ensures bufs == if r.Hold? then old(bufs)[r.b := Taken(old(bufs)[r.b], dev, n)] else old(bufs)
      ensures Valid()
    {
      hide Coherent;
      hide ByRelease;
      ghost var ring := [HEAD] + order + [HEAD];
      var b := prev[HEAD];
      ghost var p := NBUF;
      assert prev[ring[NBUF + 1]] == ring[NBUF];
      while b != HEAD
        invariant 0 <= p <= NBUF && b == ring[p] && bufs == old(bufs)
        invariant LastFree(bufs, order, NBUF) == LastFree(bufs, order, p)
        decreases p
      {
        assert b == order[p - 1];
        if !bufs[b].busy && !bufs[b].dirty {
          TakeKeeps(bufs, touched, disk, current, b, dev, n);
          bufs := bufs[b := Buf(dev, n, true, false, false, bufs[b].data)];
          return Hold(b);
        }
        assert prev[ring[p]] == ring[p - 1];
        b := prev[b];
        p := p - 1;
      }
      return Panic;
    }

    /** memide.c's iderw: a dirty buffer is written, one that is not valid is read. */
    method Iderw(b: nat) returns (ok: bool)
      requires Valid() && b < NBUF
      modifies this`bufs, this`disk, this`writes, this`touched
      ensures Valid()
      ensures var o := old(bufs[b]);
              ok == (o.busy && (!o.valid || o.dirty) && o.dev == ROOTDEV && o.blockno < |old(disk)|)
      ensures !ok ==> bufs == old(bufs) && disk == old(disk) && writes == old(writes) && touched == old(touched)
      ensures ok && old(bufs[b]).dirty ==>
                && bufs == old(bufs)[b := old(bufs[b]).(dirty := false)]
                && disk == old(disk)[bufs[b].blockno := bufs[b].data]
                && writes == old(writes) + [Write(bufs[b].blockno, bufs[b].data)]
                && touched == old(touched) - {b}
      ensures ok && !old(bufs[b]).dirty ==>
                && bufs == old(bufs)[b := old(bufs[b]).(data := current[old(bufs[b]).blockno], valid := true)]
                && disk == old(disk) && writes == old(writes) && touched == old(touched)
    {
      var o := bufs[b];
      if !o.busy || (o.valid && !o.dirty) || o.dev != ROOTDEV || o.blockno >= |disk| {
        return false;
      }
      if o.dirty {
        FlushKeeps(bufs, touched, disk, current, b);
        ApplyOneMore(boot, writes, Write(o.blockno, o.data));
        bufs := bufs[b := o.(dirty := false)];
        disk := disk[o.blockno := o.data];
        writes := writes + [Write(o.blockno, o.data)];
        touched := touched - {b};
      } else {
        FillKeeps(bufs, touched, disk, current, b);
        bufs := bufs[b := o.(data := disk[o.blockno], valid := true)];
      }
      return true;
    }

    /** brelse: off the list, back at its front, no longer busy. Panics on a buffer that is not busy. */
    method Brelse(b: nat) returns (ok: bool)
      requires Valid() && b < NBUF && b !in touched
      modifies this`bufs, this`next, this`prev, this`order, this`stamp, this`now
      ensures Valid()
      ensures ok == old(bufs[b]).busy
      ensures bufs == old(bufs)[b := old(bufs[b]).(busy := false)]
      ensures ok ==>
                && order == [b] + Without(old(order), Position(old(order), b)) && now == old(now) + 1
                && stamp == old(stamp)[b := old(now)]
      ensures !ok ==> order == old(order) && now == old(now) && stamp == old(stamp)
    {
      if !bufs[b].busy {
        return false;
      }
      MoveFront(b);
      ReleaseKeeps(bufs, touched, disk, current, b);
      bufs := bufs[b := bufs[b].(busy := false)];
      return true;
    }

    /** The six stores of brelse. */
    method MoveFront(b: nat)
      requires |order| == NBUF && Ring(order, next, prev) && ByRelease(order, stamp, now) && b < NBUF
      modifies this`next, this`prev, this`order, this`stamp, this`now
      ensures |order| == NBUF && Ring(order, next, prev) && ByRelease(order, stamp, now)
      ensures order == [b] + Without(old(order), Position(old(order), b)) && now == old(now) + 1
      ensures stamp == old(stamp)[b := old(now)]
    {
      ghost var p := Position(order, b);
      MoveToFront(order, next, prev, p);
      StampFront(order, stamp, now, p);
      prev := prev[next[b] := prev[b]];
      next := next[prev[b] := next[b]];
      next := next[b := next[HEAD]];
      prev := prev[b := HEAD];
      prev := prev[next[HEAD] := b];
      next := next[HEAD := b];
      assert next == MovedNext(old(next), old(prev), b) && prev == MovedPrev(old(next), old(prev), b);
      order, stamp, now := [b] + Without(order, p), stamp[b := now], now + 1;
    }

    /** The holder of b changes its data. */
    method Store(b: nat, data: Block)
      requires Valid() && b < NBUF && bufs[b].busy && bufs[b].valid && bufs[b].dev == ROOTDEV
      modifies this`bufs, this`current, this`touched
      ensures Valid()
      ensures bufs == old(bufs)[b := old(bufs[b]).(data := data)]
      ensures bufs[b].blockno < |current| && current == old(current)[bufs[b].blockno := data]
      ensures touched == old(touched) + {b}
    {
      StoreKeeps(bufs, touched, disk, current, b, data);
      current := current[bufs[b].blockno := data];
      bufs := bufs[b := bufs[b].(data := data)];
      touched := touched + {b};
    }

    /** bwrite: the block reaches the disk, and the buffer is clean. Panics on a buffer that is not busy. */
    method Bwrite(b: nat) returns (ok: bool)
      requires Valid() && b < NBUF && bufs[b].valid && bufs[b].dev == ROOTDEV
      modifies this`bufs, this`disk, this`writes, this`touched
      ensures Valid()
      ensures ok == old(bufs[b]).busy
      ensures !ok ==> bufs == old(bufs) && disk == old(disk) && writes == old(writes) && touched == old(touched)
      ensures bufs[b].blockno < |disk|
      ensures ok ==> && bufs == old(bufs)[b := old(bufs[b]).(dirty := false)]
                     && disk == old(disk)[bufs[b].blockno := bufs[b].data]
                     && writes == old(writes) + [Write(bufs[b].blockno, bufs[b].data)]
                     && touched == old(touched) - {b}
    {
      if !bufs[b].busy {
        return false;
      }
      PinKeeps(bufs, touched, disk, current, b);
      bufs := bufs[b := bufs[b].(dirty := true)];
      touched := touched - {b};
      ok := Iderw(b);
    }

    /** `memmove(b->data, ...); bwrite(b)` by the holder of b. */
    method Overwrite(b: nat, data: Block)
      requires Valid() && b < NBUF && bufs[b].busy && bufs[b].valid && bufs[b].dev == ROOTDEV
      modifies this`bufs, this`disk, this`current, this`writes, this`touched
      ensures Valid()
      ensures var n := old(bufs[b]).blockno;
              && n < |old(disk)| && n < |old(current)|
              && bufs == old(bufs)[b := old(bufs[b]).(data := data, dirty := false)]
              && Pinned(bufs) == Pinned(old(bufs)) - {n}
              && disk == old(disk)[n := data] && current == old(current)[n := data]
              && writes == old(writes) + [Write(n, data)]
              && touched == old(touched) - {b}
    {
      FlushUnpins(bufs, b, data);
      Store(b, data);
      var _ := Bwrite(b);
    }

    /** log_write's `b->flags |= B_DIRTY`. */
    method Pin(b: nat)
      requires Valid() && b < NBUF && bufs[b].valid && bufs[b].dev == ROOTDEV
      modifies this`bufs, this`touched
      ensures Valid()
      ensures bufs == old(bufs)[b := old(bufs[b]).(dirty := true)] && touched == old(touched) - {b}
    {
      PinKeeps(bufs, touched, disk, current, b);
      bufs := bufs[b := bufs[b].(dirty := true)];
      touched := touched - {b};
    }

    /** The caller holds these buffers. */
    ghost predicate Holding(mine: set<nat>)
      reads this
    {
      touched <= mine && forall b :: b in mine ==> b < |bufs| && bufs[b].busy
    }

    /** One step of another process, on buffers not in `mine`; false if it panics. */
    method ReaderRuns(step: ReaderStep, mine: set<nat>) returns (ok: bool)
      requires Valid() && Holding(mine)
      modifies this`bufs, this`next, this`prev, this`order, this`stamp, this`now, this`disk, this`writes, this`touched
      ensures Valid() && Holding(mine) && OnlyRead(old(bufs), bufs, mine)
      ensures disk == old(disk) && writes == old(writes) && touched == old(touched)
    {
      hide Ring;
      hide ByRelease;
      hide Coherent;
      hide CanGet;
      ok := true;
      match step {
        case Get(n) =>
          var r := GetBlock(n);
          ok := !r.Panic?;
        case Put(b) =>
          if b < NBUF && b !in mine && bufs[b].busy {
            var _ := Brelse(b);
          }
      }
    }

    /** Other processes read while this one is between two calls: any steps, on buffers not in `mine`. */
    method OthersRun(steps: seq<ReaderStep>, mine: set<nat>) returns (ok: bool)
      requires Valid() && Holding(mine)
      modifies this`bufs, this`next, this`prev, this`order, this`stamp, this`now, this`disk, this`writes, this`touched
      ensures Valid() && Holding(mine) && OnlyRead(old(bufs), bufs, mine)
      ensures disk == old(disk) && writes == old(writes) && touched == old(touched)
      ensures steps == [] ==> ok && bufs == old(bufs)
    {
      hide Valid;
      hide Holding;
      hide OnlyRead;
      OnlyReadRefl(bufs, mine);
      for t := 0 to |steps|
        invariant Valid() && Holding(mine) && OnlyRead(old(bufs), bufs, mine)
        invariant disk == old(disk) && writes == old(writes) && touched == old(touched)
        invariant t == 0 ==> bufs == old(bufs)
      {
        ghost var before := bufs;
        ok := ReaderRuns(steps[t], mine);
        OnlyReadTrans(old(bufs), before, bufs, mine);
        if !ok {
          return;
        }
      }
      return true;
    }

    /** bget, then iderw if the buffer is not valid. */
    method GetBlock(n: nat) returns (r: Got)
      requires Valid()
      modifies this`bufs, this`disk, this`writes, this`touched
      ensures Valid() && OnlyRead(old(bufs), bufs, Busy(old(bufs)))
      ensures disk == old(disk) && writes == old(writes) && touched == old(touched)
      ensures r.Hold? <==> CanGet(old(bufs), n) && n < |disk|
      ensures r.Hold? ==> && r.b < NBUF && !old(bufs)[r.b].busy && n < |current| && bufs == old(bufs)[r.b := bufs[r.b]]
                          && IsFor(bufs[r.b], n) && bufs[r.b].busy && bufs[r.b].data == current[n]
    {
      hide CanGet;
      hide OnlyRead;
      hide FirstMatch;
      hide LastFree;
      hide Linked;
      hide ByRelease;
      hide HasBuf;
      GetsIff(bufs, order, n);
      r := Bget(ROOTDEV, n);
      if r.Hold? {
        var b := r.b;
        TakenReads(old(bufs), order, n);
        if !bufs[b].valid {
          var ok := Iderw(b);
          if !ok { r := Panic; }
        }
        OneBuffer(old(bufs), bufs, b);
      } else {
        OnlyReadRefl(bufs, Busy(bufs));
      }
    }

    /** bread, by a process holding the buffers `mine`, after whatever the others do first. */
    method Bread(n: nat, mine: set<nat>) returns (r: Got)
      requires Valid() && Holding(mine)
      modifies this
      ensures Valid() && OnlyRead(old(bufs), bufs, mine)
      ensures disk == old(disk) && current == old(current) && writes == old(writes) && touched == old(touched)
      ensures |bufs| == |old(bufs)| == NBUF
      ensures Alone() ==> (r.Hold? <==> CanGet(old(bufs), n) && n < |disk|)
      ensures Alone() && r.Hold? ==> r.b < NBUF && bufs == old(bufs)[r.b := bufs[r.b]]
      ensures r.Hold? ==> && r.b < NBUF && r.b !in mine && n < |current|
                          && IsFor(bufs[r.b], n) && bufs[r.b].busy && bufs[r.b].data == current[n]
    {
      var ok := OthersRun(env(clock), mine);
      clock := clock + 1;
      if !ok { return Panic; }
      ghost var mid := bufs;
      r := GetBlock(n);
      OnlyReadTrans(old(bufs), mid, bufs, mine);
    }
  }
}

/** The heap of umalloc.c: memory in units of one header, a circular free list through it, and how link, join, take and
    grow keep them in order. */
module HeapSpec {

  const BASE: nat := 1        // the address of the static header `base`, below the heap

  datatype Header = Header(ptr: nat, size: nat)

  type Memory = map<nat, Header>

  /** `free` lists the free blocks by address, starting with `base`; `used` are the allocated blocks; `blocks`
      gives the size of every block, free or allocated; `home` maps every unit got from sbrk to its block. */
  datatype Heap = Heap(mem: Memory, free: seq<nat>, used: set<nat>, blocks: map<nat, nat>, home: map<nat, nat>)

  ghost function Succ(free: seq<nat>, i: nat): nat
    requires i < |free|
  {
    if i + 1 < |free| then free[i+1] else free[0]
  }

  ghost predicate Sorted(free: seq<nat>)
  {
    |free| >= 1 && free[0] == BASE && forall i, j :: 0 <= i < j < |free| ==> free[i] < free[j]
  }

  ghost predicate Chained(m: Memory, free: seq<nat>)
  {
    && (forall i :: 0 <= i < |free| ==> free[i] in m && (if i == 0 then m[free[i]].size == 0 else m[free[i]].size >= 1))
    && (forall i {:trigger Succ(free, i)} :: 0 <= i < |free| ==> m[free[i]].ptr == Succ(free, i))
  }

  /** One circle through the free blocks in address order, with its wrap at the last block. */
  ghost predicate Listed(m: Memory, free: seq<nat>) { Sorted(free) && Chained(m, free) }

  ghost predicate Covers(home: map<nat, nat>, a: nat, size: nat)
  {
    forall u :: a <= u < a + size ==> u in home && home[u] == a
  }

  /** TILING: every unit lies in exactly one block. */
  ghost predicate Tiled(home: map<nat, nat>, blocks: map<nat, nat>)
  {
    && (forall a :: a in blocks ==> a > BASE && blocks[a] >= 1 && Covers(home, a, blocks[a]))
    && (forall u :: u in home ==> home[u] in blocks && home[u] <= u < home[u] + blocks[home[u]])
  }

  /** The blocks are the allocated ones and, apart from `base`, the listed ones; each header has its size. */
  ghost predicate Accounted(h: Heap)
  {
    && (forall a :: a in h.blocks ==> a in h.mem && h.mem[a].size == h.blocks[a] && (a in h.used <==> a !in h.free))
    && (forall a :: a in h.used ==> a in h.blocks)
    && (forall a :: a in h.free && a != BASE ==> a in h.blocks)
    && (forall u :: u in h.home ==> u in h.mem)
  }

  /** There is a gap between free block k and the next one. */
  ghost predicate Gap(m: Memory, free: seq<nat>, k: nat)
  {
    k + 1 < |free| && free[k] in m && free[k] + m[free[k]].size < free[k+1]
  }

  /** No two free blocks touch. */
  ghost predicate Coalesced(m: Memory, free: seq<nat>) { forall k: nat :: k + 1 < |free| ==> Gap(m, free, k) }

  ghost predicate Sound(h: Heap) { Listed(h.mem, h.free) && Tiled(h.home, h.blocks) && Accounted(h) }

  ghost predicate Inv(h: Heap) { Sound(h) && Coalesced(h.mem, h.free) }

  /** Free blocks never overlap: the next one starts at or after the end of this one. */
  lemma {:induction false} NoOverlap(h: Heap, i: nat)
    requires Sound(h) && i + 1 < |h.free|
    ensures h.free[i] + h.mem[h.free[i]].size <= h.free[i+1]
  {
    var a, b := h.free[i], h.free[i+1];
    assert BASE < b && b in h.free && b in h.blocks && Covers(h.home, b, h.blocks[b]) && h.home[b] == b;
    if i > 0 { assert a in h.free && a in h.blocks && Covers(h.home, a, h.blocks[a]); }
  }

  lemma {:induction false} BlockStart(home: map<nat, nat>, blocks: map<nat, nat>, a: nat)
    requires Tiled(home, blocks) && a in blocks
    ensures a in home && home[a] == a
  {
    assert Covers(home, a, blocks[a]);
  }

  // ----- the list as a sequence -----

  /** The list with block b put after position i. */
  function Inserted(free: seq<nat>, i: nat, b: nat): seq<nat>
    requires i < |free|
  {
    free[..i+1] + [b] + free[i+1..]
  }

  lemma {:induction false} InsertedMembers(free: seq<nat>, i: nat, b: nat)
    requires i < |free|
    ensures forall x :: x in Inserted(free, i, b) <==> x in free || x == b
  {
    assert free == free[..i+1] + free[i+1..];
  }

  lemma {:induction false} InsertedAt(free: seq<nat>, i: nat, b: nat)
    requires i < |free|
    ensures |Inserted(free, i, b)| == |free| + 1
    ensures forall k {:trigger Inserted(free, i, b)[k]} :: 0 <= k <= |free| ==>
              Inserted(free, i, b)[k] == if k <= i then free[k] else if k == i + 1 then b else free[k-1]
  {}

  lemma {:induction false} InsertSorted(free: seq<nat>, i: nat, b: nat)
    requires Sorted(free) && i < |free| && free[i] < b && (i + 1 < |free| ==> b < free[i+1])
    ensures Sorted(Inserted(free, i, b))
  {
    hide Inserted;
    InsertedAt(free, i, b);
  }

  function Removed(free: seq<nat>, k: nat): seq<nat>
    requires k < |free|
  {
    free[..k] + free[k+1..]
  }

  lemma {:induction false} RemovedMembers(free: seq<nat>, k: nat)
    requires Sorted(free) && k < |free|
    ensures forall x :: x in Removed(free, k) <==> x in free && x != free[k]
  {
    forall j | 0 <= j < |free| && j != k ensures free[j] != free[k] {
    }
    assert free == free[..k] + [free[k]] + free[k+1..];
  }

  lemma {:induction false} RemovedAt(free: seq<nat>, k: nat)
    requires k < |free|
    ensures |Removed(free, k)| == |free| - 1
    ensures forall j {:trigger Removed(free, k)[j]} ::
              0 <= j < |free| - 1 ==> Removed(free, k)[j] == if j < k then free[j] else free[j+1]
  {}

  lemma {:induction false} RemoveSorted(free: seq<nat>, k: nat)
    requires Sorted(free) && 1 <= k < |free|
    ensures Sorted(Removed(free, k))
  {
    hide Removed;
    RemovedAt(free, k);
  }

  // ----- free: link, then join -----

  /** An allocated block becomes a free one, at its place in the list, not yet joined to its neighbours. */
  function Link(h: Heap, i: nat, b: nat): Heap
    requires i < |h.free| && b in h.mem && h.free[i] in h.mem
  {
    var p := h.free[i];
    h.(mem := h.mem[b := h.mem[b].(ptr := h.mem[p].ptr)][p := h.mem[p].(ptr := b)],
       free := Inserted(h.free, i, b), used := h.used - {b})
  }

  lemma {:induction false} LinkChained(h: Heap, i: nat, b: nat)
    requires Listed(h.mem, h.free) && b in h.mem && b !in h.free && h.mem[b].size >= 1 && i < |h.free|
    ensures Chained(Link(h, i, b).mem, Link(h, i, b).free)
  {
    hide Inserted;
    hide Sorted;
    InsertedAt(h.free, i, b);
    var g := Link(h, i, b);
    forall k | 0 <= k < |g.free|
      ensures g.free[k] in g.mem && g.mem[g.free[k]].ptr == Succ(g.free, k)
    {
      LinkNext(h, i, b, k);
    }
  }

  lemma {:induction false} LinkNext(h: Heap, i: nat, b: nat, k: nat)
    requires Listed(h.mem, h.free) && b in h.mem && b !in h.free && i < |h.free| && k <= |h.free|
    ensures var g := Link(h, i, b); k < |g.free| && g.free[k] in g.mem && g.mem[g.free[k]].ptr == Succ(g.free, k)
  {
    hide Inserted;
    InsertedAt(h.free, i, b);
    assert h.mem[h.free[i]].ptr == Succ(h.free, i);
    if k <= i { assert h.mem[h.free[k]].ptr == Succ(h.free, k); }
    if k > i + 1 { assert h.mem[h.free[k-1]].ptr == Succ(h.free, k - 1); }
  }

  lemma {:induction false} LinkAccounted(h: Heap, i: nat, b: nat)
    requires Accounted(h) && b in h.used && i < |h.free| && h.free[i] in h.mem
    ensures b in h.mem && Accounted(Link(h, i, b))
  {
    hide Inserted;
    InsertedMembers(h.free, i, b);
    assert b in h.blocks;
    var g := Link(h, i, b);
    assert forall x :: x in h.mem ==> x in g.mem && g.mem[x].size == h.mem[x].size;
  }

  lemma {:induction false} LinkGap(m: Memory, m': Memory, free: seq<nat>, i: nat, b: nat, k: nat)
    requires Sorted(free) && Coalesced(m, free) && i < |free| && k != i && k != i + 1 && k < |free|
    requires forall x :: x in m ==> x in m' && m'[x].size == m[x].size
    ensures Gap(m', Inserted(free, i, b), k)
  {
    hide Inserted;
    InsertedAt(free, i, b);
    assert Gap(m, free, if k < i then k else k - 1);
  }

  lemma {:induction false} LinkKeeps(h: Heap, i: nat, b: nat)
    requires Inv(h) && b in h.used && b in h.mem && h.mem[b].size >= 1
    requires i < |h.free| && h.free[i] in h.mem && h.free[i] < b && (i + 1 < |h.free| ==> b < h.free[i+1])
    ensures Sound(Link(h, i, b)) && |Link(h, i, b).free| == |h.free| + 1
    ensures forall k: nat :: k <= |h.free| - 1 && k != i && k != i + 1 ==> Gap(Link(h, i, b).mem, Link(h, i, b).free, k)
  {
    hide Tiled;
    hide Inserted;
    assert b in h.blocks && b !in h.free;
    LinkAccounted(h, i, b);
    LinkChained(h, i, b);
    InsertSorted(h.free, i, b);
    InsertedAt(h.free, i, b);
    var g := Link(h, i, b);
    forall k: nat | k <= |h.free| - 1 && k != i && k != i + 1 ensures Gap(g.mem, g.free, k) {
      LinkGap(h.mem, g.mem, h.free, i, b, k);
    }
  }

  ghost predicate Touching(m: Memory, free: seq<nat>, k: nat)
  {
    && 1 <= k && k + 1 < |free| && free[k] in m && free[k+1] in m
    && free[k] + m[free[k]].size == free[k+1]
  }

  /** Free block k takes over the one after it. */
  ghost function Join(h: Heap, k: nat): Heap
    requires Touching(h.mem, h.free, k)
  {
    var a, b := h.free[k], h.free[k+1];
    var size := h.mem[a].size + h.mem[b].size;
    h.(mem := h.mem[a := Header(h.mem[b].ptr, size)], free := Removed(h.free, k + 1),
       blocks := h.blocks[a := size] - {b}, home := map u | u in h.home :: if h.home[u] == b then a else h.home[u])
  }

  lemma {:induction false} JoinChained(m: Memory, free: seq<nat>, k: nat)
    requires Listed(m, free) && 1 <= k && k + 1 < |free|
    ensures Chained(m[free[k] := Header(m[free[k+1]].ptr, m[free[k]].size + m[free[k+1]].size)], Removed(free, k + 1))
  {
    hide Removed;
    var a, b := free[k], free[k+1];
    var m', free' := m[a := Header(m[b].ptr, m[a].size + m[b].size)], Removed(free, k + 1);
    RemovedAt(free, k + 1);
    assert m[b].ptr == Succ(free, k + 1);
    forall j | 0 <= j < |free'| ensures free'[j] in m' && m'[free'[j]].ptr == Succ(free', j) {
      if j < k { assert m[free[j]].ptr == Succ(free, j); }
      if j > k { assert m[free[j+1]].ptr == Succ(free, j + 1); }
    }
  }

  lemma {:induction false} MergeTiled(home: map<nat, nat>, blocks: map<nat, nat>, a: nat, b: nat, home': map<nat, nat>)
    requires Tiled(home, blocks) && a in blocks && b in blocks && a + blocks[a] == b
    requires home' == map u | u in home :: if home[u] == b then a else home[u]
    ensures Tiled(home', blocks[a := blocks[a] + blocks[b]] - {b})
  {
    hide Covers;
    MergeBoth(home, a, b, blocks[a], blocks[b], home');
    forall x | x in blocks && x != a && x != b ensures Covers(home', x, blocks[x]) {
      MergeOther(home, b, x, blocks[x], a, home');
    }
  }

  lemma {:induction false} MergeBoth(home: map<nat, nat>, a: nat, b: nat, n: nat, n': nat, home': map<nat, nat>)
    requires Covers(home, a, n) && Covers(home, b, n') && a + n == b
    requires home' == map u | u in home :: if home[u] == b then a else home[u]
    ensures Covers(home', a, n + n')
  {}

  lemma {:induction false} MergeOther(home: map<nat, nat>, b: nat, x: nat, n: nat, a: nat, home': map<nat, nat>)
    requires Covers(home, x, n) && x != b
    requires home' == map u | u in home :: if home[u] == b then a else home[u]
    ensures Covers(home', x, n)
  {}

  /** The allocated blocks keep their units and sizes, and no unit came or went. */
  ghost predicate KeepsLive(h: Heap, g: Heap, live: set<nat>)
  {
    && g.home.Keys == h.home.Keys
    && (forall a :: a in live ==> a in h.blocks && a in g.blocks && g.blocks[a] == h.blocks[a])
    && (forall u :: u in h.home && h.home[u] in live ==> u in g.home && g.home[u] == h.home[u])
  }

  lemma {:induction false} JoinAccounted(h: Heap, k: nat)
    requires Accounted(h) && Sorted(h.free) && Touching(h.mem, h.free, k)
    requires forall x :: x in Removed(h.free, k + 1) <==> x in h.free && x != h.free[k+1]
    ensures Accounted(Join(h, k)) && KeepsLive(h, Join(h, k), h.used)
  {
    hide Removed;
    var a, b := h.free[k], h.free[k+1];
    assert BASE == h.free[0] < a && a < b && a in h.free && b in h.free;
  }

  lemma {:induction false} ListedBlock(h: Heap, k: nat)
    requires Sorted(h.free) && Accounted(h) && 1 <= k < |h.free|
    ensures h.free[k] in h.blocks && h.free[k] in h.mem && h.mem[h.free[k]].size == h.blocks[h.free[k]]
    ensures h.free[k] > BASE
  {
    assert h.free[0] < h.free[k] && h.free[k] in h.free;
  }

  lemma {:induction false} JoinKeeps(h: Heap, k: nat)
    requires Sound(h) && Touching(h.mem, h.free, k)
    ensures Sound(Join(h, k)) && KeepsLive(h, Join(h, k), h.used) && |Join(h, k).free| == |h.free| - 1
  {
    hide Removed;
    hide Tiled;
    hide Accounted;
    hide Chained;
    hide Sorted;
    hide KeepsLive;
    var a, b := h.free[k], h.free[k+1];
    ListedBlock(h, k);
    ListedBlock(h, k + 1);
    RemovedMembers(h.free, k + 1);
    RemovedAt(h.free, k + 1);
    RemoveSorted(h.free, k + 1);
    JoinChained(h.mem, h.free, k);
    JoinAccounted(h, k);
    MergeTiled(h.home, h.blocks, a, b, Join(h, k).home);
  }

  lemma {:induction false} JoinGap(h: Heap, k: nat, j: nat)
    requires Sorted(h.free) && Touching(h.mem, h.free, k) && j + 2 < |h.free|
    requires Gap(h.mem, h.free, if j < k then j else j + 1)
    ensures Gap(Join(h, k).mem, Join(h, k).free, j)
  {
    hide Removed;
    RemovedAt(h.free, k + 1);
  }

  lemma {:induction false} NotTouching(h: Heap, k: nat)
    requires Sound(h) && k + 1 < |h.free| && !Touching(h.mem, h.free, k)
    ensures Gap(h.mem, h.free, k)
  {
    hide Tiled;
    NoOverlap(h, k);
  }

  ghost function JoinIf(h: Heap, k: nat): Heap { if Touching(h.mem, h.free, k) then Join(h, k) else h }

  /** free(): link, then join with the next block if they touch, then with the previous one. */
  ghost function Freed(h: Heap, i: nat, b: nat): Heap
    requires i < |h.free| && b in h.mem && h.free[i] in h.mem
  {
    JoinIf(JoinIf(Link(h, i, b), i + 1), i)
  }

  /** After the join upwards only the pair (i, i+1) may touch. */
  lemma {:induction false} JoinUp(g: Heap, i: nat, g1: Heap)
    requires Sound(g) && i + 1 < |g.free| && g1 == JoinIf(g, i + 1)
    requires forall k: nat :: k + 1 < |g.free| && k != i && k != i + 1 ==> Gap(g.mem, g.free, k)
    ensures Sound(g1) && g1.used == g.used && KeepsLive(g, g1, g.used) && i + 1 < |g1.free|
    ensures forall k: nat :: k + 1 < |g1.free| && k != i ==> Gap(g1.mem, g1.free, k)
  {
    hide Tiled;
    hide Chained;
    hide Gap;
    hide Join;
    if Touching(g.mem, g.free, i + 1) {
      JoinKeeps(g, i + 1);
      JoinUsed(g, i + 1);
      forall k: nat | k + 1 < |g1.free| && k != i ensures Gap(g1.mem, g1.free, k) { JoinGap(g, i + 1, k); }
    } else if i + 2 < |g.free| {
      NotTouching(g, i + 1);
    }
  }

  lemma {:induction false} JoinUsed(h: Heap, k: nat)
    requires Touching(h.mem, h.free, k)
    ensures Join(h, k).used == h.used
  {}

  lemma {:induction false} JoinDown(g: Heap, i: nat, g1: Heap)
    requires Sound(g) && i + 1 < |g.free| && g1 == JoinIf(g, i)
    requires forall k: nat :: k + 1 < |g.free| && k != i ==> Gap(g.mem, g.free, k)
    ensures Inv(g1) && g1.used == g.used && KeepsLive(g, g1, g.used)
  {
    hide Tiled;
    hide Chained;
    hide Gap;
    hide Join;
    if Touching(g.mem, g.free, i) {
      JoinKeeps(g, i);
      JoinUsed(g, i);
      forall k: nat | k + 1 < |g1.free| ensures Gap(g1.mem, g1.free, k) { JoinGap(g, i, k); }
    } else {
      NotTouching(g, i);
    }
  }

  /** FREE. Freeing an allocated block keeps the heap in order: the list circular, sorted and coalesced, every
      unit in one block; the other allocated blocks keep their units, and no unit is lost. */
  lemma {:induction false} FreedInv(h: Heap, i: nat, b: nat)
    requires Inv(h) && b in h.used && b in h.mem && h.mem[b].size >= 1
    requires i < |h.free| && h.free[i] in h.mem && h.free[i] < b && (i + 1 < |h.free| ==> b < h.free[i+1])
    ensures Inv(Freed(h, i, b)) && Freed(h, i, b).used == h.used - {b} && KeepsLive(h, Freed(h, i, b), h.used - {b})
  {
    hide Sound;
    hide Gap;
    hide Join;
    LinkKeeps(h, i, b);
    var g := Link(h, i, b);
    JoinUp(g, i, JoinIf(g, i + 1));
    JoinDown(JoinIf(g, i + 1), i, Freed(h, i, b));
  }

  // ----- malloc: take a whole block, or the tail of one -----

  /** A free block that is exactly large enough leaves the list. */
  ghost function TakeWhole(h: Heap, k: nat): Heap
    requires 1 <= k < |h.free| && h.free[k] in h.mem && h.free[k-1] in h.mem
  {
    var a, p := h.free[k], h.free[k-1];
    h.(mem := h.mem[p := h.mem[p].(ptr := h.mem[a].ptr)], free := Removed(h.free, k), used := h.used + {a})
  }

  /** A larger free block keeps its front and gives up its last n units. */
  ghost function TakeTail(h: Heap, k: nat, n: nat): Heap
    requires 1 <= k < |h.free| && h.free[k] in h.mem && n < h.mem[h.free[k]].size
    requires h.free[k] + (h.mem[h.free[k]].size - n) in h.mem
  {
    var a := h.free[k];
    var rest := h.mem[a].size - n;
    var t := a + rest;
    h.(mem := h.mem[a := h.mem[a].(size := rest)][t := h.mem[t].(size := n)], used := h.used + {t},
       blocks := h.blocks[a := rest][t := n], home := map u | u in h.home :: if t <= u < t + n then t else h.home[u])
  }

  /** Block a of n units is now allocated; its units were all free before; nothing changed for the others. */
  ghost predicate Carved(h: Heap, g: Heap, a: nat, n: nat)
  {
    && a !in h.used && g.used == h.used + {a} && a in g.blocks && g.blocks[a] == n && KeepsLive(h, g, h.used)
    && (forall u :: a <= u < a + n ==> u in h.home && h.home[u] !in h.used && u in g.home && g.home[u] == a)
  }

  lemma {:induction false} WholeChained(m: Memory, free: seq<nat>, k: nat)
    requires Listed(m, free) && 1 <= k < |free|
    ensures Chained(m[free[k-1] := m[free[k-1]].(ptr := m[free[k]].ptr)], Removed(free, k))
  {
    hide Removed;
    var m', free' := m[free[k-1] := m[free[k-1]].(ptr := m[free[k]].ptr)], Removed(free, k);
    RemovedAt(free, k);
    assert m[free[k]].ptr == Succ(free, k);
    forall j | 0 <= j < |free'| ensures free'[j] in m' && m'[free'[j]].ptr == Succ(free', j) {
      if j < k - 1 { assert m[free[j]].ptr == Succ(free, j); }
      if j >= k { assert m[free[j+1]].ptr == Succ(free, j + 1); }
    }
  }

  lemma {:induction false} WholeAccounted(h: Heap, k: nat)
    requires Sorted(h.free) && Accounted(h) && Tiled(h.home, h.blocks)
    requires 1 <= k < |h.free| && h.free[k] in h.mem && h.free[k-1] in h.mem
    requires forall x :: x in Removed(h.free, k) <==> x in h.free && x != h.free[k]
    ensures Accounted(TakeWhole(h, k)) && Carved(h, TakeWhole(h, k), h.free[k], h.mem[h.free[k]].size)
  {
    hide Removed;
    var a := h.free[k];
    var g := TakeWhole(h, k);
    assert h.free[0] < a && a in h.free && a in h.blocks && Covers(h.home, a, h.blocks[a]);
    assert forall x :: x in h.mem ==> x in g.mem && g.mem[x].size == h.mem[x].size;
  }

  lemma {:induction false} WholeInv(h: Heap, k: nat)
    requires Inv(h) && 1 <= k < |h.free| && h.free[k] in h.mem && h.free[k-1] in h.mem
    ensures Inv(TakeWhole(h, k)) && Carved(h, TakeWhole(h, k), h.free[k], h.mem[h.free[k]].size)
  {
    hide Removed;
    hide Tiled;
    hide Sorted;
    hide Chained;
    hide Gap;
    var g := TakeWhole(h, k);
    RemovedMembers(h.free, k);
    RemoveSorted(h.free, k);
    WholeChained(h.mem, h.free, k);
    WholeAccounted(h, k);
    forall j: nat | j + 1 < |g.free| ensures Gap(g.mem, g.free, j) { WholeGap(h, k, j); }
  }

  lemma {:induction false} WholeGap(h: Heap, k: nat, j: nat)
    requires Coalesced(h.mem, h.free) && Sorted(h.free) && 1 <= k < |h.free| && h.free[k] in h.mem
    requires h.free[k-1] in h.mem
    requires j + 1 < |Removed(h.free, k)|
    ensures Gap(TakeWhole(h, k).mem, TakeWhole(h, k).free, j)
  {
    hide Removed;
    RemovedAt(h.free, k);
    assert Gap(h.mem, h.free, if j < k then j else j + 1);
    assert Gap(h.mem, h.free, k - 1);
  }

  lemma {:induction false} SplitStart(home: map<nat, nat>, blocks: map<nat, nat>, a: nat, t: nat, n: nat)
    requires Tiled(home, blocks) && a in blocks && a < t && n >= 1 && t + n == a + blocks[a]
    ensures t !in blocks && t in home
    ensures forall u :: t <= u < t + n ==> u in home && home[u] == a
  {
    assert Covers(home, a, blocks[a]);
    assert t in home && home[t] == a;
    if t in blocks {
      BlockStart(home, blocks, t);
      assert false;
    }
  }

  lemma {:induction false} SplitBoth(home: map<nat, nat>, a: nat, t: nat, n: nat, size: nat, home': map<nat, nat>)
    requires Covers(home, a, size) && a < t && t + n == a + size
    requires home' == map u | u in home :: if t <= u < t + n then t else home[u]
    ensures Covers(home', a, t - a) && Covers(home', t, n)
  {}

  lemma {:induction false} SplitTiled(home: map<nat, nat>, blocks: map<nat, nat>, a: nat, t: nat, n: nat,
                                      home': map<nat, nat>)
    requires Tiled(home, blocks) && a in blocks && a < t && n >= 1 && t + n == a + blocks[a] && t !in blocks
    requires home' == map u | u in home :: if t <= u < t + n then t else home[u]
    ensures Tiled(home', blocks[a := t - a][t := n])
  {
    hide Covers;
    SplitBoth(home, a, t, n, blocks[a], home');
    forall x | x in blocks && x != a
      ensures Covers(home', x, blocks[x])
    {
      SplitOther(home, blocks, a, t, n, home', x);
    }
  }

  lemma {:induction false} SplitOther(home: map<nat, nat>, blocks: map<nat, nat>, a: nat, t: nat, n: nat,
                                      home': map<nat, nat>, x: nat)
    requires Tiled(home, blocks) && a in blocks && x in blocks && x != a && a <= t && t + n <= a + blocks[a]
    requires home' == map u | u in home :: if t <= u < t + n then t else home[u]
    ensures Covers(home', x, blocks[x])
  {
    assert Covers(home, a, blocks[a]) && Covers(home, x, blocks[x]);
  }

  lemma {:induction false} TailAccounted(h: Heap, k: nat, n: nat)
    requires Accounted(h) && 1 <= k < |h.free| && h.free[k] in h.blocks && h.free[k] in h.mem
    requires 1 <= n < h.mem[h.free[k]].size
    requires var t := h.free[k] + (h.mem[h.free[k]].size - n);
             && t in h.mem && t !in h.blocks && t > BASE && t in h.home
             && (forall u :: t <= u < t + n ==> u in h.home && h.home[u] == h.free[k])
    ensures var t := h.free[k] + (h.mem[h.free[k]].size - n);
            Accounted(TakeTail(h, k, n)) && Carved(h, TakeTail(h, k, n), t, n)
  {
    assert h.free[k] in h.free;
  }

  lemma {:induction false} TailInv(h: Heap, k: nat, n: nat)
    requires Inv(h) && 1 <= k < |h.free| && h.free[k] in h.mem && 1 <= n < h.mem[h.free[k]].size
    ensures h.free[k] + (h.mem[h.free[k]].size - n) in h.mem
    ensures Inv(TakeTail(h, k, n)) && Carved(h, TakeTail(h, k, n), h.free[k] + (h.mem[h.free[k]].size - n), n)
  {
    hide Tiled;
    var a := h.free[k];
    var rest := h.mem[a].size - n;
    assert h.free[0] < a && a in h.free && a in h.blocks;
    SplitStart(h.home, h.blocks, a, a + rest, n);
    SplitTiled(h.home, h.blocks, a, a + rest, n, TakeTail(h, k, n).home);
    TailAccounted(h, k, n);
    TailChained(h, k, n);
  }

  /** The list stands if the links stay and sizes only shrink. */
  lemma {:induction false} ListStays(m: Memory, m': Memory, free: seq<nat>)
    requires Listed(m, free) && Coalesced(m, free)
    requires forall i :: 0 <= i < |free| ==> free[i] in m && free[i] in m' && m'[free[i]].ptr == m[free[i]].ptr
                                             && (if i == 0 then 0 else 1) <= m'[free[i]].size <= m[free[i]].size
    ensures Chained(m', free) && Coalesced(m', free)
  {
    forall j | 0 <= j < |free| ensures m'[free[j]].ptr == Succ(free, j) { assert m[free[j]].ptr == Succ(free, j); }
    forall j: nat | j + 1 < |free| ensures Gap(m', free, j) { assert Gap(m, free, j); }
  }

  lemma {:induction false} TailChained(h: Heap, k: nat, n: nat)
    requires Listed(h.mem, h.free) && Accounted(h) && Coalesced(h.mem, h.free)
    requires 1 <= k < |h.free| && 1 <= n < h.mem[h.free[k]].size
    requires var t := h.free[k] + (h.mem[h.free[k]].size - n); t in h.mem && t !in h.blocks && t > BASE
    ensures Chained(TakeTail(h, k, n).mem, h.free) && Coalesced(TakeTail(h, k, n).mem, h.free)
  {
    hide Coalesced;
    var g := TakeTail(h, k, n);
    var t := h.free[k] + (h.mem[h.free[k]].size - n);
    assert t !in h.free;
    assert forall i :: 0 <= i < |h.free| ==> h.free[i] in h.free && h.free[i] != t;
    ListStays(h.mem, g.mem, h.free);
  }

  // ----- morecore -----

  ghost function Range(p: nat, n: nat): (s: set<nat>)
    ensures forall u :: u in s <==> p <= u < p + n
  {
    if n == 0 then {} else Range(p, n - 1) + {p + n - 1}
  }

  /** The memory after sbrk gave a region of n units at p (whose contents are `junk`) and its header was set. */
  ghost function Grow(h: Heap, p: nat, n: nat, junk: Memory): Heap
    requires p in junk
  {
    h.(mem := h.mem + junk[p := junk[p].(size := n)], used := h.used + {p}, blocks := h.blocks[p := n],
       home := map u | u in h.home.Keys + Range(p, n) :: if p <= u < p + n then p else h.home[u])
  }

  lemma {:induction false} GrowTiled(home: map<nat, nat>, blocks: map<nat, nat>, p: nat, n: nat, home': map<nat, nat>)
    requires Tiled(home, blocks) && p > BASE && n >= 1 && (forall u :: u in home ==> u < p)
    requires home' == map u | u in home.Keys + Range(p, n) :: if p <= u < p + n then p else home[u]
    ensures p !in blocks && Tiled(home', blocks[p := n])
  {
    hide Range;
    if p in blocks {
      BlockStart(home, blocks, p);
      assert false;
    }
    GrowHomes(home, blocks, p, n, home');
    assert Covers(home', p, n);
    forall x | x in blocks ensures Covers(home', x, blocks[x]) { assert Covers(home, x, blocks[x]); }
  }

  lemma {:induction false} GrowHomes(home: map<nat, nat>, blocks: map<nat, nat>, p: nat, n: nat, home': map<nat, nat>)
    requires Tiled(home, blocks) && p !in blocks && n >= 1 && (forall u :: u in home ==> u < p)
    requires home' == map u | u in home.Keys + Range(p, n) :: if p <= u < p + n then p else home[u]
    ensures forall u :: u in home' ==> home'[u] in blocks[p := n] && home'[u] <= u < home'[u] + blocks[p := n][home'[u]]
  {
    hide Range;
    hide Covers;
  }

  /** sbrk memory above everything so far joins the heap as an allocated block (which morecore then frees). */
  lemma {:induction false} GrowInv(h: Heap, p: nat, n: nat, junk: Memory)
    requires Inv(h) && p > BASE && n >= 1 && (forall u :: u in h.home ==> u < p)
    requires junk.Keys == Range(p, n) && p in junk
    ensures Inv(Grow(h, p, n, junk)) && p !in h.used
    ensures Grow(h, p, n, junk).home.Keys == h.home.Keys + Range(p, n)
  {
    hide Range;
    hide Tiled;
    hide Coalesced;
    hide Accounted;
    var g := Grow(h, p, n, junk);
    GrowTiled(h.home, h.blocks, p, n, g.home);
    FreeBelow(h, p);
    assert forall i :: 0 <= i < |h.free| ==> h.free[i] < p && h.free[i] !in junk;
    ListStays(h.mem, g.mem, h.free);
    BlocksBelow(h, p);
    GrowAccounted(h, p, n, junk);
  }

  lemma {:induction false} GrowAccounted(h: Heap, p: nat, n: nat, junk: Memory)
    requires Accounted(h) && n >= 1 && junk.Keys == Range(p, n) && p in junk && p !in h.blocks && p != BASE
    requires (forall a :: a in h.blocks ==> a < p) && (forall i :: 0 <= i < |h.free| ==> h.free[i] < p)
    requires forall u :: u in h.home ==> u < p
    ensures Accounted(Grow(h, p, n, junk)) && p !in h.used
  {
    hide Range;
  }

  lemma {:induction false} FreeBelow(h: Heap, p: nat)
    requires Sound(h) && p > BASE && (forall u :: u in h.home ==> u < p)
    ensures forall i :: 0 <= i < |h.free| ==> h.free[i] < p
  {
    forall i | 0 <= i < |h.free| ensures h.free[i] < p {
      if i > 0 {
        var a := h.free[i];
        assert h.free[0] < a && a in h.free && a in h.blocks;
        BlockStart(h.home, h.blocks, a);
      }
    }
  }

  lemma {:induction false} BlocksBelow(h: Heap, p: nat)
    requires Tiled(h.home, h.blocks) && (forall u :: u in h.home ==> u < p)
    ensures forall a :: a in h.blocks ==> a < p
  {
    forall a | a in h.blocks ensures a < p { BlockStart(h.home, h.blocks, a); }
  }
}

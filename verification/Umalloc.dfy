/** malloc and free (umalloc.c). */
module Umalloc {
  import opened Basics
  import opened HeapSpec
  import opened Options

  /** The position of the last free block below b. */
  ghost function Place(free: seq<nat>, b: nat, k: nat): (r: nat)
    requires Sorted(free) && b > BASE && k < |free|
    ensures r <= k && free[r] < b && forall j :: r < j <= k ==> free[j] >= b
  {
    if k == 0 || free[k] < b then k else Place(free, b, k - 1)
  }

  /** What free()'s stores leave in memory. */
  function FreeStores(m: Memory, p: nat, bp: nat): Memory
    requires p in m && bp in m && m[p].ptr in m
  {
    var next := m[p].ptr;
    var m1 := if bp + m[bp].size == next then m[bp := Header(m[next].ptr, m[bp].size + m[next].size)]
              else m[bp := m[bp].(ptr := next)];
    if p + m1[p].size == bp then m1[p := Header(m1[bp].ptr, m1[p].size + m1[bp].size)] else m1[p := m1[p].(ptr := bp)]
  }

  lemma {:induction false} FreeStoresAre(h: Heap, i: nat, bp: nat)
    requires Inv(h) && bp in h.used && bp in h.mem && bp > BASE && h.mem[bp].size >= 1 && bp !in h.free
    requires i < |h.free| && h.free[i] in h.mem && h.free[i] < bp && (i + 1 < |h.free| ==> bp < h.free[i+1])
    ensures h.mem[h.free[i]].ptr == Succ(h.free, i) && Succ(h.free, i) in h.mem
    ensures FreeStores(h.mem, h.free[i], bp) == Freed(h, i, bp).mem
  {
    hide Tiled;
    hide Accounted;
    hide Inserted;
    hide Removed;
    var p := h.free[i];
    assert h.mem[p].ptr == Succ(h.free, i);
    InsertedAt(h.free, i, bp);
    var g := Link(h, i, bp);
    assert g.free[i] == p && g.free[i+1] == bp && (i + 1 < |h.free| ==> g.free[i+2] == h.free[i+1]);
    var g1 := JoinIf(g, i + 1);
    if Touching(g.mem, g.free, i + 1) { RemovedAt(g.free, i + 2); }
    assert g1.free[i] == p && g1.free[i+1] == bp && i + 1 < |g1.free|;
    assert i == 0 ==> p + h.mem[p].size != bp;
  }

  // ----- going round the list -----

  /** The t-th block from position f on. */
  ghost function At(free: seq<nat>, f: nat, t: nat): nat
    requires f < |free| && t <= |free|
  {
    if f + t < |free| then free[f + t] else free[f + t - |free|]
  }

  lemma {:induction false} AtNext(m: Memory, free: seq<nat>, f: nat, t: nat)
    requires Listed(m, free) && f < |free| && t < |free|
    ensures At(free, f, t) in m && m[At(free, f, t)].ptr == At(free, f, t + 1) && At(free, f, t + 1) in m
    ensures At(free, f, t + 1) == free[f] <==> t + 1 == |free|
  {
    var k := if f + t < |free| then f + t else f + t - |free|;
    assert m[free[k]].ptr == Succ(free, k);
  }

  /** Once round the list is every block. */
  lemma {:induction false} AtAll(free: seq<nat>, f: nat, i: nat) returns (t: nat)
    requires f < |free| && i < |free|
    ensures 1 <= t <= |free| && At(free, f, t) == free[i]
  {
    t := if i > f then i - f else i + |free| - f;
  }

  ghost predicate HasFit(h: Heap, n: nat)
  {
    exists k :: 0 <= k < |h.free| && h.free[k] in h.mem && h.mem[h.free[k]].size >= n
  }

  /** The block just freed is still in one piece, alone or as part of a larger free block. */
  lemma {:induction false} FreedFits(h: Heap, i: nat, b: nat)
    requires i < |h.free| && b in h.mem && h.free[i] in h.mem && h.free[i] != b
    ensures HasFit(Freed(h, i, b), h.mem[b].size)
  {
    hide Inserted;
    hide Removed;
    InsertedAt(h.free, i, b);
    var g := Link(h, i, b);
    assert g.free[i+1] == b && g.mem[b].size == h.mem[b].size;
    var g1 := JoinIf(g, i + 1);
    if Touching(g.mem, g.free, i + 1) { RemovedAt(g.free, i + 2); }
    assert g1.free[i+1] == b && g1.mem[b].size >= h.mem[b].size;
    var g2 := JoinIf(g1, i);
    if Touching(g1.mem, g1.free, i) {
      RemovedAt(g1.free, i + 1);
      assert g2.free[i] == g1.free[i] && g2.mem[g2.free[i]].size >= h.mem[b].size;
    } else {
      assert g2.free[i+1] == b;
    }
  }

  /** A program may write anything into the payload of its blocks. */
  lemma {:induction false} ScribbleInv(h: Heap, u: nat, x: Header)
    requires Inv(h) && u in h.home && h.home[u] in h.used && h.home[u] != u
    ensures Inv(h.(mem := h.mem[u := x]))
  {
    hide Tiled;
    hide Coalesced;
    if u in h.blocks {
      BlockStart(h.home, h.blocks, u);
      assert false;
    }
    AboveBase(h, u);
    assert forall i :: 0 <= i < |h.free| ==> h.free[i] in h.free && h.free[i] != u;
    ListStays(h.mem, h.mem[u := x], h.free);
  }

  lemma {:induction false} AboveBase(h: Heap, u: nat)
    requires Tiled(h.home, h.blocks) && u in h.home
    ensures u > BASE
  {}

  // ----- sizes -----

  /** `nunits`, in 32-bit arithmetic. */
  function UnitsFor(nbytes: nat): nat { (nbytes + 7) % UINT / 8 + 1 }

  /** morecore's request in units, and the int that sbrk receives for it. */
  function Request(nunits: nat): nat { if nunits < 4096 then 4096 else nunits }

  function SbrkArg(nu: nat): int {
    var x := nu * 8 % UINT;
    if x < UINT / 2 then x else x - UINT
  }

  /** malloc's block has room for nbytes after its header, and sbrk is asked for what morecore believes it
      gets, exactly for requests up to 2^31 - 16 bytes. */
  lemma {:induction false} SizesRight(nbytes: nat)
    requires nbytes < UINT
    ensures (8 * (UnitsFor(nbytes) - 1) >= nbytes
            && SbrkArg(Request(UnitsFor(nbytes))) == 8 * Request(UnitsFor(nbytes)))
            <==> nbytes <= 0x8000_0000 - 16
  {
    if nbytes + 7 >= UINT {
      assert (nbytes + 7) % UINT == nbytes + 7 - UINT;
    }
  }

  // ----- the allocator -----

  class Allocator {
    var mem: Memory
    var freep: nat                     // 0 until the first malloc
    ghost var free: seq<nat>
    ghost var used: set<nat>
    ghost var blocks: map<nat, nat>
    ghost var home: map<nat, nat>

    ghost function H(): Heap
      reads this
    {
      Heap(mem, free, used, blocks, home)
    }

    ghost predicate Ready()
      reads this
    {
      Inv(H()) && freep in free
    }

    ghost predicate Valid()
      reads this
    {
      if freep == 0 then used == {} && blocks == map[] && home == map[] && BASE in mem else Ready()
    }

    /** A program just started: `base` is static, nothing is allocated. */
    constructor ()
      ensures Valid() && used == {} && home == map[]
    {
      mem, freep, free, used, blocks, home := map[BASE := Header(0, 0)], 0, [], {}, map[], map[];
    }

    ghost method Become(h: Heap)
      modifies this`free, this`used, this`blocks, this`home
      ensures free == h.free && used == h.used && blocks == h.blocks && home == h.home
    {
      free, used, blocks, home := h.free, h.used, h.blocks, h.home;
    }

    /** free's search: the last free block below bp, found by following the circle from freep. */
    method FindPlace(bp: nat) returns (p: nat, ghost i: nat)
      requires Ready() && bp > BASE && bp !in free
      ensures i < |free| && free[i] == p && p in mem && p < bp && (i + 1 < |free| ==> bp < free[i+1])
    {
      hide Tiled;
      hide Coalesced;
      hide Accounted;
      ghost var r := Place(free, bp, |free| - 1);
      p := freep;
      i :| 0 <= i < |free| && free[i] == p;
      assert mem[free[i]].ptr == Succ(free, i);
      while !(bp > p && bp < mem[p].ptr)
        invariant 0 <= i < |free| && free[i] == p && p in mem && mem[p].ptr == Succ(free, i)
        decreases if i <= r then r - i else |free| - i + r
      {
        if p >= mem[p].ptr && (bp > p || bp < mem[p].ptr) {
          break;
        }
        i := if i + 1 < |free| then i + 1 else 0;
        p := mem[p].ptr;
        assert mem[free[i]].ptr == Succ(free, i);
      }
    }

    /** free(ap) for an allocated block: ap points past its header. */
    method Free(ap: nat)
      requires Ready() && ap >= 1 && ap - 1 in used
      modifies this
      ensures Ready() && used == old(used) - {ap - 1}
      ensures KeepsLive(old(H()), H(), used)
      ensures HasFit(H(), old(H()).blocks[ap - 1])
    {
      hide Inv;
      hide Freed;
      var bp := ap - 1;
      UsedBlock(H(), bp);
      var p;
      ghost var i;
      p, i := FindPlace(bp);
      FreeStoresAre(H(), i, bp);
      FreedInv(H(), i, bp);
      FreedFits(H(), i, bp);
      ghost var g := Freed(H(), i, bp);
      FreedList(H(), i, bp);
      if bp + mem[bp].size == mem[p].ptr {
        mem := mem[bp := Header(mem[mem[p].ptr].ptr, mem[bp].size + mem[mem[p].ptr].size)];
      } else {
        mem := mem[bp := mem[bp].(ptr := mem[p].ptr)];
      }
      if p + mem[p].size == bp {
        mem := mem[p := Header(mem[bp].ptr, mem[p].size + mem[bp].size)];
      } else {
        mem := mem[p := mem[p].(ptr := bp)];
      }
      freep := p;
      Become(g);
      assert H() == g;
    }

    /** morecore: `answer` is what sbrk returns, with the contents of the new memory. None is NULL. */
    method Morecore(nunits: nat, answer: Option<(nat, Memory)>) returns (ok: bool)
      requires Ready() && (answer.Some? ==> GoodRegion(H(), Request(nunits), answer.value))
      modifies this
      ensures Ready() && used == old(used) && KeepsUsed(old(H()), H())
      ensures ok == answer.Some?
      ensures !ok ==> H() == old(H())
      ensures ok ==> HasFit(H(), nunits) && home.Keys == old(home).Keys + Range(answer.value.0, Request(nunits))
    {
      hide Inv;
      var nu := nunits;
      if nu < 4096 {
        nu := 4096;
      }
      if answer.None? {
        KeepsUsedRefl(H());
        return false;
      }
      var p, junk := answer.value.0, answer.value.1;
      ghost var g := Grow(H(), p, nu, junk);
      GrowInv(H(), p, nu, junk);
      GrowKeeps(H(), p, nu, junk);
      mem := mem + junk[p := junk[p].(size := nu)];
      Become(g);
      assert H() == g;
      Free(p + 1);
      FitLess(H(), nu, nunits);
      return true;
    }

    /** malloc: a new allocated block of UnitsFor(nbytes) units made of units that were free, or NULL if sbrk
        fails. `answer` is what sbrk would return: it is asked at most once, and only if no free block is large
        enough. */
    method Malloc(nbytes: nat, answer: Option<(nat, Memory)>) returns (r: Option<nat>, asked: bool)
      requires Valid() && (answer.Some? ==> GoodRegion(H(), Request(UnitsFor(nbytes)), answer.value))
      modifies this
      ensures Ready()
      ensures asked && answer.None? <==> r.None?
      ensures asked <==> old(freep) == 0 || !HasFit(old(H()), UnitsFor(nbytes))
      ensures r.None? ==> used == old(used) && home == old(home) && blocks == old(blocks)
      ensures r.Some? ==> && r.value >= 1 && r.value - 1 !in old(used) && used == old(used) + {r.value - 1}
                          && r.value - 1 in blocks && blocks[r.value - 1] == UnitsFor(nbytes)
                          && Covers(home, r.value - 1, UnitsFor(nbytes))
                          && (forall u :: r.value - 1 <= u < r.value - 1 + UnitsFor(nbytes) && u in old(home) ==>
                                old(home)[u] !in old(used))
      ensures KeepsUsed(old(H()), H())
      ensures home.Keys == if asked && answer.Some?
              then old(home).Keys + Range(answer.value.0, Request(UnitsFor(nbytes)))
                           else old(home).Keys
    {
      hide Inv;
      var nunits := UnitsFor(nbytes);
      if freep == 0 {
        mem := mem[BASE := Header(BASE, 0)];
        freep := BASE;
        free := [BASE];
        EmptyInv(H());
      }
      KeepsUsedRefl(H());
      var ok, prevp, p;
      ghost var k;
      ghost var h0 := H();
      ok, asked, prevp, p, k := Search(nunits, answer);
      if !ok {
        return None, asked;
      }
      ghost var h1 := H();
      var a := Carve(prevp, p, nunits, k);
      CarvedAfter(h0, h1, H(), a, nunits);
      return Some(a + 1), asked;
    }

    /** malloc's loop: round the list from freep; at the end of the round, morecore and round again. */
    method Search(nunits: nat, answer: Option<(nat, Memory)>)
      returns (ok: bool, asked: bool, prevp: nat, p: nat, ghost k: nat)
      requires Ready() && nunits >= 1 && (answer.Some? ==> GoodRegion(H(), Request(nunits), answer.value))
      modifies this
      ensures Ready() && (!ok <==> asked && answer.None?)
      ensures asked <==> !HasFit(old(H()), nunits)
      ensures !ok ==> H() == old(H())
      ensures ok ==> Searched(old(H()), H(), asked, answer, nunits)
      ensures ok ==>
                && 1 <= k < |free| && free[k] == p && free[k-1] == prevp && p in mem && prevp in mem
                && nunits <= mem[p].size
    {
      hide Inv;
      hide Searched;
      hide GoodRegion;
      hide At;
      ghost var h0 := H();
      SearchStarts(h0, answer, nunits);
      asked, k := false, 0;
      prevp := freep;
      ghost var f :| 0 <= f < |free| && free[f] == freep;
      ghost var t := 0;
      StepRound(H(), f, 0);
      p := mem[prevp].ptr;
      while mem[p].size < nunits
        invariant Ready() && f < |free| && free[f] == freep && t < |free|
        invariant prevp == At(free, f, t) && prevp in mem && p == At(free, f, t + 1) && p in mem && mem[prevp].ptr == p
        invariant forall s :: 1 <= s <= t ==> At(free, f, s) in mem && mem[At(free, f, s)].size < nunits
        invariant Searched(h0, H(), asked, answer, nunits) && (asked ==> !HasFit(h0, nunits))
        decreases if asked then 0 else 1, |free| - t
      {
        StepRound(H(), f, t);
        if p == freep {
          NoneFits(H(), f, nunits);
          NotAsked(h0, H(), asked, answer, nunits);
          ok := Morecore(nunits, answer);
          asked := true;
          if !ok {
            return;
          }
          SearchGrew(h0, H(), answer, nunits);
          p := freep;
          f :| 0 <= f < |free| && free[f] == freep;
          t := 0;
        } else {
          t := t + 1;
        }
        StepRound(H(), f, t);
        prevp := p;
        p := mem[p].ptr;
      }
      k := FitPosition(H(), f, t, nunits);
      SearchAnswered(h0, H(), asked, answer, nunits, k);
      ok := true;
    }

    /** malloc's stores once p is found to be large enough. */
    method Carve(prevp: nat, p: nat, nunits: nat, ghost k: nat) returns (a: nat)
      requires Ready() && 1 <= k < |free| && free[k] == p && free[k-1] == prevp && p in mem && prevp in mem
      requires 1 <= nunits <= mem[p].size
      modifies this
      ensures Ready() && Carved(old(H()), H(), a, nunits) && freep == prevp
    {
      hide Inv;
      ghost var h := H();
      if mem[p].size == nunits {
        WholeInv(h, k);
        mem := mem[prevp := mem[prevp].(ptr := mem[p].ptr)];
        a := p;
        Become(TakeWhole(h, k));
        assert H() == TakeWhole(h, k);
        RemovedAt(h.free, k);
        assert free[k-1] == prevp;
      } else {
        TailInv(h, k, nunits);
        mem := mem[p := mem[p].(size := mem[p].size - nunits)];
        a := p + mem[p].size;
        mem := mem[a := mem[a].(size := nunits)];
        Become(TakeTail(h, k, nunits));
        assert H() == TakeTail(h, k, nunits);
        assert free[k-1] == prevp;
      }
      freep := prevp;
    }
  }

  /** The heap while malloc searches: as before, or with what sbrk gave when it was asked. */
  ghost predicate Searched(h0: Heap, h: Heap, asked: bool, answer: Option<(nat, Memory)>, n: nat)
  {
    && h.used == h0.used && KeepsUsed(h0, h)
    && (!asked ==> h == h0)
    && (asked ==> answer.Some? && HasFit(h, n) && h.home.Keys == h0.home.Keys + Range(answer.value.0, Request(n)))
  }

  lemma {:induction false} SearchStarts(h: Heap, answer: Option<(nat, Memory)>, n: nat)
    requires Inv(h)
    ensures Searched(h, h, false, answer, n)
  {
    hide Inv;
    KeepsUsedRefl(h);
  }

  /** morecore is not called twice: after it a block fits. */
  lemma {:induction false} NotAsked(h0: Heap, h: Heap, asked: bool, answer: Option<(nat, Memory)>, n: nat)
    requires Searched(h0, h, asked, answer, n) && !HasFit(h, n)
    ensures !asked && h == h0
  {}

  lemma {:induction false} SearchAnswered(h0: Heap, h: Heap, asked: bool, answer: Option<(nat, Memory)>, n: nat, k: nat)
    requires Searched(h0, h, asked, answer, n) && k < |h.free| && h.free[k] in h.mem && h.mem[h.free[k]].size >= n
    ensures if asked then answer.Some? else HasFit(h0, n)
  {}

  lemma {:induction false} SearchGrew(h0: Heap, h: Heap, answer: Option<(nat, Memory)>, n: nat)
    requires h.used == h0.used && KeepsUsed(h0, h) && answer.Some? && HasFit(h, n)
    requires h.home.Keys == h0.home.Keys + Range(answer.value.0, Request(n))
    ensures Searched(h0, h, true, answer, n)
  {}

  lemma {:induction false} CarvedAfter(h0: Heap, h1: Heap, h2: Heap, a: nat, n: nat)
    requires KeepsUsed(h0, h1) && h1.used == h0.used && Carved(h1, h2, a, n)
    ensures KeepsUsed(h0, h2) && Covers(h2.home, a, n) && h2.home.Keys == h1.home.Keys
    ensures forall u :: a <= u < a + n && u in h0.home ==> h0.home[u] !in h0.used
  {}

  lemma {:induction false} KeepsUsedRefl(h: Heap)
    requires Inv(h)
    ensures KeepsUsed(h, h)
  {}

  lemma {:induction false} EmptyInv(h: Heap)
    requires h.free == [BASE] && h.used == {} && h.blocks == map[] && h.home == map[]
    requires BASE in h.mem && h.mem[BASE] == Header(BASE, 0)
    ensures Inv(h)
  {}

  lemma {:induction false} StepRound(h: Heap, f: nat, t: nat)
    requires Inv(h) && f < |h.free| && t < |h.free|
    ensures At(h.free, f, t) in h.mem && h.mem[At(h.free, f, t)].ptr == At(h.free, f, t + 1)
    ensures At(h.free, f, t + 1) in h.mem
    ensures At(h.free, f, 0) == h.free[f] && (At(h.free, f, t + 1) == h.free[f] <==> t + 1 == |h.free|)
  {
    AtNext(h.mem, h.free, f, t);
  }

  lemma {:induction false} NoneFits(h: Heap, f: nat, n: nat)
    requires f < |h.free|
    requires forall s :: 1 <= s <= |h.free| ==> At(h.free, f, s) in h.mem && h.mem[At(h.free, f, s)].size < n
    ensures !HasFit(h, n)
  {
    forall i: nat | i < |h.free| ensures h.free[i] in h.mem && h.mem[h.free[i]].size < n {
      var t := AtAll(h.free, f, i);
    }
  }

  /** A block that fits is not `base`, and the one before it on the way round precedes it in the list. */
  ghost function FitPosition(h: Heap, f: nat, t: nat, n: nat): (k: nat)
    requires Inv(h) && f < |h.free| && t < |h.free| && n >= 1
    requires At(h.free, f, t + 1) in h.mem && h.mem[At(h.free, f, t + 1)].size >= n
    ensures 1 <= k < |h.free| && h.free[k] == At(h.free, f, t + 1) && h.free[k-1] == At(h.free, f, t)
  {
    if f + t + 1 < |h.free| then f + t + 1 else f + t + 1 - |h.free|
  }

  /** sbrk grows the heap upwards: n units at r.0, above everything it gave before. */
  ghost predicate GoodRegion(h: Heap, n: nat, r: (nat, Memory))
  {
    && r.0 > BASE && (forall u :: u in h.home ==> u < r.0)
    && r.1.Keys == Range(r.0, n)
  }

  ghost predicate KeepsUsed(h: Heap, g: Heap)
  {
    && h.home.Keys <= g.home.Keys
    && (forall a :: a in h.used ==> a in h.blocks && a in g.blocks && g.blocks[a] == h.blocks[a])
    && (forall u :: u in h.home && h.home[u] in h.used ==> u in g.home && g.home[u] == h.home[u])
  }

  lemma {:induction false} GrowKeeps(h: Heap, p: nat, n: nat, junk: Memory)
    requires Inv(h) && GoodRegion(h, n, (p, junk)) && p in junk && n >= 1
    ensures KeepsUsed(h, Grow(h, p, n, junk)) && Grow(h, p, n, junk).blocks[p] == n
    ensures (h.used + {p}) - {p} == h.used
  {
    BlocksBelow(h, p);
  }

  lemma {:induction false} FitLess(h: Heap, n: nat, m: nat)
    requires HasFit(h, n) && m <= n
    ensures HasFit(h, m)
  {
    var k :| 0 <= k < |h.free| && h.free[k] in h.mem && h.mem[h.free[k]].size >= n;
  }

  lemma {:induction false} UsedBlock(h: Heap, b: nat)
    requires Inv(h) && b in h.used
    ensures b in h.mem && b in h.blocks && h.mem[b].size == h.blocks[b] >= 1 && b !in h.free && b > BASE
  {}

  lemma {:induction false} FreedList(h: Heap, i: nat, b: nat)
    requires i < |h.free| && b in h.mem && h.free[i] in h.mem
    ensures h.free[i] in Freed(h, i, b).free
  {
    hide Inserted;
    hide Removed;
    InsertedAt(h.free, i, b);
    var g := Link(h, i, b);
    var g1 := JoinIf(g, i + 1);
    if Touching(g.mem, g.free, i + 1) { RemovedAt(g.free, i + 2); }
    assert g1.free[i] == h.free[i];
    if Touching(g1.mem, g1.free, i) { RemovedAt(g1.free, i + 1); }
    assert Freed(h, i, b).free[i] == h.free[i];
  }
}

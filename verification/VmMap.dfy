/** What mappages, deallocuvm and allocuvm do to the pages and address spaces (vm.c): which entries change, which pages
    are taken or given back, and when a page is lost. */
module VmMap {
  import opened Basics
  import opened VmSpec

  datatype MapResult = Mapped | NoTable | Remap

  lemma {:induction false} HeldInv(vm: Vm)
    requires vm.free == [] && forall f :: f in vm.own ==> f in vm.mem && vm.own[f] == Held
    ensures Inv(vm)
  {
    forall pd | IsSpace(vm, pd) ensures false {}
  }

  // ----- mappages -----

  /** The directory entries that pages first..a-1 fall under end before this one. */
  function TabEnd(first: nat, a: nat): nat { if a > first then (a - 1) / NENTRIES + 1 else first / NENTRIES }

  /** How many of the directory entries lo..hi-1 have no table. */
  function Missing(m: Mem, pd: nat, lo: nat, hi: nat): (r: nat)
    decreases hi
  {
    if lo >= hi then 0 else Missing(m, pd, lo, hi - 1) + (if Dir(m, pd, hi - 1).Present? then 0 else 1)
  }

  /** Pages first..a-1 of pd, absent before, are mapped to the physical pages from pa on; nothing else shows a
      difference, and each missing table took one page from the free list. */
  ghost predicate MappedTo(vm: Vm, vm': Vm, pd: nat, first: nat, a: nat, pa: nat, flags: Flags)
  {
    && Touch(vm, vm', pd, first, a)
    && (forall v: nat {:trigger Entry(vm'.mem, pd, v)} :: first <= v < a ==>
          Entry(vm'.mem, pd, v) == Present(pa + (v - first), flags))
    && (forall v: nat {:trigger Entry(vm.mem, pd, v)} :: first <= v < a ==> Entry(vm.mem, pd, v) == Absent)
    && TablesFor(vm, vm', pd, first, a) && OwnersFor(vm, vm', pd, first, a, pa)
  }

  ghost predicate TablesFor(vm: Vm, vm': Vm, pd: nat, first: nat, a: nat)
  {
    && (forall d: nat {:trigger Dir(vm'.mem, pd, d)} ::
          Dir(vm'.mem, pd, d).Present? <==> Dir(vm.mem, pd, d).Present? || first / NENTRIES <= d < TabEnd(first, a))
    && |vm'.free| + Missing(vm.mem, pd, first / NENTRIES, TabEnd(first, a)) == |vm.free|
  }

  /** A user page that was held is pd's now; other pages in someone's hands stay, with their contents. */
  ghost predicate OwnersFor(vm: Vm, vm': Vm, pd: nat, first: nat, a: nat, pa: nat)
  {
    var given := if first < a && first < USERPAGES then {pa} else {};
    && vm'.own.Keys == vm.own.Keys
    && (forall f :: f in vm.own && f !in given ==>
          vm'.own[f] == vm.own[f] || (vm.own[f] == Free && Belongs(vm'.own[f], f, pd)))
    && (forall f :: f in given ==>
          f in vm.mem && f in vm'.mem && vm'.mem[f] == vm.mem[f] && f in vm'.own && vm'.own[f] == User(pd, first))
    && (forall f :: f in vm.own && vm.own[f] == Held && f !in given ==>
          f in vm'.own && vm'.own[f] == Held && f in vm.mem && f in vm'.mem && vm'.mem[f] == vm.mem[f])
  }

  lemma {:induction false} MapStart(vm: Vm, pd: nat, first: nat, pa: nat, flags: Flags)
    requires Inv(vm)
    ensures MappedTo(vm, vm, pd, first, first, pa, flags)
  {
    TouchRefl(vm, pd, first, first);
  }

  /** One entry more: v1 is v0 after walkpgdir, v2 is v1 with the entry for page a set. */
  lemma {:induction false} MapTables(vm: Vm, v0: Vm, v1: Vm, v2: Vm, pd: nat, first: nat, a: nat)
    requires first <= a && TablesFor(vm, v0, pd, first, a) && Walked(v0, v1, pd, a)
    requires (forall d: nat {:trigger Dir(v2.mem, pd, d)} :: Dir(v2.mem, pd, d) == Dir(v1.mem, pd, d))
    requires v2.free == v1.free
    ensures TablesFor(vm, v2, pd, first, a + 1)
  {
    hide Touch;
    hide Inv;
    hide Moved;
    if a > first && a / NENTRIES == (a - 1) / NENTRIES {
      assert TabEnd(first, a + 1) == TabEnd(first, a);
      assert Dir(v0.mem, pd, a / NENTRIES).Present?;
    } else {
      assert TabEnd(first, a + 1) == TabEnd(first, a) + 1 && a / NENTRIES == TabEnd(first, a);
    }
  }

  lemma {:induction false} MapOwners(vm: Vm, v0: Vm, v1: Vm, v2: Vm, pd: nat, first: nat, a: nat, pa: nat, t: nat)
    requires first <= a && OwnersFor(vm, v0, pd, first, a, pa) && Takes(v0, v1, pd)
    requires first >= USERPAGES || (first == a && pa in vm.own && vm.own[pa] == Held)
    requires v2.own == if a < USERPAGES then v1.own[pa := User(pd, a)] else v1.own
    requires t in v1.own && v1.own[t] == Tab(pd, a / NENTRIES) && t in v2.mem && v2.mem == v1.mem[t := v2.mem[t]]
    ensures OwnersFor(vm, v2, pd, first, a + 1, pa)
  {
    if first < USERPAGES {
      MapOwnersUser(vm, v0, v1, v2, pd, a, pa, t);
    } else {
      MapOwnersKernel(vm, v0, v1, v2, pd, first, a, pa, t);
    }
  }

  lemma {:induction false} MapOwnersUser(vm: Vm, v0: Vm, v1: Vm, v2: Vm, pd: nat, a: nat, pa: nat, t: nat)
    requires a < USERPAGES && OwnersFor(vm, v0, pd, a, a, pa) && Takes(v0, v1, pd)
    requires pa in vm.own && vm.own[pa] == Held && v2.own == v1.own[pa := User(pd, a)]
    requires t in v1.own && v1.own[t] == Tab(pd, a / NENTRIES) && t in v2.mem && v2.mem == v1.mem[t := v2.mem[t]]
    ensures OwnersFor(vm, v2, pd, a, a + 1, pa)
  {
    assert pa in v0.own && v0.own[pa] == Held && v1.own[pa] == Held && pa != t;
  }

  lemma {:induction false} MapOwnersKernel(vm: Vm, v0: Vm, v1: Vm, v2: Vm, pd: nat, first: nat, a: nat, pa: nat, t: nat)
    requires USERPAGES <= first <= a && OwnersFor(vm, v0, pd, first, a, pa) && Takes(v0, v1, pd) && v2.own == v1.own
    requires t in v1.own && v1.own[t] == Tab(pd, a / NENTRIES) && t in v2.mem && v2.mem == v1.mem[t := v2.mem[t]]
    ensures OwnersFor(vm, v2, pd, first, a + 1, pa)
  {}

  lemma {:induction false} MapView(vm: Vm, v0: Vm, v1: Vm, v2: Vm, pd: nat, first: nat, a: nat, pa: nat, flags: Flags)
    requires first <= a && IsSpace(vm, pd) && Touch(vm, v0, pd, first, a) && Touch(v0, v1, pd, 0, 0)
    requires Touch(v1, v2, pd, a, a + 1)
    requires forall v: nat {:trigger Entry(v0.mem, pd, v)} ::
               first <= v < a ==> Entry(v0.mem, pd, v) == Present(pa + (v - first), flags)
    requires Entry(v1.mem, pd, a) == Absent && Entry(v2.mem, pd, a) == Present(pa + (a - first), flags)
    ensures Touch(vm, v2, pd, first, a + 1) && Entry(vm.mem, pd, a) == Absent
    ensures forall v: nat {:trigger Entry(v2.mem, pd, v)} ::
              first <= v < a + 1 ==> Entry(v2.mem, pd, v) == Present(pa + (v - first), flags)
  {
    TouchWider(vm, v0, pd, first, a, first, a + 1);
    TouchWider(v0, v1, pd, 0, 0, first, a + 1);
    TouchWider(v1, v2, pd, a, a + 1, first, a + 1);
    TouchTrans(vm, v0, v1, pd, first, a + 1);
    TouchTrans(vm, v1, v2, pd, first, a + 1);
    assert SamePage(vm, v0, pd, a) && SamePage(v0, v1, pd, a);
    forall v: nat | first <= v < a ensures Entry(v2.mem, pd, v) == Present(pa + (v - first), flags) {
      assert SamePage(v0, v1, pd, v) && SamePage(v1, v2, pd, v);
    }
  }

  /** Setting the entry after walkpgdir. */
  lemma {:induction false} MapEntry(v1: Vm, v2: Vm, pd: nat, a: nat, e: Pte)
    requires Inv(v1) && IsSpace(v1, pd) && a < ALLPAGES && Dir(v1.mem, pd, a / NENTRIES).Present?
    requires Entry(v1.mem, pd, a) == Absent && e.Present?
    requires IsTable(v1.mem, Dir(v1.mem, pd, a / NENTRIES).frame) && v2.mem == SetPte(v1.mem, pd, a, e)
    requires v2.free == v1.free
    requires if a < USERPAGES
             then e.frame in v1.own && v1.own[e.frame] == Held && e.frame in v1.mem && v1.mem[e.frame].Data?
                 && v2.own == v1.own[e.frame := User(pd, a)]
             else v2.own == v1.own
    ensures Inv(v2) && Touch(v1, v2, pd, a, a + 1) && Entry(v2.mem, pd, a) == e
    ensures forall d: nat {:trigger Dir(v2.mem, pd, d)} :: Dir(v2.mem, pd, d) == Dir(v1.mem, pd, d)
  {
    hide Tables;
    hide Touch;
    assert Rewrites(v1, v2, pd, a, e);
    RewriteTables(v1, v2, pd, a, e);
    RewriteTouch(v1, v2, pd, a, e);
  }

  lemma {:induction false} MapStep(vm: Vm, v0: Vm, v1: Vm, v2: Vm, pd: nat, first: nat, a: nat, pa: nat, flags: Flags)
    requires Inv(v0) && first <= a < ALLPAGES && MappedTo(vm, v0, pd, first, a, pa, flags) && Walked(v0, v1, pd, a)
    requires IsSpace(vm, pd)
    requires first >= USERPAGES
             || (first == a && pa in vm.own && vm.own[pa] == Held && pa in vm.mem && vm.mem[pa].Data?)
    requires IsTable(v1.mem, Dir(v1.mem, pd, a / NENTRIES).frame) && Entry(v1.mem, pd, a) == Absent
    requires v2.free == v1.free && v2.own == if a < USERPAGES then v1.own[pa := User(pd, a)] else v1.own
    requires v2.mem == SetPte(v1.mem, pd, a, Present(pa + (a - first), flags))
    ensures Inv(v2) && MappedTo(vm, v2, pd, first, a + 1, pa, flags)
  {
    hide Inv;
    hide Touch;
    hide TablesFor;
    hide OwnersFor;
    hide Takes;
    StillSpace(vm, v0, v1, pd, first, a);
    TabOf(v1, pd, a / NENTRIES);
    if first < USERPAGES { HeldThrough(vm, v0, v1, pd, first, pa); }
    MapEntry(v1, v2, pd, a, Present(pa + (a - first), flags));
    MapTables(vm, v0, v1, v2, pd, first, a);
    MapOwners(vm, v0, v1, v2, pd, first, a, pa, Dir(v1.mem, pd, a / NENTRIES).frame);
    MapView(vm, v0, v1, v2, pd, first, a, pa, flags);
  }

  lemma {:induction false} WalkedEntry(vm: Vm, v0: Vm, v1: Vm, pd: nat, first: nat, a: nat, pa: nat, flags: Flags)
    requires Inv(v0) && first <= a && IsSpace(vm, pd) && MappedTo(vm, v0, pd, first, a, pa, flags)
    requires Walked(v0, v1, pd, a)
    ensures Dir(v1.mem, pd, a / NENTRIES).Present? && IsTable(v1.mem, Dir(v1.mem, pd, a / NENTRIES).frame)
    ensures Entry(v1.mem, pd, a) == Entry(vm.mem, pd, a)
  {
    hide Inv;
    StillSpace(vm, v0, v1, pd, first, a);
    TabOf(v1, pd, a / NENTRIES);
    assert SamePage(vm, v0, pd, a) && SamePage(v0, v1, pd, a);
  }

  lemma {:induction false} SetPteIs(m: Mem, pd: nat, v: nat, e: Pte, m': Mem)
    requires Dir(m, pd, v / NENTRIES).Present? && IsTable(m, Dir(m, pd, v / NENTRIES).frame)
    requires var t := Dir(m, pd, v / NENTRIES).frame; m' == m[t := Table(m[t].ptes[v % NENTRIES := e])]
    ensures m' == SetPte(m, pd, v, e)
  {}

  lemma {:induction false} MappedSpace(vm: Vm, vm': Vm, pd: nat, first: nat, a: nat, pa: nat, flags: Flags)
    requires MappedTo(vm, vm', pd, first, a, pa, flags) && IsSpace(vm, pd)
    ensures IsSpace(vm', pd)
  {}

  lemma {:induction false} TabOf(vm: Vm, pd: nat, d: nat)
    requires Inv(vm) && IsSpace(vm, pd) && Dir(vm.mem, pd, d).Present?
    ensures TabOk(vm, pd, d)
  {}

  lemma {:induction false} HeldThrough(vm: Vm, v0: Vm, v1: Vm, pd: nat, first: nat, pa: nat)
    requires OwnersFor(vm, v0, pd, first, first, pa) && Takes(v0, v1, pd) && pa in vm.own && vm.own[pa] == Held
    requires pa in vm.mem
    ensures pa in v1.own && v1.own[pa] == Held && pa in v1.mem && v1.mem[pa] == vm.mem[pa]
  {}

  lemma {:induction false} StillSpace(vm: Vm, v0: Vm, v1: Vm, pd: nat, lo: nat, hi: nat)
    requires IsSpace(vm, pd) && Touch(vm, v0, pd, lo, hi) && Touch(v0, v1, pd, 0, 0)
    ensures IsSpace(v0, pd) && IsSpace(v1, pd)
  {}

  /** mappages' outcomes. */
  ghost predicate MapRel(vm: Vm, vm': Vm, pd: nat, first: nat, pa: nat, flags: Flags, last: nat, r: MapResult)
  {
    match r
    case Mapped => MappedTo(vm, vm', pd, first, last + 1, pa, flags)
    case NoTable =>
      exists a: nat :: first <= a <= last && MappedTo(vm, vm', pd, first, a, pa, flags) && |vm'.free| == 0
          && Dir(vm'.mem, pd, a / NENTRIES) == Absent
    case Remap => exists a: nat :: first <= a <= last && Entry(vm.mem, pd, a).Present?
  }

  // ----- deallocuvm -----

  /** A user page goes back to the free list and its entry is cleared. */
  function Unmap(vm: Vm, pd: nat, v: nat): Vm
    requires Dir(vm.mem, pd, v / NENTRIES).Present? && IsTable(vm.mem, Dir(vm.mem, pd, v / NENTRIES).frame)
    requires Entry(vm.mem, pd, v).Present?
  {
    var f := Entry(vm.mem, pd, v).frame;
    Push(vm.(mem := SetPte(vm.mem, pd, v, Absent), own := vm.own[f := Held]), f)
  }

  /** Some user pages of pd went back to the free list: nothing but pages lo..hi-1 changed. */
  ghost predicate Gives(vm: Vm, vm': Vm, pd: nat, lo: nat, hi: nat)
  {
    && Touch(vm, vm', pd, lo, hi) && vm'.own.Keys == vm.own.Keys
    && (forall f :: f in vm.own ==>
          vm'.own[f] == vm.own[f] || (vm'.own[f] == Free && vm.own[f].User? && vm.own[f].pd == pd))
    && (forall d: nat {:trigger Dir(vm'.mem, pd, d)} :: Dir(vm'.mem, pd, d) == Dir(vm.mem, pd, d))
  }

  lemma {:induction false} UnmapInv(vm: Vm, pd: nat, v: nat)
    requires Inv(vm) && IsSpace(vm, pd) && v < USERPAGES && Entry(vm.mem, pd, v).Present?
    requires Dir(vm.mem, pd, v / NENTRIES).Present? && IsTable(vm.mem, Dir(vm.mem, pd, v / NENTRIES).frame)
    ensures var u := Unmap(vm, pd, v);
            Inv(u) && Gives(vm, u, pd, v, v + 1) && Entry(u.mem, pd, v) == Absent && |u.free| == |vm.free| + 1
  {
    hide FreeOk;
    var f := Entry(vm.mem, pd, v).frame;
    var w := vm.(mem := SetPte(vm.mem, pd, v, Absent), own := vm.own[f := Held]);
    var u := Unmap(vm, pd, v);
    assert UserOk(vm, pd, v) && TabOk(vm, pd, v / NENTRIES);
    RewriteTables(vm, w, pd, v, Absent);
    RewriteTouch(vm, w, pd, v, Absent);
    HeldFree(vm.free, vm.own, f);
    PushInv(w, f);
    LooseTouch(w, u, f, pd);
    LooseTables(w, u, f);
    TouchWider(w, u, pd, 0, 0, v, v + 1);
    TouchTrans(vm, w, u, pd, v, v + 1);
  }

  lemma {:induction false} HeldFree(free: seq<nat>, own: map<nat, Owner>, f: nat)
    requires FreeOk(free, own) && f in own && own[f] != Free
    ensures FreeOk(free, own[f := Held])
  {}

  /** What deallocuvm passes over, going up from page m: without a table for m it jumps by the size of a table, and so
      into the middle of the next table that is there. */
  predicate Missed(mem: Mem, pd: nat, m: nat, v: nat)
  {
    && m / NENTRIES < v / NENTRIES && v % NENTRIES < m % NENTRIES && Dir(mem, pd, v / NENTRIES).Present?
    && forall d {:trigger Dir(mem, pd, d)} :: m / NENTRIES <= d < v / NENTRIES ==> Dir(mem, pd, d) == Absent
  }

  /** The pages that deallocuvm frees between m and a. */
  function Count(mem: Mem, pd: nat, m: nat, a: nat): nat
    decreases a
  {
    if a <= m then 0
    else Count(mem, pd, m, a - 1) + (if Entry(mem, pd, a - 1).Present? && !Missed(mem, pd, m, a - 1) then 1 else 0)
  }

  ghost predicate SomeTable(mem: Mem, pd: nat, lo: nat, hi: nat)
  {
    exists d {:trigger Dir(mem, pd, d)} :: lo <= d < hi && Dir(mem, pd, d).Present?
  }

  /** Where deallocuvm can be: it has met no table yet; or it is in the first; or it has met one, and from then on it
      looks at every page. */
  ghost predicate InStep(mem: Mem, pd: nat, m: nat, a: nat)
  {
    || (a % NENTRIES == m % NENTRIES && !SomeTable(mem, pd, m / NENTRIES, a / NENTRIES))
    || (Dir(mem, pd, a / NENTRIES).Present? && (a / NENTRIES == m / NENTRIES || a % NENTRIES >= m % NENTRIES))
    || (SomeTable(mem, pd, m / NENTRIES, a / NENTRIES) && (a % NENTRIES == 0 || Dir(mem, pd, a / NENTRIES).Present?))
  }

  /** The pages from m up to a, but not beyond b, are gone. */
  ghost predicate Cut(vm: Vm, vm': Vm, pd: nat, m: nat, a: nat, b: nat)
  {
    && Gives(vm, vm', pd, m, USERPAGES) && InStep(vm.mem, pd, m, a)
    && (forall v: nat {:trigger Entry(vm'.mem, pd, v)} :: v < USERPAGES ==>
          Entry(vm'.mem, pd, v) == if m <= v < a && v < b && !Missed(vm.mem, pd, m, v) then Absent
          else Entry(vm.mem, pd, v))
    && |vm'.free| == |vm.free| + Count(vm.mem, pd, m, Min(a, b))
  }

  /** DEALLOCUVM'S RESULT. On every address space: of the pages m..b-1 all that are mapped are gone but those it passes
      over, what they used is free again, and nothing else changed. */
  ghost predicate Shrunk(vm: Vm, vm': Vm, pd: nat, m: nat, b: nat)
  {
    && Gives(vm, vm', pd, m, USERPAGES) && |vm'.free| == |vm.free| + Count(vm.mem, pd, m, b)
    && forall v: nat {:trigger Entry(vm'.mem, pd, v)} :: v < USERPAGES ==>
         Entry(vm'.mem, pd, v) == if m <= v < b && !Missed(vm.mem, pd, m, v) then Absent else Entry(vm.mem, pd, v)
  }

  lemma {:induction false} CutStart(vm: Vm, pd: nat, m: nat, b: nat)
    requires Inv(vm)
    ensures Cut(vm, vm, pd, m, m, b)
  {
    TouchRefl(vm, pd, m, USERPAGES);
  }

  /** Between a and the place it jumps to, every page is unmapped or passed over. */
  lemma {:induction false} Skipped(mem: Mem, pd: nat, m: nat, a: nat, v: nat)
    requires m <= a <= v < a + NENTRIES && Dir(mem, pd, a / NENTRIES) == Absent && InStep(mem, pd, m, a)
    ensures Entry(mem, pd, v) == Absent || Missed(mem, pd, m, v)
  {
    var d := v / NENTRIES;
    if d > a / NENTRIES && Dir(mem, pd, d).Present? {
      assert d == a / NENTRIES + 1 && v % NENTRIES < a % NENTRIES;
      forall c | m / NENTRIES <= c < d
        ensures Dir(mem, pd, c) == Absent
      {
        if c < a / NENTRIES { assert !Dir(mem, pd, c).Present?; }
      }
    }
  }

  lemma {:induction false} SkipCount(mem: Mem, pd: nat, m: nat, a: nat, e: nat)
    requires m <= a <= e <= a + NENTRIES && Dir(mem, pd, a / NENTRIES) == Absent && InStep(mem, pd, m, a)
    ensures Count(mem, pd, m, e) == Count(mem, pd, m, a)
    decreases e
  {
    if e > a {
      SkipCount(mem, pd, m, a, e - 1);
      Skipped(mem, pd, m, a, e - 1);
    }
  }

  lemma {:induction false} SkipStep(mem: Mem, pd: nat, m: nat, a: nat)
    requires m <= a && Dir(mem, pd, a / NENTRIES) == Absent && InStep(mem, pd, m, a)
    ensures InStep(mem, pd, m, a + NENTRIES)
  {
    var q := a / NENTRIES;
    assert (a + NENTRIES) / NENTRIES == q + 1 && (a + NENTRIES) % NENTRIES == a % NENTRIES;
    if SomeTable(mem, pd, m / NENTRIES, q) {
      var d :| m / NENTRIES <= d < q && Dir(mem, pd, d).Present?;
      assert SomeTable(mem, pd, m / NENTRIES, q + 1);
    } else {
      assert !SomeTable(mem, pd, m / NENTRIES, q + 1);
    }
  }

  /** The 4MB skip. */
  lemma {:induction false} CutSkip(vm: Vm, vm': Vm, pd: nat, m: nat, a: nat, b: nat)
    requires Cut(vm, vm', pd, m, a, b) && m <= a < b <= USERPAGES && Dir(vm'.mem, pd, a / NENTRIES) == Absent
    ensures Cut(vm, vm', pd, m, a + NENTRIES, b)
  {
    hide Touch;
    hide InStep;
    hide Missed;
    hide Entry;
    assert Dir(vm.mem, pd, a / NENTRIES) == Absent;
    SkipStep(vm.mem, pd, m, a);
    SkipCount(vm.mem, pd, m, a, Min(a + NENTRIES, b));
    forall v: nat | a <= v < a + NENTRIES ensures Entry(vm.mem, pd, v) == Absent || Missed(vm.mem, pd, m, v) {
      Skipped(vm.mem, pd, m, a, v);
    }
  }

  /** Under a table deallocuvm goes page by page, and passes none over. */
  lemma {:induction false} NextStep(mem: Mem, pd: nat, m: nat, a: nat)
    requires m <= a && InStep(mem, pd, m, a) && Dir(mem, pd, a / NENTRIES).Present?
    ensures InStep(mem, pd, m, a + 1) && !Missed(mem, pd, m, a)
  {
    var q := a / NENTRIES;
    if (a + 1) % NENTRIES == 0 {
      assert (a + 1) / NENTRIES == q + 1;
      assert SomeTable(mem, pd, m / NENTRIES, q + 1);
    } else {
      assert (a + 1) / NENTRIES == q && (a + 1) % NENTRIES == a % NENTRIES + 1;
    }
  }

  lemma {:induction false} CutAbsent(vm: Vm, vm': Vm, pd: nat, m: nat, a: nat, b: nat)
    requires Cut(vm, vm', pd, m, a, b) && m <= a < b <= USERPAGES && Entry(vm'.mem, pd, a) == Absent
    requires Dir(vm'.mem, pd, a / NENTRIES).Present?
    ensures Cut(vm, vm', pd, m, a + 1, b)
  {
    hide Touch;
    hide InStep;
    hide Missed;
    assert Dir(vm.mem, pd, a / NENTRIES).Present?;
    NextStep(vm.mem, pd, m, a);
  }

  lemma {:induction false} CutTable(vm: Vm, pd: nat, a: nat)
    requires Inv(vm) && IsSpace(vm, pd) && Dir(vm.mem, pd, a / NENTRIES).Present?
    ensures var t := Dir(vm.mem, pd, a / NENTRIES).frame;
            IsTable(vm.mem, t) && Entry(vm.mem, pd, a) == vm.mem[t].ptes[a % NENTRIES]
  {
    assert TabOk(vm, pd, a / NENTRIES);
  }

  lemma {:induction false} CutFrame(vm: Vm, pd: nat, a: nat)
    requires Inv(vm) && IsSpace(vm, pd) && a < USERPAGES && Entry(vm.mem, pd, a).Present?
    ensures FreeOk(vm.free, vm.own) && Entry(vm.mem, pd, a).frame in vm.own
    ensures vm.own[Entry(vm.mem, pd, a).frame] != Free
    ensures Entry(vm.mem, pd, a).frame != Dir(vm.mem, pd, a / NENTRIES).frame
  {
    assert UserOk(vm, pd, a) && TabOk(vm, pd, a / NENTRIES);
  }

  lemma {:induction false} CutStep(vm: Vm, v0: Vm, v1: Vm, pd: nat, m: nat, a: nat, b: nat)
    requires Inv(v0) && IsSpace(v0, pd) && Cut(vm, v0, pd, m, a, b) && m <= a < b <= USERPAGES
    requires Entry(v0.mem, pd, a).Present?
    requires Dir(v0.mem, pd, a / NENTRIES).Present? && IsTable(v0.mem, Dir(v0.mem, pd, a / NENTRIES).frame)
    requires v1 == Unmap(v0, pd, a)
    ensures Inv(v1) && IsSpace(v1, pd) && Cut(vm, v1, pd, m, a + 1, b)
  {
    hide Inv;
    hide Unmap;
    hide InStep;
    hide Missed;
    assert Dir(vm.mem, pd, a / NENTRIES).Present?;
    NextStep(vm.mem, pd, m, a);
    UnmapInv(v0, pd, a);
    TouchWider(v0, v1, pd, a, a + 1, m, USERPAGES);
    TouchTrans(vm, v0, v1, pd, m, USERPAGES);
    forall v: nat | v < USERPAGES && v != a
      ensures Entry(v1.mem, pd, v) == Entry(v0.mem, pd, v)
    {
      assert SamePage(v0, v1, pd, v);
    }
  }

  lemma {:induction false} CutAll(vm: Vm, vm': Vm, pd: nat, m: nat, a: nat, b: nat)
    requires Cut(vm, vm', pd, m, a, b) && a >= b
    ensures Shrunk(vm, vm', pd, m, b)
  {}

  /** On contiguous pages nothing is passed over. */
  lemma {:induction false} CountContig(mem: Mem, pd: nat, m: nat, n: nat, a: nat)
    requires Contig(mem, pd, m, n) && m <= a <= USERPAGES
    ensures Count(mem, pd, m, a) == if a <= n then a - m else if m <= n then n - m else 0
    ensures forall v: nat {:trigger Missed(mem, pd, m, v)} ::
              m <= v < a && Entry(mem, pd, v).Present? ==> !Missed(mem, pd, m, v)
    decreases a
  {
    if a > m {
      CountContig(mem, pd, m, n, a - 1);
      if a - 1 < n { assert Entry(mem, pd, m).Present? && Entry(mem, pd, a - 1).Present?; }
    }
  }

  lemma {:induction false} ShrunkContig(vm: Vm, vm': Vm, pd: nat, m: nat, n: nat, b: nat)
    requires Shrunk(vm, vm', pd, m, b) && Contig(vm.mem, pd, m, n) && m <= n <= b <= USERPAGES
    ensures Contig(vm'.mem, pd, m, m) && |vm'.free| == |vm.free| + n - m
  {
    hide Missed;
    CountContig(vm.mem, pd, m, n, b);
    forall v: nat | m <= v < USERPAGES ensures !Entry(vm'.mem, pd, v).Present? {
      if Missed(vm.mem, pd, m, v) { assert !Entry(vm.mem, pd, v).Present?; }
    }
  }

  /** From page 0 on nothing is passed over. */
  lemma {:induction false} ShrunkAll(vm: Vm, vm': Vm, pd: nat)
    requires Shrunk(vm, vm', pd, 0, USERPAGES)
    ensures Contig(vm'.mem, pd, 0, 0)
  {}

  // ----- allocuvm -----

  /** What a user page shows: contents and flags. */
  datatype Mapping = Mapping(page: Page, flags: Flags)

  ghost predicate Shows(vm: Vm, pd: nat, v: nat, img: seq<Mapping>)
  {
    var e := Entry(vm.mem, pd, v);
    v < |img| && e.Present? && e.flags == img[v].flags && e.frame in vm.mem && vm.mem[e.frame] == img[v].page
  }

  /** Writable zeroed pages. */
  function Zeros(n: nat): seq<Mapping> { seq(n, i => Mapping(ZeroPage(), Flags(true, true))) }

  /** Pages b0..n-1 of pd are new and show `img`; the tables they needed were made; `lost` got lost on the way. */
  ghost predicate Grown(vm: Vm, vm': Vm, pd: nat, b0: nat, n: nat, img: seq<Mapping>, lost: set<nat>)
  {
    && Touch(vm, vm', pd, b0, n) && Contig(vm'.mem, pd, b0, n)
    && (forall v: nat {:trigger Shows(vm', pd, v, img)} :: b0 <= v < n ==> Shows(vm', pd, v, img))
    && Grabs(vm.own, vm'.own, pd, lost)
    && (forall d: nat {:trigger Dir(vm'.mem, pd, d)} ::
          Dir(vm'.mem, pd, d).Present? <==> Dir(vm.mem, pd, d).Present? || b0 / NENTRIES <= d < TabEnd(b0, n))
    && |vm'.free| + Need(vm, pd, b0, n) + |lost| == |vm.free|
  }

  /** Pages went from the free list to pd, and those of `lost` to nowhere. */
  ghost predicate Grabs(own: map<nat, Owner>, own': map<nat, Owner>, pd: nat, lost: set<nat>)
  {
    && own'.Keys == own.Keys && (forall f :: f in lost ==> f in own && own[f] == Free && own'[f] == Lost)
    && (forall f :: f in own && f !in lost ==> own'[f] == own[f] || (own[f] == Free && Belongs(own'[f], f, pd)))
  }

  /** The pages it takes to map b0..n-1: one each, and one for every missing table. */
  function Need(vm: Vm, pd: nat, b0: nat, n: nat): int { n - b0 + Missing(vm.mem, pd, b0 / NENTRIES, TabEnd(b0, n)) }

  /** Page j is the first under a missing table, and when its turn comes one page is left on the free list. */
  predicate LeakAt(vm: Vm, pd: nat, b0: nat, j: nat)
  {
    Dir(vm.mem, pd, j / NENTRIES) == Absent && (j == b0 || j % NENTRIES == 0) && |vm.free| == Need(vm, pd, b0, j) + 1
  }

  ghost predicate NoLeak(vm: Vm, pd: nat, b0: nat, b: nat) { forall j :: b0 <= j < b ==> !LeakAt(vm, pd, b0, j) }

  /** ALLOCUVM'S OUTCOMES. With enough free pages it maps b0..b-1 to zeroed pages and returns newsz. Else, unless it
      leaks at the last page, it leaves the address space as it was and returns 0. It loses a page if and only if
      some page is the first under a missing table while one free page is left; if that is the last page, it
      returns newsz although only the pages below that one are mapped. */
  ghost predicate AllocRel(vm: Vm, vm': Vm, pd: nat, b0: nat, b: nat, newsz: nat, r: nat, lost: set<nat>)
  {
    && Moved(vm.own, vm'.own, pd, lost)
    && (forall f :: f in lost ==> f in vm.own && vm.own[f] == Free && vm'.own[f] == Lost)
    && |lost| <= 1 && (lost == {} <==> NoLeak(vm, pd, b0, b))
    && (|vm.free| >= Need(vm, pd, b0, b) ==> r == newsz && lost == {} && Grown(vm, vm', pd, b0, b, Zeros(b), {}))
    && (|vm.free| < Need(vm, pd, b0, b) && !(b > b0 && LeakAt(vm, pd, b0, b - 1)) ==>
          r == 0 && Contig(vm'.mem, pd, b0, b0) && Touch(vm, vm', pd, 0, 0))
    && (b > b0 && LeakAt(vm, pd, b0, b - 1) ==> r == newsz && Grown(vm, vm', pd, b0, b - 1, Zeros(b), lost))
  }

  /** Page a is mapped after the pages before it. */
  ghost predicate Grew(vm: Vm, vm': Vm, pd: nat, b0: nat, a: nat, img: seq<Mapping>)
  {
    Grown(vm, vm', pd, b0, a + 1, img, {}) && !LeakAt(vm, pd, b0, a)
  }

  /** The page for a is lost. */
  ghost predicate Leaked(vm: Vm, vm': Vm, pd: nat, b0: nat, a: nat, img: seq<Mapping>, gone: set<nat>)
  {
    Grown(vm, vm', pd, b0, a, img, gone) && LeakAt(vm, pd, b0, a) && |gone| == 1 && |vm'.free| == 0
  }

  lemma {:induction false} GrewMeans(vm: Vm, vm': Vm, pd: nat, b0: nat, a: nat, img: seq<Mapping>)
    requires Grew(vm, vm', pd, b0, a, img) && NoLeak(vm, pd, b0, a)
    ensures Grown(vm, vm', pd, b0, a + 1, img, {}) && NoLeak(vm, pd, b0, a + 1)
  {}

  lemma {:induction false} LeakedMeans(vm: Vm, vm': Vm, pd: nat, b0: nat, a: nat, img: seq<Mapping>, gone: set<nat>)
    requires Leaked(vm, vm', pd, b0, a, img, gone)
    ensures Grown(vm, vm', pd, b0, a, img, gone) && LeakAt(vm, pd, b0, a) && |gone| == 1 && |vm'.free| == 0
  {}

  lemma {:induction false} GrownContig(vm: Vm, vm': Vm, pd: nat, b0: nat, n: nat, lost: set<nat>, img: seq<Mapping>)
    requires Grown(vm, vm', pd, b0, n, img, lost)
    ensures Contig(vm'.mem, pd, b0, n)
  {}

  lemma {:induction false} GrowStart(vm: Vm, pd: nat, b0: nat, img: seq<Mapping>)
    requires Inv(vm) && Contig(vm.mem, pd, b0, b0)
    ensures Grown(vm, vm, pd, b0, b0, img, {})
  {
    TouchRefl(vm, pd, b0, b0);
  }

  /** Adding a page adds one to the need, or two where its table is missing. */
  lemma {:induction false} NeedStep(vm: Vm, pd: nat, b0: nat, n: nat)
    requires b0 <= n
    ensures var first := n == b0 || n % NENTRIES == 0;
            Need(vm, pd, b0, n + 1) ==
                Need(vm, pd, b0, n) + 1 + (if first && Dir(vm.mem, pd, n / NENTRIES) == Absent then 1 else 0)
    ensures n == b0 || n % NENTRIES == 0 ==> n / NENTRIES == TabEnd(b0, n)
    ensures !(n == b0 || n % NENTRIES == 0) ==>
              b0 / NENTRIES <= n / NENTRIES < TabEnd(b0, n) && TabEnd(b0, n + 1) == TabEnd(b0, n)
    ensures TabEnd(b0, n + 1) == n / NENTRIES + 1
  {
    if n > b0 && n % NENTRIES != 0 { assert n / NENTRIES == (n - 1) / NENTRIES; }
    if n > b0 && n % NENTRIES == 0 { assert n / NENTRIES == (n - 1) / NENTRIES + 1; }
  }

  lemma {:induction false} NeedGrows(vm: Vm, pd: nat, b0: nat, n: nat, m: nat)
    requires b0 <= n <= m
    ensures Need(vm, pd, b0, n) + (m - n) <= Need(vm, pd, b0, m)
    decreases m
  {
    if n < m {
      NeedGrows(vm, pd, b0, n, m - 1);
      NeedStep(vm, pd, b0, m - 1);
    }
  }

  /** A page from the free list, filled, before it is mapped. */
  ghost predicate Got(v0: Vm, v1: Vm, pd: nat, f: nat, page: Page)
  {
    && Inv(v1) && Touch(v0, v1, pd, 0, 0) && f in v0.own && v0.own[f] == Free && f in v1.mem && v1.mem[f] == page
    && v1.own == v0.own[f := Held] && |v1.free| == |v0.free| - 1
    && (forall d: nat {:trigger Dir(v1.mem, pd, d)} :: Dir(v1.mem, pd, d) == Dir(v0.mem, pd, d))
  }

  lemma {:induction false} GrowPage(v0: Vm, v1: Vm, pd: nat, page: Page)
    requires Inv(v0) && IsSpace(v0, pd) && |v0.free| > 0 && page.Data?
    requires v1 == Pop(v0).(mem := v0.mem[v0.free[0] := page])
    ensures Got(v0, v1, pd, v0.free[0], page) && IsSpace(v1, pd)
  {
    var f, w := v0.free[0], Pop(v0);
    PopInv(v0);
    PopTouch(v0, pd);
    LooseTables(v0, w, f);
    LooseTouch(w, v1, f, pd);
    LooseTables(w, v1, f);
    TouchTrans(v0, w, v1, pd, 0, 0);
  }

  lemma {:induction false} GrowTabs(vm: Vm, v0: Vm, v1: Vm, v2: Vm, pd: nat, b0: nat, a: nat)
    requires b0 <= a
    requires forall d: nat {:trigger Dir(v0.mem, pd, d)} ::
               Dir(v0.mem, pd, d).Present? <==> Dir(vm.mem, pd, d).Present? || b0 / NENTRIES <= d < TabEnd(b0, a)
    requires forall d: nat {:trigger Dir(v1.mem, pd, d)} :: Dir(v1.mem, pd, d) == Dir(v0.mem, pd, d)
    requires |v0.free| + Need(vm, pd, b0, a) == |vm.free| && |v1.free| == |v0.free| - 1
    requires TablesFor(v1, v2, pd, a, a + 1)
    ensures forall d: nat {:trigger Dir(v2.mem, pd, d)} ::
              Dir(v2.mem, pd, d).Present? <==> Dir(vm.mem, pd, d).Present? || b0 / NENTRIES <= d < TabEnd(b0, a + 1)
    ensures |v2.free| + Need(vm, pd, b0, a + 1) == |vm.free| && !LeakAt(vm, pd, b0, a)
  {
    NeedStep(vm, pd, b0, a);
    assert TabEnd(a, a + 1) == a / NENTRIES + 1;
    assert Missing(v1.mem, pd, a / NENTRIES, a / NENTRIES + 1) == if Dir(v1.mem, pd, a / NENTRIES).Present? then 0
        else 1;
  }

  lemma {:induction false} GrowView(vm: Vm, v0: Vm, v1: Vm, v2: Vm, pd: nat, b0: nat, a: nat, f: nat, img: seq<Mapping>)
    requires b0 <= a < USERPAGES && IsSpace(vm, pd) && IsSpace(v0, pd) && IsSpace(v1, pd) && Touch(vm, v0, pd, b0, a)
    requires Contig(v0.mem, pd, b0, a)
    requires forall v: nat {:trigger Shows(v0, pd, v, img)} :: b0 <= v < a ==> Shows(v0, pd, v, img)
    requires Touch(v0, v1, pd, 0, 0) && Touch(v1, v2, pd, a, a + 1) && f in v2.mem && a < |img|
    requires v2.mem[f] == img[a].page
    requires Entry(v2.mem, pd, a) == Present(f, img[a].flags)
    ensures Touch(vm, v2, pd, b0, a + 1) && Contig(v2.mem, pd, b0, a + 1)
    ensures forall v: nat {:trigger Shows(v2, pd, v, img)} :: b0 <= v < a + 1 ==> Shows(v2, pd, v, img)
  {
    TouchWider(vm, v0, pd, b0, a, b0, a + 1);
    TouchWider(v0, v1, pd, 0, 0, b0, a + 1);
    TouchWider(v1, v2, pd, a, a + 1, b0, a + 1);
    TouchTrans(vm, v0, v1, pd, b0, a + 1);
    TouchTrans(vm, v1, v2, pd, b0, a + 1);
    forall v: nat | v != a ensures SamePage(v0, v1, pd, v) && SamePage(v1, v2, pd, v) {}
    forall v: nat | b0 <= v < a
      ensures Shows(v2, pd, v, img)
    {
      assert Shows(v0, pd, v, img);
      assert SamePage(v0, v1, pd, v) && SamePage(v1, v2, pd, v);
    }
    forall v: nat | b0 <= v < USERPAGES ensures Entry(v2.mem, pd, v).Present? <==> v < a + 1 {
      if v != a { assert SamePage(v0, v1, pd, v) && SamePage(v1, v2, pd, v); }
    }
  }

  lemma {:induction false} GrowOwn(vm: Vm, v0: Vm, v1: Vm, v2: Vm, pd: nat, a: nat, f: nat)
    requires Grabs(vm.own, v0.own, pd, {}) && f in v0.own && v0.own[f] == Free && v1.own == v0.own[f := Held]
    requires a < USERPAGES && OwnersFor(v1, v2, pd, a, a + 1, f)
    ensures Grabs(vm.own, v2.own, pd, {}) && f in v2.mem && f in v1.mem && v2.mem[f] == v1.mem[f]
  {
    assert f in {f};
  }

  lemma {:induction false} GrowStep(vm: Vm, v0: Vm, v1: Vm, v2: Vm, pd: nat, b0: nat, a: nat, f: nat, img: seq<Mapping>)
    requires b0 <= a < USERPAGES && IsSpace(vm, pd) && IsSpace(v0, pd) && IsSpace(v1, pd)
    requires Grown(vm, v0, pd, b0, a, img, {}) && a < |img| && Got(v0, v1, pd, f, img[a].page)
    requires MappedTo(v1, v2, pd, a, a + 1, f, img[a].flags)
    ensures Grown(vm, v2, pd, b0, a + 1, img, {}) && !LeakAt(vm, pd, b0, a) && IsSpace(v2, pd)
  {
    hide Touch;
    hide Grabs;
    hide OwnersFor;
    hide TablesFor;
    hide Contig;
    hide Shows;
    hide Inv;
    GrowTabs(vm, v0, v1, v2, pd, b0, a);
    GrowOwn(vm, v0, v1, v2, pd, a, f);
    assert Entry(v2.mem, pd, a) == Present(f, img[a].flags);
    GrowView(vm, v0, v1, v2, pd, b0, a, f, img);
    MappedSpace(v1, v2, pd, a, a + 1, f, img[a].flags);
  }

  /** The page whose table could not be had: it is in no one's hands any more. */
  lemma {:induction false} GrowLeaks(vm: Vm, v0: Vm, v1: Vm, v2: Vm, pd: nat, b0: nat, a: nat, f: nat, m: MapResult,
                                     v3: Vm, img: seq<Mapping>)
    requires b0 <= a < USERPAGES && IsSpace(vm, pd) && IsSpace(v0, pd) && IsSpace(v1, pd)
    requires Grown(vm, v0, pd, b0, a, img, {}) && a < |img| && Got(v0, v1, pd, f, img[a].page)
    requires MapRel(v1, v2, pd, a, f, img[a].flags, a, m) && m != Mapped && Inv(v2)
    requires v3 == v2.(own := v2.own[f := Lost])
    ensures m == NoTable && Inv(v3) && IsSpace(v3, pd) && Grown(vm, v3, pd, b0, a, img, {f}) && LeakAt(vm, pd, b0, a)
    ensures |v3.free| == 0
  {
    hide Inv;
    hide Shows;
    hide Touch;
    hide Contig;
    hide Grabs;
    hide OwnersFor;
    hide TablesFor;
    NotMapped(v0, v1, pd, b0, a);
    assert m == NoTable;
    assert MappedTo(v1, v2, pd, a, a, f, img[a].flags) && Dir(v2.mem, pd, a / NENTRIES) == Absent;
    LeakView(vm, v0, v1, v2, pd, b0, a, f, img);
    LoseInv(v2, v3, f, pd);
    LeakTail(vm, v2, v3, pd, b0, a, img);
    LeakCount(vm, v0, v1, v2, pd, b0, a);
  }

  lemma {:induction false} NotMapped(v0: Vm, v1: Vm, pd: nat, b0: nat, a: nat)
    requires IsSpace(v0, pd) && b0 <= a < USERPAGES && Contig(v0.mem, pd, b0, a) && Touch(v0, v1, pd, 0, 0)
    ensures !Entry(v1.mem, pd, a).Present?
  {
    assert SamePage(v0, v1, pd, a);
  }

  /** A held page given up. */
  lemma {:induction false} LoseInv(v2: Vm, v3: Vm, f: nat, pd: nat)
    requires Inv(v2) && f in v2.own && v2.own[f] == Held && f in v2.mem && v3 == v2.(own := v2.own[f := Lost])
    ensures Inv(v3) && Touch(v2, v3, pd, 0, 0) && FreeOk(v3.free, v3.own)
  {
    LooseTables(v2, v3, f);
    LooseTouch(v2, v3, f, pd);
  }

  /** What Grown says, but for the lost page's owner and the count. */
  lemma {:induction false} LeakView(vm: Vm, v0: Vm, v1: Vm, v2: Vm, pd: nat, b0: nat, a: nat, f: nat, img: seq<Mapping>)
    requires b0 <= a < USERPAGES && IsSpace(vm, pd) && IsSpace(v0, pd) && IsSpace(v1, pd)
    requires Grown(vm, v0, pd, b0, a, img, {}) && a < |img| && Got(v0, v1, pd, f, img[a].page)
    requires MappedTo(v1, v2, pd, a, a, f, img[a].flags)
    ensures Touch(vm, v2, pd, b0, a) && Contig(v2.mem, pd, b0, a) && IsSpace(v2, pd)
    ensures forall v: nat {:trigger Shows(v2, pd, v, img)} :: b0 <= v < a ==> Shows(v2, pd, v, img)
    ensures f in v2.own && v2.own[f] == Held && f in v2.mem && Grabs(vm.own, v2.own[f := Lost], pd, {f})
  {
    hide Inv;
    hide Touch;
    hide Contig;
    hide Shows;
    hide TablesFor;
    LeakTouch(vm, v0, v1, v2, pd, b0, a, img);
    LeakOwn(vm.own, v0.own, v1, v2, pd, a, f);
  }

  lemma {:induction false} LeakTouch(vm: Vm, v0: Vm, v1: Vm, v2: Vm, pd: nat, b0: nat, a: nat, img: seq<Mapping>)
    requires b0 <= a < USERPAGES && IsSpace(v0, pd) && IsSpace(v1, pd)
    requires Touch(vm, v0, pd, b0, a) && Contig(v0.mem, pd, b0, a) && Touch(v0, v1, pd, 0, 0) && Touch(v1, v2, pd, a, a)
    requires forall v: nat {:trigger Shows(v0, pd, v, img)} :: b0 <= v < a ==> Shows(v0, pd, v, img)
    ensures Touch(vm, v2, pd, b0, a) && Contig(v2.mem, pd, b0, a) && IsSpace(v2, pd)
    ensures forall v: nat {:trigger Shows(v2, pd, v, img)} :: b0 <= v < a ==> Shows(v2, pd, v, img)
  {
    TouchWider(v0, v1, pd, 0, 0, b0, a);
    TouchWider(v1, v2, pd, a, a, b0, a);
    TouchTrans(vm, v0, v1, pd, b0, a);
    TouchTrans(vm, v1, v2, pd, b0, a);
    forall v: nat | b0 <= v < USERPAGES ensures Entry(v2.mem, pd, v).Present? <==> v < a {
      assert SamePage(v0, v1, pd, v) && SamePage(v1, v2, pd, v);
    }
    forall v: nat | b0 <= v < a ensures Shows(v2, pd, v, img) {
      assert Shows(v0, pd, v, img);
      assert SamePage(v0, v1, pd, v) && SamePage(v1, v2, pd, v);
    }
  }

  lemma {:induction false} LeakOwn(own: map<nat, Owner>, own0: map<nat, Owner>, v1: Vm, v2: Vm, pd: nat, a: nat, f: nat)
    requires Grabs(own, own0, pd, {}) && f in own0 && own0[f] == Free && v1.own == own0[f := Held]
    requires OwnersFor(v1, v2, pd, a, a, f)
    ensures f in v2.own && v2.own[f] == Held && f in v2.mem && Grabs(own, v2.own[f := Lost], pd, {f})
  {}

  lemma {:induction false} LeakTail(vm: Vm, v2: Vm, v3: Vm, pd: nat, b0: nat, a: nat, img: seq<Mapping>)
    requires b0 <= a <= USERPAGES && IsSpace(v2, pd) && Touch(vm, v2, pd, b0, a) && Contig(v2.mem, pd, b0, a)
    requires v3.mem == v2.mem && Touch(v2, v3, pd, 0, 0)
    requires forall v: nat {:trigger Shows(v2, pd, v, img)} :: b0 <= v < a ==> Shows(v2, pd, v, img)
    ensures Touch(vm, v3, pd, b0, a) && Contig(v3.mem, pd, b0, a) && IsSpace(v3, pd)
    ensures forall v: nat {:trigger Shows(v3, pd, v, img)} :: b0 <= v < a ==> Shows(v3, pd, v, img)
  {
    TouchWider(v2, v3, pd, 0, 0, b0, a);
    TouchTrans(vm, v2, v3, pd, b0, a);
    forall v: nat | b0 <= v < a ensures Shows(v3, pd, v, img) { assert Shows(v2, pd, v, img); }
  }

  lemma {:induction false} LeakCount(vm: Vm, v0: Vm, v1: Vm, v2: Vm, pd: nat, b0: nat, a: nat)
    requires b0 <= a && TablesFor(v1, v2, pd, a, a) && |v2.free| == 0 && Dir(v2.mem, pd, a / NENTRIES) == Absent
    requires forall d: nat {:trigger Dir(v0.mem, pd, d)} ::
               Dir(v0.mem, pd, d).Present? <==> Dir(vm.mem, pd, d).Present? || b0 / NENTRIES <= d < TabEnd(b0, a)
    requires forall d: nat {:trigger Dir(v1.mem, pd, d)} :: Dir(v1.mem, pd, d) == Dir(v0.mem, pd, d)
    requires |v0.free| + Need(vm, pd, b0, a) == |vm.free| && |v1.free| == |v0.free| - 1
    ensures LeakAt(vm, pd, b0, a) && |vm.free| == Need(vm, pd, b0, a) + 1
    ensures forall d: nat {:trigger Dir(v2.mem, pd, d)} ::
              Dir(v2.mem, pd, d).Present? <==> Dir(vm.mem, pd, d).Present? || b0 / NENTRIES <= d < TabEnd(b0, a)
  {
    NeedStep(vm, pd, b0, a);
    assert Missing(v1.mem, pd, a / NENTRIES, a / NENTRIES) == 0;
  }

  /** Nothing left: no later page can leak. */
  lemma {:induction false} NoMoreLeaks(vm: Vm, pd: nat, b0: nat, n: nat, b: nat)
    requires b0 <= n <= b && |vm.free| == Need(vm, pd, b0, n) && NoLeak(vm, pd, b0, n)
    ensures NoLeak(vm, pd, b0, b)
  {
    forall j | b0 <= j < b ensures !LeakAt(vm, pd, b0, j) {
      if j >= n { NeedGrows(vm, pd, b0, n, j); }
    }
  }

  /** Out of memory: what deallocuvm leaves is what was there before. */
  lemma {:induction false} GrowUndone(vm: Vm, v0: Vm, v1: Vm, pd: nat, b0: nat, n: nat, a: nat, b: nat, newsz: nat,
                                      lost: set<nat>, img: seq<Mapping>)
    requires IsSpace(vm, pd) && Grown(vm, v0, pd, b0, n, img, lost) && |v0.free| == 0 && b0 <= n <= a < b <= USERPAGES
    requires Contig(vm.mem, pd, b0, b0)
    requires if lost == {} then n == a && NoLeak(vm, pd, b0, a) else n + 1 == a && LeakAt(vm, pd, b0, n) && |lost| == 1
    requires Shrunk(v0, v1, pd, b0, b)
    ensures AllocRel(vm, v1, pd, b0, b, newsz, 0, lost)
  {
    hide Touch;
    hide Shows;
    hide Contig;
    hide LeakAt;
    UndoneRange(vm, v0, v1, pd, b0, n, b);
    UndoneOwn(vm.own, v0.own, v1.own, pd, lost);
    if lost == {} {
      NoMoreLeaks(vm, pd, b0, n, b);
      NeedGrows(vm, pd, b0, n, b);
    } else {
      LeakBefore(vm, pd, b0, n, b);
    }
  }

  lemma {:induction false} UndoneRange(vm: Vm, v0: Vm, v1: Vm, pd: nat, b0: nat, n: nat, b: nat)
    requires IsSpace(vm, pd) && b0 <= n <= b <= USERPAGES && Contig(v0.mem, pd, b0, n) && Contig(vm.mem, pd, b0, b0)
    requires Touch(vm, v0, pd, b0, n) && Shrunk(v0, v1, pd, b0, b)
    ensures Touch(vm, v1, pd, 0, 0) && Contig(v1.mem, pd, b0, b0)
  {
    hide Touch;
    ShrunkContig(v0, v1, pd, b0, n, b);
    UndoneView(vm, v0, v1, pd, b0, n);
  }

  /** A page lost before the last: too few pages, and none lost at the last. */
  lemma {:induction false} LeakBefore(vm: Vm, pd: nat, b0: nat, n: nat, b: nat)
    requires b0 <= n && n + 1 < b && LeakAt(vm, pd, b0, n)
    ensures |vm.free| < Need(vm, pd, b0, b) && !LeakAt(vm, pd, b0, b - 1) && !NoLeak(vm, pd, b0, b)
  {
    NeedStep(vm, pd, b0, n);
    NeedGrows(vm, pd, b0, n + 1, b);
    NeedGrows(vm, pd, b0, n + 1, b - 1);
  }

  lemma {:induction false} UndoneView(vm: Vm, v0: Vm, v1: Vm, pd: nat, b0: nat, n: nat)
    requires IsSpace(vm, pd) && b0 <= n <= USERPAGES && Contig(vm.mem, pd, b0, b0) && Touch(vm, v0, pd, b0, n)
    requires Touch(v0, v1, pd, b0, USERPAGES) && Contig(v1.mem, pd, b0, b0)
    ensures Touch(vm, v1, pd, 0, 0)
  {
    TouchWider(vm, v0, pd, b0, n, b0, USERPAGES);
    TouchTrans(vm, v0, v1, pd, b0, USERPAGES);
    forall qd: nat, w: nat | IsSpace(vm, qd) ensures SamePage(vm, v1, qd, w) {
      if qd == pd && b0 <= w < USERPAGES {
        assert !Entry(vm.mem, pd, w).Present? && !Entry(v1.mem, pd, w).Present?;
      }
    }
  }

  lemma {:induction false} UndoneOwn(a: map<nat, Owner>, b: map<nat, Owner>, c: map<nat, Owner>, pd: nat,
                                     lost: set<nat>)
    requires Grabs(a, b, pd, lost) && c.Keys == b.Keys
    requires forall f :: f in b ==> c[f] == b[f] || (c[f] == Free && b[f].User? && b[f].pd == pd)
    ensures Moved(a, c, pd, lost) && (forall f :: f in lost ==> f in a && a[f] == Free && c[f] == Lost)
  {}

  lemma {:induction false} GrowDone(vm: Vm, v: Vm, pd: nat, b0: nat, n: nat, b: nat, newsz: nat, lost: set<nat>,
                                    img: seq<Mapping>)
    requires Grown(vm, v, pd, b0, n, img, lost) && b0 <= n <= b && img == Zeros(b)
    requires if lost == {} then n == b && NoLeak(vm, pd, b0, b)
             else n + 1 == b && |v.free| == 0 && LeakAt(vm, pd, b0, n) && |lost| == 1
    ensures AllocRel(vm, v, pd, b0, b, newsz, newsz, lost)
  {
    hide Touch;
    hide Shows;
    NeedStep(vm, pd, b0, n);
  }
}

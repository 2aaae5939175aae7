/** What setupkvm, freevm, copyuvm and clearpteu do to the pages and address spaces (vm.c): building an address space,
    giving one up, copying one, and what is left when the free pages run out. */
module VmSpaces {
  import opened VmSpec
  import opened VmMap

  // ----- setupkvm -----

  const KERNPAGE: nat := 0x80000         // KERNBASE
  const EXTPAGE: nat := 0x80100          // KERNLINK
  const STOPPAGE: nat := 0x8E000         // p2v(PHYSTOP)
  const DEVPAGE: nat := 0xFE000          // DEVSPACE

  /** The kernel's mapping of page v, the same in every address space; `data` is where its data starts. */
  function KernelEntry(v: nat, data: nat): Pte
  {
    if KERNPAGE <= v < STOPPAGE then Present(v - KERNPAGE, Flags(v < EXTPAGE || v >= data, false))
    else if DEVPAGE <= v < ALLPAGES then Present(v, Flags(true, false))
    else Absent
  }

  /** Page f, zeroed, becomes a page directory. */
  function NewRoot(vm: Vm, f: nat): Vm { vm.(mem := vm.mem[f := ZeroTable()], own := vm.own[f := Root]) }

  lemma {:induction false} NewRootInv(vm: Vm, f: nat)
    requires Inv(vm) && f in vm.own && vm.own[f] == Held
    ensures var vm' := NewRoot(vm, f);
            && Inv(vm') && IsSpace(vm', f)
            && (forall d: nat {:trigger Dir(vm'.mem, f, d)} :: Dir(vm'.mem, f, d) == Absent)
            && (forall qd :: IsSpace(vm, qd) ==> IsSpace(vm', qd) && qd != f)
            && (forall qd: nat, w: nat {:trigger SamePage(vm, vm', qd, w)} :: IsSpace(vm, qd) ==>
                  SamePage(vm, vm', qd, w))
  {
    var w, vm' := vm.(mem := vm.mem[f := ZeroTable()]), NewRoot(vm, f);
    LooseTables(vm, w, f);
    assert forall pd: nat, d: nat {:trigger Dir(vm'.mem, pd, d)} :: Dir(vm'.mem, pd, d) == Dir(w.mem, pd, d);
    forall pd: nat, d: nat | IsSpace(vm', pd) ensures TabOk(vm', pd, d) { if pd != f { assert TabOk(w, pd, d); } }
    forall pd: nat, v: nat | IsSpace(vm', pd) && v < USERPAGES
      ensures UserOk(vm', pd, v)
    {
      if pd != f { assert UserOk(w, pd, v); }
    }
    forall g | g in vm'.own ensures OwnerOk(vm', g) { assert OwnerOk(w, g); }
    forall qd: nat, v: nat | IsSpace(vm, qd) ensures SamePage(vm, vm', qd, v) {
      if v < USERPAGES { assert UserOk(vm, qd, v); }
      assert Entry(w.mem, qd, v) == Entry(vm.mem, qd, v);
    }
  }

  /** The address space qd is as it was. */
  ghost predicate SameSpace(vm: Vm, vm': Vm, qd: nat)
  {
    IsSpace(vm', qd) && forall w: nat {:trigger SamePage(vm, vm', qd, w)} :: SamePage(vm, vm', qd, w)
  }

  /** All address spaces but pd are as they were. */
  ghost predicate OthersSame(vm: Vm, vm': Vm, pd: nat)
  {
    forall qd :: IsSpace(vm, qd) && qd != pd ==> SameSpace(vm, vm', qd)
  }

  /** A directory under construction: the kernel's entries below page `end` are there, and the tables for them. */
  ghost predicate Building(vm: Vm, vm': Vm, pd: nat, end: nat, data: nat)
  {
    && Inv(vm') && IsSpace(vm', pd) && OthersSame(vm, vm', pd) && Grabs(vm.own, vm'.own, pd, {}) && pd in vm.own
    && vm.own[pd] == Free
    && (forall v: nat {:trigger Entry(vm'.mem, pd, v)} :: v < ALLPAGES ==>
          Entry(vm'.mem, pd, v) == if v < end then KernelEntry(v, data) else Absent)
    && (forall d: nat {:trigger Dir(vm'.mem, pd, d)} ::
          Dir(vm'.mem, pd, d).Present? <==> d * NENTRIES < end && KernelTable(d))
    && |vm'.free| + 1 + KernelTables(end) == |vm.free|
  }

  predicate KernelTable(d: nat) { 512 <= d < 568 || 1016 <= d < NENTRIES }

  /** How many tables the kernel's pages below `end` take. */
  function KernelTables(end: nat): nat
  {
    if end <= KERNPAGE then 0
    else if end <= STOPPAGE then (end + NENTRIES - 1) / NENTRIES - 512
    else if end <= DEVPAGE then 56
    else 56 + (end + NENTRIES - 1) / NENTRIES - 1016
  }

  lemma {:induction false} BuildStart(vm: Vm, pd: nat, vm': Vm, data: nat)
    requires Inv(vm) && |vm.free| > 0 && pd == vm.free[0] && vm' == NewRoot(Pop(vm), pd)
    ensures Building(vm, vm', pd, KERNPAGE, data)
  {
    hide KernelTables;
    hide Inv;
    var w := Pop(vm);
    PopInv(vm);
    PopTouch(vm, pd);
    NewRootInv(w, pd);
    assert KernelTables(KERNPAGE) == 0 by { KernelTablesAt(); }
    forall qd | IsSpace(vm, qd) ensures SameSpace(vm, vm', qd) {
      forall v: nat ensures SamePage(vm, vm', qd, v) { assert SamePage(vm, w, qd, v) && SamePage(w, vm', qd, v); }
    }
    forall v: nat | v < ALLPAGES
      ensures Entry(vm'.mem, pd, v) == Absent
    {
      assert Dir(vm'.mem, pd, v / NENTRIES) == Absent;
    }
  }

  lemma {:induction false} KernelTablesAt()
    ensures KernelTables(KERNPAGE) == 0 && KernelTables(ALLPAGES) == 64 && KernelTables(STOPPAGE) == 56
    ensures KernelTables(DEVPAGE) == 56
  {}

  /** Tables are missing from `first` on, and only there. */
  lemma {:induction false} MissingFrom(m: Mem, pd: nat, first: nat, hi: nat)
    requires forall d: nat {:trigger Dir(m, pd, d)} ::
               first / NENTRIES <= d < hi ==> (Dir(m, pd, d).Present? <==> d * NENTRIES < first)
    requires hi >= first / NENTRIES
    ensures Missing(m, pd, first / NENTRIES, hi) ==
            hi - first / NENTRIES - (if first % NENTRIES != 0 && hi > first / NENTRIES then 1 else 0)
    decreases hi
  {
    if hi > first / NENTRIES {
      MissingFrom(m, pd, first, hi - 1);
      assert Dir(m, pd, hi - 1).Present? <==> (hi - 1) * NENTRIES < first;
    }
  }

  /** The part of a range's tables that counts. */
  lemma {:induction false} KernelCount(first: nat, last: nat)
    requires (KERNPAGE <= first <= last < STOPPAGE) || (DEVPAGE <= first <= last < ALLPAGES)
    ensures KernelTables(last + 1) ==
            KernelTables(first) + (last / NENTRIES + 1 - first / NENTRIES) - (if first % NENTRIES != 0 then 1 else 0)
    ensures forall d: nat :: first / NENTRIES <= d <= last / NENTRIES ==> KernelTable(d)
  {}

  lemma {:induction false} BuildTabs(vm: Vm, v0: Vm, v1: Vm, pd: nat, first: nat, last: nat, data: nat)
    requires (KERNPAGE <= first <= last < STOPPAGE) || (DEVPAGE <= first <= last < ALLPAGES)
    requires forall d: nat {:trigger Dir(v0.mem, pd, d)} ::
               Dir(v0.mem, pd, d).Present? <==> d * NENTRIES < first && KernelTable(d)
    requires |v0.free| + 1 + KernelTables(first) == |vm.free| && TablesFor(v0, v1, pd, first, last + 1)
    ensures forall d: nat {:trigger Dir(v1.mem, pd, d)} ::
              Dir(v1.mem, pd, d).Present? <==> d * NENTRIES < last + 1 && KernelTable(d)
    ensures |v1.free| + 1 + KernelTables(last + 1) == |vm.free|
  {
    hide KernelTables;
    KernelCount(first, last);
    assert TabEnd(first, last + 1) == last / NENTRIES + 1;
    MissingFrom(v0.mem, pd, first, last / NENTRIES + 1);
  }

  /** One entry of kmap mapped. */
  lemma {:induction false} BuildStep(vm: Vm, v0: Vm, v1: Vm, pd: nat, first: nat, last: nat, pa: nat, flags: Flags,
                                     data: nat)
    requires (KERNPAGE <= first <= last < STOPPAGE) || (DEVPAGE <= first <= last < ALLPAGES)
    requires Building(vm, v0, pd, first, data) && Inv(v1) && MappedTo(v0, v1, pd, first, last + 1, pa, flags)
    requires forall v: nat {:trigger KernelEntry(v, data)} ::
               first <= v <= last ==> KernelEntry(v, data) == Present(pa + (v - first), flags)
    ensures Building(vm, v1, pd, last + 1, data)
  {
    hide KernelTables;
    hide KernelEntry;
    hide KernelTable;
    hide Inv;
    hide TablesFor;
    BuildTabs(vm, v0, v1, pd, first, last, data);
    BuildOthers(vm, v0, v1, pd, first, last + 1);
    forall v: nat | v < ALLPAGES ensures Entry(v1.mem, pd, v) == if v < last + 1 then KernelEntry(v, data) else Absent {
      if !(first <= v <= last) { assert SamePage(v0, v1, pd, v); }
      else { assert KernelEntry(v, data) == Present(pa + (v - first), flags); }
    }
  }

  lemma {:induction false} BuildOthers(vm: Vm, v0: Vm, v1: Vm, pd: nat, lo: nat, hi: nat)
    requires OthersSame(vm, v0, pd) && Touch(v0, v1, pd, lo, hi)
    ensures OthersSame(vm, v1, pd)
  {
    forall qd | IsSpace(vm, qd) && qd != pd ensures SameSpace(vm, v1, qd) {
      forall w: nat ensures SamePage(vm, v1, qd, w) { assert SamePage(vm, v0, qd, w) && SamePage(v0, v1, qd, w); }
    }
  }

  /** Between the kernel's memory and the devices nothing is mapped. */
  lemma {:induction false} BuildGap(vm: Vm, v0: Vm, pd: nat, data: nat)
    requires Building(vm, v0, pd, STOPPAGE, data)
    ensures Building(vm, v0, pd, DEVPAGE, data)
  {
    hide Inv;
  }

  /** No page for a table: all pages are used up, and there were fewer than 65. */
  lemma {:induction false} BuildFails(vm: Vm, v0: Vm, v1: Vm, pd: nat, first: nat, last: nat, pa: nat, flags: Flags,
                                      data: nat, r: MapResult)
    requires (KERNPAGE <= first <= last < STOPPAGE) || (DEVPAGE <= first <= last < ALLPAGES)
    requires Building(vm, v0, pd, first, data) && Inv(v1) && MapRel(v0, v1, pd, first, pa, flags, last, r)
    requires r != Mapped
    requires forall v: nat {:trigger KernelEntry(v, data)} ::
               first <= v <= last ==> KernelEntry(v, data) == Present(pa + (v - first), flags)
    ensures |v1.free| == 0 && |vm.free| < 65
    ensures (exists end: nat :: Building(vm, v1, pd, end, data) && KERNPAGE <= end <= ALLPAGES)
  {
    hide Inv;
    hide MappedTo;
    hide KernelEntry;
    assert r == NoTable;
    var a: nat :| first <= a <= last && MappedTo(v0, v1, pd, first, a, pa, flags) && |v1.free| == 0
        && Dir(v1.mem, pd, a / NENTRIES) == Absent;
    if a == first {
      BuildSame(vm, v0, v1, pd, first, pa, flags, data);
    } else {
      BuildStep(vm, v0, v1, pd, first, a - 1, pa, flags, data);
    }
    KernelCount(first, last);
    assert KernelTable(a / NENTRIES);
    assert Building(vm, v1, pd, a, data);
    assert !(a / NENTRIES * NENTRIES < a);
  }

  lemma {:induction false} BuildSame(vm: Vm, v0: Vm, v1: Vm, pd: nat, first: nat, pa: nat, flags: Flags, data: nat)
    requires Building(vm, v0, pd, first, data) && Inv(v1) && MappedTo(v0, v1, pd, first, first, pa, flags)
    ensures Building(vm, v1, pd, first, data)
  {
    hide KernelTables;
    hide KernelEntry;
    hide KernelTable;
    hide Inv;
    BuildOthers(vm, v0, v1, pd, first, first);
    forall v: nat | v < ALLPAGES
      ensures Entry(v1.mem, pd, v) == Entry(v0.mem, pd, v)
    {
      assert SamePage(v0, v1, pd, v);
    }
  }

  // ----- address spaces given up -----

  /** All pages of pd get the owner o. */
  function Disown(own: map<nat, Owner>, pd: nat, o: Owner): map<nat, Owner>
  {
    map f | f in own :: if Belongs(own[f], f, pd) then o else own[f]
  }

  lemma {:induction false} DisownInv(vm: Vm, pd: nat, o: Owner, vm': Vm)
    requires Inv(vm) && IsSpace(vm, pd) && Contig(vm.mem, pd, 0, 0) && (o == Held || o == Lost)
    requires vm' == vm.(own := Disown(vm.own, pd, o))
    ensures Inv(vm') && OthersSame(vm, vm', pd) && !IsSpace(vm', pd)
  {
    hide Contig;
    assert forall qd :: IsSpace(vm', qd) <==> IsSpace(vm, qd) && qd != pd;
    forall qd: nat, d: nat | IsSpace(vm', qd) ensures TabOk(vm', qd, d) { assert TabOk(vm, qd, d); }
    forall qd: nat, v: nat | IsSpace(vm', qd) && v < USERPAGES ensures UserOk(vm', qd, v) { assert UserOk(vm, qd, v); }
    forall g | g in vm'.own ensures OwnerOk(vm', g) { assert OwnerOk(vm, g); }
    forall qd | IsSpace(vm, qd) && qd != pd ensures SameSpace(vm, vm', qd) {
      forall v: nat ensures SamePage(vm, vm', qd, v) { if v < USERPAGES { assert UserOk(vm, qd, v); } }
    }
  }

  /** Address space pd without its first i tables, all of it in the caller's hands. */
  function Swept(own: map<nat, Owner>, pd: nat, i: nat): map<nat, Owner>
  {
    map f | f in own :: if own[f].Tab? && own[f].pd == pd && own[f].d < i then Free
    else if Belongs(own[f], f, pd) then Held else own[f]
  }

  /** The table under directory entry i, and it alone, is owned as that. */
  lemma {:induction false} TableOwner(vm: Vm, pd: nat, i: nat, g: nat)
    requires Inv(vm) && IsSpace(vm, pd) && i < NENTRIES && Dir(vm.mem, pd, i).Present?
    requires (g in vm.own || g == Dir(vm.mem, pd, i).frame)
    ensures g in vm.own && (vm.own[g] == Tab(pd, i) <==> g == Dir(vm.mem, pd, i).frame)
  {
    assert TabOk(vm, pd, i);
    assert OwnerOk(vm, g);
  }

  /** freevm's loop frees the table under directory entry i. */
  lemma {:induction false} SweepStep(v1: Vm, v: Vm, pd: nat, i: nat)
    requires Inv(v1) && IsSpace(v1, pd) && Inv(v) && v.own == Swept(v1.own, pd, i) && i < NENTRIES && pd in v.mem
    requires pd in v1.mem && v.mem[pd] == v1.mem[pd]
    requires Dir(v1.mem, pd, i).Present?
    ensures var f := Dir(v1.mem, pd, i).frame;
            f in v.own && v.own[f] == Held && Push(v, f).own == Swept(v1.own, pd, i + 1) && f != pd
  {
    hide Inv;
    var f := Dir(v1.mem, pd, i).frame;
    TableOwner(v1, pd, i, f);
    forall g | g in v1.own ensures Push(v, f).own[g] == Swept(v1.own, pd, i + 1)[g] { TableOwner(v1, pd, i, g); }
  }

  lemma {:induction false} SweepNone(v1: Vm, pd: nat, i: nat)
    requires Inv(v1) && !Dir(v1.mem, pd, i).Present?
    ensures Swept(v1.own, pd, i + 1) == Swept(v1.own, pd, i)
  {
    forall g | g in v1.own ensures Swept(v1.own, pd, i + 1)[g] == Swept(v1.own, pd, i)[g] { assert OwnerOk(v1, g); }
  }

  /** A page of an address space without user pages is its directory or a table. */
  lemma {:induction false} NoUserPage(vm: Vm, pd: nat, f: nat)
    requires Inv(vm) && IsSpace(vm, pd) && Contig(vm.mem, pd, 0, 0) && f in vm.own
    ensures Belongs(vm.own[f], f, pd) ==> f == pd || (vm.own[f].Tab? && vm.own[f].pd == pd && vm.own[f].d < NENTRIES)
    ensures vm.own[f].Tab? && vm.own[f].pd == pd ==> f != pd
  {
    assert OwnerOk(vm, f);
  }

  lemma {:induction false} SweptEnd(v1: Vm, pd: nat)
    requires Inv(v1) && IsSpace(v1, pd) && Contig(v1.mem, pd, 0, 0)
    ensures Swept(v1.own, pd, 0) == Disown(v1.own, pd, Held)
    ensures Swept(v1.own, pd, NENTRIES)[pd := Free] == Disown(v1.own, pd, Free)
    ensures pd in Swept(v1.own, pd, NENTRIES) && Swept(v1.own, pd, NENTRIES)[pd] == Held
  {
    hide Inv;
    forall g | g in v1.own
      ensures Swept(v1.own, pd, NENTRIES)[pd := Free][g] == Disown(v1.own, pd, Free)[g]
    {
      NoUserPage(v1, pd, g);
    }
  }

  /** Giving user pages back first makes no difference to who ends up with what. */
  lemma {:induction false} DisownAfter(vm: Vm, v1: Vm, pd: nat, m: nat, b: nat)
    requires Shrunk(vm, v1, pd, m, b)
    ensures Disown(v1.own, pd, Free) == Disown(vm.own, pd, Free)
  {
    hide Touch;
  }

  lemma {:induction false} DisownOthers(vm: Vm, v1: Vm, v2: Vm, pd: nat)
    requires OthersSame(vm, v1, pd) && OthersSame(v1, v2, pd)
    ensures OthersSame(vm, v2, pd)
  {
    forall qd | IsSpace(vm, qd) && qd != pd ensures SameSpace(vm, v2, qd) {
      forall w: nat ensures SamePage(vm, v2, qd, w) { assert SamePage(vm, v1, qd, w) && SamePage(v1, v2, qd, w); }
    }
  }

  lemma {:induction false} ShrunkOthers(vm: Vm, v1: Vm, pd: nat)
    requires Shrunk(vm, v1, pd, 0, USERPAGES) && IsSpace(vm, pd)
    ensures OthersSame(vm, v1, pd) && IsSpace(v1, pd) && Contig(v1.mem, pd, 0, 0)
  {
    ShrunkAll(vm, v1, pd);
    forall qd | IsSpace(vm, qd) && qd != pd ensures SameSpace(vm, v1, qd) {}
  }

  /** kfree of a held page. */
  lemma {:induction false} PushKeeps(vm: Vm, v: Vm, pd: nat, f: nat)
    requires Inv(v) && OthersSame(vm, v, pd) && f in v.own && v.own[f] == Held
    ensures Inv(Push(v, f)) && OthersSame(vm, Push(v, f), pd) && FreeOk(v.free, v.own)
  {
    PushInv(v, f);
    LooseTouch(v, Push(v, f), f, pd);
    BuildOthers(vm, v, Push(v, f), pd, 0, 0);
  }

  /** Every free page got lost, and nothing else changed. */
  ghost predicate AllLost(vm: Vm, vm': Vm)
  {
    && |vm'.free| == 0 && vm'.own == (map f | f in vm.own :: if vm.own[f] == Free then Lost else vm.own[f])
    && (forall qd :: IsSpace(vm, qd) ==> SameSpace(vm, vm', qd))
  }

  lemma {:induction false} AllLostNow(vm: Vm)
    requires Inv(vm) && |vm.free| == 0
    ensures AllLost(vm, vm)
  {
    TouchRefl(vm, 0, 0, 0);
    forall qd | IsSpace(vm, qd) ensures SameSpace(vm, vm, qd) {}
  }

  lemma {:induction false} BuildSpace(vm: Vm, v: Vm, pd: nat, end: nat, data: nat)
    requires Building(vm, v, pd, end, data)
    ensures Inv(v) && IsSpace(v, pd)
  {}

  lemma {:induction false} MapRelMapped(vm: Vm, vm': Vm, pd: nat, first: nat, pa: nat, flags: Flags, last: nat)
    requires MapRel(vm, vm', pd, first, pa, flags, last, Mapped)
    ensures MappedTo(vm, vm', pd, first, last + 1, pa, flags)
  {}

  lemma {:induction false} BuildDone(vm: Vm, v: Vm, pd: nat, data: nat)
    requires Building(vm, v, pd, ALLPAGES, data)
    ensures |vm.free| >= 65 && |v.free| == |vm.free| - 65
  {}

  lemma {:induction false} BuildLost(vm: Vm, v: Vm, pd: nat, data: nat, v': Vm)
    requires (exists end: nat :: Building(vm, v, pd, end, data) && KERNPAGE <= end <= ALLPAGES) && |v.free| == 0
    requires Inv(vm) && v' == v.(own := Disown(v.own, pd, Lost))
    ensures Inv(v') && AllLost(vm, v')
  {
    var end: nat :| Building(vm, v, pd, end, data) && KERNPAGE <= end <= ALLPAGES;
    DisownInv(v, pd, Lost, v');
    DisownOthers(vm, v, v', pd);
    forall f | f in vm.own ensures v'.own[f] == if vm.own[f] == Free then Lost else vm.own[f] {
      assert OwnerOk(vm, f);
    }
  }

  // ----- copyuvm -----

  /** The first n user pages are mapped. */
  ghost predicate Front(m: Mem, pd: nat, n: nat)
  {
    n <= USERPAGES && forall v: nat {:trigger Entry(m, pd, v)} :: v < n ==> Entry(m, pd, v).Present?
  }

  /** The first of the pages v..n-1 that is not mapped, or n. */
  function FirstHole(m: Mem, pd: nat, v: nat, n: nat): (h: nat)
    requires v <= n
    ensures v <= h <= n && (h < n ==> !Entry(m, pd, h).Present?)
    ensures forall w: nat {:trigger Entry(m, pd, w)} :: v <= w < h ==> Entry(m, pd, w).Present?
    decreases n - v
  {
    if v == n || !Entry(m, pd, v).Present? then v else FirstHole(m, pd, v + 1, n)
  }

  ghost function ImageAt(vm: Vm, pd: nat, v: nat): Mapping
  {
    var e := Entry(vm.mem, pd, v);
    if e.Present? && e.frame in vm.mem then Mapping(vm.mem[e.frame], e.flags)
    else Mapping(ZeroPage(), Flags(false, false))
  }

  /** What the first n user pages of pd show. */
  ghost function Image(vm: Vm, pd: nat, n: nat): (r: seq<Mapping>)
    ensures |r| == n && forall v {:trigger r[v]} :: 0 <= v < n ==> r[v] == ImageAt(vm, pd, v)
  {
    seq(n, v requires 0 <= v < n => ImageAt(vm, pd, v))
  }

  lemma {:induction false} ImageShows(vm: Vm, pd: nat, n: nat, v: nat)
    requires Inv(vm) && IsSpace(vm, pd) && Front(vm.mem, pd, n) && v < n
    ensures Shows(vm, pd, v, Image(vm, pd, n)) && Image(vm, pd, n)[v].page.Data?
  {
    hide Image;
    assert UserOk(vm, pd, v);
    assert Entry(vm.mem, pd, v).Present?;
  }

  lemma {:induction false} TableThere(vm: Vm, pd: nat, d: nat)
    requires Inv(vm) && IsSpace(vm, pd) && Dir(vm.mem, pd, d).Present?
    ensures IsTable(vm.mem, Dir(vm.mem, pd, d).frame)
  {
    assert TabOk(vm, pd, d);
  }

  lemma {:induction false} RootTable(vm: Vm, pd: nat)
    requires Inv(vm) && IsSpace(vm, pd)
    ensures pd in vm.mem && IsTable(vm.mem, pd)
  {
    InMem(vm, pd);
  }

  // ----- copyuvm's loop -----

  /** The tables for n user pages from page 0. */
  function TablesOf(n: nat): nat { (n + NENTRIES - 1) / NENTRIES }

  /** What it takes to copy n user pages: a page directory and 64 tables for the kernel's half, the pages and their
      tables. */
  function CopyCost(n: nat): nat { 65 + n + TablesOf(n) }

  lemma {:induction false} FrontLimit(m: Mem, pd: nat, n: nat)
    requires Front(m, pd, n)
    ensures n <= USERPAGES
  {}

  lemma {:induction false} FrontHole(m: Mem, pd: nat, n: nat)
    requires n <= USERPAGES
    ensures Front(m, pd, FirstHole(m, pd, 0, n))
  {}

  /** In a new address space every user page needs a page, and every 1024 of them one for a table. */
  lemma {:induction false} CopyNeed(vm: Vm, vs: Vm, d: nat, data: nat, j: nat)
    requires Building(vm, vs, d, ALLPAGES, data) && j <= USERPAGES
    ensures Need(vs, d, 0, j) == j + TablesOf(j)
    ensures Contig(vs.mem, d, 0, 0) && IsSpace(vs, d) && Inv(vs) && |vs.free| == |vm.free| - 65
  {
    hide Inv;
    BuildDone(vm, vs, d, data);
    MissingAll(vs.mem, d, TabEnd(0, j));
  }

  lemma {:induction false} MissingAll(m: Mem, pd: nat, hi: nat)
    requires forall d: nat {:trigger Dir(m, pd, d)} :: d < hi ==> !Dir(m, pd, d).Present?
    ensures Missing(m, pd, 0, hi) == hi
    decreases hi
  {
    if hi > 0 {
      MissingAll(m, pd, hi - 1);
      assert !Dir(m, pd, hi - 1).Present?;
    }
  }

  /** The condition under which copyuvm loses pages: setupkvm fails part way, or a table page is not to be had when
      just one page is left. */
  predicate CopyLeaks(free: nat, n: nat)
  {
    0 < free < 65 || exists j :: 0 <= j < n && CopyLeakAt(free, j)
  }

  predicate CopyLeakAt(free: nat, j: nat) { j % NENTRIES == 0 && free == 65 + j + j / NENTRIES + 1 }

  lemma {:induction false} CopyLeakIs(vm: Vm, vs: Vm, d: nat, data: nat, j: nat)
    requires Building(vm, vs, d, ALLPAGES, data) && j < USERPAGES
    ensures LeakAt(vs, d, 0, j) <==> CopyLeakAt(|vm.free|, j)
  {
    hide Inv;
    CopyNeed(vm, vs, d, data, j);
    BuildDone(vm, vs, d, data);
    assert !Dir(vs.mem, d, j / NENTRIES).Present?;
  }

  lemma {:induction false} CopyNoLeak(vm: Vm, vs: Vm, d: nat, data: nat, n: nat)
    requires Building(vm, vs, d, ALLPAGES, data) && n <= USERPAGES
    ensures NoLeak(vs, d, 0, n) <==> !CopyLeaks(|vm.free|, n)
  {
    hide Building;
    hide LeakAt;
    BuildDone(vm, vs, d, data);
    forall j | 0 <= j < n ensures LeakAt(vs, d, 0, j) <==> CopyLeakAt(|vm.free|, j) { CopyLeakIs(vm, vs, d, data, j); }
  }

  /** Address space d shows in its user half what pd did, and the kernel's mappings in the other. */
  ghost predicate Copied(vm: Vm, pd: nat, vm': Vm, d: nat, n: nat, data: nat)
  {
    && IsSpace(vm', d) && !IsSpace(vm, d) && Contig(vm'.mem, d, 0, n)
    && (forall v: nat {:trigger Entry(vm'.mem, d, v)} :: v < n ==> Twin(vm, pd, vm', d, v))
    && (forall v: nat {:trigger Entry(vm'.mem, d, v)} :: USERPAGES <= v < ALLPAGES ==>
          Entry(vm'.mem, d, v) == KernelEntry(v, data))
  }

  /** The same contents and flags, in different physical pages. */
  ghost predicate Twin(vm: Vm, pd: nat, vm': Vm, d: nat, v: nat)
  {
    var e, e' := Entry(vm.mem, pd, v), Entry(vm'.mem, d, v);
    && e.Present? && e'.Present? && e'.flags == e.flags && e'.frame != e.frame
    && e.frame in vm.mem && e'.frame in vm'.mem && vm'.mem[e'.frame] == vm.mem[e.frame]
  }

  /** All address spaces are as they were, and every page but the lost ones has the owner it had. */
  ghost predicate Restored(vm: Vm, vm': Vm, lost: set<nat>)
  {
    && (forall qd :: IsSpace(vm, qd) ==> SameSpace(vm, vm', qd)) && vm'.own.Keys == vm.own.Keys
    && (forall f :: f in vm.own ==> vm'.own[f] == if f in lost then Lost else vm.own[f])
    && (forall f :: f in lost ==> f in vm.own && vm.own[f] == Free)
  }

  /** Given up again, every page that went to d on the way is free as before. */
  lemma {:induction false} CopyOwners(vm: Vm, vs: Vm, v0: Vm, d: nat, lost: set<nat>)
    requires Inv(vm) && d in vm.own && vm.own[d] == Free && Grabs(vm.own, vs.own, d, {})
    requires Grabs(vs.own, v0.own, d, lost)
    ensures Disown(v0.own, d, Free).Keys == vm.own.Keys
    ensures forall f :: f in vm.own ==> Disown(v0.own, d, Free)[f] == if f in lost then Lost else vm.own[f]
    ensures forall f :: f in lost ==> f in vm.own && vm.own[f] == Free
  {
    hide Inv;
    forall f | f in vm.own
      ensures Disown(v0.own, d, Free)[f] == (if f in lost then Lost else vm.own[f]) && (f in lost ==> vm.own[f] == Free)
    {
      NotMine(vm, f, d);
    }
  }

  lemma {:induction false} NotSpace(vm: Vm, d: nat)
    requires d in vm.own && vm.own[d] == Free
    ensures !IsSpace(vm, d)
  {}

  /** freevm after copyuvm gave up: everything is back but the lost page. */
  lemma {:induction false} CopyUndone(vm: Vm, vs: Vm, v0: Vm, v1: Vm, d: nat, data: nat, n: nat, img: seq<Mapping>,
                                      lost: set<nat>)
    requires Inv(vm) && Building(vm, vs, d, ALLPAGES, data) && Grown(vs, v0, d, 0, n, img, lost)
    requires OthersSame(v0, v1, d)
    requires v1.own == Disown(v0.own, d, Free)
    ensures Restored(vm, v1, lost)
  {
    hide Shows;
    hide Inv;
    hide SameSpace;
    hide Contig;
    CopyOthers(vm, vs, v0, d, n);
    DisownOthers(vm, v0, v1, d);
    CopyOwners(vm, vs, v0, d, lost);
    NotSpace(vm, d);
  }

  /** Nothing belonged to a page directory that was free. */
  lemma {:induction false} NotMine(vm: Vm, f: nat, d: nat)
    requires Inv(vm) && d in vm.own && vm.own[d] == Free && f in vm.own
    ensures !Belongs(vm.own[f], f, d)
  {
    assert OwnerOk(vm, f);
  }

  lemma {:induction false} CopyOthers(vm: Vm, vs: Vm, v0: Vm, d: nat, n: nat)
    requires OthersSame(vm, vs, d) && Touch(vs, v0, d, 0, n)
    ensures OthersSame(vm, v0, d)
  {
    BuildOthers(vm, vs, v0, d, 0, n);
  }

  lemma {:induction false} CopyDone(vm: Vm, vs: Vm, v: Vm, pd: nat, d: nat, data: nat, n: nat)
    requires Inv(vm) && IsSpace(vm, pd) && Front(vm.mem, pd, n) && Building(vm, vs, d, ALLPAGES, data) && Inv(v)
    requires Grown(vs, v, d, 0, n, Image(vm, pd, n), {})
    ensures Copied(vm, pd, v, d, n, data) && OthersSame(vm, v, d) && Grabs(vm.own, v.own, d, {})
  {
    hide Image;
    CopyOthers(vm, vs, v, d, n);
    CopyOwn(vm, vs.own, v.own, d);
    forall w: nat | w < n ensures Twin(vm, pd, v, d, w) { CopyTwin(vm, vs, v, pd, d, n, w); }
    forall w: nat | USERPAGES <= w < ALLPAGES ensures Entry(v.mem, d, w) == KernelEntry(w, data) {
      assert SamePage(vs, v, d, w);
    }
  }

  lemma {:induction false} CopyOwn(vm: Vm, b: map<nat, Owner>, c: map<nat, Owner>, d: nat)
    requires Grabs(vm.own, b, d, {}) && Grabs(b, c, d, {})
    ensures Grabs(vm.own, c, d, {})
  {}

  lemma {:induction false} CopyTwin(vm: Vm, vs: Vm, v: Vm, pd: nat, d: nat, n: nat, w: nat)
    requires Inv(vm) && IsSpace(vm, pd) && Front(vm.mem, pd, n) && Inv(v) && IsSpace(v, d) && !IsSpace(vm, d) && w < n
    requires OthersSame(vm, v, d) && Shows(v, d, w, Image(vm, pd, n))
    ensures Twin(vm, pd, v, d, w)
  {
    hide Image;
    ImageShows(vm, pd, n, w);
    assert SameSpace(vm, v, pd);
    assert SamePage(vm, v, pd, w);
    assert UserOk(v, pd, w) && UserOk(v, d, w);
  }

  /** setupkvm failed. */
  lemma {:induction false} CopyNone(vm: Vm, v: Vm, n: nat, lost: set<nat>)
    requires Inv(vm) && AllLost(vm, v) && |vm.free| < 65 && lost == set f | f in vm.own && vm.own[f] == Free
    ensures Restored(vm, v, lost) && (lost == {} <==> !CopyLeaks(|vm.free|, n))
  {
    if |vm.free| > 0 { assert vm.free[0] in lost; }
    forall j | 0 <= j < n ensures !CopyLeakAt(|vm.free|, j) {}
  }

  /** Out of pages after i of the n, one of them lost or none. */
  lemma {:induction false} CopyShort(vm: Vm, vs: Vm, v0: Vm, d: nat, data: nat, i: nat, n: nat, img: seq<Mapping>,
                                     lost: set<nat>)
    requires Building(vm, vs, d, ALLPAGES, data) && i < n <= USERPAGES && Grown(vs, v0, d, 0, i, img, lost)
    requires |v0.free| == 0
    requires NoLeak(vs, d, 0, i) && (lost == {} || (LeakAt(vs, d, 0, i) && |lost| == 1))
    ensures |vm.free| < CopyCost(n) && (lost == {} <==> !CopyLeaks(|vm.free|, n))
  {
    hide Building;
    hide Touch;
    hide Shows;
    CopyNeed(vm, vs, d, data, n);
    NeedStep(vs, d, 0, i);
    NeedGrows(vs, d, 0, i + 1, n);
    if lost == {} { NoMoreLeaks(vs, d, 0, i, n); }
    CopyNoLeak(vm, vs, d, data, n);
  }

  lemma {:induction false} CopyFull(vm: Vm, vs: Vm, v: Vm, d: nat, data: nat, n: nat, img: seq<Mapping>)
    requires Building(vm, vs, d, ALLPAGES, data) && n <= USERPAGES && Grown(vs, v, d, 0, n, img, {})
    requires NoLeak(vs, d, 0, n)
    ensures |vm.free| >= CopyCost(n) && !CopyLeaks(|vm.free|, n)
  {
    hide Building;
    hide Touch;
    hide Shows;
    CopyNeed(vm, vs, d, data, n);
    CopyNoLeak(vm, vs, d, data, n);
  }

  /** The parent's page i is mapped while the child is built if and only if it was before. */
  lemma {:induction false} ParentEntry(vm: Vm, vs: Vm, v0: Vm, pd: nat, d: nat, data: nat, i: nat, img: seq<Mapping>)
    requires Inv(vm) && IsSpace(vm, pd) && Building(vm, vs, d, ALLPAGES, data) && Grown(vs, v0, d, 0, i, img, {})
    ensures IsSpace(v0, pd) && (Entry(v0.mem, pd, i).Present? <==> Entry(vm.mem, pd, i).Present?)
  {
    hide Shows;
    CopyOthers(vm, vs, v0, d, i);
    assert SameSpace(vm, v0, pd);
    assert SamePage(vm, v0, pd, i);
  }

  /** The parent's page i, as copyuvm finds it. */
  lemma {:induction false} ParentPage(vm: Vm, vs: Vm, v0: Vm, pd: nat, d: nat, n: nat, data: nat, i: nat,
                                      img: seq<Mapping>)
    requires Inv(vm) && IsSpace(vm, pd) && Front(vm.mem, pd, n) && i < n && Building(vm, vs, d, ALLPAGES, data)
    requires Inv(v0) && Grown(vs, v0, d, 0, i, img, {}) && img == Image(vm, pd, n)
    ensures var e := Entry(v0.mem, pd, i);
            && e.Present? && e.frame in v0.mem && e.frame in v0.own && v0.own[e.frame].User?
            && Mapping(v0.mem[e.frame], e.flags) == img[i] && v0.mem[e.frame].Data?
  {
    hide Image;
    hide Shows;
    CopyOthers(vm, vs, v0, d, i);
    assert SameSpace(vm, v0, pd);
    assert SamePage(vm, v0, pd, i);
    ImageShows(vm, pd, n, i);
    assert UserOk(vm, pd, i) && UserOk(v0, pd, i);
  }

  // ----- clearpteu -----

  lemma {:induction false} TouchSelf(vm: Vm, pd: nat, v: nat)
    requires Inv(vm)
    ensures Touch(vm, vm, pd, v, v + 1)
  {
    TouchRefl(vm, pd, v, v + 1);
  }

  lemma {:induction false} ClearInv(vm: Vm, pd: nat, v: nat, vm': Vm)
    requires Inv(vm) && IsSpace(vm, pd) && v < ALLPAGES && Dir(vm.mem, pd, v / NENTRIES).Present?
    requires IsTable(vm.mem, Dir(vm.mem, pd, v / NENTRIES).frame) && Entry(vm.mem, pd, v).Present?
    requires var e := Entry(vm.mem, pd, v); vm' == vm.(mem := SetPte(vm.mem, pd, v, e.(flags := e.flags.(u := false))))
    ensures Inv(vm') && Touch(vm, vm', pd, v, v + 1)
    ensures var e := Entry(vm.mem, pd, v); Entry(vm'.mem, pd, v) == e.(flags := e.flags.(u := false))
  {
    var e := Entry(vm.mem, pd, v);
    RewriteTables(vm, vm', pd, v, e.(flags := e.flags.(u := false)));
    RewriteTouch(vm, vm', pd, v, e.(flags := e.flags.(u := false)));
  }

  /** With one page left a new address space has no page for its first table. */
  lemma {:induction false} LeaksAtOnce(vm: Vm, vs: Vm, pd: nat, data: nat)
    requires Building(vm, vs, pd, ALLPAGES, data) && |vs.free| == 1
    ensures LeakAt(vs, pd, 0, 0)
  {
    assert !Dir(vs.mem, pd, 0).Present?;
  }

  lemma {:induction false} HoleLeft(vm: Vm, vm': Vm, pd: nat, r: nat, lost: set<nat>)
    requires IsSpace(vm, pd) && LeakAt(vm, pd, 0, 0) && AllocRel(vm, vm', pd, 0, 1, PGSIZE, r, lost)
    ensures r == PGSIZE && IsSpace(vm', pd) && Contig(vm'.mem, pd, 0, 0) && Entry(vm'.mem, pd, 0) == Absent
    ensures |lost| == 1 && forall f :: f in lost ==> f in vm'.own && vm'.own[f] == Lost
  {
    assert Grown(vm, vm', pd, 0, 0, Zeros(1), lost);
    assert lost != {};
  }

  // ----- another address space given up meanwhile -----

  /** The pages of address space a stay its own while b is made and grown. */
  lemma {:induction false} StillThere(v0: Vm, v1: Vm, v2: Vm, v3: Vm, a: nat, b: nat, data: nat, r: nat, lost: set<nat>)
    requires Inv(v0) && Building(v0, v1, a, ALLPAGES, data) && Building(v1, v2, b, ALLPAGES, data)
    requires AllocRel(v2, v3, b, 0, 1, PGSIZE, r, lost)
    ensures a != b && IsSpace(v3, a)
    ensures forall f :: f in v1.own && Belongs(v1.own[f], f, a) ==> f in v3.own && v3.own[f] == v1.own[f]
  {
    hide Inv;
    hide Grown;
    hide Touch;
    hide LeakAt;
    assert Belongs(v1.own[a], a, a);
  }

  function FreeSet(own: map<nat, Owner>): set<nat> { set f | f in own && own[f] == Free }

  lemma {:induction false} Distinct(s: seq<nat>, k: nat)
    requires k <= |s| && forall i, j :: 0 <= i < j < |s| ==> s[i] != s[j]
    ensures |set i | 0 <= i < k :: s[i]| == k
  {
    if k > 0 {
      Distinct(s, k - 1);
      assert (set i | 0 <= i < k :: s[i]) == (set i | 0 <= i < k - 1 :: s[i]) + {s[k-1]};
    }
  }

  lemma {:induction false} FreeCount(free: seq<nat>, own: map<nat, Owner>)
    requires FreeOk(free, own)
    ensures |FreeSet(own)| == |free|
  {
    Distinct(free, |free|);
    assert FreeSet(own) == set i | 0 <= i < |free| :: free[i];
  }

  /** freevm gives back what setupkvm took. */
  lemma {:induction false} PagesBack(v0: Vm, v1: Vm, v3: Vm, v4: Vm, a: nat, b: nat, data: nat)
    requires Inv(v0) && Inv(v4) && Building(v0, v1, a, ALLPAGES, data) && IsSpace(v3, b) && a != b
    requires forall f :: f in v1.own && Belongs(v1.own[f], f, a) ==> f in v3.own && v3.own[f] == v1.own[f]
    requires v4.own == Disown(v3.own, a, Free) && OthersSame(v3, v4, a)
    requires Entry(v3.mem, b, 0) == Absent
    ensures |v4.free| >= 65 && IsSpace(v4, b) && Entry(v4.mem, b, 0) == Absent
  {
    FreeCount(v0.free, v0.own);
    FreeCount(v1.free, v1.own);
    FreeCount(v4.free, v4.own);
    var s0, s1, s4 := FreeSet(v0.own), FreeSet(v1.own), FreeSet(v4.own);
    assert s1 <= s0 && s0 - s1 <= s4;
    Sizes(s0, s1, s4);
    assert SameSpace(v3, v4, b);
    assert SamePage(v3, v4, b, 0);
  }

  lemma {:induction false} Sizes(s0: set<nat>, s1: set<nat>, s4: set<nat>)
    requires s1 <= s0 && s0 - s1 <= s4
    ensures |s0| - |s1| <= |s4|
  {
    assert s0 == s1 + (s0 - s1) && s1 !! (s0 - s1);
    assert s4 == (s0 - s1) + (s4 - (s0 - s1));
  }
}

/** The page allocator and user address spaces (vm.c, kalloc.c). */
module Vm {
  import opened Options
  import opened VmSpec
  import opened VmMap
  import opened VmSpaces

  /** copyuvm's outcomes: the child's page directory, 0, or the panic at a page that the parent has not. */
  datatype CopyResult = Child(pd: nat) | NoMemory | NoPage

  class Machine {
    var mem: Mem
    var free: seq<nat>
    ghost var own: map<nat, Owner>

    ghost function V(): VmSpec.Vm
      reads this
    {
      VmSpec.Vm(mem, free, own)
    }

    /** kinit: freerange puts the pages lo..hi-1 on the free list. */
    constructor (lo: nat, hi: nat, mem: Mem)
      requires 1 <= lo <= hi && forall f :: lo <= f < hi ==> f in mem
      ensures Inv(V()) && |free| == hi - lo
      ensures forall f :: (f in own <==> lo <= f < hi) && (f in own ==> own[f] == Free)
    {
      this.mem := mem;
      free := [];
      own := map f | f in mem && lo <= f < hi :: Held;
      new;
      HeldInv(V());
      var f := lo;
      while f < hi
        invariant lo <= f <= hi && |free| == f - lo && Inv(V())
        invariant forall g :: (g in own <==> lo <= g < hi) && (g in own ==> own[g] == if g < f then Free else Held)
      {
        PushInv(V(), f);
        Kfree(f);
        f := f + 1;
      }
    }

    method Kfree(f: nat)
      requires FreeOk(free, own) && f in own && own[f] != Free
      modifies this
      ensures FreeOk(free, own) && V() == Push(old(V()), f)
    {
      assert f !in free;
      mem := mem[f := Junk()];
      free := [f] + free;
      own := own[f := Free];
    }

    method Kalloc() returns (f: Option<nat>)
      requires Inv(V())
      modifies this
      ensures Inv(V())
      ensures f == None ==> |old(free)| == 0 && V() == old(V())
      ensures f.Some? ==>
                |old(free)| > 0 && f.value == old(free)[0] && V() == Pop(old(V())) && f.value in own && f.value in mem
    {
      if |free| == 0 {
        return None;
      }
      PopInv(V());
      f := Some(free[0]);
      own := own[free[0] := Held];
      free := free[1..];
      InMem(V(), f.value);
    }

    /** walkpgdir: the table that holds the entry for page v. */
    method Walk(pd: nat, v: nat, alloc: bool) returns (t: Option<nat>)
      requires Inv(V()) && IsSpace(V(), pd) && v < ALLPAGES
      modifies this
      ensures Inv(V())
      ensures t.None? ==> V() == old(V()) && Dir(mem, pd, v / NENTRIES) == Absent && (alloc ==> |free| == 0)
      ensures t.Some? ==>
                Walked(old(V()), V(), pd, v) && t.value == Dir(mem, pd, v / NENTRIES).frame && IsTable(mem, t.value)
      ensures !alloc ==> V() == old(V())
    {
      hide Inv;
      hide Walked;
      RootTable(V(), pd);
      var e := mem[pd].ptes[v / NENTRIES];
      if e.Present? {
        WalkedSame(V(), pd, v);
        TableThere(V(), pd, v / NENTRIES);
        return Some(e.frame);
      }
      if !alloc || |free| == 0 {
        return None;
      }
      WalkedNew(V(), pd, v);
      PopInv(V());
      var f := Kalloc();
      var tab := f.value;
      mem := mem[tab := ZeroTable()];
      mem := mem[pd := Table(mem[pd].ptes[v / NENTRIES := Present(tab, Flags(true, true))])];
      own := own[tab := Tab(pd, v / NENTRIES)];
      assert V() == AddTable(Pop(old(V())), pd, v / NENTRIES, tab);
      WalkedInv(old(V()), V(), pd, v);
      return Some(tab);
    }

    /** mappages: pages first..last of pd to consecutive physical pages from pa. In the user half it is called
        for one page that was just allocated. */
    method MapPages(pd: nat, first: nat, last: nat, pa: nat, flags: Flags) returns (r: MapResult)
      requires Inv(V()) && IsSpace(V(), pd) && first <= last < ALLPAGES
      requires first >= USERPAGES || (first == last && pa in own && own[pa] == Held && pa in mem && mem[pa].Data?)
      modifies this
      ensures Inv(V()) && MapRel(old(V()), V(), pd, first, pa, flags, last, r)
    {
      hide Inv;
      hide MappedTo;
      hide Walked;
      hide SetPte;
      var a, f := first, pa;
      ghost var vm := V();
      MapStart(V(), pd, first, pa, flags);
      while true
        invariant first <= a <= last && f == pa + (a - first) && Inv(V()) && IsSpace(V(), pd)
        invariant MappedTo(vm, V(), pd, first, a, pa, flags)
        decreases last - a
      {
        ghost var v0 := V();
        var t := Walk(pd, a, true);
        if t.None? {
          return NoTable;
        }
        ghost var v1 := V();
        WalkedEntry(vm, v0, v1, pd, first, a, pa, flags);
        if mem[t.value].ptes[a % NENTRIES].Present? {
          return Remap;
        }
        mem := mem[t.value := Table(mem[t.value].ptes[a % NENTRIES := Present(f, flags)])];
        if a < USERPAGES {
          own := own[f := User(pd, a)];
        }
        SetPteIs(v1.mem, pd, a, Present(f, flags), mem);
        MapStep(vm, v0, v1, V(), pd, first, a, pa, flags);
        MappedSpace(vm, V(), pd, first, a + 1, pa, flags);
        if a == last {
          return Mapped;
        }
        a := a + 1;
        f := f + 1;
      }
    }

    /** deallocuvm, on any address space. */
    method DeallocUvm(pd: nat, oldsz: nat, newsz: nat) returns (r: nat)
      requires Inv(V()) && IsSpace(V(), pd) && oldsz <= KERNBASE
      modifies this
      ensures Inv(V())
      ensures newsz >= oldsz ==> r == oldsz && V() == old(V())
      ensures newsz < oldsz ==> r == newsz && Shrunk(old(V()), V(), pd, Pages(newsz), Pages(oldsz))
    {
      hide Inv;
      hide Cut;
      if newsz >= oldsz {
        return oldsz;
      }
      var a := Pages(newsz);
      ghost var m, b, vm := Pages(newsz), Pages(oldsz), V();
      CutStart(vm, pd, m, b);
      while a * PGSIZE < oldsz
        invariant a >= m && Inv(V()) && IsSpace(V(), pd) && Cut(vm, V(), pd, m, a, b)
        decreases KERNBASE - a * PGSIZE
      {
        var t := Walk(pd, a, false);
        if t.None? {
          CutSkip(vm, V(), pd, m, a, b);
          a := a + (NENTRIES - 1);
        } else {
          CutTable(V(), pd, a);
          var e := mem[t.value].ptes[a % NENTRIES];
          if e.Present? {
            ghost var v0 := V();
            CutFrame(v0, pd, a);
            Kfree(e.frame);
            mem := mem[t.value := Table(mem[t.value].ptes[a % NENTRIES := Absent])];
            CutStep(vm, v0, V(), pd, m, a, b);
          } else {
            CutAbsent(vm, V(), pd, m, a, b);
          }
        }
        a := a + 1;
      }
      CutAll(vm, V(), pd, m, a, b);
      return newsz;
    }

    /** One turn of allocuvm's loop: page a is mapped to a zeroed page, or lost because there is none for its table; or
        there is no page. */
    method GrowOne(pd: nat, a: nat, ghost vm: VmSpec.Vm, ghost b0: nat, ghost n: nat, ghost img: seq<Mapping>,
                   ghost lost: set<nat>)
      returns (ok: bool)
      requires Inv(V()) && IsSpace(vm, pd) && IsSpace(V(), pd) && b0 <= a < USERPAGES && a < |img|
      requires img[a] == Mapping(ZeroPage(), Flags(true, true))
      requires Grown(vm, V(), pd, b0, n, img, lost) && if lost == {} then n == a else |free| == 0
      modifies this
      ensures Inv(V()) && IsSpace(V(), pd)
      ensures !ok ==> V() == old(V()) && |free| == 0
      ensures ok ==>
                lost == {} && (Grew(vm, V(), pd, b0, a, img) || exists gone :: Leaked(vm, V(), pd, b0, a, img, gone))
    {
      hide Inv;
      hide Grown;
      hide Got;
      hide LeakAt;
      hide MapRel;
      ghost var v0 := V();
      var f := Kalloc();
      if f.None? {
        return false;
      }
      mem := mem[f.value := ZeroPage()];
      ghost var v1 := V();
      GrowPage(v0, v1, pd, ZeroPage());
      var m := MapPages(pd, a, a, f.value, Flags(true, true));
      if m == Mapped {
        MapRelMapped(v1, V(), pd, a, f.value, Flags(true, true), a);
        GrowStep(vm, v0, v1, V(), pd, b0, a, f.value, img);
      } else {
        GrowLeaks(vm, v0, v1, V(), pd, b0, a, f.value, m, V().(own := own[f.value := Lost]), img);
        own := own[f.value := Lost];
        assert Leaked(vm, V(), pd, b0, a, img, {f.value});
      }
      return true;
    }

    /** allocuvm, with no page mapped from oldsz on. `lost` are pages taken from the free list and put nowhere. */
    method AllocUvm(pd: nat, oldsz: nat, newsz: nat) returns (r: nat, ghost lost: set<nat>)
      requires Inv(V()) && IsSpace(V(), pd) && oldsz < KERNBASE && Contig(mem, pd, Pages(oldsz), Pages(oldsz))
      modifies this
      ensures Inv(V())
      ensures newsz >= KERNBASE ==> r == 0 && V() == old(V())
      ensures newsz < KERNBASE && newsz < oldsz ==> r == oldsz && V() == old(V())
      ensures newsz < KERNBASE && newsz >= oldsz ==>
                AllocRel(old(V()), V(), pd, Pages(oldsz), Pages(newsz), newsz, r, lost)
    {
      hide Inv;
      hide Grown;
      hide AllocRel;
      hide Got;
      hide LeakAt;
      hide MapRel;
      hide Shrunk;
      hide Contig;
      hide Grew;
      hide Leaked;
      lost := {};
      if newsz >= KERNBASE {
        return 0, {};
      }
      if newsz < oldsz {
        return oldsz, {};
      }
      var a := Pages(oldsz);
      ghost var b0, vm, img := Pages(oldsz), V(), Zeros(Pages(newsz));
      ghost var n := b0;                        // how many pages are mapped
      GrowStart(vm, pd, b0, img);
      while a * PGSIZE < newsz
        invariant b0 <= n <= a && a <= Pages(newsz) <= USERPAGES && Inv(V()) && IsSpace(V(), pd)
        invariant Grown(vm, V(), pd, b0, n, img, lost)
        invariant if lost == {} then n == a && NoLeak(vm, pd, b0, a)
                  else n + 1 == a && |free| == 0 && LeakAt(vm, pd, b0, n) && |lost| == 1
        decreases KERNBASE - a * PGSIZE
      {
        ghost var v0 := V();
        var ok := GrowOne(pd, a, vm, b0, n, img, lost);
        if !ok {
          GrownContig(vm, v0, pd, b0, n, lost, img);
          var d := DeallocUvm(pd, newsz, oldsz);
          GrowUndone(vm, v0, V(), pd, b0, n, a, Pages(newsz), newsz, lost, img);
          return 0, lost;
        }
        if Grew(vm, V(), pd, b0, a, img) {
          GrewMeans(vm, V(), pd, b0, a, img);
          n := n + 1;
        } else {
          lost :| Leaked(vm, V(), pd, b0, a, img, lost);
          LeakedMeans(vm, V(), pd, b0, a, img, lost);
        }
        a := a + 1;
      }
      GrowDone(vm, V(), pd, b0, n, Pages(newsz), newsz, lost, img);
      return newsz, lost;
    }

    /** setupkvm: a new page directory with the kernel's mappings. It takes 65 pages; with fewer it fails and
        every page it took is lost. */
    method SetupKvm(data: nat) returns (r: Option<nat>)
      requires Inv(V()) && EXTPAGE < data < STOPPAGE
      modifies this
      ensures r.Some? <==> |old(free)| >= 65
      ensures r.Some? ==> Building(old(V()), V(), r.value, ALLPAGES, data)
      ensures r.None? ==> Inv(V()) && AllLost(old(V()), V())
    {
      hide Inv;
      hide Building;
      ghost var vm := V();
      var p := Kalloc();
      if p.None? {
        AllLostNow(vm);
        return None;
      }
      var pd := p.value;
      mem := mem[pd := ZeroTable()];
      own := own[pd := Root];
      BuildStart(vm, pd, V(), data);
      var ok := MapKernel(vm, pd, KERNPAGE, EXTPAGE - 1, 0, Flags(true, false), data);
      if !ok {
        return None;
      }
      ok := MapKernel(vm, pd, EXTPAGE, data - 1, EXTPAGE - KERNPAGE, Flags(false, false), data);
      if !ok {
        return None;
      }
      ok := MapKernel(vm, pd, data, STOPPAGE - 1, data - KERNPAGE, Flags(true, false), data);
      if !ok {
        return None;
      }
      BuildGap(vm, V(), pd, data);
      ok := MapKernel(vm, pd, DEVPAGE, ALLPAGES - 1, DEVPAGE, Flags(true, false), data);
      if !ok {
        return None;
      }
      BuildDone(vm, V(), pd, data);
      return Some(pd);
    }

    /** One entry of kmap; on failure setupkvm returns 0 and forgets the directory. */
    method MapKernel(ghost vm: VmSpec.Vm, pd: nat, first: nat, last: nat, pa: nat, flags: Flags,
                     ghost data: nat) returns (ok: bool)
      requires Inv(vm) && Building(vm, V(), pd, first, data)
      requires (KERNPAGE <= first <= last < STOPPAGE) || (DEVPAGE <= first <= last < ALLPAGES)
      requires forall v: nat {:trigger KernelEntry(v, data)} ::
                 first <= v <= last ==> KernelEntry(v, data) == Present(pa + (v - first), flags)
      modifies this
      ensures ok ==> Building(vm, V(), pd, last + 1, data)
      ensures !ok ==> |vm.free| < 65 && Inv(V()) && AllLost(vm, V())
    {
      hide Inv;
      hide Building;
      hide MapRel;
      hide KernelEntry;
      ghost var v0 := V();
      BuildSpace(vm, V(), pd, first, data);
      var r := MapPages(pd, first, last, pa, flags);
      ok := r == Mapped;
      if ok {
        MapRelMapped(v0, V(), pd, first, pa, flags, last);
        BuildStep(vm, v0, V(), pd, first, last, pa, flags, data);
      } else {
        BuildFails(vm, v0, V(), pd, first, last, pa, flags, data, r);
        BuildLost(vm, V(), pd, data, V().(own := Disown(own, pd, Lost)));
        own := Disown(own, pd, Lost);
      }
    }

    /** freevm: every page of pd goes back to the free list. */
    method FreeVm(pd: nat)
      requires Inv(V()) && IsSpace(V(), pd)
      modifies this
      ensures Inv(V()) && own == Disown(old(own), pd, Free) && OthersSame(old(V()), V(), pd)
    {
      hide Shrunk;
      hide Contig;
      hide Inv;
      hide OthersSame;
      hide Swept;
      hide Disown;
      ghost var vm := V();
      var sz := DeallocUvm(pd, KERNBASE, 0);
      ghost var v1 := V();
      ShrunkOthers(vm, v1, pd);
      DisownAfter(vm, v1, pd, 0, USERPAGES);
      SweptEnd(v1, pd);
      RootTable(v1, pd);
      DisownInv(v1, pd, Held, V().(own := Disown(own, pd, Held)));
      DisownOthers(vm, v1, V().(own := Disown(own, pd, Held)), pd);
      own := Disown(own, pd, Held);
      var i := 0;
      while i < NENTRIES
        invariant i <= NENTRIES && Inv(V()) && own == Swept(v1.own, pd, i) && pd in mem && pd in v1.mem
        invariant mem[pd] == v1.mem[pd] && IsTable(mem, pd)
        invariant OthersSame(vm, V(), pd)
      {
        if mem[pd].ptes[i].Present? {
          SweepStep(v1, V(), pd, i);
          PushKeeps(vm, V(), pd, mem[pd].ptes[i].frame);
          Kfree(mem[pd].ptes[i].frame);
        } else {
          SweepNone(v1, pd, i);
        }
        i := i + 1;
      }
      PushKeeps(vm, V(), pd, pd);
      Kfree(pd);
    }

    /** copyuvm's walk to the parent's page; both of its panics are about an entry that is not there. */
    method FindPage(pd: nat, v: nat) returns (e: Pte)
      requires Inv(V()) && IsSpace(V(), pd) && v < USERPAGES
      modifies this
      ensures e == Entry(mem, pd, v) && V() == old(V())
    {
      hide Inv;
      var t := Walk(pd, v, false);
      if t.None? {
        return Absent;
      }
      CutTable(V(), pd, v);
      e := mem[t.value].ptes[v % NENTRIES];
    }

    /** One turn of copyuvm's loop, with the entry of page i: it is copied, or there is no page for it or for its
        table. */
    method CopyPage(d: nat, i: nat, e: Pte, ghost pd: nat, ghost vm: VmSpec.Vm, ghost vs: VmSpec.Vm, ghost n: nat,
                    ghost data: nat)
      returns (ok: bool, ghost lost: set<nat>)
      requires Inv(vm) && IsSpace(vm, pd) && Front(vm.mem, pd, n) && i < n && Building(vm, vs, d, ALLPAGES, data)
      requires Inv(V()) && IsSpace(vs, d) && IsSpace(V(), d) && Grown(vs, V(), d, 0, i, Image(vm, pd, n), {})
      requires e == Entry(mem, pd, i)
      modifies this
      ensures Inv(V()) && IsSpace(V(), d)
      ensures ok ==> lost == {} && Grown(vs, V(), d, 0, i + 1, Image(vm, pd, n), {}) && !LeakAt(vs, d, 0, i)
      ensures !ok ==> Grown(vs, V(), d, 0, i, Image(vm, pd, n), lost) && |free| == 0
      ensures !ok ==> lost == {} || (LeakAt(vs, d, 0, i) && |lost| == 1)
    {
      hide Inv;
      hide Building;
      hide Grown;
      hide Image;
      hide LeakAt;
      hide Got;
      hide MapRel;
      hide Front;
      ghost var v0, img := V(), Image(vm, pd, n);
      ParentPage(vm, vs, v0, pd, d, n, data, i, img);
      FrontLimit(vm.mem, pd, n);
      var f := Kalloc();
      if f.None? {
        return false, {};
      }
      mem := mem[f.value := mem[e.frame]];
      ghost var v1 := V();
      GrowPage(v0, v1, d, img[i].page);
      var m := MapPages(d, i, i, f.value, e.flags);
      if m != Mapped {
        GrowLeaks(vs, v0, v1, V(), d, 0, i, f.value, m, V().(own := own[f.value := Lost]), img);
        own := own[f.value := Lost];
        return false, {f.value};
      }
      MapRelMapped(v1, V(), d, i, f.value, e.flags, i);
      GrowStep(vs, v0, v1, V(), d, 0, i, f.value, img);
      return true, {};
    }

    /** copyuvm: a new address space with the same user pages. Up to the first page h that is missing in the parent it
        needs 65 pages, one for each page and one for each table. With as many free pages it panics if a page is
        missing, and succeeds if not; with fewer, everything is as before, except that it loses pages exactly when
        CopyLeaks says. */
    method CopyUvm(pd: nat, sz: nat, data: nat) returns (r: CopyResult, ghost lost: set<nat>)
      requires Inv(V()) && IsSpace(V(), pd) && sz < KERNBASE && EXTPAGE < data < STOPPAGE
      modifies this
      ensures Inv(V())
      ensures r == NoMemory <==> |old(free)| < CopyCost(FirstHole(old(mem), pd, 0, Pages(sz)))
      ensures r != NoMemory ==> (r == NoPage <==> exists v: nat :: v < Pages(sz) && Entry(old(mem), pd, v) == Absent)
      ensures r.Child? ==> Copied(old(V()), pd, V(), r.pd, Pages(sz), data) && OthersSame(old(V()), V(), r.pd)
      ensures r.Child? ==> Grabs(old(own), own, r.pd, {})
      ensures r == NoMemory ==> Restored(old(V()), V(), lost)
      ensures lost == {} <==> !CopyLeaks(|old(free)|, FirstHole(old(mem), pd, 0, Pages(sz)))
    {
      hide Inv;
      hide Building;
      hide Grown;
      hide Image;
      hide Copied;
      hide OthersSame;
      hide Grabs;
      hide Restored;
      hide CopyLeaks;
      hide TablesOf;
      hide LeakAt;
      hide Got;
      hide MapRel;
      hide Disown;
      hide Entry;
      hide FirstHole;
      ghost var vm, n := V(), FirstHole(mem, pd, 0, Pages(sz));
      FrontHole(mem, pd, Pages(sz));
      ghost var img := Image(vm, pd, n);
      var k := SetupKvm(data);
      if k.None? {
        lost := set f | f in vm.own && vm.own[f] == Free;
        CopyNone(vm, V(), n, lost);
        return NoMemory, lost;
      }
      var d := k.value;
      ghost var vs := V();
      CopyNeed(vm, vs, d, data, 0);
      GrowStart(vs, d, 0, img);
      lost := {};
      var i := 0;
      while i * PGSIZE < sz
        invariant i <= n && Inv(V()) && IsSpace(V(), d) && Grown(vs, V(), d, 0, i, img, {}) && NoLeak(vs, d, 0, i)
      {
        ParentEntry(vm, vs, V(), pd, d, data, i, img);
        var e := FindPage(pd, i);
        if e == Absent {
          CopyFull(vm, vs, V(), d, data, n, img);
          return NoPage, {};
        }
        var ok;
        ok, lost := CopyPage(d, i, e, pd, vm, vs, n, data);
        if !ok {
          ghost var v0 := V();
          FreeVm(d);
          CopyUndone(vm, vs, v0, V(), d, data, i, img, lost);
          CopyShort(vm, vs, v0, d, data, i, n, img, lost);
          return NoMemory, lost;
        }
        i := i + 1;
      }
      CopyFull(vm, vs, V(), d, data, n, img);
      CopyDone(vm, vs, V(), pd, d, data, n);
      return Child(d), {};
    }

    /** clearpteu: the page stays mapped, but not for user mode. */
    method ClearPteU(pd: nat, v: nat) returns (ok: bool)
      requires Inv(V()) && IsSpace(V(), pd) && v < ALLPAGES
      modifies this
      ensures Inv(V()) && own == old(own) && free == old(free)
      ensures ok <==> Dir(old(mem), pd, v / NENTRIES).Present?
      ensures Touch(old(V()), V(), pd, v, v + 1)
      ensures var e := Entry(old(mem), pd, v);
              Entry(mem, pd, v) == if e.Present? then e.(flags := e.flags.(u := false)) else e
    {
      hide Inv;
      var t := Walk(pd, v, false);
      TouchSelf(V(), pd, v);
      if t.None? {
        return false;
      }
      CutTable(V(), pd, v);
      var e := mem[t.value].ptes[v % NENTRIES];
      if e.Present? {
        ClearInv(V(), pd, v, V().(mem := SetPte(mem, pd, v, e.(flags := e.flags.(u := false)))));
        mem := mem[t.value := Table(mem[t.value].ptes[v % NENTRIES := e.(flags := e.flags.(u := false))])];
      }
      return true;
    }
  }

  /** The failing case of allocuvm, from boot: a kernel address space takes 65 of 66 pages, and growing it by one page
      returns the new size with nothing mapped and the last page lost. */
  method GrowsWithHole(mem: Mem) returns (m: Machine, pd: nat, r: nat, ghost lost: set<nat>)
    requires forall f :: 1 <= f < 67 ==> f in mem
    ensures fresh(m) && Inv(m.V()) && IsSpace(m.V(), pd) && r == PGSIZE
    ensures Contig(m.mem, pd, 0, 0) && Entry(m.mem, pd, 0) == Absent && |lost| == 1
    ensures forall f :: f in lost ==> f in m.own && m.own[f] == Lost
  {
    hide Inv;
    hide Building;
    hide AllocRel;
    hide LeakAt;
    hide Contig;
    hide AllLost;
    m := new Machine(1, 67, mem);
    ghost var v0 := m.V();
    var k := m.SetupKvm(EXTPAGE + 1);
    pd := k.value;
    ghost var v1 := m.V();
    CopyNeed(v0, v1, pd, EXTPAGE + 1, 0);
    LeaksAtOnce(v0, v1, pd, EXTPAGE + 1);
    r, lost := m.AllocUvm(pd, 0, PGSIZE);
    HoleLeft(v1, m.V(), pd, r, lost);
  }

  /** And what follows, with 131 pages: two address spaces leave one page, the second is grown with a hole, the first is
      freed, and fork of the second panics in copyuvm. */
  method ForkPanics(mem: Mem) returns (m: Machine, pd: nat, sz: nat, r: CopyResult)
    requires forall f :: 1 <= f < 132 ==> f in mem
    ensures Inv(m.V()) && sz == PGSIZE && r == NoPage
  {
    hide Inv;
    hide Building;
    hide AllocRel;
    hide LeakAt;
    hide Contig;
    hide AllLost;
    hide Entry;
    m := new Machine(1, 132, mem);
    ghost var v0 := m.V();
    var first := m.SetupKvm(EXTPAGE + 1);
    ghost var v1 := m.V();
    CopyNeed(v0, v1, first.value, EXTPAGE + 1, 0);
    var second := m.SetupKvm(EXTPAGE + 1);
    pd := second.value;
    ghost var v2 := m.V();
    CopyNeed(v1, v2, pd, EXTPAGE + 1, 0);
    LeaksAtOnce(v1, v2, pd, EXTPAGE + 1);
    ghost var lost;
    sz, lost := m.AllocUvm(pd, 0, PGSIZE);
    ghost var v3 := m.V();
    HoleLeft(v2, v3, pd, sz, lost);
    StillThere(v0, v1, v2, v3, first.value, pd, EXTPAGE + 1, sz, lost);
    m.FreeVm(first.value);
    PagesBack(v0, v1, v3, m.V(), first.value, pd, EXTPAGE + 1);
    r, lost := m.CopyUvm(pd, PGSIZE, EXTPAGE + 1);
  }
}

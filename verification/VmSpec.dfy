/** Physical pages and two-level page tables (vm.c, kalloc.c), and who owns each page: the free list, a directory, a
    table or one user page. */
module VmSpec {
  const PGSIZE: nat := 4096
  const NENTRIES: nat := 1024              // entries of a page directory and of a page table
  const KERNBASE: nat := 0x8000_0000
  const USERPAGES: nat := 524288           // virtual pages below KERNBASE
  const ALLPAGES: nat := 1048576

  /** PTE_W and PTE_U. */
  datatype Flags = Flags(w: bool, u: bool)

  datatype Pte = Absent | Present(frame: nat, flags: Flags)

  /** A physical page is used as data, or as a page directory or page table. */
  datatype Page = Data(bytes: seq<nat>) | Table(ptes: seq<Pte>)

  type Mem = map<nat, Page>

  /** What a page that kalloc manages is used for. Held: in the hands of the code that just got it. Lost: no one
      will free it. */
  datatype Owner = Free | Held | Root | Tab(pd: nat, d: nat) | User(pd: nat, v: nat) | Lost

  datatype Vm = Vm(mem: Mem, free: seq<nat>, own: map<nat, Owner>)

  function ZeroPage(): Page { Data(seq(PGSIZE, i => 0)) }

  function ZeroTable(): (r: Page)
    ensures r.Table? && |r.ptes| == NENTRIES && forall i :: 0 <= i < NENTRIES ==> r.ptes[i] == Absent
  {
    Table(seq(NENTRIES, i => Absent))
  }

  predicate IsTable(m: Mem, f: nat) { f in m && m[f].Table? && |m[f].ptes| == NENTRIES }

  /** The directory entry number d of pd. */
  function Dir(m: Mem, pd: nat, d: nat): Pte { if IsTable(m, pd) && d < NENTRIES then m[pd].ptes[d] else Absent }

  /** The page-table entry for virtual page v, as the processor finds it. */
  function Entry(m: Mem, pd: nat, v: nat): Pte
  {
    match Dir(m, pd, v / NENTRIES)
    case Absent => Absent
    case Present(t, _) => if IsTable(m, t) then m[t].ptes[v % NENTRIES] else Absent
  }

  predicate IsSpace(vm: Vm, pd: nat) { pd in vm.own && vm.own[pd] == Root }

  ghost predicate FreeOk(free: seq<nat>, own: map<nat, Owner>)
  {
    && (forall i :: 0 <= i < |free| ==> free[i] in own && own[free[i]] == Free)
    && (forall i, j :: 0 <= i < j < |free| ==> free[i] != free[j])
    && (forall f :: f in own && own[f] == Free ==> f in free)
  }

  ghost predicate TabOk(vm: Vm, pd: nat, d: nat)
  {
    var e := Dir(vm.mem, pd, d);
    e.Present? ==> e.frame in vm.own && vm.own[e.frame] == Tab(pd, d) && IsTable(vm.mem, e.frame)
  }

  ghost predicate UserOk(vm: Vm, pd: nat, v: nat)
  {
    var e := Entry(vm.mem, pd, v);
    e.Present? ==> e.frame in vm.own && vm.own[e.frame] == User(pd, v) && e.frame in vm.mem && vm.mem[e.frame].Data?
  }

  ghost predicate OwnerOk(vm: Vm, f: nat)
    requires f in vm.own
  {
    match vm.own[f]
    case Root => IsTable(vm.mem, f)
    case Tab(pd, d) => IsSpace(vm, pd) && Dir(vm.mem, pd, d).Present? && Dir(vm.mem, pd, d).frame == f
    case User(pd, v) => IsSpace(vm, pd) && v < USERPAGES && Entry(vm.mem, pd, v).Present?
        && Entry(vm.mem, pd, v).frame == f
    case _ => true
  }

  /** Directories, tables and user pages are where their owners say. */
  ghost predicate Tables(vm: Vm)
  {
    && (forall f :: f in vm.own ==> f in vm.mem && OwnerOk(vm, f))
    && (forall pd: nat, d: nat {:trigger Dir(vm.mem, pd, d)} :: IsSpace(vm, pd) ==> TabOk(vm, pd, d))
    && (forall pd: nat, v: nat {:trigger Entry(vm.mem, pd, v)} :: IsSpace(vm, pd) && v < USERPAGES ==>
          UserOk(vm, pd, v))
  }

  /** CONSERVATION. Every managed page is on the free list once, or is the one directory, table or user page that
      its owner says, or is held or lost. */
  ghost predicate Inv(vm: Vm) { FreeOk(vm.free, vm.own) && Tables(vm) }

  /** In no one's page tables. */
  predicate Loose(o: Owner) { o in {Free, Held, Lost} }

  /** Page f, in no page table before and after, may change its contents and its owner. */
  lemma {:induction false} LooseTables(vm: Vm, vm': Vm, f: nat)
    requires Tables(vm) && f in vm.own && Loose(vm.own[f]) && f in vm'.own && Loose(vm'.own[f]) && f in vm'.mem
    requires vm'.own == vm.own[f := vm'.own[f]] && vm'.mem == vm.mem[f := vm'.mem[f]]
    ensures Tables(vm') && (forall pd :: IsSpace(vm', pd) <==> IsSpace(vm, pd))
    ensures forall pd: nat, v: nat {:trigger Entry(vm'.mem, pd, v)} ::
              IsSpace(vm, pd) ==> Entry(vm'.mem, pd, v) == Entry(vm.mem, pd, v)
    ensures forall pd: nat, d: nat {:trigger Dir(vm'.mem, pd, d)} ::
              IsSpace(vm, pd) ==> Dir(vm'.mem, pd, d) == Dir(vm.mem, pd, d)
  {
    assert forall pd :: IsSpace(vm', pd) <==> IsSpace(vm, pd);
    forall pd: nat, d: nat | IsSpace(vm', pd) ensures Dir(vm'.mem, pd, d) == Dir(vm.mem, pd, d) && TabOk(vm', pd, d) {
      assert TabOk(vm, pd, d);
    }
    forall pd: nat, v: nat | IsSpace(vm, pd) ensures Entry(vm'.mem, pd, v) == Entry(vm.mem, pd, v) {
      assert TabOk(vm, pd, v / NENTRIES);
    }
    forall pd: nat, v: nat | IsSpace(vm', pd) && v < USERPAGES ensures UserOk(vm', pd, v) { assert UserOk(vm, pd, v); }
    forall g | g in vm'.own ensures OwnerOk(vm', g) { assert OwnerOk(vm, g); }
  }

  // ----- kalloc and kfree -----

  function Junk(): Page { Data(seq(PGSIZE, i => 1)) }

  function Push(vm: Vm, f: nat): Vm { Vm(vm.mem[f := Junk()], [f] + vm.free, vm.own[f := Free]) }

  function Pop(vm: Vm): Vm
    requires |vm.free| > 0
  {
    vm.(free := vm.free[1..], own := vm.own[vm.free[0] := Held])
  }

  lemma {:induction false} PopFree(free: seq<nat>, own: map<nat, Owner>)
    requires FreeOk(free, own) && |free| > 0
    ensures FreeOk(free[1..], own[free[0] := Held])
  {
    var own' := own[free[0] := Held];
    forall g | g in own' && own'[g] == Free ensures g in free[1..] {
      var i :| 0 <= i < |free| && free[i] == g;
      assert free[1..][i-1] == g;
    }
  }

  lemma {:induction false} PopInv(vm: Vm)
    requires Inv(vm) && |vm.free| > 0
    ensures Inv(Pop(vm)) && vm.free[0] in vm.own && vm.own[vm.free[0]] == Free
  {
    hide Tables;
    PopFree(vm.free, vm.own);
    InMem(vm, vm.free[0]);
    LooseTables(vm, Pop(vm), vm.free[0]);
  }

  lemma {:induction false} InMem(vm: Vm, f: nat)
    requires Tables(vm) && f in vm.own
    ensures f in vm.mem && OwnerOk(vm, f)
  {}

  lemma {:induction false} PushInv(vm: Vm, f: nat)
    requires Inv(vm) && f in vm.own && vm.own[f] == Held
    ensures Inv(Push(vm, f))
  {
    hide Tables;
    assert f !in vm.free;
    LooseTables(vm, Push(vm, f), f);
  }

  // ----- page-table entries -----

  /** The entry for page v set to e, in a table that is there. */
  function SetPte(m: Mem, pd: nat, v: nat, e: Pte): Mem
    requires Dir(m, pd, v / NENTRIES).Present? && IsTable(m, Dir(m, pd, v / NENTRIES).frame)
  {
    var t := Dir(m, pd, v / NENTRIES).frame;
    m[t := Table(m[t].ptes[v % NENTRIES := e])]
  }

  /** Setting an entry changes that entry and no other, in no address space. */
  lemma {:induction false} SetPteAt(vm: Vm, pd: nat, v: nat, e: Pte, m: Mem)
    requires Tables(vm) && IsSpace(vm, pd) && Dir(vm.mem, pd, v / NENTRIES).Present?
    requires IsTable(vm.mem, Dir(vm.mem, pd, v / NENTRIES).frame) && m == SetPte(vm.mem, pd, v, e)
    ensures forall qd: nat, d: nat {:trigger Dir(m, qd, d)} :: IsSpace(vm, qd) ==> Dir(m, qd, d) == Dir(vm.mem, qd, d)
    ensures forall qd: nat, w: nat {:trigger Entry(m, qd, w)} ::
              IsSpace(vm, qd) ==> Entry(m, qd, w) == if qd == pd && w == v then e else Entry(vm.mem, qd, w)
    ensures forall f :: IsTable(m, f) <==> IsTable(vm.mem, f)
  {
    var t := Dir(vm.mem, pd, v / NENTRIES).frame;
    assert TabOk(vm, pd, v / NENTRIES);
    forall qd: nat, d: nat | IsSpace(vm, qd) ensures Dir(m, qd, d) == Dir(vm.mem, qd, d) {}
    forall qd: nat, w: nat | IsSpace(vm, qd)
      ensures Entry(m, qd, w) == if qd == pd && w == v then e else Entry(vm.mem, qd, w)
    {
      assert TabOk(vm, qd, w / NENTRIES);
      if w / NENTRIES == v / NENTRIES && w % NENTRIES == v % NENTRIES { assert w == v; }
    }
  }

  /** The owner of page f after the entry for page v of pd becomes e. */
  ghost predicate Rewrites(vm: Vm, vm': Vm, pd: nat, v: nat, e: Pte)
  {
    && Tables(vm) && IsSpace(vm, pd) && v < ALLPAGES && Dir(vm.mem, pd, v / NENTRIES).Present?
    && IsTable(vm.mem, Dir(vm.mem, pd, v / NENTRIES).frame) && vm'.mem == SetPte(vm.mem, pd, v, e)
    && (if v >= USERPAGES then vm'.own == vm.own
        else
          var was := Entry(vm.mem, pd, v);
          || (was == Absent && e.Present? && e.frame in vm.own && vm.own[e.frame] == Held && vm.mem[e.frame].Data?
              && vm'.own == vm.own[e.frame := User(pd, v)])
          || (was.Present? && e == Absent && vm'.own == vm.own[was.frame := Held])
          || (was.Present? && e.Present? && was.frame == e.frame && vm'.own == vm.own))
  }

  /** Mapping a held page, unmapping a page (which is then held) and changing flags keep every page accounted for. */
  lemma {:induction false} RewriteTables(vm: Vm, vm': Vm, pd: nat, v: nat, e: Pte)
    requires Rewrites(vm, vm', pd, v, e)
    ensures Tables(vm') && (forall qd :: IsSpace(vm', qd) <==> IsSpace(vm, qd))
  {
    SetPteAt(vm, pd, v, e, vm'.mem);
    assert TabOk(vm, pd, v / NENTRIES);
    if v < USERPAGES { assert UserOk(vm, pd, v); }
    assert forall qd :: IsSpace(vm', qd) <==> IsSpace(vm, qd);
    forall qd: nat, d: nat | IsSpace(vm', qd) ensures TabOk(vm', qd, d) { assert TabOk(vm, qd, d); }
    forall qd: nat, w: nat | IsSpace(vm', qd) && w < USERPAGES ensures UserOk(vm', qd, w) { assert UserOk(vm, qd, w); }
    forall g | g in vm'.own ensures g in vm'.mem && OwnerOk(vm', g) { assert OwnerOk(vm, g); }
  }

  /** walkpgdir's new table: page f, zeroed, becomes the table for directory entry d. */
  function AddTable(vm: Vm, pd: nat, d: nat, f: nat): Vm
    requires IsTable(vm.mem, pd) && d < NENTRIES
  {
    vm.(mem := vm.mem[f := ZeroTable()][pd := Table(vm.mem[pd].ptes[d := Present(f, Flags(true, true))])],
        own := vm.own[f := Tab(pd, d)])
  }

  lemma {:induction false} AddTableAt(vm: Vm, pd: nat, d: nat, f: nat)
    requires Tables(vm) && IsSpace(vm, pd) && IsTable(vm.mem, pd) && d < NENTRIES && Dir(vm.mem, pd, d) == Absent
    requires f in vm.own && vm.own[f] == Held
    ensures var m := AddTable(vm, pd, d, f).mem;
            && (forall qd: nat, c: nat {:trigger Dir(m, qd, c)} :: IsSpace(vm, qd) ==>
                  Dir(m, qd, c) == if qd == pd && c == d then Present(f, Flags(true, true)) else Dir(vm.mem, qd, c))
            && (forall qd: nat, w: nat {:trigger Entry(m, qd, w)} :: IsSpace(vm, qd) ==>
                  Entry(m, qd, w) == Entry(vm.mem, qd, w))
  {
    var m := AddTable(vm, pd, d, f).mem;
    assert f != pd;
    forall qd: nat, w: nat | IsSpace(vm, qd) ensures Entry(m, qd, w) == Entry(vm.mem, qd, w) {
      assert TabOk(vm, qd, w / NENTRIES);
    }
  }

  lemma {:induction false} AddTableTables(vm: Vm, pd: nat, d: nat, f: nat)
    requires Tables(vm) && IsSpace(vm, pd) && IsTable(vm.mem, pd) && d < NENTRIES && Dir(vm.mem, pd, d) == Absent
    requires f in vm.own && vm.own[f] == Held
    ensures Tables(AddTable(vm, pd, d, f)) && (forall qd :: IsSpace(AddTable(vm, pd, d, f), qd) <==> IsSpace(vm, qd))
  {
    var vm' := AddTable(vm, pd, d, f);
    AddTableAt(vm, pd, d, f);
    assert forall qd :: IsSpace(vm', qd) <==> IsSpace(vm, qd);
    forall qd: nat, c: nat | IsSpace(vm', qd) ensures TabOk(vm', qd, c) { assert TabOk(vm, qd, c); }
    forall qd: nat, w: nat | IsSpace(vm', qd) && w < USERPAGES ensures UserOk(vm', qd, w) { assert UserOk(vm, qd, w); }
    forall g | g in vm'.own ensures g in vm'.mem && OwnerOk(vm', g) { assert OwnerOk(vm, g); }
  }

  // ----- what an address space shows -----

  /** Page w of qd is mapped as before, to the same contents. */
  ghost predicate SamePage(vm: Vm, vm': Vm, qd: nat, w: nat)
  {
    var e := Entry(vm.mem, qd, w);
    && Entry(vm'.mem, qd, w) == e
    && (w < USERPAGES && e.Present? ==> e.frame in vm.mem && e.frame in vm'.mem && vm'.mem[e.frame] == vm.mem[e.frame])
  }

  /** No address space changed except pd, and that at most in pages lo..hi-1. */
  ghost predicate Touch(vm: Vm, vm': Vm, pd: nat, lo: nat, hi: nat)
  {
    && (forall qd :: IsSpace(vm, qd) ==> IsSpace(vm', qd))
    && (forall qd: nat, w: nat {:trigger Entry(vm'.mem, qd, w)} {:trigger SamePage(vm, vm', qd, w)} ::
          IsSpace(vm, qd) ==> (qd == pd && lo <= w < hi) || SamePage(vm, vm', qd, w))
  }

  lemma {:induction false} TouchTrans(a: Vm, b: Vm, c: Vm, pd: nat, lo: nat, hi: nat)
    requires Touch(a, b, pd, lo, hi) && Touch(b, c, pd, lo, hi)
    ensures Touch(a, c, pd, lo, hi)
  {
    forall qd: nat, w: nat | IsSpace(a, qd)
      ensures (qd == pd && lo <= w < hi) || SamePage(a, c, qd, w)
    {
      if !(qd == pd && lo <= w < hi) { assert SamePage(a, b, qd, w) && SamePage(b, c, qd, w); }
    }
  }

  lemma {:induction false} TouchWider(a: Vm, b: Vm, pd: nat, lo: nat, hi: nat, lo': nat, hi': nat)
    requires Touch(a, b, pd, lo, hi) && (lo >= hi || (lo' <= lo && hi <= hi'))
    ensures Touch(a, b, pd, lo', hi')
  {
    forall qd: nat, w: nat | IsSpace(a, qd) && !(qd == pd && lo' <= w < hi') ensures SamePage(a, b, qd, w) {}
  }

  lemma {:induction false} TouchRefl(a: Vm, pd: nat, lo: nat, hi: nat)
    requires Tables(a)
    ensures Touch(a, a, pd, lo, hi)
  {
    forall qd: nat, w: nat | IsSpace(a, qd) ensures SamePage(a, a, qd, w) {
      if w < USERPAGES { assert UserOk(a, qd, w); }
    }
  }

  lemma {:induction false} LooseTouch(vm: Vm, vm': Vm, f: nat, pd: nat)
    requires Tables(vm) && f in vm.own && Loose(vm.own[f]) && f in vm'.own && Loose(vm'.own[f]) && f in vm'.mem
    requires vm'.own == vm.own[f := vm'.own[f]] && vm'.mem == vm.mem[f := vm'.mem[f]]
    ensures Touch(vm, vm', pd, 0, 0)
  {
    LooseTables(vm, vm', f);
    forall qd: nat, w: nat | IsSpace(vm, qd) ensures SamePage(vm, vm', qd, w) {
      if w < USERPAGES { assert UserOk(vm, qd, w); }
    }
  }

  lemma {:induction false} RewriteTouch(vm: Vm, vm': Vm, pd: nat, v: nat, e: Pte)
    requires Rewrites(vm, vm', pd, v, e)
    ensures Touch(vm, vm', pd, v, v + 1) && Entry(vm'.mem, pd, v) == e
    ensures forall d: nat {:trigger Dir(vm'.mem, pd, d)} :: Dir(vm'.mem, pd, d) == Dir(vm.mem, pd, d)
  {
    SetPteAt(vm, pd, v, e, vm'.mem);
    RewriteTables(vm, vm', pd, v, e);
    assert TabOk(vm, pd, v / NENTRIES);
    forall qd: nat, w: nat | IsSpace(vm, qd) && !(qd == pd && w == v) ensures SamePage(vm, vm', qd, w) {
      if w < USERPAGES { assert UserOk(vm, qd, w); }
    }
  }

  lemma {:induction false} AddTableTouch(vm: Vm, pd: nat, d: nat, f: nat)
    requires Tables(vm) && IsSpace(vm, pd) && IsTable(vm.mem, pd) && d < NENTRIES && Dir(vm.mem, pd, d) == Absent
    requires f in vm.own && vm.own[f] == Held
    ensures Touch(vm, AddTable(vm, pd, d, f), pd, 0, 0)
  {
    var vm' := AddTable(vm, pd, d, f);
    AddTableAt(vm, pd, d, f);
    AddTableTables(vm, pd, d, f);
    forall qd: nat, w: nat | IsSpace(vm, qd) ensures SamePage(vm, vm', qd, w) {
      if w < USERPAGES { assert UserOk(vm, qd, w); }
    }
  }

  /** CONTIGUITY. Of the user pages from lo on, those below n are mapped. */
  ghost predicate Contig(m: Mem, pd: nat, lo: nat, n: nat)
  {
    && n <= USERPAGES
    && forall v: nat {:trigger Entry(m, pd, v)} :: lo <= v < USERPAGES ==> (Entry(m, pd, v).Present? <==> v < n)
  }

  /** PGROUNDUP, in pages. */
  function Pages(sz: nat): nat { (sz + PGSIZE - 1) / PGSIZE }

  // ----- where pages went -----

  /** Page f is part of address space pd. */
  predicate Belongs(o: Owner, f: nat, pd: nat)
  {
    match o
    case Root => f == pd
    case Tab(qd, _) => qd == pd
    case User(qd, _) => qd == pd
    case _ => false
  }

  /** Pages went only between the free list and pd, apart from those in `except`. */
  ghost predicate Moved(own: map<nat, Owner>, own': map<nat, Owner>, pd: nat, except: set<nat>)
  {
    && own'.Keys == own.Keys
    && forall f :: f in own && f !in except ==>
         own'[f] == own[f] || ((own[f] == Free || Belongs(own[f], f, pd))
             && (own'[f] == Free || Belongs(own'[f], f, pd)))
  }

  lemma {:induction false} PopTouch(vm: Vm, pd: nat)
    requires Inv(vm) && |vm.free| > 0
    ensures Touch(vm, Pop(vm), pd, 0, 0) && Moved(vm.own, Pop(vm).own, pd, {vm.free[0]})
  {
    InMem(vm, vm.free[0]);
    LooseTouch(vm, Pop(vm), vm.free[0], pd);
  }

  /** Address space pd may have taken pages from the free list; nothing else moved, and held pages kept their
      contents. */
  ghost predicate Takes(vm: Vm, vm': Vm, pd: nat)
  {
    && vm'.own.Keys == vm.own.Keys
    && (forall f :: f in vm.own ==> vm'.own[f] == vm.own[f] || (vm.own[f] == Free && Belongs(vm'.own[f], f, pd)))
    && (forall f :: f in vm.own && vm.own[f] == Held ==> f in vm.mem && f in vm'.mem && vm'.mem[f] == vm.mem[f])
  }

  /** walkpgdir found or made the table for page v of pd: no address space shows a difference, and a new table
      took one page from the free list. */
  ghost predicate Walked(vm: Vm, vm': Vm, pd: nat, v: nat)
  {
    && Inv(vm') && Touch(vm, vm', pd, 0, 0) && Takes(vm, vm', pd)
    && Dir(vm'.mem, pd, v / NENTRIES).Present?
    && (forall d: nat {:trigger Dir(vm'.mem, pd, d)} :: d != v / NENTRIES ==> Dir(vm'.mem, pd, d) == Dir(vm.mem, pd, d))
    && |vm'.free| == |vm.free| - (if Dir(vm.mem, pd, v / NENTRIES).Present? then 0 else 1)
  }

  lemma {:induction false} WalkedSame(vm: Vm, pd: nat, v: nat)
    requires Inv(vm) && Dir(vm.mem, pd, v / NENTRIES).Present?
    ensures Walked(vm, vm, pd, v)
  {
    TouchRefl(vm, pd, 0, 0);
  }

  lemma {:induction false} WalkedInv(vm: Vm, vm': Vm, pd: nat, v: nat)
    requires Walked(vm, vm', pd, v)
    ensures Inv(vm')
  {}

  lemma {:induction false} WalkedNew(vm: Vm, pd: nat, v: nat)
    requires Inv(vm) && IsSpace(vm, pd) && v < ALLPAGES && Dir(vm.mem, pd, v / NENTRIES) == Absent && |vm.free| > 0
    ensures IsTable(vm.mem, pd) && Walked(vm, AddTable(Pop(vm), pd, v / NENTRIES, vm.free[0]), pd, v)
  {
    var w, f := Pop(vm), vm.free[0];
    InMem(vm, pd);
    PopInv(vm);
    PopTouch(vm, pd);
    InMem(w, pd);
    var vm' := AddTable(w, pd, v / NENTRIES, f);
    AddTableTables(w, pd, v / NENTRIES, f);
    AddTableTouch(w, pd, v / NENTRIES, f);
    AddTableAt(w, pd, v / NENTRIES, f);
    TouchTrans(vm, w, vm', pd, 0, 0);
    assert FreeOk(vm'.free, vm'.own);
  }
}

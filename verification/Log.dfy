/** The in-memory log of log.c, issuing its block writes through the buffer cache. */
module Log {
  import opened Basics
  import opened Blocks
  import opened LogSpec
  import opened BufferCache
  import opened LogReservation
  import opened Params

  ghost function Elements(s: seq<nat>): set<nat> { set i | 0 <= i < |s| :: s[i] }

  ghost function ValuesOf(current: Disk, blocks: seq<nat>): (v: seq<Block>)
    requires forall i :: 0 <= i < |blocks| ==> blocks[i] < |current|
    ensures |v| == |blocks| && forall i :: 0 <= i < |v| ==> v[i] == current[blocks[i]]
  {
    seq(|blocks|, i requires 0 <= i < |blocks| => current[blocks[i]])
  }

  /** The first k writes of `ws` have been issued after `w0`. */
  ghost predicate Issued(w0: seq<Write>, ws: seq<Write>, k: nat, writes: seq<Write>)
  {
    && k <= |ws| && |writes| == |w0| + k
    && w0 <= writes <= w0 + ws
  }

  lemma {:induction false} IssueOne(w0: seq<Write>, ws: seq<Write>, k: nat, writes: seq<Write>)
    requires Issued(w0, ws, k, writes) && k < |ws|
    ensures Issued(w0, ws, k + 1, writes + [ws[k]])
  {
    assert (w0 + ws)[|writes|] == ws[k];
  }

  lemma {:induction false} IssuedLeft(w0: seq<Write>, u: seq<Write>, v: seq<Write>, k: nat, writes: seq<Write>)
    requires Issued(w0, u, k, writes)
    ensures Issued(w0, u + v, k, writes)
  {
    assert w0 + (u + v) == (w0 + u) + v;
  }

  lemma {:induction false} IssuedRight(w0: seq<Write>, u: seq<Write>, w1: seq<Write>, v: seq<Write>, k: nat,
                                       writes: seq<Write>)
    requires Issued(w0, u, |u|, w1) && Issued(w1, v, k, writes)
    ensures Issued(w0, u + v, |u| + k, writes)
  {
    assert w1 == w0 + u;
    assert w0 + (u + v) == w1 + v;
  }

  /** write_log after `tail` turns: so many slots written, no home block and no header changed. */
  ghost predicate SlotsDone(a: Area, vals: seq<Block>, w0: seq<Write>, c0: Disk, tail: nat, writes: seq<Write>,
                            current: Disk)
  {
    && tail <= |vals| && a.start + |vals| < |c0| == |current|
    && Issued(w0, SlotWrites(a, vals), tail, writes)
    && SameHome(a, current, c0) && current[a.start] == c0[a.start]
    && forall i :: 0 <= i < tail ==> current[a.start + 1 + i] == vals[i]
  }

  lemma {:induction false} SlotsStep(a: Area, blocks: seq<nat>, vals: seq<Block>, w0: seq<Write>, c0: Disk, tail: nat,
                                     writes: seq<Write>, current: Disk)
    requires Loggable(a, c0, blocks) && vals == ValuesOf(c0, blocks) && tail < |vals|
    requires SlotsDone(a, vals, w0, c0, tail, writes, current)
    ensures blocks[tail] < |current| && current[blocks[tail]] == vals[tail]
    ensures SlotsDone(a, vals, w0, c0, tail + 1, writes + [Write(a.start + tail + 1, vals[tail])],
                      current[a.start + tail + 1 := vals[tail]])
  {
    IssueOne(w0, SlotWrites(a, vals), tail, writes);
    assert !InLog(a, blocks[tail]);
  }

  lemma {:induction false} SlotsStart(a: Area, vals: seq<Block>, w: seq<Write>, c: Disk)
    requires a.start + |vals| < |c|
    ensures SlotsDone(a, vals, w, c, 0, w, c)
  {}

  lemma {:induction false} SlotsIssued(a: Area, vals: seq<Block>, w0: seq<Write>, c0: Disk, tail: nat,
                                       writes: seq<Write>, current: Disk)
    requires SlotsDone(a, vals, w0, c0, tail, writes, current)
    ensures Issued(w0, SlotWrites(a, vals), tail, writes)
  {}

  ghost function SlotValues(a: Area, current: Disk, n: nat): (v: seq<Block>)
    requires a.start + n < |current|
    ensures |v| == n && forall i :: 0 <= i < n ==> v[i] == current[a.start + 1 + i]
  {
    seq(n, i requires 0 <= i < n => current[a.start + 1 + i])
  }

  /** install_trans after `tail` turns: so many home blocks written, the log as it was. */
  ghost predicate HomesDone(a: Area, blocks: seq<nat>, vals: seq<Block>, w0: seq<Write>, c0: Disk, tail: nat,
                            writes: seq<Write>, current: Disk)
  {
    && tail <= |vals| == |blocks| && a.start + |vals| < |c0| == |current|
    && Issued(w0, HomeWrites(blocks, vals), tail, writes)
    && SameLog(a, current, c0)
    && current == Apply(c0, HomeWrites(blocks, vals), tail)
  }

  lemma {:induction false} HomesStep(a: Area, blocks: seq<nat>, vals: seq<Block>, w0: seq<Write>, c0: Disk, tail: nat,
                                     writes: seq<Write>, current: Disk)
    requires Loggable(a, c0, blocks) && |vals| == |blocks| && tail < |vals| && vals == SlotValues(a, c0, |vals|)
    requires HomesDone(a, blocks, vals, w0, c0, tail, writes, current)
    ensures current[a.start + tail + 1] == vals[tail] && blocks[tail] < |current|
    ensures HomesDone(a, blocks, vals, w0, c0, tail + 1, writes + [Write(blocks[tail], vals[tail])],
                      current[blocks[tail] := vals[tail]])
  {
    IssueOne(w0, HomeWrites(blocks, vals), tail, writes);
    assert InLog(a, a.start + 1 + tail);
    assert !InLog(a, blocks[tail]);
  }

  lemma {:induction false} HomesStart(a: Area, blocks: seq<nat>, vals: seq<Block>, w: seq<Write>, c: Disk)
    requires |vals| == |blocks| && a.start + |vals| < |c|
    ensures HomesDone(a, blocks, vals, w, c, 0, w, c)
  {}

  lemma {:induction false} HomesIssued(a: Area, blocks: seq<nat>, vals: seq<Block>, w0: seq<Write>, c0: Disk, tail: nat,
                                       writes: seq<Write>, current: Disk)
    requires |vals| == |blocks| && HomesDone(a, blocks, vals, w0, c0, tail, writes, current)
    ensures Issued(w0, HomeWrites(blocks, vals), tail, writes)
  {}

  /** The blocks from `tail` on are pinned, or none is. */
  ghost predicate AllPinnedOrNone(bufs: seq<Buf>, blocks: seq<nat>, tail: nat)
  {
    forall i :: tail <= i < |blocks| ==> PinnedOrNone(bufs, blocks[i])
  }

  lemma {:induction false} NextPinned(bufs: seq<Buf>, blocks: seq<nat>, tail: nat)
    requires AllPinnedOrNone(bufs, blocks, tail) && tail < |blocks|
    ensures PinnedOrNone(bufs, blocks[tail])
  {}

  lemma {:induction false} PrimedAll(bufs: seq<Buf>, blocks: seq<nat>)
    requires Elements(blocks) <= Pinned(bufs)
    ensures AllPinnedOrNone(bufs, blocks, 0)
  {
    hide Pinned;
    forall i | 0 <= i < |blocks| ensures PinnedOrNone(bufs, blocks[i]) { assert blocks[i] in Elements(blocks); }
  }

  /** Unpinning one block leaves the others pinned. */
  lemma {:induction false} RestPinned(before: seq<Buf>, after: seq<Buf>, blocks: seq<nat>, tail: nat)
    requires AllPinnedOrNone(before, blocks, tail) && tail < |blocks| && (Distinct(blocks) || Pinned(before) == {})
    requires Pinned(after) == Pinned(before) - {blocks[tail]}
    ensures AllPinnedOrNone(after, blocks, tail + 1)
  {
    hide Pinned;
  }

  lemma {:induction false} RewriteSame(c: Disk, blocks: seq<nat>, vals: seq<Block>, k: nat)
    requires k <= |blocks| == |vals|
    requires forall i :: 0 <= i < |blocks| ==> blocks[i] < |c| && c[blocks[i]] == vals[i]
    ensures Apply(c, HomeWrites(blocks, vals), k) == c
  {
    if k > 0 { RewriteSame(c, blocks, vals, k - 1); }
  }

  /** With nothing pinned and nothing being changed the cache shows the disk. */
  lemma {:induction false} AllClean(bufs: seq<Buf>, touched: set<nat>, disk: Disk, current: Disk)
    requires Coherent(bufs, touched, disk, current) && touched == {} && Pinned(bufs) == {}
    ensures current == disk
  {
    forall n: nat | n < |disk| ensures current[n] == disk[n] { CleanAgrees(bufs, touched, disk, current, n); }
  }

  ghost function HeadBlocks(a: Area, d: Disk): (s: seq<nat>)
    requires GoodHead(a, d)
    ensures Loggable(a, d, s)
  {
    seq(HeadN(d[a.start]), i requires 0 <= i < HeadN(d[a.start]) => HeadBlock(d[a.start], i))
  }

  lemma {:induction false} RecoveryIsInstall(a: Area, d: Disk, n: nat)
    requires GoodHead(a, d) && n == HeadN(d[a.start])
    ensures RecoveryWrites(a, d) ==
            HomeWrites(HeadBlocks(a, d), SlotValues(a, d, n)) + [Write(a.start, FillHead(d[a.start], []))]
  {
    assert InstallWrites(a, d) == HomeWrites(HeadBlocks(a, d), SlotValues(a, d, n));
  }

  /** Log absorption: a block already listed is not listed again. */
  ghost function Absorb(blocks: seq<nat>, bno: nat): seq<nat>
  {
    if bno in blocks then blocks else blocks + [bno]
  }

  /** What log_write's store does to the list: position i is the first occurrence, or the end. */
  lemma {:induction false} AbsorbIs(block: seq<nat>, n: nat, i: nat, bno: nat)
    requires i <= n < |block| && (forall j :: 0 <= j < i ==> block[j] != bno)
    requires i < n ==> block[i] == bno
    requires Distinct(block[..n])
    ensures var n' := if i == n then n + 1 else n;
            && block[i := bno][..n'] == Absorb(block[..n], bno)
            && Distinct(block[i := bno][..n'])
            && Elements(block[i := bno][..n']) == Elements(block[..n]) + {bno}
  {
    var n' := if i == n then n + 1 else n;
    var s, t := block[..n], block[i := bno][..n'];
    if i < n {
      assert t == s && s[i] == bno;
    } else {
      assert t == s + [bno];
      assert forall x :: x in Elements(t) <==> x in Elements(s) || x == bno by {
        assert t[n] == bno && forall j :: 0 <= j < n ==> t[j] == s[j];
      }
    }
  }

  lemma {:induction false} PinAdds(bufs: seq<Buf>, b: nat)
    requires b < |bufs| && bufs[b].dev == ROOTDEV
    ensures Pinned(bufs[b := bufs[b].(dirty := true)]) == Pinned(bufs) + {bufs[b].blockno}
  {
    var c := bufs[b := bufs[b].(dirty := true)];
    assert c[b].blockno in Pinned(c);
    assert forall i :: 0 <= i < |bufs| ==> c[i].blockno == bufs[i].blockno && (bufs[i].dirty ==> c[i].dirty);
    assert forall i :: 0 <= i < |bufs| && c[i].dirty ==> bufs[i].dirty || i == b;
  }

  lemma {:induction false} ReleasePinned(bufs: seq<Buf>, b: nat)
    requires b < |bufs|
    ensures Pinned(bufs[b := bufs[b].(busy := false)]) == Pinned(bufs)
  {
    var c := bufs[b := bufs[b].(busy := false)];
    assert forall i :: 0 <= i < |bufs| ==> c[i] == bufs[i].(busy := c[i].busy);
  }

  lemma {:induction false} ApplyPrefix(d: Disk, u: seq<Write>, v: seq<Write>, k: nat)
    requires k <= |u| && u <= v
    ensures Apply(d, u, k) == Apply(d, v, k)
  {
    if k > 0 { ApplyPrefix(d, u, v, k - 1); }
  }

  /** The link from the running code to the crash theorem: stop the machine after any j block writes since
      the cache started and at or after the start of a commit that got as far as `writes`. */
  lemma {:induction false} CrashDuringCommit(a: Area, boot: Disk, w0: seq<Write>, blocks: seq<nat>, vals: seq<Block>,
                                             writes: seq<Write>, k: nat, j: nat, crashes: seq<nat>)
    requires var d := ApplyAll(boot, w0);
             && Loggable(a, d, blocks) && |blocks| == |vals| && Cleared(a, d)
             && Issued(w0, CommitWrites(a, d, blocks, vals), k, writes)
    requires |w0| <= j <= |writes|
    ensures var d := ApplyAll(boot, w0);
            RecoversTo(a, Apply(boot, writes, j), crashes,
                       if j - |w0| <= |blocks| then d else Installed(d, blocks, vals))
  {
    hide CommitWrites;
    hide RecoverAfter;
    hide Installed;
    var d := ApplyAll(boot, w0);
    var ws := CommitWrites(a, d, blocks, vals);
    ApplyPrefix(boot, writes, w0 + ws, j);
    ApplyRight(boot, w0, ws, j - |w0|);
    CrashAtomicity(a, d, blocks, vals, j - |w0|, crashes);
  }

  lemma {:induction false} CommitSplit(a: Area, d: Disk, blocks: seq<nat>, vals: seq<Block>)
    requires Loggable(a, d, blocks) && |blocks| == |vals| && blocks != []
    ensures var clear := Write(a.start, FillHead(FillHead(d[a.start], blocks), []));
            CommitWrites(a, d, blocks, vals) == LogAndHead(a, d, blocks, vals) + (HomeWrites(blocks, vals) + [clear])
    ensures |LogAndHead(a, d, blocks, vals)| == |blocks| + 1 && |HomeWrites(blocks, vals)| == |blocks|
  {}

  /** NBUF == LOGSIZE: three operations that keep to their reservation can log as many blocks as there are buffers,
      or panic in log_write before that, whatever the size of the region. Commit then finds no buffer for the first
      slot (see Log.Commit). */
  lemma {:induction false} EveryRegionFills(size: nat)
    ensures exists procs: nat, sched: nat -> Step, k: nat ::
              var s := After(Initial(procs), sched, size, MAXOPBLOCKS, k);
              s.panicked || (s.n == NBUF && s.outstanding > 0)
  {
    hide After;
    if size < LOGSIZE + 1 {
      FilledPanics(size, MAXOPBLOCKS);
    } else {
      FillsUp(size, MAXOPBLOCKS, LOGSIZE);
      var s := After(Initial(3), Filling, size, MAXOPBLOCKS, 6 + 2 * LOGSIZE);
      assert s.n == NBUF && s.outstanding > 0;
    }
  }

  class Log {
    const bc: Cache
    const a: Area
    var n: nat
    var block: seq<nat>            // int block[LOGSIZE]
    var outstanding: int
    var committing: bool

    /** The log between two of its own steps: no buffer is being changed. */
    ghost predicate Sound()
      reads this, bc
    {
      && bc.Valid() && bc.touched == {} && Fits(a, bc.disk) && |bc.current| == |bc.disk|
      && |block| == LOGSIZE && n <= LOGSIZE && Loggable(a, bc.disk, block[..n])
    }

    /** No other process uses the cache, and no buffer is held. */
    ghost predicate Calm()
      reads this, bc
    {
      bc.Alone() && NoneBusy(bc.bufs)
    }

    constructor (cache: Cache, area: Area)
      requires cache.Valid() && cache.touched == {} && Fits(area, cache.disk)
      ensures bc == cache && a == area && n == 0 && outstanding == 0 && !committing && Sound()
    {
      bc, a, n, outstanding, committing := cache, area, 0, 0, false;
      block := seq(LOGSIZE, _ => 0);
    }

    /** write_head: the header block is read, filled in, written and released. */
    method WriteHead() returns (ok: bool)
      requires Sound()
      modifies bc
      ensures bc.Valid()
      ensures old(Calm() && HasClean(bc.bufs)) ==> ok && Calm() && HasClean(bc.bufs)
      ensures !ok ==> bc.writes == old(bc.writes)
      ensures ok ==> && Sound() && Pinned(bc.bufs) == Pinned(old(bc.bufs)) - {a.start}
                     && a.start < |old(bc.current)|
                     && var h := FillHead(old(bc.current)[a.start], block[..n]);
                        && bc.writes == old(bc.writes) + [Write(a.start, h)]
                        && bc.disk == old(bc.disk)[a.start := h]
                        && bc.current == old(bc.current)[a.start := h]
    {
      var r := bc.Bread(a.start, {});
      if !r.Hold? { return false; }
      OnlyReadPinned(old(bc.bufs), bc.bufs, {});
      var h := FillHeader(bc.bufs[r.b].data);
      bc.Overwrite(r.b, h);
      ReleasePinned(bc.bufs, r.b);
      ok := bc.Brelse(r.b);
    }

    /** The stores of write_head into the header block. */
    method FillHeader(h0: Block) returns (h: Block)
      requires |block| == LOGSIZE && n <= LOGSIZE && forall i :: 0 <= i < n ==> block[i] < UINT
      ensures h == FillHead(h0, block[..n])
    {
      h := PutWord(h0, 0, n);
      var i := 0;
      while i < n
        invariant 0 <= i <= n
        invariant h == FillBlocks(PutWord(h0, 0, n), block[..n], i)
      {
        h := PutWord(h, i + 1, block[i]);
        i := i + 1;
      }
    }

    /** bread of two blocks, one after the other. */
    method BreadTwo(m: nat, n: nat) returns (ok: bool, x: nat, y: nat)
      requires bc.Valid() && bc.touched == {}
      modifies bc
      ensures bc.Valid() && Pinned(bc.bufs) == Pinned(old(bc.bufs))
      ensures bc.touched == {} && bc.disk == old(bc.disk) && bc.current == old(bc.current)
      ensures bc.writes == old(bc.writes)
      ensures ok ==> x < NBUF && y < NBUF && x != y && Holds(x, m) && Holds(y, n)
      ensures old(Calm() && HasClean(bc.bufs)) && m < |bc.disk| && n < |bc.disk| && m != n
              && PinnedOrNone(old(bc.bufs), n) ==>
                ok && bc.Alone() && OnlyBusy(bc.bufs, {x, y})
      ensures old(Calm() && !HasClean(bc.bufs)) && m !in Pinned(bc.bufs) ==> !ok
    {
      hide Cache.Valid;
      hide Pinned;
      hide PinnedOrNone;
      hide HasClean;
      hide OnlyBusy;
      hide NoneBusy;
      hide OnlyRead;
      hide CanGet;
      ok, x, y := false, 0, 0;
      bc.GetsFirst(m);
      bc.NoneDirty();
      var r := bc.Bread(m, {});
      OnlyReadPinned(old(bc.bufs), bc.bufs, {});
      if !r.Hold? { return; }
      ghost var mid := bc.bufs;
      if old(Calm()) && m != n && PinnedOrNone(old(bc.bufs), n) { SecondGets(old(bc.bufs), mid, r.b, m, n); }
      var s := bc.Bread(n, {r.b});
      OnlyReadPinned(mid, bc.bufs, {r.b});
      if !s.Hold? { return; }
      if old(Calm()) { TwoBusy(old(bc.bufs), mid, bc.bufs, r.b, s.b); }
      HeldStays(mid, bc.bufs, r.b);
      return true, r.b, s.b;
    }

    /** The caller holds block n in buffer b. */
    ghost predicate Holds(b: nat, n: nat)
      reads bc
    {
      b < |bc.bufs| && n < |bc.current| && IsFor(bc.bufs[b], n) && bc.bufs[b].busy && bc.bufs[b].data == bc.current[n]
    }

    /** memmove from one held buffer to another, bwrite, and brelse of both. */
    method CopyBuf(from: nat, to: nat, ghost src: nat, ghost dst: nat)
      requires Sound() && from < NBUF && to < NBUF && from != to && Holds(from, src) && Holds(to, dst)
      modifies bc
      ensures bc.Valid() && Copied(old(bc.bufs), old(bc.disk), old(bc.current), old(bc.writes), dst, src)
      ensures HasClean(bc.bufs) && (old(OnlyBusy(bc.bufs, {from, to})) ==> NoneBusy(bc.bufs))
    {
      bc.Overwrite(to, bc.bufs[from].data);
      ReleaseBoth(from, to);
      assert !bc.bufs[to].dirty;
    }

    /** One turn of write_log's loop: the slot is read first, then the logged block. */
    method CopyToSlot(dst: nat, src: nat) returns (ok: bool)
      requires Sound() && src < |bc.current|
      modifies bc
      ensures bc.Valid()
      ensures old(Calm() && HasClean(bc.bufs)) && dst < |old(bc.disk)| && dst != src && src in Pinned(old(bc.bufs)) ==>
                ok && Calm() && HasClean(bc.bufs)
      ensures old(Calm() && !HasClean(bc.bufs)) && dst !in Pinned(old(bc.bufs)) ==> !ok
      ensures !ok ==> bc.writes == old(bc.writes)
      ensures ok ==> Copied(old(bc.bufs), old(bc.disk), old(bc.current), old(bc.writes), dst, src)
    {
      hide Cache.Valid;
      hide Pinned;
      hide PinnedOrNone;
      hide HasClean;
      hide OnlyBusy;
      hide NoneBusy;
      var to, from;
      if src in Pinned(bc.bufs) { PinnedNow(bc.bufs, src); }
      ok, to, from := BreadTwo(dst, src);
      assert {to, from} == {from, to};
      if ok { CopyBuf(from, to, src, dst); }
    }

    /** One turn of install_trans's loop: the slot is read first, then the home block. */
    method CopyFromSlot(dst: nat, src: nat) returns (ok: bool)
      requires Sound() && src < |bc.current|
      modifies bc
      ensures bc.Valid()
      ensures old(Calm() && HasClean(bc.bufs)) && dst < |old(bc.disk)| && dst != src
              && PinnedOrNone(old(bc.bufs), dst) ==>
                ok && Calm() && HasClean(bc.bufs)
      ensures !ok ==> bc.writes == old(bc.writes)
      ensures ok ==> Copied(old(bc.bufs), old(bc.disk), old(bc.current), old(bc.writes), dst, src)
    {
      hide Cache.Valid;
      hide Pinned;
      hide PinnedOrNone;
      hide HasClean;
      hide OnlyBusy;
      hide NoneBusy;
      var from, to;
      ok, from, to := BreadTwo(src, dst);
      if ok { CopyBuf(from, to, src, dst); }
    }

    /** Block `src` was copied to block `dst` on the disk, and no buffer stays held by it. */
    ghost predicate Copied(bufs: seq<Buf>, disk: Disk, current: Disk, writes: seq<Write>, dst: nat, src: nat)
      reads this, bc
    {
      && Sound() && Pinned(bc.bufs) == Pinned(bufs) - {dst}
      && src < |current| && dst < |current| == |disk|
      && bc.writes == writes + [Write(dst, current[src])]
      && bc.disk == disk[dst := current[src]]
      && bc.current == current[dst := current[src]]
    }

    method ReleaseBoth(x: nat, y: nat)
      requires bc.Valid() && x < NBUF && y < NBUF && x != y && bc.bufs[x].busy && bc.bufs[y].busy
      requires x !in bc.touched && y !in bc.touched
      modifies bc`bufs, bc`next, bc`prev, bc`order, bc`stamp, bc`now
      ensures bc.Valid() && Pinned(bc.bufs) == Pinned(old(bc.bufs))
      ensures bc.bufs == old(bc.bufs)[x := old(bc.bufs)[x].(busy := false)][y := old(bc.bufs)[y].(busy := false)]
    {
      ReleasePinned(bc.bufs, x);
      var _ := bc.Brelse(x);
      ReleasePinned(bc.bufs, y);
      var _ := bc.Brelse(y);
    }

    /** Nobody else is about, a buffer is clean, and the logged blocks are pinned. */
    ghost predicate Primed()
      reads this, bc
    {
      n <= |block| && Calm() && HasClean(bc.bufs) && Elements(block[..n]) <= Pinned(bc.bufs)
    }

    /** write_log: the logged blocks are copied, in order, to the slots. */
    method WriteLog() returns (ok: bool, ghost k: nat)
      requires Sound()
      modifies bc
      ensures bc.Valid()
      ensures old(Primed()) ==> ok && Primed()
      ensures old(Calm() && !HasClean(bc.bufs)) && n > 0 && (forall b :: b in Pinned(old(bc.bufs)) ==> !InLog(a, b)) ==>
                !ok
      ensures var vals := ValuesOf(old(bc.current), block[..n]);
              && Issued(old(bc.writes), SlotWrites(a, vals), k, bc.writes)
              && (ok ==> Sound() && Pinned(bc.bufs) <= Pinned(old(bc.bufs)))
              && (ok ==> k == n && SlotsDone(a, vals, old(bc.writes), old(bc.current), n, bc.writes, bc.current))
    {
      hide Cache.Valid;
      hide Pinned;
      hide HasClean;
      hide NoneBusy;
      hide SlotsDone;
      ghost var vals := ValuesOf(bc.current, block[..n]);
      SlotsStart(a, vals, bc.writes, bc.current);
      var tail := 0;
      while tail < n
        invariant 0 <= tail <= n && Sound() && Pinned(bc.bufs) <= Pinned(old(bc.bufs))
        invariant SlotsDone(a, vals, old(bc.writes), old(bc.current), tail, bc.writes, bc.current)
        invariant old(Primed()) ==> Primed()
        invariant tail == 0 ==> bc.bufs == old(bc.bufs)
        invariant old(Calm() && !HasClean(bc.bufs)) && (forall b :: b in Pinned(old(bc.bufs)) ==> !InLog(a, b)) ==>
                    tail == 0
      {
        SlotsStep(a, block[..n], vals, old(bc.writes), old(bc.current), tail, bc.writes, bc.current);
        SlotsIssued(a, vals, old(bc.writes), old(bc.current), tail, bc.writes, bc.current);
        assert block[..n][tail] == block[tail] && block[tail] in Elements(block[..n]);
        assert InLog(a, a.start + tail + 1) && !InLog(a, block[tail]);
        ok := CopyToSlot(a.start + tail + 1, block[tail]);
        if !ok { return false, tail; }
        assert forall i :: 0 <= i < n ==> block[..n][i] != a.start + tail + 1;
        tail := tail + 1;
      }
      SlotsIssued(a, vals, old(bc.writes), old(bc.current), n, bc.writes, bc.current);
      return true, n;
    }

    /** install_trans: the slots are copied, in order, to the home blocks, which are thereby unpinned. */
    method InstallTrans(ghost vals: seq<Block>) returns (ok: bool, ghost k: nat)
      requires Sound() && vals == SlotValues(a, bc.current, n)
      modifies bc
      ensures bc.Valid()
      ensures old(Calm() && HasClean(bc.bufs)) && (Distinct(block[..n]) || Pinned(old(bc.bufs)) == {})
              && AllPinnedOrNone(old(bc.bufs), block[..n], 0) ==>
                ok && Calm() && HasClean(bc.bufs)
      ensures Issued(old(bc.writes), HomeWrites(block[..n], vals), k, bc.writes)
      ensures ok ==>
                && k == n && Sound()
                && HomesDone(a, block[..n], vals, old(bc.writes), old(bc.current), n, bc.writes, bc.current)
      ensures ok ==> Pinned(bc.bufs) <= Pinned(old(bc.bufs)) - Elements(block[..n])
    {
      hide Cache.Valid;
      hide Pinned;
      hide HasClean;
      hide NoneBusy;
      hide HomesDone;
      hide PinnedOrNone;
      hide AllPinnedOrNone;
      ghost var blocks := block[..n];
      HomesStart(a, blocks, vals, bc.writes, bc.current);
      ghost var good := Calm() && HasClean(bc.bufs) && (Distinct(blocks) || Pinned(bc.bufs) == {})
          && AllPinnedOrNone(bc.bufs, blocks, 0);
      var tail := 0;
      while tail < n
        invariant 0 <= tail <= n && Sound()
        invariant Pinned(bc.bufs) <= Pinned(old(bc.bufs))
        invariant forall i :: 0 <= i < tail ==> block[i] !in Pinned(bc.bufs)
        invariant HomesDone(a, blocks, vals, old(bc.writes), old(bc.current), tail, bc.writes, bc.current)
        invariant good ==>
                    && Calm() && HasClean(bc.bufs) && (Distinct(blocks) || Pinned(bc.bufs) == {})
                    && AllPinnedOrNone(bc.bufs, blocks, tail)
      {
        HomesStep(a, blocks, vals, old(bc.writes), old(bc.current), tail, bc.writes, bc.current);
        HomesIssued(a, blocks, vals, old(bc.writes), old(bc.current), tail, bc.writes, bc.current);
        ghost var was := bc.bufs;
        if good { NextPinned(was, blocks, tail); }
        ok := CopyFromSlot(block[tail], a.start + tail + 1);
        if !ok { return false, tail; }
        if good { RestPinned(was, bc.bufs, blocks, tail); }
        tail := tail + 1;
      }
      HomesIssued(a, blocks, vals, old(bc.writes), old(bc.current), n, bc.writes, bc.current);
      return true, n;
    }

    /** The log between transactions' steps: what it lists is exactly what is pinned in the cache, and the
        header on disk says that there is nothing to recover. */
    ghost predicate Valid()
      reads this, bc
    {
      Sound() && Listed() && Cleared(a, bc.disk)
    }

    /** write_log and write_head: the transaction is in the log. */
    method WriteLogAndHead() returns (ok: bool, ghost k: nat)
      requires Sound() && bc.current[a.start] == bc.disk[a.start]
      modifies bc
      ensures bc.Valid()
      ensures old(Primed()) ==> ok && Primed()
      ensures old(Calm() && !HasClean(bc.bufs)) && n > 0 && (forall b :: b in Pinned(old(bc.bufs)) ==> !InLog(a, b)) ==>
                !ok
      ensures Loggable(a, old(bc.disk), block[..n])
      ensures var vals := ValuesOf(old(bc.current), block[..n]);
              && Issued(old(bc.writes), LogAndHead(a, old(bc.disk), block[..n], vals), k, bc.writes)
              && (ok ==> k == n + 1 && Sound() && Pinned(bc.bufs) <= Pinned(old(bc.bufs)))
              && (ok ==> SameHome(a, bc.current, old(bc.current)) && vals == SlotValues(a, bc.current, n))
              && (ok ==> bc.current[a.start] == FillHead(old(bc.disk)[a.start], block[..n]))
    {
      hide Cache.Valid;
      hide Pinned;
      hide HasClean;
      hide FillHead;
      hide NoneBusy;
      ghost var vals := ValuesOf(bc.current, block[..n]);
      ghost var u := SlotWrites(a, vals);
      ghost var v := [Write(a.start, FillHead(bc.disk[a.start], block[..n]))];
      ok, k := WriteLog();
      IssuedLeft(old(bc.writes), u, v, k, bc.writes);
      if !ok { return; }
      ghost var w1 := bc.writes;
      assert forall i :: 0 <= i < n ==> block[..n][i] != a.start;
      ok := WriteHead();
      if !ok { return; }
      k := n + 1;
      IssueOne(w1, v, 0, w1);
      IssuedRight(old(bc.writes), u, w1, v, 1, bc.writes);
      assert vals == SlotValues(a, bc.current, n);
    }

    /** install_trans, `log.lh.n = 0` and write_head: the tail of commit and of recover_from_log. */
    method InstallAndClear(ghost vals: seq<Block>) returns (ok: bool, ghost k: nat)
      requires Sound() && vals == SlotValues(a, bc.current, n)
      modifies this`n, bc
      ensures bc.Valid()
      ensures old(Calm() && HasClean(bc.bufs) && (Distinct(block[..n]) || Pinned(bc.bufs) == {})
              && AllPinnedOrNone(bc.bufs, block[..n], 0)) ==>
                ok && Calm()
      ensures Loggable(a, old(bc.disk), old(block[..n]))
      ensures var blocks, clear := old(block[..n]), Write(a.start, FillHead(old(bc.current)[a.start], []));
              && Issued(old(bc.writes), HomeWrites(blocks, vals) + [clear], k, bc.writes)
              && (ok ==> k == |blocks| + 1 && n == 0 && Sound())
              && (ok ==> Pinned(bc.bufs) <= Pinned(old(bc.bufs)) - Elements(blocks))
              && (ok ==> Cleared(a, bc.disk))
              && (ok ==> SameHome(a, bc.current, Apply(old(bc.current), HomeWrites(blocks, vals), |blocks|)))
    {
      hide Cache.Valid;
      hide Pinned;
      hide HasClean;
      hide NoneBusy;
      hide AllPinnedOrNone;
      ghost var blocks, n0 := block[..n], n;
      ghost var u, v := HomeWrites(blocks, vals), [Write(a.start, FillHead(bc.current[a.start], []))];
      ok, k := InstallTrans(vals);
      IssuedLeft(old(bc.writes), u, v, k, bc.writes);
      if !ok { return; }
      ghost var w1 := bc.writes;
      assert InLog(a, a.start);
      n := 0;
      assert block[..n] == [];
      ok := WriteHead();
      if !ok { return; }
      k := n0 + 1;
      IssueOne(w1, v, 0, w1);
      IssuedRight(old(bc.writes), u, w1, v, 1, bc.writes);
    }

    /** commit. Whatever happens, what reached the disk is the first k of the commit's writes; if nobody
        panics or sleeps for good, all of them did, the log is empty and nothing stays pinned. Undisturbed, it
        gets through if and only if fewer blocks are logged than there are buffers. */
    method Commit() returns (ok: bool, ghost k: nat)
      requires Valid()
      modifies this`n, bc
      ensures bc.Valid()
      ensures old(Calm()) ==> (ok <==> old(n) < NBUF) && (ok ==> Calm())
      ensures Loggable(a, old(bc.disk), old(block[..n]))
      ensures var ws := CommitWrites(a, old(bc.disk), old(block[..n]), ValuesOf(old(bc.current), old(block[..n])));
              && Issued(old(bc.writes), ws, k, bc.writes)
              && (ok ==> k == |ws|)
      ensures ok ==> n == 0 && Valid() && SameHome(a, bc.current, old(bc.current))
    {
      if n == 0 { return true, 0; }
      CleanAgrees(bc.bufs, bc.touched, bc.disk, bc.current, a.start);
      ok, k := CommitSome();
    }

    /** A buffer is clean if and only if fewer blocks are logged than there are buffers. */
    lemma {:induction false} Room()
      requires Valid()
      ensures HasClean(bc.bufs) <==> n < NBUF
      ensures Elements(block[..n]) == Pinned(bc.bufs) && forall b :: b in Pinned(bc.bufs) ==> !InLog(a, b)
    {
      CleanIff(bc.bufs, bc.touched, bc.disk, bc.current);
      assert Elements(block[..n]) == BufferCache.Listed(block[..n], n);
    }

    method CommitSome() returns (ok: bool, ghost k: nat)
      requires Valid() && n > 0 && bc.current[a.start] == bc.disk[a.start]
      modifies this`n, bc
      ensures bc.Valid()
      ensures old(Calm()) ==> (ok <==> old(n) < NBUF) && (ok ==> Calm())
      ensures Loggable(a, old(bc.disk), old(block[..n]))
      ensures var ws := CommitWrites(a, old(bc.disk), old(block[..n]), ValuesOf(old(bc.current), old(block[..n])));
              && Issued(old(bc.writes), ws, k, bc.writes)
              && (ok ==> k == |ws|)
      ensures ok ==> n == 0 && Valid() && SameHome(a, bc.current, old(bc.current))
    {
      hide Cache.Valid;
      hide Pinned;
      hide HasClean;
      hide NoneBusy;
      hide AllPinnedOrNone;
      hide FillHead;
      hide Absorb;
      hide CommitWrites;
      hide LogAndHead;
      hide HomeWrites;
      hide Issued;
      hide Apply;
      hide Cleared;
      ghost var blocks, vals := block[..n], ValuesOf(bc.current, block[..n]);
      ghost var h := FillHead(bc.disk[a.start], blocks);
      ghost var u, clear := LogAndHead(a, bc.disk, blocks, vals), Write(a.start, FillHead(h, []));
      ghost var v := HomeWrites(blocks, vals) + [clear];
      CommitSplit(a, bc.disk, blocks, vals);
      Room();
      ok, k := WriteLogAndHead();
      IssuedLeft(old(bc.writes), u, v, k, bc.writes);
      if !ok { return; }
      if Primed() { PrimedAll(bc.bufs, blocks); }
      ghost var w1 := bc.writes;
      ghost var c1 := bc.current;
      ghost var j;
      ok, j := InstallAndClear(vals);
      IssuedRight(old(bc.writes), u, w1, v, j, bc.writes);
      k := |u| + j;
      if !ok { return; }
      RewriteSame(c1, blocks, vals, |blocks|);
      assert Elements(block[..n]) == {};
    }

    /** read_head: the header on disk becomes the header in memory. */
    method ReadHead() returns (ok: bool)
      requires bc.Valid() && bc.touched == {} && Pinned(bc.bufs) == {} && GoodHead(a, bc.disk) && |block| == LOGSIZE
      modifies this`n, this`block, bc
      ensures bc.Valid() && bc.writes == old(bc.writes) && bc.disk == old(bc.disk) && bc.current == old(bc.current)
      ensures old(Calm()) ==> ok && Calm()
      ensures ok ==> bc.touched == {} && Pinned(bc.bufs) == {} && |block| == LOGSIZE
      ensures ok ==>
                n == HeadN(bc.disk[a.start]) && forall i :: 0 <= i < n ==> block[i] == HeadBlock(bc.disk[a.start], i)
    {
      CleanAgrees(bc.bufs, bc.touched, bc.disk, bc.current, a.start);
      bc.NoneDirty();
      bc.GetsFirst(a.start);
      var r := bc.Bread(a.start, {});
      if !r.Hold? { return false; }
      OnlyReadPinned(old(bc.bufs), bc.bufs, {});
      LoadHead(bc.bufs[r.b].data);
      ReleasePinned(bc.bufs, r.b);
      ok := bc.Brelse(r.b);
    }

    /** The loads of read_head from the header block. */
    method LoadHead(h: Block)
      requires |block| == LOGSIZE && HeadN(h) <= LOGSIZE
      modifies this`n, this`block
      ensures |block| == LOGSIZE && n == HeadN(h)
      ensures forall j :: 0 <= j < n ==> block[j] == HeadBlock(h, j)
    {
      n := Word(h, 0);
      var i := 0;
      while i < n
        invariant 0 <= i <= n == HeadN(h) && |block| == LOGSIZE
        invariant forall j :: 0 <= j < i ==> block[j] == HeadBlock(h, j)
      {
        block := block[i := Word(h, i + 1)];
        i := i + 1;
      }
    }

    /** recover_from_log, run at boot: what reached the disk is the first k of the recovery's writes. */
    method RecoverFromLog() returns (ok: bool, ghost k: nat)
      requires bc.Valid() && bc.touched == {} && Pinned(bc.bufs) == {} && GoodHead(a, bc.disk) && |block| == LOGSIZE
      modifies this`n, this`block, bc
      ensures bc.Valid()
      ensures old(Calm()) ==> ok && Calm()
      ensures Issued(old(bc.writes), RecoveryWrites(a, old(bc.disk)), k, bc.writes)
      ensures ok ==> k == |RecoveryWrites(a, old(bc.disk))| && n == 0 && Valid()
    {
      ok := ReadHead();
      k := 0;
      if !ok { return; }
      AllClean(bc.bufs, bc.touched, bc.disk, bc.current);
      assert block[..n] == HeadBlocks(a, bc.disk);
      RecoveryIsInstall(a, bc.disk, n);
      bc.NoneDirty();
      assert AllPinnedOrNone(bc.bufs, block[..n], 0);
      ok, k := InstallAndClear(SlotValues(a, bc.current, n));
      assert block[..0] == [];
    }

    /** log_write: the block is listed once however often it is logged, and stays in the cache. */
    method LogWrite(b: nat) returns (ok: bool)
      requires Listed() && b < NBUF && bc.bufs[b].valid && bc.bufs[b].dev == ROOTDEV
      requires !InLog(a, bc.bufs[b].blockno)
      modifies this`n, this`block, bc`bufs, bc`touched
      ensures Listed()
      ensures ok == (old(n) < LOGSIZE && old(n) < a.size - 1 && outstanding >= 1)
      ensures !ok ==> n == old(n) && block == old(block) && bc.bufs == old(bc.bufs) && bc.touched == old(bc.touched)
      ensures ok ==> && block[..n] == Absorb(old(block[..n]), old(bc.bufs[b]).blockno)
                     && bc.bufs == old(bc.bufs)[b := old(bc.bufs[b]).(dirty := true)]
                     && bc.touched == old(bc.touched) - {b}
    {
      hide Ring;
      hide ByRelease;
      hide Pinned;
      hide Absorb;
      hide Elements;
      if n >= LOGSIZE || n >= a.size - 1 || outstanding < 1 {
        return false;
      }
      var bno := bc.bufs[b].blockno;
      var i := 0;
      while i < n && block[i] != bno
        invariant 0 <= i <= n
        invariant forall j :: 0 <= j < i ==> block[j] != bno
      {
        i := i + 1;
      }
      assert BufOk(bc.bufs[b], b in bc.touched, bc.disk, bc.current);
      AbsorbIs(block, n, i, bno);
      PinAdds(bc.bufs, b);
      block := block[i := bno];
      if i == n {
        n := n + 1;
      }
      bc.Pin(b);
      return true;
    }

    /** Valid, but with some buffers possibly being changed by the operations in progress. */
    ghost predicate Listed()
      reads this, bc
    {
      && bc.Valid() && |block| == LOGSIZE && n <= LOGSIZE && Loggable(a, bc.disk, block[..n])
      && Distinct(block[..n]) && Pinned(bc.bufs) == Elements(block[..n])
    }

    /** One turn of begin_op's loop: the operation is admitted, or its process sleeps. */
    method BeginOp() returns (admitted: bool)
      modifies this`outstanding
      ensures admitted == !MustWait(n, old(outstanding), committing)
      ensures outstanding == old(outstanding) + (if admitted then 1 else 0)
    {
      if committing {
        return false;
      } else if n + (outstanding + 1) * MAXOPBLOCKS > LOGSIZE {
        return false;
      }
      outstanding := outstanding + 1;
      return true;
    }

    /** end_op: the last operation in progress commits for all of them. `ok` is false if the kernel panics,
        or if the commit never gets past one of its sleeps. */
    method EndOp() returns (ok: bool, ghost k: nat)
      requires Listed() && Cleared(a, bc.disk)
      requires outstanding == 1 ==> Valid()
      modifies this`n, this`outstanding, this`committing, bc
      ensures bc.Valid() && outstanding == old(outstanding) - 1
      ensures old(committing) ==> !ok
      ensures old(committing) || outstanding != 0 ==> k == 0 && bc.writes == old(bc.writes) && n == old(n)
      ensures !old(committing) && outstanding != 0 ==> ok && !committing
      ensures old(Calm()) && !old(committing) && outstanding == 0 ==> (ok <==> old(n) < NBUF)
      ensures Loggable(a, old(bc.disk), old(block[..n]))
      ensures var ws := CommitWrites(a, old(bc.disk), old(block[..n]), ValuesOf(old(bc.current), old(block[..n])));
              && Issued(old(bc.writes), ws, k, bc.writes)
              && (ok && outstanding == 0 ==> k == |ws|)
      ensures ok && outstanding == 0 ==> n == 0 && !committing && Valid() && SameHome(a, bc.current, old(bc.current))
    {
      k := 0;
      outstanding := outstanding - 1;
      if committing {
        return false, 0;
      }
      if outstanding == 0 {
        committing := true;
        ok, k := Commit();
        if ok {
          committing := false;
        }
      } else {
        ok := true;
      }
    }
  }
}

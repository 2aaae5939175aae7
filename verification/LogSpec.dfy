/** Crashes and the redo log (log.c). */
module LogSpec {
  // Which block writes a commit and a recovery issue, in order, and what a crash between any two of them leaves
  // behind.

  import opened Basics
  import opened Blocks
  import opened Params

  datatype Write = Write(bno: nat, data: Block)

  /** `log.start` and `log.size`: the header is block `start`, the slots follow it. */
  datatype Area = Area(start: nat, size: nat)

  // ----- disk writes -----

  function Put(d: Disk, w: Write): (r: Disk)
    ensures |r| == |d|
  {
    if w.bno < |d| then d[w.bno := w.data] else d
  }

  /** The disk after the first k of the writes `ws`: what a crash at that point finds. */
  function Apply(d: Disk, ws: seq<Write>, k: nat): (r: Disk)
    requires k <= |ws|
    ensures |r| == |d|
  {
    if k == 0 then d else Put(Apply(d, ws, k - 1), ws[k-1])
  }

  function ApplyAll(d: Disk, ws: seq<Write>): Disk { Apply(d, ws, |ws|) }

  lemma {:induction false} ApplyLeft(d: Disk, u: seq<Write>, v: seq<Write>, k: nat)
    requires k <= |u|
    ensures Apply(d, u + v, k) == Apply(d, u, k)
  {
    if k > 0 { ApplyLeft(d, u, v, k - 1); }
  }

  lemma {:induction false} ApplyRight(d: Disk, u: seq<Write>, v: seq<Write>, k: nat)
    requires k <= |v|
    ensures Apply(d, u + v, |u| + k) == Apply(ApplyAll(d, u), v, k)
  {
    if k == 0 { ApplyLeft(d, u, v, |u|); } else { ApplyRight(d, u, v, k - 1); }
  }

  lemma {:induction false} ApplyOneMore(d: Disk, ws: seq<Write>, w: Write)
    ensures ApplyAll(d, ws + [w]) == Put(ApplyAll(d, ws), w)
  {
    ApplyLeft(d, ws, [w], |ws|);
  }

  /** The index of the last of the first k writes that goes to block `b`, or -1. */
  function LastTo(ws: seq<Write>, k: nat, b: nat): (i: int)
    requires k <= |ws|
    ensures -1 <= i < k
    ensures i >= 0 ==> ws[i].bno == b
    ensures forall j :: i < j < k ==> ws[j].bno != b
  {
    if k == 0 then -1 else if ws[k-1].bno == b then k - 1 else LastTo(ws, k - 1, b)
  }

  lemma {:induction false} ApplyAt(d: Disk, ws: seq<Write>, k: nat, b: nat)
    requires k <= |ws| && b < |d|
    ensures Apply(d, ws, k)[b] == var i := LastTo(ws, k, b); if i >= 0 then ws[i].data else d[b]
  {
    if k > 0 { ApplyAt(d, ws, k - 1, b); }
  }

  /** Redoing a write list after any prefix of it already reached the disk changes nothing. */
  lemma {:induction false} RedoIsIdempotent(d: Disk, ws: seq<Write>, c: nat)
    requires c <= |ws|
    ensures ApplyAll(Apply(d, ws, c), ws) == ApplyAll(d, ws)
  {
    var d' := Apply(d, ws, c);
    forall b: nat | b < |d| ensures ApplyAll(d', ws)[b] == ApplyAll(d, ws)[b] {
      ApplyAt(d', ws, |ws|, b);
      ApplyAt(d, ws, |ws|, b);
      ApplyAt(d, ws, c, b);
    }
  }

  // ----- the log header -----

  function HeadN(h: Block): nat { Word(h, 0) }

  function HeadBlock(h: Block, i: nat): nat
    requires i < LOGSIZE
  {
    Word(h, i + 1)
  }

  /** write_head's stores: `n`, then the first `n` block numbers. */
  function FillHead(h: Block, blocks: seq<nat>): (r: Block)
    requires |blocks| <= LOGSIZE && forall i :: 0 <= i < |blocks| ==> blocks[i] < UINT
    ensures HeadN(r) == |blocks|
    ensures forall i :: 0 <= i < |blocks| ==> HeadBlock(r, i) == blocks[i]
  {
    FillBlocks(PutWord(h, 0, |blocks|), blocks, |blocks|)
  }

  function FillBlocks(h: Block, blocks: seq<nat>, k: nat): (r: Block)
    requires k <= |blocks| <= LOGSIZE && forall i :: 0 <= i < |blocks| ==> blocks[i] < UINT
    ensures HeadN(r) == HeadN(h)
    ensures forall i :: 0 <= i < k ==> HeadBlock(r, i) == blocks[i]
  {
    if k == 0 then h else PutWord(FillBlocks(h, blocks, k - 1), k, blocks[k-1])
  }

  // ----- layout -----

  predicate InLog(a: Area, b: nat) { a.start <= b < a.start + a.size }

  predicate Home(a: Area, d: Disk, b: nat) { b < |d| && !InLog(a, b) }

  predicate Fits(a: Area, d: Disk) { 1 <= a.size && a.start + a.size <= |d| <= UINT }

  /** What a transaction may log: at most LOGSIZE, no more than there are slots, blocks outside the log. */
  predicate Loggable(a: Area, d: Disk, blocks: seq<nat>)
  {
    && Fits(a, d)
    && |blocks| <= LOGSIZE
    && |blocks| <= a.size - 1
    && (forall i :: 0 <= i < |blocks| ==> Home(a, d, blocks[i]))
  }

  /** The header on disk describes a transaction that recovery can install. */
  predicate GoodHead(a: Area, d: Disk)
  {
    && Fits(a, d)
    && HeadN(d[a.start]) <= LOGSIZE
    && HeadN(d[a.start]) <= a.size - 1
    && (forall i :: 0 <= i < HeadN(d[a.start]) ==> Home(a, d, HeadBlock(d[a.start], i)))
  }

  predicate Cleared(a: Area, d: Disk) { Fits(a, d) && HeadN(d[a.start]) == 0 }

  ghost predicate SameHome(a: Area, d: Disk, e: Disk)
  {
    |d| == |e| && forall b: nat :: b < |d| && !InLog(a, b) ==> d[b] == e[b]
  }

  // ----- what commit() writes -----

  /** write_log's block writes. */
  function SlotWrites(a: Area, vals: seq<Block>): seq<Write>
  {
    seq(|vals|, i requires 0 <= i < |vals| => Write(a.start + 1 + i, vals[i]))
  }

  /** install_trans's block writes. */
  function HomeWrites(blocks: seq<nat>, vals: seq<Block>): seq<Write>
    requires |blocks| == |vals|
  {
    seq(|vals|, i requires 0 <= i < |vals| => Write(blocks[i], vals[i]))
  }

  /** write_log and then write_head. */
  function LogAndHead(a: Area, d: Disk, blocks: seq<nat>, vals: seq<Block>): seq<Write>
    requires Loggable(a, d, blocks) && |blocks| == |vals|
  {
    SlotWrites(a, vals) + [Write(a.start, FillHead(d[a.start], blocks))]
  }

  /** write_log, write_head, install_trans, then write_head with n = 0 (log.c:192-198). */
  function CommitWrites(a: Area, d: Disk, blocks: seq<nat>, vals: seq<Block>): (ws: seq<Write>)
    requires Loggable(a, d, blocks) && |blocks| == |vals|
    ensures |ws| == if blocks == [] then 0 else 2 * |blocks| + 2
  {
    if blocks == [] then [] else
      var clear := Write(a.start, FillHead(FillHead(d[a.start], blocks), []));
      LogAndHead(a, d, blocks, vals) + (HomeWrites(blocks, vals) + [clear])
  }

  // ----- what recover_from_log() writes -----

  /** install_trans's block writes, read off the log on disk `d`. */
  function InstallWrites(a: Area, d: Disk): seq<Write>
    requires GoodHead(a, d)
  {
    var h := d[a.start];
    seq(HeadN(h), i requires 0 <= i < HeadN(h) => Write(HeadBlock(h, i), d[a.start + 1 + i]))
  }

  /** install_trans, then write_head with n = 0 (log.c:117-120). */
  function RecoveryWrites(a: Area, d: Disk): (ws: seq<Write>)
    requires GoodHead(a, d)
    ensures |ws| == HeadN(d[a.start]) + 1
  {
    InstallWrites(a, d) + [Write(a.start, FillHead(d[a.start], []))]
  }

  function Recovered(a: Area, d: Disk): Disk
    requires GoodHead(a, d)
  {
    ApplyAll(d, RecoveryWrites(a, d))
  }

  // ----- writes that stay inside or outside the log -----

  ghost predicate SameLog(a: Area, d: Disk, e: Disk)
  {
    |d| == |e| && forall b: nat :: b < |d| && InLog(a, b) ==> d[b] == e[b]
  }

  lemma {:induction false} SlotWritesKeepHome(a: Area, d: Disk, vals: seq<Block>, k: nat)
    requires Fits(a, d) && k <= |vals| <= a.size - 1
    ensures var e := Apply(d, SlotWrites(a, vals), k);
            && SameHome(a, e, d) && e[a.start] == d[a.start]
            && forall i: nat :: i < k ==> e[a.start + 1 + i] == vals[i]
  {
    if k > 0 { SlotWritesKeepHome(a, d, vals, k - 1); }
  }

  lemma {:induction false} InstallKeepsLog(a: Area, d: Disk, ws: seq<Write>, k: nat)
    requires k <= |ws| && forall i :: 0 <= i < |ws| ==> !InLog(a, ws[i].bno)
    ensures SameLog(a, Apply(d, ws, k), d)
  {
    if k > 0 { InstallKeepsLog(a, d, ws, k - 1); }
  }

  lemma {:induction false} ApplySameHome(a: Area, d: Disk, e: Disk, ws: seq<Write>, k: nat)
    requires SameHome(a, d, e) && k <= |ws|
    ensures SameHome(a, Apply(d, ws, k), Apply(e, ws, k))
  {
    if k > 0 { ApplySameHome(a, d, e, ws, k - 1); }
  }

  // ----- crashes during recovery -----

  /** Recovery reads only the log. */
  lemma {:induction false} RecoveryReadsLog(a: Area, d: Disk, e: Disk)
    requires GoodHead(a, d) && SameLog(a, e, d)
    ensures GoodHead(a, e) && RecoveryWrites(a, e) == RecoveryWrites(a, d)
  {
    assert InLog(a, a.start) && e[a.start] == d[a.start];
    assert InstallWrites(a, e) == InstallWrites(a, d);
  }

  /** A recovery cut short leaves the header and the log slots as they were. */
  lemma {:induction false} PartialRecoveryKeepsLog(a: Area, d: Disk, c: nat)
    requires GoodHead(a, d) && c < |RecoveryWrites(a, d)|
    ensures var d' := Apply(d, RecoveryWrites(a, d), c);
            SameLog(a, d', d) && GoodHead(a, d') && RecoveryWrites(a, d') == RecoveryWrites(a, d)
  {
    var ws := InstallWrites(a, d);
    ApplyLeft(d, ws, [Write(a.start, FillHead(d[a.start], []))], c);
    InstallKeepsLog(a, d, ws, c);
    RecoveryReadsLog(a, d, Apply(d, ws, c));
  }

  lemma {:induction false} ClearedRecovery(a: Area, d: Disk)
    requires Cleared(a, d)
    ensures GoodHead(a, d) && SameHome(a, Recovered(a, d), d)
  {
    var ws := RecoveryWrites(a, d);
    assert |ws| == 1 && ws[0].bno == a.start;
    assert Apply(d, ws, 1) == Put(Apply(d, ws, 0), ws[0]);
  }

  /** A complete recovery clears the header, and running recovery again changes no home block. */
  lemma {:induction false} FullRecoveryClears(a: Area, d: Disk)
    requires GoodHead(a, d)
    ensures Cleared(a, Recovered(a, d)) && GoodHead(a, Recovered(a, d))
    ensures SameHome(a, Recovered(a, Recovered(a, d)), Recovered(a, d))
  {
    assert Recovered(a, d)[a.start] == FillHead(d[a.start], []);
    ClearedRecovery(a, Recovered(a, d));
  }

  /** A recovery that crashes after its c-th block write (all of them, if c is large). */
  function CrashedRecovery(a: Area, d: Disk, c: nat): Disk
    requires GoodHead(a, d)
  {
    if c < |RecoveryWrites(a, d)| then Apply(d, RecoveryWrites(a, d), c) else Recovered(a, d)
  }

  lemma {:induction false} CrashedRecoveryKeepsOutcome(a: Area, d: Disk, c: nat)
    requires GoodHead(a, d)
    ensures var d' := CrashedRecovery(a, d, c);
            GoodHead(a, d') && SameHome(a, Recovered(a, d'), Recovered(a, d))
  {
    if c < |RecoveryWrites(a, d)| {
      PartialRecoveryKeepsLog(a, d, c);
      RedoIsIdempotent(d, RecoveryWrites(a, d), c);
    } else {
      FullRecoveryClears(a, d);
    }
  }

  /** Any number of crashed recoveries, then one that completes. */
  function RecoverAfter(a: Area, d: Disk, crashes: seq<nat>): Disk
    requires GoodHead(a, d)
    decreases |crashes|
  {
    if crashes == [] then Recovered(a, d)
    else
      CrashedRecoveryKeepsOutcome(a, d, crashes[0]);
      RecoverAfter(a, CrashedRecovery(a, d, crashes[0]), crashes[1..])
  }

  /** However often recovery itself crashes, the home blocks end up as one clean recovery leaves them. */
  lemma {:induction false} RecoveryIsCrashProof(a: Area, d: Disk, crashes: seq<nat>)
    requires GoodHead(a, d)
    ensures Cleared(a, RecoverAfter(a, d, crashes))
    ensures SameHome(a, RecoverAfter(a, d, crashes), Recovered(a, d))
    decreases |crashes|
  {
    if crashes == [] {
      FullRecoveryClears(a, d);
    } else {
      CrashedRecoveryKeepsOutcome(a, d, crashes[0]);
      RecoveryIsCrashProof(a, CrashedRecovery(a, d, crashes[0]), crashes[1..]);
    }
  }

  // ----- crashes during commit -----

  /** The transaction's effect with no log and no crash: each logged block gets its value. */
  function Installed(d: Disk, blocks: seq<nat>, vals: seq<Block>): Disk
    requires |blocks| == |vals|
  {
    ApplyAll(d, HomeWrites(blocks, vals))
  }

  /** Before the header write: the home blocks and the header are still those of `d`. */
  lemma {:induction false} CrashBeforeHeader(a: Area, d: Disk, blocks: seq<nat>, vals: seq<Block>, k: nat)
    requires Loggable(a, d, blocks) && |blocks| == |vals| && Cleared(a, d)
    requires k <= |blocks|
    ensures var e := Apply(d, CommitWrites(a, d, blocks, vals), k);
            Cleared(a, e) && SameHome(a, e, d)
  {
    if blocks != [] {
      var u := LogAndHead(a, d, blocks, vals);
      var cw := CommitWrites(a, d, blocks, vals);
      assert cw == u + cw[|u|..];
      ApplyLeft(d, u, cw[|u|..], k);
      ApplyLeft(d, SlotWrites(a, vals), [Write(a.start, FillHead(d[a.start], blocks))], k);
      SlotWritesKeepHome(a, d, vals, k);
    }
  }

  /** Just after the header write the log holds the whole transaction, and the rest of the commit
      is exactly a recovery: the same writes in the same order. */
  lemma {:induction false} HeaderWritten(a: Area, d: Disk, blocks: seq<nat>, vals: seq<Block>, e: Disk)
    requires Loggable(a, d, blocks) && |blocks| == |vals|
    requires e == ApplyAll(d, LogAndHead(a, d, blocks, vals))
    ensures GoodHead(a, e) && SameHome(a, e, d) && e[a.start] == FillHead(d[a.start], blocks)
    ensures InstallWrites(a, e) == HomeWrites(blocks, vals)
  {
    var w := Write(a.start, FillHead(d[a.start], blocks));
    SlotWritesKeepHome(a, d, vals, |vals|);
    ApplyRight(d, SlotWrites(a, vals), [w], 1);
    var e0 := ApplyAll(d, SlotWrites(a, vals));
    assert e == Put(Apply(e0, [w], 0), [w][0]);
  }

  lemma {:induction false} CommitIsLogThenRecovery(a: Area, d: Disk, blocks: seq<nat>, vals: seq<Block>, e: Disk)
    requires Loggable(a, d, blocks) && |blocks| == |vals| && blocks != []
    requires e == ApplyAll(d, LogAndHead(a, d, blocks, vals))
    ensures GoodHead(a, e) && SameHome(a, e, d)
    ensures CommitWrites(a, d, blocks, vals) == LogAndHead(a, d, blocks, vals) + RecoveryWrites(a, e)
    ensures SameHome(a, Recovered(a, e), Installed(d, blocks, vals))
  {
    HeaderWritten(a, d, blocks, vals, e);
    ApplySameHome(a, e, d, HomeWrites(blocks, vals), |vals|);
    ApplyLeft(e, HomeWrites(blocks, vals), [Write(a.start, FillHead(e[a.start], []))], |vals|);
  }

  lemma {:induction false} CrashInRecoveryPart(a: Area, d: Disk, e: Disk, u: seq<Write>, k: nat)
    requires e == ApplyAll(d, u) && GoodHead(a, e)
    requires |u| <= k <= |u| + |RecoveryWrites(a, e)|
    ensures var e' := Apply(d, u + RecoveryWrites(a, e), k);
            GoodHead(a, e') && SameHome(a, Recovered(a, e'), Recovered(a, e))
  {
    ApplyRight(d, u, RecoveryWrites(a, e), k - |u|);
    CrashedRecoveryKeepsOutcome(a, e, k - |u|);
  }

  /** From the header write on, recovery produces the transaction's outcome. */
  lemma {:induction false} CrashAfterHeader(a: Area, d: Disk, blocks: seq<nat>, vals: seq<Block>, k: nat)
    requires Loggable(a, d, blocks) && |blocks| == |vals| && blocks != []
    requires |blocks| + 1 <= k <= |CommitWrites(a, d, blocks, vals)|
    ensures var e := Apply(d, CommitWrites(a, d, blocks, vals), k);
            GoodHead(a, e) && SameHome(a, Recovered(a, e), Installed(d, blocks, vals))
  {
    var u := LogAndHead(a, d, blocks, vals);
    CommitIsLogThenRecovery(a, d, blocks, vals, ApplyAll(d, u));
    CrashInRecoveryPart(a, d, ApplyAll(d, u), u, k);
  }

  /** CRASH ATOMICITY. A commit interrupted after any number k of block writes, then any number of
      interrupted recoveries and a complete one, leaves every home block old or every home block new:
      new exactly when the header write (the write after the |blocks| slot writes) had happened. */
  lemma {:induction false} CrashAtomicity(a: Area, d: Disk, blocks: seq<nat>, vals: seq<Block>, k: nat,
                                          crashes: seq<nat>)
    requires Loggable(a, d, blocks) && |blocks| == |vals| && Cleared(a, d)
    requires k <= |CommitWrites(a, d, blocks, vals)|
    ensures var e := Apply(d, CommitWrites(a, d, blocks, vals), k);
            && GoodHead(a, e)
            && Cleared(a, RecoverAfter(a, e, crashes))
            && SameHome(a, RecoverAfter(a, e, crashes), if k <= |blocks| then d else Installed(d, blocks, vals))
  {
    var e := Apply(d, CommitWrites(a, d, blocks, vals), k);
    if k <= |blocks| {
      CrashBeforeHeader(a, d, blocks, vals, k);
      ClearedRecovery(a, e);
    } else {
      CrashAfterHeader(a, d, blocks, vals, k);
    }
    RecoveryIsCrashProof(a, e, crashes);
  }

  // ----- whole runs: one transaction after another -----

  datatype Tx = Tx(blocks: seq<nat>, vals: seq<Block>)

  predicate TxOk(a: Area, d: Disk, t: Tx) { Loggable(a, d, t.blocks) && |t.blocks| == |t.vals| }

  ghost predicate RunOk(a: Area, d: Disk, txs: seq<Tx>) { forall i :: 0 <= i < |txs| ==> TxOk(a, d, txs[i]) }

  function TxWrites(a: Area, d: Disk, t: Tx): seq<Write>
    requires TxOk(a, d, t)
  {
    CommitWrites(a, d, t.blocks, t.vals)
  }

  /** Every block write of a run that commits `txs` from index `i` on. */
  function RunWrites(a: Area, d: Disk, txs: seq<Tx>, i: nat): seq<Write>
    requires i <= |txs| && RunOk(a, d, txs)
    decreases |txs| - i
  {
    if i == |txs| then []
    else TxWrites(a, d, txs[i]) + RunWrites(a, ApplyAll(d, TxWrites(a, d, txs[i])), txs, i + 1)
  }

  /** The disk after the transactions i..j, each installed at once and with no log. */
  function AtomicRun(d: Disk, txs: seq<Tx>, i: nat, j: nat): Disk
    requires i <= j <= |txs| && forall k :: 0 <= k < |txs| ==> |txs[k].blocks| == |txs[k].vals|
    decreases j - i
  {
    if i == j then d else AtomicRun(Installed(d, txs[i].blocks, txs[i].vals), txs, i + 1, j)
  }

  /** The transactions i.. whose header has been written after k block writes end at this index. */
  function Committed(txs: seq<Tx>, i: nat, k: nat): (j: nat)
    requires i <= |txs|
    ensures i <= j <= |txs|
    decreases |txs| - i
  {
    if i == |txs| then i else
      var n := |txs[i].blocks|;
      if n == 0 then Committed(txs, i + 1, k)
      else if k <= n then i
      else if k <= 2 * n + 2 then i + 1
      else Committed(txs, i + 1, k - (2 * n + 2))
  }

  /** A complete commit leaves a clear log and the transaction installed. */
  lemma {:induction false} FullCommit(a: Area, d: Disk, t: Tx)
    requires TxOk(a, d, t) && Cleared(a, d)
    ensures var e := ApplyAll(d, TxWrites(a, d, t));
            Cleared(a, e) && SameHome(a, e, Installed(d, t.blocks, t.vals))
  {
    if t.blocks != [] {
      var u := LogAndHead(a, d, t.blocks, t.vals);
      var e := ApplyAll(d, u);
      CommitIsLogThenRecovery(a, d, t.blocks, t.vals, e);
      ApplyRight(d, u, RecoveryWrites(a, e), |RecoveryWrites(a, e)|);
      FullRecoveryClears(a, e);
    }
  }

  lemma {:induction false} AtomicRunSameHome(a: Area, d: Disk, e: Disk, txs: seq<Tx>, i: nat, j: nat)
    requires RunOk(a, d, txs) && SameHome(a, d, e) && i <= j <= |txs|
    ensures SameHome(a, AtomicRun(d, txs, i, j), AtomicRun(e, txs, i, j))
    decreases j - i
  {
    if i < j {
      var t := txs[i];
      ApplySameHome(a, d, e, HomeWrites(t.blocks, t.vals), |t.vals|);
      AtomicRunSameHome(a, Installed(d, t.blocks, t.vals), Installed(e, t.blocks, t.vals), txs, i + 1, j);
    }
  }

  /** Disk `e`, recovered through `crashes` interruptions, has the home blocks of `target`. */
  ghost predicate RecoversTo(a: Area, e: Disk, crashes: seq<nat>, target: Disk)
  {
    GoodHead(a, e) && SameHome(a, RecoverAfter(a, e, crashes), target)
  }

  lemma {:induction false} CrashInFirst(a: Area, d: Disk, txs: seq<Tx>, i: nat, k: nat, crashes: seq<nat>)
    requires i < |txs| && RunOk(a, d, txs) && Cleared(a, d)
    requires txs[i].blocks != [] && k <= |TxWrites(a, d, txs[i])|
    ensures RecoversTo(a, Apply(d, TxWrites(a, d, txs[i]), k), crashes, AtomicRun(d, txs, i, Committed(txs, i, k)))
  {
    CrashAtomicity(a, d, txs[i].blocks, txs[i].vals, k, crashes);
  }

  lemma {:induction false} CrashInRest(a: Area, d: Disk, txs: seq<Tx>, i: nat, j: nat, e: Disk, crashes: seq<nat>)
    requires i < j <= |txs| && RunOk(a, d, txs) && Cleared(a, d)
    requires RecoversTo(a, e, crashes, AtomicRun(ApplyAll(d, TxWrites(a, d, txs[i])), txs, i + 1, j))
    ensures RecoversTo(a, e, crashes, AtomicRun(d, txs, i, j))
  {
    var t := txs[i];
    FullCommit(a, d, t);
    AtomicRunSameHome(a, ApplyAll(d, TxWrites(a, d, t)), Installed(d, t.blocks, t.vals), txs, i + 1, j);
  }

  lemma {:induction false} NothingCommitted(a: Area, d: Disk, crashes: seq<nat>)
    requires Cleared(a, d)
    ensures RecoversTo(a, d, crashes, d)
  {
    ClearedRecovery(a, d);
    RecoveryIsCrashProof(a, d, crashes);
  }

  lemma {:induction false} EitherSide(d: Disk, u: seq<Write>, v: seq<Write>, k: nat)
    requires k <= |u + v|
    ensures k <= |u| ==> Apply(d, u + v, k) == Apply(d, u, k)
    ensures k >= |u| ==> Apply(d, u + v, k) == Apply(ApplyAll(d, u), v, k - |u|)
  {
    if k <= |u| { ApplyLeft(d, u, v, k); }
    if k >= |u| { ApplyRight(d, u, v, k - |u|); }
  }

  /** The disk after k writes of a run: inside its first transaction, or past it. */
  lemma {:induction false} RunPrefix(a: Area, d: Disk, txs: seq<Tx>, i: nat, k: nat)
    requires i < |txs| && RunOk(a, d, txs) && k <= |RunWrites(a, d, txs, i)|
    ensures var u := TxWrites(a, d, txs[i]);
            var v := RunWrites(a, ApplyAll(d, u), txs, i + 1);
            && (k <= |u| ==> Apply(d, RunWrites(a, d, txs, i), k) == Apply(d, u, k))
            && (k >= |u| ==> k - |u| <= |v|)
            && (k >= |u| ==> Apply(d, RunWrites(a, d, txs, i), k) == Apply(ApplyAll(d, u), v, k - |u|))
  {
    var u := TxWrites(a, d, txs[i]);
    EitherSide(d, u, RunWrites(a, ApplyAll(d, u), txs, i + 1), k);
  }

  /** CRASH ATOMICITY OF RUNS. Crash a run of transactions after any number k of its block writes, let
      recovery crash any number of times and then complete: the home blocks are those of the first
      `Committed` transactions applied whole and in order, and of no other. */
  lemma {:induction false} RunAtomicity(a: Area, d: Disk, txs: seq<Tx>, i: nat, k: nat, crashes: seq<nat>)
    requires i <= |txs| && RunOk(a, d, txs) && Cleared(a, d)
    requires k <= |RunWrites(a, d, txs, i)|
    ensures RecoversTo(a, Apply(d, RunWrites(a, d, txs, i), k), crashes, AtomicRun(d, txs, i, Committed(txs, i, k)))
    decreases |txs| - i
  {
    hide CommitWrites;
    hide RecoversTo;
    if i == |txs| {
      NothingCommitted(a, d, crashes);
    } else {
      var u := TxWrites(a, d, txs[i]);
      RunPrefix(a, d, txs, i, k);
      if k <= |u| && txs[i].blocks != [] {
        CrashInFirst(a, d, txs, i, k, crashes);
      } else {
        FullCommit(a, d, txs[i]);
        RunAtomicity(a, ApplyAll(d, u), txs, i + 1, k - |u|, crashes);
        CrashInRest(a, d, txs, i, Committed(txs, i, k), Apply(d, RunWrites(a, d, txs, i), k), crashes);
      }
    }
  }
}

/** mkfs (mkfs.c): the image it builds satisfies the file system's invariant. */
module Mkfs {
  import opened Basics
  import opened Blocks
  import opened Dinodes
  import opened FsSpec
  import Fs
  import opened Options
  import opened Params

  const NINODES: nat := 200      // what the superblock says
  const INODES: nat := 2 + LOGSIZE                      // the inode blocks, after boot block, superblock and log
  const BITMAP: nat := INODES + NINODES / IPB + 1       // the bitmap block
  const NMETA: nat := BITMAP + 1
  const NHELD: nat := (BITMAP - INODES) * IPB           // the inodes that the inode blocks hold
  const NSTORED: nat := NHELD + IPB                     // with those that ialloc stores in the bitmap block
  const T_DIR: nat := 1
  const T_FILE: nat := 2

  /** The layout mkfs writes into the superblock. */
  function Layout0(): Layout { Layout(FSSIZE, BITMAP, INODES, NMETA) }

  /** The bitmap block with the first n bits set. */
  function Marked(n: nat): Block
    requires n <= BPB
  {
    if n == 0 then ZeroBlock() else PutBit(Marked(n - 1), n - 1, true)
  }

  lemma {:induction false} NoBits(k: nat)
    requires k < BPB
    ensures !BlockBit(ZeroBlock(), k)
  {
    ZeroBytes(k / 8);
    ZeroBits(k % 8);
  }

  lemma {:induction false} MarkedBits(n: nat, k: nat)
    requires n <= BPB && k < BPB
    ensures BlockBit(Marked(n), k) <==> k < n
  {
    hide BlockBit;
    hide PutBit;
    hide ZeroBlock;
    if n == 0 {
      NoBits(k);
    } else {
      MarkedBits(n - 1, k);
      PutBitGet(Marked(n - 1), n - 1, true, k);
    }
  }

  /** The disk as it will be when the bitmap is written for the first n blocks, with the inode blocks left out: the
      inodes are looked at as a table. */
  function Virtual(d: Disk, n: nat): (v: Disk)
    ensures |d| == FSSIZE && n <= FSSIZE ==> |v| == FSSIZE && v[BITMAP] == Marked(n)
    ensures |d| == FSSIZE && n <= FSSIZE ==> forall b :: 0 <= b < FSSIZE && (b < INODES || b > BITMAP) ==> v[b] == d[b]
  {
    if |d| == FSSIZE && n <= FSSIZE then seq<Block>(FSSIZE, b requires 0 <= b < FSSIZE => VirtualAt(d, n, b)) else d
  }

  function VirtualAt(d: Disk, n: nat, b: nat): Block
    requires |d| == FSSIZE && n <= FSSIZE && b < FSSIZE
  {
    if b == BITMAP then Marked(n) else if INODES <= b < BITMAP then ZeroBlock() else d[b]
  }

  lemma {:induction false} VirtualPut(d: Disk, n: nat, b: nat, x: Block)
    requires |d| == FSSIZE && n <= FSSIZE && INODES <= b < FSSIZE
    ensures Virtual(d[b := x], n) == if b <= BITMAP then Virtual(d, n) else Virtual(d, n)[b := x]
  {
    hide Marked;
  }

  lemma {:induction false} VirtualNext(d: Disk, n: nat)
    requires |d| == FSSIZE && n < FSSIZE
    ensures Virtual(d, n + 1) == Virtual(d, n)[BITMAP := PutBit(Marked(n), n, true)]
  {
    hide PutBit;
  }

  /** An image under construction: the blocks below `free` are in use, those from it on are zero. */
  ghost predicate Made(d: Disk, ins: seq<Inode>, own: map<nat, Slot>, free: nat)
  {
    && |d| == FSSIZE && NMETA <= free <= FSSIZE && |ins| == NSTORED
    && (forall b :: free <= b < FSSIZE ==> d[b] == ZeroBlock())
    && Conserved(Layout0(), Virtual(d, free), ins, own)
  }

  lemma {:induction false} MadeLive(d: Disk, ins: seq<Inode>, own: map<nat, Slot>, free: nat)
    requires Made(d, ins, own, free)
    ensures forall b: nat :: b in own <==> NMETA <= b < free
  {
    var l, v := Layout0(), Virtual(d, free);
    forall b: nat ensures b in own <==> NMETA <= b < free {
      if b < FSSIZE {
        assert Bit(l, v, b) <==> b < l.data || b in own.Keys;
        assert b / BPB == 0 && b % BPB == b;
        MarkedBits(free, b);
      }
    }
  }

  /** freeblock++ is balloc on the disk to be. */
  lemma {:induction false} TakeBlock(d: Disk, ins: seq<Inode>, own: map<nat, Slot>, free: nat)
    requires Made(d, ins, own, free) && free < FSSIZE
    ensures Fs.Allocated(Layout0(), Virtual(d, free), Virtual(d, free + 1), own.Keys, free)
  {
    hide BlockBit;
    hide PutBit;
    hide Slots;
    var l, v := Layout0(), Virtual(d, free);
    MadeLive(d, ins, own, free);
    forall c: nat | c < l.size ensures Bit(l, v, c) <==> c < free {
      assert c / BPB == 0 && c % BPB == c;
      MarkedBits(free, c);
    }
    assert free % BPB == free;
    Fs.AllocatedNow(l, v, own.Keys, free);
    VirtualNext(d, free);
    assert v[free] == ZeroBlock();
    assert Virtual(d, free + 1) ==
        v[MapBlock(l, free) := PutBit(v[MapBlock(l, free)], free % BPB, true)][free := ZeroBlock()];
  }

  // ----- iappend -----

  lemma {:induction false} AddrTaken(d: Disk, ins: seq<Inode>, own: map<nat, Slot>, free: nat, i: nat, k: nat)
    requires Made(d, ins, own, free) && free < FSSIZE && i < |ins| && k <= NDIRECT && |ins[i].addrs| == NDIRECT + 1
    requires ins[i].addrs[k] == 0
    ensures var l, v, v', ins', own' := Layout0(), Virtual(d, free), Virtual(d, free + 1), WithAddr(ins, i, k, free),
            own[free := Slot(i, k)];
            && Fs.FreshBlock(l, v, v', ins', own, own', Slot(i, k), free) && Fs.KeepsOwned(v, v', own, 0)
            && Fs.SlotsChange(v, ins, v', ins', Slot(i, k), free)
            && Made(d, ins', own', free + 1)
  {
    hide Slots;
    hide Bits;
    TakeBlock(d, ins, own, free);
    Fs.AddrAllocated(Layout0(), Virtual(d, free), Virtual(d, free + 1), ins, own, i, k, free);
  }

  lemma {:induction false} EntryTaken(d: Disk, ins: seq<Inode>, own: map<nat, Slot>, free: nat, i: nat, j: nat)
    requires Made(d, ins, own, free) && free < FSSIZE && i < |ins| && j < NINDIRECT && |ins[i].addrs| == NDIRECT + 1
    requires ins[i].addrs[NDIRECT] != 0
    requires SlotVal(Virtual(d, free), ins, Slot(i, NDIRECT + 1 + j)) == 0
    ensures ins[i].addrs[NDIRECT] < free && free < UINT && ins[i].addrs[NDIRECT] >= NMETA
    ensures var p := ins[i].addrs[NDIRECT];
            var l, v, d', own' := Layout0(), Virtual(d, free), d[p := PutWord(d[p], j, free)],
                own[free := Slot(i, NDIRECT + 1 + j)];
            var v' := Virtual(d', free + 1);
            && Fs.FreshBlock(l, v, v', ins, own, own', Slot(i, NDIRECT + 1 + j), free) && Fs.KeepsOwned(v, v', own, p)
            && Fs.SlotsChange(v, ins, v', ins, Slot(i, NDIRECT + 1 + j), free)
            && Made(d', ins, own', free + 1)
  {
    hide Virtual;
    hide Marked;
    hide Word;
    hide Bits;
    hide PutWord;
    hide Slots;
    TakeBlock(d, ins, own, free);
    IndirectAt(d, ins, own, free, i, j);
    var l, v, p := Layout0(), Virtual(d, free), ins[i].addrs[NDIRECT];
    Fs.EntryAllocated(l, v, Virtual(d, free + 1), ins, own, i, j, free);
    var d' := d[p := PutWord(d[p], j, free)];
    VirtualPut(d, free + 1, p, PutWord(d[p], j, free));
  }

  /** A file's bytes. */
  ghost function BytesOf(d: Disk, ins: seq<Inode>, i: nat): seq<Byte>
  {
    if FileOk(d, ins, i) then Content(d, ins, i, ins[i].size) else []
  }

  // ----- how many blocks the image takes -----

  /** The blocks that iappend takes for block fbn of file i: none, one, or one and the indirect block. */
  ghost function Taken(d: Disk, ins: seq<Inode>, i: nat, fbn: nat): nat
    requires InodesOk(d, ins) && i < |ins| && fbn < MAXFILE
  {
    if FileBlock(d, ins, i, fbn) != 0 then 0
    else if fbn >= NDIRECT && ins[i].addrs[NDIRECT] == 0 then 2
    else 1
  }

  /** The blocks of a file of n bytes, its indirect block included. */
  function Cost(n: nat): nat { BlocksFor(n) + if n > NDIRECT * BSIZE then 1 else 0 }

  /** What n more bytes take. */
  function More(size: nat, n: nat): int { Cost(size + n) - Cost(size) }

  lemma {:induction false} CostStep(at: nat, m: nat)
    requires 0 < m <= BSIZE - at % BSIZE
    ensures Cost(at + m) == Cost(at) + if at / BSIZE < BlocksFor(at) then 0 else if at / BSIZE == NDIRECT then 2 else 1
  {
    BlocksGrow(at, at, m, BlocksFor(at));
  }

  lemma {:induction false} CostGrows(m: nat, n: nat)
    requires m <= n
    ensures Cost(m) <= Cost(n)
  {}

  /** A step of iappend takes what the file gets more expensive by. */
  lemma {:induction false} TakenIs(l: Layout, d0: Disk, ins0: seq<Inode>, own0: map<nat, Slot>, d: Disk,
                                   ins: seq<Inode>, own: map<nat, Slot>, i: nat, src: seq<Byte>, tot: nat, m: nat)
    requires i < |ins0| && Writing(l, d0, ins0, own0, d, ins, own, i, ins0[i].size, src, tot) && tot < |src|
    requires 0 < m <= BSIZE - (ins0[i].size + tot) % BSIZE
    ensures InodesOk(d, ins) && i < |ins| && (ins0[i].size + tot) / BSIZE < MAXFILE
    ensures Cost(ins0[i].size + tot + m) == Cost(ins0[i].size + tot) + Taken(d, ins, i, (ins0[i].size + tot) / BSIZE)
  {
    hide Conserved;
    hide FileByte;
    var at := ins0[i].size + tot;
    CostStep(at, m);
    BlocksGrow(at, at, m, BlocksFor(at));
    assert Mapped(d, ins, i, BlocksFor(at));
  }

  /** The blocks of the first k files. */
  function FilesCost(files: seq<seq<Byte>>, k: nat): nat
    requires k <= |files|
  {
    if k == 0 then 0 else FilesCost(files, k - 1) + Cost(|files[k-1]|)
  }

  /** The blocks of the root directory with k files in it, and of the files. */
  function ImageCost(files: seq<seq<Byte>>, k: nat): nat
    requires k <= |files|
  {
    Cost(DIRENT * (2 + k)) + FilesCost(files, k)
  }

  lemma {:induction false} ImageGrows(files: seq<seq<Byte>>, k: nat, n: nat)
    requires k <= n <= |files|
    ensures ImageCost(files, k) <= ImageCost(files, n)
    decreases n
  {
    if k < n {
      ImageGrows(files, k, n - 1);
      CostGrows(DIRENT * (2 + (n - 1)), DIRENT * (2 + n));
    }
  }

  /** A file of at most MAXFILE blocks. */
  predicate Small(data: seq<Byte>) { |data| <= MAXFILE * BSIZE }

  const DIRENT: nat := 16        // sizeof(struct dirent)
  const DIRSIZ: nat := 14

  /** An unused inode. */
  function NoInode(): Inode { Inode(0, 0, 0, seq(NDIRECT + 1, k => 0)) }

  /** The inodes of the table are on the disk. */
  ghost predicate Stored(d: Disk, ins: seq<Inode>)
  {
    && |d| == FSSIZE && |ins| == NSTORED
    && forall i :: 0 <= i < NSTORED ==> Storable(ins[i]) && Dinode(Layout0(), d, i) == ins[i]
  }

  ghost predicate FilesOk(v: Disk, ins: seq<Inode>) { forall i :: 0 <= i < NSTORED ==> FileOk(v, ins, i) }

  /** All inodes and files but i are the same. */
  ghost predicate SameBut(v: Disk, ins: seq<Inode>, v': Disk, ins': seq<Inode>, i: nat)
  {
    && |ins| == |ins'| == NSTORED
    && forall j :: 0 <= j < NSTORED && j != i ==> ins'[j] == ins[j] && BytesOf(v', ins', j) == BytesOf(v, ins, j)
  }

  lemma {:induction false} SameNow(v: Disk, ins: seq<Inode>, i: nat)
    requires |ins| == NSTORED
    ensures SameBut(v, ins, v, ins, i)
  {}

  lemma {:induction false} SameTwice(v: Disk, ins: seq<Inode>, v': Disk, ins': seq<Inode>, v'': Disk, ins'': seq<Inode>,
                                     i: nat)
    requires SameBut(v, ins, v', ins', i) && SameBut(v', ins', v'', ins'', i)
    ensures SameBut(v, ins, v'', ins'', i)
  {}

  lemma {:induction false} SameInodes(v: Disk, ins: seq<Inode>, v': Disk, ins': seq<Inode>, i: nat)
    requires SameBut(v, ins, v', ins', i)
    ensures |ins'| == |ins| == NSTORED && forall j :: 0 <= j < NSTORED && j != i ==> ins'[j] == ins[j]
  {}

  /** After a new inode and a longer root directory. */
  lemma {:induction false} SameFiles(v: Disk, ins: seq<Inode>, v': Disk, ins': seq<Inode>, v'': Disk, ins'': seq<Inode>,
                                     i: nat)
    requires SameBut(v, ins, v', ins', i) && SameBut(v', ins', v'', ins'', 1) && 2 <= i < NSTORED
    ensures BytesOf(v', ins', 1) == BytesOf(v, ins, 1) && ins'[1] == ins[1]
    ensures BytesOf(v'', ins'', i) == BytesOf(v', ins', i) && ins''[i] == ins'[i]
    ensures forall j :: i < j < NSTORED ==> ins''[j] == ins[j]
    ensures forall j :: 2 <= j < i ==> ins''[j] == ins[j] && BytesOf(v'', ins'', j) == BytesOf(v, ins, j)
  {}

  ghost predicate SameMeta(d: Disk, e: Disk) { |d| == |e| == FSSIZE && forall b :: 0 <= b < NMETA ==> e[b] == d[b] }

  /** winode puts the table's inode i on the disk. */
  lemma {:induction false} StoreOne(d: Disk, ins: seq<Inode>, e: Disk, ins': seq<Inode>, own: map<nat, Slot>, free: nat,
                                    i: nat)
    requires Stored(d, ins) && SameMeta(d, e) && Made(e, ins', own, free) && i < NSTORED && Storable(ins'[i])
    requires forall j :: 0 <= j < NSTORED && j != i ==> ins'[j] == ins[j]
    ensures var e' := WithDinode(Layout0(), e, i, ins'[i]);
            Stored(e', ins') && Made(e', ins', own, free) && Virtual(e', free) == Virtual(e, free)
  {
    hide Storable;
    hide GetInode;
    hide PutInode;
    hide Conserved;
    var l, e' := Layout0(), WithDinode(Layout0(), e, i, ins'[i]);
    VirtualPut(e, free, InodeBlock(l, i), e'[InodeBlock(l, i)]);
    forall j: nat | j < NSTORED ensures Dinode(l, e', j) == ins'[j] && Storable(ins'[j]) {
      DinodeGet(l, e, i, ins'[i], j);
      if j != i { assert Storable(ins[j]) && Dinode(l, d, j) == ins[j] && InodeBlock(l, j) < NMETA; }
    }
  }

  /** A file's inode fits a dinode. */
  lemma {:induction false} FileStorable(d: Disk, ins: seq<Inode>, own: map<nat, Slot>, free: nat, i: nat)
    requires Made(d, ins, own, free) && FileOk(Virtual(d, free), ins, i)
    requires 0 <= ins[i].kind < 32768 && 0 <= ins[i].nlink < 32768
    ensures Storable(ins[i])
  {
    hide Bits;
    hide Mapped;
    forall k: nat | k <= NDIRECT ensures ins[i].addrs[k] < UINT {
      assert IsSlot(ins, Slot(i, k)) && SlotVal(Virtual(d, free), ins, Slot(i, k)) == ins[i].addrs[k];
    }
  }

  /** struct dirent: the inode number, and the name cut or filled up with NULs to DIRSIZ bytes. */
  function Entry(inum: nat, name: seq<Byte>): (e: seq<Byte>)
    requires inum < 65536
    ensures |e| == DIRENT
  {
    [inum % 256, inum / 256] + seq<Byte>(DIRSIZ, k requires 0 <= k < DIRSIZ => if k < |name| then name[k] else 0)
  }

  /** The name of a file in the image: without a leading underscore. */
  function FileName(name: seq<Byte>): seq<Byte> { if |name| > 0 && name[0] == 95 then name[1..] else name }

  /** How mkfs ends: with exit status 0, or with another; or it stores an inode in a data block. */
  datatype Outcome = Done | Failed | Overrun

  class Image {
    var disk: Disk
    var freeblock: nat
    var freeinode: nat
    ghost var inodes: seq<Inode>     // the inode table, with the inode that iappend is working on
    ghost var owner: map<nat, Slot>

    /** The disk with the bitmap that balloc will write. */
    ghost function V(): Disk
      reads this
    {
      Virtual(disk, freeblock)
    }

    ghost predicate Building()
      reads this
    {
      && Made(disk, inodes, owner, freeblock) && Stored(disk, inodes) && 1 <= freeinode && |inodes| == NSTORED
      && freeblock <= FSSIZE
      && FilesOk(V(), inodes)
    }

    ghost function Bytes(i: nat): seq<Byte>
      reads this
    {
      BytesOf(V(), inodes, i)
    }

    /** All sectors zero; the metadata blocks are in use, no inode is. */
    constructor ()
      ensures Building() && freeinode == 1 && freeblock == NMETA
      ensures forall i :: 0 <= i < NSTORED ==> inodes[i] == NoInode()
    {
      hide Made;
      hide Stored;
      hide FilesOk;
      hide ZeroBlock;
      hide NoInode;
      hide Virtual;
      disk := seq(FSSIZE, i => ZeroBlock());
      inodes := seq(NSTORED, i => NoInode());
      freeblock, freeinode := NMETA, 1;
      owner := map[];
      new;
      StartMade(disk, inodes);
    }

    /** mkfs's ialloc: the next inode, with one link and no contents. */
    method Ialloc(kind: nat) returns (inum: nat)
      requires Building() && freeinode < NSTORED && inodes[freeinode] == NoInode() && kind < 32768
      modifies this`disk, this`inodes, this`freeinode
      ensures Building() && inum == old(freeinode) && freeinode == inum + 1
      ensures inodes == old(inodes)[inum := NoInode().(kind := kind, nlink := 1)] && V() == old(V())
      ensures SameBut(old(V()), old(inodes), V(), inodes, inum)
    {
      hide PutInode;
      hide Made;
      hide FilesOk;
      hide BytesOf;
      hide Stored;
      assert V() == Virtual(disk, freeblock);
      MadeSize(disk, inodes, owner, freeblock);
      KindMade(disk, inodes, owner, freeblock, freeinode, kind);
      inum := freeinode;
      freeinode := freeinode + 1;
      var din := NoInode().(kind := kind, nlink := 1);
      MetaStarts(disk);
      StoreOne(disk, inodes, disk, inodes[inum := din], owner, freeblock, inum);
      inodes := inodes[inum := din];
      disk := WithDinode(Layout0(), disk, inum, din);
    }

    /** The block for file block fbn, taken from the unused ones if there is none; None if the image is full, which
        the next rsect finds out. */
    method BlockFor(ghost i: nat, fbn: nat, din: Inode) returns (x: Option<nat>, din': Inode)
      requires Made(disk, inodes, owner, freeblock) && i < NSTORED && fbn < MAXFILE && inodes[i] == din
      modifies this`disk, this`inodes, this`freeblock, this`owner
      ensures InodesOk(old(V()), old(inodes)) && i < |old(inodes)|
      ensures x.Some? <==> old(freeblock) + Taken(old(V()), old(inodes), i, fbn) <= FSSIZE
      ensures x.Some? ==> freeblock == old(freeblock) + Taken(old(V()), old(inodes), i, fbn)
      ensures x.Some? ==> Made(disk, inodes, owner, freeblock) && NMETA <= x.value < freeblock
      ensures x.Some? ==> i < |inodes| && inodes[i] == din' && SameMeta(old(disk), disk)
      ensures x.Some? ==> Bmapped(old(V()), old(inodes), old(owner), V(), inodes, owner, i, fbn, x.value)
    {
      hide Made;
      hide Marked;
      hide Bmapped;
      hide PutWord;
      hide Conserved;
      hide Fs.FreshBlock;
      hide Fs.SlotsChange;
      MadeMeans(disk, inodes, owner, freeblock, i);
      din' := din;
      if fbn >= NDIRECT {
        x, din' := EntryFor(i, fbn - NDIRECT, din);
        return;
      }
      ghost var l, v0, ins0, own0 := Layout0(), V(), inodes, owner;
      if din.addrs[fbn] == 0 {
        if freeblock >= FSSIZE {
          return None, din;
        }
        AddrTaken(disk, inodes, owner, freeblock, i, fbn);
        din' := din.(addrs := din.addrs[fbn := freeblock]);
        inodes := WithAddr(inodes, i, fbn, freeblock);
        owner := owner[freeblock := Slot(i, fbn)];
        freeblock := freeblock + 1;
        Fs.BmappedDirect(l, v0, ins0, own0, V(), inodes, owner, i, fbn, freeblock - 1);
      } else {
        Fs.BmappedAlready(l, v0, inodes, owner, i, fbn);
      }
      MadeMeans(disk, inodes, owner, freeblock, i);
      x := Some(din'.addrs[fbn]);
      BmappedRange(v0, ins0, own0, disk, inodes, owner, freeblock, i, fbn, x.value);
    }

    /** The block for entry j of the indirect block, and that block itself, if there is none. */
    method EntryFor(ghost i: nat, j: nat, din: Inode) returns (x: Option<nat>, din': Inode)
      requires Made(disk, inodes, owner, freeblock) && i < NSTORED && j < NINDIRECT && inodes[i] == din
      modifies this`disk, this`inodes, this`freeblock, this`owner
      ensures InodesOk(old(V()), old(inodes)) && i < |old(inodes)|
      ensures x.Some? <==> old(freeblock) + Taken(old(V()), old(inodes), i, j + NDIRECT) <= FSSIZE
      ensures x.Some? ==> freeblock == old(freeblock) + Taken(old(V()), old(inodes), i, j + NDIRECT)
      ensures x.Some? ==> Made(disk, inodes, owner, freeblock) && NMETA <= x.value < freeblock
      ensures x.Some? ==> i < |inodes| && inodes[i] == din' && SameMeta(old(disk), disk)
      ensures x.Some? ==> Bmapped(old(V()), old(inodes), old(owner), V(), inodes, owner, i, j + NDIRECT, x.value)
    {
      hide Virtual;
      hide Made;
      hide Marked;
      hide Bmapped;
      hide Conserved;
      hide Fs.FreshBlock;
      hide Fs.SlotsChange;
      hide Fs.KeepsOwned;
      MadeMeans(disk, inodes, owner, freeblock, i);
      din' := din;
      ghost var l, v0, ins0, own0 := Layout0(), V(), inodes, owner;
      if din.addrs[NDIRECT] == 0 {
        if freeblock >= FSSIZE {
          return None, din;
        }
        AddrTaken(disk, inodes, owner, freeblock, i, NDIRECT);
        din' := din.(addrs := din.addrs[NDIRECT := freeblock]);
        inodes := WithAddr(inodes, i, NDIRECT, freeblock);
        owner := owner[freeblock := Slot(i, NDIRECT)];
        freeblock := freeblock + 1;
        ghost var v1, ins1, own1, p := V(), inodes, owner, freeblock - 1;
        IndirectAt(disk, inodes, owner, freeblock, i, j);
        FreshEntry(v0, ins0, v1, ins1, i, j, p);
        x := NewEntry(i, j, din');
        if x.Some? {
          Fs.BmappedBoth(l, v0, ins0, own0, v1, ins1, own1, V(), owner, i, j, p, x.value);
        }
        return;
      }
      IndirectAt(disk, inodes, owner, freeblock, i, j);
      var a := Word(disk[din.addrs[NDIRECT]], j);
      if a == 0 {
        x := NewEntry(i, j, din);
        if x.Some? {
          Fs.BmappedEntry(l, v0, ins0, own0, V(), owner, i, j, x.value);
        }
        return;
      }
      Fs.BmappedAlready(l, v0, inodes, owner, i, j + NDIRECT);
      BmappedRange(v0, ins0, own0, disk, inodes, owner, freeblock, i, j + NDIRECT, a);
      x := Some(a);
    }

    /** A new block for an empty entry. */
    method NewEntry(ghost i: nat, j: nat, din: Inode) returns (x: Option<nat>)
      requires Made(disk, inodes, owner, freeblock) && i < NSTORED && j < NINDIRECT && InodesOk(V(), inodes)
      requires |inodes| == NSTORED
      requires inodes[i] == din && |din.addrs| == NDIRECT + 1 && din.addrs[NDIRECT] != 0
      requires SlotVal(V(), inodes, Slot(i, NDIRECT + 1 + j)) == 0
      modifies this`disk, this`freeblock, this`owner
      ensures x.Some? <==> old(freeblock) < FSSIZE
      ensures x.Some? ==> freeblock == old(freeblock) + 1 && SameMeta(old(disk), disk)
      ensures x.Some? ==> Made(disk, inodes, owner, freeblock) && NMETA <= x.value < freeblock
      ensures x.Some? ==> && Fs.FreshBlock(Layout0(), old(V()), V(), inodes, old(owner), owner,
              Slot(i, NDIRECT + 1 + j), x.value)
                          && Fs.KeepsOwned(old(V()), V(), old(owner), inodes[i].addrs[NDIRECT])
                          && Fs.SlotsChange(old(V()), inodes, V(), inodes, Slot(i, NDIRECT + 1 + j), x.value)
    {
      hide Virtual;
      hide Made;
      hide Marked;
      hide PutWord;
      hide Conserved;
      hide Fs.FreshBlock;
      hide Fs.SlotsChange;
      hide Fs.KeepsOwned;
      MadeMeans(disk, inodes, owner, freeblock, i);
      if freeblock >= FSSIZE {
        return None;
      }
      EntryTaken(disk, inodes, owner, freeblock, i, j);
      var p := din.addrs[NDIRECT];
      disk := disk[p := PutWord(disk[p], j, freeblock)];
      owner := owner[freeblock := Slot(i, NDIRECT + 1 + j)];
      freeblock := freeblock + 1;
      return Some(freeblock - 1);
    }

    /** iappend: src goes to the end of the file. It fails if the file or the image gets too large. */
    method Iappend(i: nat, src: seq<Byte>) returns (ok: bool)
      requires Building() && i < NSTORED
      modifies this`disk, this`inodes, this`freeblock, this`owner
      ensures ok <==> && old(inodes)[i].size + |src| <= MAXFILE * BSIZE
                      && old(freeblock) + More(old(inodes)[i].size, |src|) <= FSSIZE
      ensures ok ==> freeblock == old(freeblock) + More(old(inodes)[i].size, |src|)
      ensures ok ==> && Building() && Bytes(i) == old(Bytes(i)) + src
                     && inodes[i] == old(inodes)[i].(size := old(inodes)[i].size + |src|, addrs := inodes[i].addrs)
                     && SameBut(old(V()), old(inodes), V(), inodes, i)
    {
      hide Cost;
      hide Made;
      hide Marked;
      hide FileOk;
      hide Content;
      hide Writing;
      hide Conserved;
      hide BytesOf;
      hide InodesOk;
      hide GetInode;
      hide PutInode;
      hide SameMeta;
      MadeMeans(disk, inodes, owner, freeblock, i);
      assert FileOk(V(), inodes, i) && V() == Virtual(disk, freeblock);
      FileLimit(V(), inodes, i);
      var din := Dinode(Layout0(), disk, i);
      var off := din.size;
      if off + |src| > MAXFILE * BSIZE {
        return false;
      }
      ghost var e0, d0, ins0, own0 := disk, V(), inodes, owner;
      ok, din := Append(i, off, src, din);
      if !ok {
        return;
      }
      MadeMeans(disk, inodes, owner, freeblock, i);
      AppendEnds(d0, ins0, own0, disk, inodes, owner, freeblock, i, src);
      din := din.(size := off + |src|);
      inodes := inodes[i := din];
      AppendStored(e0, ins0, disk, inodes, owner, freeblock, i);
      disk := WithDinode(Layout0(), disk, i, din);
    }

    /** iappend's loop. */
    method Append(ghost i: nat, off: nat, src: seq<Byte>, din: Inode) returns (ok: bool, din': Inode)
      requires Made(disk, inodes, owner, freeblock) && i < NSTORED && FileOk(V(), inodes, i) && inodes[i] == din
      requires off == din.size && off + |src| <= MAXFILE * BSIZE
      modifies this`disk, this`inodes, this`freeblock, this`owner
      ensures ok <==> old(freeblock) + More(old(inodes)[i].size, |src|) <= FSSIZE
      ensures ok ==> freeblock == old(freeblock) + More(old(inodes)[i].size, |src|)
      ensures ok ==>
                Made(disk, inodes, owner, freeblock) && i < |inodes| && inodes[i] == din' && SameMeta(old(disk), disk)
      ensures ok ==> Writing(Layout0(), old(V()), old(inodes), old(owner), V(), inodes, owner, i, off, src, |src|)
    {
      hide Cost;
      hide Taken;
      hide Made;
      hide Marked;
      hide Writing;
      hide Bmapped;
      hide Conserved;
      hide Splice;
      hide SameMeta;
      MadeMeans(disk, inodes, owner, freeblock, i);
      ghost var l, d0, ins0, own0, f0 := Layout0(), V(), inodes, owner, freeblock;
      Fs.WritingStarts(l, d0, ins0, own0, i, off, src);
      MetaStarts(disk);
      din' := din;
      var tot := 0;
      while tot < |src|
        invariant 0 <= tot <= |src| && Made(disk, inodes, owner, freeblock) && |inodes| == NSTORED && inodes[i] == din'
        invariant Writing(l, d0, ins0, own0, V(), inodes, owner, i, off, src, tot)
        invariant freeblock == f0 + Cost(off + tot) - Cost(off) && SameMeta(old(disk), disk)
      {
        ghost var e, d, ins, own := disk, V(), inodes, owner;
        var at := off + tot;
        var m := Min(|src| - tot, BSIZE - at % BSIZE);
        TakenIs(l, d0, ins0, own0, d, ins, own, i, src, tot, m);
        CostGrows(at + m, off + |src|);
        var x;
        x, din' := BlockFor(i, at / BSIZE, din');
        if x.None? {
          return false, din';
        }
        MadeMeans(disk, inodes, owner, freeblock, i);
        WriteStep(l, d0, ins0, own0, d, ins, own, i, off, src, tot, V(), inodes, owner, x.value, m);
        var y := Splice(disk[x.value], at % BSIZE, src[tot..], m);
        DataMade(disk, inodes, owner, freeblock, x.value, y, d0, ins0, own0, i, off, src, tot + m);
        MetaStep(old(disk), e, disk, x.value, y);
        disk := disk[x.value := y];
        tot := tot + m;
      }
      MadeMeans(disk, inodes, owner, freeblock, i);
      ok := true;
    }

    /** The inodes from freeinode on are unused. */
    ghost predicate Unused()
      reads this
    {
      freeinode <= |inodes| && forall i :: freeinode <= i < |inodes| ==> inodes[i] == NoInode()
    }

    ghost function Size(i: nat): nat
      reads this
    {
      if i < |inodes| then inodes[i].size else 0
    }

    /** One file of the command line: an inode, an entry in the root directory, and the file's bytes, read up to a
        block at a time. */
    method AddFile(name: seq<Byte>, data: seq<Byte>) returns (ok: bool)
      requires Building() && Unused() && 2 <= freeinode < NSTORED && Size(1) + DIRENT <= MAXFILE * BSIZE
      modifies this
      ensures ok <==> && Small(data)
                      && old(freeblock) + More(old(Size(1)), DIRENT) + Cost(|data|) <= FSSIZE
      ensures ok ==> freeblock == old(freeblock) + More(old(Size(1)), DIRENT) + Cost(|data|)
      ensures ok ==> && Building() && Unused() && freeinode == old(freeinode) + 1 && Bytes(old(freeinode)) == data
                     && Bytes(1) == old(Bytes(1)) + Entry(old(freeinode), FileName(name))
                     && Size(1) == old(Size(1)) + DIRENT && inodes[old(freeinode)].kind == T_FILE
                     && Size(old(freeinode)) == |data|
                     && forall j :: 2 <= j < old(freeinode) ==> Bytes(j) == old(Bytes(j)) && inodes[j] == old(inodes)[j]
    {
      hide Cost;
      hide NoInode;
      hide Small;
      hide Made;
      hide Virtual;
      hide FilesOk;
      hide BytesOf;
      hide Stored;
      hide Entry;
      hide FileName;
      var i;
      ok, i := AddEntry(FileName(name));
      if ok {
        ok := AddData(i, data);
      }
    }

    /** The next inode under this name. */
    method AddEntry(name: seq<Byte>) returns (ok: bool, i: nat)
      requires Building() && Unused() && 2 <= freeinode < NSTORED && Size(1) + DIRENT <= MAXFILE * BSIZE
      modifies this
      ensures ok <==> old(freeblock) + More(old(Size(1)), DIRENT) <= FSSIZE
      ensures ok ==> freeblock == old(freeblock) + More(old(Size(1)), DIRENT)
      ensures ok ==> && Building() && Unused() && i == old(freeinode) && freeinode == i + 1 && Bytes(i) == []
                     && inodes[i].kind == T_FILE && Size(i) == 0 && Size(1) == old(Size(1)) + DIRENT
                     && Bytes(1) == old(Bytes(1)) + Entry(i, name)
                     && forall j :: 2 <= j < i ==> Bytes(j) == old(Bytes(j)) && inodes[j] == old(inodes)[j]
    {
      hide Cost;
      hide NoInode;
      hide SameBut;
      hide Made;
      hide Virtual;
      hide FilesOk;
      hide BytesOf;
      hide Stored;
      hide Entry;
      NoInodeIs();
      ghost var v0, ins0 := V(), inodes;
      i := Ialloc(T_FILE);
      EmptyBytes(V(), inodes, i);
      ghost var v1, ins1 := V(), inodes;
      assert ins1[1] == ins0[1];
      ok := Iappend(1, Entry(i, name));
      if ok {
        SameFiles(v0, ins0, v1, ins1, V(), inodes, i);
      }
    }

    /** The loop that reads a file. */
    method AddData(i: nat, data: seq<Byte>) returns (ok: bool)
      requires Building() && Unused() && freeinode == i + 1 && 2 <= i < NSTORED && Bytes(i) == [] && Size(i) == 0
      modifies this`disk, this`inodes, this`freeblock, this`owner
      ensures ok <==> Small(data) && old(freeblock) + Cost(|data|) <= FSSIZE
      ensures ok ==> freeblock == old(freeblock) + Cost(|data|)
      ensures ok ==>
                Building() && Unused() && Bytes(i) == data && Size(i) == |data| && inodes[i].kind == old(inodes[i].kind)
      ensures ok ==> SameBut(old(V()), old(inodes), V(), inodes, i)
    {
      hide Cost;
      hide NoInode;
      hide SameBut;
      hide Made;
      hide Virtual;
      hide FilesOk;
      hide BytesOf;
      hide Stored;
      ghost var f0 := freeblock;
      SameNow(V(), inodes, i);
      RootCost();
      var at := 0;
      while at < |data|
        invariant 0 <= at <= |data| && Building() && Unused()
        invariant Bytes(i) == data[..at] && inodes[i].kind == old(inodes[i].kind)
        invariant SameBut(old(V()), old(inodes), V(), inodes, i)
        invariant Size(i) == at && at <= MAXFILE * BSIZE && freeblock == f0 + Cost(at) <= FSSIZE
      {
        var m := Min(|data| - at, BSIZE);
        CostGrows(at + m, |data|);
        ghost var v, ins := V(), inodes;
        ok := Iappend(i, data[at..at+m]);
        if !ok {
          return;
        }
        SameTwice(old(V()), old(inodes), v, ins, V(), inodes, i);
        MoreOf(data, at, m);
        at := at + m;
      }
      AllOf(data);
      return true;
    }

    /** The root directory, with "." and "..". */
    method AddRoot() returns (ok: bool)
      requires Building() && freeinode == 1 && (forall i :: 0 <= i < |inodes| ==> inodes[i] == NoInode())
      requires freeblock == NMETA
      modifies this
      ensures ok && freeblock == NMETA + Cost(DIRENT * 2)
      ensures Building() && Unused() && freeinode == 2 && Bytes(1) == Dots() && Size(1) == DIRENT * 2
    {
      hide SameBut;
      hide Made;
      hide Virtual;
      hide FilesOk;
      hide BytesOf;
      hide Stored;
      hide Entry;
      hide Cost;
      hide NoInode;
      hide Dots;
      NoInodeIs();
      var root := Ialloc(T_DIR);
      EmptyBytes(V(), inodes, 1);
      ok := AddDots(root);
    }

    /** The two entries. */
    method AddDots(root: nat) returns (ok: bool)
      requires Building() && root == 1 && Bytes(1) == [] && Size(1) == 0 && freeblock == NMETA
      modifies this`disk, this`inodes, this`freeblock, this`owner
      ensures ok && freeblock == NMETA + Cost(DIRENT * 2) && Building() && Bytes(1) == Dots() && Size(1) == DIRENT * 2
      ensures |inodes| == |old(inodes)| && forall j :: 2 <= j < |inodes| ==> inodes[j] == old(inodes)[j]
    {
      hide SameBut;
      hide Made;
      hide Virtual;
      hide FilesOk;
      hide BytesOf;
      hide Stored;
      hide Entry;
      hide Cost;
      hide Dots;
      RootCost();
      ghost var v1, ins1 := V(), inodes;
      ok := Iappend(root, Entry(root, [DOT]));
      if !ok {
        return;
      }
      ghost var v2, ins2 := V(), inodes;
      ok := Iappend(root, Entry(root, [DOT, DOT]));
      if ok {
        SameTwice(v1, ins1, v2, ins2, V(), inodes, 1);
        SameInodes(v1, ins1, V(), inodes, 1);
        DotsAre();
      }
    }

    /** File k of the command line is inode k + 2. */
    ghost predicate Held(files: seq<seq<Byte>>, k: nat)
      requires k < |files|
      reads this
    {
      k + 2 < |inodes| && Bytes(k + 2) == files[k] && inodes[k+2].kind == T_FILE && Size(k + 2) == |files[k]|
    }

    /** The first k files are in the image, and so are their entries after those in b0. */
    ghost predicate Added(names: seq<seq<Byte>>, files: seq<seq<Byte>>, k: nat, b0: seq<Byte>)
      reads this
    {
      && k <= |files| == |names| && Building() && Unused() && freeinode == k + 2 <= NSTORED == |inodes|
      && Size(1) == DIRENT * (2 + k) && freeblock == NMETA + ImageCost(files, k)
      && Bytes(1) == b0 + Joined(names, k) && forall j :: 0 <= j < k ==> Held(files, j)
    }

    /** One turn of main's loop. */
    method AddNext(names: seq<seq<Byte>>, files: seq<seq<Byte>>, k: nat, ghost b0: seq<Byte>) returns (ok: bool)
      requires Added(names, files, k, b0) && Fits(files, k) && k < |files| && k + 2 < NSTORED
      modifies this
      ensures ok <==> Fits(files, k + 1)
      ensures ok ==> Added(names, files, k + 1, b0)
    {
      hide Cost;
      hide Made;
      hide Virtual;
      hide FilesOk;
      hide BytesOf;
      hide Stored;
      hide Entry;
      hide FileName;
      hide ImageCost;
      hide Fits;
      hide Small;
      FitsNext(files, k);
      assert forall j :: 0 <= j < k ==> Held(files, j);
      ok := AddFile(names[k], files[k]);
      if ok {
        assert b0 + Joined(names, k) + Entry(k + 2, FileName(names[k])) == b0 + Joined(names, k + 1);
        forall j | 0 <= j < k + 1 ensures Held(files, j) {
          if j < k { assert old(Held(files, j)); }
        }
      }
    }

    /** main's loop over the files. */
    method AddFiles(names: seq<seq<Byte>>, files: seq<seq<Byte>>) returns (r: Outcome)
      requires Building() && Unused() && freeinode == 2 && |names| == |files|
      requires Size(1) == DIRENT * 2 && freeblock == NMETA + ImageCost(files, 0)
      modifies this
      ensures r.Done? <==> |files| <= NSTORED - 2 && Fits(files, |files|)
      ensures r.Overrun? <==> |files| > NSTORED - 2 && Fits(files, NSTORED - 2)
      ensures r.Overrun? ==> freeinode == NSTORED && NMETA in owner
      ensures r.Done? ==> Added(names, files, |files|, old(Bytes(1)))
    {
      hide Cost;
      hide Made;
      hide Virtual;
      hide FilesOk;
      hide BytesOf;
      hide Stored;
      hide ImageCost;
      hide Fits;
      hide Small;
      FitsNone(files);
      ghost var b0 := Bytes(1);
      var k := 0;
      assert b0 == b0 + Joined(names, 0);
      while k < |files|
        invariant 0 <= k <= |files| && Added(names, files, k, b0) && Fits(files, k)
      {
        if freeinode == NSTORED {
          SomeCost(files, k);
          InUse(disk, inodes, owner, freeblock);
          return Overrun;
        }
        var ok := AddNext(names, files, k, b0);
        if !ok {
          FitsLess(files, k + 1, |files|);
          if |files| > NSTORED - 2 { FitsLess(files, k + 1, NSTORED - 2); }
          return Failed;
        }
        k := k + 1;
      }
      return Done;
    }

    /** The end of main: the root directory's size is rounded up, and the bitmap is written, over the inodes that were
        stored in its block. */
    method Finish()
      requires Building() && inodes[1].size / BSIZE < MAXFILE
      modifies this`disk, this`inodes
      ensures inodes == Resized(old(inodes), 1, (old(inodes)[1].size / BSIZE + 1) * BSIZE)
      ensures |disk| == FSSIZE && Final(old(V()), old(inodes), disk) && disk[BITMAP] == Marked(freeblock)
    {
      hide Made;
      hide PutBit;
      hide GetInode;
      hide PutInode;
      MadeMeans(disk, inodes, owner, freeblock, 1);
      assert FileOk(V(), inodes, 1);
      ghost var v := V();
      var din := Dinode(Layout0(), disk, 1);
      din := din.(size := (din.size / BSIZE + 1) * BSIZE);
      Resize(Layout0(), v, inodes, owner, 1, din.size);
      ghost var ins := inodes;
      inodes := inodes[1 := din];
      ResizedMade(disk, ins, owner, freeblock, din.size);
      StoreOne(disk, ins, disk, inodes, owner, freeblock, 1);
      disk := WithDinode(Layout0(), disk, 1, din);
      var buf := ZeroBlock();
      var i := 0;
      while i < freeblock
        invariant 0 <= i <= freeblock <= FSSIZE && buf == Marked(i)
      {
        buf := PutBit(buf, i, true);
        i := i + 1;
      }
      FinalNow(v, ins, inodes, disk, freeblock, buf);
      disk := disk[BITMAP := buf];
    }
  }

  /** The bitmap goes over the last inodes. */
  lemma {:induction false} FinalNow(v: Disk, ins: seq<Inode>, ins': seq<Inode>, d: Disk, free: nat, buf: Block)
    requires |ins| == NSTORED && ins' == Resized(ins, 1, (ins[1].size / BSIZE + 1) * BSIZE) && Stored(d, ins')
    requires free <= FSSIZE && v == Virtual(d, free) && buf == Marked(free)
    ensures Final(v, ins, d[BITMAP := buf])
  {
    hide Marked;
    hide GetInode;
    hide Storable;
    var e := d[BITMAP := buf];
    forall i: nat | i < NHELD ensures Inodes(e)[i] == ins'[i] { assert Dinode(Layout0(), d, i) == ins'[i]; }
    assert Inodes(e) == ins'[..NHELD];
  }

  /** The disk is v but for the inode blocks. */
  ghost predicate Written(v: Disk, d: Disk)
  {
    |v| == |d| == FSSIZE && forall b :: 0 <= b < FSSIZE && (b < INODES || b >= BITMAP) ==> d[b] == v[b]
  }

  lemma {:induction false} ResizedMade(d: Disk, ins: seq<Inode>, own: map<nat, Slot>, free: nat, size: nat)
    requires Made(d, ins, own, free)
    ensures Made(d, Resized(ins, 1, size), own, free)
  {
    hide Conserved;
    Resize(Layout0(), Virtual(d, free), ins, own, 1, size);
  }

  lemma {:induction false} MetaStarts(d: Disk)
    requires |d| == FSSIZE
    ensures SameMeta(d, d)
  {}

  lemma {:induction false} MetaStep(d0: Disk, d: Disk, e: Disk, x: nat, y: Block)
    requires SameMeta(d0, d) && SameMeta(d, e) && NMETA <= x < FSSIZE
    ensures SameMeta(d0, e[x := y])
  {}

  lemma {:induction false} AppendStored(d: Disk, ins: seq<Inode>, e: Disk, ins': seq<Inode>, own: map<nat, Slot>,
                                        free: nat, i: nat)
    requires Stored(d, ins) && SameMeta(d, e) && Made(e, ins', own, free) && i < NSTORED
    requires FileOk(Virtual(e, free), ins', i)
    requires ins'[i].kind == ins[i].kind && ins'[i].nlink == ins[i].nlink
    requires forall j :: 0 <= j < NSTORED && j != i ==> ins'[j] == ins[j]
    ensures Storable(ins'[i])
    ensures var e' := WithDinode(Layout0(), e, i, ins'[i]);
            Stored(e', ins') && Made(e', ins', own, free) && Virtual(e', free) == Virtual(e, free)
  {
    hide Made;
    hide FileOk;
    MadeSize(e, ins', own, free);
    assert Storable(ins[i]);
    FileStorable(e, ins', own, free, i);
    StoreOne(d, ins, e, ins', own, free, i);
  }

  /** The first block after the bitmap is in use once the root directory is there. */
  lemma {:induction false} InUse(d: Disk, ins: seq<Inode>, own: map<nat, Slot>, free: nat)
    requires Made(d, ins, own, free) && free > NMETA
    ensures NMETA in own
  {
    MadeLive(d, ins, own, free);
  }

  lemma {:induction false} AllOf(data: seq<Byte>)
    ensures data[..|data|] == data
  {}

  lemma {:induction false} MoreOf(data: seq<Byte>, at: nat, m: nat)
    requires at + m <= |data|
    ensures data[..at] + data[at..at+m] == data[..at+m]
  {}

  lemma {:induction false} RootCost()
    ensures Cost(0) == 0 && Cost(DIRENT) == 1 && Cost(DIRENT * 2) == 1
  {}

  lemma {:induction false} NoInodeIs()
    ensures NoInode().size == 0
  {}

  lemma {:induction false} DotsAre()
    ensures [] + Entry(1, [DOT]) + Entry(1, [DOT, DOT]) == Dots()
  {}

  lemma {:induction false} EmptyBytes(d: Disk, ins: seq<Inode>, i: nat)
    requires FilesOk(d, ins) && i < NSTORED <= |ins| && ins[i].size == 0
    ensures BytesOf(d, ins, i) == []
  {}

  const DOT: Byte := 46

  /** The first two entries of the root directory. */
  function Dots(): seq<Byte> { Entry(1, [DOT]) + Entry(1, [DOT, DOT]) }

  /** The entries of the first k files. */
  function Joined(names: seq<seq<Byte>>, k: nat): seq<Byte>
    requires k <= |names| && k <= NSTORED
  {
    if k == 0 then [] else Joined(names, k - 1) + Entry(k + 1, FileName(names[k-1]))
  }

  /** The first k files are not too large, and they and the root directory fit on the disk. */
  predicate Fits(files: seq<seq<Byte>>, k: nat)
    requires k <= |files|
  {
    (forall j :: 0 <= j < k ==> Small(files[j])) && NMETA + ImageCost(files, k) <= FSSIZE
  }

  lemma {:induction false} FitsNone(files: seq<seq<Byte>>)
    ensures Fits(files, 0)
  {}

  lemma {:induction false} SomeCost(files: seq<seq<Byte>>, k: nat)
    requires k <= |files|
    ensures ImageCost(files, k) > 0
  {}

  lemma {:induction false} FitsNext(files: seq<seq<Byte>>, k: nat)
    requires k < |files| && Fits(files, k)
    ensures Fits(files, k + 1) <==> Small(files[k]) && NMETA + ImageCost(files, k + 1) <= FSSIZE
    ensures ImageCost(files, k + 1) == ImageCost(files, k) + More(DIRENT * (2 + k), DIRENT) + Cost(|files[k]|)
  {
    hide Cost;
  }

  lemma {:induction false} FitsLess(files: seq<seq<Byte>>, k: nat, n: nat)
    requires k <= n <= |files|
    ensures Fits(files, n) ==> Fits(files, k)
  {
    ImageGrows(files, k, n);
  }

  // ----- the image as the kernel finds it -----

  /** The inodes in the inode blocks. */
  function Inodes(d: Disk): seq<Inode>
    requires |d| == FSSIZE
  {
    Table(Layout0(), d, NHELD)
  }

  lemma {:induction false} WrittenSlots(v: Disk, d: Disk, ins: seq<Inode>, own: map<nat, Slot>)
    requires Conserved(Layout0(), v, ins, own) && Written(v, d) && |ins| == NSTORED
    ensures Conserved(Layout0(), d, ins, own) && InodesOk(d, ins[..NHELD])
    ensures forall s :: IsSlot(ins, s) ==> SlotVal(d, ins, s) == SlotVal(v, ins, s)
    ensures forall s :: IsSlot(ins[..NHELD], s) ==> SlotVal(d, ins[..NHELD], s) == SlotVal(v, ins, s)
  {
    hide BlockBit;
    var l := Layout0();
    SlotsFrame(l, v, d, ins, own);
    forall b: nat | b < l.size ensures Bit(l, d, b) == Bit(l, v, b) { assert b / BPB == 0; }
    assert InodesOk(d, ins[..NHELD]);
    forall s | IsSlot(ins[..NHELD], s)
      ensures SlotVal(d, ins[..NHELD], s) == SlotVal(v, ins, s)
    {
      assert IsSlot(ins, s);
    }
  }

  /** A file with its inode in the inode blocks is as mkfs built it. */
  lemma {:induction false} WrittenFile(v: Disk, d: Disk, ins: seq<Inode>, own: map<nat, Slot>, i: nat)
    requires Conserved(Layout0(), v, ins, own) && Written(v, d) && |ins| == NSTORED && i < NHELD
    ensures InodesOk(d, ins[..NHELD]) && InodesOk(v, ins) && (FileOk(d, ins[..NHELD], i) <==> FileOk(v, ins, i))
    ensures forall nb :: Mapped(d, ins[..NHELD], i, nb) <==> Mapped(v, ins, i, nb)
    ensures forall n: nat :: n <= MAXFILE * BSIZE ==> Content(d, ins[..NHELD], i, n) == Content(v, ins, i, n)
  {
    hide Bits;
    hide ByteAt;
    var t := ins[..NHELD];
    WrittenSlots(v, d, ins, own);
    assert InodesOk(v, ins) && t[i] == ins[i];
    forall x: nat | x < MAXFILE ensures FileBlock(d, t, i, x) == FileBlock(v, ins, i, x) {
      assert IsSlot(t, Slot(i, FileSlot(x)));
    }
    forall p: nat | p < MAXFILE * BSIZE ensures FileByte(d, t, i, p) == FileByte(v, ins, i, p) {
      var s := Slot(i, FileSlot(p / BSIZE));
      assert IsSlot(ins, s) && SlotVal(v, ins, s) == FileBlock(v, ins, i, p / BSIZE);
    }
  }

  /** The blocks can be accounted for if and only if the files whose inodes are lost had none. */
  lemma {:induction false} HeldAccounted(v: Disk, d: Disk, ins: seq<Inode>, own: map<nat, Slot>)
    requires Conserved(Layout0(), v, ins, own) && Written(v, d) && |ins| == NSTORED
    requires forall i :: NHELD <= i < NSTORED ==> FileOk(v, ins, i)
    ensures Accounted(Layout0(), d, ins[..NHELD]) <==> forall i :: NHELD <= i < NSTORED ==> ins[i].size == 0
  {
    var t := ins[..NHELD];
    WrittenSlots(v, d, ins, own);
    if i :| NHELD <= i < NSTORED && ins[i].size != 0 {
      LostBlock(v, d, ins, own, i);
    } else {
      HeldConserved(v, d, ins, own);
    }
  }

  lemma {:induction false} LostBlock(v: Disk, d: Disk, ins: seq<Inode>, own: map<nat, Slot>, i: nat)
    requires Conserved(Layout0(), v, ins, own) && Written(v, d) && |ins| == NSTORED
    requires NHELD <= i < NSTORED && FileOk(v, ins, i) && ins[i].size > 0
    ensures !Accounted(Layout0(), d, ins[..NHELD])
  {
    hide Bits;
    WrittenSlots(v, d, ins, own);
    var s := Slot(i, FileSlot(0));
    assert BlocksFor(ins[i].size) > 0 && IsSlot(ins, s);
    var b := FileBlock(v, ins, i, 0);
    assert b != 0 && b in own && own[b] == s;
    forall u | IsSlot(ins[..NHELD], u) ensures SlotVal(d, ins[..NHELD], u) != b { assert IsSlot(ins, u) && u != s; }
    Unaccounted(Layout0(), d, ins, own, ins[..NHELD], b);
  }

  lemma {:induction false} HeldConserved(v: Disk, d: Disk, ins: seq<Inode>, own: map<nat, Slot>)
    requires Conserved(Layout0(), v, ins, own) && Written(v, d) && |ins| == NSTORED
    requires forall i :: NHELD <= i < NSTORED ==> FileOk(v, ins, i) && ins[i].size == 0
    ensures Conserved(Layout0(), d, ins[..NHELD], own)
  {
    hide Bits;
    var t := ins[..NHELD];
    WrittenSlots(v, d, ins, own);
    forall b | b in own ensures IsSlot(t, own[b]) {
      if own[b].i >= NHELD { EmptySlot(v, ins, own[b]); }
    }
  }

  lemma {:induction false} EmptySlot(v: Disk, ins: seq<Inode>, s: Slot)
    requires IsSlot(ins, s) && FileOk(v, ins, s.i) && ins[s.i].size == 0
    ensures SlotVal(v, ins, s) == 0
  {
    assert Mapped(v, ins, s.i, 0);
    if s.k != NDIRECT {
      var x := if s.k < NDIRECT then s.k else s.k - 1;
      assert FileSlot(x) == s.k && FileBlock(v, ins, s.i, x) == 0;
    }
  }

  /** The first two bits of a dinode. */
  lemma {:induction false} TwoBits(b: Block, k: nat)
    requires k < IPB
    ensures BlockBit(b, 512 * k) <==> Word(b, DINODE * k) % 256 % 2 == 1
    ensures BlockBit(b, 512 * k + 1) <==> Word(b, DINODE * k) % 256 / 2 % 2 == 1
  {
    hide BitOf;
    assert 512 * k / 8 == 64 * k && (512 * k + 1) / 8 == 64 * k && 512 * k % 8 == 0 && (512 * k + 1) % 8 == 1;
    assert ByteAt(b, 64 * k) == Word(b, DINODE * k) % 256;
    FirstBits(ByteAt(b, 64 * k));
  }

  lemma {:induction false} FirstBits(x: nat)
    ensures (BitOf(x, 0) <==> x % 2 == 1) && (BitOf(x, 1) <==> x / 2 % 2 == 1)
  {
    assert BitOf(x / 2, 0) <==> x / 2 % 2 == 1;
  }

  lemma {:induction false} FileBits(w: Uint)
    requires Short(w % 65536) == T_FILE
    ensures w % 256 % 2 == 0 && w % 256 / 2 % 2 == 1
  {
    assert w % 65536 == 2 && w % 256 == 2;
  }

  /** An inode stored in the bitmap block is not that of a file once the bitmap is there. */
  lemma {:induction false} LostInode(d: Disk, n: nat, i: nat)
    requires |d| == FSSIZE && n <= FSSIZE && d[BITMAP] == Marked(n) && NHELD <= i < NSTORED
    ensures Dinode(Layout0(), d, i).kind != T_FILE
  {
    hide Marked;
    hide BlockBit;
    hide Short;
    var k := i - NHELD;
    assert InodeBlock(Layout0(), i) == BITMAP && i % IPB == k;
    MarkedBits(n, 512 * k);
    MarkedBits(n, 512 * k + 1);
    TwoBits(Marked(n), k);
    if Dinode(Layout0(), d, i).kind == T_FILE { FileBits(Word(Marked(n), DINODE * k)); }
  }

  /** The image d holds the files, and the root directory their entries. */
  ghost predicate Holds(d: Disk, names: seq<seq<Byte>>, files: seq<seq<Byte>>)
    requires |d| == FSSIZE && |names| == |files| <= NSTORED - 2
  {
    var ins := Inodes(d);
    && InodesOk(d, ins)
    && (forall i :: 2 <= i < |files| + 2 && i < NHELD ==> BytesOf(d, ins, i) == files[i - 2] && ins[i].kind == T_FILE)
    && (forall i :: 0 <= i < NHELD && i != 1 ==> FileOk(d, ins, i))
    && Content(d, ins, 1, DIRENT * (2 + |names|)) == Dots() + Joined(names, |names|)
    && Mapped(d, ins, 1, BlocksFor(DIRENT * (2 + |names|)))
    && |ins| == NHELD && ins[1].size == (DIRENT * (2 + |names|) / BSIZE + 1) * BSIZE
  }

  /** File k of the command line is inode k + 2. */
  ghost predicate FileAt(v: Disk, ins: seq<Inode>, files: seq<seq<Byte>>, k: nat)
  {
    && k < |files| && k + 2 < |ins|
    && BytesOf(v, ins, k + 2) == files[k] && ins[k+2].kind == T_FILE && ins[k+2].size == |files[k]|
  }

  /** What main's loop has built, on the disk to be. */
  ghost predicate Loaded(v: Disk, ins: seq<Inode>, own: map<nat, Slot>, names: seq<seq<Byte>>, files: seq<seq<Byte>>)
  {
    && Conserved(Layout0(), v, ins, own) && |ins| == NSTORED && FilesOk(v, ins) && |names| == |files| <= NSTORED - 2
    && ins[1].size == DIRENT * (2 + |names|) && BytesOf(v, ins, 1) == Dots() + Joined(names, |names|)
    && (forall k :: 0 <= k < |files| ==> FileAt(v, ins, files, k))
    && (forall i :: |files| + 2 <= i < NSTORED ==> ins[i].size == 0)
  }

  /** The image after the last writes. */
  ghost predicate Final(v: Disk, ins: seq<Inode>, d: Disk)
  {
    && |ins| == NSTORED && Written(v, d)
    && Inodes(d) == Resized(ins, 1, (ins[1].size / BSIZE + 1) * BSIZE)[..NHELD]
  }

  lemma {:induction false} FinalFile(v: Disk, ins: seq<Inode>, own: map<nat, Slot>, d: Disk, i: nat)
    requires Conserved(Layout0(), v, ins, own) && Final(v, ins, d) && i < NHELD && i != 1 && FileOk(v, ins, i)
    ensures FileOk(d, Inodes(d), i) && BytesOf(d, Inodes(d), i) == BytesOf(v, ins, i)
  {
    hide Conserved;
    hide Mapped;
    hide Content;
    hide Table;
    var size := (ins[1].size / BSIZE + 1) * BSIZE;
    OtherResized(v, ins, own, size, i);
    Resize(Layout0(), v, ins, own, 1, size);
    WrittenFile(v, d, Resized(ins, 1, size), own, i);
  }

  lemma {:induction false} FinalRoot(v: Disk, ins: seq<Inode>, own: map<nat, Slot>, d: Disk)
    requires Conserved(Layout0(), v, ins, own) && Final(v, ins, d) && FileOk(v, ins, 1) && ins[1].size / BSIZE < MAXFILE
    ensures InodesOk(d, Inodes(d)) && Content(d, Inodes(d), 1, ins[1].size) == BytesOf(v, ins, 1)
    ensures FileOk(d, Inodes(d), 1) <==> ins[1].size % BSIZE != 0
    ensures Mapped(d, Inodes(d), 1, BlocksFor(ins[1].size)) && |Inodes(d)| == NHELD
    ensures Inodes(d)[1].size == (ins[1].size / BSIZE + 1) * BSIZE
  {
    hide Conserved;
    hide Mapped;
    hide Content;
    hide Table;
    var size := (ins[1].size / BSIZE + 1) * BSIZE;
    RootRounded(v, ins, own, size);
    WrittenFile(v, d, Resized(ins, 1, size), own, 1);
  }

  lemma {:induction false} FinalHolds(v: Disk, ins: seq<Inode>, own: map<nat, Slot>, d: Disk, names: seq<seq<Byte>>,
                                      files: seq<seq<Byte>>)
    requires Loaded(v, ins, own, names, files) && Final(v, ins, d)
    ensures Holds(d, names, files) && (FileOk(d, Inodes(d), 1) <==> (2 + |names|) % 32 != 0)
  {
    hide Conserved;
    hide Content;
    hide BytesOf;
    hide Inodes;
    hide Mapped;
    hide Joined;
    hide Dots;
    EntriesPerBlock(2 + |names|);
    assert FileOk(v, ins, 1);
    FinalRoot(v, ins, own, d);
    forall i: nat | i < NHELD && i != 1
      ensures FileOk(d, Inodes(d), i) && BytesOf(d, Inodes(d), i) == BytesOf(v, ins, i)
    {
      assert FileOk(v, ins, i);
      FinalFile(v, ins, own, d, i);
    }
    FinalKinds(v, ins, d);
    forall i | 2 <= i < |files| + 2 && i < NHELD
      ensures BytesOf(d, Inodes(d), i) == files[i - 2] && Inodes(d)[i].kind == T_FILE
    {
      var k := i - 2;
      assert FileAt(v, ins, files, k);
    }
  }

  lemma {:induction false} FinalKinds(v: Disk, ins: seq<Inode>, d: Disk)
    requires Final(v, ins, d)
    ensures |Inodes(d)| == NHELD && forall i :: 0 <= i < NHELD ==> Inodes(d)[i].kind == ins[i].kind
  {}

  lemma {:induction false} FinalAccounted(v: Disk, ins: seq<Inode>, own: map<nat, Slot>, d: Disk, names: seq<seq<Byte>>,
                                          files: seq<seq<Byte>>)
    requires Loaded(v, ins, own, names, files) && Final(v, ins, d)
    ensures Accounted(Layout0(), d, Inodes(d)) <==> forall k :: NHELD - 2 <= k < |files| ==> files[k] == []
    ensures |files| <= NHELD - 2 ==> Conserved(Layout0(), d, Inodes(d), own)
  {
    hide Conserved;
    hide Accounted;
    hide Inodes;
    hide Mapped;
    hide Content;
    var size := (ins[1].size / BSIZE + 1) * BSIZE;
    var ins' := Resized(ins, 1, size);
    Resize(Layout0(), v, ins, own, 1, size);
    forall i: nat | NHELD <= i < NSTORED ensures FileOk(v, ins', i) && ins'[i].size == ins[i].size {
      assert FileOk(v, ins, i);
      OtherResized(v, ins, own, size, i);
    }
    HeldAccounted(v, d, ins', own);
    if |files| <= NHELD - 2 { HeldConserved(v, d, ins', own); }
    LostSizes(v, ins, files);
  }

  lemma {:induction false} LostSizes(v: Disk, ins: seq<Inode>, files: seq<seq<Byte>>)
    requires |ins| == NSTORED && |files| <= NSTORED - 2
    requires forall k :: 0 <= k < |files| ==> FileAt(v, ins, files, k)
    requires forall i :: |files| + 2 <= i < NSTORED ==> ins[i].size == 0
    ensures (forall i :: NHELD <= i < NSTORED ==> ins[i].size == 0)
            <==> forall k :: NHELD - 2 <= k < |files| ==> files[k] == []
  {
    hide BytesOf;
    if forall k :: NHELD - 2 <= k < |files| ==> files[k] == [] {
      forall i | NHELD <= i < NSTORED ensures ins[i].size == 0 {
        if i < |files| + 2 { assert FileAt(v, ins, files, i - 2); }
      }
    } else {
      var k :| NHELD - 2 <= k < |files| && files[k] != [];
      assert FileAt(v, ins, files, k);
    }
  }

  /** mkfs's main: a root directory with "." and "..", then one entry and one inode for every file. It ends with exit
      status 0 if and only if no file is too large and all of them, with the root directory, fit on the disk, up to the
      number of files where it begins to store inodes in data blocks. Then the image holds the first 206 files, and all
      entries; the inode of any other file is lost, and its blocks stay in use for good. The root directory has the
      blocks its size says if and only if the number of entries is no multiple of 32. */
  method Make(names: seq<seq<Byte>>, files: seq<seq<Byte>>) returns (r: Outcome, im: Image)
    requires |names| == |files|
    ensures r.Done? <==> |files| <= NSTORED - 2 && Fits(files, |files|)
    ensures r.Overrun? <==> |files| > NSTORED - 2 && Fits(files, NSTORED - 2)
    ensures r.Overrun? ==> InodeBlock(Layout0(), im.freeinode) in im.owner
    ensures r.Done? ==> |im.disk| == FSSIZE && Holds(im.disk, names, files)
    ensures r.Done? ==>
              im.freeblock == NMETA + ImageCost(files, |files|) <= FSSIZE && im.disk[BITMAP] == Marked(im.freeblock)
    ensures r.Done? ==> (FileOk(im.disk, Inodes(im.disk), 1) <==> (2 + |names|) % 32 != 0)
    ensures r.Done? ==> forall i :: NHELD <= i < |files| + 2 ==> Dinode(Layout0(), im.disk, i).kind != T_FILE
    ensures r.Done? ==> (Accounted(Layout0(), im.disk, Inodes(im.disk)) <==> forall k :: NHELD - 2 <= k < |files| ==>
            files[k] == [])
    ensures r.Done? && |files| <= NHELD - 2 ==> Conserved(Layout0(), im.disk, Inodes(im.disk), im.owner)
  {
    hide Made;
    hide FilesOk;
    hide Stored;
    hide BytesOf;
    hide Conserved;
    hide Holds;
    hide Accounted;
    hide Inodes;
    hide Loaded;
    hide Final;
    hide Fits;
    hide ImageCost;
    hide Dots;
    im := new Image();
    var ok := im.AddRoot();
    NoFiles(files);
    r := im.AddFiles(names, files);
    if !r.Done? {
      return;
    }
    ghost var v, ins := im.V(), im.inodes;
    LoadedNow(im, names, files);
    im.Finish();
    FinalHolds(v, ins, im.owner, im.disk, names, files);
    FinalAccounted(v, ins, im.owner, im.disk, names, files);
    forall i | NHELD <= i < |files| + 2 ensures Dinode(Layout0(), im.disk, i).kind != T_FILE {
      LostInode(im.disk, im.freeblock, i);
    }
  }

  lemma {:induction false} NoFiles(files: seq<seq<Byte>>)
    ensures ImageCost(files, 0) == Cost(DIRENT * 2)
  {}

  lemma {:induction false} LoadedNow(im: Image, names: seq<seq<Byte>>, files: seq<seq<Byte>>)
    requires im.Added(names, files, |files|, Dots())
    ensures Loaded(im.V(), im.inodes, im.owner, names, files)
  {
    hide Conserved;
    hide FilesOk;
    hide BytesOf;
    hide Stored;
    hide Joined;
    hide Dots;
    hide Made;
    hide NoInode;
    hide ImageCost;
    NoInodeIs();
    MadeMeans(im.disk, im.inodes, im.owner, im.freeblock, 1);
    var v, ins := im.V(), im.inodes;
    assert Conserved(Layout0(), v, ins, im.owner) && |ins| == NSTORED && FilesOk(v, ins);
    assert im.Size(1) == DIRENT * (2 + |names|) && im.Bytes(1) == Dots() + Joined(names, |names|);
    forall k | 0 <= k < |files| ensures FileAt(v, ins, files, k) { assert im.Held(files, k); }
    forall i | |files| + 2 <= i < NSTORED ensures ins[i].size == 0 { assert ins[i] == NoInode(); }
  }

  /** The kernel on the image that mkfs made: the file system is in order if and only if the number of entries of the
      root directory is no multiple of 32, and every file reads back as it was. */
  method Boot(names: seq<seq<Byte>>, files: seq<seq<Byte>>) returns (ok: bool, fs: Fs.FileSystem?)
    requires |names| == |files|
    ensures ok <==> fs != null
    ensures ok <==> |files| <= NHELD - 2 && Fits(files, |files|)
    ensures ok ==> fresh(fs) && fs.l == Layout0() && |fs.disk| == FSSIZE && fs.dinodes == fs.inodes == Inodes(fs.disk)
    ensures ok ==> Conserved(fs.l, fs.disk, fs.inodes, fs.owner) && Holds(fs.disk, names, files)
    ensures ok ==> (fs.Valid() <==> (2 + |names|) % 32 != 0)
    ensures ok ==>
              && NMETA + ImageCost(files, |files|) <= FSSIZE
              && fs.disk[BITMAP] == Marked(NMETA + ImageCost(files, |files|))
  {
    hide Inodes;
    hide Marked;
    hide Dinode;
    hide FileOk;
    hide Conserved;
    hide Holds;
    hide Accounted;
    hide Fits;
    hide ImageCost;
    var r, im := Make(names, files);
    fs := null;
    ok := r.Done? && |files| <= NHELD - 2;
    if ok {
      fs := new Fs.FileSystem(Layout0(), im.disk, Inodes(im.disk), im.owner);
      HoldsFiles(im.disk, names, files);
    }
  }

  lemma {:induction false} HoldsFiles(d: Disk, names: seq<seq<Byte>>, files: seq<seq<Byte>>)
    requires |d| == FSSIZE && |names| == |files| <= NSTORED - 2 && Holds(d, names, files)
    ensures (forall i :: 0 <= i < |Inodes(d)| ==> FileOk(d, Inodes(d), i)) <==> FileOk(d, Inodes(d), 1)
  {}

  /** The failing case of the root directory: 30 empty files make 32 entries, and it claims a block it does not have. */
  method ThirtyFiles(names: seq<seq<Byte>>) returns (fs: Fs.FileSystem)
    requires |names| == 30
    ensures fresh(fs) && !fs.Valid() && fs.l == Layout0() && |fs.disk| == FSSIZE
    ensures fs.dinodes == fs.inodes == Inodes(fs.disk)
    ensures Conserved(fs.l, fs.disk, fs.inodes, fs.owner) && !FileOk(fs.disk, fs.inodes, 1)
    ensures |fs.inodes| == NHELD && fs.inodes[1].size == 2 * BSIZE && FileBlock(fs.disk, fs.inodes, 1, 1) == 0
    ensures !Fs.Full(fs.l, fs.disk)
  {
    hide FileOk;
    hide Conserved;
    hide Holds;
    hide Marked;
    hide Inodes;
    hide Fs.Full;
    var files: seq<seq<Byte>> := seq(30, k => []);
    EmptyCost(files, 30);
    var ok, f := Boot(names, files);
    HoldsFiles(f.disk, names, files);
    SecondBlock(f.disk, names, files);
    NotFull(f.disk, 60);
    fs := f;
  }

  lemma {:induction false} SecondBlock(d: Disk, names: seq<seq<Byte>>, files: seq<seq<Byte>>)
    requires |d| == FSSIZE && |names| == |files| == 30 && Holds(d, names, files)
    ensures InodesOk(d, Inodes(d)) && |Inodes(d)| == NHELD && Inodes(d)[1].size == 2 * BSIZE
    ensures FileBlock(d, Inodes(d), 1, 1) == 0
  {
    hide Content;
    hide BytesOf;
    hide Dots;
    hide Joined;
    hide Inodes;
    hide FileOk;
    assert BlocksFor(DIRENT * 32) == 1 && DIRENT * 32 / BSIZE == 1;
  }

  lemma {:induction false} NotFull(d: Disk, n: nat)
    requires |d| == FSSIZE && n < FSSIZE && d[BITMAP] == Marked(n)
    ensures !Fs.Full(Layout0(), d)
  {
    hide BlockBit;
    hide Marked;
    MarkedBits(n, n);
    assert n / BPB == 0 && n % BPB == n;
    assert LayoutOk(Layout0(), d) && !Bit(Layout0(), d, n);
  }

  /** The kernel reads that directory to its end: the block it gets is lost. */
  method ReadToEnd(names: seq<seq<Byte>>) returns (fs: Fs.FileSystem, r: Fs.ReadOut)
    requires |names| == 30
    ensures r.Data? && Conserved(fs.l, fs.disk, fs.inodes, fs.owner) && !Accounted(fs.l, fs.disk, fs.dinodes)
  {
    hide FileOk;
    hide Conserved;
    hide Accounted;
    hide Inodes;
    hide Fs.Full;
    hide Fs.OnlyMapped;
    hide Fs.ReadByte;
    hide Fs.Backed;
    fs := ThirtyFiles(names);
    ghost var d, ins, own := fs.disk, fs.inodes, fs.owner;
    r := fs.Readi(1, BSIZE, BSIZE);
    NowMapped(fs.l, d, ins, own, fs.disk, fs.inodes, fs.owner);
  }

  lemma {:induction false} NowMapped(l: Layout, d: Disk, ins: seq<Inode>, own: map<nat, Slot>, e: Disk,
                                     ins': seq<Inode>, own': map<nat, Slot>)
    requires Fs.OnlyMapped(l, d, ins, own, e, ins', own', 1) && FileBlock(d, ins, 1, 1) == 0
    requires Fs.Backed(e, ins', 1, BSIZE, 2 * BSIZE)
    ensures Conserved(l, e, ins', own') && ins' != ins
  {
    hide Conserved;
    assert FileBlock(e, ins', 1, 1) != 0;
  }

  /** The failing case of the inode table: of 207 files, all empty but the last, that one is lost with its block, and
      mkfs still ends with exit status 0. */
  method LastFileLost(names: seq<seq<Byte>>, data: seq<Byte>) returns (im: Image)
    requires |names| == 207 && 0 < |data| <= BSIZE
    ensures |im.disk| == FSSIZE && Dinode(Layout0(), im.disk, 208).kind != T_FILE
    ensures !Accounted(Layout0(), im.disk, Inodes(im.disk))
  {
    hide FileOk;
    hide Conserved;
    hide Holds;
    hide Accounted;
    var files: seq<seq<Byte>> := seq(206, k => []) + [data];
    OneCost(files);
    var r;
    r, im := Make(names, files);
    assert files[206] != [];
  }

  lemma {:induction false} OneCost(files: seq<seq<Byte>>)
    requires |files| == 207 && (forall j :: 0 <= j < 206 ==> files[j] == []) && 0 < |files[206]| <= BSIZE
    ensures Fits(files, 207)
  {
    EmptyCost(files, 206);
    assert ImageCost(files, 207) == 8;
  }

  lemma {:induction false} EmptyCost(files: seq<seq<Byte>>, k: nat)
    requires k <= |files| && forall j :: 0 <= j < k ==> files[j] == []
    ensures FilesCost(files, k) == 0
  {
    if k > 0 { EmptyCost(files, k - 1); }
  }

  lemma {:induction false} StartMade(d: Disk, ins: seq<Inode>)
    requires |d| == FSSIZE && (forall b :: 0 <= b < FSSIZE ==> d[b] == ZeroBlock())
    requires |ins| == NSTORED && forall i :: 0 <= i < NSTORED ==> ins[i] == NoInode()
    ensures Made(d, ins, map[], NMETA) && Stored(d, ins) && FilesOk(Virtual(d, NMETA), ins)
  {
    hide BlockBit;
    hide Marked;
    hide Dinode;
    hide Storable;
    var l, v := Layout0(), Virtual(d, NMETA);
    assert InodesOk(v, ins);
    forall s | IsSlot(ins, s) ensures SlotVal(v, ins, s) == 0 {}
    forall b: nat | b < l.size ensures Bit(l, v, b) <==> b < l.data {
      assert b / BPB == 0 && b % BPB == b;
      MarkedBits(NMETA, b);
    }
    forall i: nat | i < NSTORED ensures FileOk(v, ins, i) && Storable(ins[i]) && Dinode(l, d, i) == ins[i] {
      forall x: nat | x < MAXFILE ensures FileBlock(v, ins, i, x) == 0 { assert IsSlot(ins, Slot(i, FileSlot(x))); }
      NoDinode(d, i);
    }
  }

  /** A zeroed block holds unused inodes. */
  lemma {:induction false} NoDinode(d: Disk, i: nat)
    requires |d| == FSSIZE && i < NSTORED && d[InodeBlock(Layout0(), i)] == ZeroBlock()
    ensures Dinode(Layout0(), d, i) == NoInode() && Storable(NoInode())
  {
    assert Dinode(Layout0(), d, i).addrs == NoInode().addrs;
  }

  lemma {:induction false} MadeSize(d: Disk, ins: seq<Inode>, own: map<nat, Slot>, free: nat)
    requires Made(d, ins, own, free)
    ensures |d| == FSSIZE && |ins| == NSTORED && free <= FSSIZE
  {}

  /** 32 entries fill a block. */
  lemma {:induction false} EntriesPerBlock(n: nat)
    ensures DIRENT * n % BSIZE != 0 <==> n % 32 != 0
  {
    var q, r := n / 32, n % 32;
    assert DIRENT * n == q * BSIZE + DIRENT * r;
  }

  lemma {:induction false} MadeMeans(d: Disk, ins: seq<Inode>, own: map<nat, Slot>, free: nat, i: nat)
    requires Made(d, ins, own, free)
    ensures |d| == FSSIZE && NMETA <= free <= FSSIZE && |ins| == NSTORED
    ensures Conserved(Layout0(), Virtual(d, free), ins, own)
    ensures InodesOk(Virtual(d, free), ins) && (i < |ins| ==> |ins[i].addrs| == NDIRECT + 1)
  {}

  /** A file's block is one of those in use. */
  lemma {:induction false} BmappedRange(v0: Disk, ins0: seq<Inode>, own0: map<nat, Slot>, d: Disk, ins: seq<Inode>,
                                        own: map<nat, Slot>, free: nat, i: nat, bn: nat, x: nat)
    requires Made(d, ins, own, free) && Bmapped(v0, ins0, own0, Virtual(d, free), ins, own, i, bn, x)
    ensures NMETA <= x < free
  {
    hide Bits;
    MadeLive(d, ins, own, free);
    assert IsSlot(ins, Slot(i, FileSlot(bn)));
  }

  lemma {:induction false} IndirectAt(d: Disk, ins: seq<Inode>, own: map<nat, Slot>, free: nat, i: nat, j: nat)
    requires Made(d, ins, own, free) && i < |ins| && j < NINDIRECT && |ins[i].addrs| == NDIRECT + 1
    requires ins[i].addrs[NDIRECT] != 0
    ensures NMETA <= ins[i].addrs[NDIRECT] < free
    ensures SlotVal(Virtual(d, free), ins, Slot(i, NDIRECT + 1 + j)) == Word(d[ins[i].addrs[NDIRECT]], j)
    ensures FileBlock(Virtual(d, free), ins, i, j + NDIRECT) == Word(d[ins[i].addrs[NDIRECT]], j)
  {
    hide Bits;
    MadeLive(d, ins, own, free);
    assert IsSlot(ins, Slot(i, NDIRECT)) && SlotVal(Virtual(d, free), ins, Slot(i, NDIRECT)) == ins[i].addrs[NDIRECT];
  }

  /** A new indirect block has no entries. */
  lemma {:induction false} FreshEntry(v0: Disk, ins0: seq<Inode>, v1: Disk, ins1: seq<Inode>, i: nat, j: nat, p: nat)
    requires Fs.SlotsChange(v0, ins0, v1, ins1, Slot(i, NDIRECT), p) && i < |ins0| && j < NINDIRECT
    ensures SlotVal(v1, ins1, Slot(i, NDIRECT + 1 + j)) == 0
  {
    var s := Slot(i, NDIRECT + 1 + j);
    assert IsSlot(ins0, s) && SlotVal(v0, ins0, Slot(i, NDIRECT)) == 0 && SlotVal(v0, ins0, s) == 0;
  }

  lemma {:induction false} DataMade(d: Disk, ins: seq<Inode>, own: map<nat, Slot>, free: nat, x: nat, y: Block,
                                    d0: Disk, ins0: seq<Inode>, own0: map<nat, Slot>, i: nat, off: nat, src: seq<Byte>,
                                    tot: nat)
    requires Made(d, ins, own, free) && NMETA <= x < free
    requires Writing(Layout0(), d0, ins0, own0, Virtual(d, free)[x := y], ins, own, i, off, src, tot)
    ensures Made(d[x := y], ins, own, free) && Virtual(d[x := y], free) == Virtual(d, free)[x := y]
  {
    Fs.WritingMeans(Layout0(), d0, ins0, own0, Virtual(d, free)[x := y], ins, own, i, off, src, tot);
    VirtualPut(d, free, x, y);
  }

  lemma {:induction false} AppendEnds(d0: Disk, ins0: seq<Inode>, own0: map<nat, Slot>, d: Disk, ins: seq<Inode>,
                                      own: map<nat, Slot>, free: nat, i: nat, src: seq<Byte>)
    requires Conserved(Layout0(), d0, ins0, own0) && (forall j :: 0 <= j < |ins0| ==> FileOk(d0, ins0, j))
    requires i < |ins0| == NSTORED
    requires Made(d, ins, own, free)
    requires Writing(Layout0(), d0, ins0, own0, Virtual(d, free), ins, own, i, ins0[i].size, src, |src|)
    ensures var v, ins' := Virtual(d, free), Resized(ins, i, ins0[i].size + |src|);
            && Made(d, ins', own, free) && ins'[i] == ins0[i].(size := ins0[i].size + |src|, addrs := ins'[i].addrs)
            && FilesOk(v, ins')
            && BytesOf(v, ins', i) == BytesOf(d0, ins0, i) + src
            && (forall j :: 0 <= j < NSTORED && j != i ==>
                  ins'[j] == ins0[j] && BytesOf(v, ins', j) == BytesOf(d0, ins0, j))
  {
    hide Conserved;
    hide Mapped;
    hide FileByte;
    hide Content;
    var v := Virtual(d, free);
    assert FileOk(d0, ins0, i);
    Fs.WritingMeans(Layout0(), d0, ins0, own0, v, ins, own, i, ins0[i].size, src, |src|);
    Fs.WriteEnds(Layout0(), d0, ins0, own0, v, ins, own, i, ins0[i].size, src, ins0[i].size + |src|);
    assert Overwritten(Content(d0, ins0, i, ins0[i].size), ins0[i].size, src) ==
        Content(d0, ins0, i, ins0[i].size) + src;
    var ins' := Resized(ins, i, ins0[i].size + |src|);
    forall j: nat | j < NSTORED && j != i ensures ins'[j] == ins0[j] && BytesOf(v, ins', j) == BytesOf(d0, ins0, j) {
      assert FileOk(d0, ins0, j) && Fs.SameFile(d0, ins0, v, ins', j);
    }
  }

  lemma {:induction false} KindMade(d: Disk, ins: seq<Inode>, own: map<nat, Slot>, free: nat, i: nat, kind: int)
    requires Made(d, ins, own, free) && i < NSTORED && FilesOk(Virtual(d, free), ins)
    ensures var v, ins' := Virtual(d, free), ins[i := ins[i].(kind := kind, nlink := 1)];
            && Made(d, ins', own, free) && FilesOk(v, ins')
            && forall j :: 0 <= j < NSTORED ==> BytesOf(v, ins', j) == BytesOf(v, ins, j)
  {
    hide Bit;
    hide ByteAt;
    hide Marked;
    var v, ins' := Virtual(d, free), ins[i := ins[i].(kind := kind, nlink := 1)];
    assert InodesOk(v, ins');
    forall s | IsSlot(ins, s) ensures SlotVal(v, ins', s) == SlotVal(v, ins, s) {}
    forall j: nat | j < NSTORED ensures FileOk(v, ins', j) && BytesOf(v, ins', j) == BytesOf(v, ins, j) {
      assert FileOk(v, ins, j);
      forall x: nat | x < MAXFILE
        ensures FileBlock(v, ins', j, x) == FileBlock(v, ins, j, x)
      {
        assert IsSlot(ins, Slot(j, FileSlot(x)));
      }
    }
  }

  /** A file has one number of blocks. */
  lemma {:induction false} OneCount(d: Disk, ins: seq<Inode>, i: nat, m: nat, n: nat)
    requires Mapped(d, ins, i, m) && Mapped(d, ins, i, n)
    ensures m == n
  {
    var x := FileBlock(d, ins, i, if m < n then m else if n < m then n else 0);
  }

  /** Rounding the size up by a block when it is a multiple already leaves the last block unmapped. */
  lemma {:induction false} RootRounded(d: Disk, ins: seq<Inode>, own: map<nat, Slot>, size: nat)
    requires Conserved(Layout0(), d, ins, own) && |ins| == NSTORED && FileOk(d, ins, 1)
    requires size == (ins[1].size / BSIZE + 1) * BSIZE && size <= MAXFILE * BSIZE
    ensures Conserved(Layout0(), d, Resized(ins, 1, size), own)
    ensures FileOk(d, Resized(ins, 1, size), 1) <==> ins[1].size % BSIZE != 0
    ensures Mapped(d, Resized(ins, 1, size), 1, BlocksFor(ins[1].size))
    ensures InodesOk(d, Resized(ins, 1, size))
    ensures Content(d, Resized(ins, 1, size), 1, ins[1].size) == Content(d, ins, 1, ins[1].size)
  {
    hide Conserved;
    hide Mapped;
    hide Content;
    Resize(Layout0(), d, ins, own, 1, size);
    var was, now := BlocksFor(ins[1].size), BlocksFor(size);
    assert now == ins[1].size / BSIZE + 1;
    assert was == now <==> ins[1].size % BSIZE != 0;
    assert Mapped(d, Resized(ins, 1, size), 1, was);
    if Mapped(d, Resized(ins, 1, size), 1, now) { OneCount(d, Resized(ins, 1, size), 1, was, now); }
  }

  lemma {:induction false} OtherResized(d: Disk, ins: seq<Inode>, own: map<nat, Slot>, size: nat, i: nat)
    requires Conserved(Layout0(), d, ins, own) && |ins| == NSTORED && FileOk(d, ins, i) && i != 1
    ensures FileOk(d, Resized(ins, 1, size), i) && BytesOf(d, Resized(ins, 1, size), i) == BytesOf(d, ins, i)
  {
    hide Bit;
    hide ByteAt;
    var ins' := Resized(ins, 1, size);
    Resize(Layout0(), d, ins, own, 1, size);
    assert InodesOk(d, ins');
    forall x: nat | x < MAXFILE
      ensures FileBlock(d, ins', i, x) == FileBlock(d, ins, i, x)
    {
      assert IsSlot(ins, Slot(i, FileSlot(x)));
    }
  }
}

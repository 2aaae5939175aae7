/** Blocks, inodes and who owns what (fs.c). */
module FsSpec {
  import opened Basics
  import opened Blocks
  import opened Params

  const NDIRECT: nat := 12
  const NINDIRECT: nat := 128
  const MAXFILE: nat := 140
  const NSLOT: nat := 141      // 12 direct slots, the indirect pointer, 128 indirect entries
  const IPB: nat := 8          // inodes per block

  /** sb.size, sb.bmapstart, sb.inodestart, and the first block after the metadata. */
  datatype Layout = Layout(size: nat, bmapstart: nat, inodestart: nat, data: nat)

  datatype Inode = Inode(kind: int, nlink: int, size: nat, addrs: seq<nat>)

  /** Slot k of inode i: direct block k, the indirect pointer (12), or indirect entry k - 13. */
  datatype Slot = Slot(i: nat, k: nat)

  ghost predicate LayoutOk(l: Layout, d: Disk)
  {
    && l.size <= |d| <= UINT
    && l.bmapstart + l.size / BPB < l.data <= l.size      // the bitmap is metadata
  }

  ghost predicate InodesOk(d: Disk, inodes: seq<Inode>)
  {
    forall i :: 0 <= i < |inodes| ==> |inodes[i].addrs| == NDIRECT + 1 && inodes[i].addrs[NDIRECT] < |d|
  }

  /** The block number in a slot, 0 if there is none. */
  ghost function SlotVal(d: Disk, inodes: seq<Inode>, s: Slot): nat
    requires InodesOk(d, inodes) && s.i < |inodes| && s.k < NSLOT
  {
    var a := inodes[s.i].addrs;
    if s.k <= NDIRECT then a[s.k]
    else if a[NDIRECT] == 0 then 0
    else Word(d[a[NDIRECT]], s.k - NDIRECT - 1)
  }

  ghost predicate IsSlot(inodes: seq<Inode>, s: Slot) { s.i < |inodes| && s.k < NSLOT }

  /** `owner` is the inverse of the slots: every block in a slot is in that slot only. */
  ghost predicate Slots(l: Layout, d: Disk, inodes: seq<Inode>, owner: map<nat, Slot>)
  {
    && InodesOk(d, inodes)
    && (forall s :: IsSlot(inodes, s) && SlotVal(d, inodes, s) != 0 ==>
          SlotVal(d, inodes, s) in owner && owner[SlotVal(d, inodes, s)] == s)
    && (forall b :: b in owner ==>
          0 < l.data <= b < l.size && IsSlot(inodes, owner[b]) && SlotVal(d, inodes, owner[b]) == b)
  }

  /** BBLOCK(b, sb): the bitmap block with the bit for block b. */
  function MapBlock(l: Layout, b: nat): nat { l.bmapstart + b / BPB }

  /** Bit b of the free map. */
  ghost predicate Bit(l: Layout, d: Disk, b: nat)
    requires LayoutOk(l, d) && b < l.size
  {
    BlockBit(d[MapBlock(l, b)], b % BPB)
  }

  /** The free map marks the metadata and the blocks in `live`, and nothing else. */
  ghost predicate Bits(l: Layout, d: Disk, live: set<nat>)
  {
    && LayoutOk(l, d)
    && (forall b :: b in live ==> l.data <= b < l.size)
    && (forall b: nat :: b < l.size ==> (Bit(l, d, b) <==> b < l.data || b in live))
  }

  /** BLOCK CONSERVATION: a bit is set exactly for metadata and for blocks owned by exactly one slot. */
  ghost predicate Conserved(l: Layout, d: Disk, inodes: seq<Inode>, owner: map<nat, Slot>)
  {
    LayoutOk(l, d) && InodesOk(d, inodes) && Slots(l, d, inodes, owner) && Bits(l, d, owner.Keys)
  }

  /** What Conserved says with no owner map in sight. */
  lemma {:induction false} ConservedMeans(l: Layout, d: Disk, inodes: seq<Inode>, owner: map<nat, Slot>)
    requires Conserved(l, d, inodes, owner)
    ensures forall s, t :: IsSlot(inodes, s) && IsSlot(inodes, t) && s != t && SlotVal(d, inodes, s) != 0
              ==> SlotVal(d, inodes, s) != SlotVal(d, inodes, t)
    ensures forall b: nat :: b < l.size ==>
              (Bit(l, d, b) <==> b < l.data || exists s :: IsSlot(inodes, s) && SlotVal(d, inodes, s) == b)
  {
    forall b: nat | b < l.size
      ensures Bit(l, d, b) <==> b < l.data || exists s :: IsSlot(inodes, s) && SlotVal(d, inodes, s) == b
    {
      if b in owner { assert SlotVal(d, inodes, owner[b]) == b; }
    }
  }

  /** Some accounting for the blocks exists. */
  ghost predicate Accounted(l: Layout, d: Disk, inodes: seq<Inode>) { exists own :: Conserved(l, d, inodes, own) }

  /** A block in use that is in no slot of the table `t` cannot be accounted for. */
  lemma {:induction false} Unaccounted(l: Layout, d: Disk, inodes: seq<Inode>, owner: map<nat, Slot>, t: seq<Inode>,
                                       b: nat)
    requires Conserved(l, d, inodes, owner) && b in owner && InodesOk(d, t)
    requires forall u :: IsSlot(t, u) ==> SlotVal(d, t, u) != b
    ensures !Accounted(l, d, t)
  {
    hide Conserved;
    if Accounted(l, d, t) {
      var own :| Conserved(l, d, t, own);
      InSlot(l, d, inodes, owner, t, own, b);
    }
  }

  lemma {:induction false} InSlot(l: Layout, d: Disk, inodes: seq<Inode>, owner: map<nat, Slot>, t: seq<Inode>,
                                  own: map<nat, Slot>, b: nat)
    requires Conserved(l, d, inodes, owner) && b in owner && Conserved(l, d, t, own)
    ensures exists u :: IsSlot(t, u) && SlotVal(d, t, u) == b
  {
    hide BlockBit;
    assert Bit(l, d, b) && b in own && SlotVal(d, t, own[b]) == b;
  }

  // ----- how the invariants survive a change -----

  /** Slots looks only at owned blocks. */
  lemma {:induction false} SlotsFrame(l: Layout, d: Disk, e: Disk, inodes: seq<Inode>, owner: map<nat, Slot>)
    requires Slots(l, d, inodes, owner) && |d| == |e|
    requires forall b :: b in owner && owner[b].k == NDIRECT && b < |d| ==> e[b] == d[b]
    ensures Slots(l, e, inodes, owner)
    ensures forall s :: IsSlot(inodes, s) ==> SlotVal(e, inodes, s) == SlotVal(d, inodes, s)
  {
    assert InodesOk(e, inodes);
    forall s | IsSlot(inodes, s) ensures SlotVal(e, inodes, s) == SlotVal(d, inodes, s) {
      var p := Slot(s.i, NDIRECT);
      assert IsSlot(inodes, p) && SlotVal(d, inodes, p) == inodes[s.i].addrs[NDIRECT];
    }
  }

  /** Bits looks only at the bitmap. */
  lemma {:induction false} BitsFrame(l: Layout, d: Disk, b: nat, x: Block, live: set<nat>)
    requires Bits(l, d, live) && l.data <= b < |d|
    ensures Bits(l, d[b := x], live)
  {
    var e := d[b := x];
    assert LayoutOk(l, e);
    forall c: nat | c < l.size ensures Bit(l, e, c) == Bit(l, d, c) {
      assert c / BPB <= l.size / BPB;
      assert e[MapBlock(l, c)] == d[MapBlock(l, c)];
    }
  }

  /** balloc's and bfree's store into the bitmap. */
  lemma {:induction false} BitsUpdate(l: Layout, d: Disk, b: nat, v: bool, live: set<nat>)
    requires Bits(l, d, live) && l.data <= b < l.size
    ensures var n := MapBlock(l, b);
            && n < l.data
            && Bits(l, d[n := PutBit(d[n], b % BPB, v)], if v then live + {b} else live - {b})
  {
    var n := MapBlock(l, b);
    assert b / BPB <= l.size / BPB;
    var e := d[n := PutBit(d[n], b % BPB, v)];
    forall c: nat | c < l.size ensures Bit(l, e, c) == if c == b then v else Bit(l, d, c) {
      if MapBlock(l, c) == n { PutBitGet(d[n], b % BPB, v, c % BPB); }
      assert c == c / BPB * BPB + c % BPB && b == b / BPB * BPB + b % BPB;
    }
  }

  // ----- a new block goes into an empty slot -----

  function WithAddr(inodes: seq<Inode>, i: nat, k: nat, b: nat): seq<Inode>
    requires i < |inodes| && k < |inodes[i].addrs|
  {
    inodes[i := inodes[i].(addrs := inodes[i].addrs[k := b])]
  }

  /** `ip->addrs[k] = b` for a zeroed block b that no slot holds. */
  lemma {:induction false} RecordAddr(l: Layout, d: Disk, inodes: seq<Inode>, owner: map<nat, Slot>, i: nat, k: nat,
                                      b: nat)
    requires Slots(l, d, inodes, owner) && i < |inodes| && k <= NDIRECT
    requires 0 < l.data <= b < l.size <= |d| && b !in owner && d[b] == ZeroBlock() && inodes[i].addrs[k] == 0
    ensures Slots(l, d, WithAddr(inodes, i, k, b), owner[b := Slot(i, k)])
    ensures forall s :: IsSlot(inodes, s) ==>
              SlotVal(d, WithAddr(inodes, i, k, b), s) == if s == Slot(i, k) then b else SlotVal(d, inodes, s)
  {
    var inodes' := WithAddr(inodes, i, k, b);
    assert InodesOk(d, inodes');
    forall s | IsSlot(inodes, s)
      ensures SlotVal(d, inodes', s) == if s == Slot(i, k) then b else SlotVal(d, inodes, s)
    {
      if s.i == i && s.k > NDIRECT && k == NDIRECT { assert Word(ZeroBlock(), s.k - NDIRECT - 1) == 0; }
    }
  }

  /** `a[j] = b; log_write(bp)` in the indirect block. */
  lemma {:induction false} RecordEntry(l: Layout, d: Disk, inodes: seq<Inode>, owner: map<nat, Slot>, i: nat, j: nat,
                                       b: nat)
    requires Slots(l, d, inodes, owner) && i < |inodes| && j < NINDIRECT
    requires 0 < l.data <= b < l.size <= |d| <= UINT && b !in owner
    requires inodes[i].addrs[NDIRECT] != 0 && SlotVal(d, inodes, Slot(i, NDIRECT + 1 + j)) == 0
    ensures var p := inodes[i].addrs[NDIRECT];
            var e := d[p := PutWord(d[p], j, b)];
            && p in owner && owner[p] == Slot(i, NDIRECT)
            && Slots(l, e, inodes, owner[b := Slot(i, NDIRECT + 1 + j)])
            && forall s :: IsSlot(inodes, s) ==>
                 SlotVal(e, inodes, s) == if s == Slot(i, NDIRECT + 1 + j) then b else SlotVal(d, inodes, s)
  {
    var p := inodes[i].addrs[NDIRECT];
    var e := d[p := PutWord(d[p], j, b)];
    assert IsSlot(inodes, Slot(i, NDIRECT)) && SlotVal(d, inodes, Slot(i, NDIRECT)) == p;
    assert InodesOk(e, inodes);
    forall s | IsSlot(inodes, s)
      ensures SlotVal(e, inodes, s) == if s == Slot(i, NDIRECT + 1 + j) then b else SlotVal(d, inodes, s)
    {
      assert IsSlot(inodes, Slot(s.i, NDIRECT)) && SlotVal(d, inodes, Slot(s.i, NDIRECT)) == inodes[s.i].addrs[NDIRECT];
    }
  }

  // ----- files as block lists -----

  /** The slot of the bn-th block of a file. */
  function FileSlot(bn: nat): nat { if bn < NDIRECT then bn else bn + 1 }

  ghost function FileBlock(d: Disk, inodes: seq<Inode>, i: nat, bn: nat): nat
    requires InodesOk(d, inodes) && i < |inodes| && bn < MAXFILE
  {
    SlotVal(d, inodes, Slot(i, FileSlot(bn)))
  }

  /** The file has exactly its first nb blocks, and an indirect block exactly if it needs one. */
  ghost predicate Mapped(d: Disk, inodes: seq<Inode>, i: nat, nb: nat)
  {
    && InodesOk(d, inodes) && i < |inodes| && nb <= MAXFILE
    && (forall bn: nat :: bn < MAXFILE ==> (FileBlock(d, inodes, i, bn) != 0 <==> bn < nb))
    && (inodes[i].addrs[NDIRECT] != 0 <==> nb > NDIRECT)
  }

  /** What bmap(ip, bn) did: block bn of file i is b; no other file block changed; data blocks kept. */
  ghost predicate Bmapped(d: Disk, ins: seq<Inode>, own: map<nat, Slot>, e: Disk, ins': seq<Inode>,
                          own': map<nat, Slot>, i: nat, bn: nat, b: nat)
  {
    && InodesOk(d, ins) && InodesOk(e, ins') && i < |ins| == |ins'| && bn < MAXFILE && |e| == |d| && b < |e| && b != 0
    && (forall j :: 0 <= j < |ins| ==> ins'[j] == ins[j].(addrs := ins'[j].addrs) && (j != i ==> ins'[j] == ins[j]))
    && (forall t :: IsSlot(ins, t) && t != Slot(i, FileSlot(bn)) && t != Slot(i, NDIRECT)
          ==> SlotVal(e, ins', t) == SlotVal(d, ins, t))
    && FileBlock(e, ins', i, bn) == b
    && (if bn < NDIRECT || ins[i].addrs[NDIRECT] != 0 then ins'[i].addrs[NDIRECT] == ins[i].addrs[NDIRECT]
        else ins'[i].addrs[NDIRECT] != 0)
    && (forall x :: x in own ==>
          x < |d| && x in own' && own'[x] == own[x] && (own[x] != Slot(i, NDIRECT) ==> e[x] == d[x]))
    && (if FileBlock(d, ins, i, bn) != 0 then e == d && ins' == ins && own' == own
        else b !in own && e[b] == ZeroBlock())
  }

  lemma {:induction false} BmappedExtends(d: Disk, ins: seq<Inode>, own: map<nat, Slot>, e: Disk, ins': seq<Inode>,
                                          own': map<nat, Slot>, i: nat, bn: nat, b: nat, nb: nat)
    requires Bmapped(d, ins, own, e, ins', own', i, bn, b) && Mapped(d, ins, i, nb) && bn <= nb
    ensures Mapped(e, ins', i, if bn < nb then nb else nb + 1)
  {
    forall x: nat | x < MAXFILE && x != bn ensures FileBlock(e, ins', i, x) == FileBlock(d, ins, i, x) {
      assert IsSlot(ins, Slot(i, FileSlot(x)));
    }
  }

  // ----- files as byte sequences -----

  /** Blocks needed for n bytes. */
  function BlocksFor(n: nat): nat { (n + BSIZE - 1) / BSIZE }

  ghost function FileByte(d: Disk, inodes: seq<Inode>, i: nat, p: nat): Byte
    requires InodesOk(d, inodes) && i < |inodes| && p < MAXFILE * BSIZE
  {
    var b := FileBlock(d, inodes, i, p / BSIZE);
    if b < |d| then ByteAt(d[b], p % BSIZE) else 0
  }

  /** The first n bytes of the file. */
  ghost function Content(d: Disk, inodes: seq<Inode>, i: nat, n: nat): (c: seq<Byte>)
    requires InodesOk(d, inodes) && i < |inodes| && n <= MAXFILE * BSIZE
    ensures |c| == n && forall p :: 0 <= p < n ==> c[p] == FileByte(d, inodes, i, p)
  {
    seq(n, p requires 0 <= p < n => FileByte(d, inodes, i, p))
  }

  /** A mapped block is owned, by its own slot only. */
  lemma {:induction false} FileBlockOwned(l: Layout, d: Disk, ins: seq<Inode>, own: map<nat, Slot>, i: nat, nb: nat,
                                          bn: nat)
    requires Conserved(l, d, ins, own) && Mapped(d, ins, i, nb) && bn < nb
    ensures var b := FileBlock(d, ins, i, bn); b in own && own[b] == Slot(i, FileSlot(bn)) && l.data <= b < |d|
  {
    hide Bit;
    assert IsSlot(ins, Slot(i, FileSlot(bn)));
  }

  /** bmap leaves the bytes of the file that were there before. */
  lemma {:induction false} BmappedBytes(l: Layout, d: Disk, ins: seq<Inode>, own: map<nat, Slot>, e: Disk,
                                        ins': seq<Inode>, own': map<nat, Slot>, i: nat, bn: nat, b: nat, nb: nat,
                                        p: nat)
    requires Conserved(l, d, ins, own) && Mapped(d, ins, i, nb) && p / BSIZE < nb
    requires Bmapped(d, ins, own, e, ins', own', i, bn, b)
    ensures FileByte(e, ins', i, p) == FileByte(d, ins, i, p)
  {
    hide Bits;
    hide ByteAt;
    var x := p / BSIZE;
    FileBlockOwned(l, d, ins, own, i, nb, x);
    assert IsSlot(ins, Slot(i, FileSlot(x)));
    assert FileBlock(e, ins', i, x) == FileBlock(d, ins, i, x);
  }

  /** Storing into a data block keeps every invariant and changes only that block's bytes. */
  lemma {:induction false} DataWrite(l: Layout, d: Disk, ins: seq<Inode>, own: map<nat, Slot>, i: nat, nb: nat, bn: nat,
                                     x: Block)
    requires Conserved(l, d, ins, own) && Mapped(d, ins, i, nb) && bn < nb
    ensures var b := FileBlock(d, ins, i, bn);
            && b < |d| && Conserved(l, d[b := x], ins, own)
            && (forall s :: IsSlot(ins, s) ==> SlotVal(d[b := x], ins, s) == SlotVal(d, ins, s))
  {
    FileBlockOwned(l, d, ins, own, i, nb, bn);
    var b := FileBlock(d, ins, i, bn);
    SlotsFrame(l, d, d[b := x], ins, own);
    BitsFrame(l, d, b, x, own.Keys);
  }

  lemma {:induction false} MappedSame(d: Disk, e: Disk, ins: seq<Inode>, i: nat, nb: nat)
    requires Mapped(d, ins, i, nb) && InodesOk(e, ins)
    requires forall s :: IsSlot(ins, s) ==> SlotVal(e, ins, s) == SlotVal(d, ins, s)
    ensures Mapped(e, ins, i, nb)
  {
    forall x: nat | x < MAXFILE ensures FileBlock(e, ins, i, x) == FileBlock(d, ins, i, x) {
      assert IsSlot(ins, Slot(i, FileSlot(x)));
    }
  }

  lemma {:induction false} DataWriteByte(l: Layout, d: Disk, ins: seq<Inode>, own: map<nat, Slot>, i: nat, nb: nat,
                                         bn: nat, o: nat, src: seq<Byte>, m: nat, p: nat)
    requires Conserved(l, d, ins, own) && Mapped(d, ins, i, nb) && bn < nb && p / BSIZE < nb
    requires m <= |src| && o + m <= BSIZE
    ensures var b := FileBlock(d, ins, i, bn);
            && b < |d| && InodesOk(d[b := Splice(d[b], o, src, m)], ins)
            && FileByte(d[b := Splice(d[b], o, src, m)], ins, i, p) ==
               if bn * BSIZE + o <= p < bn * BSIZE + o + m then src[p - bn * BSIZE - o] else FileByte(d, ins, i, p)
  {
    hide Conserved;
    hide ByteAt;
    hide Splice;
    var b := FileBlock(d, ins, i, bn);
    FileBlockOwned(l, d, ins, own, i, nb, bn);
    FileBlockOwned(l, d, ins, own, i, nb, p / BSIZE);
    var x := Splice(d[b], o, src, m);
    DataWrite(l, d, ins, own, i, nb, bn, x);
    assert IsSlot(ins, Slot(i, FileSlot(p / BSIZE)));
    assert FileBlock(d[b := x], ins, i, p / BSIZE) == FileBlock(d, ins, i, p / BSIZE);
    SpliceGet(d[b], o, src, m, p % BSIZE);
    assert p == p / BSIZE * BSIZE + p % BSIZE;
  }

  // ----- writei, one block at a time -----

  function Max(x: nat, y: nat): nat { if x < y then y else x }

  /** Blocks of other files are as they were. */
  ghost predicate OthersKept(d: Disk, own: map<nat, Slot>, e: Disk, own': map<nat, Slot>, i: nat)
  {
    |d| == |e| && forall x :: x in own && own[x].i != i ==> x < |d| && x in own' && own'[x] == own[x] && e[x] == d[x]
  }

  ghost predicate SameButAddrs(ins: seq<Inode>, ins': seq<Inode>, i: nat)
  {
    && i < |ins| == |ins'|
    && ins'[i] == ins[i].(addrs := ins'[i].addrs) && |ins'[i].addrs| == |ins[i].addrs|
    && (forall k :: 0 <= k < |ins[i].addrs| && ins[i].addrs[k] != 0 ==> ins'[i].addrs[k] == ins[i].addrs[k])
    && forall j :: 0 <= j < |ins| && j != i ==> ins'[j] == ins[j]
  }

  /** writei of `src` at `off` into file i, begun in state 0, after `tot` bytes. */
  ghost predicate Writing(l: Layout, d0: Disk, ins0: seq<Inode>, own0: map<nat, Slot>, d: Disk, ins: seq<Inode>,
                          own: map<nat, Slot>, i: nat, off: nat, src: seq<Byte>, tot: nat)
  {
    && Conserved(l, d, ins, own) && SameButAddrs(ins0, ins, i) && OthersKept(d0, own0, d, own, i) && InodesOk(d0, ins0)
    && off <= ins0[i].size <= MAXFILE * BSIZE && off + |src| <= MAXFILE * BSIZE && tot <= |src|
    && Mapped(d, ins, i, BlocksFor(Max(ins0[i].size, off + tot)))
    && forall p: nat :: p < Max(ins0[i].size, off + tot) ==>
         FileByte(d, ins, i, p) == if off <= p < off + tot then src[p - off] else FileByte(d0, ins0, i, p)
  }

  lemma {:induction false} BlocksGrow(size: nat, off: nat, m: nat, nb: nat)
    requires nb == BlocksFor(size) && off <= size && 0 < m <= BSIZE - off % BSIZE
    ensures off / BSIZE <= nb
    ensures BlocksFor(Max(size, off + m)) == if off / BSIZE < nb then nb else nb + 1
  {
    var bn := off / BSIZE;
    assert off == bn * BSIZE + off % BSIZE;
    assert nb * BSIZE >= size > (nb - 1) * BSIZE || size == 0;
    if bn < nb {
      assert off + m <= nb * BSIZE;
      assert BlocksFor(Max(size, off + m)) <= (nb * BSIZE + BSIZE - 1) / BSIZE == nb;
      assert BlocksFor(Max(size, off + m)) >= BlocksFor(size);
    }
  }

  lemma {:induction false} MulDiv(p: nat, nb: nat, size: nat)
    requires nb == BlocksFor(size) && p < size
    ensures p / BSIZE < nb
  {}

  /** One turn of writei's loop: bmap gave block b, then `m` bytes went into it. */
  lemma {:induction false} WriteStep(l: Layout, d0: Disk, ins0: seq<Inode>, own0: map<nat, Slot>, d: Disk,
                                     ins: seq<Inode>, own: map<nat, Slot>, i: nat, off: nat, src: seq<Byte>, tot: nat,
                                     e: Disk, ins': seq<Inode>, own': map<nat, Slot>, b: nat, m: nat)
    requires Writing(l, d0, ins0, own0, d, ins, own, i, off, src, tot)
    requires Conserved(l, e, ins', own') && Bmapped(d, ins, own, e, ins', own', i, (off + tot) / BSIZE, b)
    requires 0 < m <= |src| - tot && m <= BSIZE - (off + tot) % BSIZE
    ensures Writing(l, d0, ins0, own0, e[b := Splice(e[b], (off + tot) % BSIZE, src[tot..], m)], ins', own', i, off,
            src, tot + m)
  {
    hide Conserved;
    hide Mapped;
    hide Bmapped;
    hide FileByte;
    hide Splice;
    var at, len := off + tot, Max(ins0[i].size, off + tot);
    var bn, nb := at / BSIZE, BlocksFor(len);
    var nb' := if bn < nb then nb else nb + 1;
    BlocksGrow(len, at, m, nb);
    BmappedExtends(d, ins, own, e, ins', own', i, bn, b, nb);
    BmappedBlock(d, ins, own, e, ins', own', i, bn, b);
    var f := e[b := Splice(e[b], at % BSIZE, src[tot..], m)];
    WriteStepKeeps(l, d0, ins0, own0, d, ins, own, i, e, ins', own', bn, b, nb',
        Splice(e[b], at % BSIZE, src[tot..], m));
    assert Max(len, at + m) == Max(ins0[i].size, off + (tot + m));
    forall p: nat | p < Max(len, at + m)
      ensures FileByte(f, ins', i, p) == if off <= p < off + tot + m then src[p - off] else FileByte(d0, ins0, i, p)
    {
      MulDiv(p, nb', Max(len, at + m));
      DataWriteByte(l, e, ins', own', i, nb', bn, at % BSIZE, src[tot..], m, p);
      assert bn * BSIZE + at % BSIZE == at;
      if p < len {
        MulDiv(p, nb, len);
        BmappedBytes(l, d, ins, own, e, ins', own', i, bn, b, nb, p);
      }
    }
  }

  lemma {:induction false} BmappedBlock(d: Disk, ins: seq<Inode>, own: map<nat, Slot>, e: Disk, ins': seq<Inode>,
                                        own': map<nat, Slot>, i: nat, bn: nat, b: nat)
    requires Bmapped(d, ins, own, e, ins', own', i, bn, b)
    ensures b < |e|
  {}

  lemma {:induction false} BmappedAddrs(d: Disk, ins: seq<Inode>, own: map<nat, Slot>, e: Disk, ins': seq<Inode>,
                                        own': map<nat, Slot>, i: nat, bn: nat, b: nat)
    requires Bmapped(d, ins, own, e, ins', own', i, bn, b)
    ensures SameButAddrs(ins, ins', i)
  {
    forall k: nat | k <= NDIRECT && ins[i].addrs[k] != 0 ensures ins'[i].addrs[k] == ins[i].addrs[k] {
      var s := Slot(i, k);
      assert IsSlot(ins, s) && SlotVal(d, ins, s) == ins[i].addrs[k] && SlotVal(e, ins', s) == ins'[i].addrs[k];
    }
  }

  lemma {:induction false} WriteStepKeeps(l: Layout, d0: Disk, ins0: seq<Inode>, own0: map<nat, Slot>, d: Disk,
                                          ins: seq<Inode>, own: map<nat, Slot>, i: nat, e: Disk, ins': seq<Inode>,
                                          own': map<nat, Slot>, bn: nat, b: nat, nb: nat, x: Block)
    requires SameButAddrs(ins0, ins, i) && OthersKept(d0, own0, d, own, i)
    requires Conserved(l, e, ins', own') && Bmapped(d, ins, own, e, ins', own', i, bn, b)
    requires Mapped(e, ins', i, nb) && bn < nb
    ensures b < |e| && b == FileBlock(e, ins', i, bn) && InodesOk(e[b := x], ins')
    ensures Conserved(l, e[b := x], ins', own') && Mapped(e[b := x], ins', i, nb)
    ensures SameButAddrs(ins0, ins', i) && OthersKept(d0, own0, e[b := x], own', i)
  {
    hide Conserved;
    BmappedAddrs(d, ins, own, e, ins', own', i, bn, b);
    FileBlockOwned(l, e, ins', own', i, nb, bn);
    DataWrite(l, e, ins', own', i, nb, bn, x);
    MappedSame(e, e[b := x], ins', i, nb);
  }

  // ----- whole files -----

  ghost predicate FileOk(d: Disk, ins: seq<Inode>, i: nat)
  {
    && InodesOk(d, ins) && i < |ins| && ins[i].size <= MAXFILE * BSIZE
    && Mapped(d, ins, i, BlocksFor(ins[i].size))
  }

  lemma {:induction false} FileLimit(d: Disk, ins: seq<Inode>, i: nat)
    requires FileOk(d, ins, i)
    ensures i < |ins| && ins[i].size <= MAXFILE * BSIZE
  {}

  function Resized(ins: seq<Inode>, i: nat, size: nat): seq<Inode>
    requires i < |ins|
  {
    ins[i := ins[i].(size := size)]
  }

  /** A file whose inode and blocks are kept has the same blocks and bytes. */
  lemma {:induction false} OtherFile(l: Layout, d: Disk, ins: seq<Inode>, own: map<nat, Slot>, e: Disk,
                                     ins': seq<Inode>, own': map<nat, Slot>, i: nat, j: nat)
    requires Conserved(l, d, ins, own) && Conserved(l, e, ins', own') && |ins| == |ins'|
    requires OthersKept(d, own, e, own', i) && j != i && FileOk(d, ins, j) && ins'[j] == ins[j]
    ensures FileOk(e, ins', j)
    ensures Content(e, ins', j, ins[j].size) == Content(d, ins, j, ins[j].size)
  {
    hide Bits;
    hide ByteAt;
    var nb := BlocksFor(ins[j].size);
    assert IsSlot(ins, Slot(j, NDIRECT)) && SlotVal(d, ins, Slot(j, NDIRECT)) == ins[j].addrs[NDIRECT];
    forall k: nat | k < NSLOT ensures SlotVal(e, ins', Slot(j, k)) == SlotVal(d, ins, Slot(j, k)) {}
    forall x: nat | x < MAXFILE ensures FileBlock(e, ins', j, x) == FileBlock(d, ins, j, x) {
      assert FileSlot(x) < NSLOT;
    }
    forall p: nat | p < ins[j].size ensures FileByte(e, ins', j, p) == FileByte(d, ins, j, p) {
      MulDiv(p, nb, ins[j].size);
      FileBlockOwned(l, d, ins, own, j, nb, p / BSIZE);
    }
  }

  /** The bytes of a file after a write of `src` at `off`. */
  function Overwritten(c: seq<Byte>, off: nat, src: seq<Byte>): seq<Byte>
    requires off <= |c|
  {
    c[..off] + src + (if off + |src| <= |c| then c[off + |src|..] else [])
  }

  lemma {:induction false} WritingDone(l: Layout, d0: Disk, ins0: seq<Inode>, own0: map<nat, Slot>, d: Disk,
                                       ins: seq<Inode>, own: map<nat, Slot>, i: nat, off: nat, src: seq<Byte>)
    requires Writing(l, d0, ins0, own0, d, ins, own, i, off, src, |src|)
    ensures Content(d, ins, i, Max(ins0[i].size, off + |src|)) ==
            Overwritten(Content(d0, ins0, i, ins0[i].size), off, src)
  {
    hide Conserved;
    hide Mapped;
    hide FileByte;
  }

  /** The size of an inode does not show in its blocks or bytes. */
  lemma {:induction false} Resize(l: Layout, d: Disk, ins: seq<Inode>, own: map<nat, Slot>, i: nat, size: nat)
    requires Conserved(l, d, ins, own) && i < |ins|
    ensures Conserved(l, d, ins[i := ins[i].(size := size)], own)
    ensures forall j, nb :: Mapped(d, ins, j, nb) ==> Mapped(d, ins[i := ins[i].(size := size)], j, nb)
    ensures forall n: nat ::
              n <= MAXFILE * BSIZE ==> Content(d, ins[i := ins[i].(size := size)], i, n) == Content(d, ins, i, n)
  {
    hide Bit;
    hide ByteAt;
    var ins' := ins[i := ins[i].(size := size)];
    assert InodesOk(d, ins');
    forall s | IsSlot(ins, s) ensures SlotVal(d, ins', s) == SlotVal(d, ins, s) {}
    forall j: nat, x: nat | j < |ins| && x < MAXFILE ensures FileBlock(d, ins', j, x) == FileBlock(d, ins, j, x) {
      assert IsSlot(ins, Slot(j, FileSlot(x)));
    }
  }

  // ----- how many blocks a write logs -----

  function One(b: bool): nat { if b then 1 else 0 }

  /** Bounds on the data and bitmap blocks logged by writei after `tot` of its n bytes, the file having had
      `size` bytes and indirect block `ind0`, and having indirect block `ind` now. */
  ghost predicate Counted(size: nat, ind0: nat, ind: nat, off: nat, n: nat, tot: nat, data: set<nat>, maps: set<nat>)
  {
    && (ind0 != 0 ==> ind == ind0)
    && (0 < tot < n ==> (off + tot) % BSIZE == 0)
    && |data| <= (if tot == 0 then 0 else BlocksFor(off + tot) - off / BSIZE)
    && |maps| <= BlocksFor(Max(size, off + tot)) - BlocksFor(size) + One(ind0 == 0 && ind != 0)
  }

  lemma {:induction false} CountStep(size: nat, ind0: nat, ind: nat, ind': nat, off: nat, n: nat, tot: nat,
                                     data: set<nat>, maps: set<nat>, m: nat, b: nat, more: set<nat>, absent: bool)
    requires Counted(size, ind0, ind, off, n, tot, data, maps) && off <= size && tot < n
    requires m == (if n - tot < BSIZE - (off + tot) % BSIZE then n - tot else BSIZE - (off + tot) % BSIZE)
    requires ind != 0 ==> ind' == ind
    requires absent <==> (off + tot) / BSIZE >= BlocksFor(Max(size, off + tot))
    requires |more| <= (if !absent then 0 else if ind == 0 && ind' != 0 then 2 else 1)
    ensures Counted(size, ind0, ind', off, n, tot + m, data + {b}, maps + more)
  {
    hide BlocksFor;
    MapsStep(size, off + tot, m);
    UnionSize(data, {b});
    UnionSize(maps, more);
    BlocksEnd(off + tot, m);
  }

  lemma {:induction false} MapsStep(size: nat, at: nat, m: nat)
    requires 0 < m <= BSIZE - at % BSIZE
    ensures at / BSIZE <= BlocksFor(Max(size, at))
    ensures BlocksFor(Max(size, at + m)) == BlocksFor(Max(size, at)) + One(at / BSIZE >= BlocksFor(Max(size, at)))
  {
    var len := Max(size, at);
    assert at == at / BSIZE * BSIZE + at % BSIZE;
    BlocksGrow(len, at, m, BlocksFor(len));
    assert Max(len, at + m) == Max(size, at + m);
  }

  lemma {:induction false} BlocksEnd(at: nat, m: nat)
    requires 0 < m <= BSIZE - at % BSIZE
    ensures BlocksFor(at + m) == at / BSIZE + 1
    ensures at % BSIZE == 0 ==> BlocksFor(at) == at / BSIZE
    ensures m == BSIZE - at % BSIZE ==> (at + m) % BSIZE == 0
  {
    assert at == at / BSIZE * BSIZE + at % BSIZE;
  }

  lemma {:induction false} UnionSize(s: set<nat>, t: set<nat>)
    ensures |s + t| <= |s| + |t|
  {
    assert s + t == s + (t - s);
    assert t == (t - s) + (t * s);
  }

  /** CHUNK BOUND. A write of at most ((LOGSIZE-1-1-2)/2)*512 bytes, at any offset in or at the end of a file
      of any size, logs at most LOGSIZE blocks: 14 data, 14 bitmap, 1 indirect, 1 inode. */
  lemma {:induction false} ChunkFits(size: nat, ind0: nat, ind: nat, off: nat, n: nat, data: set<nat>, maps: set<nat>,
                                     logged: set<nat>, inodeBlock: nat)
    requires Counted(size, ind0, ind, off, n, n, data, maps) && off <= size && n <= (LOGSIZE - 1 - 1 - 2) / 2 * BSIZE
    requires logged <= data + maps + {ind} + {inodeBlock}
    ensures |data| <= 14 && |maps| <= 14 && |logged| <= LOGSIZE
  {
    assert off == off / BSIZE * BSIZE + off % BSIZE;
    if n > 0 {
      assert BlocksFor(off + n) <= off / BSIZE + 14;
      assert off % BSIZE == 0 ==> BlocksFor(off + n) <= off / BSIZE + 13;
      assert off % BSIZE > 0 ==> BlocksFor(size) >= off / BSIZE + 1;
      assert BlocksFor(size) >= off / BSIZE;
    }
    UnionSize(data, maps);
    UnionSize(data + maps, {ind});
    UnionSize(data + maps + {ind}, {inodeBlock});
    SubsetSize(logged, data + maps + {ind} + {inodeBlock});
  }

  lemma {:induction false} SubsetSize(s: set<nat>, t: set<nat>)
    requires s <= t
    ensures |s| <= |t|
  {
    assert t == s + (t - s);
  }

  // ----- truncation -----

  /** bfree(ip->addrs[k]); ip->addrs[k] = 0 for a direct slot. */
  lemma {:induction false} FreeDirect(l: Layout, d: Disk, ins: seq<Inode>, own: map<nat, Slot>, i: nat, k: nat, e: Disk)
    requires Conserved(l, d, ins, own) && i < |ins| && k < NDIRECT && ins[i].addrs[k] != 0
    requires |e| == |d| && (forall b: nat :: l.data <= b < |d| ==> e[b] == d[b])
    requires Bits(l, e, own.Keys - {ins[i].addrs[k]})
    ensures ins[i].addrs[k] in own
    ensures Conserved(l, e, WithAddr(ins, i, k, 0), own - {ins[i].addrs[k]})
  {
    hide Bits;
    var x := ins[i].addrs[k];
    var ins' := WithAddr(ins, i, k, 0);
    assert IsSlot(ins, Slot(i, k)) && SlotVal(d, ins, Slot(i, k)) == x;
    SlotsFrame(l, d, e, ins, own);
    assert InodesOk(e, ins');
    forall s | IsSlot(ins, s) ensures SlotVal(e, ins', s) == if s == Slot(i, k) then 0 else SlotVal(e, ins, s) {}
    assert (own - {x}).Keys == own.Keys - {x};
  }

  /** The blocks held by the first j indirect entries of inode i. */
  ghost function EntryBlocks(own: map<nat, Slot>, i: nat, j: nat): set<nat>
  {
    set b | b in own && own[b].i == i && NDIRECT < own[b].k <= NDIRECT + j
  }

  ghost function BlocksOf(own: map<nat, Slot>, i: nat): set<nat> { set b | b in own && own[b].i == i }

  lemma {:induction false} EntryFreed(l: Layout, d: Disk, ins: seq<Inode>, own: map<nat, Slot>, i: nat, j: nat)
    requires Slots(l, d, ins, own) && i < |ins| && j < NINDIRECT && ins[i].addrs[NDIRECT] != 0
    ensures var a := Word(d[ins[i].addrs[NDIRECT]], j);
            && (a == 0 ==> EntryBlocks(own, i, j + 1) == EntryBlocks(own, i, j))
            && (a != 0 ==> a in own && a !in EntryBlocks(own, i, j) && l.data <= a < l.size
                           && EntryBlocks(own, i, j + 1) == EntryBlocks(own, i, j) + {a})
  {
    var s := Slot(i, NDIRECT + 1 + j);
    assert IsSlot(ins, s) && SlotVal(d, ins, s) == Word(d[ins[i].addrs[NDIRECT]], j);
    forall b | b in own && own[b] == s ensures b == SlotVal(d, ins, s) {}
  }

  /** After the direct slots are empty: drop the indirect block and everything in it. */
  lemma {:induction false} FreeIndirect(l: Layout, d: Disk, ins: seq<Inode>, own: map<nat, Slot>, i: nat)
    requires Slots(l, d, ins, own) && i < |ins| && forall k :: 0 <= k < NDIRECT ==> ins[i].addrs[k] == 0
    ensures InodesOk(d, WithAddr(ins, i, NDIRECT, 0))
    ensures Slots(l, d, WithAddr(ins, i, NDIRECT, 0), own - BlocksOf(own, i))
    ensures (own - BlocksOf(own, i)).Keys == own.Keys - BlocksOf(own, i)
    ensures Mapped(d, WithAddr(ins, i, NDIRECT, 0), i, 0)
    ensures ins[i].addrs[NDIRECT] == 0 ==> BlocksOf(own, i) == {}
    ensures ins[i].addrs[NDIRECT] != 0 ==>
            && ins[i].addrs[NDIRECT] in own && ins[i].addrs[NDIRECT] !in EntryBlocks(own, i, NINDIRECT)
                                           && BlocksOf(own, i) ==
                                               EntryBlocks(own, i, NINDIRECT) + {ins[i].addrs[NDIRECT]}
  {
    var ins' := WithAddr(ins, i, NDIRECT, 0);
    var p := Slot(i, NDIRECT);
    assert IsSlot(ins, p) && SlotVal(d, ins, p) == ins[i].addrs[NDIRECT];
    assert InodesOk(d, ins');
    forall s | IsSlot(ins, s) ensures SlotVal(d, ins', s) == if s.i == i then 0 else SlotVal(d, ins, s) {}
    forall b | b in own && own[b].i == i ensures own[b].k >= NDIRECT { assert SlotVal(d, ins, own[b]) == b; }
    forall b | b in own && own[b] == p ensures b == ins[i].addrs[NDIRECT] { assert SlotVal(d, ins, own[b]) == b; }
  }
}

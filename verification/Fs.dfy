/** The inode layer (fs.c, file.c). */
module Fs {
  // The block allocator and the contents of inodes, on the disk as the buffer cache shows it.

  import opened Basics
  import opened Blocks
  import opened FsSpec
  import opened Params
  import opened Options

  /** writei's outcome: -1, the byte count, or a panic on the way. */
  datatype Written = Refused | Wrote(n: nat) | Halted

  /** readi's outcome: -1, the bytes, or a panic on the way. */
  datatype ReadOut = Denied | Data(bytes: seq<Byte>) | Stuck

  ghost function Indirect(ip: Inode): set<nat>
    requires |ip.addrs| == NDIRECT + 1
  {
    if ip.addrs[NDIRECT] == 0 then {} else {ip.addrs[NDIRECT]}
  }

  /** No block is free. */
  ghost predicate Full(l: Layout, d: Disk) { LayoutOk(l, d) && forall c: nat :: c < l.size ==> Bit(l, d, c) }

  class FileSystem {
    const l: Layout
    var disk: Disk
    var inodes: seq<Inode>           // the in-memory inodes
    var dinodes: seq<Inode>          // the inodes on disk
    ghost var owner: map<nat, Slot>  // which slot holds each allocated block
    ghost var logged: set<nat>       // the blocks passed to log_write

    constructor (layout: Layout, image: Disk, table: seq<Inode>, ghost own: map<nat, Slot>)
      requires Conserved(layout, image, table, own)
      ensures l == layout && disk == image && inodes == dinodes == table && owner == own && logged == {}
      ensures Valid() <==> forall i :: 0 <= i < |table| ==> FileOk(image, table, i)
    {
      l, disk, inodes, dinodes, owner, logged := layout, image, table, table, own, {};
    }

    /** balloc: the lowest free block, marked used and zeroed; None is the panic "out of blocks". */
    method Balloc(ghost live: set<nat>) returns (r: Option<nat>)
      requires LayoutOk(l, disk) && Bits(l, disk, live)
      modifies this`disk, this`logged
      ensures r.None? ==> disk == old(disk) && logged == old(logged) && Full(l, disk)
      ensures r.Some? ==> && Allocated(l, old(disk), disk, live, r.value)
                          && logged == old(logged) + {MapBlock(l, r.value), r.value}
    {
      hide Bits;
      hide Bit;
      hide BlockBit;
      hide PutBit;
      hide Allocated;
      var b := 0;
      while b < l.size
        invariant b % BPB == 0 && disk == old(disk) && logged == old(logged)
        invariant forall c: nat :: c < b && c < l.size ==> Bit(l, disk, c)
        decreases l.size - b
      {
        var n := MapBlock(l, b);
        assert b / BPB <= l.size / BPB;
        var bi := FirstClear(disk[n], b, l.size);
        ScannedBlock(l, disk, b, bi);
        if bi < BPB && b + bi < l.size {
          AllocatedNow(l, disk, live, b + bi);
          disk := disk[n := PutBit(disk[n], bi, true)];
          disk := disk[b + bi := ZeroBlock()];
          logged := logged + {n, b + bi};
          return Some(b + bi);
        }
        b := b + BPB;
      }
      return None;
    }

    /** bfree; false is the panic "freeing free block". */
    method Bfree(b: nat, ghost live: set<nat>) returns (ok: bool)
      requires Bits(l, disk, live) && l.data <= b < l.size
      modifies this`disk, this`logged
      ensures ok == (b in live)
      ensures Bits(l, disk, live - {b}) && SameData(l, old(disk), disk)
      ensures !ok ==> disk == old(disk) && logged == old(logged)
      ensures ok ==> var n := MapBlock(l, b);
                     n < l.data && disk == old(disk)[n := PutBit(old(disk)[n], b % BPB, false)]
                         && logged == old(logged) + {n}
    {
      assert Bit(l, disk, b) == (b in live);
      BitsUpdate(l, disk, b, false, live);
      var n := MapBlock(l, b);
      if !BlockBit(disk[n], b % BPB) {
        return false;
      }
      disk := disk[n := PutBit(disk[n], b % BPB, false)];
      logged := logged + {n};
      return true;
    }

    /** `ip->addrs[k] = balloc(ip->dev)` for an empty slot. */
    method AllocAddr(i: nat, k: nat) returns (r: Option<nat>)
      requires Conserved(l, disk, inodes, owner) && i < |inodes| && k <= NDIRECT && inodes[i].addrs[k] == 0
      modifies this`disk, this`inodes, this`owner, this`logged
      ensures r.None? ==>
                && disk == old(disk) && inodes == old(inodes) && owner == old(owner) && logged == old(logged)
                && Full(l, disk)
      ensures r.Some? ==> && FreshBlock(l, old(disk), disk, inodes, old(owner), owner, Slot(i, k), r.value)
                          && inodes == WithAddr(old(inodes), i, k, r.value)
                          && KeepsOwned(old(disk), disk, old(owner), 0)
                          && SlotsChange(old(disk), old(inodes), disk, inodes, Slot(i, k), r.value)
                          && logged == old(logged) + {MapBlock(l, r.value), r.value}
    {
      hide Bits;
      hide Full;
      hide Slots;
      hide Allocated;
      hide FreshBlock;
      hide SlotsChange;
      r := Balloc(owner.Keys);
      if r.None? {
        return;
      }
      var b := r.value;
      AddrAllocated(l, old(disk), disk, inodes, owner, i, k, b);
      inodes := WithAddr(inodes, i, k, b);
      owner := owner[b := Slot(i, k)];
    }

    /** `a[j] = balloc(ip->dev); log_write(bp)` for an empty entry of the indirect block. */
    method AllocEntry(i: nat, j: nat) returns (r: Option<nat>)
      requires Conserved(l, disk, inodes, owner) && i < |inodes| && j < NINDIRECT && inodes[i].addrs[NDIRECT] != 0
      requires SlotVal(disk, inodes, Slot(i, NDIRECT + 1 + j)) == 0
      modifies this`disk, this`owner, this`logged
      ensures r.None? ==> disk == old(disk) && owner == old(owner) && logged == old(logged) && Full(l, disk)
      ensures r.Some? ==> && FreshBlock(l, old(disk), disk, inodes, old(owner), owner, Slot(i, NDIRECT + 1 + j),
              r.value)
                          && KeepsOwned(old(disk), disk, old(owner), inodes[i].addrs[NDIRECT])
                          && SlotsChange(old(disk), inodes, disk, inodes, Slot(i, NDIRECT + 1 + j), r.value)
                          && logged == old(logged) + {MapBlock(l, r.value), r.value, inodes[i].addrs[NDIRECT]}
    {
      hide Bits;
      hide Full;
      hide Slots;
      hide Allocated;
      hide FreshBlock;
      hide SlotsChange;
      r := Balloc(owner.Keys);
      if r.None? {
        return;
      }
      var b, p := r.value, inodes[i].addrs[NDIRECT];
      EntryAllocated(l, old(disk), disk, inodes, owner, i, j, b);
      disk := disk[p := PutWord(disk[p], j, b)];
      owner := owner[b := Slot(i, NDIRECT + 1 + j)];
      logged := logged + {p};
    }

    /** bmap: the disk block of the bn-th block of inode i, allocated if need be. None is a panic: out of
        range, or out of blocks. `maps` are the bitmap blocks it logged. */
    method Bmap(i: nat, bn: nat) returns (r: Option<nat>, ghost maps: set<nat>)
      requires Conserved(l, disk, inodes, owner) && i < |inodes|
      modifies this`disk, this`inodes, this`owner, this`logged
      ensures bn >= MAXFILE ==> r.None?
      ensures bn < MAXFILE && r.None? ==> Full(l, disk) && (bn < NDIRECT ==> disk == old(disk))
      ensures bn < MAXFILE && FileBlock(old(disk), old(inodes), i, bn) != 0 ==> r.Some?
      ensures Conserved(l, disk, inodes, owner)
      ensures r.Some? ==> Bmapped(old(disk), old(inodes), old(owner), disk, inodes, owner, i, bn, r.value)
      ensures r.Some? ==>
        var absent := FileBlock(old(disk), old(inodes), i, bn) == 0;
        && |maps| <= (if !absent then 0 else if bn >= NDIRECT && old(inodes)[i].addrs[NDIRECT] == 0 then 2 else 1)
        && (if absent then logged <= old(logged) + maps + {r.value} + Indirect(inodes[i]) else logged == old(logged))
    {
      hide Bits;
      hide Full;
      hide Slots;
      hide FreshBlock;
      hide Bmapped;
      maps := {};
      if bn < NDIRECT {
        var addr := inodes[i].addrs[bn];
        if addr == 0 {
          r := AllocAddr(i, bn);
          if r.None? { return; }
          maps := {MapBlock(l, r.value)};
          BmappedDirect(l, old(disk), old(inodes), old(owner), disk, inodes, owner, i, bn, r.value);
          return;
        }
        BmappedAlready(l, disk, inodes, owner, i, bn);
        return Some(addr), {};
      }
      if bn - NDIRECT < NINDIRECT {
        r, maps := BmapIndirect(i, bn - NDIRECT);
        return;
      }
      return None, {};
    }

    /** bmap past the direct blocks: first the indirect block, then its entry j. */
    method BmapIndirect(i: nat, j: nat) returns (r: Option<nat>, ghost maps: set<nat>)
      requires Conserved(l, disk, inodes, owner) && i < |inodes| && j < NINDIRECT
      modifies this`disk, this`inodes, this`owner, this`logged
      ensures FileBlock(old(disk), old(inodes), i, j + NDIRECT) != 0 ==> r.Some?
      ensures r.None? ==> Full(l, disk)
      ensures Conserved(l, disk, inodes, owner)
      ensures r.Some? ==> Bmapped(old(disk), old(inodes), old(owner), disk, inodes, owner, i, j + NDIRECT, r.value)
      ensures r.Some? ==>
        var absent := FileBlock(old(disk), old(inodes), i, j + NDIRECT) == 0;
        && |maps| <= (if !absent then 0 else if old(inodes)[i].addrs[NDIRECT] == 0 then 2 else 1)
        && (if absent then logged <= old(logged) + maps + {r.value} + Indirect(inodes[i]) else logged == old(logged))
    {
      hide Bits;
      hide Full;
      hide Slots;
      hide FreshBlock;
      hide Bmapped;
      maps := {};
      if inodes[i].addrs[NDIRECT] == 0 {
        r := AllocAddr(i, NDIRECT);
        if r.None? { return; }
        maps := {MapBlock(l, r.value)};
        FreshMeans(l, old(disk), disk, inodes, old(owner), owner, Slot(i, NDIRECT), r.value);
        ghost var d1, ins1, own1, p := disk, inodes, owner, r.value;
        assert IsSlot(inodes, Slot(i, NDIRECT + 1 + j)) && SlotVal(disk, inodes, Slot(i, NDIRECT + 1 + j)) == 0;
        r := AllocEntry(i, j);
        if r.None? { return; }
        maps := maps + {MapBlock(l, r.value)};
        BmappedBoth(l, old(disk), old(inodes), old(owner), d1, ins1, own1, disk, owner, i, j, p, r.value);
        return;
      }
      var addr := Word(disk[inodes[i].addrs[NDIRECT]], j);
      if addr == 0 {
        r := AllocEntry(i, j);
        if r.None? { return; }
        maps := {MapBlock(l, r.value)};
        BmappedEntry(l, old(disk), inodes, old(owner), disk, owner, i, j, r.value);
        return;
      }
      BmappedAlready(l, disk, inodes, owner, i, j + NDIRECT);
      return Some(addr), {};
    }

    /** Every block is accounted for, every file has exactly the blocks its size needs, and the inodes on
        disk are those in memory. */
    ghost predicate Valid()
      reads this
    {
      && Conserved(l, disk, inodes, owner) && dinodes == inodes
      && forall i :: 0 <= i < |inodes| ==> FileOk(disk, inodes, i)
    }

    ghost function Bytes(i: nat): seq<Byte>
      requires Valid() && i < |inodes|
      reads this
    {
      assert FileOk(disk, inodes, i);
      Content(disk, inodes, i, inodes[i].size)
    }

    /** readi. Where every block of the range is there it returns those bytes and allocates nothing, and so for every
        file whose blocks go with its size. Where one is missing, as after the last block of a directory whose size
        was rounded up, bmap gives the file a zeroed block, or panics on a full disk. Nobody calls iupdate then: an
        address that the inode got is on no disk, and the block is lost. */
    method Readi(i: nat, off: Uint, n: Uint) returns (r: ReadOut)
      requires Conserved(l, disk, inodes, owner) && i < |inodes| && inodes[i].size <= MAXFILE * BSIZE
      modifies this`disk, this`inodes, this`owner, this`logged
      ensures r.Denied? <==> off > old(inodes)[i].size || (off + n) % UINT < off
      ensures r.Denied? || Backed(old(disk), old(inodes), i, off, Min(off + n, old(inodes)[i].size)) ==>
                disk == old(disk) && inodes == old(inodes) && owner == old(owner) && logged == old(logged)
      ensures r.Stuck? ==>
                && Full(l, disk) && Conserved(l, disk, inodes, owner)
                && !Backed(old(disk), old(inodes), i, off, Min(off + n, old(inodes)[i].size))
      ensures r.Data? ==> && |r.bytes| == Min(off + n, old(inodes)[i].size) - off
                          && (forall k :: 0 <= k < |r.bytes| ==>
                                r.bytes[k] == ReadByte(old(disk), old(inodes), i, off + k))
                          && OnlyMapped(l, old(disk), old(inodes), old(owner), disk, inodes, owner, i)
                          && Backed(disk, inodes, i, off, Min(off + n, old(inodes)[i].size))
      ensures r.Data? && dinodes == old(inodes) ==> (Accounted(l, disk, dinodes) <==> inodes == old(inodes))
      ensures r.Stuck? && off % BSIZE + n <= BSIZE && off < NDIRECT * BSIZE ==> Full(l, old(disk))
      ensures old(Valid()) && !r.Denied? ==>
                Valid() && r == Data(old(Bytes(i))[off..Min(off + n, old(inodes)[i].size)]) && Bytes(i) == old(Bytes(i))
    {
      hide Conserved;
      hide Mapped;
      hide FileBlock;
      hide ReadByte;
      hide OnlyMapped;
      hide Backed;
      hide Full;
      hide Content;
      hide Accounted;
      ghost var d0, ins0, own0 := disk, inodes, owner;
      if off > inodes[i].size || (off + n) % UINT < off {
        return Denied;
      }
      var n' := n;
      if off + n > inodes[i].size {
        n' := inodes[i].size - off;
      }
      if Valid() { FileBacked(disk, inodes, i, off, off + n'); }
      r := ReadBlocks(i, off, n');
      if r.Data? { ReadLoses(l, d0, ins0, own0, disk, inodes, owner, i); }
      if old(Valid()) { ReadContent(d0, ins0, i, off, r.bytes); }
    }

    /** readi's loop. */
    method ReadBlocks(i: nat, off: nat, n: nat) returns (r: ReadOut)
      requires Conserved(l, disk, inodes, owner) && i < |inodes| && off + n <= MAXFILE * BSIZE
      modifies this`disk, this`inodes, this`owner, this`logged
      ensures !r.Denied? && (Backed(old(disk), old(inodes), i, off, off + n) ==>
                               && r.Data? && disk == old(disk) && inodes == old(inodes) && owner == old(owner)
                               && logged == old(logged))
      ensures r.Stuck? ==> Full(l, disk) && Conserved(l, disk, inodes, owner)
      ensures r.Stuck? && off % BSIZE + n <= BSIZE && off < NDIRECT * BSIZE ==> Full(l, old(disk))
      ensures r.Data? ==> && |r.bytes| == n
                          && (forall k :: 0 <= k < n ==> r.bytes[k] == ReadByte(old(disk), old(inodes), i, off + k))
                          && OnlyMapped(l, old(disk), old(inodes), old(owner), disk, inodes, owner, i)
                          && Backed(disk, inodes, i, off, off + n)
    {
      hide Conserved;
      hide FileBlock;
      hide ReadByte;
      hide OnlyMapped;
      hide Backed;
      hide Full;
      ghost var d0, ins0, own0 := disk, inodes, owner;
      ghost var backed := Backed(disk, inodes, i, off, off + n);
      MapStarts(l, disk, inodes, owner, i, off);
      var tot, dst := 0, [];
      while tot < n
        invariant 0 <= tot <= n && |dst| == tot && i < |inodes| && Conserved(l, disk, inodes, owner)
        invariant OnlyMapped(l, d0, ins0, own0, disk, inodes, owner, i) && Backed(disk, inodes, i, off, off + tot)
        invariant forall k :: 0 <= k < tot ==> dst[k] == ReadByte(d0, ins0, i, off + k)
        invariant backed ==> disk == d0 && inodes == ins0 && owner == own0 && logged == old(logged)
        invariant (tot == 0 ==> disk == d0) && (off % BSIZE + n <= BSIZE ==> tot == 0 || tot == n)
      {
        if backed { BackedAt(disk, inodes, i, off, off + n, off + tot); }
        var part := ReadBlock(i, off + tot, n - tot, off, d0, ins0, own0);
        if part.None? {
          return Stuck;
        }
        dst := dst + part.value;
        tot := tot + |part.value|;
      }
      return Data(dst);
    }

    /** One turn of readi's loop. */
    method ReadBlock(i: nat, at: nat, left: nat, ghost off: nat, ghost d0: Disk, ghost ins0: seq<Inode>,
                     ghost own0: map<nat, Slot>)
      returns (part: Option<seq<Byte>>)
      requires Conserved(l, disk, inodes, owner) && i < |inodes| && off <= at && 0 < left
      requires at + left <= MAXFILE * BSIZE
      requires OnlyMapped(l, d0, ins0, own0, disk, inodes, owner, i) && Backed(disk, inodes, i, off, at)
      modifies this`disk, this`inodes, this`owner, this`logged
      ensures Conserved(l, disk, inodes, owner)
      ensures (part.None? ==> Full(l, disk) && (at / BSIZE < NDIRECT ==> disk == old(disk)))
      ensures FileBlock(old(disk), old(inodes), i, at / BSIZE) != 0 ==>
                part.Some? && disk == old(disk) && inodes == old(inodes) && owner == old(owner) && logged == old(logged)
      ensures part.Some? ==> && |part.value| == Min(left, BSIZE - at % BSIZE) && i < |inodes|
                             && OnlyMapped(l, d0, ins0, own0, disk, inodes, owner, i)
                             && Backed(disk, inodes, i, off, at + |part.value|)
                             && forall k :: 0 <= k < |part.value| ==> part.value[k] == ReadByte(d0, ins0, i, at + k)
    {
      hide Conserved;
      hide FileBlock;
      hide ReadByte;
      hide Bmapped;
      hide OnlyMapped;
      hide Backed;
      hide Full;
      hide Indirect;
      ghost var d, ins, own := disk, inodes, owner;
      var b, _ := Bmap(i, at / BSIZE);
      if b.None? {
        return None;
      }
      var m := Min(left, BSIZE - at % BSIZE);
      MapOne(l, d0, ins0, own0, d, ins, own, disk, inodes, owner, i, at / BSIZE, b.value);
      BackedMore(d, ins, disk, inodes, i, off, at, m);
      if FileBlock(d, ins, i, at / BSIZE) != 0 { ReadOnly(d, ins, own, disk, inodes, owner, i, at / BSIZE, b.value); }
      part := Some(ReadBytes(disk[b.value], at % BSIZE, m));
      ReadPart(d0, ins0, disk, inodes, i, b.value, at, m, part.value);
    }

    /** iupdate: the in-memory inode goes to disk. */
    method Iupdate(i: nat)
      requires i < |inodes| == |dinodes|
      modifies this`dinodes, this`logged
      ensures dinodes == old(dinodes)[i := inodes[i]] && logged == old(logged) + {l.inodestart + i / IPB}
    {
      dinodes := dinodes[i := inodes[i]];
      logged := logged + {l.inodestart + i / IPB};
    }

    /** writei. All or nothing: refused with nothing changed, or every byte written. `data` are the data
        blocks and `maps` the bitmap blocks it logged. */
    method Writei(i: nat, src: seq<Byte>, off: Uint) returns (r: Written, ghost data: set<nat>, ghost maps: set<nat>)
      requires Valid() && i < |inodes| && |src| < UINT
      modifies this`disk, this`inodes, this`dinodes, this`owner, this`logged
      ensures r.Refused? <==> off > old(inodes)[i].size || (off + |src|) % UINT < off || off + |src| > MAXFILE * BSIZE
      ensures r.Refused? ==> disk == old(disk) && inodes == old(inodes) && dinodes == old(dinodes)
                             && owner == old(owner) && logged == old(logged)
      ensures r.Halted? ==> Full(l, disk) && Conserved(l, disk, inodes, owner) && dinodes == old(dinodes)
      ensures r.Wrote? ==> && r.n == |src| && Valid() && |inodes| == |old(inodes)|
                           && Bytes(i) == Overwritten(old(Bytes(i)), off, src)
                           && inodes[i] == old(inodes)[i].(addrs := inodes[i].addrs,
                               size := Max(old(inodes)[i].size, off + |src|))
                           && (forall j :: 0 <= j < |inodes| && j != i ==>
                                 SameFile(old(disk), old(inodes), disk, inodes, j))
      ensures r.Wrote? ==> && |inodes[i].addrs| == |old(inodes)[i].addrs| == NDIRECT + 1
                           && Counted(old(inodes)[i].size, old(inodes)[i].addrs[NDIRECT], inodes[i].addrs[NDIRECT], off,
                               |src|, |src|, data, maps)
                           && logged <= old(logged) + data + maps + Indirect(inodes[i]) + {l.inodestart + i / IPB}
    {
      hide Full;
      hide Conserved;
      hide Mapped;
      hide FileByte;
      hide Writing;
      hide Counted;
      assert FileOk(disk, inodes, i);
      if off > inodes[i].size || (off + |src|) % UINT < off {
        return Refused, {}, {};
      }
      if off + |src| > MAXFILE * BSIZE {
        return Refused, {}, {};
      }
      var ok;
      ok, data, maps := WriteBlocks(i, src, off);
      if !ok {
        return Halted, {}, {};
      }
      WritingMeans(l, old(disk), old(inodes), old(owner), disk, inodes, owner, i, off, src, |src|);
      ghost var size := Max(inodes[i].size, off + |src|);
      ghost var done := Resized(inodes, i, size);
      WriteEnds(l, old(disk), old(inodes), old(owner), disk, inodes, owner, i, off, src, size);
      if off + |src| <= inodes[i].size {
        SameSizeSameInode(l, old(disk), old(inodes), old(owner), disk, inodes, owner, i, off, src);
      }
      if |src| > 0 && off + |src| > inodes[i].size {
        inodes := inodes[i := inodes[i].(size := off + |src|)];
        Iupdate(i);
      }
      assert inodes == done && dinodes == inodes;
      return Wrote(|src|), data, maps;
    }

    /** writei's loop. */
    method WriteBlocks(i: nat, src: seq<Byte>, off: Uint) returns (ok: bool, ghost data: set<nat>, ghost maps: set<nat>)
      requires Conserved(l, disk, inodes, owner) && FileOk(disk, inodes, i)
      requires off <= inodes[i].size && off + |src| <= MAXFILE * BSIZE
      modifies this`disk, this`inodes, this`owner, this`logged
      ensures !ok ==> Full(l, disk) && Conserved(l, disk, inodes, owner)
      ensures ok ==> && Writing(l, old(disk), old(inodes), old(owner), disk, inodes, owner, i, off, src, |src|)
                     && |inodes| == |old(inodes)| && |inodes[i].addrs| == NDIRECT + 1
                     && Counted(old(inodes)[i].size, old(inodes)[i].addrs[NDIRECT], inodes[i].addrs[NDIRECT], off,
                         |src|, |src|, data, maps)
                     && logged <= old(logged) + data + maps + Indirect(inodes[i])
    {
      hide Full;
      hide Conserved;
      hide Mapped;
      hide FileByte;
      hide Writing;
      hide Counted;
      hide Bmapped;
      data, maps := {}, {};
      WritingStarts(l, disk, inodes, owner, i, off, src);
      CountStarts(inodes[i].size, inodes[i].addrs[NDIRECT], off, |src|);
      ghost var d0, ins0, own0, logged0 := disk, inodes, owner, logged;
      var tot := 0;
      while tot < |src|
        invariant 0 <= tot <= |src| && |inodes| == |ins0| && |inodes[i].addrs| == NDIRECT + 1
        invariant Writing(l, d0, ins0, own0, disk, inodes, owner, i, off, src, tot)
        invariant Counted(ins0[i].size, ins0[i].addrs[NDIRECT], inodes[i].addrs[NDIRECT], off, |src|, tot, data, maps)
        invariant logged <= logged0 + data + maps + Indirect(inodes[i])
      {
        var m;
        ok, m, data, maps := WriteBlock(i, src, off, tot, d0, ins0, own0, logged0, data, maps);
        if !ok {
          return;
        }
        tot := tot + m;
      }
      return true, data, maps;
    }

    /** One turn of writei's loop. */
    method WriteBlock(i: nat, src: seq<Byte>, off: Uint, tot: nat, ghost d0: Disk, ghost ins0: seq<Inode>,
                      ghost own0: map<nat, Slot>, ghost logged0: set<nat>, ghost data: set<nat>, ghost maps: set<nat>)
      returns (ok: bool, m: nat, ghost data': set<nat>, ghost maps': set<nat>)
      requires Writing(l, d0, ins0, own0, disk, inodes, owner, i, off, src, tot) && tot < |src|
      requires |inodes| == |ins0| && |inodes[i].addrs| == |ins0[i].addrs| == NDIRECT + 1
      requires Counted(ins0[i].size, ins0[i].addrs[NDIRECT], inodes[i].addrs[NDIRECT], off, |src|, tot, data, maps)
      requires logged <= logged0 + data + maps + Indirect(inodes[i])
      modifies this`disk, this`inodes, this`owner, this`logged
      ensures !ok ==> Full(l, disk) && Conserved(l, disk, inodes, owner)
      ensures ok ==> && 0 < m <= |src| - tot && |inodes| == |ins0| && |inodes[i].addrs| == NDIRECT + 1
                     && Writing(l, d0, ins0, own0, disk, inodes, owner, i, off, src, tot + m)
                     && Counted(ins0[i].size, ins0[i].addrs[NDIRECT], inodes[i].addrs[NDIRECT], off, |src|, tot + m,
                         data', maps')
                     && logged <= logged0 + data' + maps' + Indirect(inodes[i])
    {
      hide Full;
      hide Conserved;
      hide Mapped;
      hide FileByte;
      hide Writing;
      hide Counted;
      hide Bmapped;
      hide OthersKept;
      hide SameButAddrs;
      hide Splice;
      hide Indirect;
      hide FileBlock;
      data', maps' := {}, {};
      WritingMeans(l, d0, ins0, own0, disk, inodes, owner, i, off, src, tot);
      ghost var d, ins, own, before := disk, inodes, owner, logged;
      var at := off + tot;
      ghost var more;
      var b;
      assert at / BSIZE < MAXFILE;
      b, more := Bmap(i, at / BSIZE);
      if b.None? {
        return false, 0, {}, {};
      }
      m := Min(|src| - tot, BSIZE - at % BSIZE);
      WriteStep(l, d0, ins0, own0, d, ins, own, i, off, src, tot, disk, inodes, owner, b.value, m);
      StepFacts(l, d0, ins0, own0, d, ins, own, i, off, src, tot, disk, inodes, owner, b.value);
      CountStep(ins0[i].size, ins0[i].addrs[NDIRECT], ins[i].addrs[NDIRECT], inodes[i].addrs[NDIRECT], off, |src|, tot,
                data, maps, m, b.value, more, FileBlock(d, ins, i, at / BSIZE) == 0);
      LoggedStep(logged0, data, maps, Indirect(ins[i]), Indirect(inodes[i]), before, logged, b.value, more);
      data', maps' := data + {b.value}, maps + more;
      disk := disk[b.value := Splice(disk[b.value], at % BSIZE, src[tot..], m)];
      logged := logged + {b.value};
      return true, m, data', maps';
    }

    /** itrunc. It never panics with "freeing free block"; it gives back every block of the file and no other. */
    method Itrunc(i: nat) returns (ok: bool)
      requires Valid() && i < |inodes|
      modifies this`disk, this`inodes, this`dinodes, this`owner, this`logged
      ensures ok && Valid() && |inodes| == |old(inodes)|
      ensures owner == old(owner) - BlocksOf(old(owner), i)
      ensures Bytes(i) == [] && inodes[i].kind == old(inodes)[i].kind && inodes[i].nlink == old(inodes)[i].nlink
      ensures forall j :: 0 <= j < |inodes| && j != i ==> SameFile(old(disk), old(inodes), disk, inodes, j)
    {
      hide Bits;
      hide Slots;
      hide FileOk;
      ok := TruncDirect(i);
      ghost var d1, ins1, own1 := disk, inodes, owner;
      FreeIndirect(l, disk, ins1, own1, i);
      if inodes[i].addrs[NDIRECT] != 0 {
        ok := TruncIndirect(i);
      } else {
        assert own1.Keys - BlocksOf(own1, i) == own1.Keys;
        assert ins1[i].addrs[NDIRECT := 0] == ins1[i].addrs;
        assert WithAddr(ins1, i, NDIRECT, 0) == ins1;
      }
      ghost var own2 := own1 - BlocksOf(own1, i);
      owner := own2;
      inodes := inodes[i := inodes[i].(size := 0)];
      TruncDone(l, old(disk), old(inodes), old(owner), d1, ins1, own1, disk, inodes, i);
      Iupdate(i);
    }

    /** itrunc's second part: the indirect entries, then the indirect block. */
    method TruncIndirect(i: nat) returns (ok: bool)
      requires Conserved(l, disk, inodes, owner) && i < |inodes| && inodes[i].addrs[NDIRECT] != 0
      requires forall k :: 0 <= k < NDIRECT ==> inodes[i].addrs[k] == 0
      modifies this`disk, this`inodes, this`logged
      ensures ok && SameData(l, old(disk), disk) && Slots(l, disk, old(inodes), owner)
      ensures Bits(l, disk, owner.Keys - BlocksOf(owner, i))
      ensures inodes == WithAddr(old(inodes), i, NDIRECT, 0)
    {
      hide Bits;
      hide Slots;
      var p := inodes[i].addrs[NDIRECT];
      AddrRange(l, disk, inodes, owner, i, NDIRECT);
      FreeIndirect(l, disk, inodes, owner, i);
      var j := 0;
      assert owner.Keys - EntryBlocks(owner, i, 0) == owner.Keys;
      while j < NINDIRECT
        invariant 0 <= j <= NINDIRECT && inodes == old(inodes)
        invariant SameData(l, old(disk), disk) && Slots(l, disk, inodes, owner)
        invariant Bits(l, disk, owner.Keys - EntryBlocks(owner, i, j))
      {
        EntryFreed(l, disk, inodes, owner, i, j);
        var a := Word(disk[p], j);
        if a != 0 {
          ghost var d := disk;
          ok := Bfree(a, owner.Keys - EntryBlocks(owner, i, j));
          SameDataSlots(l, d, disk, inodes, owner);
          assert owner.Keys - EntryBlocks(owner, i, j) - {a} == owner.Keys - EntryBlocks(owner, i, j + 1);
        }
        j := j + 1;
      }
      ghost var d := disk;
      ok := Bfree(p, owner.Keys - EntryBlocks(owner, i, NINDIRECT));
      SameDataSlots(l, d, disk, inodes, owner);
      assert owner.Keys - EntryBlocks(owner, i, NINDIRECT) - {p} == owner.Keys - BlocksOf(owner, i);
      inodes := WithAddr(inodes, i, NDIRECT, 0);
    }

    /** itrunc's first loop. */
    method TruncDirect(i: nat) returns (ok: bool)
      requires Conserved(l, disk, inodes, owner) && i < |inodes|
      modifies this`disk, this`inodes, this`owner, this`logged
      ensures ok && TruncatedTo(l, old(disk), old(inodes), old(owner), disk, inodes, owner, i, NDIRECT)
    {
      hide Bits;
      hide Slots;
      var k := 0;
      while k < NDIRECT
        invariant 0 <= k <= NDIRECT
        invariant TruncatedTo(l, old(disk), old(inodes), old(owner), disk, inodes, owner, i, k)
      {
        if inodes[i].addrs[k] != 0 {
          ghost var d, ins, own := disk, inodes, owner;
          AddrRange(l, disk, inodes, owner, i, k);
          ok := Bfree(inodes[i].addrs[k], owner.Keys);
          FreeDirect(l, d, inodes, owner, i, k, disk);
          owner := owner - {inodes[i].addrs[k]};
          inodes := WithAddr(inodes, i, k, 0);
        }
        k := k + 1;
      }
      return true;
    }

    /** One operation of filewrite: what it logs fits the log. */
    method WriteChunk(i: nat, src: seq<Byte>, off: Uint) returns (r: Written)
      requires Valid() && i < |inodes| && |src| <= CHUNK
      modifies this`disk, this`inodes, this`dinodes, this`owner, this`logged
      ensures r.Refused? <==> off > old(inodes)[i].size || (off + |src|) % UINT < off || off + |src| > MAXFILE * BSIZE
      ensures r.Refused? ==>
                && disk == old(disk) && inodes == old(inodes) && dinodes == old(dinodes) && owner == old(owner)
                && logged == {}
      ensures r.Halted? ==> Full(l, disk) && Conserved(l, disk, inodes, owner) && dinodes == old(dinodes)
      ensures r.Wrote? ==> && r.n == |src| && |logged| <= LOGSIZE && Valid() && |inodes| == |old(inodes)|
                           && Bytes(i) == Overwritten(old(Bytes(i)), off, src)
                           && inodes[i] == old(inodes)[i].(addrs := inodes[i].addrs,
                               size := Max(old(inodes)[i].size, off + |src|))
                           && (forall j :: 0 <= j < |inodes| && j != i ==>
                                 SameFile(old(disk), old(inodes), disk, inodes, j))
    {
      hide Conserved;
      hide FileOk;
      hide Counted;
      hide Overwritten;
      hide SameFile;
      hide Full;
      logged := {};      // begin_op
      ghost var size, addrs := inodes[i].size, inodes[i].addrs;
      ghost var data, maps;
      r, data, maps := Writei(i, src, off);
      if r.Wrote? {
        ChunkFits(size, addrs[NDIRECT], inodes[i].addrs[NDIRECT], off, |src|, data, maps, logged,
            l.inodestart + i / IPB);
      }
    }

    /** filewrite on a regular file: one operation per chunk. Of a write that gets too long for a file it writes
        the chunks that fit and then fails. `fits` is the largest number of blocks logged by any operation. */
    method FileWrite(i: nat, src: seq<Byte>, off: Uint) returns (r: Written, off': nat, ghost fits: nat)
      requires Valid() && i < |inodes| && |src| < UINT
      modifies this`disk, this`inodes, this`dinodes, this`owner, this`logged
      ensures fits <= LOGSIZE
      ensures r.Halted? ==> Full(l, disk) && Conserved(l, disk, inodes, owner)
      ensures !r.Halted? ==> off' == off + Accepted(old(inodes)[i].size, off, |src|)
      ensures !r.Halted? ==> r == if off' == off + |src| then Wrote(|src|) else Refused
      ensures !r.Halted? ==>
        && Valid() && |inodes| == |old(inodes)|
        && (if off <= old(inodes)[i].size then Bytes(i) == Overwritten(old(Bytes(i)), off, src[..off' - off])
            else Bytes(i) == old(Bytes(i)))
        && (forall j :: 0 <= j < |inodes| && j != i ==> SameFile(old(disk), old(inodes), disk, inodes, j))
    {
      hide Conserved;
      hide FileOk;
      hide Counted;
      hide Overwritten;
      hide SameFile;
      hide Full;
      hide Accepted;
      hide Chunked;
      var max := (LOGSIZE - 1 - 1 - 2) / 2 * 512;
      var done := 0;
      off', fits := off, 0;
      if off <= inodes[i].size { OverwriteNothing(Bytes(i), off, src); }
      FileLimit(disk, inodes, i);
      ghost var size0 := inodes[i].size;
      ChunkStarts(size0, off, |src|);
      AllSame(disk, inodes);
      while done < |src|
        invariant 0 <= done <= |src| && off' == off + done < UINT && fits <= LOGSIZE
        invariant Valid() && |inodes| == |old(inodes)|
        invariant off <= size0 ==> Bytes(i) == Overwritten(old(Bytes(i)), off, src[..done])
        invariant off <= size0 ==> off' <= inodes[i].size == |Bytes(i)|
        invariant off > size0 ==> done == 0 && inodes[i] == old(inodes)[i] && Bytes(i) == old(Bytes(i))
        invariant max == CHUNK && Chunked(size0, off, |src|, done)
        invariant forall j :: 0 <= j < |inodes| && j != i ==> SameFile(old(disk), old(inodes), disk, inodes, j)
        decreases |src| - done
      {
        var n1 := Min(|src| - done, max);
        ghost var size, d0, ins0 := inodes[i].size, disk, inodes;
        var w := WriteChunk(i, src[done..done + n1], off');
        if !w.Wrote? {
          if w.Refused? { ChunkStops(size0, size, off, |src|, done, n1); }
          return w, off', fits;
        }
        fits := Max(fits, |logged|);
        OverwriteMore(old(Bytes(i)), off, src, done, n1);
        ChunkDone(size0, off, |src|, done, n1);
        StillSame(old(disk), old(inodes), d0, ins0, disk, inodes, i);
        off' := off' + n1;
        done := done + n1;
      }
      assert src[..done] == src;
      ChunkEnds(size0, off, |src|);
      return Wrote(|src|), off', fits;
    }
  }

  /** What filewrite writes in one operation at most. */
  const CHUNK: nat := (LOGSIZE - 1 - 1 - 2) / 2 * BSIZE

  /** How many of n bytes filewrite writes at `off` into a file of this size. */
  function Accepted(size: nat, off: nat, n: nat): (r: nat)
    ensures r <= n
  {
    if off > size || off > MAXFILE * BSIZE then 0
    else if off + n <= MAXFILE * BSIZE then n
    else (MAXFILE * BSIZE - off) / CHUNK * CHUNK
  }

  /** After `done` bytes filewrite is at the end, or at the beginning of a chunk. */
  predicate Chunked(size: nat, off: nat, n: nat, done: nat)
  {
    && done <= n && (done == n || done % CHUNK == 0)
    && (if off <= size then off + done <= MAXFILE * BSIZE else done == 0)
  }

  /** A chunk is refused: what was accepted ends before it. */
  lemma {:induction false} ChunkStops(size0: nat, size: nat, off: nat, n: nat, done: nat, n1: nat)
    requires Chunked(size0, off, n, done) && done < n && n1 == Min(n - done, CHUNK)
    requires if off > size0 then size == size0 else off + done <= size
    requires off + done > size || (off + done + n1) % UINT < off + done || off + done + n1 > MAXFILE * BSIZE
    ensures Accepted(size0, off, n) == done
  {
    if off <= size0 {
      assert off + done + n1 > MAXFILE * BSIZE;
      ChunkCount(MAXFILE * BSIZE - off, done);
    }
  }

  lemma {:induction false} ChunkCount(room: nat, done: nat)
    requires done % CHUNK == 0 && done <= room < done + CHUNK
    ensures room / CHUNK * CHUNK == done
  {
    Multiple(room, done, 6656);
  }

  lemma {:induction false} Multiple(room: nat, done: nat, c: nat)
    requires c == 6656 && done % c == 0 && done <= room < done + c
    ensures room / c * c == done
  {
    assert room / 6656 == done / 6656;
  }

  lemma {:induction false} ChunkDone(size: nat, off: nat, n: nat, done: nat, n1: nat)
    requires Chunked(size, off, n, done) && done < n && n1 == Min(n - done, CHUNK)
    requires off <= size && off + done + n1 <= MAXFILE * BSIZE
    ensures Chunked(size, off, n, done + n1)
  {
    hide Accepted;
    if n1 == CHUNK && done % CHUNK == 0 { NextMultiple(done, CHUNK); }
  }

  lemma {:induction false} NextMultiple(done: nat, c: nat)
    requires c == 6656 && done % c == 0
    ensures (done + c) % c == 0
  {}

  lemma {:induction false} ChunkStarts(size: nat, off: nat, n: nat)
    requires size <= MAXFILE * BSIZE
    ensures Chunked(size, off, n, 0)
  {}

  lemma {:induction false} ChunkEnds(size: nat, off: nat, n: nat)
    requires Chunked(size, off, n, n)
    ensures Accepted(size, off, n) == n
  {}

  lemma {:induction false} AllSame(d: Disk, ins: seq<Inode>)
    requires forall j :: 0 <= j < |ins| ==> FileOk(d, ins, j)
    ensures forall j :: 0 <= j < |ins| ==> SameFile(d, ins, d, ins, j)
  {}

  lemma {:induction false} SameTwice(d0: Disk, ins0: seq<Inode>, d: Disk, ins: seq<Inode>, e: Disk, ins': seq<Inode>,
                                     j: nat)
    requires SameFile(d0, ins0, d, ins, j) && SameFile(d, ins, e, ins', j)
    ensures SameFile(d0, ins0, e, ins', j)
  {
    hide FileOk;
    hide Content;
  }

  lemma {:induction false} StillSame(d0: Disk, ins0: seq<Inode>, d: Disk, ins: seq<Inode>, e: Disk, ins': seq<Inode>,
                                     i: nat)
    requires |ins0| == |ins| == |ins'|
    requires forall j :: 0 <= j < |ins| && j != i ==> SameFile(d0, ins0, d, ins, j)
    requires forall j :: 0 <= j < |ins| && j != i ==> SameFile(d, ins, e, ins', j)
    ensures forall j :: 0 <= j < |ins| && j != i ==> SameFile(d0, ins0, e, ins', j)
  {
    hide SameFile;
    forall j | 0 <= j < |ins| && j != i
      ensures SameFile(d0, ins0, e, ins', j)
    {
      SameTwice(d0, ins0, d, ins, e, ins', j);
    }
  }

  lemma {:induction false} OverwriteNothing(c: seq<Byte>, off: nat, src: seq<Byte>)
    requires off <= |c|
    ensures Overwritten(c, off, src[..0]) == c
  {}

  lemma {:induction false} OverwriteMore(c: seq<Byte>, off: nat, src: seq<Byte>, k: nat, m: nat)
    requires off <= |c| && k + m <= |src|
    ensures off + k <= |Overwritten(c, off, src[..k])|
    ensures Overwritten(Overwritten(c, off, src[..k]), off + k, src[k..k + m]) == Overwritten(c, off, src[..k + m])
  {}

  /** Only metadata changed. */
  ghost predicate SameData(l: Layout, d: Disk, e: Disk)
  {
    |d| == |e| && forall b: nat :: l.data <= b < |d| ==> e[b] == d[b]
  }

  /** The first k direct slots of inode i are empty, and nothing of any other inode changed. */
  ghost predicate TruncatedTo(l: Layout, d0: Disk, ins0: seq<Inode>, own0: map<nat, Slot>, d: Disk, ins: seq<Inode>,
                              own: map<nat, Slot>, i: nat, k: nat)
  {
    && Conserved(l, d, ins, own) && SameData(l, d0, d) && i < |ins| == |ins0| && k <= NDIRECT
    && (forall x :: 0 <= x < k ==> ins[i].addrs[x] == 0)
    && ins[i] == ins0[i].(addrs := ins[i].addrs) && (forall j :: 0 <= j < |ins| && j != i ==> ins[j] == ins0[j])
    && (forall x :: x in own ==> x in own0 && own[x] == own0[x])
    && (forall x :: x in own0 && own0[x].i != i ==> x in own)
  }

  lemma {:induction false} SameDataSlots(l: Layout, d: Disk, e: Disk, ins: seq<Inode>, own: map<nat, Slot>)
    requires Slots(l, d, ins, own) && SameData(l, d, e)
    ensures Slots(l, e, ins, own)
  {
    SlotsFrame(l, d, e, ins, own);
  }

  /** Putting itrunc's parts together. */
  lemma {:induction false} TruncDone(l: Layout, d0: Disk, ins0: seq<Inode>, own0: map<nat, Slot>, d1: Disk,
                                     ins1: seq<Inode>, own1: map<nat, Slot>, e: Disk, ins2: seq<Inode>, i: nat)
    requires Conserved(l, d0, ins0, own0) && (forall j :: 0 <= j < |ins0| ==> FileOk(d0, ins0, j))
    requires TruncatedTo(l, d0, ins0, own0, d1, ins1, own1, i, NDIRECT) && SameData(l, d1, e)
    requires ins2 == Resized(WithAddr(ins1, i, NDIRECT, 0), i, 0)
    requires Slots(l, e, ins1, own1) && Bits(l, e, own1.Keys - BlocksOf(own1, i))
    ensures own1 - BlocksOf(own1, i) == own0 - BlocksOf(own0, i)
    ensures Conserved(l, e, ins2, own1 - BlocksOf(own1, i)) && FileOk(e, ins2, i)
    ensures forall j :: 0 <= j < |ins0| && j != i ==> FileOk(e, ins2, j) && SameFile(d0, ins0, e, ins2, j)
  {
    hide Bits;
    hide FileOk;
    hide Mapped;
    hide Slots;
    var own2 := own1 - BlocksOf(own1, i);
    TruncConserved(l, e, ins1, own1, ins2, i);
    TruncSelf(e, ins2, i);
    forall j: nat | j < |ins0| && j != i ensures FileOk(e, ins2, j) && SameFile(d0, ins0, e, ins2, j) {
      TruncOther(l, d0, ins0, own0, e, ins2, own2, i, j);
    }
  }

  lemma {:induction false} TruncConserved(l: Layout, e: Disk, ins: seq<Inode>, own: map<nat, Slot>, ins': seq<Inode>,
                                          i: nat)
    requires LayoutOk(l, e) && i < |ins| && |ins[i].addrs| == NDIRECT + 1
    requires (forall k :: 0 <= k < NDIRECT ==> ins[i].addrs[k] == 0)
    requires ins' == Resized(WithAddr(ins, i, NDIRECT, 0), i, 0)
    requires Slots(l, e, ins, own) && Bits(l, e, own.Keys - BlocksOf(own, i))
    ensures Conserved(l, e, ins', own - BlocksOf(own, i)) && InodesOk(e, ins') && Mapped(e, ins', i, 0)
  {
    hide Bits;
    FreeIndirect(l, e, ins, own, i);
    Resize(l, e, WithAddr(ins, i, NDIRECT, 0), own - BlocksOf(own, i), i, 0);
  }

  lemma {:induction false} TruncSelf(e: Disk, ins: seq<Inode>, i: nat)
    requires InodesOk(e, ins) && i < |ins| && Mapped(e, ins, i, 0) && ins[i].size == 0
    ensures FileOk(e, ins, i)
  {}

  lemma {:induction false} TruncOther(l: Layout, d: Disk, ins: seq<Inode>, own: map<nat, Slot>, e: Disk,
                                      ins': seq<Inode>, own': map<nat, Slot>, i: nat, j: nat)
    requires Conserved(l, d, ins, own) && Conserved(l, e, ins', own') && |ins| == |ins'|
    requires SameData(l, d, e) && j != i && FileOk(d, ins, j) && ins'[j] == ins[j]
    requires forall x :: x in own && own[x].i != i ==> x in own' && own'[x] == own[x]
    ensures SameFile(d, ins, e, ins', j)
  {
    hide Mapped;
    hide FileByte;
    hide Bit;
    OtherFile(l, d, ins, own, e, ins', own', i, j);
  }

  lemma {:induction false} AddrRange(l: Layout, d: Disk, ins: seq<Inode>, own: map<nat, Slot>, i: nat, k: nat)
    requires Conserved(l, d, ins, own) && i < |ins| && k <= NDIRECT && ins[i].addrs[k] != 0
    ensures ins[i].addrs[k] in own && own[ins[i].addrs[k]] == Slot(i, k) && l.data <= ins[i].addrs[k] < l.size
  {
    hide Bits;
    assert IsSlot(ins, Slot(i, k)) && SlotVal(d, ins, Slot(i, k)) == ins[i].addrs[k];
  }

  lemma {:induction false} LoggedStep(logged0: set<nat>, data: set<nat>, maps: set<nat>, ind: set<nat>, ind': set<nat>,
                                      before: set<nat>, after: set<nat>, b: nat, more: set<nat>)
    requires before <= logged0 + data + maps + ind && ind <= ind' && after <= before + more + {b} + ind'
    ensures after + {b} <= logged0 + (data + {b}) + (maps + more) + ind'
  {}

  lemma {:induction false} CountStarts(size: nat, ind: nat, off: nat, n: nat)
    requires off <= size
    ensures Counted(size, ind, ind, off, n, 0, {}, {})
  {}

  /** What one turn of the loop knows about block numbers. */
  lemma {:induction false} StepFacts(l: Layout, d0: Disk, ins0: seq<Inode>, own0: map<nat, Slot>, d: Disk,
                                     ins: seq<Inode>, own: map<nat, Slot>, i: nat, off: nat, src: seq<Byte>, tot: nat,
                                     e: Disk, ins': seq<Inode>, own': map<nat, Slot>, b: nat)
    requires Writing(l, d0, ins0, own0, d, ins, own, i, off, src, tot)
    requires Bmapped(d, ins, own, e, ins', own', i, (off + tot) / BSIZE, b)
    ensures b < |e| && |ins'| == |ins| && |ins'[i].addrs| == |ins[i].addrs| == NDIRECT + 1
    ensures ins[i].addrs[NDIRECT] != 0 ==> ins'[i].addrs[NDIRECT] == ins[i].addrs[NDIRECT]
    ensures (off + tot) / BSIZE < NDIRECT ==> ins'[i].addrs[NDIRECT] == ins[i].addrs[NDIRECT]
    ensures (off + tot) / BSIZE >= NDIRECT ==> ins'[i].addrs[NDIRECT] != 0
    ensures Indirect(ins[i]) <= Indirect(ins'[i])
    ensures FileBlock(d, ins, i, (off + tot) / BSIZE) == 0 <==>
            (off + tot) / BSIZE >= BlocksFor(Max(ins0[i].size, off + tot))
  {
    hide Conserved;
    hide FileByte;
    hide OthersKept;
  }

  lemma {:induction false} WritingStarts(l: Layout, d: Disk, ins: seq<Inode>, own: map<nat, Slot>, i: nat, off: nat,
                                         src: seq<Byte>)
    requires Conserved(l, d, ins, own) && FileOk(d, ins, i) && off <= ins[i].size && off + |src| <= MAXFILE * BSIZE
    ensures Writing(l, d, ins, own, d, ins, own, i, off, src, 0)
  {
    hide Bit;
    hide FileByte;
    hide Mapped;
  }

  lemma {:induction false} WritingMeans(l: Layout, d0: Disk, ins0: seq<Inode>, own0: map<nat, Slot>, d: Disk,
                                        ins: seq<Inode>, own: map<nat, Slot>, i: nat, off: nat, src: seq<Byte>,
                                        tot: nat)
    requires Writing(l, d0, ins0, own0, d, ins, own, i, off, src, tot)
    ensures Conserved(l, d, ins, own) && SameButAddrs(ins0, ins, i) && OthersKept(d0, own0, d, own, i)
    ensures i < |ins| && off <= ins0[i].size && off + |src| <= MAXFILE * BSIZE && tot <= |src|
  {}

  /** writei allocates only past the end of the file: if the size did not grow, the inode in memory is
      still the one on disk, although iupdate is not called. */
  lemma {:induction false} SameSizeSameInode(l: Layout, d0: Disk, ins0: seq<Inode>, own0: map<nat, Slot>, d: Disk,
                                             ins: seq<Inode>, own: map<nat, Slot>, i: nat, off: nat, src: seq<Byte>)
    requires FileOk(d0, ins0, i) && off + |src| <= ins0[i].size
    requires Writing(l, d0, ins0, own0, d, ins, own, i, off, src, |src|)
    ensures ins == ins0
  {
    hide Conserved;
    hide FileByte;
    hide OthersKept;
    var nb := BlocksFor(ins0[i].size);
    forall k: nat | k <= NDIRECT ensures ins[i].addrs[k] == ins0[i].addrs[k] {
      if k < NDIRECT {
        assert FileBlock(d, ins, i, k) == ins[i].addrs[k] && FileBlock(d0, ins0, i, k) == ins0[i].addrs[k];
      }
    }
  }

  ghost predicate SameFile(d0: Disk, ins0: seq<Inode>, d: Disk, ins: seq<Inode>, j: nat)
  {
    && FileOk(d0, ins0, j) && FileOk(d, ins, j) && ins[j] == ins0[j]
    && Content(d, ins, j, ins[j].size) == Content(d0, ins0, j, ins0[j].size)
  }

  lemma {:induction false} WriteEndsSelf(l: Layout, d0: Disk, ins0: seq<Inode>, own0: map<nat, Slot>, d: Disk,
                                         ins: seq<Inode>, own: map<nat, Slot>, i: nat, off: nat, src: seq<Byte>,
                                         size: nat)
    requires FileOk(d0, ins0, i) && Writing(l, d0, ins0, own0, d, ins, own, i, off, src, |src|)
    requires size == Max(ins0[i].size, off + |src|)
    ensures Conserved(l, d, Resized(ins, i, size), own) && FileOk(d, Resized(ins, i, size), i)
    ensures Content(d, Resized(ins, i, size), i, size) == Overwritten(Content(d0, ins0, i, ins0[i].size), off, src)
  {
    hide Mapped;
    hide Bits;
    hide Slots;
    hide FileByte;
    Resize(l, d, ins, own, i, size);
    WritingDone(l, d0, ins0, own0, d, ins, own, i, off, src);
  }

  lemma {:induction false} WriteEnds(l: Layout, d0: Disk, ins0: seq<Inode>, own0: map<nat, Slot>, d: Disk,
                                     ins: seq<Inode>, own: map<nat, Slot>, i: nat, off: nat, src: seq<Byte>, size: nat)
    requires Conserved(l, d0, ins0, own0) && (forall j :: 0 <= j < |ins0| ==> FileOk(d0, ins0, j))
    requires Writing(l, d0, ins0, own0, d, ins, own, i, off, src, |src|)
    requires size == Max(ins0[i].size, off + |src|)
    ensures Conserved(l, d, Resized(ins, i, size), own)
    ensures forall j :: 0 <= j < |ins0| ==> FileOk(d, Resized(ins, i, size), j)
    ensures Content(d, Resized(ins, i, size), i, size) == Overwritten(Content(d0, ins0, i, ins0[i].size), off, src)
    ensures forall j :: 0 <= j < |ins0| && j != i ==> SameFile(d0, ins0, d, Resized(ins, i, size), j)
  {
    hide Mapped;
    hide Bits;
    hide Slots;
    hide FileByte;
    WriteEndsSelf(l, d0, ins0, own0, d, ins, own, i, off, src, size);
    forall j: nat | j < |ins0| && j != i
      ensures FileOk(d, Resized(ins, i, size), j) && SameFile(d0, ins0, d, Resized(ins, i, size), j)
    {
      OtherFile(l, d0, ins0, own0, d, Resized(ins, i, size), own, i, j);
    }
  }

  lemma {:induction false} ReadOnly(d: Disk, ins: seq<Inode>, own: map<nat, Slot>, e: Disk, ins': seq<Inode>,
                                    own': map<nat, Slot>, i: nat, bn: nat, b: nat)
    requires Bmapped(d, ins, own, e, ins', own', i, bn, b) && FileBlock(d, ins, i, bn) != 0
    ensures e == d && ins' == ins && own' == own && b < |d| && b == FileBlock(d, ins, i, bn)
  {}

  /** `memmove(dst, bp->data + o, m)`. */
  function ReadBytes(b: Block, o: nat, m: nat): (r: seq<Byte>)
    requires o + m <= BSIZE
    ensures |r| == m && forall k :: 0 <= k < m ==> r[k] == ByteAt(b, o + k)
  {
    seq<Byte>(m, k requires 0 <= k < m => ByteAt(b, o + k))
  }

  /** The bytes lo..hi-1 of file i have their blocks. */
  ghost predicate Backed(d: Disk, ins: seq<Inode>, i: nat, lo: nat, hi: nat)
  {
    && InodesOk(d, ins) && i < |ins| && hi <= MAXFILE * BSIZE
    && forall bn: nat {:trigger FileBlock(d, ins, i, bn)} :: lo / BSIZE <= bn && bn * BSIZE < hi && lo < hi ==>
          FileBlock(d, ins, i, bn) != 0
  }

  /** What reading byte p gives: 0 where the file has no block. */
  ghost function ReadByte(d: Disk, ins: seq<Inode>, i: nat, p: nat): Byte
  {
    if InodesOk(d, ins) && i < |ins| && p < MAXFILE * BSIZE && 0 < FileBlock(d, ins, i, p / BSIZE) < |d|
    then ByteAt(d[FileBlock(d, ins, i, p / BSIZE)], p % BSIZE) else 0
  }

  /** Block bn of file i is the one it was, with the same data; or one it got since, zeroed; or still none. */
  ghost predicate SameBlock(d0: Disk, ins0: seq<Inode>, d: Disk, ins: seq<Inode>, i: nat, bn: nat)
    requires InodesOk(d0, ins0) && InodesOk(d, ins) && i < |ins0| && i < |ins| && bn < MAXFILE
  {
    var x0, x := FileBlock(d0, ins0, i, bn), FileBlock(d, ins, i, bn);
    if x0 != 0 then x == x0 < |d0| && x < |d| && d[x] == d0[x] else x == 0 || (x < |d| && d[x] == ZeroBlock())
  }

  /** File i may have got zeroed blocks where it had none; nothing else happened to any file. */
  ghost predicate OnlyMapped(l: Layout, d0: Disk, ins0: seq<Inode>, own0: map<nat, Slot>, d: Disk, ins: seq<Inode>,
                             own: map<nat, Slot>, i: nat)
  {
    && Conserved(l, d, ins, own) && InodesOk(d0, ins0) && SameButAddrs(ins0, ins, i) && OthersKept(d0, own0, d, own, i)
    && forall bn: nat {:trigger SameBlock(d0, ins0, d, ins, i, bn)} :: bn < MAXFILE ==>
          SameBlock(d0, ins0, d, ins, i, bn)
  }

  /** The blocks can be accounted for by the inodes as they were if and only if none of them got an address. */
  lemma {:induction false} ReadLoses(l: Layout, d0: Disk, ins0: seq<Inode>, own0: map<nat, Slot>, d: Disk,
                                     ins: seq<Inode>, own: map<nat, Slot>, i: nat)
    requires OnlyMapped(l, d0, ins0, own0, d, ins, own, i)
    ensures Accounted(l, d, ins0) <==> ins == ins0
  {
    hide Bits;
    hide SameBlock;
    assert InodesOk(d, ins0);
    if ins != ins0 {
      var k := NewAddr(ins0, ins, i);
      var b := ins[i].addrs[k];
      assert IsSlot(ins, Slot(i, k)) && SlotVal(d, ins, Slot(i, k)) == b;
      forall u | IsSlot(ins0, u) ensures SlotVal(d, ins0, u) != b {
        assert IsSlot(ins, u) && (SlotVal(d, ins0, u) == 0 || SlotVal(d, ins0, u) == SlotVal(d, ins, u));
      }
      Unaccounted(l, d, ins, own, ins0, b);
    }
  }

  lemma {:induction false} NewAddr(ins0: seq<Inode>, ins: seq<Inode>, i: nat) returns (k: nat)
    requires SameButAddrs(ins0, ins, i) && ins != ins0
    ensures k < |ins[i].addrs| == |ins0[i].addrs| && ins0[i].addrs[k] == 0 != ins[i].addrs[k]
  {
    assert ins[i].addrs == ins0[i].addrs ==> ins == ins0;
    k :| 0 <= k < |ins[i].addrs| && ins[i].addrs[k] != ins0[i].addrs[k];
  }

  lemma {:induction false} MapStarts(l: Layout, d: Disk, ins: seq<Inode>, own: map<nat, Slot>, i: nat, off: nat)
    requires Conserved(l, d, ins, own) && i < |ins| && off <= MAXFILE * BSIZE
    ensures OnlyMapped(l, d, ins, own, d, ins, own, i) && Backed(d, ins, i, off, off)
  {
    hide Bits;
    forall bn: nat | bn < MAXFILE
      ensures SameBlock(d, ins, d, ins, i, bn)
    {
      assert IsSlot(ins, Slot(i, FileSlot(bn)));
    }
  }

  lemma {:induction false} MapOneBlock(l: Layout, d0: Disk, ins0: seq<Inode>, d: Disk, ins: seq<Inode>,
                                       own: map<nat, Slot>, e: Disk, ins': seq<Inode>, own': map<nat, Slot>, i: nat,
                                       bn: nat, b: nat, c: nat)
    requires InodesOk(d0, ins0) && i < |ins0| && c < MAXFILE && Slots(l, d, ins, own)
    requires Bmapped(d, ins, own, e, ins', own', i, bn, b)
    requires SameBlock(d0, ins0, d, ins, i, c)
    ensures SameBlock(d0, ins0, e, ins', i, c)
    ensures FileBlock(d, ins, i, c) != 0 ==> FileBlock(e, ins', i, c) == FileBlock(d, ins, i, c)
  {
    assert IsSlot(ins, Slot(i, FileSlot(c)));
  }

  /** bmap maps one block more. */
  lemma {:induction false} MapOne(l: Layout, d0: Disk, ins0: seq<Inode>, own0: map<nat, Slot>, d: Disk, ins: seq<Inode>,
                                  own: map<nat, Slot>, e: Disk, ins': seq<Inode>, own': map<nat, Slot>, i: nat, bn: nat,
                                  b: nat)
    requires OnlyMapped(l, d0, ins0, own0, d, ins, own, i) && Conserved(l, e, ins', own')
    requires Bmapped(d, ins, own, e, ins', own', i, bn, b)
    ensures OnlyMapped(l, d0, ins0, own0, e, ins', own', i) && i < |ins'| && bn < MAXFILE && b < |e|
    ensures InodesOk(d0, ins0) && InodesOk(e, ins') && i < |ins0| && SameBlock(d0, ins0, e, ins', i, bn)
    ensures InodesOk(d, ins) && i < |ins|
    ensures FileBlock(e, ins', i, bn) == b != 0
    ensures forall c: nat {:trigger FileBlock(e, ins', i, c)} ::
              c < MAXFILE && FileBlock(d, ins, i, c) != 0 ==> FileBlock(e, ins', i, c) != 0
  {
    hide Bits;
    hide SameBlock;
    hide Bmapped;
    MapOneInode(l, d0, ins0, own0, d, ins, own, e, ins', own', i, bn, b);
    forall c: nat | c < MAXFILE
      ensures SameBlock(d0, ins0, e, ins', i, c) && (FileBlock(d, ins, i, c) != 0 ==> FileBlock(e, ins', i, c) != 0)
    {
      assert SameBlock(d0, ins0, d, ins, i, c);
      MapOneBlock(l, d0, ins0, d, ins, own, e, ins', own', i, bn, b, c);
    }
  }

  lemma {:induction false} MapOneInode(l: Layout, d0: Disk, ins0: seq<Inode>, own0: map<nat, Slot>, d: Disk,
                                       ins: seq<Inode>, own: map<nat, Slot>, e: Disk, ins': seq<Inode>,
                                       own': map<nat, Slot>, i: nat, bn: nat, b: nat)
    requires SameButAddrs(ins0, ins, i) && OthersKept(d0, own0, d, own, i)
    requires Bmapped(d, ins, own, e, ins', own', i, bn, b)
    ensures SameButAddrs(ins0, ins', i) && OthersKept(d0, own0, e, own', i) && b < |e| && bn < MAXFILE
    ensures FileBlock(e, ins', i, bn) == b != 0
  {
    forall k | 0 <= k < NDIRECT && ins[i].addrs[k] != 0 ensures ins'[i].addrs[k] == ins[i].addrs[k] {
      assert IsSlot(ins, Slot(i, k)) && SlotVal(d, ins, Slot(i, k)) == ins[i].addrs[k];
      if k == bn { assert FileBlock(d, ins, i, bn) != 0; }
    }
  }

  lemma {:induction false} BackedAt(d: Disk, ins: seq<Inode>, i: nat, lo: nat, hi: nat, p: nat)
    requires Backed(d, ins, i, lo, hi) && lo <= p < hi
    ensures p / BSIZE < MAXFILE && InodesOk(d, ins) && i < |ins| && FileBlock(d, ins, i, p / BSIZE) != 0
  {}

  lemma {:induction false} BackedMore(d: Disk, ins: seq<Inode>, e: Disk, ins': seq<Inode>, i: nat, lo: nat, at: nat,
                                      m: nat)
    requires Backed(d, ins, i, lo, at) && InodesOk(e, ins') && i < |ins'| && lo <= at && 0 < m <= BSIZE - at % BSIZE
    requires at + m <= MAXFILE * BSIZE
    requires FileBlock(e, ins', i, at / BSIZE) != 0
    requires forall c: nat {:trigger FileBlock(e, ins', i, c)} ::
               c < MAXFILE && FileBlock(d, ins, i, c) != 0 ==> FileBlock(e, ins', i, c) != 0
    ensures Backed(e, ins', i, lo, at + m)
  {
    hide FileBlock;
    forall bn: nat | lo / BSIZE <= bn && bn * BSIZE < at + m ensures FileBlock(e, ins', i, bn) != 0 {
      if bn * BSIZE < at && lo < at { assert FileBlock(d, ins, i, bn) != 0; } else { assert bn == at / BSIZE; }
    }
  }

  lemma {:induction false} ReadPart(d0: Disk, ins0: seq<Inode>, d: Disk, ins: seq<Inode>, i: nat, b: nat, p: nat,
                                    m: nat, part: seq<Byte>)
    requires InodesOk(d0, ins0) && InodesOk(d, ins) && i < |ins0| && i < |ins| && p + m <= MAXFILE * BSIZE
    requires 0 < m <= BSIZE - p % BSIZE
    requires p / BSIZE < MAXFILE && SameBlock(d0, ins0, d, ins, i, p / BSIZE)
    requires FileBlock(d, ins, i, p / BSIZE) == b != 0 && b < |d|
    requires part == ReadBytes(d[b], p % BSIZE, m)
    ensures forall k :: 0 <= k < m ==> part[k] == ReadByte(d0, ins0, i, p + k)
  {
    hide ByteAt;
    hide FileBlock;
    forall k: nat | k < m ensures part[k] == ReadByte(d0, ins0, i, p + k) {
      assert p + k == p / BSIZE * BSIZE + (p % BSIZE + k);
      assert (p + k) / BSIZE == p / BSIZE && (p + k) % BSIZE == p % BSIZE + k;
      ZeroBytes(p % BSIZE + k);
    }
  }

  lemma {:induction false} FileBacked(d: Disk, ins: seq<Inode>, i: nat, lo: nat, hi: nat)
    requires FileOk(d, ins, i) && hi <= ins[i].size
    ensures Backed(d, ins, i, lo, hi)
  {
    hide FileBlock;
    forall bn: nat | bn * BSIZE < hi ensures FileBlock(d, ins, i, bn) != 0 { assert bn < BlocksFor(ins[i].size); }
  }

  lemma {:induction false} ReadContent(d: Disk, ins: seq<Inode>, i: nat, off: nat, dst: seq<Byte>)
    requires FileOk(d, ins, i) && off + |dst| <= ins[i].size
    requires forall k :: 0 <= k < |dst| ==> dst[k] == ReadByte(d, ins, i, off + k)
    ensures dst == Content(d, ins, i, ins[i].size)[off..off + |dst|]
  {
    hide FileBlock;
    FileBacked(d, ins, i, 0, ins[i].size);
    forall k | 0 <= k < |dst| ensures dst[k] == FileByte(d, ins, i, off + k) {
      assert (off + k) / BSIZE * BSIZE <= off + k;
      assert FileBlock(d, ins, i, (off + k) / BSIZE) != 0;
    }
  }

  lemma {:induction false} FreshMeans(l: Layout, d: Disk, e: Disk, inodes: seq<Inode>, own: map<nat, Slot>,
                                      own': map<nat, Slot>, s: Slot, b: nat)
    requires FreshBlock(l, d, e, inodes, own, own', s, b)
    ensures Conserved(l, e, inodes, own')
  {}

  lemma {:induction false} BmappedEntry(l: Layout, d: Disk, ins: seq<Inode>, own: map<nat, Slot>, e: Disk,
                                        own': map<nat, Slot>, i: nat, j: nat, b: nat)
    requires Conserved(l, d, ins, own) && i < |ins| && j < NINDIRECT && ins[i].addrs[NDIRECT] != 0
    requires FreshBlock(l, d, e, ins, own, own', Slot(i, NDIRECT + 1 + j), b)
    requires KeepsOwned(d, e, own, ins[i].addrs[NDIRECT])
    requires SlotsChange(d, ins, e, ins, Slot(i, NDIRECT + 1 + j), b)
    ensures Conserved(l, e, ins, own') && Bmapped(d, ins, own, e, ins, own', i, j + NDIRECT, b)
  {
    hide Bits;
    assert IsSlot(ins, Slot(i, NDIRECT)) && SlotVal(d, ins, Slot(i, NDIRECT)) == ins[i].addrs[NDIRECT];
  }

  lemma {:induction false} BmappedBoth(l: Layout, d: Disk, ins: seq<Inode>, own: map<nat, Slot>, d1: Disk,
                                       ins1: seq<Inode>, own1: map<nat, Slot>, e: Disk, own': map<nat, Slot>, i: nat,
                                       j: nat, p: nat, b: nat)
    requires Conserved(l, d, ins, own) && i < |ins| && j < NINDIRECT && ins[i].addrs[NDIRECT] == 0
    requires FreshBlock(l, d, d1, ins1, own, own1, Slot(i, NDIRECT), p) && KeepsOwned(d, d1, own, 0)
    requires ins1 == WithAddr(ins, i, NDIRECT, p) && SlotsChange(d, ins, d1, ins1, Slot(i, NDIRECT), p)
    requires FreshBlock(l, d1, e, ins1, own1, own', Slot(i, NDIRECT + 1 + j), b) && KeepsOwned(d1, e, own1, p)
    requires SlotsChange(d1, ins1, e, ins1, Slot(i, NDIRECT + 1 + j), b)
    ensures Conserved(l, e, ins1, own') && Bmapped(d, ins, own, e, ins1, own', i, j + NDIRECT, b)
  {
    hide Bits;
    hide Slots;
  }

  lemma {:induction false} BmappedAlready(l: Layout, d: Disk, ins: seq<Inode>, own: map<nat, Slot>, i: nat, bn: nat)
    requires Conserved(l, d, ins, own) && i < |ins| && bn < MAXFILE && FileBlock(d, ins, i, bn) != 0
    requires bn >= NDIRECT ==> ins[i].addrs[NDIRECT] != 0
    ensures Bmapped(d, ins, own, d, ins, own, i, bn, FileBlock(d, ins, i, bn))
  {
    hide Bit;
    assert IsSlot(ins, Slot(i, FileSlot(bn)));
  }

  lemma {:induction false} BmappedDirect(l: Layout, d: Disk, ins: seq<Inode>, own: map<nat, Slot>, e: Disk,
                                         ins': seq<Inode>, own': map<nat, Slot>, i: nat, bn: nat, b: nat)
    requires Conserved(l, d, ins, own) && i < |ins| && bn < NDIRECT
    requires FreshBlock(l, d, e, ins', own, own', Slot(i, bn), b) && KeepsOwned(d, e, own, 0)
    requires ins' == WithAddr(ins, i, bn, b) && SlotsChange(d, ins, e, ins', Slot(i, bn), b)
    ensures Conserved(l, e, ins', own') && Bmapped(d, ins, own, e, ins', own', i, bn, b)
  {
    hide Bits;
  }

  /** A zeroed block b, owned by nobody before, is now owned by slot s. */
  ghost predicate FreshBlock(l: Layout, d: Disk, e: Disk, inodes: seq<Inode>, own: map<nat, Slot>, own': map<nat, Slot>,
                             s: Slot, b: nat)
  {
    && Conserved(l, e, inodes, own') && |e| == |d|
    && b < |e| && e[b] == ZeroBlock() && b !in own && own' == own[b := s]
    && (forall x :: x in own ==> 0 < x < |d|)
  }

  /** No owned block other than p changed. */
  ghost predicate KeepsOwned(d: Disk, e: Disk, own: map<nat, Slot>, p: nat)
  {
    |d| == |e| && forall x :: x in own && x != p && x < |d| ==> e[x] == d[x]
  }

  lemma {:induction false} AllocatedKeepsSlots(l: Layout, d: Disk, e: Disk, ins: seq<Inode>, own: map<nat, Slot>,
                                               b: nat)
    requires Conserved(l, d, ins, own) && Allocated(l, d, e, own.Keys, b)
    ensures Slots(l, e, ins, own) && KeepsOwned(d, e, own, 0) && 0 < l.data <= b < l.size <= |e| <= UINT
    ensures e[b] == ZeroBlock() && b !in own && Bits(l, e, own.Keys + {b})
    ensures forall s :: IsSlot(ins, s) ==> SlotVal(e, ins, s) == SlotVal(d, ins, s)
    ensures forall x :: x in own ==> 0 < x < |d|
  {
    hide Bit;
    SlotsFrame(l, d, e, ins, own);
  }

  lemma {:induction false} AddrAllocated(l: Layout, d: Disk, e: Disk, ins: seq<Inode>, own: map<nat, Slot>, i: nat,
                                         k: nat, b: nat)
    requires Conserved(l, d, ins, own) && Allocated(l, d, e, own.Keys, b)
    requires i < |ins| && k <= NDIRECT && ins[i].addrs[k] == 0
    ensures FreshBlock(l, d, e, WithAddr(ins, i, k, b), own, own[b := Slot(i, k)], Slot(i, k), b)
    ensures KeepsOwned(d, e, own, 0)
    ensures SlotsChange(d, ins, e, WithAddr(ins, i, k, b), Slot(i, k), b)
  {
    hide Bits;
    AllocatedKeepsSlots(l, d, e, ins, own, b);
    RecordAddr(l, e, ins, own, i, k, b);
    assert own[b := Slot(i, k)].Keys == own.Keys + {b};
  }

  lemma {:induction false} EntryAllocated(l: Layout, d: Disk, e: Disk, ins: seq<Inode>, own: map<nat, Slot>, i: nat,
                                          j: nat, b: nat)
    requires Conserved(l, d, ins, own) && Allocated(l, d, e, own.Keys, b)
    requires i < |ins| && j < NINDIRECT && ins[i].addrs[NDIRECT] != 0 && SlotVal(d, ins, Slot(i, NDIRECT + 1 + j)) == 0
    ensures var p := ins[i].addrs[NDIRECT];
            && p < |e| && b < UINT
            && FreshBlock(l, d, e[p := PutWord(e[p], j, b)], ins, own, own[b := Slot(i, NDIRECT + 1 + j)],
                Slot(i, NDIRECT + 1 + j), b)
            && KeepsOwned(d, e[p := PutWord(e[p], j, b)], own, p)
            && SlotsChange(d, ins, e[p := PutWord(e[p], j, b)], ins, Slot(i, NDIRECT + 1 + j), b)
  {
    hide Bits;
    var p := ins[i].addrs[NDIRECT];
    AllocatedKeepsSlots(l, d, e, ins, own, b);
    RecordEntry(l, e, ins, own, i, j, b);
    BitsFrame(l, e, p, PutWord(e[p], j, b), own.Keys + {b});
    assert own[b := Slot(i, NDIRECT + 1 + j)].Keys == own.Keys + {b};
  }

  /** Slot s changed from empty to b, and no other slot changed. */
  ghost predicate SlotsChange(d: Disk, ins: seq<Inode>, e: Disk, ins': seq<Inode>, s: Slot, b: nat)
  {
    && InodesOk(d, ins) && InodesOk(e, ins') && |ins| == |ins'| && IsSlot(ins, s) && SlotVal(d, ins, s) == 0 && b != 0
    && forall t :: IsSlot(ins, t) ==> SlotVal(e, ins', t) == if t == s then b else SlotVal(d, ins, t)
  }

  /** balloc's inner loop: the first clear bit of the bitmap block for blocks b, b+1, ... below size. */
  method FirstClear(bits: Block, b: nat, size: nat) returns (bi: nat)
    ensures bi <= BPB
    ensures bi == BPB || b + bi >= size || !BlockBit(bits, bi)
    ensures forall c: nat :: c < bi ==> BlockBit(bits, c)
  {
    bi := 0;
    while bi < BPB && b + bi < size
      invariant 0 <= bi <= BPB
      invariant forall c: nat :: c < bi ==> BlockBit(bits, c)
    {
      if !BlockBit(bits, bi) {
        return;
      }
      bi := bi + 1;
    }
  }

  lemma {:induction false} ScannedBlock(l: Layout, d: Disk, b: nat, bi: nat)
    requires LayoutOk(l, d) && b % BPB == 0 && b < l.size && bi <= BPB
    requires MapBlock(l, b) < |d| && forall c: nat :: c < bi ==> BlockBit(d[MapBlock(l, b)], c)
    ensures bi < BPB ==> (b + bi) / BPB == b / BPB && (b + bi) % BPB == bi
    ensures bi < BPB && b + bi < l.size ==> Bit(l, d, b + bi) == BlockBit(d[MapBlock(l, b)], bi)
    ensures forall c: nat :: b <= c < b + bi && c < l.size ==> Bit(l, d, c)
  {
    forall c: nat | b <= c < b + BPB ensures c / BPB == b / BPB && c % BPB == c - b {
      assert c == b / BPB * BPB + (c - b);
    }
    forall c: nat | b <= c < b + bi && c < l.size ensures Bit(l, d, c) {
      assert BlockBit(d[MapBlock(l, b)], c - b);
    }
  }

  /** Block b is the lowest one that was free; it is now marked used and holds zeroes. */
  ghost predicate Allocated(l: Layout, d: Disk, e: Disk, live: set<nat>, b: nat)
  {
    && LayoutOk(l, d) && l.data <= b < l.size && b !in live
    && (forall c: nat :: c < b ==> Bit(l, d, c))
    && Bits(l, e, live + {b})
    && MapBlock(l, b) < l.data
    && e == d[MapBlock(l, b) := PutBit(d[MapBlock(l, b)], b % BPB, true)][b := ZeroBlock()]
  }

  lemma {:induction false} AllocatedNow(l: Layout, d: Disk, live: set<nat>, b: nat)
    requires Bits(l, d, live) && b < l.size && !Bit(l, d, b) && forall c: nat :: c < b ==> Bit(l, d, c)
    ensures var n := MapBlock(l, b);
            n < |d| && b < |d| && Allocated(l, d, d[n := PutBit(d[n], b % BPB, true)][b := ZeroBlock()], live, b)
  {
    BitsUpdate(l, d, b, true, live);
    var n := MapBlock(l, b);
    BitsFrame(l, d[n := PutBit(d[n], b % BPB, true)], b, ZeroBlock(), live + {b});
  }
}

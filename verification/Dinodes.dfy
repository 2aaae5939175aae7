/** Inodes in the inode blocks (struct dinode of fs.h; rinode and winode of mkfs.c, iupdate and ilock of fs.c). */
module Dinodes {
  import opened Basics
  import opened Blocks
  import opened FsSpec

  const DINODE: nat := 16        // words of a struct dinode: type and major, minor and nlink, size, 13 addresses

  /** A 16-bit half of a word, as a short. */
  function Short(h: nat): int { if h < 32768 then h else h - 65536 }

  /** What fits the fields of a struct dinode. Device numbers are 0. */
  predicate Storable(x: Inode)
  {
    && 0 <= x.kind < 32768 && 0 <= x.nlink < 32768 && x.size < UINT && |x.addrs| == NDIRECT + 1
    && forall k :: 0 <= k < |x.addrs| ==> x.addrs[k] < UINT
  }

  function Encoded(x: Inode): (r: seq<Uint>)
    requires Storable(x)
    ensures |r| == DINODE
  {
    [x.kind, x.nlink * 65536, x.size] + seq<Uint>(NDIRECT + 1, k requires 0 <= k < NDIRECT + 1 => x.addrs[k])
  }

  /** `*dip = *ip` for the k-th dinode of a block. */
  function PutInode(b: Block, k: nat, x: Inode): Block
    requires k < IPB && Storable(x)
  {
    Block(b.words[..DINODE * k] + Encoded(x) + b.words[DINODE * (k + 1)..])
  }

  /** `*ip = *dip`. */
  function GetInode(b: Block, k: nat): Inode
    requires k < IPB
  {
    var a := DINODE * k;
    Inode(Short(Word(b, a) % 65536), Short(Word(b, a + 1) / 65536), Word(b, a + 2), Addresses(b, a + 3))
  }

  /** The 13 addresses from word a on. */
  function Addresses(b: Block, a: nat): (r: seq<nat>)
    requires a + NDIRECT < WORDS
    ensures |r| == NDIRECT + 1 && forall j :: 0 <= j <= NDIRECT ==> r[j] == b.words[a + j]
  {
    seq<nat>(NDIRECT + 1, j requires 0 <= j <= NDIRECT => b.words[a + j])
  }

  lemma {:induction false} PutInodeGet(b: Block, k: nat, x: Inode, j: nat)
    requires k < IPB && j < IPB && Storable(x)
    ensures GetInode(PutInode(b, k, x), j) == if j == k then x else GetInode(b, j)
  {
    hide Addresses;
    var c, e, a := PutInode(b, k, x), Encoded(x), DINODE * j;
    forall w: nat | w < DINODE ensures c.words[a + w] == if j == k then e[w] else b.words[a + w] {}
    assert e[0] == x.kind && e[1] == x.nlink * 65536 && e[2] == x.size;
    forall i: nat | i <= NDIRECT
      ensures Addresses(c, a + 3)[i] == if j == k then x.addrs[i] else Addresses(b, a + 3)[i]
    {
      assert c.words[a + (3 + i)] == if j == k then e[3 + i] else b.words[a + (3 + i)];
    }
    assert Addresses(c, a + 3) == if j == k then x.addrs else Addresses(b, a + 3);
    assert c.words[a + 0] == c.words[a];
  }

  /** IBLOCK(i, sb). */
  function InodeBlock(l: Layout, i: nat): nat { l.inodestart + i / IPB }

  /** rinode: inode i as it is on the disk. */
  function Dinode(l: Layout, d: Disk, i: nat): Inode
    requires InodeBlock(l, i) < |d|
  {
    GetInode(d[InodeBlock(l, i)], i % IPB)
  }

  /** winode. */
  function WithDinode(l: Layout, d: Disk, i: nat, x: Inode): Disk
    requires InodeBlock(l, i) < |d| && Storable(x)
  {
    d[InodeBlock(l, i) := PutInode(d[InodeBlock(l, i)], i % IPB, x)]
  }

  /** What winode wrote rinode reads, and no other inode changed. */
  lemma {:induction false} DinodeGet(l: Layout, d: Disk, i: nat, x: Inode, j: nat)
    requires InodeBlock(l, i) < |d| && InodeBlock(l, j) < |d| && Storable(x)
    ensures Dinode(l, WithDinode(l, d, i, x), j) == if j == i then x else Dinode(l, d, j)
  {
    hide PutInode;
    hide GetInode;
    hide Storable;
    PutInodeGet(d[InodeBlock(l, i)], i % IPB, x, j % IPB);
    assert i == IPB * (i / IPB) + i % IPB && j == IPB * (j / IPB) + j % IPB;
  }

  /** The first n inodes on the disk. */
  function Table(l: Layout, d: Disk, n: nat): (t: seq<Inode>)
    requires forall i :: 0 <= i < n ==> InodeBlock(l, i) < |d|
    ensures |t| == n && forall i :: 0 <= i < n ==> t[i] == Dinode(l, d, i)
  {
    seq(n, i requires 0 <= i < n => Dinode(l, d, i))
  }
}

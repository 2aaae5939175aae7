/** Disk blocks: 128 little-endian 32-bit words, also seen as 512 bytes and as 4096 bits. */
module Blocks {
  import opened Basics

  const BSIZE: nat := 512
  const WORDS: nat := 128                // BSIZE / sizeof(uint)
  const BPB: nat := 4096                 // bitmap bits per block

  datatype RawBlock = Block(words: seq<Uint>)

  type Block = b: RawBlock | |b.words| == WORDS witness Block(seq(WORDS, _ => 0))

  type Disk = seq<Block>

  function ZeroBlock(): (b: Block)
    ensures forall i :: 0 <= i < WORDS ==> b.words[i] == 0
  {
    Block(seq(WORDS, _ => 0))
  }

  /** `((uint*)data)[i]` read from a block. */
  function Word(b: Block, i: nat): Uint
    requires i < WORDS
  {
    b.words[i]
  }

  /** `((uint*)data)[i] = v`. */
  function PutWord(b: Block, i: nat, v: Uint): Block
    requires i < WORDS
  {
    Block(b.words[i := v])
  }

  // ----- bytes -----

  function ByteOf(w: Uint, k: nat): Byte
    requires k < 4
  {
    if k == 0 then w % 256 else if k == 1 then w / 256 % 256 else if k == 2 then w / 65536 % 256 else w / 16777216
  }

  function WithByte(w: Uint, k: nat, v: Byte): Uint
    requires k < 4
  {
    var b := (j: nat) requires j < 4 => if j == k then v as int else ByteOf(w, j) as int;
    b(0) + 256 * b(1) + 65536 * b(2) + 16777216 * b(3)
  }

  lemma {:induction false} WithByteGet(w: Uint, k: nat, v: Byte, j: nat)
    requires k < 4 && j < 4
    ensures ByteOf(WithByte(w, k, v), j) == if j == k then v else ByteOf(w, j)
  {
    var b := (i: nat) requires i < 4 => if i == k then v as int else ByteOf(w, i) as int;
    Digits(b(0), b(1), b(2), b(3));
  }

  lemma {:induction false} Digits(b0: int, b1: int, b2: int, b3: int)
    requires 0 <= b0 < 256 && 0 <= b1 < 256 && 0 <= b2 < 256 && 0 <= b3 < 256
    ensures var w := b0 + 256 * b1 + 65536 * b2 + 16777216 * b3;
            w % 256 == b0 && w / 256 % 256 == b1 && w / 65536 % 256 == b2 && w / 16777216 == b3
  {
    var w := b0 + 256 * b1 + 65536 * b2 + 16777216 * b3;
    assert w / 256 == b1 + 256 * b2 + 65536 * b3;
    assert w / 65536 == b2 + 256 * b3;
  }

  /** `data[i]`. */
  function ByteAt(b: Block, i: nat): Byte
    requires i < BSIZE
  {
    ByteOf(b.words[i / 4], i % 4)
  }

  /** `data[i] = v`. */
  function PutByte(b: Block, i: nat, v: Byte): Block
    requires i < BSIZE
  {
    Block(b.words[i / 4 := WithByte(b.words[i / 4], i % 4, v)])
  }

  lemma {:induction false} PutByteGet(b: Block, i: nat, v: Byte, j: nat)
    requires i < BSIZE && j < BSIZE
    ensures ByteAt(PutByte(b, i, v), j) == if j == i then v else ByteAt(b, j)
  {
    if j / 4 == i / 4 { WithByteGet(b.words[i / 4], i % 4, v, j % 4); }
  }

  /** `memmove(data + off, src, k)`. */
  function Splice(b: Block, off: nat, src: seq<Byte>, k: nat): Block
    requires k <= |src| && off + k <= BSIZE
  {
    if k == 0 then b else PutByte(Splice(b, off, src, k - 1), off + k - 1, src[k-1])
  }

  lemma {:induction false} SpliceGet(b: Block, off: nat, src: seq<Byte>, k: nat, j: nat)
    requires k <= |src| && off + k <= BSIZE && j < BSIZE
    ensures ByteAt(Splice(b, off, src, k), j) == if off <= j < off + k then src[j - off] else ByteAt(b, j)
  {
    hide ByteAt;
    hide PutByte;
    if k > 0 {
      SpliceGet(b, off, src, k - 1, j);
      PutByteGet(Splice(b, off, src, k - 1), off + k - 1, src[k-1], j);
    }
  }

  lemma {:induction false} ZeroBytes(j: nat)
    requires j < BSIZE
    ensures ByteAt(ZeroBlock(), j) == 0
  {}

  // ----- bits -----

  function Pow2(n: nat): (r: nat)
    ensures r >= 1
  {
    if n == 0 then 1 else 2 * Pow2(n - 1)
  }

  lemma {:induction false} Halved(x: nat, n: nat)
    requires n > 0 && x < Pow2(n)
    ensures Pow2(n) == 2 * Pow2(n - 1) && x == 2 * (x / 2) + x % 2 && x / 2 < Pow2(n - 1)
  {}

  /** `x & (1 << k)`. */
  predicate BitOf(x: nat, k: nat) { if k == 0 then x % 2 == 1 else BitOf(x / 2, k - 1) }

  /** `x | (1 << k)`, or `x & ~(1 << k)`, on an n-bit number. */
  function WithBit(x: nat, n: nat, k: nat, v: bool): (r: nat)
    requires k < n && x < Pow2(n)
    ensures r < Pow2(n)
  {
    Halved(x, n);
    if k == 0 then x - x % 2 + (if v then 1 else 0) else 2 * WithBit(x / 2, n - 1, k - 1, v) + x % 2
  }

  lemma {:induction false} WithBitGet(x: nat, n: nat, k: nat, v: bool, j: nat)
    requires k < n && x < Pow2(n)
    ensures BitOf(WithBit(x, n, k, v), j) == if j == k then v else BitOf(x, j)
  {
    if k > 0 && j > 0 { WithBitGet(x / 2, n - 1, k - 1, v, j - 1); }
  }

  lemma {:induction false} ZeroBits(k: nat)
    ensures !BitOf(0, k)
  {
    if k > 0 { ZeroBits(k - 1); }
  }

  /** Bit bi of a bitmap block: `data[bi/8] & (1 << (bi%8))`. */
  predicate BlockBit(b: Block, bi: nat)
    requires bi < BPB
  {
    BitOf(ByteAt(b, bi / 8), bi % 8)
  }

  function PutBit(b: Block, bi: nat, v: bool): Block
    requires bi < BPB
  {
    PutByte(b, bi / 8, WithBit(ByteAt(b, bi / 8), 8, bi % 8, v))
  }

  lemma {:induction false} PutBitGet(b: Block, bi: nat, v: bool, j: nat)
    requires bi < BPB && j < BPB
    ensures BlockBit(PutBit(b, bi, v), j) == if j == bi then v else BlockBit(b, j)
  {
    hide ByteAt;
    hide PutByte;
    var x := WithBit(ByteAt(b, bi / 8), 8, bi % 8, v);
    PutByteGet(b, bi / 8, x, j / 8);
    if j / 8 == bi / 8 { WithBitGet(ByteAt(b, bi / 8), 8, bi % 8, v, j % 8); }
  }
}

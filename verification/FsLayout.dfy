/**
 The on-disk format of platform/visionfive2/kernel/fs.h: blocks of bytes, the free bitmap, block numbers
 packed into an indirect block, and the block references of an inode.

 A disk here is what bread and log_write present to one operation at a time: one value per block.
 */
module FsLayout {

  const BSIZE := 1024
  const BPB := 8192          // bitmap bits per block
  const NDIRECT := 12
  const NINDIRECT := 256
  const MAXFILE := 268
  const IPB := 16            // inodes per block
  const SLOTS := 269         // NDIRECT direct slots, the indirect pointer, NINDIRECT indirect slots
  const MAXUINT := 0x1_0000_0000

  type Byte = b: int | 0 <= b < 256
  type Block = b: seq<Byte> | |b| == BSIZE witness seq(BSIZE, _ => 0)
  type Disk = seq<Block>

  function ZeroBlock(): (b: Block)
    ensures forall k :: 0 <= k < BSIZE ==> b[k] == 0
  {
    seq(BSIZE, _ => 0)
  }

  /** The superblock. Blocks below dataStart are boot block, superblock, log, inodes and bitmap. */
  datatype Super = Super(size: nat, ninodes: nat, inodestart: nat, bmapstart: nat, dataStart: nat) {
    ghost predicate Valid() {
      && 0 < inodestart && inodestart + (ninodes + IPB - 1) / IPB <= bmapstart
      && bmapstart + (size + BPB - 1) / BPB <= dataStart <= size < MAXUINT
    }

    function BBlock(b: nat): nat { b / BPB + bmapstart }

    function IBlock(inum: nat): nat { inum / IPB + inodestart }

    predicate IsData(b: int) { dataStart <= b < size }
  }

  // ---- Bits ----

  function Pow2(n: nat): nat {
    if n == 0 then 1 else 2 * Pow2(n - 1)
  }

  // Bit k of x: x & (1 << k).
  predicate BitOf(x: nat, k: nat) {
    if k == 0 then x % 2 == 1 else BitOf(x / 2, k - 1)
  }

  // x | (1 << k), for an x of n bits.
  function WithBit(x: nat, k: nat, n: nat): (r: nat)
    requires k < n && x < Pow2(n)
    ensures r < Pow2(n) && forall j :: 0 <= j < n ==> BitOf(r, j) == (j == k || BitOf(x, j))
  {
    if k == 0 then x / 2 * 2 + 1 else 2 * WithBit(x / 2, k - 1, n - 1) + x % 2
  }

  // x & ~(1 << k), for an x of n bits.
  function WithoutBit(x: nat, k: nat, n: nat): (r: nat)
    requires k < n && x < Pow2(n)
    ensures r < Pow2(n) && forall j :: 0 <= j < n ==> BitOf(r, j) == (j != k && BitOf(x, j))
  {
    if k == 0 then x / 2 * 2 else 2 * WithoutBit(x / 2, k - 1, n - 1) + x % 2
  }

  // ---- Words of an indirect block ----

  function WordAt(b: Block, j: nat): (w: nat)
    requires j < NINDIRECT
    ensures w < MAXUINT
  {
    b[4 * j] as int + 256 * (b[4 * j + 1] as int) + 65536 * (b[4 * j + 2] as int) + 16777216 * (b[4 * j + 3] as int)
  }

  function SetWord(b: Block, j: nat, w: nat): (r: Block)
    requires j < NINDIRECT && w < MAXUINT
  {
    var b0: Byte, b1: Byte, b2: Byte, b3: Byte := w % 256, (w / 256) % 256, (w / 65536) % 256, w / 16777216;
    b[4 * j := b0][4 * j + 1 := b1][4 * j + 2 := b2][4 * j + 3 := b3]
  }

  lemma Digits(w: nat)
    requires w < MAXUINT
    ensures w == w % 256 + 256 * ((w / 256) % 256) + 65536 * ((w / 65536) % 256) + 16777216 * (w / 16777216)
  {
    assert w / 65536 == (w / 256) / 256 && w / 16777216 == ((w / 256) / 256) / 256;
  }

  lemma SetWordAt(b: Block, j: nat, w: nat)
    requires j < NINDIRECT && w < MAXUINT
    ensures WordAt(SetWord(b, j, w), j) == w
    ensures forall l :: 0 <= l < NINDIRECT && l != j ==> WordAt(SetWord(b, j, w), l) == WordAt(b, l)
  {
    Digits(w);
  }

  lemma ZeroWords(j: nat)
    requires j < NINDIRECT
    ensures WordAt(ZeroBlock(), j) == 0
  {
  }
}

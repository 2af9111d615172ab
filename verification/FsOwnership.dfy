/**
 Block ownership in the file system of platform/visionfive2/kernel/fs.c: which blocks the inodes refer
 to, what the free bitmap says, and how each primitive update keeps the two in step.
 */
module FsOwnership {
  import opened FsLayout

  type Addrs = seq<nat>   // addrs[NDIRECT + 1]

  // A place that can hold a block number: slot k of inode inum. Slots 0..11 are the direct addresses,
  // 12 is the indirect pointer, 13 + j is entry j of the indirect block.
  datatype Slot = Slot(inum: nat, k: nat)

  // The first n indirect entries of inode inum count as given up: itrunc frees them one by one and drops
  // the pointer to them at the end.
  datatype Cut = Cut(inum: nat, n: nat)

  const NOCUT := Cut(0, 0)

  function SetAddr(a: Addrs, k: nat, b: nat): Addrs
    requires k < |a|
  {
    a[k := b]
  }

  ghost predicate AddrsOk(d: Disk, a: Addrs) {
    |a| == NDIRECT + 1 && forall k :: 0 <= k <= NDIRECT ==> a[k] < |d|
  }

  ghost predicate TableOk(d: Disk, eff: seq<Addrs>) {
    forall i :: 0 <= i < |eff| ==> AddrsOk(d, eff[i])
  }

  // The block number in a slot, 0 for none.
  function Ref(d: Disk, eff: seq<Addrs>, i: nat, k: nat, c: Cut): nat
    requires i < |eff| && k < SLOTS && |eff[i]| == NDIRECT + 1 && eff[i][NDIRECT] < |d|
  {
    if k <= NDIRECT then eff[i][k]
    else if eff[i][NDIRECT] == 0 || (i == c.inum && k - 13 < c.n) then 0
    else WordAt(d[eff[i][NDIRECT]], k - 13)
  }

  /** Every reference points to a data block that knows its one owner, and every owned block is referenced. */
  ghost predicate RefsOwned(sb: Super, d: Disk, eff: seq<Addrs>, owner: map<int, Slot>, c: Cut) {
    && sb.Valid() && |d| == sb.size && |eff| == sb.ninodes && TableOk(d, eff)
    && (forall i, k :: 0 <= i < |eff| && 0 <= k < SLOTS && Ref(d, eff, i, k, c) != 0 ==>
          sb.IsData(Ref(d, eff, i, k, c)) && Ref(d, eff, i, k, c) in owner && owner[Ref(d, eff, i, k, c)] == Slot(i, k))
    && (forall b :: b in owner ==>
          sb.IsData(b) && owner[b].inum < |eff| && owner[b].k < SLOTS && Ref(d, eff, owner[b].inum, owner[b].k, c) == b)
  }

  // ---- The bitmap ----

  predicate BitSet(sb: Super, d: Disk, b: nat)
    requires sb.Valid() && |d| == sb.size && b < sb.size
  {
    BitOf(d[sb.BBlock(b)][b % BPB / 8], b % 8)
  }

  /** The set bits are exactly the metadata blocks and the owned blocks. */
  ghost predicate BitsMatch(sb: Super, d: Disk, owner: map<int, Slot>)
    requires sb.Valid() && |d| == sb.size
  {
    forall b :: 0 <= b < sb.size ==> (BitSet(sb, d, b) <==> b < sb.dataStart || b in owner)
  }

  function MarkUsed(sb: Super, d: Disk, b: nat): (r: Disk)
    requires sb.Valid() && |d| == sb.size && b < sb.size
    ensures |r| == |d| && forall x :: 0 <= x < |d| && x != sb.BBlock(b) ==> r[x] == d[x]
  {
    var bb := sb.BBlock(b);
    d[bb := d[bb][b % BPB / 8 := WithBit(d[bb][b % BPB / 8], b % 8, 8)]]
  }

  function MarkFree(sb: Super, d: Disk, b: nat): (r: Disk)
    requires sb.Valid() && |d| == sb.size && b < sb.size
    ensures |r| == |d| && forall x :: 0 <= x < |d| && x != sb.BBlock(b) ==> r[x] == d[x]
  {
    var bb := sb.BBlock(b);
    d[bb := d[bb][b % BPB / 8 := WithoutBit(d[bb][b % BPB / 8], b % 8, 8)]]
  }

  // A bit is determined by its block, byte and position in the byte.
  lemma BitPlace(b: nat, x: nat)
    ensures b == x <==> b / BPB == x / BPB && b % BPB / 8 == x % BPB / 8 && b % 8 == x % 8
  {
    BitInByte(b);
    BitInByte(x);
  }

  lemma BitInByte(b: nat)
    ensures b == b / BPB * BPB + b % BPB / 8 * 8 + b % 8
  {
  }

  lemma MarkUsedBits(sb: Super, d: Disk, b: nat, x: nat)
    requires sb.Valid() && |d| == sb.size && b < sb.size && x < sb.size
    ensures BitSet(sb, MarkUsed(sb, d, b), x) == (x == b || BitSet(sb, d, x))
  {
    BitPlace(b, x);
  }

  lemma MarkFreeBits(sb: Super, d: Disk, b: nat, x: nat)
    requires sb.Valid() && |d| == sb.size && b < sb.size && x < sb.size
    ensures BitSet(sb, MarkFree(sb, d, b), x) == (x != b && BitSet(sb, d, x))
  {
    BitPlace(b, x);
  }

  // ---- Updates of the references ----

  // The indirect block of an inode, if any, is owned by slot 12.
  lemma IndirectOwned(sb: Super, d: Disk, eff: seq<Addrs>, owner: map<int, Slot>, c: Cut, i: nat)
    requires RefsOwned(sb, d, eff, owner, c) && i < |eff| && eff[i][NDIRECT] != 0
    ensures sb.IsData(eff[i][NDIRECT]) && eff[i][NDIRECT] in owner && owner[eff[i][NDIRECT]] == Slot(i, NDIRECT)
  {
    assert Ref(d, eff, i, NDIRECT, c) == eff[i][NDIRECT];
  }

  // Changing blocks that are not indirect blocks changes no reference.
  lemma SameRefs(sb: Super, d: Disk, d': Disk, eff: seq<Addrs>, owner: map<int, Slot>, c: Cut)
    requires RefsOwned(sb, d, eff, owner, c) && |d'| == |d|
    requires forall b :: b in owner && owner[b].k == NDIRECT ==> d'[b] == d[b]
    ensures RefsOwned(sb, d', eff, owner, c)
    ensures forall i, k :: 0 <= i < |eff| && 0 <= k < SLOTS ==> Ref(d', eff, i, k, c) == Ref(d, eff, i, k, c)
  {
    forall i, k | 0 <= i < |eff| && 0 <= k < SLOTS ensures Ref(d', eff, i, k, c) == Ref(d, eff, i, k, c) {
      if eff[i][NDIRECT] != 0 {
        IndirectOwned(sb, d, eff, owner, c, i);
      }
    }
  }

  // Putting a fresh block into a direct slot, or a fresh zeroed block into the indirect pointer.
  lemma LinkAddr(sb: Super, d: Disk, eff: seq<Addrs>, owner: map<int, Slot>, i: nat, k: nat, b: nat)
    requires RefsOwned(sb, d, eff, owner, NOCUT) && i < |eff| && k <= NDIRECT && eff[i][k] == 0
    requires sb.IsData(b) && b != 0 && b !in owner && (k == NDIRECT ==> d[b] == ZeroBlock())
    ensures RefsOwned(sb, d, eff[i := SetAddr(eff[i], k, b)], owner[b as int := Slot(i, k)], NOCUT)
  {
    var eff', owner' := eff[i := SetAddr(eff[i], k, b)], owner[b as int := Slot(i, k)];
    forall j, l | 0 <= j < |eff| && 0 <= l < SLOTS
      ensures Ref(d, eff', j, l, NOCUT) == if j == i && l == k then b else Ref(d, eff, j, l, NOCUT)
    {
      if j == i && k == NDIRECT && l > NDIRECT {
        ZeroWords(l - 13);
      }
    }
  }

  // Putting a fresh block into entry j of an existing indirect block.
  lemma LinkEntry(sb: Super, d: Disk, eff: seq<Addrs>, owner: map<int, Slot>, i: nat, j: nat, b: nat)
    requires RefsOwned(sb, d, eff, owner, NOCUT) && i < |eff| && j < NINDIRECT && eff[i][NDIRECT] != 0
    requires Ref(d, eff, i, 13 + j, NOCUT) == 0 && sb.IsData(b) && b != 0 && b < MAXUINT && b !in owner
    ensures RefsOwned(sb, d[eff[i][NDIRECT] := SetWord(d[eff[i][NDIRECT]], j, b)], eff,
                      owner[b as int := Slot(i, 13 + j)], NOCUT)
  {
    var ind := eff[i][NDIRECT];
    var d' := d[ind := SetWord(d[ind], j, b)];
    SetWordAt(d[ind], j, b);
    forall x, l | 0 <= x < |eff| && 0 <= l < SLOTS
      ensures Ref(d', eff, x, l, NOCUT) == if x == i && l == 13 + j then b else Ref(d, eff, x, l, NOCUT)
    {
      if x != i && eff[x][NDIRECT] != 0 {
        IndirectOwned(sb, d, eff, owner, NOCUT, x);
        IndirectOwned(sb, d, eff, owner, NOCUT, i);
      }
    }
  }

  // Clearing a direct slot, or the indirect pointer once all entries are given up.
  lemma UnlinkAddr(sb: Super, d: Disk, eff: seq<Addrs>, owner: map<int, Slot>, c: Cut, i: nat, k: nat)
    requires RefsOwned(sb, d, eff, owner, c) && i < |eff| && k <= NDIRECT && eff[i][k] != 0
    requires if k == NDIRECT then c == Cut(i, NINDIRECT) else c == NOCUT
    ensures RefsOwned(sb, d, eff[i := SetAddr(eff[i], k, 0)], owner - {eff[i][k]}, NOCUT)
  {
    var eff' := eff[i := SetAddr(eff[i], k, 0)];
    assert Ref(d, eff, i, k, c) == eff[i][k];
    forall j, l | 0 <= j < |eff| && 0 <= l < SLOTS
      ensures Ref(d, eff', j, l, NOCUT) == if j == i && l == k then 0 else Ref(d, eff, j, l, c)
    {
    }
  }

  // Giving up one more indirect entry.
  lemma CutEntry(sb: Super, d: Disk, eff: seq<Addrs>, owner: map<int, Slot>, i: nat, j: nat)
    requires RefsOwned(sb, d, eff, owner, Cut(i, j)) && i < |eff| && j < NINDIRECT && eff[i][NDIRECT] != 0
    ensures RefsOwned(sb, d, eff, owner - {WordAt(d[eff[i][NDIRECT]], j)}, Cut(i, j + 1))
  {
    var b, c, c' := WordAt(d[eff[i][NDIRECT]], j), Cut(i, j), Cut(i, j + 1);
    assert Ref(d, eff, i, 13 + j, c) == b;
    forall x, l | 0 <= x < |eff| && 0 <= l < SLOTS
      ensures Ref(d, eff, x, l, c') == if x == i && l == 13 + j then 0 else Ref(d, eff, x, l, c)
    {
    }
  }

  // An empty cut gives nothing up, whichever inode it names.
  lemma CutNothing(sb: Super, d: Disk, eff: seq<Addrs>, owner: map<int, Slot>, i: nat)
    requires RefsOwned(sb, d, eff, owner, NOCUT)
    ensures RefsOwned(sb, d, eff, owner, Cut(i, 0))
  {
    var c := Cut(i, 0);
    forall x, l | 0 <= x < |eff| && 0 <= l < SLOTS ensures Ref(d, eff, x, l, c) == Ref(d, eff, x, l, NOCUT) {
    }
  }
}

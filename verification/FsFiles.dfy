/**
 Files as byte sequences, over the ownership invariant of FsOwnership: what byte p of an inode is, and how
 writing part of one block, or allocating one, changes exactly the bytes it should.
 */
module FsFiles {
  import opened FsLayout
  import opened FsOwnership

  const MAXBYTES := MAXFILE * BSIZE

  // The slot that holds file block bn.
  function SlotOf(bn: nat): nat {
    if bn < NDIRECT then bn else bn + 1
  }

  // Block and offset within the block of file byte p.
  function BlockOf(p: nat): nat { p / BSIZE }

  function OffsetOf(p: nat): (o: nat)
    ensures o < BSIZE
  {
    p % BSIZE
  }

  // The disk block of file block bn, 0 if there is none.
  function Addr(d: Disk, eff: seq<Addrs>, i: nat, bn: nat): nat
    requires i < |eff| && bn < MAXFILE && AddrsOk(d, eff[i])
  {
    Ref(d, eff, i, SlotOf(bn), NOCUT)
  }

  // No file block below byte len is missing.
  ghost predicate NoHoles(d: Disk, eff: seq<Addrs>, i: nat, len: nat)
    requires i < |eff| && AddrsOk(d, eff[i])
  {
    len <= MAXBYTES && forall bn :: 0 <= bn < MAXFILE && bn * BSIZE < len ==> 0 < Addr(d, eff, i, bn) < |d|
  }

  function ByteAt(d: Disk, eff: seq<Addrs>, i: nat, p: nat): Byte
    requires i < |eff| && AddrsOk(d, eff[i]) && p < MAXBYTES && Addr(d, eff, i, BlockOf(p)) < |d|
  {
    d[Addr(d, eff, i, BlockOf(p))][OffsetOf(p)]
  }

  /** The contents of inode i as a byte sequence of length len. */
  ghost function Content(d: Disk, eff: seq<Addrs>, i: nat, len: nat): (s: seq<Byte>)
    requires i < |eff| && AddrsOk(d, eff[i]) && NoHoles(d, eff, i, len)
    ensures |s| == len
  {
    assert forall p :: 0 <= p < len ==> BlockOf(p) * BSIZE < len;
    seq(len, p requires 0 <= p < len => ByteAt(d, eff, i, p))
  }

  /** No reference is lost or moved, and no block that holds file data changes. */
  ghost predicate Keeps(d: Disk, eff: seq<Addrs>, d': Disk, eff': seq<Addrs>)
    requires TableOk(d, eff) && TableOk(d', eff')
  {
    |eff'| == |eff| && |d'| == |d| &&
    forall i, k :: 0 <= i < |eff| && 0 <= k < SLOTS && Ref(d, eff, i, k, NOCUT) != 0 ==>
      && Ref(d', eff', i, k, NOCUT) == Ref(d, eff, i, k, NOCUT)
      && (k != NDIRECT && Ref(d, eff, i, k, NOCUT) < |d| ==>
          d'[Ref(d, eff, i, k, NOCUT)] == d[Ref(d, eff, i, k, NOCUT)])
  }

  lemma KeepsTrans(d: Disk, eff: seq<Addrs>, d1: Disk, eff1: seq<Addrs>, d2: Disk, eff2: seq<Addrs>)
    requires TableOk(d, eff) && TableOk(d1, eff1) && TableOk(d2, eff2)
    requires Keeps(d, eff, d1, eff1) && Keeps(d1, eff1, d2, eff2)
    ensures Keeps(d, eff, d2, eff2)
  {
  }

  // What a file holds survives an update that keeps references and data.
  lemma KeepsContent(d: Disk, eff: seq<Addrs>, d': Disk, eff': seq<Addrs>, i: nat, len: nat)
    requires TableOk(d, eff) && TableOk(d', eff') && Keeps(d, eff, d', eff') && i < |eff| && NoHoles(d, eff, i, len)
    ensures NoHoles(d', eff', i, len) && Content(d', eff', i, len) == Content(d, eff, i, len)
  {
    forall bn | 0 <= bn < MAXFILE && bn * BSIZE < len
      ensures Addr(d', eff', i, bn) == Addr(d, eff, i, bn) && d'[Addr(d, eff, i, bn)] == d[Addr(d, eff, i, bn)]
    {
      assert Addr(d, eff, i, bn) == Ref(d, eff, i, SlotOf(bn), NOCUT);
    }
    assert forall p :: 0 <= p < len ==> BlockOf(p) * BSIZE < len;
  }

  // The block with `chunk` written at offset o.
  function Patch(b: Block, o: nat, chunk: seq<Byte>): (r: Block)
    requires o + |chunk| <= BSIZE
  {
    b[..o] + chunk + b[o + |chunk|..]
  }

  // Writing into the block of file block bn: references stay, other inodes keep their data, and the bytes
  // of the file change exactly where the chunk lies.
  lemma PatchKeeps(sb: Super, d: Disk, eff: seq<Addrs>, owner: map<int, Slot>, i: nat, bn: nat, o: nat,
                   chunk: seq<Byte>)
    requires RefsOwned(sb, d, eff, owner, NOCUT) && i < |eff| && bn < MAXFILE && o + |chunk| <= BSIZE
    requires 0 < Addr(d, eff, i, bn) < |d|
    ensures var a := Addr(d, eff, i, bn);
            var d' := d[a := Patch(d[a], o, chunk)];
            && RefsOwned(sb, d', eff, owner, NOCUT)
            && (forall j, k :: 0 <= j < |eff| && 0 <= k < SLOTS ==>
                Ref(d', eff, j, k, NOCUT) == Ref(d, eff, j, k, NOCUT))
            && (forall j, k ::
                  0 <= j < |eff| && 0 <= k < SLOTS && Ref(d, eff, j, k, NOCUT) != 0 && (j != i || k != SlotOf(bn)) ==>
                  Ref(d, eff, j, k, NOCUT) < |d| && d'[Ref(d, eff, j, k, NOCUT)] == d[Ref(d, eff, j, k, NOCUT)])
  {
    var a := Addr(d, eff, i, bn);
    var d' := d[a := Patch(d[a], o, chunk)];
    assert owner[a] == Slot(i, SlotOf(bn));
    SameRefs(sb, d, d', eff, owner, NOCUT);
  }

  // ---- Allocating and freeing, bitmap included ----

  // The disk that balloc leaves when it returns b.
  function Allocated(sb: Super, d: Disk, b: nat): (r: Disk)
    requires sb.Valid() && |d| == sb.size && b < sb.size
  {
    MarkUsed(sb, d, b)[b := ZeroBlock()]
  }

  // balloc disturbs neither the references nor the blocks that are in use.
  lemma AllocatedKeeps(sb: Super, d: Disk, eff: seq<Addrs>, owner: map<int, Slot>, b: nat)
    requires RefsOwned(sb, d, eff, owner, NOCUT) && sb.IsData(b) && b !in owner
    ensures var d' := Allocated(sb, d, b);
            && RefsOwned(sb, d', eff, owner, NOCUT) && (forall x :: x in owner ==> d'[x] == d[x])
            && d'[b] == ZeroBlock()
            && (forall i, k :: 0 <= i < |eff| && 0 <= k < SLOTS ==>
                Ref(d', eff, i, k, NOCUT) == Ref(d, eff, i, k, NOCUT))
  {
    var d' := Allocated(sb, d, b);
    forall x | x in owner ensures d'[x] == d[x] {
      assert sb.BBlock(b) < sb.dataStart <= x;
    }
    SameRefs(sb, d, d', eff, owner, NOCUT);
  }

  lemma AllocatedBits(sb: Super, d: Disk, owner: map<int, Slot>, b: nat, s: Slot)
    requires sb.Valid() && |d| == sb.size && BitsMatch(sb, d, owner) && sb.IsData(b)
    ensures BitsMatch(sb, Allocated(sb, d, b), owner[b as int := s])
  {
    forall x | 0 <= x < sb.size ensures BitSet(sb, Allocated(sb, d, b), x) == (x == b || BitSet(sb, d, x)) {
      MarkUsedBits(sb, d, b, x);
      assert sb.BBlock(x) < sb.dataStart;
    }
  }

  // balloc followed by storing the block number in slot k <= NDIRECT of inode i.
  lemma AllocAddr(sb: Super, d: Disk, eff: seq<Addrs>, owner: map<int, Slot>, i: nat, k: nat, b: nat)
    requires RefsOwned(sb, d, eff, owner, NOCUT) && BitsMatch(sb, d, owner)
    requires i < |eff| && k <= NDIRECT && eff[i][k] == 0 && sb.IsData(b) && b !in owner
    ensures var d', eff', owner' := Allocated(sb, d, b), eff[i := SetAddr(eff[i], k, b)], owner[b as int := Slot(i, k)];
            && RefsOwned(sb, d', eff', owner', NOCUT) && BitsMatch(sb, d', owner') && Keeps(d, eff, d', eff')
            && d'[b] == ZeroBlock()
  {
    var d', eff' := Allocated(sb, d, b), eff[i := SetAddr(eff[i], k, b)];
    AllocatedKeeps(sb, d, eff, owner, b);
    AllocatedBits(sb, d, owner, b, Slot(i, k));
    LinkAddr(sb, d', eff, owner, i, k, b);
    forall j, l | 0 <= j < |eff| && 0 <= l < SLOTS && Ref(d, eff, j, l, NOCUT) != 0
      ensures Ref(d', eff', j, l, NOCUT) == Ref(d, eff, j, l, NOCUT)
    {
      assert Ref(d', eff, j, l, NOCUT) == Ref(d, eff, j, l, NOCUT);
    }
  }

  // balloc followed by storing the block number in entry j of the indirect block of inode i.
  lemma AllocEntry(sb: Super, d: Disk, eff: seq<Addrs>, owner: map<int, Slot>, i: nat, j: nat, b: nat)
    requires RefsOwned(sb, d, eff, owner, NOCUT) && BitsMatch(sb, d, owner)
    requires i < |eff| && j < NINDIRECT && eff[i][NDIRECT] != 0 && Ref(d, eff, i, 13 + j, NOCUT) == 0
    requires sb.IsData(b) && b !in owner
    ensures var ind := eff[i][NDIRECT];
            var d1 := Allocated(sb, d, b);
            var d', owner' := d1[ind := SetWord(d1[ind], j, b)], owner[b as int := Slot(i, 13 + j)];
            && RefsOwned(sb, d', eff, owner', NOCUT) && BitsMatch(sb, d', owner') && Keeps(d, eff, d', eff)
            && d'[b] == ZeroBlock() && Ref(d', eff, i, 13 + j, NOCUT) == b
  {
    var ind, d1 := eff[i][NDIRECT], Allocated(sb, d, b);
    var d', owner' := d1[ind := SetWord(d1[ind], j, b)], owner[b as int := Slot(i, 13 + j)];
    IndirectOwned(sb, d, eff, owner, NOCUT, i);
    AllocatedKeeps(sb, d, eff, owner, b);
    AllocatedBits(sb, d, owner, b, Slot(i, 13 + j));
    LinkEntry(sb, d1, eff, owner, i, j, b);
    forall x | 0 <= x < sb.size ensures BitSet(sb, d', x) == BitSet(sb, d1, x) {
      assert sb.BBlock(x) < sb.dataStart <= ind;
    }
    SetWordAt(d1[ind], j, b);
    forall x, l | 0 <= x < |eff| && 0 <= l < SLOTS && Ref(d, eff, x, l, NOCUT) != 0
      ensures Ref(d', eff, x, l, NOCUT) == Ref(d, eff, x, l, NOCUT)
      ensures l != NDIRECT ==> d'[Ref(d, eff, x, l, NOCUT)] == d[Ref(d, eff, x, l, NOCUT)]
    {
      assert Ref(d1, eff, x, l, NOCUT) == Ref(d, eff, x, l, NOCUT);
      EntryKeepsRef(sb, d1, eff, owner, i, j, b, x, l);
      assert owner[Ref(d, eff, x, l, NOCUT)] == Slot(x, l);
    }
  }

  // File block x of inode i is where it was, or still missing.
  ghost predicate SameAddr(d: Disk, eff: seq<Addrs>, d': Disk, eff': seq<Addrs>, i: nat, x: nat)
    requires TableOk(d, eff) && TableOk(d', eff') && i < |eff| == |eff'|
  {
    x < MAXFILE ==> Addr(d', eff', i, x) == Addr(d, eff, i, x)
  }

  // So are all file blocks of inode i but bn.
  ghost predicate OnlyAdds(d: Disk, eff: seq<Addrs>, d': Disk, eff': seq<Addrs>, i: nat, bn: nat)
    requires TableOk(d, eff) && TableOk(d', eff') && i < |eff| == |eff'|
  {
    forall x: nat {:trigger SameAddr(d, eff, d', eff', i, x)} :: x != bn ==> SameAddr(d, eff, d', eff', i, x)
  }

  lemma OnlyAddsTrans(d: Disk, eff: seq<Addrs>, d1: Disk, eff1: seq<Addrs>, d2: Disk, eff2: seq<Addrs>, i: nat,
                      bn1: nat, bn: nat)
    requires TableOk(d, eff) && TableOk(d1, eff1) && TableOk(d2, eff2) && i < |eff| == |eff1| == |eff2|
    requires OnlyAdds(d, eff, d1, eff1, i, bn1) && OnlyAdds(d1, eff1, d2, eff2, i, bn) && bn1 >= MAXFILE
    ensures OnlyAdds(d, eff, d2, eff2, i, bn)
  {
    forall x: nat | x != bn ensures SameAddr(d, eff, d2, eff2, i, x) {
      assert SameAddr(d1, eff1, d2, eff2, i, x) && (x < MAXFILE ==> SameAddr(d, eff, d1, eff1, i, x));
    }
  }

  // The file block whose slot is k.
  function FileBlock(k: nat): nat { if k < NDIRECT then k else MAXFILE }

  lemma AllocAddrOnly(sb: Super, d: Disk, eff: seq<Addrs>, owner: map<int, Slot>, i: nat, k: nat, b: nat)
    requires RefsOwned(sb, d, eff, owner, NOCUT) && BitsMatch(sb, d, owner)
    requires i < |eff| && k <= NDIRECT && eff[i][k] == 0 && sb.IsData(b) && b !in owner
    ensures var d', eff' := Allocated(sb, d, b), eff[i := SetAddr(eff[i], k, b)];
            TableOk(d', eff') && OnlyAdds(d, eff, d', eff', i, FileBlock(k))
  {
    var d', eff' := Allocated(sb, d, b), eff[i := SetAddr(eff[i], k, b)];
    AllocatedKeeps(sb, d, eff, owner, b);
    forall x: nat | x != FileBlock(k) && x < MAXFILE ensures Addr(d', eff', i, x) == Addr(d, eff, i, x) {
      assert Ref(d', eff, i, SlotOf(x), NOCUT) == Ref(d, eff, i, SlotOf(x), NOCUT);
      if k == NDIRECT && x >= NDIRECT {
        ZeroWords(x - NDIRECT);
      }
    }
  }

  lemma AllocEntryOnly(sb: Super, d: Disk, eff: seq<Addrs>, owner: map<int, Slot>, i: nat, j: nat, b: nat)
    requires RefsOwned(sb, d, eff, owner, NOCUT) && BitsMatch(sb, d, owner)
    requires i < |eff| && j < NINDIRECT && eff[i][NDIRECT] != 0 && sb.IsData(b) && b !in owner
    ensures var ind, d1 := eff[i][NDIRECT], Allocated(sb, d, b);
            var d' := d1[ind := SetWord(d1[ind], j, b)];
            TableOk(d', eff) && OnlyAdds(d, eff, d', eff, i, NDIRECT + j)
  {
    var ind, d1 := eff[i][NDIRECT], Allocated(sb, d, b);
    var d' := d1[ind := SetWord(d1[ind], j, b)];
    AllocatedKeeps(sb, d, eff, owner, b);
    forall x: nat | x != NDIRECT + j && x < MAXFILE ensures Addr(d', eff, i, x) == Addr(d, eff, i, x) {
      assert Ref(d1, eff, i, SlotOf(x), NOCUT) == Ref(d, eff, i, SlotOf(x), NOCUT);
      EntryKeepsRef(sb, d1, eff, owner, i, j, b, i, SlotOf(x));
    }
  }

  // ---- Bytes that may be missing ----

  ghost predicate MissingAt(d: Disk, eff: seq<Addrs>, i: nat, p: nat)
    requires i < |eff| && AddrsOk(d, eff[i])
  {
    p < MAXBYTES && Addr(d, eff, i, BlockOf(p)) == 0
  }

  // Some byte from off on, before off + n, lies in a block that inode i does not have.
  ghost predicate Missing(d: Disk, eff: seq<Addrs>, i: nat, off: nat, n: nat)
    requires i < |eff| && AddrsOk(d, eff[i])
  {
    exists p: nat {:trigger MissingAt(d, eff, i, p)} :: off <= p < off + n && MissingAt(d, eff, i, p)
  }

  // Byte p of inode i, where a missing block counts as zeros.
  ghost function PeekAt(d: Disk, eff: seq<Addrs>, i: nat, p: nat): Byte
    requires i < |eff| && AddrsOk(d, eff[i])
  {
    if p < MAXBYTES && 0 < Addr(d, eff, i, BlockOf(p)) < |d| then ByteAt(d, eff, i, p) else 0
  }

  // One more run of bytes inside a block.
  lemma MissingMore(d: Disk, eff: seq<Addrs>, i: nat, off: nat, tot: nat, m: nat)
    requires i < |eff| && AddrsOk(d, eff[i]) && m > 0 && OffsetOf(off + tot) + m <= BSIZE && off + tot + m <= MAXBYTES
    ensures Missing(d, eff, i, off, tot + m) <==> Missing(d, eff, i, off, tot) || MissingAt(d, eff, i, off + tot)
  {
    if Missing(d, eff, i, off, tot + m) {
      var p: nat :| off <= p < off + (tot + m) && MissingAt(d, eff, i, p);
      if p >= off + tot {
        PositionBlock(off + tot, m, p);
      }
    }
    if Missing(d, eff, i, off, tot) {
      var p: nat :| off <= p < off + tot && MissingAt(d, eff, i, p);
      assert off <= p < off + (tot + m);
    }
  }

  // What inode i had, it has, and from file block bn on it has gained nothing.
  ghost predicate SameFrom(d: Disk, eff: seq<Addrs>, d': Disk, eff': seq<Addrs>, i: nat, bn: nat) {
    && TableOk(d, eff) && TableOk(d', eff') && i < |eff| == |eff'| && Keeps(d, eff, d', eff')
    && forall x: nat {:trigger SameAddr(d, eff, d', eff', i, x)} :: x >= bn ==> SameAddr(d, eff, d', eff', i, x)
  }

  lemma SameFromStep(d: Disk, eff: seq<Addrs>, d1: Disk, eff1: seq<Addrs>, d2: Disk, eff2: seq<Addrs>, i: nat, bn: nat)
    requires SameFrom(d, eff, d1, eff1, i, bn) && TableOk(d2, eff2) && |eff2| == |eff1|
    requires Keeps(d1, eff1, d2, eff2) && OnlyAdds(d1, eff1, d2, eff2, i, bn)
    ensures SameFrom(d, eff, d2, eff2, i, bn + 1)
  {
    KeepsTrans(d, eff, d1, eff1, d2, eff2);
    forall x: nat | x >= bn + 1 ensures SameAddr(d, eff, d2, eff2, i, x) {
      assert SameAddr(d, eff, d1, eff1, i, x) && SameAddr(d1, eff1, d2, eff2, i, x);
    }
  }

  // The bytes x are those of inode i from off on.
  ghost predicate Peeked(d: Disk, eff: seq<Addrs>, i: nat, off: nat, x: seq<Byte>)
    requires i < |eff| && AddrsOk(d, eff[i])
  {
    forall p: nat {:trigger PeekAt(d, eff, i, p)} :: off <= p < off + |x| ==> x[p - off] == PeekAt(d, eff, i, p)
  }

  lemma PeekedMore(d: Disk, eff: seq<Addrs>, i: nat, off: nat, x: seq<Byte>, y: seq<Byte>)
    requires i < |eff| && AddrsOk(d, eff[i]) && Peeked(d, eff, i, off, x) && Peeked(d, eff, i, off + |x|, y)
    ensures Peeked(d, eff, i, off, x + y)
  {
    forall p: nat | off <= p < off + |x + y| ensures (x + y)[p - off] == PeekAt(d, eff, i, p) {
      if p >= off + |x| {
        assert (x + y)[p - off] == y[p - (off + |x|)];
      }
    }
  }

  // A run of bytes in the block b, which is the one of byte q, or a fresh one for it.
  lemma PeekedBlock(d: Disk, eff: seq<Addrs>, i: nat, q: nat, m: nat, b: Block)
    requires i < |eff| && AddrsOk(d, eff[i]) && OffsetOf(q) + m <= BSIZE && q + m <= MAXBYTES
    requires var a := if q < MAXBYTES then Addr(d, eff, i, BlockOf(q)) else 0;
             if 0 < a < |d| then b == d[a] else b == ZeroBlock()
    ensures Peeked(d, eff, i, q, b[OffsetOf(q)..OffsetOf(q) + m])
  {
    var x := b[OffsetOf(q)..OffsetOf(q) + m];
    forall p: nat | q <= p < q + |x| ensures x[p - q] == PeekAt(d, eff, i, p) {
      PositionBlock(q, m, p);
      SameBlock(p, q);
    }
  }

  // Setting one entry of an indirect block changes only the slot of that entry.
  lemma EntryKeepsRef(sb: Super, d: Disk, eff: seq<Addrs>, owner: map<int, Slot>, i: nat, j: nat, b: nat, x: nat,
                      l: nat)
    requires RefsOwned(sb, d, eff, owner, NOCUT) && i < |eff| && j < NINDIRECT && eff[i][NDIRECT] != 0 && b < MAXUINT
    requires x < |eff| && l < SLOTS && (x != i || l != 13 + j)
    ensures Ref(d[eff[i][NDIRECT] := SetWord(d[eff[i][NDIRECT]], j, b)], eff, x, l, NOCUT) == Ref(d, eff, x, l, NOCUT)
  {
    SetWordAt(d[eff[i][NDIRECT]], j, b);
    if x != i && eff[x][NDIRECT] != 0 {
      IndirectOwned(sb, d, eff, owner, NOCUT, x);
      IndirectOwned(sb, d, eff, owner, NOCUT, i);
    }
  }

  // bfree changes only the bitmap.
  lemma FreedBits(sb: Super, d: Disk, owner: map<int, Slot>, b: nat)
    requires sb.Valid() && |d| == sb.size && BitsMatch(sb, d, owner) && sb.IsData(b)
    ensures BitsMatch(sb, MarkFree(sb, d, b), owner - {b})
  {
    forall x | 0 <= x < sb.size ensures BitSet(sb, MarkFree(sb, d, b), x) == (x != b && BitSet(sb, d, x)) {
      MarkFreeBits(sb, d, b, x);
    }
  }

  lemma FreedRefs(sb: Super, d: Disk, eff: seq<Addrs>, owner: map<int, Slot>, c: Cut, b: nat)
    requires RefsOwned(sb, d, eff, owner, c) && sb.IsData(b)
    ensures RefsOwned(sb, MarkFree(sb, d, b), eff, owner, c)
    ensures forall x :: sb.IsData(x) ==> MarkFree(sb, d, b)[x] == d[x]
  {
    assert sb.BBlock(b) < sb.dataStart;
    SameRefs(sb, d, MarkFree(sb, d, b), eff, owner, c);
  }

  // ---- Writing a run of bytes ----

  function Max(a: nat, b: nat): nat { if a < b then b else a }

  // s with x written at offset off, which is at most the length of s.
  ghost function Splice(s: seq<Byte>, off: nat, x: seq<Byte>): (r: seq<Byte>)
    requires off <= |s|
    ensures |r| == Max(|s|, off + |x|)
  {
    s[..off] + x + if off + |x| < |s| then s[off + |x|..] else []
  }

  // The references and the data of every inode but i are kept.
  ghost predicate KeepsOthers(d: Disk, eff: seq<Addrs>, d': Disk, eff': seq<Addrs>, i: nat)
    requires TableOk(d, eff) && TableOk(d', eff')
  {
    |eff'| == |eff| && |d'| == |d| &&
    forall j, k :: 0 <= j < |eff| && 0 <= k < SLOTS && j != i && Ref(d, eff, j, k, NOCUT) != 0 ==>
      && Ref(d', eff', j, k, NOCUT) == Ref(d, eff, j, k, NOCUT)
      && (k != NDIRECT && Ref(d, eff, j, k, NOCUT) < |d| ==>
          d'[Ref(d, eff, j, k, NOCUT)] == d[Ref(d, eff, j, k, NOCUT)])
  }

  lemma ContentAt(d: Disk, eff: seq<Addrs>, i: nat, len: nat, p: nat)
    requires i < |eff| && AddrsOk(d, eff[i]) && NoHoles(d, eff, i, len) && p < len
    ensures p < MAXBYTES && 0 < Addr(d, eff, i, BlockOf(p)) < |d|
    ensures Content(d, eff, i, len)[p] == d[Addr(d, eff, i, BlockOf(p))][OffsetOf(p)]
  {
    assert BlockOf(p) * BSIZE < len;
  }

  // Positions inside one block.
  lemma SameBlock(p: nat, q: nat)
    ensures p == BlockOf(p) * BSIZE + OffsetOf(p)
    ensures BlockOf(p) == BlockOf(q) ==> p - q == OffsetOf(p) - OffsetOf(q)
  {
  }

  lemma PositionBlock(q: nat, m: nat, p: nat)
    requires OffsetOf(q) + m <= BSIZE && q <= p < q + m
    ensures BlockOf(p) == BlockOf(q)
  {
    var bn, o := q / BSIZE, q % BSIZE;
    assert bn * BSIZE <= p < (bn + 1) * BSIZE;
  }

  // What writing a chunk at byte q does to byte p of the file.
  lemma PatchedByte(sb: Super, d: Disk, eff: seq<Addrs>, owner: map<int, Slot>, i: nat, q: nat, chunk: seq<Byte>,
                    p: nat)
    requires RefsOwned(sb, d, eff, owner, NOCUT) && i < |eff| && q < MAXBYTES && p < MAXBYTES
    requires OffsetOf(q) + |chunk| <= BSIZE && 0 < Addr(d, eff, i, BlockOf(q)) < |d|
    requires 0 < Addr(d, eff, i, BlockOf(p)) < |d|
    ensures var a := Addr(d, eff, i, BlockOf(q));
            var d' := d[a := Patch(d[a], OffsetOf(q), chunk)];
            && Addr(d', eff, i, BlockOf(p)) == Addr(d, eff, i, BlockOf(p))
            && ByteAt(d', eff, i, p) == if q <= p < q + |chunk| then chunk[p - q] else ByteAt(d, eff, i, p)
  {
    PatchKeeps(sb, d, eff, owner, i, BlockOf(q), OffsetOf(q), chunk);
    SameBlock(p, q);
    if q <= p < q + |chunk| {
      PositionBlock(q, |chunk|, p);
    } else if BlockOf(p) != BlockOf(q) {
      assert SlotOf(BlockOf(p)) != SlotOf(BlockOf(q));
    }
  }

  // The situation of one pass of the writei loop: x is written, and the chunk goes into the block at byte
  // q = off + |x|, giving d'.
  ghost predicate ChunkStep(sb: Super, d: Disk, eff: seq<Addrs>, owner: map<int, Slot>, d': Disk, i: nat, len: nat,
                            q: nat, chunk: seq<Byte>) {
    && RefsOwned(sb, d, eff, owner, NOCUT) && i < |eff| && q <= len && NoHoles(d, eff, i, len)
    && |chunk| > 0 && q + |chunk| <= MAXBYTES && OffsetOf(q) + |chunk| <= BSIZE && 0 < Addr(d, eff, i, BlockOf(q)) < |d|
    && d' == d[Addr(d, eff, i, BlockOf(q)) := Patch(d[Addr(d, eff, i, BlockOf(q))], OffsetOf(q), chunk)]
  }

  lemma ChunkByte(sb: Super, d: Disk, eff: seq<Addrs>, owner: map<int, Slot>, d': Disk, i: nat, len: nat, q: nat,
                  chunk: seq<Byte>, p: nat)
    requires ChunkStep(sb, d, eff, owner, d', i, len, q, chunk) && p < Max(len, q + |chunk|)
    requires TableOk(d', eff) && NoHoles(d, eff, i, Max(len, q + |chunk|)) && NoHoles(d', eff, i, Max(len, q + |chunk|))
    ensures Content(d', eff, i, Max(len, q + |chunk|))[p] == Splice(Content(d, eff, i, len), q, chunk)[p]
  {
    var len' := Max(len, q + |chunk|);
    ContentAt(d', eff, i, len', p);
    ContentAt(d, eff, i, len', p);
    PatchedByte(sb, d, eff, owner, i, q, chunk, p);
    if p < len {
      ContentAt(d, eff, i, len, p);
    }
  }

  // Writing a chunk into its block splices it into the file.
  lemma WriteChunk(sb: Super, d: Disk, eff: seq<Addrs>, owner: map<int, Slot>, d': Disk, i: nat, len: nat, q: nat,
                   chunk: seq<Byte>)
    requires ChunkStep(sb, d, eff, owner, d', i, len, q, chunk)
    ensures RefsOwned(sb, d', eff, owner, NOCUT) && NoHoles(d', eff, i, Max(len, q + |chunk|))
    ensures Content(d', eff, i, Max(len, q + |chunk|)) == Splice(Content(d, eff, i, len), q, chunk)
  {
    PatchKeeps(sb, d, eff, owner, i, BlockOf(q), OffsetOf(q), chunk);
    PatchedNoHoles(sb, d, eff, owner, i, len, q, chunk);
    forall p | 0 <= p < Max(len, q + |chunk|)
      ensures Content(d', eff, i, Max(len, q + |chunk|))[p] == Splice(Content(d, eff, i, len), q, chunk)[p]
    {
      ChunkByte(sb, d, eff, owner, d', i, len, q, chunk, p);
    }
  }

  lemma PatchedNoHoles(sb: Super, d: Disk, eff: seq<Addrs>, owner: map<int, Slot>, i: nat, len: nat, q: nat,
                       chunk: seq<Byte>)
    requires RefsOwned(sb, d, eff, owner, NOCUT) && i < |eff| && NoHoles(d, eff, i, len) && q <= len
    requires q + |chunk| <= MAXBYTES
    requires q < MAXBYTES && OffsetOf(q) + |chunk| <= BSIZE && 0 < Addr(d, eff, i, BlockOf(q)) < |d|
    ensures var a, len' := Addr(d, eff, i, BlockOf(q)), Max(len, q + |chunk|);
            NoHoles(d, eff, i, len') && NoHoles(d[a := Patch(d[a], OffsetOf(q), chunk)], eff, i, len')
  {
    var a, len' := Addr(d, eff, i, BlockOf(q)), Max(len, q + |chunk|);
    var d' := d[a := Patch(d[a], OffsetOf(q), chunk)];
    PatchKeeps(sb, d, eff, owner, i, BlockOf(q), OffsetOf(q), chunk);
    forall b | 0 <= b < MAXFILE && b * BSIZE < len'
      ensures Addr(d', eff, i, b) == Addr(d, eff, i, b) && 0 < Addr(d, eff, i, b) < |d| {
      BlockCovered(len, q, |chunk|, b);
    }
  }

  // Growing a file from len to q + m bytes within one block needs no other block.
  lemma BlockCovered(len: nat, q: nat, m: nat, b: nat)
    requires q <= len && OffsetOf(q) + m <= BSIZE && b * BSIZE < Max(len, q + m)
    ensures b * BSIZE < len || b == BlockOf(q)
  {
    SameBlock(q, q);
  }

  // Splicing in the next m bytes of the data after the first tot.
  lemma SpliceTwice(s: seq<Byte>, off: nat, data: seq<Byte>, tot: nat, m: nat)
    requires off <= |s| && tot + m <= |data|
    ensures Splice(Splice(s, off, data[..tot]), off + tot, data[tot..][..m]) == Splice(s, off, data[..tot + m])
  {
    assert data[..tot] + data[tot..][..m] == data[..tot + m];
  }

  // Writing into a block of inode i leaves the other inodes alone.
  lemma PatchKeepsOthers(sb: Super, d: Disk, eff: seq<Addrs>, owner: map<int, Slot>, i: nat, bn: nat, o: nat,
                         chunk: seq<Byte>)
    requires RefsOwned(sb, d, eff, owner, NOCUT) && i < |eff| && bn < MAXFILE && o + |chunk| <= BSIZE
    requires 0 < Addr(d, eff, i, bn) < |d|
    ensures var a := Addr(d, eff, i, bn);
            var d' := d[a := Patch(d[a], o, chunk)];
            TableOk(d', eff) && KeepsOthers(d, eff, d', eff, i)
  {
    PatchKeeps(sb, d, eff, owner, i, bn, o, chunk);
  }

  // A patched data block is not a bitmap block.
  lemma PatchedBits(sb: Super, d: Disk, eff: seq<Addrs>, owner: map<int, Slot>, d': Disk, i: nat, len: nat, q: nat,
                    chunk: seq<Byte>)
    requires ChunkStep(sb, d, eff, owner, d', i, len, q, chunk) && BitsMatch(sb, d, owner)
    ensures BitsMatch(sb, d', owner)
  {
    var a := Addr(d, eff, i, BlockOf(q));
    assert sb.IsData(a);
    forall b | 0 <= b < sb.size ensures BitSet(sb, d', b) == BitSet(sb, d, b) {
      assert sb.BBlock(b) < sb.dataStart;
    }
  }

  lemma OthersContent(d: Disk, eff: seq<Addrs>, d': Disk, eff': seq<Addrs>, i: nat, j: nat, len: nat)
    requires TableOk(d, eff) && TableOk(d', eff') && KeepsOthers(d, eff, d', eff', i) && j < |eff| && j != i
    requires NoHoles(d, eff, j, len)
    ensures NoHoles(d', eff', j, len) && Content(d', eff', j, len) == Content(d, eff, j, len)
  {
    forall bn | 0 <= bn < MAXFILE && bn * BSIZE < len
      ensures Addr(d', eff', j, bn) == Addr(d, eff, j, bn) && d'[Addr(d, eff, j, bn)] == d[Addr(d, eff, j, bn)]
    {
      assert Addr(d, eff, j, bn) == Ref(d, eff, j, SlotOf(bn), NOCUT);
    }
    assert forall p :: 0 <= p < len ==> BlockOf(p) * BSIZE < len;
  }

  // ---- The whole file system as byte sequences ----

  /** Inode j holds exactly the bytes files[j], for every j. */
  ghost predicate Stores(d: Disk, eff: seq<Addrs>, files: seq<seq<Byte>>) {
    && |files| == |eff| && TableOk(d, eff)
    && forall j :: 0 <= j < |eff| ==> NoHoles(d, eff, j, |files[j]|) && Content(d, eff, j, |files[j]|) == files[j]
  }

  lemma KeepsStores(d: Disk, eff: seq<Addrs>, d': Disk, eff': seq<Addrs>, files: seq<seq<Byte>>)
    requires Stores(d, eff, files) && TableOk(d', eff') && Keeps(d, eff, d', eff')
    ensures Stores(d', eff', files)
  {
    forall j | 0 <= j < |eff|
      ensures NoHoles(d', eff', j, |files[j]|) && Content(d', eff', j, |files[j]|) == files[j]
    {
      KeepsContent(d, eff, d', eff', j, |files[j]|);
    }
  }

  // A stored file has no missing block, and its bytes are those that are found.
  lemma StoredReads(d: Disk, eff: seq<Addrs>, files: seq<seq<Byte>>, i: nat, off: nat, n: nat, x: seq<Byte>)
    requires Stores(d, eff, files) && i < |eff| && off + n <= |files[i]| && |x| <= n && Peeked(d, eff, i, off, x)
    ensures !Missing(d, eff, i, off, n) && x == files[i][off..off + |x|]
  {
    assert files[i] == Content(d, eff, i, |files[i]|);
    forall p: nat | off <= p < off + n ensures !MissingAt(d, eff, i, p) {
      ContentAt(d, eff, i, |files[i]|, p);
    }
    forall t | 0 <= t < |x| ensures x[t] == files[i][off..off + |x|][t] {
      ContentAt(d, eff, i, |files[i]|, off + t);
      assert x[off + t - off] == PeekAt(d, eff, i, off + t);
    }
  }

  // An update that touches only inode i changes only its contents.
  lemma OneFileChanged(d: Disk, eff: seq<Addrs>, files: seq<seq<Byte>>, d': Disk, eff': seq<Addrs>, i: nat,
                       s: seq<Byte>)
    requires Stores(d, eff, files) && TableOk(d', eff') && i < |eff| && KeepsOthers(d, eff, d', eff', i)
    requires NoHoles(d', eff', i, |s|) && Content(d', eff', i, |s|) == s
    ensures Stores(d', eff', files[i := s])
  {
    forall j | 0 <= j < |eff| && j != i
      ensures NoHoles(d', eff', j, |files[j]|) && Content(d', eff', j, |files[j]|) == files[j]
    {
      OthersContent(d, eff, d', eff', i, j, |files[j]|);
    }
  }

  // The copy of one pass of writei, into the block that bmap returned.
  lemma CopyPass(sb: Super, d: Disk, eff: seq<Addrs>, owner: map<int, Slot>, files: seq<seq<Byte>>, d': Disk, i: nat,
                 q: nat, chunk: seq<Byte>)
    requires Stores(d, eff, files) && i < |eff| && ChunkStep(sb, d, eff, owner, d', i, |files[i]|, q, chunk)
    ensures RefsOwned(sb, d', eff, owner, NOCUT) && Stores(d', eff, files[i := Splice(files[i], q, chunk)])
  {
    WriteChunk(sb, d, eff, owner, d', i, |files[i]|, q, chunk);
    PatchKeepsOthers(sb, d, eff, owner, i, BlockOf(q), OffsetOf(q), chunk);
    OneFileChanged(d, eff, files, d', eff, i, Splice(files[i], q, chunk));
  }

  // ---- Truncation ----

  // Freeing a block while inode i is cut, and changing the addresses of i, leaves the other inodes alone.
  lemma FreeKeepsOthers(sb: Super, d: Disk, eff: seq<Addrs>, owner: map<int, Slot>, c: Cut, b: nat, i: nat,
                        eff': seq<Addrs>)
    requires RefsOwned(sb, d, eff, owner, c) && (c.n == 0 || c.inum == i) && sb.IsData(b) && i < |eff|
    requires |eff'| == |eff| && TableOk(d, eff') && forall j :: 0 <= j < |eff| && j != i ==> eff'[j] == eff[j]
    ensures TableOk(MarkFree(sb, d, b), eff') && KeepsOthers(d, eff, MarkFree(sb, d, b), eff', i)
  {
    var d' := MarkFree(sb, d, b);
    FreedRefs(sb, d, eff, owner, c, b);
    forall j, k | 0 <= j < |eff| && 0 <= k < SLOTS && j != i && Ref(d, eff, j, k, NOCUT) != 0
      ensures Ref(d', eff', j, k, NOCUT) == Ref(d, eff, j, k, NOCUT) < |d|
      ensures d'[Ref(d, eff, j, k, NOCUT)] == d[Ref(d, eff, j, k, NOCUT)]
    {
      assert Ref(d, eff, j, k, c) == Ref(d, eff, j, k, NOCUT);
      if eff[j][NDIRECT] != 0 {
        IndirectOwned(sb, d, eff, owner, c, j);
      }
    }
  }

  lemma FreeStores(sb: Super, d: Disk, eff: seq<Addrs>, owner: map<int, Slot>, c: Cut, b: nat, i: nat, eff': seq<Addrs>,
                   files: seq<seq<Byte>>)
    requires RefsOwned(sb, d, eff, owner, c) && (c.n == 0 || c.inum == i) && sb.IsData(b) && i < |eff|
    requires |eff'| == |eff| && TableOk(d, eff') && forall j :: 0 <= j < |eff| && j != i ==> eff'[j] == eff[j]
    requires Stores(d, eff, files) && files[i] == []
    ensures Stores(MarkFree(sb, d, b), eff', files)
  {
    FreeKeepsOthers(sb, d, eff, owner, c, b, i, eff');
    OneFileChanged(d, eff, files, MarkFree(sb, d, b), eff', i, []);
    assert files[i := []] == files;
  }
}

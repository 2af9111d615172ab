/**
 platform/visionfive2/mkfs/mkfs.c: building the first image of a file system. A run ends with `ok == false`
 where the program gives up: a name that is too long, a file that is too large, or no block left.
 */
module Mkfs {
  import opened FsLayout
  import opened FsOwnership
  import opened FsFiles
  import opened Fs

  const NLOG := 31          // a header and LOGBLOCKS data blocks
  const NINODES := 200
  const DIRSIZ := 14
  const DIRENT := 16        // bytes of a directory entry
  const ROOTINO := 1
  const T_DIR := 1
  const T_FILE := 2

  // The superblock of an image of fssize blocks.
  function Layout(fssize: nat): (sb: Super) {
    var bmapstart := 2 + NLOG + NINODES / IPB + 1;
    Super(fssize, NINODES, 2 + NLOG, bmapstart, bmapstart + fssize / BPB + 1)
  }

  /** A file to put into the image, its name already cut to what follows the directory and a leading `_`. */
  datatype Input = Input(name: seq<Byte>, data: seq<Byte>)

  function Zeros(n: nat): (z: seq<Byte>)
    ensures |z| == n && forall k :: 0 <= k < n ==> z[k] == 0
  {
    seq(n, _ => 0)
  }

  const DOT: Byte := 46

  function Dirent(inum: nat, name: seq<Byte>): (e: seq<Byte>)
    requires inum < 65536 && |name| <= DIRSIZ
    ensures |e| == DIRENT
  {
    var lo: Byte, hi: Byte := inum % 256, inum / 256;
    [lo, hi] + name + Zeros(DIRSIZ - |name|)
  }

  // The entries of the root directory: itself twice, then the files as inodes 2, 3, ...
  function Root(inputs: seq<Input>): (r: seq<Byte>)
    requires |inputs| + 2 <= NINODES && forall k :: 0 <= k < |inputs| ==> |inputs[k].name| <= DIRSIZ
    ensures |r| == DIRENT * (|inputs| + 2)
  {
    if inputs == [] then Dirent(ROOTINO, [DOT]) + Dirent(ROOTINO, [DOT, DOT])
    else var n := |inputs| - 1; Root(inputs[..n]) + Dirent(n + 2, inputs[n].name)
  }

  // ---- How many blocks a file takes ----

  function Blocks(n: nat): nat { (n + BSIZE - 1) / BSIZE }

  // The blocks of a file of n bytes, and its indirect block.
  function Need(n: nat): nat { Blocks(n) + if n > NDIRECT * BSIZE then 1 else 0 }

  function Total(files: seq<seq<Byte>>): nat {
    if files == [] then 0 else var n := |files| - 1; Total(files[..n]) + Need(|files[n]|)
  }

  // The blocks that the root directory and the files take.
  function TotalFor(inputs: seq<Input>): nat {
    Need(DIRENT * (|inputs| + 2)) + DataTotal(inputs)
  }

  function DataTotal(inputs: seq<Input>): nat {
    if inputs == [] then 0 else var n := |inputs| - 1; DataTotal(inputs[..n]) + Need(|inputs[n].data|)
  }

  // What is taken for byte off of a file: its block if there is none, and the indirect block with its first entry.
  function Fresh(missing: bool, indirect: nat, fbn: nat): nat {
    (if missing then 1 else 0) + if fbn >= NDIRECT && indirect == 0 then 1 else 0
  }

  lemma NeedStep(off: nat, m: nat)
    requires 0 < m && OffsetOf(off) + m <= BSIZE
    ensures Need(off + m) == Need(off) + if OffsetOf(off) != 0 then 0 else if off == NDIRECT * BSIZE then 2 else 1
  {
    var b := BlockOf(off);
    assert off == b * BSIZE + OffsetOf(off);
    assert Blocks(off + m) == b + 1;
    assert Blocks(off) == if OffsetOf(off) == 0 then b else b + 1;
  }

  // All bytes of a pass need what its first byte needs.
  lemma PassNeed(off: nat, m: nat)
    requires 0 < m && OffsetOf(off) + m <= BSIZE
    ensures Need(off + m) == Need(off + 1)
  {
    NeedStep(off, m);
    NeedStep(off, 1);
  }

  lemma NextPart(s: seq<Byte>, p: seq<Byte>, n: nat, m: nat)
    requires n + m <= |p|
    ensures s + p[..n] + p[n..][..m] == s + p[..n + m]
  {
  }

  lemma NeedMono(a: nat, b: nat)
    requires a <= b
    ensures Need(a) <= Need(b)
  {
  }

  lemma {:induction false} TotalUpdate(files: seq<seq<Byte>>, i: nat, x: seq<Byte>)
    requires i < |files|
    ensures Total(files[i := x]) + Need(|files[i]|) == Total(files) + Need(|x|)
    decreases |files|
  {
    var n := |files| - 1;
    if i < n {
      TotalUpdate(files[..n], i, x);
      assert files[i := x][..n] == files[..n][i := x];
    } else {
      assert files[i := x][..n] == files[..n];
    }
  }

  lemma FilesPart(files: seq<seq<Byte>>, i: nat, data: seq<Byte>, n: nat, cc: nat)
    requires i < |files| && n + cc <= |data|
    ensures var f := files[i := data[..n]]; f[i := f[i] + data[n..n + cc]] == files[i := data[..n + cc]]
  {
    assert data[..n] + data[n..n + cc] == data[..n + cc];
  }

  lemma PartTotal(files: seq<seq<Byte>>, i: nat, data: seq<Byte>, n: nat)
    requires i < |files| && n <= |data|
    ensures Total(files[i := data[..n]]) <= Total(files[i := data])
  {
    TotalUpdate(files, i, data[..n]);
    TotalUpdate(files, i, data);
    NeedMono(n, |data|);
  }

  lemma {:induction false} TotalOfNone(files: seq<seq<Byte>>)
    requires forall i :: 0 <= i < |files| ==> files[i] == []
    ensures Total(files) == 0
    decreases |files|
  {
    if files != [] {
      TotalOfNone(files[..|files| - 1]);
    }
  }

  lemma {:induction false} TotalForMono(inputs: seq<Input>, i: nat)
    requires i <= |inputs|
    ensures TotalFor(inputs[..i]) <= TotalFor(inputs) && DataTotal(inputs[..i]) <= DataTotal(inputs)
    decreases |inputs|
  {
    if i == |inputs| {
      assert inputs[..i] == inputs;
    } else {
      var n := |inputs| - 1;
      TotalForMono(inputs[..n], i);
      assert inputs[..n][..i] == inputs[..i];
      NeedMono(DIRENT * (|inputs[..n]| + 2), DIRENT * (|inputs| + 2));
    }
  }

  // ---- Linking fresh blocks ----

  // Slot k of inode i now holds b; all other slots are as before.
  ghost predicate OnlyLinks(d: Disk, eff: seq<Addrs>, d': Disk, eff': seq<Addrs>, i: nat, k: nat, b: nat)
    requires TableOk(d, eff) && TableOk(d', eff')
  {
    |eff'| == |eff| && forall j, l :: 0 <= j < |eff| && 0 <= l < SLOTS ==>
      Ref(d', eff', j, l, NOCUT) == if j == i && l == k then b else Ref(d, eff, j, l, NOCUT)
  }

  // A fresh zeroed block goes into a direct slot or the indirect pointer.
  lemma LinkAddrKeeps(sb: Super, d: Disk, eff: seq<Addrs>, owner: map<int, Slot>, i: nat, k: nat, b: nat)
    requires RefsOwned(sb, d, eff, owner, NOCUT) && i < |eff| && k <= NDIRECT && eff[i][k] == 0
    requires sb.IsData(b) && b != 0 && b !in owner && d[b] == ZeroBlock()
    ensures var eff' := eff[i := SetAddr(eff[i], k, b)];
            && RefsOwned(sb, d, eff', owner[b as int := Slot(i, k)], NOCUT)
            && Keeps(d, eff, d, eff') && OnlyLinks(d, eff, d, eff', i, k, b)
  {
    LinkAddr(sb, d, eff, owner, i, k, b);
    var eff' := eff[i := SetAddr(eff[i], k, b)];
    forall j, l | 0 <= j < |eff| && 0 <= l < SLOTS
      ensures Ref(d, eff', j, l, NOCUT) == if j == i && l == k then b else Ref(d, eff, j, l, NOCUT)
    {
      if j == i && k == NDIRECT && l > NDIRECT {
        ZeroWords(l - 13);
      }
    }
  }

  // A fresh block goes into entry j of the indirect block.
  lemma LinkEntryKeeps(sb: Super, d: Disk, eff: seq<Addrs>, owner: map<int, Slot>, i: nat, j: nat, b: nat)
    requires RefsOwned(sb, d, eff, owner, NOCUT) && i < |eff| && j < NINDIRECT && eff[i][NDIRECT] != 0
    requires Ref(d, eff, i, 13 + j, NOCUT) == 0 && sb.IsData(b) && b != 0 && b !in owner
    ensures var d' := d[eff[i][NDIRECT] := SetWord(d[eff[i][NDIRECT]], j, b)];
            && RefsOwned(sb, d', eff, owner[b as int := Slot(i, 13 + j)], NOCUT)
            && Keeps(d, eff, d', eff) && OnlyLinks(d, eff, d', eff, i, 13 + j, b)
  {
    LinkEntry(sb, d, eff, owner, i, j, b);
    var ind := eff[i][NDIRECT];
    var d' := d[ind := SetWord(d[ind], j, b)];
    SetWordAt(d[ind], j, b);
    IndirectOwned(sb, d, eff, owner, NOCUT, i);
    forall x, l | 0 <= x < |eff| && 0 <= l < SLOTS
      ensures Ref(d', eff, x, l, NOCUT) == if x == i && l == 13 + j then b else Ref(d, eff, x, l, NOCUT)
      ensures l != NDIRECT && Ref(d, eff, x, l, NOCUT) != 0 ==>
                Ref(d, eff, x, l, NOCUT) < |d| && d'[Ref(d, eff, x, l, NOCUT)] == d[Ref(d, eff, x, l, NOCUT)]
    {
      if x != i || l != 13 + j {
        EntryKeepsRef(sb, d, eff, owner, i, j, b, x, l);
      }
    }
  }

  // ---- The end of a file ----

  /** No block lies wholly past byte len of inode i, and the last block is zero from there on. */
  ghost predicate Exact(d: Disk, eff: seq<Addrs>, i: nat, len: nat)
    requires i < |eff| && AddrsOk(d, eff[i])
  {
    && (forall bn :: 0 <= bn < MAXFILE && len <= bn * BSIZE ==> Addr(d, eff, i, bn) == 0)
    && (OffsetOf(len) != 0 && BlockOf(len) < MAXFILE ==>
          var a := Addr(d, eff, i, BlockOf(len));
          a < |d| && forall o :: OffsetOf(len) <= o < BSIZE ==> d[a][o] == 0)
  }

  ghost predicate AllExact(d: Disk, eff: seq<Addrs>, files: seq<seq<Byte>>)
    requires TableOk(d, eff) && |files| == |eff|
  {
    forall j :: 0 <= j < |eff| ==> Exact(d, eff, j, |files[j]|)
  }

  // An update that links blocks for file block fbn of inode i only.
  ghost predicate OnlyBlock(d: Disk, eff: seq<Addrs>, d': Disk, eff': seq<Addrs>, i: nat, fbn: nat)
    requires TableOk(d, eff) && TableOk(d', eff')
  {
    && Keeps(d, eff, d', eff') && i < |eff| && fbn < MAXFILE
    && (forall j, bn :: 0 <= j < |eff| && 0 <= bn < MAXFILE && !(j == i && bn == fbn) ==>
        Addr(d', eff', j, bn) == Addr(d, eff, j, bn))
    && 0 < Addr(d', eff', i, fbn) < |d'|
    && (Addr(d, eff, i, fbn) == 0 ==> d'[Addr(d', eff', i, fbn)] == ZeroBlock())
  }

  // Linking a fresh zeroed block into the slot of fbn, perhaps after linking the indirect block.
  lemma LinkedBlock(d: Disk, eff: seq<Addrs>, d1: Disk, eff1: seq<Addrs>, d2: Disk, eff2: seq<Addrs>, i: nat, fbn: nat,
                    b: nat)
    requires TableOk(d, eff) && TableOk(d1, eff1) && TableOk(d2, eff2) && i < |eff| && fbn < MAXFILE
    requires Keeps(d, eff, d1, eff1) && Keeps(d1, eff1, d2, eff2)
    requires (d1 == d && eff1 == eff) || OnlyLinks(d, eff, d1, eff1, i, NDIRECT, eff1[i][NDIRECT])
    requires OnlyLinks(d1, eff1, d2, eff2, i, SlotOf(fbn), b) && 0 < b < |d2| && d2[b] == ZeroBlock()
    ensures OnlyBlock(d, eff, d2, eff2, i, fbn) && Addr(d2, eff2, i, fbn) == b
  {
    KeepsTrans(d, eff, d1, eff1, d2, eff2);
    forall j, bn | 0 <= j < |eff| && 0 <= bn < MAXFILE && !(j == i && bn == fbn)
      ensures Addr(d2, eff2, j, bn) == Addr(d, eff, j, bn)
    {
      assert Ref(d2, eff2, j, SlotOf(bn), NOCUT) == Ref(d1, eff1, j, SlotOf(bn), NOCUT);
    }
  }

  // Nothing to link: the block is there.
  lemma HasBlock(d: Disk, eff: seq<Addrs>, i: nat, fbn: nat)
    requires TableOk(d, eff) && i < |eff| && fbn < MAXFILE && 0 < Addr(d, eff, i, fbn) < |d|
    ensures OnlyBlock(d, eff, d, eff, i, fbn)
  {
  }

  // Writing a chunk moves no block, and changes no block of another inode.
  lemma ChunkAddr(sb: Super, d: Disk, eff: seq<Addrs>, owner: map<int, Slot>, d': Disk, i: nat, len: nat,
                  chunk: seq<Byte>, j: nat, bn: nat)
    requires ChunkStep(sb, d, eff, owner, d', i, len, len, chunk) && j < |eff| && bn < MAXFILE
    ensures TableOk(d', eff) && Addr(d', eff, j, bn) == Addr(d, eff, j, bn)
    ensures j != i && Addr(d, eff, j, bn) != 0 ==>
            Addr(d, eff, j, bn) < |d| && d'[Addr(d, eff, j, bn)] == d[Addr(d, eff, j, bn)]
  {
    PatchKeeps(sb, d, eff, owner, i, BlockOf(len), OffsetOf(len), chunk);
    assert Addr(d, eff, j, bn) == Ref(d, eff, j, SlotOf(bn), NOCUT);
  }

  lemma AppendedTail(sb: Super, d: Disk, eff: seq<Addrs>, d1: Disk, eff1: seq<Addrs>, owner: map<int, Slot>, d2: Disk,
                     i: nat, len: nat, chunk: seq<Byte>, o: nat)
    requires TableOk(d, eff) && TableOk(d1, eff1) && len < MAXBYTES && OnlyBlock(d, eff, d1, eff1, i, BlockOf(len))
    requires NoHoles(d, eff, i, len)
    requires NoHoles(d1, eff1, i, len) && ChunkStep(sb, d1, eff1, owner, d2, i, len, len, chunk)
    requires Exact(d, eff, i, len)
    requires OffsetOf(len) + |chunk| <= o < BSIZE
    ensures d2[Addr(d1, eff1, i, BlockOf(len))][o] == 0
  {
    var bn := BlockOf(len);
    if OffsetOf(len) == 0 {
      assert len <= bn * BSIZE;
    } else {
      assert bn * BSIZE < len;
      assert Addr(d, eff, i, bn) == Ref(d, eff, i, SlotOf(bn), NOCUT) != 0;
    }
  }

  lemma AppendedExact(sb: Super, d: Disk, eff: seq<Addrs>, d1: Disk, eff1: seq<Addrs>, owner: map<int, Slot>, d2: Disk,
                      i: nat, len: nat, chunk: seq<Byte>)
    requires TableOk(d, eff) && TableOk(d1, eff1) && len < MAXBYTES && OnlyBlock(d, eff, d1, eff1, i, BlockOf(len))
    requires NoHoles(d, eff, i, len)
    requires NoHoles(d1, eff1, i, len) && ChunkStep(sb, d1, eff1, owner, d2, i, len, len, chunk)
    requires Exact(d, eff, i, len)
    ensures TableOk(d2, eff1) && Exact(d2, eff1, i, len + |chunk|)
  {
    var bn := BlockOf(len);
    forall b | 0 <= b < MAXFILE && len + |chunk| <= b * BSIZE ensures Addr(d2, eff1, i, b) == 0 {
      assert b != bn && len <= b * BSIZE;
      ChunkAddr(sb, d1, eff1, owner, d2, i, len, chunk, i, b);
    }
    ChunkAddr(sb, d1, eff1, owner, d2, i, len, chunk, i, bn);
    if OffsetOf(len) + |chunk| < BSIZE {
      SameBlock(len, len + |chunk|);
      forall o | OffsetOf(len) + |chunk| <= o < BSIZE ensures d2[Addr(d1, eff1, i, bn)][o] == 0 {
        AppendedTail(sb, d, eff, d1, eff1, owner, d2, i, len, chunk, o);
      }
    } else {
      BlockEnd(len, |chunk|);
    }
  }

  lemma OthersExact(sb: Super, d: Disk, eff: seq<Addrs>, d1: Disk, eff1: seq<Addrs>, owner: map<int, Slot>, d2: Disk,
                    i: nat, len: nat, chunk: seq<Byte>, j: nat, n: nat)
    requires TableOk(d, eff) && TableOk(d1, eff1) && len < MAXBYTES && OnlyBlock(d, eff, d1, eff1, i, BlockOf(len))
    requires ChunkStep(sb, d1, eff1, owner, d2, i, len, len, chunk)
    requires j < |eff| && j != i && Exact(d, eff, j, n) && NoHoles(d, eff, j, n)
    ensures TableOk(d2, eff1) && Exact(d2, eff1, j, n)
  {
    forall b | 0 <= b < MAXFILE && n <= b * BSIZE ensures Addr(d2, eff1, j, b) == 0 {
      ChunkAddr(sb, d1, eff1, owner, d2, i, len, chunk, j, b);
    }
    if OffsetOf(n) != 0 && BlockOf(n) < MAXFILE {
      var bn := BlockOf(n);
      ChunkAddr(sb, d1, eff1, owner, d2, i, len, chunk, j, bn);
      assert bn * BSIZE < n;
      assert Addr(d, eff, j, bn) == Ref(d, eff, j, SlotOf(bn), NOCUT);
    }
  }

  // One pass of iappend keeps the ends of all files exact.
  lemma AppendedAllExact(sb: Super, d: Disk, eff: seq<Addrs>, d1: Disk, eff1: seq<Addrs>, owner: map<int, Slot>,
                         d2: Disk, i: nat, files: seq<seq<Byte>>, chunk: seq<Byte>)
    requires Stores(d, eff, files) && TableOk(d1, eff1) && i < |eff| && |files[i]| < MAXBYTES
    requires OnlyBlock(d, eff, d1, eff1, i, BlockOf(|files[i]|)) && AllExact(d, eff, files)
    requires NoHoles(d1, eff1, i, |files[i]|) && ChunkStep(sb, d1, eff1, owner, d2, i, |files[i]|, |files[i]|, chunk)
    ensures TableOk(d2, eff1) && AllExact(d2, eff1, files[i := files[i] + chunk])
  {
    AppendedExact(sb, d, eff, d1, eff1, owner, d2, i, |files[i]|, chunk);
    forall j | 0 <= j < |eff| && j != i ensures Exact(d2, eff1, j, |files[j]|) {
      OthersExact(sb, d, eff, d1, eff1, owner, d2, i, |files[i]|, chunk, j, |files[j]|);
    }
  }

  // All of one pass: linking takes d to d1, the copy takes d1 to d2.
  lemma AppendPass(sb: Super, d: Disk, eff: seq<Addrs>, d1: Disk, eff1: seq<Addrs>, owner: map<int, Slot>, d2: Disk,
                   i: nat, files: seq<seq<Byte>>, chunk: seq<Byte>)
    requires Stores(d, eff, files) && Stores(d1, eff1, files) && i < |eff| && |files[i]| < MAXBYTES
    requires AllExact(d, eff, files)
    requires OnlyBlock(d, eff, d1, eff1, i, BlockOf(|files[i]|)) && RefsOwned(sb, d1, eff1, owner, NOCUT)
    requires |chunk| > 0 && OffsetOf(|files[i]|) + |chunk| <= BSIZE
    requires var x := Addr(d1, eff1, i, BlockOf(|files[i]|)); d2 == d1[x := Patch(d1[x], OffsetOf(|files[i]|), chunk)]
    ensures RefsOwned(sb, d2, eff1, owner, NOCUT) && Stores(d2, eff1, files[i := files[i] + chunk])
    ensures AllExact(d2, eff1, files[i := files[i] + chunk]) && Addr(d1, eff1, i, BlockOf(|files[i]|)) in owner
  {
    var q := |files[i]|;
    SameBlock(q, q);
    assert Addr(d1, eff1, i, BlockOf(q)) == Ref(d1, eff1, i, SlotOf(BlockOf(q)), NOCUT);
    CopyPass(sb, d1, eff1, owner, files, d2, i, q, chunk);
    assert Splice(files[i], q, chunk) == files[i] + chunk;
    AppendedAllExact(sb, d, eff, d1, eff1, owner, d2, i, files, chunk);
  }

  // A file of n bytes has an indirect block exactly if it needs one.
  predicate Lean(addrs: Addrs, n: nat) {
    |addrs| == NDIRECT + 1 && (addrs[NDIRECT] != 0 <==> n > NDIRECT * BSIZE)
  }

  // What the byte at the end of a file still needs.
  lemma LeanFresh(d: Disk, eff: seq<Addrs>, i: nat, len: nat)
    requires TableOk(d, eff) && i < |eff| && len < MAXBYTES && NoHoles(d, eff, i, len) && Exact(d, eff, i, len)
    requires Lean(eff[i], len)
    ensures Fresh(Addr(d, eff, i, BlockOf(len)) == 0, eff[i][NDIRECT], BlockOf(len)) ==
            if OffsetOf(len) != 0 then 0 else if len == NDIRECT * BSIZE then 2 else 1
  {
    var bn := BlockOf(len);
    assert len == bn * BSIZE + OffsetOf(len);
    if OffsetOf(len) == 0 {
      assert Addr(d, eff, i, bn) == 0;
    } else {
      assert Addr(d, eff, i, bn) != 0;
    }
  }

  // So the next byte takes as many blocks as are missing.
  lemma FreshNeed(d: Disk, eff: seq<Addrs>, i: nat, len: nat)
    requires TableOk(d, eff) && i < |eff| && len < MAXBYTES && NoHoles(d, eff, i, len) && Exact(d, eff, i, len)
    requires Lean(eff[i], len)
    ensures Need(len + 1) == Need(len) + Fresh(Addr(d, eff, i, BlockOf(len)) == 0, eff[i][NDIRECT], BlockOf(len))
  {
    LeanFresh(d, eff, i, len);
    NeedStep(len, 1);
  }

  // ---- The end of the run ----

  // The root directory's size as the program rounds it.
  function Rounded(size: nat): nat {
    (size / BSIZE + 1) * BSIZE
  }

  /** The rounded file has no hole exactly when its size was not a multiple of the block size; it then ends in zeros. */
  lemma RoundedHoles(d: Disk, eff: seq<Addrs>, files: seq<seq<Byte>>, i: nat)
    requires Stores(d, eff, files) && AllExact(d, eff, files) && i < |eff|
    ensures var n := |files[i]|;
            && (NoHoles(d, eff, i, Rounded(n)) <==> n % BSIZE != 0)
            && (n % BSIZE != 0 ==> Stores(d, eff, files[i := files[i] + Zeros(Rounded(n) - n)]))
  {
    var n := |files[i]|;
    var n', bn := Rounded(n), BlockOf(n);
    assert Exact(d, eff, i, n) && n' == (bn + 1) * BSIZE && bn * BSIZE <= n;
    if n % BSIZE == 0 {
      assert bn < MAXFILE ==> Addr(d, eff, i, bn) == 0;
      assert bn * BSIZE < n';
    } else {
      forall b | 0 <= b < MAXFILE && b * BSIZE < n' ensures 0 < Addr(d, eff, i, b) < |d| {
        assert b * BSIZE < n;
      }
      RoundedContent(d, eff, files[i], i);
    }
  }

  lemma RoundedContent(d: Disk, eff: seq<Addrs>, s: seq<Byte>, i: nat)
    requires TableOk(d, eff) && i < |eff| && NoHoles(d, eff, i, |s|) && Content(d, eff, i, |s|) == s
    requires Exact(d, eff, i, |s|)
    requires |s| % BSIZE != 0 && NoHoles(d, eff, i, Rounded(|s|))
    ensures Content(d, eff, i, Rounded(|s|)) == s + Zeros(Rounded(|s|) - |s|)
  {
    var n, n' := |s|, Rounded(|s|);
    forall p | 0 <= p < n' ensures Content(d, eff, i, n')[p] == (s + Zeros(n' - n))[p] {
      ContentAt(d, eff, i, n', p);
      if p < n {
        ContentAt(d, eff, i, n, p);
      } else {
        PositionBlock(n, n' - n, p);
        SameBlock(p, n);
      }
    }
  }

  /** A hole in some file leaves no way to meet the invariant of the running system. */
  lemma HoleIsInconsistent(sb: Super, disk: Disk, dinodes: seq<Dinode>, owner: map<int, Slot>, files: seq<seq<Byte>>,
                           i: nat)
    requires TableOk(disk, Table(dinodes)) && i < |dinodes| && !NoHoles(disk, Table(dinodes), i, dinodes[i].size)
    ensures !Consistent(sb, disk, dinodes, owner, files)
  {
  }

  predicate Bit(b: Block, x: nat)
    requires x < BPB
  {
    BitOf(b[x / 8], x % 8)
  }

  // Exactly the first `used` bits are set.
  ghost predicate FirstBits(b: Block, used: nat) {
    forall x :: 0 <= x < BPB ==> (Bit(b, x) <==> x < used)
  }

  // The bitmap that the program writes agrees with the blocks it handed out.
  lemma BitmapWritten(sb: Super, d: Disk, owner: map<int, Slot>, used: nat, b: Block)
    requires sb.Valid() && |d| == sb.size && sb.dataStart <= used < BPB
    requires forall x :: x in owner <==> sb.dataStart <= x < used
    requires forall x :: sb.bmapstart <= x < sb.dataStart ==> d[x] == ZeroBlock()
    requires FirstBits(b, used)
    ensures BitsMatch(sb, d[sb.bmapstart := b], owner)
  {
    var d' := d[sb.bmapstart := b];
    forall x | 0 <= x < sb.size ensures BitSet(sb, d', x) <==> x < used {
      if x < BPB {
        assert x / BPB == 0 && x % BPB == x && BitSet(sb, d', x) == Bit(b, x);
      } else {
        assert sb.bmapstart < sb.BBlock(x) < sb.dataStart;
        NoBit(x % 8);
      }
    }
  }

  lemma {:induction false} NoBit(k: nat)
    ensures !BitOf(0, k)
  {
    if k > 0 {
      NoBit(k - 1);
    }
  }

  // The blocks handed out are exactly the owned ones, and all later blocks and the bitmap are still zero.
  ghost predicate IsBuilding(sb: Super, disk: Disk, freeblock: nat, owner: map<int, Slot>, eff: seq<Addrs>,
                             files: seq<seq<Byte>>) {
    && sb.Valid() && |disk| == sb.size
    && 0 < sb.dataStart <= freeblock && (forall b :: b in owner <==> sb.dataStart <= b < freeblock)
    && RefsOwned(sb, disk, eff, owner, NOCUT) && Stores(disk, eff, files)
    && (forall b :: 0 <= b < sb.size && (freeblock <= b || sb.bmapstart <= b < sb.dataStart) ==>
        disk[b] == ZeroBlock())
  }

  // The next block goes into slot k of an inode.
  lemma AddrTaken(sb: Super, d: Disk, b: nat, owner: map<int, Slot>, eff: seq<Addrs>, files: seq<seq<Byte>>, i: nat,
                  k: nat)
    requires IsBuilding(sb, d, b, owner, eff, files) && b < sb.size && i < |eff| && k <= NDIRECT && eff[i][k] == 0
    ensures var eff' := eff[i := SetAddr(eff[i], k, b)];
            && IsBuilding(sb, d, b + 1, owner[b as int := Slot(i, k)], eff', files)
            && Keeps(d, eff, d, eff') && OnlyLinks(d, eff, d, eff', i, k, b)
  {
    var eff' := eff[i := SetAddr(eff[i], k, b)];
    LinkAddrKeeps(sb, d, eff, owner, i, k, b);
    KeepsStores(d, eff, d, eff', files);
  }

  // The next block goes into entry j of an indirect block.
  lemma EntryTaken(sb: Super, d: Disk, b: nat, owner: map<int, Slot>, eff: seq<Addrs>, files: seq<seq<Byte>>, i: nat,
                   j: nat)
    requires IsBuilding(sb, d, b, owner, eff, files) && b < sb.size && i < |eff| && j < NINDIRECT
    requires eff[i][NDIRECT] != 0 && Ref(d, eff, i, 13 + j, NOCUT) == 0
    ensures var d' := d[eff[i][NDIRECT] := SetWord(d[eff[i][NDIRECT]], j, b)];
            && IsBuilding(sb, d', b + 1, owner[b as int := Slot(i, 13 + j)], eff, files)
            && Keeps(d, eff, d', eff) && OnlyLinks(d, eff, d', eff, i, 13 + j, b) && d'[b] == ZeroBlock()
  {
    var d' := d[eff[i][NDIRECT] := SetWord(d[eff[i][NDIRECT]], j, b)];
    LinkEntryKeeps(sb, d, eff, owner, i, j, b);
    IndirectOwned(sb, d, eff, owner, NOCUT, i);
    KeepsStores(d, eff, d', eff, files);
  }

  /** The image file and the two bump counters. */
  class Image {
    const sb: Super
    var disk: Disk
    var dinodes: seq<Dinode>
    var freeinode: nat
    var freeblock: nat
    ghost var owner: map<int, Slot>
    ghost var files: seq<seq<Byte>>

    ghost predicate Building(eff: seq<Addrs>)
      reads this
    {
      |dinodes| == sb.ninodes && IsBuilding(sb, disk, freeblock, owner, eff, files)
    }

    // All addresses, with iappend's own copy for inode inum.
    ghost function Eff(inum: nat, addrs: Addrs): seq<Addrs>
      requires inum < |dinodes|
      reads this
    {
      Table(dinodes)[inum := addrs]
    }

    // din.addrs[k] = freeblock++, followed by a read of that block, which fails past the end of the image.
    method TakeAddr(inum: nat, addrs: Addrs, k: nat) returns (ok: bool, addrs': Addrs)
      requires inum < |dinodes| && Building(Eff(inum, addrs)) && k <= NDIRECT && |addrs| == NDIRECT + 1 && addrs[k] == 0
      modifies this`freeblock, this`owner
      ensures ok == (old(freeblock) < sb.size) && addrs' == SetAddr(addrs, k, old(freeblock))
      ensures ok ==>
              Building(Eff(inum, addrs')) && freeblock == old(freeblock) + 1 && disk[old(freeblock)] == ZeroBlock()
      ensures ok ==> Keeps(disk, Eff(inum, addrs), disk, Eff(inum, addrs')) &&
                     OnlyLinks(disk, Eff(inum, addrs), disk, Eff(inum, addrs'), inum, k, old(freeblock))
    {
      addrs' := SetAddr(addrs, k, freeblock);
      ok := freeblock < sb.size;
      if ok {
        ghost var e := Eff(inum, addrs);
        AddrTaken(sb, disk, freeblock, owner, e, files, inum, k);
        assert Eff(inum, addrs') == e[inum := SetAddr(e[inum], k, freeblock)];
        owner := owner[freeblock as int := Slot(inum, k)];
      }
      freeblock := freeblock + 1;
    }

    // indirect[j] = freeblock++, and the read of that block.
    method TakeEntry(inum: nat, addrs: Addrs, j: nat) returns (ok: bool)
      requires inum < |dinodes| && Building(Eff(inum, addrs)) && j < NINDIRECT && |addrs| == NDIRECT + 1
      requires addrs[NDIRECT] != 0
      requires Ref(disk, Eff(inum, addrs), inum, 13 + j, NOCUT) == 0
      modifies this`disk, this`freeblock, this`owner
      ensures ok == (old(freeblock) < sb.size)
      ensures ok ==>
              Building(Eff(inum, addrs)) && freeblock == old(freeblock) + 1 && disk[old(freeblock)] == ZeroBlock()
      ensures ok ==> Keeps(old(disk), Eff(inum, addrs), disk, Eff(inum, addrs)) &&
                     OnlyLinks(old(disk), Eff(inum, addrs), disk, Eff(inum, addrs), inum, 13 + j, old(freeblock))
    {
      ok := freeblock < sb.size;
      if ok {
        EntryTaken(sb, disk, freeblock, owner, Eff(inum, addrs), files, inum, j);
        var ind := addrs[NDIRECT];
        disk := disk[ind := SetWord(disk[ind], j, freeblock)];
        owner := owner[freeblock as int := Slot(inum, 13 + j)];
      }
      freeblock := freeblock + 1;
    }

    // The indirect half of iappend's block lookup.
    method IndirectFor(inum: nat, addrs: Addrs, fbn: nat) returns (ok: bool, addrs': Addrs, x: nat)
      requires inum < |dinodes| && Building(Eff(inum, addrs)) && NDIRECT <= fbn < MAXFILE
      modifies this`disk, this`freeblock, this`owner
      ensures ok ==>
              Building(Eff(inum, addrs')) && OnlyBlock(old(disk), Eff(inum, addrs), disk, Eff(inum, addrs'), inum, fbn)
      ensures ok ==> x == Addr(disk, Eff(inum, addrs'), inum, fbn)
      ensures var n := Fresh(Addr(old(disk), Eff(inum, addrs), inum, fbn) == 0, addrs[NDIRECT], fbn);
              if ok then freeblock == old(freeblock) + n else old(freeblock) + n > sb.size
      ensures ok ==> |addrs'| == NDIRECT + 1 && (addrs'[NDIRECT] != 0 <==> addrs[NDIRECT] != 0 || fbn >= NDIRECT)
    {
      var j := fbn - NDIRECT;
      ok, addrs', x := true, addrs, 0;
      ghost var d, e := disk, Eff(inum, addrs);
      assert AddrsOk(disk, Eff(inum, addrs)[inum]);
      if addrs[NDIRECT] == 0 {
        ok, addrs' := TakeAddr(inum, addrs, NDIRECT);
        if !ok {
          return;
        }
        ZeroWords(j);
      }
      ghost var d1, e1 := disk, Eff(inum, addrs');
      x := WordAt(disk[addrs'[NDIRECT]], j);
      if x == 0 {
        x := freeblock;
        ok := TakeEntry(inum, addrs', j);
        if ok {
          LinkedBlock(d, e, d1, e1, disk, e1, inum, fbn, x);
        }
      } else {
        assert Ref(d1, e1, inum, 13 + j, NOCUT) == x;
        HasBlock(d, e, inum, fbn);
      }
    }

    // The block for file block fbn, as iappend finds or makes it.
    method BlockFor(inum: nat, addrs: Addrs, fbn: nat) returns (ok: bool, addrs': Addrs, x: nat)
      requires inum < |dinodes| && Building(Eff(inum, addrs)) && fbn < MAXFILE
      modifies this`disk, this`freeblock, this`owner
      ensures ok ==>
              Building(Eff(inum, addrs')) && OnlyBlock(old(disk), Eff(inum, addrs), disk, Eff(inum, addrs'), inum, fbn)
      ensures ok ==> x == Addr(disk, Eff(inum, addrs'), inum, fbn)
      ensures var n := Fresh(Addr(old(disk), Eff(inum, addrs), inum, fbn) == 0, addrs[NDIRECT], fbn);
              if ok then freeblock == old(freeblock) + n else old(freeblock) + n > sb.size
      ensures ok ==> |addrs'| == NDIRECT + 1 && (addrs'[NDIRECT] != 0 <==> addrs[NDIRECT] != 0 || fbn >= NDIRECT)
    {
      if fbn < NDIRECT {
        ok, addrs' := true, addrs;
        assert AddrsOk(disk, Eff(inum, addrs)[inum]);
        if addrs[fbn] == 0 {
          ghost var e := Eff(inum, addrs);
          ok, addrs' := TakeAddr(inum, addrs, fbn);
          if ok {
            LinkedBlock(disk, e, disk, e, disk, Eff(inum, addrs'), inum, fbn, addrs'[fbn]);
          }
        } else {
          HasBlock(disk, Eff(inum, addrs), inum, fbn);
        }
        x := addrs'[fbn];
      } else {
        ok, addrs', x := IndirectFor(inum, addrs, fbn);
      }
    }

    // One pass of iappend: takes m bytes of the rest.
    method AppendSome(inum: nat, addrs: Addrs, off: nat, rest: seq<Byte>) returns (ok: bool, addrs': Addrs, m: nat)
      requires inum < |dinodes| && Building(Eff(inum, addrs)) && AllExact(disk, Eff(inum, addrs), files) && |rest| > 0
      requires off == |files[inum]| && Lean(addrs, off)
      modifies this`disk, this`freeblock, this`owner, this`files
      ensures ok ==> Building(Eff(inum, addrs')) && AllExact(disk, Eff(inum, addrs'), files) && Lean(addrs', off + m)
      ensures ok ==> 0 < m <= |rest| && files == old(files)[inum := old(files)[inum] + rest[..m]]
      ensures ok ==> freeblock + Need(off) == old(freeblock) + Need(off + m)
      ensures !ok ==> off + 1 > MAXBYTES || old(freeblock) + Need(off + 1) > sb.size + Need(off)
    {
      addrs', m := addrs, 0;
      var fbn := off / BSIZE;
      if fbn >= MAXFILE {
        return false, addrs, 0;
      }
      ghost var d, e := disk, Eff(inum, addrs);
      var x;
      FreshNeed(d, e, inum, off);
      ok, addrs', x := BlockFor(inum, addrs, fbn);
      if ok {
        m := if |rest| < (fbn + 1) * BSIZE - off then |rest| else (fbn + 1) * BSIZE - off;
        PassNeed(off, m);
        CopyChunk(inum, addrs', off, x, rest[..m], d, e);
      }
    }

    // The copy of one pass, into block x; d and e are the disk and the addresses before the block was linked.
    method CopyChunk(inum: nat, addrs: Addrs, off: nat, x: nat, chunk: seq<Byte>, ghost d: Disk, ghost e: seq<Addrs>)
      requires inum < |dinodes| && Building(Eff(inum, addrs)) && off == |files[inum]| < MAXBYTES && Stores(d, e, files)
      requires AllExact(d, e, files)
      requires OnlyBlock(d, e, disk, Eff(inum, addrs), inum, BlockOf(off))
      requires x == Addr(disk, Eff(inum, addrs), inum, BlockOf(off))
      requires |chunk| > 0 && OffsetOf(off) + |chunk| <= BSIZE
      modifies this`disk, this`files
      ensures Building(Eff(inum, addrs)) && AllExact(disk, Eff(inum, addrs), files)
      ensures files == old(files)[inum := old(files)[inum] + chunk]
    {
      ghost var d1 := disk;
      disk := disk[x := Patch(disk[x], off - off / BSIZE * BSIZE, chunk)];
      AppendPass(sb, d, e, d1, Eff(inum, addrs), owner, disk, inum, files, chunk);
      files := files[inum := files[inum] + chunk];
    }

    // The state between calls.
    ghost predicate Built()
      reads this
    {
      && Building(Table(dinodes)) && AllExact(disk, Table(dinodes), files) && 1 <= freeinode
      && freeblock == sb.dataStart + Total(files)
      && (forall j :: 0 <= j < |dinodes| ==> Lean(dinodes[j].addrs, dinodes[j].size))
      && (forall j :: 0 <= j < |dinodes| ==> |files[j]| == dinodes[j].size)
      && (forall j :: 0 <= j < |dinodes| ==>
          if j == 0 || freeinode <= j then dinodes[j] == Dinode(0, 0, 0, NoAddrs()) else dinodes[j].typ != 0)
    }

    // Appends the bytes p to file inum. Fails exactly if the file gets too large or the image is full.
    method Iappend(inum: nat, p: seq<Byte>) returns (ok: bool)
      requires Built() && 1 <= inum < freeinode && inum < |dinodes|
      modifies this`disk, this`dinodes, this`freeblock, this`owner, this`files
      ensures ok ==> Built() && files == old(files)[inum := old(files)[inum] + p]
      ensures var f := old(files)[inum := old(files)[inum] + p];
              !ok ==> |f[inum]| > MAXBYTES || sb.dataStart + Total(f) > sb.size
    {
      var din := dinodes[inum];
      ghost var s := files[inum];
      assert Eff(inum, din.addrs) == Table(dinodes);
      TotalUpdate(files, inum, s + p);
      var addrs;
      ok, addrs := AppendAll(inum, din.addrs, din.size, p);
      if ok {
        ghost var e := Eff(inum, addrs);
        dinodes := dinodes[inum := din.(addrs := addrs, size := din.size + |p|)];
        assert Table(dinodes) == e;
      }
    }

    // The loop of iappend.
    method AppendAll(inum: nat, addrs0: Addrs, off0: nat, p: seq<Byte>) returns (ok: bool, addrs: Addrs)
      requires inum < |dinodes| && Building(Eff(inum, addrs0)) && AllExact(disk, Eff(inum, addrs0), files)
      requires off0 == |files[inum]| && Lean(addrs0, off0)
      modifies this`disk, this`freeblock, this`owner, this`files
      ensures ok ==> Building(Eff(inum, addrs)) && AllExact(disk, Eff(inum, addrs), files) && Lean(addrs, off0 + |p|)
      ensures ok ==> files == old(files)[inum := old(files)[inum] + p]
      ensures ok ==> freeblock + Need(off0) == old(freeblock) + Need(off0 + |p|)
      ensures !ok ==> off0 + |p| > MAXBYTES || old(freeblock) + Need(off0 + |p|) > sb.size + Need(off0)
    {
      var off, n := off0, 0;
      ok, addrs := true, addrs0;
      ghost var s := files[inum];
      assert s + p[..0] == s;
      while n < |p|
        invariant n <= |p| && off == off0 + n && ok && Building(Eff(inum, addrs))
        invariant AllExact(disk, Eff(inum, addrs), files) && Lean(addrs, off)
        invariant files == old(files)[inum := s + p[..n]] && freeblock + Need(off0) == old(freeblock) + Need(off)
      {
        var m;
        NeedMono(off + 1, off0 + |p|);
        ok, addrs, m := AppendSome(inum, addrs, off, p[n..]);
        if !ok {
          return;
        }
        NextPart(s, p, n, m);
        n, off := n + m, off + m;
      }
      assert p[..n] == p;
    }

    method Ialloc(typ: int) returns (inum: nat)
      requires Built() && freeinode < |dinodes| && typ != 0
      modifies this`dinodes, this`freeinode
      ensures Built() && inum == old(freeinode) && freeinode == inum + 1
    {
      ghost var t := Table(dinodes);
      inum := freeinode;
      freeinode := freeinode + 1;
      dinodes := dinodes[inum := Dinode(typ, 1, 0, NoAddrs())];
      assert Table(dinodes) == t;
    }

    // Reads a host file block by block into file inum.
    method CopyIn(inum: nat, data: seq<Byte>) returns (ok: bool)
      requires Built() && 1 <= inum < freeinode && inum < |dinodes| && files[inum] == []
      modifies this`disk, this`dinodes, this`freeblock, this`owner, this`files
      ensures ok ==> Built() && files == old(files)[inum := data]
      ensures !ok ==> |data| > MAXBYTES || sb.dataStart + Total(old(files)[inum := data]) > sb.size
    {
      var n := 0;
      ghost var before := files;
      assert data[..0] == [];
      while n < |data|
        invariant n <= |data| && Built() && files == before[inum := data[..n]]
      {
        var cc := if |data| - n < BSIZE then |data| - n else BSIZE;
        ok := CopyPart(inum, data, n, cc, before);
        if !ok {
          return;
        }
        n := n + cc;
      }
      assert data[..n] == data;
      return true;
    }

    // One pass of that loop, after the first n bytes.
    method CopyPart(inum: nat, data: seq<Byte>, n: nat, cc: nat, ghost before: seq<seq<Byte>>) returns (ok: bool)
      requires Built() && 1 <= inum < freeinode && inum < |dinodes| == |before| && n + cc <= |data|
      requires files == before[inum := data[..n]]
      modifies this`disk, this`dinodes, this`freeblock, this`owner, this`files
      ensures ok ==> Built() && files == before[inum := data[..n + cc]]
      ensures !ok ==> |data| > MAXBYTES || sb.dataStart + Total(before[inum := data]) > sb.size
    {
      FilesPart(before, inum, data, n, cc);
      PartTotal(before, inum, data, n + cc);
      ok := Iappend(inum, data[n..n + cc]);
    }

    // One command-line argument: a new inode, its directory entry, its contents.
    method AddFile(input: Input) returns (ok: bool)
      requires Built() && 2 <= freeinode < |dinodes| <= 65536 && |files[ROOTINO]| + DIRENT <= MAXBYTES
      modifies this`disk, this`dinodes, this`freeinode, this`freeblock, this`owner, this`files
      ensures ok ==> |input.name| <= DIRSIZ && Built() && freeinode == old(freeinode) + 1
      ensures |input.name| <= DIRSIZ ==>
                var i := old(freeinode);
                var f := old(files)[ROOTINO := old(files)[ROOTINO] + Dirent(i, input.name)][i := input.data];
                if ok then files == f else |input.data| > MAXBYTES || sb.dataStart + Total(f) > sb.size
    {
      if |input.name| > DIRSIZ {
        return false;
      }
      var inum := Ialloc(T_FILE);
      ghost var f := files[ROOTINO := files[ROOTINO] + Dirent(inum, input.name)];
      assert f[inum := []] == f;
      PartTotal(f, inum, input.data, 0);
      ok := Iappend(ROOTINO, Dirent(inum, input.name));
      if ok {
        ok := CopyIn(inum, input.data);
      }
    }

    constructor (fssize: nat)
      requires Layout(fssize).dataStart <= fssize < MAXUINT
      ensures Built() && sb == Layout(fssize) && freeinode == 1
      ensures files == seq(NINODES, _ => [])
    {
      sb, freeinode, freeblock := Layout(fssize), 1, Layout(fssize).dataStart;
      disk := seq(fssize, _ => ZeroBlock());
      dinodes := seq(NINODES, _ => Dinode(0, 0, 0, NoAddrs()));
      owner, files := map[], seq(NINODES, _ => []);
      new;
      TotalOfNone(files);
      forall i, k | 0 <= i < NINODES && 0 <= k < SLOTS ensures Ref(disk, Table(dinodes), i, k, NOCUT) == 0 {
      }
    }

    // The first bitmap block, with the first `used` bits set.
    method Balloc(used: nat) returns (ok: bool)
      requires sb.Valid() && |disk| == sb.size && sb.bmapstart < |disk|
      modifies this`disk
      ensures ok == (used < BPB)
      ensures ok ==> |disk| == sb.size && disk == old(disk)[sb.bmapstart := disk[sb.bmapstart]]
      ensures ok ==> FirstBits(disk[sb.bmapstart], used)
    {
      if used >= BPB {
        return false;
      }
      var buf: Block := ZeroBlock();
      forall x | 0 <= x < BPB ensures !Bit(buf, x) {
        NoBit(x % 8);
      }
      var i := 0;
      while i < used
        invariant i <= used && FirstBits(buf, i)
      {
        ghost var before := buf;
        var byte: Byte := WithBit(buf[i / 8], i % 8, 8);
        buf := buf[i / 8 := byte];
        forall x | 0 <= x < BPB ensures Bit(buf, x) <==> x == i || Bit(before, x) {
        }
        i := i + 1;
      }
      disk := disk[sb.bmapstart := buf];
      return true;
    }

    method MakeRoot() returns (ok: bool)
      requires Built() && |dinodes| == NINODES && freeinode == 1 && files == seq(NINODES, _ => [])
      modifies this`disk, this`dinodes, this`freeinode, this`freeblock, this`owner, this`files
      ensures ok ==> Built() && freeinode == 2 && files == Files([])
      ensures !ok ==> sb.dataStart + Need(2 * DIRENT) > sb.size
    {
      ghost var before := files;
      var rootino := Ialloc(T_DIR);
      ok := AddDot([DOT], [], before);
      if ok {
        ok := AddDot([DOT, DOT], [] + Dirent(ROOTINO, [DOT]), before);
        if ok {
          FirstFiles(files);
        }
      }
    }

    // An entry of the root directory for itself, after the bytes x.
    method AddDot(name: seq<Byte>, ghost x: seq<Byte>, ghost before: seq<seq<Byte>>) returns (ok: bool)
      requires Built() && |dinodes| == NINODES && freeinode == 2 && |name| <= DIRSIZ && |x| <= DIRENT
      requires before == seq(NINODES, _ => []) && files == before[ROOTINO := x]
      modifies this`disk, this`dinodes, this`freeblock, this`owner, this`files
      ensures ok ==> Built() && files == before[ROOTINO := x][ROOTINO := x + Dirent(ROOTINO, name)]
      ensures !ok ==> sb.dataStart + Need(2 * DIRENT) > sb.size
    {
      ghost var y := x + Dirent(ROOTINO, name);
      RootTotal(before, y);
      assert before[ROOTINO := x][ROOTINO := y] == before[ROOTINO := y];
      ok := Iappend(ROOTINO, Dirent(ROOTINO, name));
    }

    // The root directory, and then every argument.
    method Populate(inputs: seq<Input>) returns (ok: bool)
      requires Built() && |dinodes| == NINODES && freeinode == 1 && |inputs| + 2 <= NINODES
      requires files == seq(NINODES, _ => [])
      modifies this`disk, this`dinodes, this`freeinode, this`freeblock, this`owner, this`files
      ensures ok ==> Built() && ROOTINO < freeinode && NamesFit(inputs) && files == Files(inputs)
      ensures !ok ==> !NamesFit(inputs) || !DataFits(inputs) || sb.dataStart + TotalFor(inputs) > sb.size
    {
      TotalForMono(inputs, 0);
      ok := MakeRoot();
      if !ok {
        return;
      }
      var i := 0;
      assert inputs[..0] == [];
      while i < |inputs|
        invariant i <= |inputs| && Built() && |dinodes| == NINODES && freeinode == i + 2 && NamesFit(inputs[..i])
        invariant files == Files(inputs[..i])
      {
        ok := AddInput(inputs, i);
        if !ok {
          return;
        }
        i := i + 1;
      }
      assert inputs[..i] == inputs;
      return true;
    }

    // One pass of that loop.
    method AddInput(inputs: seq<Input>, i: nat) returns (ok: bool)
      requires i < |inputs| && |inputs| + 2 <= NINODES && Built() && |dinodes| == NINODES && freeinode == i + 2
      requires NamesFit(inputs[..i]) && files == Files(inputs[..i])
      modifies this`disk, this`dinodes, this`freeinode, this`freeblock, this`owner, this`files
      ensures ok ==> Built() && freeinode == i + 3 && NamesFit(inputs[..i + 1]) && files == Files(inputs[..i + 1])
      ensures !ok ==> !NamesFit(inputs) || !DataFits(inputs) || sb.dataStart + TotalFor(inputs) > sb.size
    {
      if |inputs[i].name| <= DIRSIZ {
        NextFiles(inputs, i);
        FilesTotal(inputs[..i + 1]);
        TotalForMono(inputs, i + 1);
      }
      ok := AddFile(inputs[i]);
    }

    // What has been used when all files are in place.
    lemma Used(inputs: seq<Input>)
      requires Built() && |inputs| + 2 <= NINODES && NamesFit(inputs) && files == Files(inputs)
      ensures freeblock == sb.dataStart + TotalFor(inputs) <= sb.size && DataFits(inputs)
    {
      FilesTotal(inputs);
      forall k | 0 <= k < |inputs| ensures |inputs[k].data| <= MAXBYTES {
        assert files[k + 2] == inputs[k].data && NoHoles(disk, Table(dinodes), k + 2, |files[k + 2]|);
      }
      if freeblock > sb.dataStart {
        assert freeblock - 1 in owner;
      }
    }

    /** Rounds the size of the root directory and writes the bitmap. */
    method Finish() returns (ok: bool)
      requires Built() && ROOTINO < freeinode && ROOTINO < |dinodes|
      modifies this`disk, this`dinodes
      ensures ok == (freeblock < BPB) && (ok ==> Ready(sb, disk, dinodes, owner, files))
    {
      ghost var d, before := disk, dinodes;
      dinodes := dinodes[ROOTINO := dinodes[ROOTINO].(size := Rounded(dinodes[ROOTINO].size))];
      ok := Balloc(freeblock);
      if ok {
        BitmapWritten(sb, d, owner, freeblock, disk[sb.bmapstart]);
        assert Table(dinodes) == Table(before);
        Finished(sb, d, disk, before, dinodes, owner, files);
      }
    }
  }

  // ---- What a run achieves ----

  ghost predicate NamesFit(inputs: seq<Input>) {
    forall k :: 0 <= k < |inputs| ==> |inputs[k].name| <= DIRSIZ
  }

  ghost predicate DataFits(inputs: seq<Input>) {
    forall k :: 0 <= k < |inputs| ==> |inputs[k].data| <= MAXBYTES
  }

  lemma {:induction false} FilesTotal(inputs: seq<Input>)
    requires |inputs| + 2 <= NINODES && NamesFit(inputs)
    ensures Total(Files(inputs)) == TotalFor(inputs)
    decreases |inputs|
  {
    if inputs == [] {
      var none: seq<seq<Byte>> := seq(NINODES, _ => []);
      assert Files([]) == none[ROOTINO := Root([])];
      TotalOfNone(none);
      TotalUpdate(none, ROOTINO, Root([]));
    } else {
      var n := |inputs| - 1;
      var f := Files(inputs[..n]);
      var g := f[ROOTINO := f[ROOTINO] + Dirent(n + 2, inputs[n].name)];
      assert inputs[..n + 1] == inputs;
      NextFiles(inputs, n);
      FilesTotal(inputs[..n]);
      TotalUpdate(f, ROOTINO, g[ROOTINO]);
      TotalUpdate(g, n + 2, inputs[n].data);
    }
  }

  /** The files of the image: the root directory is inode 1, input k is inode k + 2. */
  ghost function Files(inputs: seq<Input>): (f: seq<seq<Byte>>)
    requires |inputs| + 2 <= NINODES && NamesFit(inputs)
    ensures |f| == NINODES && f[ROOTINO] == Root(inputs)
  {
    seq(NINODES, i requires 0 <= i < NINODES =>
      if i == ROOTINO then Root(inputs) else if 2 <= i < |inputs| + 2 then inputs[i - 2].data else [])
  }

  // The root directory filled up with zeros to a block boundary.
  ghost function Padded(files: seq<seq<Byte>>): (f: seq<seq<Byte>>)
    requires ROOTINO < |files|
  {
    var n := |files[ROOTINO]|;
    files[ROOTINO := files[ROOTINO] + Zeros(Rounded(n) - n)]
  }

  // Writing metadata blocks changes no reference and no data.
  lemma MetaKeeps(sb: Super, d: Disk, d': Disk, eff: seq<Addrs>, owner: map<int, Slot>)
    requires RefsOwned(sb, d, eff, owner, NOCUT) && |d'| == |d| && forall b :: sb.IsData(b) ==> d'[b] == d[b]
    ensures RefsOwned(sb, d', eff, owner, NOCUT) && Keeps(d, eff, d', eff)
    ensures forall i, k :: 0 <= i < |eff| && 0 <= k < SLOTS ==> Ref(d', eff, i, k, NOCUT) == Ref(d, eff, i, k, NOCUT)
  {
    SameRefs(sb, d, d', eff, owner, NOCUT);
  }

  lemma SameHoles(d: Disk, d': Disk, eff: seq<Addrs>, i: nat, n: nat)
    requires TableOk(d, eff) && TableOk(d', eff) && |d'| == |d| && i < |eff| && !NoHoles(d, eff, i, n)
    requires forall k :: 0 <= k < SLOTS ==> Ref(d', eff, i, k, NOCUT) == Ref(d, eff, i, k, NOCUT)
    ensures !NoHoles(d', eff, i, n)
  {
    if n <= MAXBYTES {
      var bn :| 0 <= bn < MAXFILE && bn * BSIZE < n && !(0 < Addr(d, eff, i, bn) < |d|);
      assert Addr(d', eff, i, bn) == Ref(d', eff, i, SlotOf(bn), NOCUT);
    }
  }

  /** What a finished image is, for the files as appended: ownership and bitmap agree, and it meets the invariant
      of the running system if the root directory does not end on a block boundary, and cannot meet it if it does. */
  ghost predicate Ready(sb: Super, disk: Disk, dinodes: seq<Dinode>, owner: map<int, Slot>, files: seq<seq<Byte>>) {
    && sb.Valid() && |disk| == sb.size && ROOTINO < |files|
    && RefsOwned(sb, disk, Table(dinodes), owner, NOCUT) && BitsMatch(sb, disk, owner)
    && if |files[ROOTINO]| % BSIZE != 0 then Consistent(sb, disk, dinodes, owner, Padded(files))
       else HasHole(disk, dinodes, |files[ROOTINO]|) && forall o, f :: !Consistent(sb, disk, dinodes, o, f)
  }

  // The root directory is one block longer than its n bytes, and that block is missing.
  ghost predicate HasHole(disk: Disk, dinodes: seq<Dinode>, n: nat) {
    && ROOTINO < |dinodes| && dinodes[ROOTINO].size == n + BSIZE && TableOk(disk, Table(dinodes))
    && (n < MAXBYTES ==> MissingAt(disk, Table(dinodes), ROOTINO, n))
  }

  // The last steps of a run: only metadata blocks are written, and the root directory gets its rounded size.
  ghost predicate Finishing(sb: Super, d: Disk, d': Disk, dinodes: seq<Dinode>, dinodes': seq<Dinode>,
                            owner: map<int, Slot>, files: seq<seq<Byte>>) {
    && RefsOwned(sb, d, Table(dinodes), owner, NOCUT) && Stores(d, Table(dinodes), files)
    && AllExact(d, Table(dinodes), files)
    && (forall j :: 0 <= j < |dinodes| ==> |files[j]| == dinodes[j].size)
    && (forall j :: 0 <= j < |dinodes| && dinodes[j].typ == 0 ==> dinodes[j] == Dinode(0, 0, 0, NoAddrs()))
    && ROOTINO < |dinodes| && dinodes[ROOTINO].typ != 0 && Table(dinodes') == Table(dinodes)
    && dinodes' == dinodes[ROOTINO := dinodes[ROOTINO].(size := Rounded(dinodes[ROOTINO].size))]
    && |d'| == |d| && (forall b :: sb.IsData(b) ==> d'[b] == d[b]) && BitsMatch(sb, d', owner)
  }

  lemma PaddedStores(sb: Super, d: Disk, d': Disk, eff: seq<Addrs>, owner: map<int, Slot>, files: seq<seq<Byte>>)
    requires RefsOwned(sb, d, eff, owner, NOCUT) && Stores(d, eff, files) && AllExact(d, eff, files)
    requires |d'| == |d| && (forall b :: sb.IsData(b) ==> d'[b] == d[b]) && ROOTINO < |files|
    requires |files[ROOTINO]| % BSIZE != 0
    ensures RefsOwned(sb, d', eff, owner, NOCUT) && Stores(d', eff, Padded(files))
  {
    RoundedHoles(d, eff, files, ROOTINO);
    MetaKeeps(sb, d, d', eff, owner);
    KeepsStores(d, eff, d', eff, Padded(files));
  }

  lemma PaddedSizes(files: seq<seq<Byte>>, dinodes: seq<Dinode>, dinodes': seq<Dinode>)
    requires ROOTINO < |dinodes| == |files| && forall j :: 0 <= j < |dinodes| ==> |files[j]| == dinodes[j].size
    requires dinodes' == dinodes[ROOTINO := dinodes[ROOTINO].(size := Rounded(dinodes[ROOTINO].size))]
    ensures forall j :: 0 <= j < |dinodes'| ==> |Padded(files)[j]| == dinodes'[j].size
  {
    assert Rounded(|files[ROOTINO]|) >= |files[ROOTINO]|;
  }

  lemma FinishedPadded(sb: Super, d: Disk, d': Disk, dinodes: seq<Dinode>, dinodes': seq<Dinode>, owner: map<int, Slot>,
                       files: seq<seq<Byte>>)
    requires Finishing(sb, d, d', dinodes, dinodes', owner, files) && |files[ROOTINO]| % BSIZE != 0
    ensures Consistent(sb, d', dinodes', owner, Padded(files))
  {
    PaddedStores(sb, d, d', Table(dinodes), owner, files);
    PaddedSizes(files, dinodes, dinodes');
  }

  lemma FinishedHole(sb: Super, d: Disk, d': Disk, dinodes: seq<Dinode>, dinodes': seq<Dinode>, owner: map<int, Slot>,
                     files: seq<seq<Byte>>, o: map<int, Slot>, f: seq<seq<Byte>>)
    requires Finishing(sb, d, d', dinodes, dinodes', owner, files) && |files[ROOTINO]| % BSIZE == 0
    ensures !Consistent(sb, d', dinodes', o, f)
  {
    RoundedHoles(d, Table(dinodes), files, ROOTINO);
    MetaKeeps(sb, d, d', Table(dinodes), owner);
    SameHoles(d, d', Table(dinodes), ROOTINO, dinodes'[ROOTINO].size);
    HoleIsInconsistent(sb, d', dinodes', o, f, ROOTINO);
  }

  lemma FinishedMissing(sb: Super, d: Disk, d': Disk, dinodes: seq<Dinode>, dinodes': seq<Dinode>,
                        owner: map<int, Slot>, files: seq<seq<Byte>>)
    requires Finishing(sb, d, d', dinodes, dinodes', owner, files) && |files[ROOTINO]| % BSIZE == 0
    ensures HasHole(d', dinodes', |files[ROOTINO]|)
  {
    var n, t := |files[ROOTINO]|, Table(dinodes);
    MetaKeeps(sb, d, d', t, owner);
    assert Exact(d, t, ROOTINO, n);
    if n < MAXBYTES {
      assert n <= BlockOf(n) * BSIZE;
      assert Ref(d', t, ROOTINO, SlotOf(BlockOf(n)), NOCUT) == Addr(d, t, ROOTINO, BlockOf(n));
    }
  }

  lemma Finished(sb: Super, d: Disk, d': Disk, dinodes: seq<Dinode>, dinodes': seq<Dinode>, owner: map<int, Slot>,
                 files: seq<seq<Byte>>)
    requires Finishing(sb, d, d', dinodes, dinodes', owner, files)
    ensures Ready(sb, d', dinodes', owner, files)
  {
    MetaKeeps(sb, d, d', Table(dinodes), owner);
    if |files[ROOTINO]| % BSIZE != 0 {
      FinishedPadded(sb, d, d', dinodes, dinodes', owner, files);
    } else {
      FinishedMissing(sb, d, d', dinodes, dinodes', owner, files);
      forall o, f ensures !Consistent(sb, d', dinodes', o, f) {
        FinishedHole(sb, d, d', dinodes, dinodes', owner, files, o, f);
      }
    }
  }

  lemma RootTotal(files: seq<seq<Byte>>, x: seq<Byte>)
    requires files == seq(NINODES, _ => []) && |x| <= 2 * DIRENT
    ensures Total(files[ROOTINO := x]) <= Need(2 * DIRENT)
  {
    TotalOfNone(files);
    TotalUpdate(files, ROOTINO, x);
    NeedMono(|x|, 2 * DIRENT);
  }

  lemma FirstFiles(files: seq<seq<Byte>>)
    requires files == seq(NINODES, _ => [])[ROOTINO := [] + Dirent(ROOTINO, [DOT])]
                      [ROOTINO := [] + Dirent(ROOTINO, [DOT]) + Dirent(ROOTINO, [DOT, DOT])]
    ensures files == Files([])
  {
    var r := Dirent(ROOTINO, [DOT]) + Dirent(ROOTINO, [DOT, DOT]);
    assert [] + Dirent(ROOTINO, [DOT]) + Dirent(ROOTINO, [DOT, DOT]) == r == Root([]);
  }

  lemma FirstOfFirst(inputs: seq<Input>, i: nat)
    requires i < |inputs|
    ensures inputs[..i + 1][..i] == inputs[..i] && inputs[..i + 1][i] == inputs[i]
  {
  }

  lemma NextFiles(inputs: seq<Input>, i: nat)
    requires i < |inputs| && |inputs| + 2 <= NINODES && NamesFit(inputs[..i]) && |inputs[i].name| <= DIRSIZ
    ensures NamesFit(inputs[..i + 1])
    ensures var f := Files(inputs[..i]);
            f[ROOTINO := f[ROOTINO] + Dirent(i + 2, inputs[i].name)][i + 2 := inputs[i].data] == Files(inputs[..i + 1])
  {
    var a := inputs[..i + 1];
    FirstOfFirst(inputs, i);
    assert Root(a) == Root(inputs[..i]) + Dirent(i + 2, inputs[i].name);
  }

  lemma RootSize(n: nat)
    ensures DIRENT * n % BSIZE == 0 <==> n % 64 == 0
  {
    assert DIRENT * n == BSIZE * (n / 64) + DIRENT * (n % 64);
  }

  /** A run succeeds exactly if all names and files fit, the blocks needed are there, and the one bitmap block covers
      them. Then the image's bitmap and references agree. It is one that the kernel's invariant accepts exactly when the
      number of root entries is not a multiple of 64. */
  method MakeImage(fssize: nat, inputs: seq<Input>) returns (ok: bool, img: Image)
    requires Layout(fssize).dataStart <= fssize < MAXUINT && |inputs| + 2 <= NINODES
    ensures img.sb == Layout(fssize)
    ensures var used := Layout(fssize).dataStart + TotalFor(inputs);
            ok <==> NamesFit(inputs) && DataFits(inputs) && used <= fssize && used < BPB
    ensures ok ==> NamesFit(inputs) && img.sb.Valid() && |img.disk| == fssize
    ensures ok ==>
            RefsOwned(img.sb, img.disk, Table(img.dinodes), img.owner, NOCUT) && BitsMatch(img.sb, img.disk, img.owner)
    ensures ok && (|inputs| + 2) % 64 != 0 ==>
            Consistent(img.sb, img.disk, img.dinodes, img.owner, Padded(Files(inputs)))
    ensures ok && (|inputs| + 2) % 64 == 0 ==> forall o, f :: !Consistent(img.sb, img.disk, img.dinodes, o, f)
    ensures ok && (|inputs| + 2) % 64 == 0 ==> HasHole(img.disk, img.dinodes, DIRENT * (|inputs| + 2))
    ensures ok ==> var first := Layout(fssize).dataStart;
                   forall b :: b in img.owner <==> first <= b < first + TotalFor(inputs)
  {
    img := new Image(fssize);
    ok := img.Populate(inputs);
    if ok {
      RootSize(|inputs| + 2);
      assert |img.files[ROOTINO]| == DIRENT * (|inputs| + 2);
      img.Used(inputs);
      ok := img.Finish();
    }
  }

  // ---- The images that the kernel's invariant refuses ----

  const EMPTY := Input([97], [])

  lemma {:induction false} NoData(inputs: seq<Input>)
    requires forall k :: 0 <= k < |inputs| ==> inputs[k] == EMPTY
    ensures NamesFit(inputs) && DataFits(inputs) && DataTotal(inputs) == 0
  {
    if inputs != [] {
      NoData(inputs[..|inputs| - 1]);
    }
  }

  /** 64 root entries per block, of files without data: mkfs succeeds on an image of the usual size, and no owner map
      and no contents make the result consistent. */
  method FullRoot(blocks: nat) returns (ok: bool, img: Image)
    requires 1 <= blocks <= 3
    ensures ok && img.sb == Layout(2000) && img.sb.Valid() && |img.disk| == 2000
    ensures forall o, f :: !Consistent(img.sb, img.disk, img.dinodes, o, f)
    ensures RefsOwned(img.sb, img.disk, Table(img.dinodes), img.owner, NOCUT)
    ensures BitsMatch(img.sb, img.disk, img.owner) && 1999 !in img.owner
    ensures HasHole(img.disk, img.dinodes, BSIZE * blocks)
  {
    var inputs := seq(64 * blocks - 2, _ => EMPTY);
    NoData(inputs);
    ok, img := MakeImage(2000, inputs);
    assert DIRENT * (|inputs| + 2) == BSIZE * blocks;
  }

  /** On such an image, reading the root directory logs blocks, although fileread reads outside any transaction. */
  method ReadFullRoot(blocks: nat) returns (fs: FileSystem, r: seq<Byte>)
    requires 1 <= blocks <= 3
    ensures fs.logged != {}
  {
    var ok, img := FullRoot(blocks);
    fs := new FileSystem(img.sb, img.disk, img.dinodes, img.owner, []);
    var root := img.dinodes[ROOTINO];
    var ip := new Inode(ROOTINO, root);
    assert !BitSet(fs.sb, fs.disk, 1999);
    assert fs.Eff(ip) == Table(img.dinodes);
    assert MissingAt(fs.disk, fs.Eff(ip), ROOTINO, BSIZE * blocks);
    ok, r := fs.Readi(ip, 0, root.size, root.size);
  }

  /** An image that mkfs makes is a valid state for the kernel to start in, if the number of root entries is not a
      multiple of 64. */
  method Boot(fssize: nat, inputs: seq<Input>) returns (ok: bool, fs: FileSystem)
    requires Layout(fssize).dataStart <= fssize < MAXUINT && |inputs| + 2 <= NINODES
    ensures ok && (|inputs| + 2) % 64 != 0 ==> NamesFit(inputs) && fs.Valid() && fs.files == Padded(Files(inputs))
  {
    var img;
    ok, img := MakeImage(fssize, inputs);
    ghost var files := if ok then Padded(Files(inputs)) else [];
    fs := new FileSystem(img.sb, img.disk, img.dinodes, img.owner, files);
  }
}

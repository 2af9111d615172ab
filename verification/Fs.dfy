/**
 The inode layer of platform/visionfive2/kernel/fs.c: the block allocator, the direct and indirect block
 map, truncation, and reading and writing inode contents.
 */
module Fs {
  import opened FsLayout
  import opened FsOwnership
  import opened FsFiles
  import LogLayout

  datatype Dinode = Dinode(typ: int, nlink: int, size: nat, addrs: Addrs)

  ghost function Table(dinodes: seq<Dinode>): (t: seq<Addrs>)
    ensures |t| == |dinodes|
  {
    seq(|dinodes|, i requires 0 <= i < |dinodes| => dinodes[i].addrs)
  }

  function NoAddrs(): (a: Addrs)
    ensures |a| == NDIRECT + 1 && forall k :: 0 <= k <= NDIRECT ==> a[k] == 0
  {
    seq(NDIRECT + 1, _ => 0)
  }

  /** The invariant between operations: every block has one owner, the bitmap agrees, the inodes store the files
      without holes, and a free inode refers to nothing. */
  ghost predicate Consistent(sb: Super, disk: Disk, dinodes: seq<Dinode>, owner: map<int, Slot>,
                             files: seq<seq<Byte>>) {
    && sb.Valid() && |disk| == sb.size && |dinodes| == sb.ninodes
    && RefsOwned(sb, disk, Table(dinodes), owner, NOCUT) && BitsMatch(sb, disk, owner)
    && Stores(disk, Table(dinodes), files) && (forall j :: 0 <= j < |dinodes| ==> |files[j]| == dinodes[j].size)
    && (forall j :: 0 <= j < |dinodes| && dinodes[j].typ == 0 ==> dinodes[j].addrs == NoAddrs() && dinodes[j].size == 0)
  }

  // Block b is part of the free bitmap.
  ghost predicate IsBitmap(sb: Super, b: int) {
    sb.bmapstart <= b < sb.bmapstart + (sb.size + BPB - 1) / BPB
  }

  lemma BitOffset(b: nat, bi: nat)
    requires b % BPB == 0 && bi < BPB
    ensures (b + bi) / BPB == b / BPB && (b + bi) % BPB == bi && (b + bi) % 8 == bi % 8
  {
    var q := b / BPB;
    assert b == 8 * (1024 * q);
  }

  ghost predicate DiskFull(sb: Super, d: Disk)
    requires sb.Valid() && |d| == sb.size
  {
    forall b :: 0 <= b < sb.size ==> BitSet(sb, d, b)
  }

  // Blocks were looked up, and some were missing or not: if so and the disk was not full something is logged,
  // otherwise nothing has changed.
  ghost predicate Effect(sb: Super, d: Disk, a: Addrs, l: set<int>, d': Disk, a': Addrs, l': set<int>, missing: bool)
    requires sb.Valid() && |d| == sb.size
  {
    l <= l' && if missing && !DiskFull(sb, d) then l' != {} else d' == d && a' == a && l' == l
  }

  lemma EffectTrans(sb: Super, d: Disk, a: Addrs, l: set<int>, d1: Disk, a1: Addrs, l1: set<int>,
                    d2: Disk, a2: Addrs, l2: set<int>, missing1: bool, missing2: bool)
    requires sb.Valid() && |d| == |d1| == sb.size
    requires Effect(sb, d, a, l, d1, a1, l1, missing1) && Effect(sb, d1, a1, l1, d2, a2, l2, missing2)
    ensures Effect(sb, d, a, l, d2, a2, l2, missing1 || missing2)
  {
    if l2 == {} {
      assert l1 == {};
    }
  }

  // The bytes that a read of n bytes at off can give.
  function ReadLen(size: nat, off: nat, n: nat): nat {
    if off > size || off + n >= MAXUINT then 0 else if off + n < size then n else size - off
  }

  // n bytes of s from off on, if there are that many.
  ghost function Section(s: seq<Byte>, off: nat, n: nat): seq<Byte> {
    if off + n <= |s| then s[off..off + n] else []
  }

  // The bytes whose blocks are looked up: readi stops at the first block that does not fit into the destination.
  function Reach(n: nat, good: nat): nat { if good < n then good + 1 else n }

  // One pass of a read, after tot bytes: where it ends, and what is missing by then.
  lemma PassMissing(d: Disk, eff: seq<Addrs>, i: nat, off: nat, n: nat, good: nat, tot: nat)
    requires TableOk(d, eff) && i < |eff| && tot < n && tot <= good && off + n <= MAXBYTES
    ensures var m, here := Pass(off + tot, n - tot), Missing(d, eff, i, off, tot) || MissingAt(d, eff, i, off + tot);
            && 0 < m <= n - tot && (m < n - tot ==> BlockOf(off + (tot + m)) == BlockOf(off + tot) + 1)
            && (Missing(d, eff, i, off, tot + m) <==> here)
            && (tot + m > good ==> good < n && (Missing(d, eff, i, off, Reach(n, good)) <==> here))
            && (MissingAt(d, eff, i, off + tot) ==> Missing(d, eff, i, off, Reach(n, good)))
  {
    var m := Pass(off + tot, n - tot);
    NextBlock(off + tot, n - tot);
    assert off + tot + m == off + (tot + m);
    MissingMore(d, eff, i, off, tot, m);
    if tot + m > good {
      MissingMore(d, eff, i, off, tot, Reach(n, good) - tot);
    }
  }

  // What a write logs besides the inode and the indirect block: data blocks and bitmap blocks.
  datatype Cost = Cost(data: set<int>, bits: set<int>) {
    ghost predicate Within(sb: Super, blocks: nat, news: nat) {
      |data| <= blocks && |bits| <= news && forall x :: x in bits ==> IsBitmap(sb, x)
    }
  }

  // The blocks that hold bytes off .. off + n - 1.
  ghost function BlockCount(off: nat, n: nat): nat {
    if n == 0 then 0 else BlockOf(off + n - 1) + 1 - BlockOf(off)
  }

  // Of these, the ones that may not exist yet when byte off is at most the size of the file.
  ghost function NewCount(off: nat, n: nat): nat {
    if n == 0 || OffsetOf(off) == 0 then BlockCount(off, n) else BlockCount(off, n) - 1
  }

  // A pass that starts at off or at a block boundary, and stays within one block.
  lemma CountPass(off: nat, tot: nat, m: nat)
    requires m > 0 && OffsetOf(off + tot) + m <= BSIZE && (tot > 0 ==> OffsetOf(off + tot) == 0)
    ensures BlockCount(off, tot + m) == BlockCount(off, tot) + 1
    ensures NewCount(off, tot + m) == NewCount(off, tot) + if OffsetOf(off + tot) != 0 then 0 else 1
  {
    var q := off + tot;
    assert BlockOf(q + m - 1) == BlockOf(q) by { SameBlock(q + m - 1, q); }
    if tot > 0 {
      assert q == BSIZE * BlockOf(q) && q - 1 == BSIZE * (BlockOf(q) - 1) + (BSIZE - 1);
    }
  }

  lemma BlockEnd(q: nat, m: nat)
    requires m == BSIZE - OffsetOf(q)
    ensures OffsetOf(q + m) == 0
  {
    assert q + m == BSIZE * (BlockOf(q) + 1);
  }

  // The bytes of one pass: to the end of the block, at most n.
  function Pass(q: nat, n: nat): nat { if n < BSIZE - OffsetOf(q) then n else BSIZE - OffsetOf(q) }

  lemma NextBlock(q: nat, n: nat)
    requires n > 0
    ensures Pass(q, n) < n ==> BlockOf(q + Pass(q, n)) == BlockOf(q) + 1
  {
    assert q == BSIZE * BlockOf(q) + OffsetOf(q);
  }

  // The bytes that one pass of the writei loop takes from the n bytes of data, tot of them done: up to the end
  // of the block, or none.
  ghost predicate PassTakes(off: nat, n: nat, tot: nat, m: nat) {
    && tot + m <= n && OffsetOf(off + tot) + m <= BSIZE
    && (m == 0 || tot + m == n || OffsetOf(off + tot) + m == BSIZE)
  }

  // The log grew from `before` to `after` by writing tot of n bytes at off; ind is what the indirect block
  // costs. Between passes the position is at a block boundary.
  ghost predicate Charged(sb: Super, before: set<int>, after: set<int>, ind: set<int>, c: Cost, off: nat, n: nat,
                          tot: nat) {
    && after <= before + ind + c.data + c.bits && c.Within(sb, BlockCount(off, tot), NewCount(off, tot))
    && (0 < tot < n ==> OffsetOf(off + tot) == 0)
  }

  // The counts after a pass, and where it ends.
  lemma PassCounts(off: nat, n: nat, tot: nat, m: nat)
    requires PassTakes(off, n, tot, m) && (0 < tot < n ==> OffsetOf(off + tot) == 0) && tot < n
    ensures BlockCount(off, tot + m) == BlockCount(off, tot) + if m == 0 then 0 else 1
    ensures NewCount(off, tot + m) == NewCount(off, tot) + if m == 0 || OffsetOf(off + tot) != 0 then 0 else 1
    ensures 0 < tot + m < n ==> OffsetOf(off + (tot + m)) == 0
  {
    if m != 0 {
      CountPass(off, tot, m);
      if tot + m < n {
        BlockEnd(off + tot, m);
      }
    }
  }

  lemma CostSum(sb: Super, c: Cost, c': Cost, x: nat, y: nat, x': nat, y': nat)
    requires c.Within(sb, x, y) && c'.Within(sb, x', y')
    ensures Cost(c.data + c'.data, c.bits + c'.bits).Within(sb, x + x', y + y')
  {
  }

  lemma ChargePass(sb: Super, before: set<int>, mid: set<int>, ind: set<int>, c: Cost, after: set<int>, ind': set<int>,
                   c': Cost, off: nat, n: nat, tot: nat, m: nat)
    requires Charged(sb, before, mid, ind, c, off, n, tot) && tot < n && ind <= ind' && PassTakes(off, n, tot, m)
    requires after <= mid + ind' + c'.data + c'.bits
    requires c'.Within(sb, if m == 0 then 0 else 1, if m == 0 || OffsetOf(off + tot) != 0 then 0 else 1)
    ensures Charged(sb, before, after, ind', Cost(c.data + c'.data, c.bits + c'.bits), off, n, tot + m)
  {
    PassCounts(off, n, tot, m);
    CostSum(sb, c, c', BlockCount(off, tot), NewCount(off, tot), if m == 0 then 0 else 1,
            if m == 0 || OffsetOf(off + tot) != 0 then 0 else 1);
  }

  // The distinct blocks that writing n bytes at off logs: the inode, the indirect block, the data blocks,
  // and a bitmap block for the indirect block and each new data block, or all of them if that is less.
  ghost function LogBound(sb: Super, off: nat, n: nat): nat {
    var bitmap := (sb.size + BPB - 1) / BPB;
    2 + BlockCount(off, n) + if NewCount(off, n) + 1 < bitmap then NewCount(off, n) + 1 else bitmap
  }

  lemma {:induction false} IntervalSize(s: set<int>, lo: int, n: nat)
    requires forall x :: x in s ==> lo <= x < lo + n
    ensures |s| <= n
  {
    if n == 0 {
      assert forall x :: x in s ==> x in {};
    } else {
      IntervalSize(s - {lo + n - 1}, lo, n - 1);
    }
  }

  lemma CountGrows(off: nat, tot: nat, n: nat)
    requires tot <= n
    ensures BlockCount(off, tot) <= BlockCount(off, n) && NewCount(off, tot) <= NewCount(off, n)
  {
  }

  // The blocks of a charged write, and the inode block ib, stay within the bound.
  lemma ChargedBound(sb: Super, before: set<int>, after: set<int>, ind: set<int>, a: int, b: int, c: Cost, off: nat,
                     n: nat, tot: nat, ib: int)
    requires Charged(sb, before, after, ind, c, off, n, tot) && tot <= n && ind <= {a, b} && IsBitmap(sb, b)
    ensures |after + {ib} - before| <= LogBound(sb, off, n)
  {
    CountGrows(off, tot, n);
    var bits := c.bits + {b};
    IntervalSize(bits, sb.bmapstart, (sb.size + BPB - 1) / BPB);
    Within3({ib, a}, c.data, bits, after + {ib} - before);
  }

  lemma Within3(x: set<int>, y: set<int>, z: set<int>, s: set<int>)
    requires s <= x + y + z
    ensures |s| <= |x| + |y| + |z|
  {
    SubsetSize(s, x + y + z);
  }

  lemma {:induction false} SubsetSize(s: set<int>, t: set<int>)
    requires s <= t
    ensures |s| <= |t|
  {
    assert t == s + (t - s);
  }

  // C's unsigned addition.
  lemma UnsignedSum(x: nat, y: nat)
    requires x < MAXUINT && y < MAXUINT
    ensures (x + y) % MAXUINT < x <==> x + y >= MAXUINT
    ensures x + y < MAXUINT ==> (x + y) % MAXUINT == x + y
  {
    if x + y >= MAXUINT {
      assert (x + y) % MAXUINT == x + y - MAXUINT;
    }
  }

  // A chunk of at most three blocks' worth of bytes touches at most four blocks, of which at most three are new.
  ghost function ChunkBound(sb: Super): nat {
    var bitmap := (sb.size + BPB - 1) / BPB;
    6 + if bitmap < 4 then bitmap else 4
  }

  lemma ChunkFits(sb: Super, off: nat, n: nat)
    requires n <= 3 * BSIZE
    ensures LogBound(sb, off, n) <= ChunkBound(sb)
    ensures sb.size <= BPB ==> LogBound(sb, off, n) <= 7
    ensures sb.size <= 3 * BPB ==> LogBound(sb, off, n) < LogLayout.MAXOPBLOCKS
  {
  }

  /** The bound for all chunks is below MAXOPBLOCKS exactly if the bitmap has at most three blocks. */
  lemma BoundFitsIff(sb: Super)
    ensures (forall off: nat, n: nat :: n <= 3 * BSIZE ==> LogBound(sb, off, n) < LogLayout.MAXOPBLOCKS) <==>
            sb.size <= 3 * BPB
  {
    if sb.size <= 3 * BPB {
      forall off: nat, n: nat | n <= 3 * BSIZE ensures LogBound(sb, off, n) < LogLayout.MAXOPBLOCKS {
        ChunkFits(sb, off, n);
      }
    } else {
      assert LogBound(sb, 1, 3 * BSIZE) == 10;
    }
  }

  // The chunks of filewrite.
  const CHUNK := 3 * BSIZE

  function ChunkLen(total: nat, k: nat): nat
    requires k * CHUNK <= total
  {
    if total - k * CHUNK < CHUNK then total - k * CHUNK else CHUNK
  }

  // How many chunks of total bytes have been started when the first `done` are written and no more.
  function Started(done: nat, total: nat): nat {
    if done == total then (total + CHUNK - 1) / CHUNK else done / CHUNK + 1
  }

  // The transaction for chunk k logged no more than a write of these bytes may.
  ghost predicate ChunkLogs(sb: Super, logged: set<int>, off: nat, total: nat, k: nat) {
    && k * CHUNK <= total && |logged| <= LogBound(sb, off + k * CHUNK, ChunkLen(total, k))
    && |logged| <= ChunkBound(sb)
  }

  ghost predicate ChunksLog(sb: Super, chunks: seq<set<int>>, off: nat, total: nat) {
    forall k :: 0 <= k < |chunks| ==> ChunkLogs(sb, chunks[k], off, total, k)
  }

  // k chunks are complete, up to byte i.
  predicate AtChunk(i: nat, total: nat, k: nat) {
    i == (if k * CHUNK < total then k * CHUNK else total) && (k == 0 || (k - 1) * CHUNK < total)
  }

  // The transactions from t0 on are those of the chunks before byte i.
  ghost predicate LoggedTo(sb: Super, t0: seq<set<int>>, t: seq<set<int>>, chunks: seq<set<int>>, off: nat, total: nat,
                           i: nat) {
    t == t0 + chunks && AtChunk(i, total, |chunks|) && ChunksLog(sb, chunks, off, total)
  }

  lemma NextChunk(sb: Super, t0: seq<set<int>>, t: seq<set<int>>, chunks: seq<set<int>>, logged: set<int>,
                  off: nat, total: nat, i: nat, n: nat)
    requires LoggedTo(sb, t0, t, chunks, off, total, i) && i < total
    requires n == (if total - i > CHUNK then CHUNK else total - i)
    requires |logged| <= LogBound(sb, off + i, n)
    ensures LoggedTo(sb, t0, t + [logged], chunks + [logged], off, total, i + n)
  {
    ChunkFits(sb, off + i, n);
    assert ChunkLogs(sb, logged, off, total, |chunks|);
  }

  lemma StoppedAt(i: nat, n: nat, done: nat, total: nat, k: nat)
    requires k > 0 && AtChunk(i, total, k - 1) && i < total && i <= done < i + n <= total && n <= CHUNK
    ensures Started(done, total) == k
  {
  }

  lemma AllChunks(total: nat, k: nat)
    requires AtChunk(total, total, k)
    ensures Started(total, total) == k
  {
  }

  // The first `done` bytes of the data are written at off of file i, and nothing else is.
  ghost predicate WroteUpTo(before: seq<seq<Byte>>, after: seq<seq<Byte>>, i: nat, off: nat, data: seq<Byte>,
                            done: nat) {
    && i < |before| && done <= |data|
    && if done == 0 then after == before
       else off <= |before[i]| && after == before[i := Splice(before[i], off, data[..done])]
  }

  lemma WroteMore(files0: seq<seq<Byte>>, files1: seq<seq<Byte>>, files2: seq<seq<Byte>>, i: nat, off: nat,
                  data: seq<Byte>, done: nat, n: nat, w: nat)
    requires WroteUpTo(files0, files1, i, off, data, done) && w <= n && done + n <= |data| && off + done <= |files1[i]|
    requires files2 == files1[i := Splice(files1[i], off + done, data[done..done + n][..w])]
    ensures WroteUpTo(files0, files2, i, off, data, done + w) && |files2[i]| >= off + done + w
  {
    if w == 0 {
      assert Splice(files1[i], off + done, []) == files1[i];
    } else if done == 0 {
      assert data[0..n][..w] == data[..w];
    } else {
      SpliceTwice(files0[i], off, data, done, w);
      assert data[done..done + n][..w] == data[done..][..w];
    }
  }

  /** An in-memory inode, as ilock fills it. */
  class Inode {
    const inum: nat
    var typ: int
    var nlink: int
    var size: nat
    var addrs: Addrs

    constructor (inum: nat, di: Dinode)
      ensures this.inum == inum && typ == di.typ && nlink == di.nlink && size == di.size && addrs == di.addrs
    {
      this.inum, typ, nlink, size, addrs := inum, di.typ, di.nlink, di.size, di.addrs;
    }
  }

  /** An open file on an inode. */
  class File {
    const ip: Inode
    var off: nat

    constructor (ip: Inode)
      ensures this.ip == ip && off == 0
    {
      this.ip, off := ip, 0;
    }
  }

  class FileSystem {
    const sb: Super
    var disk: Disk
    var dinodes: seq<Dinode>       // the inode blocks, decoded
    ghost var owner: map<int, Slot>
    ghost var files: seq<seq<Byte>> // the contents of every inode
    ghost var logged: set<int>     // blocks passed to log_write
    ghost var txns: seq<set<int>>  // history: the blocks that each transaction of filewrite logged

    /** After boot: nothing is logged yet. The state is valid exactly if the image is consistent. */
    constructor (sb: Super, disk: Disk, dinodes: seq<Dinode>, ghost owner: map<int, Slot>,
                 ghost files: seq<seq<Byte>>)
      ensures this.sb == sb && this.disk == disk && this.dinodes == dinodes
      ensures this.owner == owner && this.files == files && logged == {} && txns == []
      ensures Valid() <==> Consistent(sb, disk, dinodes, owner, files)
    {
      this.sb, this.disk, this.dinodes := sb, disk, dinodes;
      this.owner, this.files, logged, txns := owner, files, {}, [];
    }

    ghost predicate Shape()
      reads this
    {
      sb.Valid() && |disk| == sb.size && |dinodes| == sb.ninodes
    }

    // ---- Blocks ----

    method Bzero(bno: nat)
      requires bno < |disk|
      modifies this`disk, this`logged
      ensures disk == old(disk)[bno := ZeroBlock()] && logged == old(logged) + {bno}
    {
      disk := disk[bno := ZeroBlock()];
      logged := logged + {bno};
    }

    // The inner loop of balloc: the first clear bit of the bitmap block for blocks b .. b + BPB - 1.
    method ScanBitmapBlock(b: nat) returns (bi: nat)
      requires Shape() && b % BPB == 0 && b < sb.size
      ensures bi <= BPB && b + bi <= sb.size
      ensures forall x :: b <= x < b + bi ==> BitSet(sb, disk, x)
      ensures bi < BPB && b + bi < sb.size ==> !BitSet(sb, disk, b + bi)
    {
      var data := disk[sb.BBlock(b)];
      bi := 0;
      while bi < BPB && b + bi < sb.size
        invariant bi <= BPB && b + bi <= sb.size && forall x :: b <= x < b + bi ==> BitSet(sb, disk, x)
      {
        BitOffset(b, bi);
        if !BitOf(data[bi / 8], bi % 8) {
          return;
        }
        bi := bi + 1;
      }
    }

    /** Takes the first free block, marks it used and zeroes it. Returns 0 when there is none; block 0 is
        metadata and never free. */
    method Balloc() returns (r: nat)
      requires Shape() && BitsMatch(sb, disk, owner)
      modifies this`disk, this`logged
      ensures (r == 0 <==> DiskFull(sb, old(disk))) && (r == 0 ==> disk == old(disk) && logged == old(logged))
      ensures r != 0 ==> sb.IsData(r) && r !in owner && (forall b :: 0 <= b < r ==> BitSet(sb, old(disk), b))
      ensures r != 0 ==> disk == Allocated(sb, old(disk), r) && logged == old(logged) + {sb.BBlock(r), r}
    {
      var b := 0;
      while b < sb.size
        invariant b % BPB == 0 && disk == old(disk) && logged == old(logged)
        invariant forall x :: 0 <= x < b && x < sb.size ==> BitSet(sb, disk, x)
      {
        var bi := ScanBitmapBlock(b);
        if bi < BPB && b + bi < sb.size {
          disk := MarkUsed(sb, disk, b + bi);
          logged := logged + {sb.BBlock(b + bi)};
          Bzero(b + bi);
          return b + bi;
        }
        b := b + BPB;
      }
      return 0;
    }

    /** Returns false where the C code panics with "freeing free block". */
    method Bfree(b: nat) returns (ok: bool)
      requires Shape() && b < sb.size
      modifies this`disk, this`logged
      ensures ok == BitSet(sb, old(disk), b)
      ensures disk == if ok then MarkFree(sb, old(disk), b) else old(disk)
      ensures logged <= old(logged) + {sb.BBlock(b)}
    {
      ok := BitOf(disk[sb.BBlock(b)][b % BPB / 8], b % 8);
      if ok {
        disk := MarkFree(sb, disk, b);
        logged := logged + {sb.BBlock(b)};
      }
    }

    // ---- Inodes ----

    // The addresses of all inodes, with ip's own copy for the inode it holds.
    ghost function Eff(ip: Inode): (e: seq<Addrs>)
      requires ip.inum < |dinodes|
      reads this, ip
    {
      Table(dinodes)[ip.inum := ip.addrs]
    }

    /** The ownership invariant while ip is locked. */
    ghost predicate Good(ip: Inode)
      reads this, ip
    {
      Shape() && ip.inum < |dinodes| && AddrsOk(disk, ip.addrs) &&
      RefsOwned(sb, disk, Eff(ip), owner, NOCUT) && BitsMatch(sb, disk, owner)
    }

    // The blocks that balloc logs when it returns addr.
    ghost function Logs(addr: nat): set<int> {
      if addr == 0 then {} else {addr as int, sb.BBlock(addr) as int}
    }

    // Only ip's addresses and the disk may change, nothing in use is lost, and the log gains only the given
    // blocks.
    twostate predicate Grew(ip: Inode, blocks: set<int>)
      requires old(Good(ip)) && Good(ip)
      reads this, ip
    {
      && Keeps(old(disk), old(Eff(ip)), disk, Eff(ip))
      && ip.size == old(ip.size) && ip.typ == old(ip.typ) && ip.nlink == old(ip.nlink) && dinodes == old(dinodes)
      && logged <= old(logged) + blocks && (old(ip.addrs[NDIRECT]) != 0 ==> ip.addrs[NDIRECT] == old(ip.addrs[NDIRECT]))
    }

    // What looking a block up has done.
    twostate predicate Asked(ip: Inode, missing: bool)
      requires old(Good(ip))
      reads this, ip
    {
      Effect(sb, old(disk), old(ip.addrs), old(logged), disk, ip.addrs, logged, missing)
    }

    // balloc into ip->addrs[k].
    method AllocAddrs(ip: Inode, k: nat) returns (addr: nat)
      requires Good(ip) && k <= NDIRECT && ip.addrs[k] == 0
      modifies this`disk, this`logged, this`owner, ip`addrs
      ensures Good(ip) && Grew(ip, Logs(addr)) && addr == ip.addrs[k] && Asked(ip, true)
      ensures addr == 0 ==> DiskFull(sb, disk)
      ensures OnlyAdds(old(disk), old(Eff(ip)), disk, Eff(ip), ip.inum, FileBlock(k))
      ensures addr != 0 ==> disk[addr] == ZeroBlock() && ip.addrs == SetAddr(old(ip.addrs), k, addr)
    {
      ghost var eff := Eff(ip);
      addr := Balloc();
      if addr != 0 {
        AllocAddr(sb, old(disk), eff, owner, ip.inum, k, addr);
        AllocAddrOnly(sb, old(disk), eff, owner, ip.inum, k, addr);
        ip.addrs := ip.addrs[k := addr];
        owner := owner[addr as int := Slot(ip.inum, k)];
        assert Eff(ip) == eff[ip.inum := SetAddr(eff[ip.inum], k, addr)];
      }
    }

    // balloc into entry j of ip's indirect block.
    method AllocIndirect(ip: Inode, j: nat) returns (addr: nat)
      requires Good(ip) && j < NINDIRECT && ip.addrs[NDIRECT] != 0 && Ref(disk, Eff(ip), ip.inum, 13 + j, NOCUT) == 0
      modifies this`disk, this`logged, this`owner
      ensures Good(ip) && Grew(ip, Logs(addr) + {ip.addrs[NDIRECT]}) && Asked(ip, true)
      ensures OnlyAdds(old(disk), old(Eff(ip)), disk, Eff(ip), ip.inum, NDIRECT + j)
      ensures addr == Ref(disk, Eff(ip), ip.inum, 13 + j, NOCUT)
      ensures addr == 0 ==> DiskFull(sb, disk)
      ensures addr != 0 ==> disk[addr] == ZeroBlock()
    {
      ghost var eff := Eff(ip);
      addr := Balloc();
      if addr != 0 {
        AllocEntry(sb, old(disk), eff, owner, ip.inum, j, addr);
        AllocEntryOnly(sb, old(disk), eff, owner, ip.inum, j, addr);
        var ind := ip.addrs[NDIRECT];
        disk := disk[ind := SetWord(disk[ind], j, addr)];
        logged := logged + {ind};
        owner := owner[addr as int := Slot(ip.inum, 13 + j)];
      }
    }

    // The indirect half of bmap.
    method BmapIndirect(ip: Inode, j: nat) returns (addr: nat)
      requires Good(ip) && j < NINDIRECT
      modifies this`disk, this`logged, this`owner, ip`addrs
      ensures Good(ip) && Grew(ip, Logs(addr) + Logs(ip.addrs[NDIRECT]))
      ensures addr == Ref(disk, Eff(ip), ip.inum, 13 + j, NOCUT)
      ensures addr == 0 ==> DiskFull(sb, disk)
      ensures var before := old(Ref(disk, Eff(ip), ip.inum, 13 + j, NOCUT));
              if before != 0 then disk == old(disk) && ip.addrs == old(ip.addrs) && logged == old(logged)
              else Asked(ip, true) && (addr != 0 ==> disk[addr] == ZeroBlock())
      ensures OnlyAdds(old(disk), old(Eff(ip)), disk, Eff(ip), ip.inum, NDIRECT + j)
    {
      if ip.addrs[NDIRECT] == 0 {
        var ind := AllocAddrs(ip, NDIRECT);
        if ind == 0 {
          return 0;
        }
        ZeroWords(j);
      }
      addr := WordAt(disk[ip.addrs[NDIRECT]], j);
      if addr == 0 {
        ghost var d, e := disk, Eff(ip);
        addr := AllocIndirect(ip, j);
        KeepsTrans(old(disk), old(Eff(ip)), d, e, disk, Eff(ip));
        OnlyAddsTrans(old(disk), old(Eff(ip)), d, e, disk, Eff(ip), ip.inum, MAXFILE, NDIRECT + j);
      }
    }

    /** Returns the disk block of file block bn, allocating it if there is none; 0 if the disk is full, and
        ok == false where the C code panics. */
    method Bmap(ip: Inode, bn: nat) returns (ok: bool, addr: nat)
      requires Good(ip)
      modifies this`disk, this`logged, this`owner, ip`addrs
      ensures Good(ip) && ok == (bn < MAXFILE) && Grew(ip, Logs(addr) + Logs(ip.addrs[NDIRECT]))
      ensures ok ==> addr == Addr(disk, Eff(ip), ip.inum, bn) && (addr == 0 ==> DiskFull(sb, disk))
      ensures if !ok || old(Addr(disk, Eff(ip), ip.inum, bn)) != 0
              then disk == old(disk) && ip.addrs == old(ip.addrs) && logged == old(logged)
              else Asked(ip, true) && (addr != 0 ==> disk[addr] == ZeroBlock())
      ensures OnlyAdds(old(disk), old(Eff(ip)), disk, Eff(ip), ip.inum, bn)
    {
      if bn < NDIRECT {
        addr := ip.addrs[bn];
        if addr == 0 {
          addr := AllocAddrs(ip, bn);
        }
        return true, addr;
      }
      var j := bn - NDIRECT;
      if j < NINDIRECT {
        addr := BmapIndirect(ip, j);
        return true, addr;
      }
      return false, 0;
    }

    // ---- Contents ----

    /** Ownership holds and the inodes store the files. */
    ghost predicate Holds(ip: Inode)
      reads this, ip
    {
      Good(ip) && Stores(disk, Eff(ip), files)
    }

    ghost predicate Valid()
      reads this
    {
      Consistent(sb, disk, dinodes, owner, files)
    }

    /** ip is in use and agrees with the inode on disk, as ilock leaves it. */
    ghost predicate Locked(ip: Inode)
      reads this, ip
    {
      ip.inum < |dinodes| && ip.typ != 0 && dinodes[ip.inum] == Dinode(ip.typ, ip.nlink, ip.size, ip.addrs)
    }

    // The invariant seen through the in-memory inode.
    lemma ValidHolds(ip: Inode)
      requires Valid() && Locked(ip)
      ensures Holds(ip) && |files[ip.inum]| == ip.size && Eff(ip) == Table(dinodes)
    {
      assert AddrsOk(disk, Table(dinodes)[ip.inum]);
      assert Eff(ip) == Table(dinodes);
    }

    method Iupdate(ip: Inode)
      requires ip.inum < |dinodes|
      modifies this`dinodes, this`logged
      ensures dinodes == old(dinodes)[ip.inum := Dinode(ip.typ, ip.nlink, ip.size, ip.addrs)]
      ensures logged == old(logged) + {sb.IBlock(ip.inum)}
    {
      dinodes := dinodes[ip.inum := Dinode(ip.typ, ip.nlink, ip.size, ip.addrs)];
      logged := logged + {sb.IBlock(ip.inum)};
    }

    // The bmap call of writei, at byte off within or right after the file: what it may log. The block of an
    // unaligned off exists already.
    method BmapForWrite(ip: Inode, off: nat) returns (addr: nat, ghost cost: Cost)
      requires Holds(ip) && off < MAXBYTES && off <= |files[ip.inum]|
      modifies this`disk, this`logged, this`owner, ip`addrs
      ensures Holds(ip) && Grew(ip, Logs(ip.addrs[NDIRECT]) + cost.data + cost.bits)
      ensures addr == Addr(disk, Eff(ip), ip.inum, BlockOf(off)) && (addr == 0 ==> DiskFull(sb, disk))
      ensures cost.Within(sb, if addr == 0 then 0 else 1, if addr == 0 || OffsetOf(off) != 0 then 0 else 1)
      ensures addr != 0 ==> addr in cost.data
    {
      ghost var d, e := disk, Eff(ip);
      ghost var missing := Addr(disk, Eff(ip), ip.inum, BlockOf(off)) == 0;
      assert missing ==> OffsetOf(off) == 0;
      var ok;
      ok, addr := Bmap(ip, off / BSIZE);
      KeepsStores(d, e, disk, Eff(ip), files);
      cost := if addr == 0 then Cost({}, {}) else Cost({addr as int}, if missing then {sb.BBlock(addr) as int} else {});
    }

    // One pass of the writei loop: takes m bytes of the rest, 0 if the disk is full.
    method WriteSome(ip: Inode, off: nat, rest: seq<Byte>) returns (m: nat, ghost cost: Cost)
      requires Holds(ip) && |rest| > 0 && off + |rest| <= MAXBYTES && off <= |files[ip.inum]|
      modifies this`disk, this`logged, this`owner, this`files, ip`addrs
      ensures Holds(ip) && (m == 0 ==> DiskFull(sb, disk)) && PassTakes(off, |rest|, 0, m)
      ensures files == old(files)[ip.inum := Splice(old(files)[ip.inum], off, rest[..m])]
      ensures logged <= old(logged) + Logs(ip.addrs[NDIRECT]) + cost.data + cost.bits
      ensures old(Logs(ip.addrs[NDIRECT])) <= Logs(ip.addrs[NDIRECT])
      ensures cost.Within(sb, if m == 0 then 0 else 1, if m == 0 || OffsetOf(off) != 0 then 0 else 1)
    {
      var addr;
      addr, cost := BmapForWrite(ip, off);
      if addr == 0 {
        assert Splice(files[ip.inum], off, []) == files[ip.inum];
        return 0, cost;
      }
      var o := off % BSIZE;
      m := if |rest| < BSIZE - o then |rest| else BSIZE - o;
      CopyChunk(ip, addr, off, rest[..m]);
    }

    // The copy of one pass, into the block at addr.
    method CopyChunk(ip: Inode, addr: nat, off: nat, chunk: seq<Byte>)
      requires Holds(ip) && off <= |files[ip.inum]| && addr != 0 && BlockOf(off) < MAXFILE
      requires addr == Addr(disk, Eff(ip), ip.inum, BlockOf(off))
      requires 0 < |chunk| <= BSIZE - OffsetOf(off)
      modifies this`disk, this`logged, this`files
      ensures Holds(ip) && logged == old(logged) + {addr}
      ensures files == old(files)[ip.inum := Splice(old(files)[ip.inum], off, chunk)]
    {
      ghost var d := disk;
      disk := disk[addr := Patch(disk[addr], off % BSIZE, chunk)];
      logged := logged + {addr};
      CopyPass(sb, d, Eff(ip), owner, files, disk, ip.inum, off, chunk);
      PatchedBits(sb, d, Eff(ip), owner, disk, ip.inum, |files[ip.inum]|, off, chunk);
      files := files[ip.inum := Splice(files[ip.inum], off, chunk)];
    }

    // The loop of writei.
    method WriteLoop(ip: Inode, off: nat, data: seq<Byte>) returns (tot: nat, ghost cost: Cost)
      requires Holds(ip) && off <= |files[ip.inum]| && off + |data| <= MAXBYTES
      modifies this`disk, this`logged, this`owner, this`files, ip`addrs
      ensures Holds(ip) && tot <= |data| && (tot < |data| ==> DiskFull(sb, disk))
      ensures files == old(files)[ip.inum := Splice(old(files)[ip.inum], off, data[..tot])]
      ensures Charged(sb, old(logged), logged, Logs(ip.addrs[NDIRECT]), cost, off, |data|, tot)
    {
      tot := 0;
      cost := Cost({}, {});
      ghost var s := files[ip.inum];
      assert Splice(s, off, data[..0]) == s;
      while tot < |data|
        invariant Holds(ip) && tot <= |data|
        invariant files == old(files)[ip.inum := Splice(s, off, data[..tot])]
        invariant Charged(sb, old(logged), logged, Logs(ip.addrs[NDIRECT]), cost, off, |data|, tot)
      {
        var m;
        m, cost := WriteNext(ip, off, data, tot, s, old(logged), cost);
        tot := tot + m;
        if m == 0 {
          break;
        }
      }
    }

    // The same pass, after the first tot bytes; s is the file and logged0 the log before them.
    method WriteNext(ip: Inode, off: nat, data: seq<Byte>, tot: nat, ghost s: seq<Byte>, ghost logged0: set<int>,
                     ghost cost: Cost)
      returns (m: nat, ghost cost': Cost)
      requires Holds(ip) && tot < |data| && off <= |s| && off + |data| <= MAXBYTES
      requires files[ip.inum] == Splice(s, off, data[..tot])
      requires Charged(sb, logged0, logged, Logs(ip.addrs[NDIRECT]), cost, off, |data|, tot)
      modifies this`disk, this`logged, this`owner, this`files, ip`addrs
      ensures Holds(ip) && tot + m <= |data| && (m == 0 ==> DiskFull(sb, disk))
      ensures files == old(files)[ip.inum := Splice(s, off, data[..tot + m])]
      ensures Charged(sb, logged0, logged, Logs(ip.addrs[NDIRECT]), cost', off, |data|, tot + m)
    {
      ghost var l1, i1 := logged, Logs(ip.addrs[NDIRECT]);
      ghost var c;
      m, c := WriteSome(ip, off + tot, data[tot..]);
      SpliceTwice(s, off, data, tot, m);
      ChargePass(sb, logged0, l1, i1, cost, logged, Logs(ip.addrs[NDIRECT]), c, off, |data|, tot, m);
      cost' := Cost(cost.data + c.data, cost.bits + c.bits);
    }

    /** Writes data at off. Returns -1 where the code refuses, otherwise the bytes written: fewer than asked
        for only when the disk is full. No other file changes, and the log gains at most LogBound blocks. */
    method Writei(ip: Inode, off: nat, data: seq<Byte>) returns (r: int)
      requires Valid() && Locked(ip) && off < MAXUINT && |data| < MAXUINT
      modifies this`disk, this`dinodes, this`logged, this`owner, this`files, ip`addrs, ip`size
      ensures Valid() && Locked(ip) && -1 <= r <= |data|
      ensures (r == -1 <==> off > old(ip.size) || off + |data| > MAXBYTES)
      ensures r == -1 ==> disk == old(disk) && dinodes == old(dinodes) && logged == old(logged)
      ensures r == -1 ==> files == old(files) && ip.addrs == old(ip.addrs)
      ensures r >= 0 ==> files == old(files)[ip.inum := Splice(old(files)[ip.inum], off, data[..r])]
      ensures r >= 0 ==> dinodes == old(dinodes)[ip.inum := Dinode(ip.typ, ip.nlink, ip.size, ip.addrs)]
      ensures 0 <= r < |data| ==> DiskFull(sb, disk)
      ensures |logged - old(logged)| <= LogBound(sb, off, |data|)
    {
      var n := |data|;
      ValidHolds(ip);
      UnsignedSum(off, n);
      if off > ip.size || (off + n) % MAXUINT < off {
        return -1;
      }
      if (off + n) % MAXUINT > MAXFILE * BSIZE {
        return -1;
      }
      var tot, cost := WriteLoop(ip, off, data);
      ghost var e := Eff(ip);
      ghost var ind := ip.addrs[NDIRECT];
      ChargedBound(sb, old(logged), logged, Logs(ind), ind, sb.BBlock(ind), cost, off, n, tot, sb.IBlock(ip.inum));
      if off + tot > ip.size {
        ip.size := off + tot;
      }
      Iupdate(ip);
      assert Table(dinodes) == e;
      return tot;
    }

    // ---- Reading ----

    // One pass of the readi loop, at byte q: up to n bytes, to the end of the block. The read began with disk d0 and
    // addresses e0. Returns 0 for the block if it is missing and the disk is full.
    method ReadSome(ip: Inode, q: nat, n: nat, ghost d0: Disk, ghost e0: seq<Addrs>)
      returns (addr: nat, r: seq<Byte>)
      requires Good(ip) && n > 0 && q + n <= MAXBYTES && SameFrom(d0, e0, disk, Eff(ip), ip.inum, BlockOf(q))
      modifies this`disk, this`logged, this`owner, ip`addrs
      ensures Good(ip) && SameFrom(d0, e0, disk, Eff(ip), ip.inum, BlockOf(q) + 1)
      ensures Asked(ip, MissingAt(d0, e0, ip.inum, q))
      ensures addr == 0 ==> DiskFull(sb, disk) && MissingAt(d0, e0, ip.inum, q)
      ensures addr != 0 ==> |r| == Pass(q, n) && Peeked(d0, e0, ip.inum, q, r)
    {
      ghost var d, e, bn := disk, Eff(ip), BlockOf(q);
      assert SameAddr(d0, e0, d, e, ip.inum, bn);
      var ok;
      ok, addr := Bmap(ip, q / BSIZE);
      SameFromStep(d0, e0, d, e, disk, Eff(ip), ip.inum, bn);
      if addr != 0 {
        var o := q % BSIZE;
        var m := if n < BSIZE - o then n else BSIZE - o;
        PeekedBlock(d0, e0, ip.inum, q, m, disk[addr]);
        r := disk[addr][o..o + m];
      } else {
        r := [];
      }
    }

    // tot bytes have been read, by a read of n bytes at off that began with disk d0, addresses e0 and log l0.
    ghost predicate Reading(ip: Inode, d0: Disk, e0: seq<Addrs>, l0: set<int>, off: nat, n: nat, tot: nat)
      reads this, ip
    {
      && Good(ip) && tot <= n && |d0| == sb.size && TableOk(d0, e0) && ip.inum < |e0|
      && (tot < n ==> SameFrom(d0, e0, disk, Eff(ip), ip.inum, BlockOf(off + tot)))
      && Effect(sb, d0, e0[ip.inum], l0, disk, ip.addrs, logged, Missing(d0, e0, ip.inum, off, tot))
    }

    // The read has stopped after tot bytes: all of them, or at a block that cannot be had, or one that does not fit.
    ghost predicate Stopped(ip: Inode, d0: Disk, e0: seq<Addrs>, l0: set<int>, off: nat, n: nat, good: nat, tot: nat,
                            ok: bool)
      reads this, ip
    {
      && Good(ip) && |d0| == sb.size && TableOk(d0, e0) && ip.inum < |e0| && tot <= n && tot <= good
      && (!ok ==> good < n) && (ok && tot < n ==> DiskFull(sb, disk) && MissingAt(d0, e0, ip.inum, off + tot))
      && Effect(sb, d0, e0[ip.inum], l0, disk, ip.addrs, logged, Missing(d0, e0, ip.inum, off, Reach(n, good)))
    }

    lemma ReadStart(ip: Inode, off: nat, n: nat)
      requires Good(ip)
      ensures Reading(ip, disk, Eff(ip), logged, off, n, 0)
    {
      assert Eff(ip)[ip.inum] == ip.addrs;
    }

    // The same pass, after tot bytes: gives the next ones, or stops.
    method ReadNext(ip: Inode, off: nat, n: nat, good: nat, tot: nat, ghost d0: Disk, ghost e0: seq<Addrs>,
                    ghost l0: set<int>)
      returns (more: bool, ok: bool, r: seq<Byte>)
      requires Reading(ip, d0, e0, l0, off, n, tot) && tot < n && tot <= good && off + n <= MAXBYTES
      modifies this`disk, this`logged, this`owner, ip`addrs
      ensures more ==> Reading(ip, d0, e0, l0, off, n, tot + |r|) && 0 < |r| && tot + |r| <= good
      ensures more ==> Peeked(d0, e0, ip.inum, off + tot, r)
      ensures !more ==> Stopped(ip, d0, e0, l0, off, n, good, tot, ok)
    {
      ghost var d1, a1, l1 := disk, ip.addrs, logged;
      var addr;
      addr, r := ReadSome(ip, off + tot, n - tot, d0, e0);
      PassMissing(d0, e0, ip.inum, off, n, good, tot);
      EffectTrans(sb, d0, e0[ip.inum], l0, d1, a1, l1, disk, ip.addrs, logged,
                  Missing(d0, e0, ip.inum, off, tot), MissingAt(d0, e0, ip.inum, off + tot));
      more := addr != 0 && tot + |r| <= good;
      ok := addr == 0;
    }

    // The loop of readi.
    method ReadLoop(ip: Inode, off: nat, n: nat, good: nat) returns (ok: bool, r: seq<Byte>)
      requires Good(ip) && off + n <= MAXBYTES
      modifies this`disk, this`logged, this`owner, ip`addrs
      ensures Stopped(ip, old(disk), old(Eff(ip)), old(logged), off, n, good, |r|, ok)
      ensures Peeked(old(disk), old(Eff(ip)), ip.inum, off, r)
    {
      ghost var e := Eff(ip);
      var tot := 0;
      r := [];
      ReadStart(ip, off, n);
      while tot < n
        invariant Reading(ip, old(disk), e, old(logged), off, n, tot) && |r| == tot <= good
        invariant Peeked(old(disk), e, ip.inum, off, r)
      {
        var more, chunk;
        more, ok, chunk := ReadNext(ip, off, n, good, tot, old(disk), e, old(logged));
        if !more {
          return ok, r;
        }
        PeekedMore(old(disk), e, ip.inum, off, r, chunk);
        r, tot := r + chunk, tot + |chunk|;
      }
      return true, r;
    }

    // In a consistent file system, looking up has no effect.
    lemma ReadValid(ip: Inode, off: nat, len: nat, d: Disk, e: seq<Addrs>, good: nat, r: seq<Byte>)
      requires ip.inum < |e| && Stores(d, e, files) && off + len <= |files[ip.inum]|
      requires |r| <= len && Peeked(d, e, ip.inum, off, r)
      ensures !Missing(d, e, ip.inum, off, Reach(len, good)) && r == files[ip.inum][off..off + |r|]
      ensures |r| < len ==> !MissingAt(d, e, ip.inum, off + |r|)
    {
      StoredReads(d, e, files, ip.inum, off, len, r);
    }

    /** Reads n bytes at off into a destination of which `good` bytes can be written; !ok is the result -1. Gives the
        bytes of the file, with zeros for missing blocks, up to its end; fewer only if a block is missing and the disk
        is full. Something is logged if and only if a block that is looked up is missing and the disk is not full;
        otherwise nothing changes. */
    method Readi(ip: Inode, off: nat, n: nat, good: nat) returns (ok: bool, r: seq<Byte>)
      requires Good(ip) && ip.size <= MAXBYTES && off < MAXUINT && n < MAXUINT
      modifies this`disk, this`logged, this`owner, ip`addrs
      ensures Good(ip) && |r| <= good && |r| <= ReadLen(ip.size, off, n) && (!ok ==> good < ReadLen(ip.size, off, n))
      ensures ok && |r| < ReadLen(ip.size, off, n) ==>
                DiskFull(sb, disk) && MissingAt(old(disk), old(Eff(ip)), ip.inum, off + |r|)
      ensures Peeked(old(disk), old(Eff(ip)), ip.inum, off, r)
      ensures Asked(ip, Missing(old(disk), old(Eff(ip)), ip.inum, off, Reach(ReadLen(ip.size, off, n), good)))
    {
      UnsignedSum(off, n);
      if off > ip.size || (off + n) % MAXUINT < off {
        return true, [];
      }
      ok, r := ReadLoop(ip, off, if (off + n) % MAXUINT > ip.size then ip.size - off else n, good);
    }

    /** The FD_INODE part of fileread. In a consistent file system no block is missing, so nothing is logged, although
        fileread begins no transaction, and the bytes are those of the file. */
    method Fileread(f: File, n: nat, good: nat) returns (ok: bool, r: seq<Byte>)
      requires Valid() && Locked(f.ip) && f.off < MAXUINT && n < MAXUINT
      modifies this`disk, this`logged, this`owner, f`off, f.ip`addrs
      ensures Valid() && Locked(f.ip) && disk == old(disk) && logged == old(logged)
      ensures ok == (ReadLen(f.ip.size, old(f.off), n) <= good) && f.off == if ok then old(f.off) + |r| else old(f.off)
      ensures ok ==> r == Section(files[f.ip.inum], old(f.off), ReadLen(f.ip.size, old(f.off), n))
    {
      ValidHolds(f.ip);
      ghost var e := Eff(f.ip);
      ok, r := Readi(f.ip, f.off, n, good);
      if f.off <= f.ip.size {
        ReadValid(f.ip, f.off, ReadLen(f.ip.size, f.off, n), old(disk), e, good, r);
      }
      if ok && |r| > 0 {
        f.off := f.off + |r|;
      }
    }

    // ---- Truncation ----

    // The state inside itrunc, with part of the indirect block given up.
    ghost predicate Truncating(ip: Inode, c: Cut)
      reads this, ip
    {
      && Shape() && ip.inum < |dinodes| && AddrsOk(disk, ip.addrs) && (c.n == 0 || c.inum == ip.inum)
      && RefsOwned(sb, disk, Eff(ip), owner, c) && BitsMatch(sb, disk, owner)
      && Stores(disk, Eff(ip), files) && files[ip.inum] == []
    }

    // bfree of a direct block or, at the end, of the indirect block.
    method FreeAddr(ip: Inode, k: nat, ghost c: Cut)
      requires Truncating(ip, c) && k <= NDIRECT && ip.addrs[k] != 0
      requires if k == NDIRECT then c == Cut(ip.inum, NINDIRECT) else c == NOCUT
      modifies this`disk, this`logged, this`owner, ip`addrs
      ensures Truncating(ip, NOCUT) && ip.addrs == SetAddr(old(ip.addrs), k, 0)
      ensures owner == old(owner) - {old(ip.addrs)[k]}
    {
      ghost var d, e, b := disk, Eff(ip), ip.addrs[k];
      ghost var e' := e[ip.inum := SetAddr(ip.addrs, k, 0)];
      assert Ref(d, e, ip.inum, k, c) == b;
      FreeStores(sb, d, e, owner, c, b, ip.inum, e', files);
      FreedBits(sb, d, owner, b);
      FreedRefs(sb, d, e, owner, c, b);
      UnlinkAddr(sb, MarkFree(sb, d, b), e, owner, c, ip.inum, k);
      var ok := Bfree(ip.addrs[k]);
      assert ok;
      ip.addrs := ip.addrs[k := 0];
      owner := owner - {b};
      assert Eff(ip) == e';
    }

    // One pass of the inner loop of itrunc.
    method FreeEntry(ip: Inode, j: nat)
      requires Truncating(ip, Cut(ip.inum, j)) && j < NINDIRECT && ip.addrs[NDIRECT] != 0
      modifies this`disk, this`logged, this`owner
      ensures Truncating(ip, Cut(ip.inum, j + 1)) && owner == old(owner) - {old(WordAt(disk[ip.addrs[NDIRECT]], j))}
      ensures disk[ip.addrs[NDIRECT]] == old(disk[ip.addrs[NDIRECT]])
    {
      ghost var d, e, c := disk, Eff(ip), Cut(ip.inum, j);
      IndirectOwned(sb, d, e, owner, c, ip.inum);
      var b := WordAt(disk[ip.addrs[NDIRECT]], j);
      assert Ref(d, e, ip.inum, 13 + j, c) == b;
      if b != 0 {
        FreeStores(sb, d, e, owner, c, b, ip.inum, e, files);
        FreedBits(sb, d, owner, b);
        FreedRefs(sb, d, e, owner, c, b);
        var ok := Bfree(b);
        assert ok;
      }
      CutEntry(sb, disk, e, owner, ip.inum, j);
      owner := owner - {b};
    }

    // owner has lost entries of inode i only.
    ghost predicate Lost(owner0: map<int, Slot>, i: nat)
      reads this
    {
      && (forall b :: b in owner ==> b in owner0 && owner[b] == owner0[b])
      && (forall b :: b in owner0 && owner0[b].inum != i ==> b in owner)
    }

    method FreeDirect(ip: Inode)
      requires Truncating(ip, NOCUT)
      modifies this`disk, this`logged, this`owner, ip`addrs
      ensures Truncating(ip, NOCUT) && Lost(old(owner), ip.inum)
      ensures ip.addrs == NoAddrs()[NDIRECT := old(ip.addrs)[NDIRECT]]
    {
      var i := 0;
      while i < NDIRECT
        invariant i <= NDIRECT && Truncating(ip, NOCUT) && Lost(old(owner), ip.inum)
        invariant ip.addrs[NDIRECT] == old(ip.addrs)[NDIRECT]
        invariant forall k :: 0 <= k < i ==> ip.addrs[k] == 0
      {
        if ip.addrs[i] != 0 {
          assert Ref(disk, Eff(ip), ip.inum, i, NOCUT) == ip.addrs[i];
          FreeAddr(ip, i, NOCUT);
        }
        i := i + 1;
      }
    }

    // The inner loop of itrunc.
    method FreeEntries(ip: Inode)
      requires Truncating(ip, NOCUT) && ip.addrs[NDIRECT] != 0
      modifies this`disk, this`logged, this`owner
      ensures Truncating(ip, Cut(ip.inum, NINDIRECT)) && Lost(old(owner), ip.inum)
    {
      var j := 0;
      CutNothing(sb, disk, Eff(ip), owner, ip.inum);
      while j < NINDIRECT
        invariant j <= NINDIRECT && Truncating(ip, Cut(ip.inum, j)) && Lost(old(owner), ip.inum)
      {
        assert Ref(disk, Eff(ip), ip.inum, 13 + j, Cut(ip.inum, j)) == WordAt(disk[ip.addrs[NDIRECT]], j);
        FreeEntry(ip, j);
        j := j + 1;
      }
    }

    method FreeIndirect(ip: Inode)
      requires Truncating(ip, NOCUT) && ip.addrs[NDIRECT] != 0
      modifies this`disk, this`logged, this`owner, ip`addrs
      ensures Truncating(ip, NOCUT) && Lost(old(owner), ip.inum) && ip.addrs == SetAddr(old(ip.addrs), NDIRECT, 0)
    {
      FreeEntries(ip);
      IndirectOwned(sb, disk, Eff(ip), owner, Cut(ip.inum, NINDIRECT), ip.inum);
      FreeAddr(ip, NDIRECT, Cut(ip.inum, NINDIRECT));
    }

    /** Empties the file. Exactly its blocks become free, each once: bfree never meets a free block. */
    method Itrunc(ip: Inode)
      requires Valid() && Locked(ip)
      modifies this`disk, this`dinodes, this`logged, this`owner, this`files, ip`addrs, ip`size
      ensures Valid() && Locked(ip) && files == old(files)[ip.inum := []]
      ensures ip.size == 0 && ip.addrs == NoAddrs()
      ensures dinodes == old(dinodes)[ip.inum := Dinode(ip.typ, ip.nlink, 0, NoAddrs())]
      ensures forall b :: b in owner <==> b in old(owner) && old(owner)[b].inum != ip.inum
    {
      ValidHolds(ip);
      files := files[ip.inum := []];
      FreeDirect(ip);
      if ip.addrs[NDIRECT] != 0 {
        FreeIndirect(ip);
      }
      assert ip.addrs == NoAddrs();
      ghost var e := Eff(ip);
      ip.size := 0;
      Iupdate(ip);
      assert Table(dinodes) == e;
    }

    /** The last part of iput: the last reference to an inode without links goes away. */
    method IputLast(ip: Inode)
      requires Valid() && Locked(ip) && ip.nlink == 0
      modifies this`disk, this`dinodes, this`logged, this`owner, this`files, ip`addrs, ip`size, ip`typ
      ensures Valid() && files == old(files)[ip.inum := []]
      ensures dinodes == old(dinodes)[ip.inum := Dinode(0, 0, 0, NoAddrs())]
      ensures forall b :: b in owner <==> b in old(owner) && old(owner)[b].inum != ip.inum
    {
      Itrunc(ip);
      ghost var t := Table(dinodes);
      ip.typ := 0;
      Iupdate(ip);
      assert Table(dinodes) == t;
    }

    /** Takes the first free inode after 0. Returns 0 if there is none. */
    method Ialloc(typ: int) returns (inum: nat)
      requires Valid() && typ != 0
      modifies this`dinodes, this`logged
      ensures Valid() && inum < |dinodes| + 1
      ensures inum == 0 ==> dinodes == old(dinodes) && forall j :: 1 <= j < |dinodes| ==> dinodes[j].typ != 0
      ensures inum != 0 ==>
              inum < |dinodes| && old(dinodes)[inum].typ == 0 && (forall j :: 1 <= j < inum ==> dinodes[j].typ != 0)
      ensures inum != 0 ==> dinodes == old(dinodes)[inum := Dinode(typ, 0, 0, NoAddrs())] && files[inum] == []
    {
      inum := 1;
      while inum < sb.ninodes
        invariant 1 <= inum && dinodes == old(dinodes)
        invariant forall j :: 1 <= j < inum && j < |dinodes| ==> dinodes[j].typ != 0
      {
        if dinodes[inum].typ == 0 {
          ghost var t := Table(dinodes);
          dinodes := dinodes[inum := Dinode(typ, 0, 0, NoAddrs())];
          logged := logged + {sb.IBlock(inum)};
          assert Table(dinodes) == t;
          return;
        }
        inum := inum + 1;
      }
      inum := 0;
    }

    // ---- Writing through a file descriptor ----

    // One chunk of filewrite: a transaction that writes n more bytes after the first `done`.
    method WriteTransaction(f: File, data: seq<Byte>, done: nat, n: nat, ghost files0: seq<seq<Byte>>)
      returns (w: int, ghost done': nat)
      requires Valid() && Locked(f.ip) && f.off < MAXUINT && |data| < MAXUINT
      requires 0 < n <= 3 * BSIZE && done + n <= |data| && done <= f.off
      requires WroteUpTo(files0, files, f.ip.inum, f.off - done, data, done)
      modifies this`disk, this`dinodes, this`logged, this`txns, this`owner, this`files, f`off, f.ip`addrs, f.ip`size
      ensures Valid() && Locked(f.ip) && -1 <= w <= n && (w > 0 ==> old(f.off) <= old(f.ip.size))
      ensures done' == (if w > 0 then done + w else done) && f.off - done' == old(f.off) - done && f.off < MAXUINT
      ensures WroteUpTo(files0, files, f.ip.inum, f.off - done', data, done')
      ensures w < n ==> DiskFull(sb, disk) || old(f.off) > old(f.ip.size) || old(f.off) + n > MAXBYTES
      ensures w == n ==> f.off <= f.ip.size
      ensures txns == old(txns) + [logged] && |logged| <= LogBound(sb, old(f.off), n)
    {
      logged := {};
      var part := data[done..done + n];
      assert |part| == n;
      w := Writei(f.ip, f.off, part);
      assert logged - {} == logged;
      txns := txns + [logged];
      if w >= 0 {
        WroteMore(files0, old(files), files, f.ip.inum, f.off - done, data, done, n, w);
      }
      done' := done;
      if w > 0 {
        f.off := f.off + w;
        done' := done + w;
      }
    }

    // One pass of the filewrite loop, at byte i of the data, of a call that began with files0, txns0 and offset off0.
    method WriteChunk(f: File, data: seq<Byte>, i: nat, ghost files0: seq<seq<Byte>>, ghost txns0: seq<set<int>>,
                      ghost off0: nat, ghost chunks: seq<set<int>>)
      returns (n1: nat, w: int, ghost done: nat, ghost chunks': seq<set<int>>)
      requires Valid() && Locked(f.ip) && i < |data| < MAXUINT && f.off == off0 + i < MAXUINT
      requires WroteUpTo(files0, files, f.ip.inum, off0, data, i) && LoggedTo(sb, txns0, txns, chunks, off0, |data|, i)
      modifies this`disk, this`dinodes, this`logged, this`txns, this`owner, this`files, f`off, f.ip`addrs, f.ip`size
      ensures Valid() && Locked(f.ip) && f.off == off0 + done < MAXUINT && 0 < n1 && i + n1 <= |data|
      ensures WroteUpTo(files0, files, f.ip.inum, off0, data, done) && txns == txns0 + chunks'
      ensures ChunksLog(sb, chunks', off0, |data|) && (w > 0 ==> old(f.off) <= old(f.ip.size))
      ensures w == n1 ==> done == i + w && f.off <= f.ip.size && LoggedTo(sb, txns0, txns, chunks', off0, |data|, done)
      ensures w != n1 ==> i <= done < |data| && |chunks'| == Started(done, |data|)
      ensures w != n1 ==> DiskFull(sb, disk) || old(f.off) > old(f.ip.size) || old(f.off) + n1 > MAXBYTES
    {
      var max := (LogLayout.MAXOPBLOCKS - 1 - 1 - 2) / 2 * BSIZE;
      n1 := |data| - i;
      if n1 > max {
        n1 := max;
      }
      ghost var t := txns;
      w, done := WriteTransaction(f, data, i, n1, files0);
      NextChunk(sb, txns0, t, chunks, logged, off0, |data|, i, n1);
      chunks' := chunks + [logged];
      if w != n1 {
        StoppedAt(i, n1, done, |data|, |chunks'|);
      }
    }

    /** The FD_INODE part of filewrite: each chunk is a transaction of its own. Transaction k writes what it can of the
        bytes from k * CHUNK on, and logs no more than such a write needs. */
    method Filewrite(f: File, data: seq<Byte>) returns (r: int, ghost done: nat, ghost chunks: seq<set<int>>)
      requires Valid() && Locked(f.ip) && f.off < MAXUINT && |data| < MAXUINT
      modifies this`disk, this`dinodes, this`logged, this`txns, this`owner, this`files, f`off, f.ip`addrs, f.ip`size
      ensures Valid() && Locked(f.ip) && f.off == old(f.off) + done && r == if done == |data| then |data| else -1
      ensures WroteUpTo(old(files), files, f.ip.inum, old(f.off), data, done)
      ensures done < |data| ==> DiskFull(sb, disk) || old(f.off) > old(f.ip.size) || old(f.off) + |data| > MAXBYTES
      ensures txns == old(txns) + chunks && |chunks| == Started(done, |data|)
      ensures ChunksLog(sb, chunks, old(f.off), |data|)
    {
      var i := 0;
      done, chunks := 0, [];
      while i < |data|
        invariant Valid() && Locked(f.ip) && 0 <= i <= |data| && done == i && f.off == old(f.off) + i < MAXUINT
        invariant WroteUpTo(old(files), files, f.ip.inum, old(f.off), data, i)
        invariant if i == 0 then f.ip.size == old(f.ip.size) else f.off <= f.ip.size
        invariant LoggedTo(sb, old(txns), txns, chunks, old(f.off), |data|, i)
      {
        var n1, w;
        n1, w, done, chunks := WriteChunk(f, data, i, old(files), old(txns), old(f.off), chunks);
        if w != n1 {
          return -1, done, chunks;
        }
        i := i + w;
      }
      AllChunks(|data|, |chunks|);
      r := |data|;
    }
  }
}

/**
 The on-disk redo log of kernel/log.c: geometry, header encoding, and what recovery makes of a disk.

 A disk is a sequence of blocks; a block is BSIZE bytes seen as 32-bit words, because the log header
 (`struct logheader`) is an `int` count followed by `int` block numbers laid over a block.
 */
module LogLayout {

  const MAXOPBLOCKS := 10
  const LOGSIZE := 30
  const WORDS := 256        // BSIZE / sizeof(int)
  const DEV := 1            // ROOTDEV, the device the log lives on

  type Word = w: int | -0x8000_0000 <= w < 0x8000_0000
  type Block = b: seq<Word> | |b| == WORDS witness seq(WORDS, _ => 0)
  type Disk = seq<Block>

  /** The superblock fields that `initlog` checks: image size, length and first block of the log region. */
  datatype Geometry = Geometry(size: nat, nlog: nat, start: nat) {
    // What initlog accepts, with block numbers that fit an `int`.
    ghost predicate Valid() {
      1 < start && 0 < nlog && start + nlog <= size < 0x8000_0000
    }

    // First block after the log region. Only blocks from here on may be logged.
    function HomeStart(): nat { start + nlog }

    predicate IsHome(b: int) { start + nlog <= b < size }

    // The log data block that holds entry k of the header.
    function Slot(k: nat): nat { start + 1 + k }
  }

  function AsUint(w: Word): nat {
    if w < 0 then w + 0x1_0000_0000 else w
  }

  function Count(b: Block): int { b[0] }

  function Entry(b: Block, i: nat): nat
    requires i < WORDS - 1
  {
    AsUint(b[1 + i])
  }

  // The two panic tests of read_head, on the entries that the block holds.
  predicate Passes(b: Block, g: Geometry) {
    && 0 <= Count(b) < g.nlog
    && forall i :: 0 <= i < Count(b) && i < WORDS - 1 ==> g.HomeStart() <= Entry(b, i) < g.size
  }

  // The header passes and its entries fit log.lh.block, so that read_head can store them.
  predicate Accepts(b: Block, g: Geometry) {
    Passes(b, g) && Count(b) <= LOGSIZE
  }

  // A header of one entry too many, each of them the first home block.
  function TooLong(g: Geometry): Block
    requires g.HomeStart() < 0x8000_0000
  {
    seq(WORDS, k => if k == 0 then LOGSIZE + 1 else g.HomeStart())
  }

  /** read_head refuses every header that it has no room for if and only if the log region is small enough, or there is
      no block to log. */
  lemma HeadersFit(g: Geometry)
    requires g.Valid()
    ensures (forall b :: Passes(b, g) ==> Accepts(b, g)) <==> g.nlog <= LOGSIZE + 1 || g.HomeStart() == g.size
  {
    if g.nlog <= LOGSIZE + 1 || g.HomeStart() == g.size {
      forall b | Passes(b, g) ensures Accepts(b, g) {
        assert Count(b) > 0 ==> g.HomeStart() <= Entry(b, 0) < g.size;
      }
    } else {
      assert Passes(TooLong(g), g) && !Accepts(TooLong(g), g);
    }
  }

  /** A log region that is one block too long, and a header for it that read_head stores past its array. */
  lemma HeaderOverflows()
    ensures var g := Geometry(2000, LOGSIZE + 2, 2);
            g.Valid() && Passes(TooLong(g), g) && |Entries(TooLong(g))| == LOGSIZE + 1
  {
    var g := Geometry(2000, LOGSIZE + 2, 2);
    assert Count(TooLong(g)) == LOGSIZE + 1;
  }

  function Entries(b: Block): (lh: seq<nat>)
    requires 0 <= Count(b) < WORDS
  {
    seq(Count(b), i requires 0 <= i < Count(b) => Entry(b, i))
  }

  // The block that write_head writes: the count and the live entries change, the rest is stale.
  function PutHeader(b: Block, lh: seq<nat>): (r: Block)
    requires |lh| <= LOGSIZE && forall k :: 0 <= k < |lh| ==> lh[k] < 0x8000_0000
  {
    seq(WORDS, k requires 0 <= k < WORDS => if k == 0 then |lh| else if k <= |lh| then lh[k - 1] else b[k])
  }

  ghost predicate Distinct<T>(s: seq<T>) {
    forall i, j :: 0 <= i < j < |s| ==> s[i] != s[j]
  }

  ghost predicate Homes(lh: seq<nat>, g: Geometry) {
    forall k :: 0 <= k < |lh| ==> g.IsHome(lh[k])
  }

  // A header that commit may write: distinct home blocks that fit the header array and the log region.
  ghost predicate Committable(lh: seq<nat>, g: Geometry) {
    |lh| <= LOGSIZE && |lh| < g.nlog && Distinct(lh) && Homes(lh, g)
  }

  // Reading back a written header gives the same entries, and read_head accepts it.
  lemma HeaderRoundTrip(b: Block, lh: seq<nat>, g: Geometry)
    requires g.Valid() && Committable(lh, g)
    ensures Accepts(PutHeader(b, lh), g) && Entries(PutHeader(b, lh)) == lh
  {
    var h := PutHeader(b, lh);
    assert forall i :: 0 <= i < |lh| ==> h[1 + i] == lh[i];
  }

  // The first k block copies of install_trans.
  ghost function Install(d: Disk, g: Geometry, lh: seq<nat>, k: nat): (r: Disk)
    requires g.Valid() && |d| == g.size && k <= |lh| < g.nlog && Homes(lh, g)
    ensures |r| == |d|
    decreases k
  {
    if k == 0 then d else
      var p := Install(d, g, lh, k - 1);
      p[lh[k - 1] := p[g.Slot(k - 1)]]
  }

  lemma {:induction false} InstallFrame(d: Disk, g: Geometry, lh: seq<nat>, k: nat)
    requires g.Valid() && |d| == g.size && k <= |lh| < g.nlog && Homes(lh, g)
    ensures forall b :: 0 <= b < |d| && b !in lh[..k] ==> Install(d, g, lh, k)[b] == d[b]
  {
    if k > 0 {
      InstallFrame(d, g, lh, k - 1);
      assert lh[..k] == lh[..k - 1] + [lh[k - 1]];
    }
  }

  // The disk that a completed recover_from_log leaves behind.
  ghost function Recovered(d: Disk, g: Geometry): (r: Disk)
    requires g.Valid() && |d| == g.size && Accepts(d[g.start], g)
    ensures |r| == |d|
  {
    var lh := Entries(d[g.start]);
    Install(d, g, lh, |lh|)[g.start := PutHeader(d[g.start], [])]
  }

  // The blocks the file system sees; the rest is the boot block, superblock and log.
  ghost function Home(d: Disk, g: Geometry): seq<Block>
    requires g.Valid() && |d| == g.size
  {
    d[g.HomeStart()..]
  }

  lemma {:induction false} InstallSlots(d: Disk, g: Geometry, lh: seq<nat>, k: nat, j: nat)
    requires g.Valid() && |d| == g.size && k <= |lh| < g.nlog && Homes(lh, g)
    requires j < k && lh[j] !in lh[j + 1..k]
    ensures Install(d, g, lh, k)[lh[j]] == d[g.Slot(j)]
  {
    if j < k - 1 {
      assert lh[j + 1..k] == lh[j + 1..k - 1] + [lh[k - 1]];
      InstallSlots(d, g, lh, k - 1, j);
    } else {
      InstallFrame(d, g, lh, k - 1);
      assert g.Slot(j) !in lh[..k - 1];
    }
  }

  // Install overwrites every block it names from the log region, so what those blocks held before is
  // irrelevant. Holds for repeated entries too.
  lemma {:induction false} InstallForgets(d: Disk, e: Disk, g: Geometry, lh: seq<nat>, k: nat)
    requires g.Valid() && |d| == |e| == g.size && k <= |lh| < g.nlog && Homes(lh, g)
    requires forall b :: 0 <= b < g.size && b !in lh ==> d[b] == e[b]
    ensures forall b :: 0 <= b < g.size && (b !in lh || b in lh[..k]) ==>
            Install(d, g, lh, k)[b] == Install(e, g, lh, k)[b]
  {
    if k > 0 {
      InstallForgets(d, e, g, lh, k - 1);
      assert g.Slot(k - 1) !in lh;
      assert lh[..k] == lh[..k - 1] + [lh[k - 1]];
    }
  }

  // Two disks with the same log region and the same blocks outside the header's entries recover alike.
  lemma RecoveredForgets(d: Disk, e: Disk, g: Geometry)
    requires g.Valid() && |d| == |e| == g.size && Accepts(d[g.start], g)
    requires forall b :: 0 <= b < g.size && b !in Entries(d[g.start]) ==> d[b] == e[b]
    ensures Accepts(e[g.start], g) && Recovered(e, g) == Recovered(d, g)
  {
    var lh := Entries(d[g.start]);
    assert g.start !in lh;
    assert lh[..|lh|] == lh;
    InstallForgets(d, e, g, lh, |lh|);
    InstallFrame(d, g, lh, |lh|);
  }

  // Recovering again changes nothing, whatever accepted header the disk carried.
  lemma RecoveryIdempotent(d: Disk, g: Geometry)
    requires g.Valid() && |d| == g.size && Accepts(d[g.start], g)
    ensures Accepts(Recovered(d, g)[g.start], g) && Recovered(Recovered(d, g), g) == Recovered(d, g)
  {
    var r := Recovered(d, g);
    InstallFrame(d, g, Entries(d[g.start]), |Entries(d[g.start])|);
    assert Count(r[g.start]) == 0;
    assert PutHeader(r[g.start], []) == r[g.start];
  }

  lemma RecoveredBlock(d: Disk, g: Geometry, want: Disk, b: nat)
    requires g.Valid() && |d| == |want| == g.size && Accepts(d[g.start], g) && Distinct(Entries(d[g.start]))
    requires forall k :: 0 <= k < |Entries(d[g.start])| ==> d[g.Slot(k)] == want[Entries(d[g.start])[k]]
    requires g.IsHome(b) && (b !in Entries(d[g.start]) ==> d[b] == want[b])
    ensures Recovered(d, g)[b] == want[b]
  {
    var lh := Entries(d[g.start]);
    InstallFrame(d, g, lh, |lh|);
    if b in lh {
      var k :| 0 <= k < |lh| && lh[k] == b;
      InstallSlots(d, g, lh, |lh|, k);
    }
  }

  // Where each home block of a recovered disk comes from: its log slot if the header names it,
  // otherwise the block itself.
  lemma RecoveredHome(d: Disk, g: Geometry, want: Disk)
    requires g.Valid() && |d| == |want| == g.size && Accepts(d[g.start], g) && Distinct(Entries(d[g.start]))
    requires forall k :: 0 <= k < |Entries(d[g.start])| ==> d[g.Slot(k)] == want[Entries(d[g.start])[k]]
    requires forall b :: g.IsHome(b) && b !in Entries(d[g.start]) ==> d[b] == want[b]
    ensures Home(Recovered(d, g), g) == Home(want, g)
  {
    forall b | g.IsHome(b) ensures Recovered(d, g)[b] == want[b] {
      RecoveredBlock(d, g, want, b);
    }
  }
}

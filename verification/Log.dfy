/**
 The commit and recovery code of kernel/log.c, one method per C function, run by one process.

 `disk` is what survives a crash. Every bwrite appends the disk it leaves to `crashPoints`, so a claim
 about the disks in `crashPoints` is a claim about a crash between any two block writes.
 */
module Log {
  import opened LogLayout

  // The contents seen through the cache: a logged buffer hides its home block.
  ghost function Overlay(d: Disk, logged: map<nat, Block>): (r: Disk)
    ensures |r| == |d|
  {
    seq(|d|, b requires 0 <= b < |d| => if b in logged then logged[b] else d[b])
  }

  ghost predicate Names(lh: seq<nat>, logged: map<nat, Block>) {
    (forall k :: 0 <= k < |lh| ==> lh[k] in logged) && (forall b :: b in logged ==> b in lh)
  }

  lemma NamesRest(lh: seq<nat>, logged: map<nat, Block>)
    requires |lh| > 0 && Distinct(lh) && Names(lh, logged)
    ensures Names(lh[1..], logged - {lh[0]})
  {
    assert lh == [lh[0]] + lh[1..];
  }

  // A crash that leaves c is recovered to home blocks h.
  ghost predicate RecoversTo(c: Disk, g: Geometry, h: seq<Block>)
    requires g.Valid()
  {
    |c| == g.size && Accepts(c[g.start], g) && Home(Recovered(c, g), g) == h
  }

  // The disk after the first k copies of write_log.
  ghost function LogWritten(d: Disk, g: Geometry, lh: seq<nat>, logged: map<nat, Block>, k: nat): (r: Disk)
    requires g.Valid() && |d| == g.size && k <= |lh| < g.nlog && Names(lh, logged)
    ensures |r| == |d|
    decreases k
  {
    if k == 0 then d else LogWritten(d, g, lh, logged, k - 1)[g.Slot(k - 1) := logged[lh[k - 1]]]
  }

  lemma {:induction false} LogWrittenBlocks(d: Disk, g: Geometry, lh: seq<nat>, logged: map<nat, Block>, k: nat)
    requires g.Valid() && |d| == g.size && k <= |lh| < g.nlog && Names(lh, logged)
    ensures var r := LogWritten(d, g, lh, logged, k);
            && (forall b :: 0 <= b <= g.start || g.IsHome(b) ==> r[b] == d[b])
            && (forall j :: 0 <= j < k ==> r[g.Slot(j)] == logged[lh[j]])
  {
    if k > 0 {
      LogWrittenBlocks(d, g, lh, logged, k - 1);
    }
  }

  ghost function HeaderWritten(d: Disk, g: Geometry, lh: seq<nat>): (r: Disk)
    requires g.Valid() && |d| == g.size && |lh| <= LOGSIZE && Homes(lh, g)
    ensures |r| == |d|
  {
    d[g.start := PutHeader(d[g.start], lh)]
  }

  // The disks that block writes left, latest last.
  datatype Trace = Boot | Then(prev: Trace, disk: Disk)

  // The trace t extended by the first k block writes of write_log, or of install_trans.
  ghost function WriteLogTrace(t: Trace, d: Disk, g: Geometry, lh: seq<nat>,
                               logged: map<nat, Block>, k: nat): (r: Trace)
    requires g.Valid() && |d| == g.size && k <= |lh| < g.nlog && Names(lh, logged)
    decreases k
  {
    if k == 0 then t else Then(WriteLogTrace(t, d, g, lh, logged, k - 1), LogWritten(d, g, lh, logged, k))
  }

  ghost function InstallTrace(t: Trace, d: Disk, g: Geometry, lh: seq<nat>, k: nat): (r: Trace)
    requires g.Valid() && |d| == g.size && k <= |lh| < g.nlog && Homes(lh, g)
    decreases k
  {
    if k == 0 then t else Then(InstallTrace(t, d, g, lh, k - 1), Install(d, g, lh, k))
  }

  // The trace t extended by all block writes of recover_from_log.
  ghost function RecoveryTrace(t: Trace, d: Disk, g: Geometry): (r: Trace)
    requires g.Valid() && |d| == g.size && Accepts(d[g.start], g)
  {
    var lh := Entries(d[g.start]);
    Then(InstallTrace(t, d, g, lh, |lh|), Recovered(d, g))
  }

  // The trace t extended by the block writes of commit up to and including the commit header.
  ghost function CommitPointTrace(t: Trace, d: Disk, g: Geometry, lh: seq<nat>, logged: map<nat, Block>): (r: Trace)
    requires g.Valid() && |d| == g.size && Committable(lh, g) && Names(lh, logged)
    ensures r.Then? && |r.disk| == g.size && Accepts(r.disk[g.start], g) && Entries(r.disk[g.start]) == lh
  {
    var written := LogWritten(d, g, lh, logged, |lh|);
    HeaderRoundTrip(written[g.start], lh, g);
    Then(WriteLogTrace(t, d, g, lh, logged, |lh|), HeaderWritten(written, g, lh))
  }

  ghost function CommitTrace(t: Trace, d: Disk, g: Geometry, lh: seq<nat>, logged: map<nat, Block>): (r: Trace)
    requires g.Valid() && |d| == g.size && Committable(lh, g) && Names(lh, logged)
  {
    if lh == [] then t else
      var c := CommitPointTrace(t, d, g, lh, logged);
      RecoveryTrace(c, c.disk, g)
  }

  // A crash at any of the disks that r adds to t is recovered to home blocks h.
  ghost predicate AddedRecoverTo(t: Trace, r: Trace, g: Geometry, h: seq<Block>)
    requires g.Valid()
  {
    r == t || (r.Then? && RecoversTo(r.disk, g, h) && AddedRecoverTo(t, r.prev, g, h))
  }

  lemma {:induction false} InstallCrashes(t: Trace, d: Disk, g: Geometry, k: nat)
    requires g.Valid() && |d| == g.size && Accepts(d[g.start], g) && k <= |Entries(d[g.start])|
    ensures AddedRecoverTo(t, InstallTrace(t, d, g, Entries(d[g.start]), k), g, Home(Recovered(d, g), g))
  {
    if k > 0 {
      InstallCrashes(t, d, g, k - 1);
      InstallFrame(d, g, Entries(d[g.start]), k);
      RecoveredForgets(d, Install(d, g, Entries(d[g.start]), k), g);
    }
  }

  /** A crash at any block write of recovery is recovered to the home blocks an uninterrupted recovery gives. */
  lemma RecoveryCrashes(t: Trace, d: Disk, g: Geometry)
    requires g.Valid() && |d| == g.size && Accepts(d[g.start], g)
    ensures AddedRecoverTo(t, RecoveryTrace(t, d, g), g, Home(Recovered(d, g), g))
  {
    InstallCrashes(t, d, g, |Entries(d[g.start])|);
    RecoveryIdempotent(d, g);
  }

  ghost predicate Occurs(d: Disk, t: Trace) {
    t.Then? && (t.disk == d || Occurs(d, t.prev))
  }

  lemma {:induction false} AddedRecoverToAt(t: Trace, g: Geometry, h: seq<Block>, c: Disk)
    requires g.Valid() && AddedRecoverTo(Boot, t, g, h) && Occurs(c, t)
    ensures RecoversTo(c, g, h)
    decreases t
  {
    if t.disk != c {
      AddedRecoverToAt(t.prev, g, h, c);
    }
  }

  // Each disk of the run is one that a crash during the recovery of its predecessor can leave.
  ghost predicate CrashRun(run: seq<Disk>, g: Geometry)
    requires g.Valid()
  {
    |run| > 0 && |run[0]| == g.size && Accepts(run[0][g.start], g) &&
    (|run| > 1 ==> Occurs(run[1], RecoveryTrace(Boot, run[0], g)) && CrashRun(run[1..], g))
  }

  /** However many times recovery itself is cut short, finishing it gives the same home blocks. */
  lemma {:induction false} AnyNumberOfCrashes(run: seq<Disk>, g: Geometry, h: seq<Block>)
    requires g.Valid() && CrashRun(run, g) && RecoversTo(run[0], g, h)
    ensures RecoversTo(run[|run| - 1], g, h)
  {
    if |run| > 1 {
      RecoveryCrashes(Boot, run[0], g);
      AddedRecoverToAt(RecoveryTrace(Boot, run[0], g), g, h, run[1]);
      AnyNumberOfCrashes(run[1..], g, h);
    }
  }

  lemma {:induction false} WriteLogCrashes(t: Trace, d: Disk, g: Geometry, lh: seq<nat>, logged: map<nat, Block>,
                                           k: nat)
    requires g.Valid() && |d| == g.size && k <= |lh| < g.nlog && Names(lh, logged) && Count(d[g.start]) == 0
    ensures AddedRecoverTo(t, WriteLogTrace(t, d, g, lh, logged, k), g, Home(d, g))
  {
    if k > 0 {
      WriteLogCrashes(t, d, g, lh, logged, k - 1);
      LogWrittenBlocks(d, g, lh, logged, k);
      RecoveredHome(LogWritten(d, g, lh, logged, k), g, d);
    }
  }

  // The header write commits the whole transaction.
  lemma CommitPoint(t: Trace, d: Disk, g: Geometry, lh: seq<nat>, logged: map<nat, Block>)
    requires g.Valid() && |d| == g.size && Committable(lh, g) && Names(lh, logged)
    ensures RecoversTo(CommitPointTrace(t, d, g, lh, logged).disk, g, Home(Overlay(d, logged), g))
  {
    LogWrittenBlocks(d, g, lh, logged, |lh|);
    RecoveredHome(CommitPointTrace(t, d, g, lh, logged).disk, g, Overlay(d, logged));
  }

  /** All or nothing. A crash at any block write before the header is recovered to exactly the old home
      blocks; a crash at the header write or any later one to exactly the new ones. Commit ends with the
      new home blocks and a cleared header. */
  lemma CommitAtomic(t: Trace, d: Disk, g: Geometry, lh: seq<nat>, logged: map<nat, Block>)
    requires g.Valid() && |d| == g.size && Committable(lh, g) && Names(lh, logged)
    requires Count(d[g.start]) == 0 && lh != []
    ensures var post := Home(Overlay(d, logged), g);
            var c := CommitPointTrace(t, d, g, lh, logged);
            var r := CommitTrace(t, d, g, lh, logged);
            && AddedRecoverTo(t, c.prev, g, Home(d, g))
            && AddedRecoverTo(c.prev, r, g, post)
            && r.Then? && |r.disk| == g.size && Home(r.disk, g) == post && Count(r.disk[g.start]) == 0
  {
    var c := CommitPointTrace(t, d, g, lh, logged);
    WriteLogCrashes(t, d, g, lh, logged, |lh|);
    CommitPoint(t, d, g, lh, logged);
    RecoveryCrashes(c, c.disk, g);
    AddedInTwoParts(c.prev, c, RecoveryTrace(c, c.disk, g), g, Home(Overlay(d, logged), g));
  }

  lemma {:induction false} AddedInTwoParts(t: Trace, u: Trace, r: Trace, g: Geometry, h: seq<Block>)
    requires g.Valid() && AddedRecoverTo(t, u, g, h) && AddedRecoverTo(u, r, g, h)
    ensures AddedRecoverTo(t, r, g, h)
    decreases r
  {
    if r != u {
      AddedInTwoParts(t, u, r.prev, g, h);
    }
  }

  datatype HeadResult = Read | Refused | Overflow

  class Log {
    const g: Geometry
    var disk: Disk
    var logged: map<nat, Block>   // data of the pinned buffers that log_write recorded
    var lh: seq<nat>              // log.lh.block[..log.lh.n]
    ghost var crashPoints: Trace

    ghost predicate Valid()
      reads this
    {
      g.Valid() && |disk| == g.size && |lh| <= LOGSIZE && |lh| < g.nlog && Homes(lh, g)
    }

    // The state in which end_op calls commit: the header on disk is cleared and the in-memory header
    // names exactly the pinned buffers, each once.
    ghost predicate ReadyToCommit()
      reads this
    {
      Valid() && Distinct(lh) && Count(disk[g.start]) == 0 && Names(lh, logged)
    }

    constructor (g: Geometry, disk: Disk)
      requires g.Valid() && |disk| == g.size
      ensures Valid() && this.g == g && this.disk == disk && lh == [] && logged == map[] && crashPoints == Boot
    {
      this.g, this.disk, this.logged, this.lh := g, disk, map[], [];
      this.crashPoints := Boot;
    }

    method Bread(b: nat) returns (data: Block)
      requires b < |disk|
      ensures data == if b in logged then logged[b] else disk[b]
    {
      data := if b in logged then logged[b] else disk[b];
    }

    method Bwrite(b: nat, data: Block)
      requires b < |disk|
      modifies this`disk, this`crashPoints
      ensures disk == old(disk)[b := data] && crashPoints == Then(old(crashPoints), disk)
    {
      disk := disk[b := data];
      crashPoints := Then(crashPoints, disk);
    }

    method WriteHead()
      requires Valid() && g.start !in logged
      modifies this`disk, this`crashPoints
      ensures disk == HeaderWritten(old(disk), g, lh)
      ensures crashPoints == Then(old(crashPoints), disk)
    {
      var buf := Bread(g.start);
      var data: seq<Word> := buf[0 := |lh|];
      for i := 0 to |lh|
        invariant |data| == WORDS && data[0] == |lh|
        invariant forall k :: 1 <= k < WORDS ==> data[k] == if k <= i then lh[k - 1] else buf[k]
      {
        data := data[1 + i := lh[i]];
      }
      assert data == PutHeader(buf, lh);
      Bwrite(g.start, data);
    }

    /** Refuses where the C code panics, before any block is changed; overflows where it would go on to store entries
        past its array, having read past the block if there are more than that holds. */
    method ReadHead() returns (r: HeadResult)
      requires Valid() && logged == map[]
      modifies this`lh
      ensures r == if Accepts(disk[g.start], g) then Read else if Passes(disk[g.start], g) then Overflow else Refused
      ensures lh == if r == Read then Entries(disk[g.start]) else old(lh)
      ensures Valid()
    {
      var buf := Bread(g.start);
      if Count(buf) < 0 || Count(buf) >= g.nlog {
        return Refused;
      }
      for i := 0 to if Count(buf) < WORDS then Count(buf) else WORDS - 1
        invariant forall k :: 0 <= k < i ==> g.HomeStart() <= Entry(buf, k) < g.size
      {
        if Entry(buf, i) < g.HomeStart() || Entry(buf, i) >= g.size {
          return Refused;
        }
      }
      if Count(buf) > LOGSIZE {
        return Overflow;
      }
      var entries: seq<nat> := [];
      for i := 0 to Count(buf)
        invariant |entries| == i && forall k :: 0 <= k < i ==> entries[k] == Entry(buf, k)
      {
        entries := entries + [Entry(buf, i)];
      }
      assert entries == Entries(buf);
      lh := entries;
      return Read;
    }

    method WriteLog()
      requires ReadyToCommit()
      modifies this`disk, this`crashPoints
      ensures disk == LogWritten(old(disk), g, lh, logged, |lh|)
      ensures crashPoints == WriteLogTrace(old(crashPoints), old(disk), g, lh, logged, |lh|)
    {
      for tail := 0 to |lh|
        invariant disk == LogWritten(old(disk), g, lh, logged, tail)
        invariant crashPoints == WriteLogTrace(old(crashPoints), old(disk), g, lh, logged, tail)
      {
        var from := Bread(lh[tail]);
        Bwrite(g.start + tail + 1, from);
      }
    }

    // One pass of the install_trans loop, up to and including bwrite.
    method InstallBlock(tail: nat)
      requires Valid() && tail < |lh| && g.Slot(tail) !in logged
      modifies this`disk, this`crashPoints
      ensures disk == old(disk)[lh[tail] := old(disk[g.Slot(tail)])] && crashPoints == Then(old(crashPoints), disk)
    {
      var lbuf := Bread(g.start + tail + 1);
      Bwrite(lh[tail], lbuf);
    }

    /** Copies every log slot home. When not recovering it also unpins each logged buffer. */
    method InstallTrans(recovering: bool)
      requires Valid() && (if recovering then logged == map[] else Distinct(lh) && Names(lh, logged))
      modifies this`disk, this`crashPoints, this`logged
      ensures disk == Install(old(disk), g, lh, |lh|) && logged == map[]
      ensures crashPoints == InstallTrace(old(crashPoints), old(disk), g, lh, |lh|)
    {
      assert lh[0..] == lh;
      for tail := 0 to |lh|
        invariant disk == Install(old(disk), g, lh, tail)
        invariant crashPoints == InstallTrace(old(crashPoints), old(disk), g, lh, tail)
        invariant if recovering then logged == map[] else Names(lh[tail..], logged)
      {
        assert g.Slot(tail) !in lh[tail..];
        InstallBlock(tail);
        if !recovering {
          NamesRest(lh[tail..], logged);
          logged := logged - {lh[tail]};
        }
      }
      assert logged == map[] by {
        assert Names([], logged);
      }
    }

    /** Returns false where the C code panics or has no room for the header; nothing is written then. */
    method RecoverFromLog() returns (ok: bool)
      requires Valid() && logged == map[]
      modifies this`disk, this`crashPoints, this`lh, this`logged
      ensures ok == Accepts(old(disk[g.start]), g)
      ensures !ok ==> disk == old(disk) && crashPoints == old(crashPoints)
      ensures ok ==> ReadyToCommit() && lh == [] && disk == Recovered(old(disk), g)
      ensures ok ==> crashPoints == RecoveryTrace(old(crashPoints), old(disk), g)
    {
      var r := ReadHead();
      ok := r == Read;
      if ok {
        InstallFrame(disk, g, lh, |lh|);
        InstallTrans(true);
        lh := [];
        WriteHead();
      }
    }

    /** See CommitAtomic for what a crash at each of the added crash points is recovered to. */
    method Commit()
      requires ReadyToCommit()
      modifies this`disk, this`crashPoints, this`lh, this`logged
      ensures crashPoints == CommitTrace(old(crashPoints), old(disk), g, old(lh), old(logged))
      ensures ReadyToCommit() && lh == [] && logged == map[]
      ensures Home(disk, g) == Home(Overlay(old(disk), old(logged)), g)
    {
      if |lh| > 0 {
        ghost var c := CommitPointTrace(crashPoints, disk, g, lh, logged);
        CommitAtomic(crashPoints, disk, g, lh, logged);
        WriteLog();
        WriteHead();
        assert crashPoints == c && disk == c.disk;
        InstallFrame(disk, g, lh, |lh|);
        InstallTrans(false);
        lh := [];
        WriteHead();
        assert disk == Recovered(c.disk, g);
      } else {
        assert Overlay(disk, logged) == disk && logged == map[];
      }
    }
  }
}

/**
 Every step of LogSystem keeps its invariant: one lemma per part of the invariant and group of steps, each
 assuming only the parts it uses.
 */
module LogInvariant {
  import opened LogLayout
  import opened BufferCache
  import opened LogSystem

  ghost predicate Next(g: Geometry, s: State, a: Step, s': State) {
    Enabled(g, s, a) && s' == Apply(g, s, a)
  }

  // The same, for each kind of step.

  ghost predicate BufferNext(g: Geometry, s: State, a: Step, s': State) {
    BufferStep(a) && BufferEnabled(g, s, a) && s' == BufferApply(g, s, a)
  }

  ghost predicate OpNext(g: Geometry, s: State, a: Step, s': State) {
    OpStep(a) && OpEnabled(g, s, a) && s' == OpApply(g, s, a)
  }

  ghost predicate CommitNext(g: Geometry, s: State, a: Step, s': State) {
    CommitStep(a) && CommitEnabled(g, s, a) && s' == CommitApply(g, s, a)
  }

  ghost predicate RecoveryNext(g: Geometry, s: State, a: Step, s': State) {
    RecoveryStep(a) && RecoveryEnabled(g, s, a) && s' == RecoveryApply(g, s, a)
  }

  // The buffers keep their identities, references, locks and validity; only contents and pins change.
  ghost predicate SameBuffers(s: State, s': State) {
    && s'.refs == s.refs && s'.locks == s.locks && |s'.bufs| == |s.bufs|
    && forall i :: 0 <= i < |s.bufs| ==>
         && s'.bufs[i].dev == s.bufs[i].dev && s'.bufs[i].blockno == s.bufs[i].blockno
         && s'.bufs[i].refcnt == s.bufs[i].refcnt && s'.bufs[i].valid == s.bufs[i].valid
         && (s.bufs[i].dev != DEV ==> s'.bufs[i].pinned == s.bufs[i].pinned)
  }

  // ---- Shape ----

  lemma BufferStepShape(g: Geometry, s: State, a: Step, s': State)
    requires g.Valid() && BufferNext(g, s, a, s') && InvShape(g, s)
    ensures InvShape(g, s')
  {
  }

  lemma EndOpShape(g: Geometry, s: State, p: Pid, s': State)
    requires g.Valid() && OpNext(g, s, EndOp(p), s') && InvShape(g, s) && InvDirty(g, s)
    ensures InvShape(g, s')
  {
    assert s'.open.Keys == s.open.Keys - {p};
    assert forall i :: i in s.dirty ==> s.dirty[i] in s'.open;
    assert |s'.open| == 0 <==> s'.open == map[];
  }

  lemma BeginOpShape(g: Geometry, s: State, p: Pid, s': State)
    requires g.Valid() && OpNext(g, s, BeginOp(p), s') && InvShape(g, s)
    ensures InvShape(g, s')
  {
    assert s'.open.Keys == s.open.Keys + {p};
    assert |s'.open| == |s.open| + 1;
  }

  lemma LogWriteShape(g: Geometry, s: State, a: Step, s': State)
    requires g.Valid() && (a.LogWrite? || a.Modify?) && OpNext(g, s, a, s') && InvShape(g, s)
    ensures InvShape(g, s')
  {
    assert s'.open.Keys == s.open.Keys;
    assert a.p in s.open && a.p in s'.open;
  }

  lemma CommitStepShape(g: Geometry, s: State, a: Step, s': State)
    requires g.Valid() && CommitNext(g, s, a, s') && InvShape(g, s) && InvDisk(g, s)
    ensures InvShape(g, s')
  {
  }

  lemma RecoveryStepShape(g: Geometry, s: State, a: Step, s': State)
    requires g.Valid() && RecoveryNext(g, s, a, s')
    requires InvShape(g, s) && InvData(g, s) && InvHeader(g, s) && InvDisk(g, s)
    ensures InvShape(g, s')
  {
  }

  // ---- Buffer identities, references and locks ----

  lemma GetHitBufs(g: Geometry, s: State, a: Step, s': State)
    requires a.GetHit? && BufferNext(g, s, a, s') && InvShape(g, s) && InvBufs(g, s)
    ensures InvBufs(g, s')
  {
  }

  lemma DropBufs(g: Geometry, s: State, a: Step, s': State)
    requires a.Drop? && BufferNext(g, s, a, s') && InvShape(g, s) && InvBufs(g, s)
    ensures InvBufs(g, s')
  {
  }

  lemma LockStepBufs(g: Geometry, s: State, a: Step, s': State)
    requires (a.Lock? || a.Fill? || a.Unlock?) && BufferNext(g, s, a, s') && InvShape(g, s) && InvBufs(g, s)
    ensures InvBufs(g, s')
  {
  }

  lemma GetMissBufs(g: Geometry, s: State, a: Step, s': State)
    requires a.GetMiss? && BufferNext(g, s, a, s') && InvShape(g, s) && InvBufs(g, s)
    ensures InvBufs(g, s')
  {
    assert s.refs[a.i] == {};
  }

  lemma OpStepSameBuffers(g: Geometry, s: State, a: Step, s': State)
    requires OpNext(g, s, a, s')
    ensures SameBuffers(s, s')
  {
  }

  lemma CommitStepSameBuffers(g: Geometry, s: State, a: Step, s': State)
    requires CommitNext(g, s, a, s')
    ensures SameBuffers(s, s')
  {
  }

  lemma RecoveryStepSameBuffers(g: Geometry, s: State, a: Step, s': State)
    requires RecoveryNext(g, s, a, s') && !a.Crash?
    ensures SameBuffers(s, s')
  {
  }

  lemma OtherStepSameBuffers(g: Geometry, s: State, a: Step, s': State)
    requires !BufferStep(a) && !a.Crash? && Next(g, s, a, s')
    ensures SameBuffers(s, s')
  {
    if OpStep(a) {
      OpStepSameBuffers(g, s, a, s');
    } else if CommitStep(a) {
      CommitStepSameBuffers(g, s, a, s');
    } else {
      RecoveryStepSameBuffers(g, s, a, s');
    }
  }

  lemma SameBuffersBufs(g: Geometry, s: State, s': State)
    requires SameBuffers(s, s') && InvShape(g, s) && InvBufs(g, s)
    ensures InvBufs(g, s')
  {
  }

  // ---- Modified buffers ----

  lemma BufferStepDirty(g: Geometry, s: State, a: Step, s': State)
    requires g.Valid() && BufferNext(g, s, a, s') && InvShape(g, s) && InvBufs(g, s) && InvDirty(g, s)
    ensures InvDirty(g, s')
  {
  }

  lemma OpStepDirty(g: Geometry, s: State, a: Step, s': State)
    requires g.Valid() && OpNext(g, s, a, s') && InvShape(g, s) && InvDirty(g, s)
    ensures InvDirty(g, s')
  {
  }

  // Commit and recovery run while no operation is open.
  lemma OtherStepDirty(g: Geometry, s: State, a: Step, s': State)
    requires (CommitNext(g, s, a, s') || RecoveryNext(g, s, a, s')) && InvShape(g, s)
    ensures s'.dirty == map[]
  {
  }

  // ---- Pins ----

  // A step that keeps the pending entries, the pins and every valid pending buffer keeps InvPins.
  lemma SamePins(s: State, s': State)
    requires InvPins(s) && Pending(s') == Pending(s) && s'.at == s.at && |s'.bufs| == |s.bufs|
    requires forall i :: 0 <= i < |s.bufs| ==>
               || (s'.bufs[i].dev == s.bufs[i].dev && s'.bufs[i].blockno == s.bufs[i].blockno &&
                   s'.bufs[i].pinned == s.bufs[i].pinned && (s.bufs[i].valid ==> s'.bufs[i].valid))
               || (s.bufs[i].pinned == s'.bufs[i].pinned == 0 && s'.bufs[i].blockno !in Pending(s) &&
                   (s.bufs[i].dev == DEV ==> s.bufs[i].blockno !in Pending(s)))
    ensures InvPins(s')
  {
  }

  lemma PendingIsCached(s: State, b: nat)
    requires InvPins(s) && b in Pending(s)
    ensures !NotCached(s, b)
  {
    assert s.bufs[s.at[b]].blockno == b;
  }

  lemma BufferStepPins(g: Geometry, s: State, a: Step, s': State)
    requires g.Valid() && BufferNext(g, s, a, s') && InvShape(g, s) && InvPins(s)
    ensures InvPins(s')
  {
    assert Pending(s') == Pending(s);
    if a.GetMiss? {
      if a.b in Pending(s) {
        PendingIsCached(s, a.b);
      }
    }
    SamePins(s, s');
  }

  lemma OpStepPins(g: Geometry, s: State, a: Step, s': State)
    requires g.Valid() && OpNext(g, s, a, s') && InvShape(g, s) && InvBufs(g, s) && InvPins(s)
    ensures InvPins(s')
  {
    if a.LogWrite? && s'.lh != s.lh {
      assert Pending(s) == s.lh && Pending(s') == s'.lh == s.lh + [s.bufs[a.i].blockno];
      assert forall j :: 0 <= j < |s.bufs| && j != a.i && s.bufs[j].dev == DEV ==>
             s.bufs[j].blockno != s.bufs[a.i].blockno;
    } else {
      assert Pending(s') == Pending(s);
      SamePins(s, s');
    }
  }

  // Unpinning the first pending block, which only buffer d holds.
  lemma UnpinFirst(s: State, s': State, d: nat, x: nat)
    requires |s'.bufs| == |s.bufs| && s'.at == s.at && d < |s.bufs| && s.bufs[d].dev == DEV && s.bufs[d].blockno == x
    requires InvPins(s) && Pending(s) == [x] + Pending(s') && x !in Pending(s')
    requires forall i :: 0 <= i < |s.bufs| && i != d ==> s'.bufs[i] == s.bufs[i]
    requires forall i :: 0 <= i < |s.bufs| && i != d && s.bufs[i].dev == DEV ==> s.bufs[i].blockno != x
    requires s'.bufs[d] == s.bufs[d].(data := s'.bufs[d].data, pinned := s.bufs[d].pinned - 1)
    ensures InvPins(s')
  {
  }

  lemma InstallPins(g: Geometry, s: State, a: Step, s': State)
    requires g.Valid() && a.DoInstall? && CommitNext(g, s, a, s') && InvShape(g, s) && InvBufs(g, s) && InvPins(s)
    ensures InvPins(s')
  {
    var t := s.phase.t;
    assert Pending(s') == s.lh[t + 1..];
    assert s.lh[t] !in s.lh[t + 1..];
    UnpinFirst(s, s', a.d, s.lh[t]);
  }

  lemma OtherStepPins(g: Geometry, s: State, a: Step, s': State)
    requires (CommitNext(g, s, a, s') && !a.DoInstall?) || (RecoveryNext(g, s, a, s') && !a.Crash?)
    requires InvShape(g, s) && InvPins(s)
    ensures InvPins(s')
  {
    if CommitStep(a) {
      CommitPending(g, s, a, s');
    } else {
      RecoveryPending(g, s, a, s');
    }
    SamePins(s, s');
  }

  ghost predicate SamePinned(s: State, s': State) {
    && s'.at == s.at && |s'.bufs| == |s.bufs|
    && forall i :: 0 <= i < |s.bufs| ==>
         && s'.bufs[i].dev == s.bufs[i].dev && s'.bufs[i].blockno == s.bufs[i].blockno
         && s'.bufs[i].pinned == s.bufs[i].pinned && s'.bufs[i].valid == s.bufs[i].valid
  }

  lemma CommitPending(g: Geometry, s: State, a: Step, s': State)
    requires CommitNext(g, s, a, s') && !a.DoInstall? && InvShape(g, s)
    ensures Pending(s') == Pending(s) && SamePinned(s, s')
  {
  }

  lemma RecoveryPending(g: Geometry, s: State, a: Step, s': State)
    requires RecoveryNext(g, s, a, s') && !a.Crash? && InvShape(g, s)
    ensures Pending(s') == Pending(s) && SamePinned(s, s')
  {
  }

  // ---- Cached contents ----

  lemma SameData(g: Geometry, s: State, s': State)
    requires InvData(g, s) && |s'.bufs| == |s.bufs|
    requires s'.disk == s.disk && s'.logical == s.logical && s'.phase == s.phase && s'.dirty == s.dirty
    requires forall i :: 0 <= i < |s.bufs| && s'.bufs[i].valid ==>
               s.bufs[i].valid && s'.bufs[i].blockno == s.bufs[i].blockno && s'.bufs[i].data == s.bufs[i].data
    ensures InvData(g, s')
  {
  }

  lemma BufferStepData(g: Geometry, s: State, a: Step, s': State)
    requires !a.Fill? && BufferNext(g, s, a, s') && InvData(g, s)
    ensures InvData(g, s')
  {
    SameData(g, s, s');
  }

  // Reading a block that is not cached: its buffer is not pinned, so the disk has the latest contents.
  lemma FillData(g: Geometry, s: State, a: Step, s': State)
    requires g.Valid() && a.Fill? && BufferNext(g, s, a, s')
    requires InvShape(g, s) && InvBufs(g, s) && InvPins(s) && InvData(g, s) && InvDisk(g, s)
    ensures InvData(g, s')
  {
    var b := s.bufs[a.i].blockno;
    assert b !in Pending(s);
    if s.phase.Installing? && g.IsHome(b) && b in s.lh {
      assert s.lh == s.lh[..s.phase.t] + Pending(s);
      assert b in s.lh[..s.phase.t];
    }
    assert s.disk[b] == Latest(g, s, b);
  }

  lemma OpStepData(g: Geometry, s: State, a: Step, s': State)
    requires g.Valid() && !a.LogWrite? && OpNext(g, s, a, s') && InvShape(g, s) && InvData(g, s)
    ensures InvData(g, s')
  {
  }

  lemma LogWriteData(g: Geometry, s: State, a: Step, s': State)
    requires g.Valid() && a.LogWrite? && OpNext(g, s, a, s') && InvShape(g, s) && InvBufs(g, s) && InvData(g, s)
    ensures InvData(g, s')
  {
  }

  lemma LogData(g: Geometry, s: State, a: Step, s': State)
    requires g.Valid() && a.DoLog? && CommitNext(g, s, a, s') && InvShape(g, s) && InvBufs(g, s) && InvData(g, s)
    ensures InvData(g, s')
  {
  }

  lemma HeadData(g: Geometry, s: State, a: Step, s': State)
    requires g.Valid() && (a.DoHead? || a.DoClear?) && CommitNext(g, s, a, s')
    requires InvShape(g, s) && InvBufs(g, s) && InvData(g, s)
    ensures InvData(g, s')
  {
  }

  lemma InstallData(g: Geometry, s: State, a: Step, s': State)
    requires g.Valid() && a.DoInstall? && CommitNext(g, s, a, s')
    requires InvShape(g, s) && InvBufs(g, s) && InvData(g, s) && InvDisk(g, s)
    ensures InvData(g, s')
  {
  }

  lemma ReplayData(g: Geometry, s: State, a: Step, s': State)
    requires g.Valid() && a.DoReplay? && RecoveryNext(g, s, a, s')
    requires InvShape(g, s) && InvBufs(g, s) && InvData(g, s) && InvDisk(g, s)
    ensures InvData(g, s')
  {
  }

  lemma FinishData(g: Geometry, s: State, a: Step, s': State)
    requires g.Valid() && a.Finish? && CommitNext(g, s, a, s') && InvShape(g, s) && InvData(g, s)
    ensures InvData(g, s')
  {
  }

  lemma CrashData(g: Geometry, s: State, a: Step, s': State)
    requires (a.Crash? || a.DoRead?) && RecoveryNext(g, s, a, s') && InvData(g, s)
    ensures InvData(g, s')
  {
  }

  lemma EraseData(g: Geometry, s: State, a: Step, s': State)
    requires g.Valid() && a.DoErase? && RecoveryNext(g, s, a, s')
    requires InvShape(g, s) && InvBufs(g, s) && InvData(g, s) && InvDisk(g, s)
    ensures InvData(g, s')
  {
  }

  // ---- The durable disk ----

  // Steps that change neither the disk nor what the header and log are compared with.
  lemma SameDisk(g: Geometry, s: State, s': State)
    requires g.Valid() && InvShape(g, s) && InvShape(g, s') && InvDisk(g, s)
    requires s'.disk == s.disk && s'.txns == s.txns && s'.lh == s.lh && s'.logical == s.logical && s'.phase == s.phase
    requires s'.hdr == s.hdr
    ensures InvDisk(g, s')
  {
  }

  lemma BufferStepDisk(g: Geometry, s: State, a: Step, s': State)
    requires g.Valid() && (BufferNext(g, s, a, s') || (OpNext(g, s, a, s') && (a.Modify? || a.BeginOp?)))
    requires InvShape(g, s) && InvShape(g, s') && InvDisk(g, s)
    ensures InvDisk(g, s')
  {
    SameDisk(g, s, s');
  }

  lemma OpStepDisk(g: Geometry, s: State, a: Step, s': State)
    requires g.Valid() && (a.LogWrite? || a.EndOp?) && OpNext(g, s, a, s')
    requires InvShape(g, s) && InvShape(g, s') && InvDisk(g, s)
    ensures InvDisk(g, s')
  {
    assert s.open != map[] && s.phase.Idle?;
    assert NoHeader(s');
  }

  lemma FinishDisk(g: Geometry, s: State, a: Step, s': State)
    requires g.Valid() && a.Finish? && CommitNext(g, s, a, s') && InvShape(g, s) && InvShape(g, s') && InvDisk(g, s)
    ensures InvDisk(g, s')
  {
  }

  lemma CrashDisk(g: Geometry, s: State, a: Step, s': State)
    requires g.Valid() && a.Crash? && RecoveryNext(g, s, a, s') && InvShape(g, s) && InvShape(g, s') && InvDisk(g, s)
    ensures InvDisk(g, s')
  {
  }

  lemma ReadDisk(g: Geometry, s: State, a: Step, s': State)
    requires g.Valid() && a.DoRead? && RecoveryNext(g, s, a, s')
    requires InvShape(g, s) && InvShape(g, s') && InvData(g, s) && InvHeader(g, s) && InvDisk(g, s)
    ensures InvDisk(g, s')
  {
  }

  lemma LogDisk(g: Geometry, s: State, a: Step, s': State)
    requires g.Valid() && a.DoLog? && CommitNext(g, s, a, s')
    requires InvShape(g, s) && InvShape(g, s') && InvData(g, s) && InvDisk(g, s)
    ensures InvDisk(g, s')
  {
  }

  lemma HeadDisk(g: Geometry, s: State, a: Step, s': State)
    requires g.Valid() && a.DoHead? && CommitNext(g, s, a, s') && InvShape(g, s) && InvShape(g, s') && InvDisk(g, s)
    ensures InvDisk(g, s')
  {
  }

  // Copying one log slot to its home block.
  lemma InstallOne(g: Geometry, s: State, s': State, t: nat)
    requires g.Valid() && InvShape(g, s) && InvShape(g, s') && InvDisk(g, s) && Installed(g, s, t) && t < |s.hdr|
    requires s'.disk == s.disk[s.hdr[t] := s.disk[g.Slot(t)]] && s'.txns == s.txns && s'.hdr == s.hdr
    ensures Installed(g, s', t + 1)
    ensures forall k :: 0 <= k < |s.hdr| ==> s'.disk[g.Slot(k)] == s.disk[g.Slot(k)]
    ensures forall b :: g.IsHome(b) && b !in s.hdr ==> s'.disk[b] == s.disk[b]
  {
    assert s.hdr[t] in s.hdr;
  }

  lemma InstallDisk(g: Geometry, s: State, a: Step, s': State)
    requires g.Valid() && a.DoInstall? && CommitNext(g, s, a, s')
    requires InvShape(g, s) && InvShape(g, s') && InvData(g, s) && InvDisk(g, s)
    ensures InvDisk(g, s')
  {
    assert s.hdr == s.lh && s.bufs[a.l].data == s.disk[g.Slot(s.phase.t)];
    InstallOne(g, s, s', s.phase.t);
  }

  lemma ReplayDisk(g: Geometry, s: State, a: Step, s': State)
    requires g.Valid() && a.DoReplay? && RecoveryNext(g, s, a, s')
    requires InvShape(g, s) && InvShape(g, s') && InvData(g, s) && InvDisk(g, s)
    ensures InvDisk(g, s')
  {
    assert s.hdr == s.lh && s.bufs[a.l].data == s.disk[g.Slot(s.phase.t)];
    InstallOne(g, s, s', s.phase.t);
  }

  lemma ClearDisk(g: Geometry, s: State, a: Step, s': State)
    requires g.Valid() && a.DoClear? && CommitNext(g, s, a, s')
    requires InvShape(g, s) && InvShape(g, s') && InvData(g, s) && InvDisk(g, s)
    ensures InvDisk(g, s')
  {
  }

  lemma EraseDisk(g: Geometry, s: State, a: Step, s': State)
    requires g.Valid() && a.DoErase? && RecoveryNext(g, s, a, s')
    requires InvShape(g, s) && InvShape(g, s') && InvData(g, s) && InvDisk(g, s)
    ensures InvDisk(g, s')
  {
  }

  lemma StepKeepsHeader(g: Geometry, s: State, a: Step, s': State)
    requires g.Valid() && Next(g, s, a, s') && InvShape(g, s) && InvShape(g, s') && InvHeader(g, s)
    ensures InvHeader(g, s')
  {
    match a
    case DoHead(h) => HeaderRoundTrip(s.bufs[h].data, s.lh, g);
    case DoClear(h) => HeaderRoundTrip(s.bufs[h].data, [], g);
    case DoErase(h) => HeaderRoundTrip(s.bufs[h].data, [], g);
    case _ => OtherStepHeader(g, s, a, s');
  }

  lemma OtherStepHeader(g: Geometry, s: State, a: Step, s': State)
    requires g.Valid() && Next(g, s, a, s') && InvShape(g, s) && !a.DoHead? && !a.DoClear? && !a.DoErase?
    ensures |s'.disk| == |s.disk| && s'.disk[g.start] == s.disk[g.start] && s'.hdr == s.hdr
  {
  }

  // ---- Group commit ----

  lemma BufferStepGroup(g: Geometry, s: State, a: Step, s': State)
    requires BufferNext(g, s, a, s') && InvGroup(s)
    ensures InvGroup(s')
  {
  }

  // A new operation joins the current transaction.
  lemma JoinOps(open: map<Pid, Op>, current: set<OpId>, x: OpId, wrote: map<OpId, set<int>>, blocks: set<int>, p: Pid)
    requires OpsGrouped(open, current, x, wrote, blocks)
    ensures OpsGrouped(open[p := Op(x, 0)], current + {x}, x + 1, wrote[x := {}], blocks)
  {
    assert x !in current;
  }

  lemma JoinTxns(txns: seq<Txn>, current: set<OpId>, x: OpId, wrote: map<OpId, set<int>>)
    requires TxnsDisjoint(txns, current, x, wrote)
    ensures TxnsDisjoint(txns, current + {x}, x + 1, wrote[x := {}])
  {
    forall i | 0 <= i < |txns|
      ensures txns[i].ops !! current + {x} && TxnComplete(txns[i], x + 1, wrote[x := {}]) {
      assert TxnComplete(txns[i], x, wrote);
    }
  }

  lemma BeginOpGroup(g: Geometry, s: State, a: Step, s': State)
    requires a.BeginOp? && OpNext(g, s, a, s') && InvShape(g, s) && InvGroup(s)
    ensures InvGroup(s')
  {
    JoinOps(s.open, s.current, s.nextOp, s.wrote, Blocks(s.lh), a.p);
    JoinTxns(s.txns, s.current, s.nextOp, s.wrote);
  }

  lemma EndOpGroup(g: Geometry, s: State, a: Step, s': State)
    requires (a.EndOp? || a.Modify?) && OpNext(g, s, a, s') && InvGroup(s)
    ensures InvGroup(s')
  {
  }

  lemma LogWriteGroup(g: Geometry, s: State, a: Step, s': State)
    requires a.LogWrite? && OpNext(g, s, a, s') && InvShape(g, s) && InvGroup(s)
    ensures InvGroup(s')
  {
    assert Blocks(s'.lh) == Blocks(s.lh) + {s.bufs[a.i].blockno};
  }

  lemma CommitStepGroup(g: Geometry, s: State, a: Step, s': State)
    requires CommitNext(g, s, a, s') && InvShape(g, s) && InvGroup(s)
    ensures InvGroup(s')
  {
  }

  lemma RecoveryStepGroup(g: Geometry, s: State, a: Step, s': State)
    requires RecoveryNext(g, s, a, s') && InvShape(g, s) && InvGroup(s)
    ensures InvGroup(s')
  {
  }

  // ---- All steps ----

  lemma StepKeepsBuffers(g: Geometry, s: State, a: Step, s': State)
    requires g.Valid() && Inv(g, s) && Next(g, s, a, s')
    ensures InvShape(g, s') && InvBufs(g, s') && InvDirty(g, s') && InvPins(s')
  {
    if BufferStep(a) {
      if a.GetMiss? {
        GetMissBufs(g, s, a, s');
      } else if a.GetHit? {
        GetHitBufs(g, s, a, s');
      } else if a.Drop? {
        DropBufs(g, s, a, s');
      } else {
        LockStepBufs(g, s, a, s');
      }
      BufferStepShape(g, s, a, s'); BufferStepDirty(g, s, a, s'); BufferStepPins(g, s, a, s');
    } else {
      if OpStep(a) {
        if a.EndOp? {
          EndOpShape(g, s, a.p, s');
        } else if a.BeginOp? {
          BeginOpShape(g, s, a.p, s');
        } else {
          LogWriteShape(g, s, a, s');
        }
        OpStepPins(g, s, a, s');
      } else if CommitStep(a) {
        CommitStepShape(g, s, a, s');
      } else {
        RecoveryStepShape(g, s, a, s');
      }
      if !a.Crash? {
        OtherStepSameBuffers(g, s, a, s'); SameBuffersBufs(g, s, s');
      }
      if OpStep(a) {
        OpStepDirty(g, s, a, s');
      } else {
        OtherStepDirty(g, s, a, s');
      }
      if a.DoInstall? {
        InstallPins(g, s, a, s');
      } else if !OpStep(a) && !a.Crash? {
        OtherStepPins(g, s, a, s');
      }
    }
  }

  lemma CommitStepDisk(g: Geometry, s: State, a: Step, s': State)
    requires g.Valid() && CommitNext(g, s, a, s')
    requires InvShape(g, s) && InvShape(g, s') && InvData(g, s) && InvDisk(g, s)
    ensures InvDisk(g, s')
  {
    match a
    case DoLog(_, _) => LogDisk(g, s, a, s');
    case DoHead(_) => HeadDisk(g, s, a, s');
    case DoInstall(_, _) => InstallDisk(g, s, a, s');
    case DoClear(_) => ClearDisk(g, s, a, s');
    case Finish => FinishDisk(g, s, a, s');
  }

  lemma RecoveryStepDisk(g: Geometry, s: State, a: Step, s': State)
    requires g.Valid() && RecoveryNext(g, s, a, s')
    requires InvShape(g, s) && InvShape(g, s') && InvData(g, s) && InvHeader(g, s) && InvDisk(g, s)
    ensures InvDisk(g, s')
  {
    match a
    case Crash(_) => CrashDisk(g, s, a, s');
    case DoRead(_) => ReadDisk(g, s, a, s');
    case DoReplay(_, _) => ReplayDisk(g, s, a, s');
    case DoErase(_) => EraseDisk(g, s, a, s');
  }

  lemma StepKeepsDisk(g: Geometry, s: State, a: Step, s': State)
    requires g.Valid() && Next(g, s, a, s')
    requires InvShape(g, s) && InvShape(g, s') && InvData(g, s) && InvHeader(g, s) && InvDisk(g, s)
    ensures InvDisk(g, s')
  {
    if CommitStep(a) {
      CommitStepDisk(g, s, a, s');
    } else if RecoveryStep(a) {
      RecoveryStepDisk(g, s, a, s');
    } else if a.LogWrite? || a.EndOp? {
      OpStepDisk(g, s, a, s');
    } else {
      BufferStepDisk(g, s, a, s');
    }
  }

  lemma StepKeepsData(g: Geometry, s: State, a: Step, s': State)
    requires g.Valid() && Inv(g, s) && Next(g, s, a, s')
    ensures InvData(g, s') && InvGroup(s')
  {
    if BufferStep(a) {
      if a.Fill? {
        FillData(g, s, a, s');
      } else {
        BufferStepData(g, s, a, s');
      }
      BufferStepGroup(g, s, a, s');
    } else if a.LogWrite? {
      LogWriteData(g, s, a, s'); LogWriteGroup(g, s, a, s');
    } else if OpStep(a) {
      OpStepData(g, s, a, s');
      if a.BeginOp? {
        BeginOpGroup(g, s, a, s');
      } else {
        EndOpGroup(g, s, a, s');
      }
    } else {
      if CommitStep(a) {
        CommitStepGroup(g, s, a, s');
      } else {
        RecoveryStepGroup(g, s, a, s');
      }
      if a.DoLog? {
        LogData(g, s, a, s');
      } else if a.DoHead? || a.DoClear? {
        HeadData(g, s, a, s');
      } else if a.DoInstall? {
        InstallData(g, s, a, s');
      } else if a.DoReplay? {
        ReplayData(g, s, a, s');
      } else if a.Finish? {
        FinishData(g, s, a, s');
      } else if a.DoErase? {
        EraseData(g, s, a, s');
      } else {
        CrashData(g, s, a, s');
      }
    }
  }

  /** Every step keeps the invariant. */
  lemma StepKeepsInv(g: Geometry, s: State, a: Step, s': State)
    requires g.Valid() && Inv(g, s) && Next(g, s, a, s')
    ensures Inv(g, s')
  {
    StepKeepsBuffers(g, s, a, s');
    StepKeepsHeader(g, s, a, s');
    StepKeepsDisk(g, s, a, s');
    StepKeepsData(g, s, a, s');
  }
}

/**
 The redo log and the buffer cache shared by any number of processes (kernel/log.c, kernel/bio.c), as a
 step machine. A step is what one process does under one lock, or one block write; steps of different
 processes interleave freely, and Crash may come between any two of them.

 `disk` survives a crash. `bufs`, `outstanding`, `committing` and `lh` are the kernel's variables, and
 `phase` is the program counter of the process that runs commit or recovery. The remaining fields record
 history: `logical` is what log_write has published, `hdr` the entries of the header on disk, and `txns` the
 transactions whose header reached the disk.
 */
module LogSystem {
  import opened LogLayout
  import opened BufferCache

  type Pid = int
  type OpId = int

  const NOBODY: Pid := -1

  // An admitted operation and the number of header entries it has added so far.
  datatype Op = Op(id: OpId, used: nat)

  // A committed transaction: its operations, its header, and the contents of every block after it.
  datatype Txn = Txn(ops: set<OpId>, blocks: seq<nat>, contents: Disk)

  datatype Phase =
    | Idle
    | Logging(t: nat) | Committing | Installing(t: nat) | Clearing | Finishing    // commit
    | Reading | Replaying(t: nat) | Erasing                                       // recover_from_log

  datatype State = State(
    disk: Disk, bufs: seq<Buf>, outstanding: int, committing: bool, lh: seq<nat>,
    phase: Phase, owner: Pid, locks: seq<Pid>, refs: seq<set<Pid>>, open: map<Pid, Op>, dirty: map<int, Pid>,
    at: map<int, nat>, hdr: seq<nat>, nextOp: OpId, current: set<OpId>, wrote: map<OpId, set<int>>,
    txns: seq<Txn>, logical: Disk)

  datatype Step =
    | GetHit(p: Pid, i: nat, b: nat) | GetMiss(p: Pid, i: nat, b: nat) | Lock(p: Pid, i: nat) | Fill(p: Pid, i: nat)
    | Unlock(p: Pid, i: nat) | Drop(p: Pid, i: nat)
    | Modify(p: Pid, i: nat, data: Block) | LogWrite(p: Pid, i: nat)
    | BeginOp(p: Pid) | EndOp(p: Pid)
    | DoLog(to: nat, from: nat) | DoHead(h: nat) | DoInstall(l: nat, d: nat) | DoClear(h: nat) | Finish
    | Crash(p: Pid) | DoRead(h: nat) | DoReplay(l: nat, d: nat) | DoErase(h: nat)

  predicate Recovering(s: State) {
    s.phase.Reading? || s.phase.Replaying? || s.phase.Erasing?
  }

  function Committed(s: State): Disk
    requires s.txns != []
  {
    s.txns[|s.txns| - 1].contents
  }

  ghost predicate Holds(s: State, p: Pid, i: nat) {
    p != NOBODY && i < |s.locks| && s.locks[i] == p
  }

  ghost predicate Has(s: State, i: nat, b: nat) {
    i < |s.bufs| && s.bufs[i].dev == DEV && s.bufs[i].blockno == b
  }

  // Process p is between bread and brelse of block b, in buffer i.
  ghost predicate HasRead(s: State, p: Pid, i: nat, b: nat) {
    Holds(s, p, i) && Has(s, i, b) && s.bufs[i].valid
  }

  ghost predicate NotCached(s: State, b: nat) {
    forall j :: 0 <= j < |s.bufs| && s.bufs[j].dev == DEV ==> s.bufs[j].blockno != b
  }

  // Every buffer p modified has been logged.
  ghost predicate NothingDirty(s: State, p: Pid) {
    forall i :: i in s.dirty ==> s.dirty[i] != p
  }

  // The panics of log_write and end_op.
  predicate LogWritePanics(g: Geometry, s: State) {
    |s.lh| >= LOGSIZE || |s.lh| >= g.nlog - 1 || s.outstanding < 1
  }

  predicate EndOpPanics(s: State) {
    s.committing
  }

  // The steps of the buffer cache, of an operation, of a commit, and of a crash and recovery.

  predicate BufferStep(a: Step) {
    a.GetHit? || a.GetMiss? || a.Lock? || a.Fill? || a.Unlock? || a.Drop?
  }

  predicate OpStep(a: Step) {
    a.Modify? || a.LogWrite? || a.BeginOp? || a.EndOp?
  }

  predicate CommitStep(a: Step) {
    a.DoLog? || a.DoHead? || a.DoInstall? || a.DoClear? || a.Finish?
  }

  predicate RecoveryStep(a: Step) {
    a.Crash? || a.DoRead? || a.DoReplay? || a.DoErase?
  }

  ghost predicate Enabled(g: Geometry, s: State, a: Step) {
    if BufferStep(a) then BufferEnabled(g, s, a)
    else if OpStep(a) then OpEnabled(g, s, a)
    else if CommitStep(a) then CommitEnabled(g, s, a)
    else RecoveryEnabled(g, s, a)
  }

  ghost function Apply(g: Geometry, s: State, a: Step): State
    requires Enabled(g, s, a)
  {
    if BufferStep(a) then BufferApply(g, s, a)
    else if OpStep(a) then OpApply(g, s, a)
    else if CommitStep(a) then CommitApply(g, s, a)
    else RecoveryApply(g, s, a)
  }

  ghost predicate BufferEnabled(g: Geometry, s: State, a: Step)
    requires BufferStep(a)
  {
    match a
    case GetHit(p, i, b) =>
      (Recovering(s) ==> p == s.owner) && i < |s.refs| && Has(s, i, b) && p !in s.refs[i] && p != NOBODY
    case GetMiss(p, i, b) =>
      && (Recovering(s) ==> p == s.owner) && b < g.size && i < |s.refs| && i < |s.bufs| && CanEvict(s.bufs[i])
      && NotCached(s, b) && p != NOBODY
    case Lock(p, i) =>
      i < |s.refs| && i < |s.locks| && p in s.refs[i] && s.locks[i] == NOBODY
    case Fill(p, i) => Holds(s, p, i) && i < |s.bufs| && !s.bufs[i].valid && s.bufs[i].blockno < |s.disk|
    case Unlock(p, i) => Holds(s, p, i) && i !in s.dirty
    case Drop(p, i) => i < |s.refs| && i < |s.bufs| && p in s.refs[i] && !Holds(s, p, i)
  }

  ghost function BufferApply(g: Geometry, s: State, a: Step): State
    requires BufferStep(a) && BufferEnabled(g, s, a)
  {
    match a
    case GetHit(p, i, b) => s.(bufs := TakeRef(s.bufs, i), refs := s.refs[i := s.refs[i] + {p}])
    case GetMiss(p, i, b) => s.(bufs := Recycle(s.bufs, i, DEV, b), refs := s.refs[i := s.refs[i] + {p}])
    case Lock(p, i) => s.(locks := s.locks[i := p])
    case Fill(p, i) => s.(bufs := s.bufs[i := s.bufs[i].(data := s.disk[s.bufs[i].blockno], valid := true)])
    case Unlock(p, i) => s.(locks := s.locks[i := NOBODY])
    case Drop(p, i) => s.(bufs := DropRef(s.bufs, i), refs := s.refs[i := s.refs[i] - {p}])
  }

  ghost predicate OpEnabled(g: Geometry, s: State, a: Step)
    requires OpStep(a)
  {
    match a
    // A caller changes and logs only home blocks, inside an operation.
    case Modify(p, i, data) =>
      i < |s.bufs| && HasRead(s, p, i, s.bufs[i].blockno) && g.IsHome(s.bufs[i].blockno) && p in s.open
    case LogWrite(p, i) =>
      && i < |s.bufs| && p in s.open && HasRead(s, p, i, s.bufs[i].blockno) && g.IsHome(s.bufs[i].blockno)
      && !LogWritePanics(g, s) && |s.logical| == g.size && s.open[p].id in s.wrote
    case BeginOp(p) =>
      && !Recovering(s) && p !in s.open
      && !s.committing && |s.lh| + (s.outstanding + 1) * MAXOPBLOCKS <= LOGSIZE
    case EndOp(p) => p in s.open && !EndOpPanics(s) && NothingDirty(s, p)
  }

  ghost function OpApply(g: Geometry, s: State, a: Step): State
    requires OpStep(a) && OpEnabled(g, s, a)
  {
    match a
    case Modify(p, i, data) => s.(bufs := s.bufs[i := s.bufs[i].(data := data)], dirty := s.dirty[i as int := p])
    case LogWrite(p, i) =>
      var b, op := s.bufs[i].blockno, s.open[p];
      var r := s.(logical := s.logical[b := s.bufs[i].data], dirty := s.dirty - {i as int},
                  wrote := s.wrote[op.id := s.wrote[op.id] + {b}]);
      if b in s.lh then r else
        r.(lh := s.lh + [b], bufs := s.bufs[i := s.bufs[i].(pinned := s.bufs[i].pinned + 1)],
           open := s.open[p := op.(used := op.used + 1)], at := s.at[b as int := i])
    case BeginOp(p) =>
      s.(outstanding := s.outstanding + 1, open := s.open[p := Op(s.nextOp, 0)], nextOp := s.nextOp + 1,
         current := s.current + {s.nextOp}, wrote := s.wrote[s.nextOp := {}])
    case EndOp(p) =>
      var r := s.(outstanding := s.outstanding - 1, open := s.open - {p});
      if s.outstanding - 1 > 0 then r else
        r.(committing := true, owner := p, phase := if |s.lh| > 0 then Logging(0) else Finishing)
  }

  ghost predicate CommitEnabled(g: Geometry, s: State, a: Step)
    requires CommitStep(a)
  {
    match a
    case DoLog(to, from) =>
      && s.phase.Logging? && s.phase.t < |s.lh| && g.Slot(s.phase.t) < |s.disk|
      && HasRead(s, s.owner, to, g.Slot(s.phase.t)) && HasRead(s, s.owner, from, s.lh[s.phase.t])
    case DoHead(h) =>
      s.phase.Committing? && HasRead(s, s.owner, h, g.start) && g.start < |s.disk| && Committable(s.lh, g) && g.Valid()
    case DoInstall(l, d) =>
      && s.phase.Installing? && s.phase.t < |s.lh| && s.lh[s.phase.t] < |s.disk|
      && HasRead(s, s.owner, l, g.Slot(s.phase.t)) && HasRead(s, s.owner, d, s.lh[s.phase.t]) && s.bufs[d].pinned > 0
    case DoClear(h) => s.phase.Clearing? && HasRead(s, s.owner, h, g.start) && g.start < |s.disk|
    case Finish => s.phase.Finishing?
  }

  ghost function CommitApply(g: Geometry, s: State, a: Step): State
    requires CommitStep(a) && CommitEnabled(g, s, a)
  {
    match a
    case DoLog(to, from) =>
      var data := s.bufs[from].data;
      s.(disk := s.disk[g.Slot(s.phase.t) := data], bufs := s.bufs[to := s.bufs[to].(data := data)],
         phase := if s.phase.t + 1 < |s.lh| then Logging(s.phase.t + 1) else Committing)
    case DoHead(h) =>
      var data := PutHeader(s.bufs[h].data, s.lh);
      s.(disk := s.disk[g.start := data], bufs := s.bufs[h := s.bufs[h].(data := data)],
         hdr := s.lh, phase := Installing(0), txns := s.txns + [Txn(s.current, s.lh, s.logical)], current := {})
    case DoInstall(l, d) =>
      var data := s.bufs[l].data;
      var more := s.phase.t + 1 < |s.lh|;
      s.(disk := s.disk[s.lh[s.phase.t] := data],
         bufs := s.bufs[d := s.bufs[d].(data := data, pinned := s.bufs[d].pinned - 1)],
         phase := if more then Installing(s.phase.t + 1) else Clearing, lh := if more then s.lh else [])
    case DoClear(h) =>
      var data := PutHeader(s.bufs[h].data, []);
      s.(disk := s.disk[g.start := data], bufs := s.bufs[h := s.bufs[h].(data := data)], hdr := [], phase := Finishing)
    case Finish => s.(committing := false, phase := Idle)
  }

  ghost predicate RecoveryEnabled(g: Geometry, s: State, a: Step)
    requires RecoveryStep(a)
  {
    match a
    case Crash(p) => s.txns != []
    case DoRead(h) =>
      s.phase.Reading? && HasRead(s, s.owner, h, g.start) && g.Valid() && Accepts(s.bufs[h].data, g)
    case DoReplay(l, d) =>
      && s.phase.Replaying? && s.phase.t < |s.lh| && s.lh[s.phase.t] < |s.disk|
      && HasRead(s, s.owner, l, g.Slot(s.phase.t)) && HasRead(s, s.owner, d, s.lh[s.phase.t])
    case DoErase(h) => s.phase.Erasing? && HasRead(s, s.owner, h, g.start) && g.start < |s.disk|
  }

  ghost function RecoveryApply(g: Geometry, s: State, a: Step): State
    requires RecoveryStep(a) && RecoveryEnabled(g, s, a)
  {
    match a
    case Crash(p) =>
      s.(bufs := EmptyCache(), outstanding := 0, committing := false, lh := [], phase := Reading, owner := p,
         locks := seq(NBUF, _ => NOBODY), refs := seq(NBUF, _ => {}), open := map[], dirty := map[], at := map[],
         current := {}, logical := Committed(s))
    case DoRead(h) =>
      var lh := Entries(s.bufs[h].data);
      s.(lh := lh, phase := if |lh| > 0 then Replaying(0) else Erasing)
    case DoReplay(l, d) =>
      var data := s.bufs[l].data;
      var more := s.phase.t + 1 < |s.lh|;
      s.(disk := s.disk[s.lh[s.phase.t] := data], bufs := s.bufs[d := s.bufs[d].(data := data)],
         phase := if more then Replaying(s.phase.t + 1) else Erasing, lh := if more then s.lh else [])
    case DoErase(h) =>
      var data := PutHeader(s.bufs[h].data, []);
      s.(disk := s.disk[g.start := data], bufs := s.bufs[h := s.bufs[h].(data := data)], hdr := [], phase := Idle)
  }

  // The machine starts at boot, before recovery, on a disk that mkfs made: no header entries.
  ghost predicate Init(g: Geometry, s: State)
    requires g.Valid()
  {
    && |s.disk| == g.size && Count(s.disk[g.start]) == 0
    && s == State(s.disk, EmptyCache(), 0, false, [], Reading, s.owner, seq(NBUF, _ => NOBODY),
                  seq(NBUF, _ => {}), map[], map[], map[], [], 0, {}, map[], [Txn({}, [], s.disk)], s.disk)
  }

  // ---- Invariant ----

  ghost predicate InvShape(g: Geometry, s: State) {
    && |s.disk| == |s.logical| == g.size && |s.bufs| == |s.refs| == |s.locks| == NBUF
    && s.txns != [] && (forall i :: 0 <= i < |s.txns| ==> |s.txns[i].contents| == g.size)
    && Committable(s.lh, g)
    && (s.phase.Logging? || s.phase.Installing? || s.phase.Replaying? ==> s.phase.t < |s.lh|)
    && (s.phase.Committing? ==> s.lh != [])
    && (s.phase.Clearing? || s.phase.Finishing? || s.phase.Reading? || s.phase.Erasing? ==> s.lh == [])
    && s.outstanding == |s.open|
    && (s.committing <==> !s.phase.Idle? && !Recovering(s))
    && (s.committing || Recovering(s) ==> s.open == map[])
    && (s.open == map[] ==> s.dirty == map[])
    && (s.open == map[] && s.phase.Idle? ==> s.lh == [])
  }

  ghost predicate InvBufs(g: Geometry, s: State)
    requires |s.bufs| == |s.refs| == |s.locks|
  {
    && (forall i :: 0 <= i < |s.bufs| ==>
          && s.bufs[i].refcnt == |s.refs[i]|
          && (s.bufs[i].dev == DEV ==> s.bufs[i].blockno < g.size)
          && (s.bufs[i].dev != DEV ==> !s.bufs[i].valid && s.bufs[i].pinned == 0 && s.refs[i] == {})
          && (s.locks[i] != NOBODY ==> s.locks[i] in s.refs[i]))
    && (forall i, j :: 0 <= i < j < |s.bufs| && s.bufs[i].dev == s.bufs[j].dev == DEV ==>
          s.bufs[i].blockno != s.bufs[j].blockno)
  }

  // Modified buffers that are not logged yet stay locked by an operation.
  ghost predicate InvDirty(g: Geometry, s: State) {
    forall i :: i in s.dirty ==>
      && 0 <= i < |s.bufs| && HasRead(s, s.dirty[i], i, s.bufs[i].blockno) && g.IsHome(s.bufs[i].blockno)
      && s.dirty[i] in s.open
  }

  // The header entries whose buffers are still pinned.
  ghost function Pending(s: State): seq<nat> {
    if s.phase.Installing? && s.phase.t <= |s.lh| then s.lh[s.phase.t..]
    else if Recovering(s) then []
    else s.lh
  }

  // Each pending block is cached, valid and pinned exactly once; nothing else is pinned.
  ghost predicate InvPins(s: State) {
    && (forall i :: 0 <= i < |s.bufs| && s.bufs[i].dev == DEV ==>
          s.bufs[i].pinned == if s.bufs[i].blockno in Pending(s) then 1 else 0)
    && (forall b :: b in Pending(s) ==> b in s.at && Has(s, s.at[b], b) && s.bufs[s.at[b]].valid)
  }

  // What bread of block b gives.
  ghost function Latest(g: Geometry, s: State, b: nat): Block
    requires b < |s.disk| && b < |s.logical|
  {
    if Recovering(s) || !g.IsHome(b) then s.disk[b] else s.logical[b]
  }

  ghost predicate InvData(g: Geometry, s: State) {
    forall i :: 0 <= i < |s.bufs| && s.bufs[i].valid && i !in s.dirty ==>
      && s.bufs[i].blockno < |s.disk| && s.bufs[i].blockno < |s.logical|
      && s.bufs[i].data == Latest(g, s, s.bufs[i].blockno)
  }

  // The header on disk is one that read_head accepts.
  ghost predicate InvHeader(g: Geometry, s: State)
    requires g.Valid() && InvShape(g, s)
  {
    Accepts(s.disk[g.start], g) && Entries(s.disk[g.start]) == s.hdr
  }

  // The durable state: recovery would produce exactly the last committed transaction.
  ghost predicate InvDisk(g: Geometry, s: State)
    requires g.Valid() && InvShape(g, s)
  {
    && Committable(s.hdr, g)
    && (forall k :: 0 <= k < |s.hdr| ==> s.disk[g.Slot(k)] == Committed(s)[s.hdr[k]])
    && (forall b :: g.IsHome(b) && b !in s.hdr ==> s.disk[b] == Committed(s)[b])
    && InvPhase(g, s)
  }

  // The first t entries of the header are installed.
  ghost predicate Installed(g: Geometry, s: State, t: nat)
    requires g.Valid() && InvShape(g, s)
  {
    t <= |s.hdr| && forall k :: 0 <= k < t ==> g.IsHome(s.hdr[k]) && s.disk[s.hdr[k]] == Committed(s)[s.hdr[k]]
  }

  // The first t log slots hold what the in-memory header promises.
  ghost predicate Logged(g: Geometry, s: State, t: nat)
    requires g.Valid() && InvShape(g, s)
  {
    t <= |s.lh| && forall k :: 0 <= k < t ==> s.disk[g.Slot(k)] == s.logical[s.lh[k]]
  }

  ghost predicate InvPhase(g: Geometry, s: State)
    requires g.Valid() && InvShape(g, s)
  {
    && (forall b :: g.IsHome(b) && (b !in s.lh || !NoHeader(s)) ==> s.logical[b] == Committed(s)[b])
    && (NoHeader(s) ==> s.hdr == [])
    && match s.phase
       case Logging(t) => Logged(g, s, t)
       case Committing => Logged(g, s, |s.lh|)
       case Installing(t) => s.hdr == s.lh && Installed(g, s, t)
       case Replaying(t) => s.hdr == s.lh && Installed(g, s, t)
       case Clearing => Installed(g, s, |s.hdr|)
       case Erasing => Installed(g, s, |s.hdr|)
       case _ => true
  }

  // Phases in which the header on disk is known to be empty.
  ghost predicate NoHeader(s: State) {
    s.phase.Idle? || s.phase.Logging? || s.phase.Committing? || s.phase.Finishing?
  }

  // Every operation belongs to at most one transaction, the open ones to the current one, and all its
  // blocks are in that transaction's header.
  ghost predicate InvGroup(s: State) {
    && OpsGrouped(s.open, s.current, s.nextOp, s.wrote, Blocks(s.lh))
    && TxnsDisjoint(s.txns, s.current, s.nextOp, s.wrote)
    && (s.phase.Installing? || s.phase.Clearing? || Recovering(s) ==> s.current == {})
  }

  ghost predicate OpsGrouped(open: map<Pid, Op>, current: set<OpId>, nextOp: OpId, wrote: map<OpId, set<int>>,
                             blocks: set<int>) {
    && (forall p :: p in open ==> open[p].id in current)
    && (forall p, q :: p in open && q in open && p != q ==> open[p].id != open[q].id)
    && (forall x :: x in current ==> x < nextOp && x in wrote && wrote[x] <= blocks)
  }

  ghost predicate TxnsDisjoint(txns: seq<Txn>, current: set<OpId>, nextOp: OpId, wrote: map<OpId, set<int>>) {
    && (forall i :: 0 <= i < |txns| ==> txns[i].ops !! current && TxnComplete(txns[i], nextOp, wrote))
    && (forall i, j :: 0 <= i < j < |txns| ==> txns[i].ops !! txns[j].ops)
  }

  // The header of a transaction names every block its operations logged.
  ghost predicate TxnComplete(t: Txn, nextOp: OpId, wrote: map<OpId, set<int>>) {
    forall x :: x in t.ops ==> x < nextOp && x in wrote && wrote[x] <= Blocks(t.blocks)
  }

  ghost function Blocks(lh: seq<nat>): set<int> {
    set b | b in lh
  }

  ghost predicate Inv(g: Geometry, s: State)
    requires g.Valid()
  {
    && InvShape(g, s) && InvBufs(g, s) && InvDirty(g, s) && InvPins(s) && InvData(g, s)
    && InvHeader(g, s) && InvDisk(g, s) && InvGroup(s)
  }
}

/**
 What kernel/log.c and kernel/bio.c promise, for every run of LogSystem: any number of processes, any
 interleaving, a crash between any two steps, crashes during recovery included.
 */
module LogTheorems {
  import opened LogLayout
  import opened BufferCache
  import opened LogSystem
  import opened LogInvariant
  import Log

  ghost predicate IsRun(g: Geometry, states: seq<State>, steps: seq<Step>)
    requires g.Valid()
  {
    |states| == |steps| + 1 && Init(g, states[0]) && forall k :: 0 <= k < |steps| ==> StepAt(g, states, steps, k)
  }

  ghost predicate StepAt(g: Geometry, states: seq<State>, steps: seq<Step>, k: nat) {
    k < |steps| && k + 1 < |states| && Next(g, states[k], steps[k], states[k + 1])
  }

  lemma InitInv(g: Geometry, s: State)
    requires g.Valid() && Init(g, s)
    ensures Inv(g, s)
  {
    assert Entries(s.disk[g.start]) == [];
  }

  lemma {:induction false} RunInv(g: Geometry, states: seq<State>, steps: seq<Step>, k: nat)
    requires g.Valid() && IsRun(g, states, steps) && k < |states|
    ensures Inv(g, states[k])
    decreases k
  {
    if k == 0 {
      InitInv(g, states[0]);
    } else {
      RunInv(g, states, steps, k - 1);
      assert StepAt(g, states, steps, k - 1);
      StepKeepsInv(g, states[k - 1], steps[k - 1], states[k]);
    }
  }

  lemma RunShape(g: Geometry, states: seq<State>, steps: seq<Step>, k: nat)
    requires g.Valid() && IsRun(g, states, steps) && k < |states|
    ensures InvShape(g, states[k])
  {
    RunInv(g, states, steps, k);
  }

  /** Crash atomicity: whenever the machine stops, recovery accepts the header and leaves exactly the home
      blocks of the last committed transaction, never part of one. */
  lemma CrashAtomic(g: Geometry, states: seq<State>, steps: seq<Step>, k: nat)
    requires g.Valid() && IsRun(g, states, steps) && k < |states|
    ensures states[k].txns != [] && |Committed(states[k])| == g.size
    ensures Log.RecoversTo(states[k].disk, g, Home(Committed(states[k]), g))
  {
    RunInv(g, states, steps, k);
    RecoveredHome(states[k].disk, g, Committed(states[k]));
  }

  /** Once recovery has run, or between commits, the home blocks on disk are those of the last transaction. */
  lemma QuiescentDisk(g: Geometry, states: seq<State>, steps: seq<Step>, k: nat)
    requires g.Valid() && IsRun(g, states, steps) && k < |states| && states[k].phase.Idle?
    ensures |states[k].disk| == g.size && states[k].txns != [] && |Committed(states[k])| == g.size
    ensures Home(states[k].disk, g) == Home(Committed(states[k]), g) && Count(states[k].disk[g.start]) == 0
  {
    RunInv(g, states, steps, k);
    assert states[k].hdr == [];
  }

  lemma StepTxns(g: Geometry, s: State, a: Step, s': State)
    requires Next(g, s, a, s')
    ensures s.txns <= s'.txns
  {
  }

  // Committed transactions are never lost or changed, crash or not.
  lemma {:induction false} TxnsOnlyGrow(g: Geometry, states: seq<State>, steps: seq<Step>, j: nat, k: nat)
    requires g.Valid() && IsRun(g, states, steps) && j <= k < |states|
    ensures states[j].txns <= states[k].txns
    decreases k
  {
    if j < k {
      TxnsOnlyGrow(g, states, steps, j, k - 1);
      NextTxns(g, states, steps, k - 1);
    }
  }

  lemma NextTxns(g: Geometry, states: seq<State>, steps: seq<Step>, k: nat)
    requires g.Valid() && IsRun(g, states, steps) && k < |steps|
    ensures states[k].txns <= states[k + 1].txns
  {
    assert StepAt(g, states, steps, k);
    StepTxns(g, states[k], steps[k], states[k + 1]);
  }

  // Only an open operation logs, and a committed one is not open.
  lemma OpKeepsCommittedWrites(g: Geometry, s: State, a: Step, s': State, i: nat, x: OpId)
    requires InvGroup(s) && OpNext(g, s, a, s') && i < |s.txns| && x in s.txns[i].ops
    ensures x in s.wrote && x in s'.wrote && s'.wrote[x] == s.wrote[x]
  {
    assert s.txns[i].ops !! s.current;
    assert TxnComplete(s.txns[i], s.nextOp, s.wrote);
  }

  lemma OthersKeepWrites(g: Geometry, s: State, a: Step, s': State)
    requires Next(g, s, a, s') && !OpStep(a)
    ensures s'.wrote == s.wrote
  {
  }

  lemma StepKeepsCommittedWrites(g: Geometry, s: State, a: Step, s': State, i: nat, x: OpId)
    requires InvGroup(s) && Next(g, s, a, s') && i < |s.txns| && x in s.txns[i].ops
    ensures x in s.wrote && x in s'.wrote && s'.wrote[x] == s.wrote[x]
  {
    if OpStep(a) {
      OpKeepsCommittedWrites(g, s, a, s', i, x);
    } else {
      OthersKeepWrites(g, s, a, s');
      assert TxnComplete(s.txns[i], s.nextOp, s.wrote);
    }
  }

  // Operation x is in transaction i and in no other, and the header of transaction i names all its blocks.
  ghost predicate InCommit(s: State, i: nat, x: OpId) {
    && i < |s.txns| && x in s.txns[i].ops && x !in s.current
    && (forall m :: 0 <= m < |s.txns| && x in s.txns[m].ops ==> m == i)
    && x in s.wrote && s.wrote[x] <= Blocks(s.txns[i].blocks)
  }

  lemma InvInCommit(g: Geometry, s: State, i: nat, x: OpId)
    requires g.Valid() && Inv(g, s) && i < |s.txns| && x in s.txns[i].ops
    ensures InCommit(s, i, x)
  {
    assert s.txns[i].ops !! s.current;
    assert TxnComplete(s.txns[i], s.nextOp, s.wrote);
  }

  lemma {:induction false} CommittedWritesFixed(g: Geometry, states: seq<State>, steps: seq<Step>, j: nat, k: nat,
                                                i: nat, x: OpId)
    requires g.Valid() && IsRun(g, states, steps) && j <= k < |states|
    requires i < |states[j].txns| && x in states[j].txns[i].ops && x in states[j].wrote
    ensures i < |states[k].txns| && states[k].txns[i] == states[j].txns[i]
    ensures x in states[k].wrote && states[k].wrote[x] == states[j].wrote[x]
    decreases k
  {
    TxnsOnlyGrow(g, states, steps, j, k);
    if j < k {
      CommittedWritesFixed(g, states, steps, j, k - 1, i, x);
      NextKeepsCommittedWrites(g, states, steps, k - 1, i, x);
    }
  }

  lemma NextKeepsCommittedWrites(g: Geometry, states: seq<State>, steps: seq<Step>, k: nat, i: nat, x: OpId)
    requires g.Valid() && IsRun(g, states, steps) && k < |steps| && i < |states[k].txns| && x in states[k].txns[i].ops
    ensures x in states[k].wrote && x in states[k + 1].wrote && states[k + 1].wrote[x] == states[k].wrote[x]
  {
    RunInv(g, states, steps, k);
    assert StepAt(g, states, steps, k);
    StepKeepsCommittedWrites(g, states[k], steps[k], states[k + 1], i, x);
  }

  /** Group commit: an operation is in at most one transaction, that transaction's header names every block
      the operation ever logs, and the operation logs nothing after it. */
  lemma OpInOneCommit(g: Geometry, states: seq<State>, steps: seq<Step>, j: nat, k: nat, i: nat, x: OpId)
    requires g.Valid() && IsRun(g, states, steps) && j <= k < |states|
    requires i < |states[j].txns| && x in states[j].txns[i].ops
    ensures InCommit(states[j], i, x) && InCommit(states[k], i, x)
    ensures states[k].txns[i] == states[j].txns[i] && states[k].wrote[x] == states[j].wrote[x]
  {
    RunInv(g, states, steps, j);
    InvInCommit(g, states[j], i, x);
    CommittedWritesFixed(g, states, steps, j, k, i, x);
    RunInv(g, states, steps, k);
    InvInCommit(g, states[k], i, x);
  }

  /** An open operation has nothing committed yet. */
  lemma OpenIsUncommitted(g: Geometry, states: seq<State>, steps: seq<Step>, k: nat, p: Pid, i: nat)
    requires g.Valid() && IsRun(g, states, steps) && k < |states| && p in states[k].open && i < |states[k].txns|
    ensures states[k].open[p].id !in states[k].txns[i].ops
  {
    RunInv(g, states, steps, k);
    assert states[k].txns[i].ops !! states[k].current;
  }

  // Operation x is waiting for its commit, or committed.
  ghost predicate Known(s: State, x: OpId) {
    x in s.current || exists i :: 0 <= i < |s.txns| && x in s.txns[i].ops
  }

  lemma StepKeepsKnown(g: Geometry, s: State, a: Step, s': State, x: OpId)
    requires Next(g, s, a, s') && !a.Crash? && Known(s, x)
    ensures Known(s', x)
  {
    if x in s.current {
      assert x in s'.current || x in s'.txns[|s.txns|].ops;
    } else {
      var i :| 0 <= i < |s.txns| && x in s.txns[i].ops;
      assert s'.txns[i] == s.txns[i];
    }
  }

  ghost predicate NoCrash(steps: seq<Step>, j: nat, k: nat)
    requires j <= k <= |steps|
  {
    forall m :: j <= m < k ==> !steps[m].Crash?
  }

  lemma {:induction false} BegunIsKnown(g: Geometry, states: seq<State>, steps: seq<Step>, j: nat, k: nat)
    requires g.Valid() && IsRun(g, states, steps) && j < k < |states| && steps[j].BeginOp? && NoCrash(steps, j, k)
    ensures Known(states[k], states[j].nextOp)
    decreases k
  {
    assert StepAt(g, states, steps, k - 1);
    if j < k - 1 {
      BegunIsKnown(g, states, steps, j, k - 1);
      StepKeepsKnown(g, states[k - 1], steps[k - 1], states[k], states[j].nextOp);
    }
  }

  /** Group commit: from its begin_op on, unless the machine crashes, an operation is waiting for its commit or in
      exactly one. Once no operation is open and no commit is running, it is in exactly one if it logged anything. */
  lemma OpIsCommitted(g: Geometry, states: seq<State>, steps: seq<Step>, j: nat, k: nat)
    requires g.Valid() && IsRun(g, states, steps) && j < k < |states| && steps[j].BeginOp? && NoCrash(steps, j, k)
    ensures var s, x := states[k], states[j].nextOp;
            && x in s.wrote && (x in s.current || exists i :: InCommit(s, i, x))
            && (s.phase.Idle? && s.open == map[] && s.wrote[x] != {} ==> exists i :: InCommit(s, i, x))
  {
    var s, x := states[k], states[j].nextOp;
    BegunIsKnown(g, states, steps, j, k);
    RunInv(g, states, steps, k);
    if x in s.current {
      assert s.phase.Idle? && s.open == map[] ==> Blocks(s.lh) == {};
    } else {
      var i :| 0 <= i < |s.txns| && x in s.txns[i].ops;
      InvInCommit(g, s, i, x);
    }
  }

  /** There is at most one committer, it runs only while no operation is open, and until it is done nobody
      else changes the header. So end_op never finds a commit in progress. */
  lemma CommitIsExclusive(g: Geometry, states: seq<State>, steps: seq<Step>, k: nat, a: Step)
    requires g.Valid() && IsRun(g, states, steps) && k < |states|
    ensures states[k].committing ==> states[k].open == map[] && states[k].outstanding == 0
    ensures states[k].open != map[] ==> !EndOpPanics(states[k])
    ensures states[k].committing && Enabled(g, states[k], a) && !CommitStep(a) && !a.Crash? ==>
              var s' := Apply(g, states[k], a);
              s'.lh == states[k].lh && s'.logical == states[k].logical && s'.committing && s'.owner == states[k].owner
  {
    RunInv(g, states, steps, k);
  }

  /** read_head accepts every header it reads, so recovery never panics. */
  lemma ReadHeadAccepts(g: Geometry, states: seq<State>, steps: seq<Step>, k: nat, h: nat)
    requires g.Valid() && IsRun(g, states, steps) && k < |states|
    requires states[k].phase.Reading? && HasRead(states[k], states[k].owner, h, g.start)
    ensures Accepts(states[k].bufs[h].data, g) && Distinct(Entries(states[k].bufs[h].data))
  {
    RunInv(g, states, steps, k);
    assert states[k].bufs[h].data == states[k].disk[g.start];
  }

  /** install_trans always finds the one pin that log_write placed, so bunpin never panics. */
  lemma BunpinFindsPin(g: Geometry, states: seq<State>, steps: seq<Step>, k: nat, d: nat)
    requires g.Valid() && IsRun(g, states, steps) && k < |states|
    requires states[k].phase.Installing? && states[k].phase.t < |states[k].lh|
    requires HasRead(states[k], states[k].owner, d, states[k].lh[states[k].phase.t])
    ensures states[k].bufs[d].pinned == 1
  {
    RunInv(g, states, steps, k);
    assert states[k].lh[states[k].phase.t] == Pending(states[k])[0];
  }

  /** Pins balance: with no operation open and no commit running, no buffer is pinned. Otherwise exactly the
      blocks still to be installed are, once each. */
  lemma PinsBalance(g: Geometry, states: seq<State>, steps: seq<Step>, k: nat, i: nat)
    requires g.Valid() && IsRun(g, states, steps) && k < |states| && i < |states[k].bufs|
    ensures states[k].phase.Idle? && states[k].open == map[] ==> states[k].bufs[i].pinned == 0
    ensures 0 <= states[k].bufs[i].pinned <= 1
    ensures states[k].bufs[i].pinned == 1 <==>
            states[k].bufs[i].dev == DEV && states[k].bufs[i].blockno in Pending(states[k])
  {
    RunInv(g, states, steps, k);
  }

  /** One buffer per block. */
  lemma OneBufferPerBlock(g: Geometry, states: seq<State>, steps: seq<Step>, k: nat, i: nat, j: nat)
    requires g.Valid() && IsRun(g, states, steps) && k < |states| && i < |states[k].bufs| && j < |states[k].bufs|
    requires states[k].bufs[i].dev == states[k].bufs[j].dev == DEV
    requires states[k].bufs[i].blockno == states[k].bufs[j].blockno
    ensures i == j
  {
    RunInv(g, states, steps, k);
  }

  lemma StepKeepsInUse(g: Geometry, s: State, a: Step, s': State, i: nat)
    requires Next(g, s, a, s') && i < |s.bufs| && !CanEvict(s.bufs[i]) && !a.Crash?
    ensures |s'.bufs| == |s.bufs| && s'.bufs[i].dev == s.bufs[i].dev && s'.bufs[i].blockno == s.bufs[i].blockno
  {
    if !BufferStep(a) {
      OtherStepSameBuffers(g, s, a, s');
    }
  }

  /** A referenced or pinned buffer is never given to another block. */
  lemma InUseKeepsIdentity(g: Geometry, states: seq<State>, steps: seq<Step>, k: nat, i: nat)
    requires g.Valid() && IsRun(g, states, steps) && k < |steps| && i < |states[k].bufs|
    requires !CanEvict(states[k].bufs[i]) && !steps[k].Crash?
    ensures |states[k + 1].bufs| == |states[k].bufs| && states[k + 1].bufs[i].dev == states[k].bufs[i].dev
    ensures states[k + 1].bufs[i].blockno == states[k].bufs[i].blockno
  {
    assert StepAt(g, states, steps, k);
    StepKeepsInUse(g, states[k], steps[k], states[k + 1], i);
  }

  // ---- The cache of the machine and the cache as a linked list ----

  /** bget on the linked list is a step of the machine: a hit if it finds the block, a miss if it finds a victim. */
  lemma BgetIsStep(g: Geometry, s: State, order: seq<nat>, pos: seq<nat>, p: Pid, b: nat)
    requires Permutation(order, pos) && |s.bufs| == |s.refs| == NBUF && b < g.size && p != NOBODY
    requires (Recovering(s) ==> p == s.owner) && forall i :: 0 <= i < NBUF && Has(s, i, b) ==> p !in s.refs[i]
    ensures var f, v := FindFrom(order, s.bufs, DEV, b, 0), VictimBefore(order, s.bufs, NBUF);
            if f < NBUF then
              var a := GetHit(p, order[f], b); Enabled(g, s, a) && Apply(g, s, a).bufs == TakeRef(s.bufs, order[f])
            else if v >= 0 then
              var a := GetMiss(p, order[v], b);
              Enabled(g, s, a) && Apply(g, s, a).bufs == Recycle(s.bufs, order[v], DEV, b)
            else NotCached(s, b) && forall i :: 0 <= i < NBUF ==> !CanEvict(s.bufs[i])
  {
    LookupIsComplete(order, pos, s.bufs, DEV, b);
    var f, v := FindFrom(order, s.bufs, DEV, b, 0), VictimBefore(order, s.bufs, NBUF);
    if f < NBUF {
      HitIsStep(g, s, p, order[f], b);
    } else if v >= 0 {
      MissIsStep(g, s, p, order[v], b);
    }
  }

  lemma HitIsStep(g: Geometry, s: State, p: Pid, i: nat, b: nat)
    requires i < |s.refs| && Has(s, i, b) && p !in s.refs[i] && p != NOBODY && (Recovering(s) ==> p == s.owner)
    ensures Enabled(g, s, GetHit(p, i, b)) && Apply(g, s, GetHit(p, i, b)).bufs == TakeRef(s.bufs, i)
  {
  }

  lemma MissIsStep(g: Geometry, s: State, p: Pid, i: nat, b: nat)
    requires i < |s.refs| == |s.bufs| && CanEvict(s.bufs[i]) && b < g.size && p != NOBODY
    requires (Recovering(s) ==> p == s.owner)
    requires forall j :: 0 <= j < |s.bufs| ==> !IsFor(s.bufs[j], DEV, b)
    ensures Enabled(g, s, GetMiss(p, i, b)) && Apply(g, s, GetMiss(p, i, b)).bufs == Recycle(s.bufs, i, DEV, b)
  {
    assert forall j :: 0 <= j < |s.bufs| && s.bufs[j].dev == DEV ==> !IsFor(s.bufs[j], DEV, b);
  }

  // What a step in state s makes the latest contents of block b, given that it was `prev`: log_write
  // publishes the buffer, and a crash takes the block back to the last committed transaction.
  ghost function Published(s: State, a: Step, b: nat, prev: Block): Block {
    match a
    case LogWrite(p, i) => if i < |s.bufs| && s.bufs[i].blockno == b then s.bufs[i].data else prev
    case Crash(_) => if s.txns != [] && b < |Committed(s)| then Committed(s)[b] else prev
    case _ => prev
  }

  /** The contents that were last published for block b before state k. */
  ghost function LastLogged(states: seq<State>, steps: seq<Step>, k: nat, b: nat): Block
    requires k < |states| == |steps| + 1 && b < |states[0].disk|
    decreases k
  {
    if k == 0 then states[0].disk[b]
    else Published(states[k - 1], steps[k - 1], b, LastLogged(states, steps, k - 1, b))
  }

  lemma StepPublishes(g: Geometry, s: State, a: Step, s': State, b: nat)
    requires InvShape(g, s) && InvShape(g, s') && Next(g, s, a, s') && b < g.size
    ensures s'.logical[b] == Published(s, a, b, s.logical[b])
  {
  }

  lemma {:induction false} LogicalIsLastLogged(g: Geometry, states: seq<State>, steps: seq<Step>, k: nat, b: nat)
    requires g.Valid() && IsRun(g, states, steps) && k < |states| && b < g.size
    ensures InvShape(g, states[k]) && states[k].logical[b] == LastLogged(states, steps, k, b)
    decreases k
  {
    RunShape(g, states, steps, k);
    if k > 0 {
      LogicalIsLastLogged(g, states, steps, k - 1, b);
      assert StepAt(g, states, steps, k - 1);
      StepPublishes(g, states[k - 1], steps[k - 1], states[k], b);
    }
  }

  /** The cache is transparent: a process that has read home block b sees what log_write last published for
      it, unless the process itself is in the middle of changing it. Eviction never writes back. */
  lemma BreadReturnsLatest(g: Geometry, states: seq<State>, steps: seq<Step>, k: nat, p: Pid, i: nat, b: nat)
    requires g.Valid() && IsRun(g, states, steps) && k < |states| && HasRead(states[k], p, i, b)
    requires g.IsHome(b) && !Recovering(states[k])
    ensures i !in states[k].dirty ==> states[k].bufs[i].data == LastLogged(states, steps, k, b)
    ensures i in states[k].dirty ==> states[k].dirty[i] == p && p in states[k].open
  {
    RunInv(g, states, steps, k);
    LogicalIsLastLogged(g, states, steps, k, b);
  }

  /** Durability: with no operation open and no commit running, the disk itself holds what was published last. */
  lemma QuiescentIsDurable(g: Geometry, states: seq<State>, steps: seq<Step>, k: nat, b: nat)
    requires g.Valid() && IsRun(g, states, steps) && k < |states| && g.IsHome(b)
    requires states[k].phase.Idle? && states[k].open == map[]
    ensures |states[k].disk| == g.size && states[k].disk[b] == LastLogged(states, steps, k, b)
  {
    RunInv(g, states, steps, k);
    LogicalIsLastLogged(g, states, steps, k, b);
    assert states[k].hdr == [] && states[k].lh == [];
  }

  /** Every committed transaction is a state of the logical disk in which no operation was open: recovery never shows
      part of an operation. */
  lemma {:induction false} CommitsAreQuiescent(g: Geometry, states: seq<State>, steps: seq<Step>, k: nat, i: nat)
    requires g.Valid() && IsRun(g, states, steps) && k < |states| && i < |states[k].txns|
    ensures exists j :: 0 <= j <= k && states[j].open == map[] && states[k].txns[i].contents == states[j].logical
    decreases k
  {
    if k == 0 {
      assert states[0].open == map[];
    } else {
      NextCommit(g, states, steps, k - 1, i);
      if states[k].txns[i].contents != states[k - 1].logical || states[k - 1].open != map[] {
        CommitsAreQuiescent(g, states, steps, k - 1, i);
      }
    }
  }

  lemma NextCommit(g: Geometry, states: seq<State>, steps: seq<Step>, k: nat, i: nat)
    requires g.Valid() && IsRun(g, states, steps) && k < |steps| && i < |states[k + 1].txns|
    ensures
      || (i < |states[k].txns| && states[k + 1].txns[i] == states[k].txns[i])
      || (states[k].open == map[] && states[k + 1].txns[i].contents == states[k].logical)
  {
    RunShape(g, states, steps, k);
    assert StepAt(g, states, steps, k);
    StepCommit(g, states[k], steps[k], states[k + 1], i);
  }

  lemma StepCommit(g: Geometry, s: State, a: Step, s': State, i: nat)
    requires InvShape(g, s) && Next(g, s, a, s') && i < |s'.txns|
    ensures (i < |s.txns| && s'.txns[i] == s.txns[i]) || (s.open == map[] && s'.txns[i].contents == s.logical)
  {
  }

  // States i and j have no open operation, all between them do, and there is no crash.
  ghost predicate IsGroup(states: seq<State>, steps: seq<Step>, i: nat, j: nat) {
    && i < j < |states| == |steps| + 1 && states[i].open == map[] == states[j].open && NoCrash(steps, i, j)
    && forall x :: i < x < j ==> states[x].open != map[]
  }

  // The operations of that group, taken together, keep P.
  ghost predicate GroupKeeps(g: Geometry, states: seq<State>, steps: seq<Step>, i: nat, j: nat, P: seq<Block> -> bool)
    requires g.Valid()
  {
    IsGroup(states, steps, i, j) && |states[i].logical| == |states[j].logical| == g.size &&
      P(Home(states[i].logical, g)) ==>
      P(Home(states[j].logical, g))
  }

  lemma StepCrash(g: Geometry, states: seq<State>, steps: seq<Step>, k: nat)
    requires g.Valid() && IsRun(g, states, steps) && k < |steps| && steps[k].Crash?
    ensures states[k].txns != [] && states[k + 1].logical == Committed(states[k]) && states[k + 1].open == map[]
  {
    assert StepAt(g, states, steps, k);
  }

  // The last state before state k without an open operation.
  ghost function LastQuiet(states: seq<State>, k: nat): (i: nat)
    requires 0 < k <= |states| && states[0].open == map[]
    ensures i < k && states[i].open == map[] && forall x :: i < x < k ==> states[x].open != map[]
  {
    if states[k - 1].open == map[] then k - 1 else LastQuiet(states, k - 1)
  }

  // What leads to a state without open operations, if not a crash, is a group.
  lemma GroupBefore(g: Geometry, states: seq<State>, steps: seq<Step>, k: nat)
    requires g.Valid() && IsRun(g, states, steps) && 0 < k < |states| && states[k].open == map[] && !steps[k - 1].Crash?
    ensures IsGroup(states, steps, LastQuiet(states, k), k)
  {
    var i := LastQuiet(states, k);
    forall m | i <= m < k ensures !steps[m].Crash? {
      if steps[m].Crash? {
        StepCrash(g, states, steps, m);
      }
    }
  }

  lemma {:induction false} QuiescentKeeps(g: Geometry, states: seq<State>, steps: seq<Step>, k: nat,
                                          P: seq<Block> -> bool)
    requires g.Valid() && IsRun(g, states, steps) && k < |states| && states[k].open == map[]
    requires |states[0].logical| == g.size && P(Home(states[0].logical, g))
    requires forall i: nat, j: nat :: j <= k ==> GroupKeeps(g, states, steps, i, j, P)
    ensures |states[k].logical| == g.size && P(Home(states[k].logical, g))
    decreases k, 0
  {
    if k > 0 {
      if steps[k - 1].Crash? {
        StepCrash(g, states, steps, k - 1);
        CommittedKeeps(g, states, steps, k - 1, P);
      } else {
        var i := LastQuiet(states, k);
        QuiescentKeeps(g, states, steps, i, P);
        GroupBefore(g, states, steps, k);
        RunShape(g, states, steps, k);
        assert GroupKeeps(g, states, steps, i, k, P);
      }
    }
  }

  lemma {:induction false} CommittedKeeps(g: Geometry, states: seq<State>, steps: seq<Step>, k: nat,
                                          P: seq<Block> -> bool)
    requires g.Valid() && IsRun(g, states, steps) && k < |states| && states[k].txns != []
    requires |states[0].logical| == g.size && P(Home(states[0].logical, g))
    requires forall i: nat, j: nat :: j <= k ==> GroupKeeps(g, states, steps, i, j, P)
    ensures |Committed(states[k])| == g.size && P(Home(Committed(states[k]), g))
    decreases k, 1
  {
    var n := |states[k].txns| - 1;
    CommitsAreQuiescent(g, states, steps, k, n);
    var j: nat :| j <= k && states[j].open == map[] && states[k].txns[n].contents == states[j].logical;
    QuiescentKeeps(g, states, steps, j, P);
  }

  /** What operations keep, crashes keep: if a property holds of the first home blocks and every group of operations,
      from one state without open operations to the next, keeps it, then it holds of what recovery leaves, after a crash
      at any point of any run, earlier crashes included. */
  lemma CrashKeeps(g: Geometry, states: seq<State>, steps: seq<Step>, k: nat, P: seq<Block> -> bool)
    requires g.Valid() && IsRun(g, states, steps) && k < |states|
    requires |states[0].logical| == g.size && P(Home(states[0].logical, g))
    requires forall i: nat, j: nat :: j <= k ==> GroupKeeps(g, states, steps, i, j, P)
    ensures |states[k].disk| == g.size && Accepts(states[k].disk[g.start], g)
    ensures P(Home(Recovered(states[k].disk, g), g))
  {
    CrashAtomic(g, states, steps, k);
    CommittedKeeps(g, states, steps, k, P);
  }

  // ---- Capacity ----

  // Every operation of the run adds fewer than MAXOPBLOCKS blocks; repeats are free.
  ghost predicate SmallOps(states: seq<State>, steps: seq<Step>)
    requires |states| == |steps| + 1
  {
    forall k :: 0 <= k < |steps| ==> SmallStep(states[k], steps[k])
  }

  ghost predicate SmallStep(s: State, a: Step) {
    a.LogWrite? && a.i < |s.bufs| && a.p in s.open ==> s.bufs[a.i].blockno in s.lh || s.open[a.p].used + 1 < MAXOPBLOCKS
  }

  lemma NoMembers(pids: set<Pid>)
    requires forall p :: p !in pids
    ensures pids == {}
  {
    assert forall p :: p in pids ==> p in {};
  }

  ghost function Pick(pids: set<Pid>): (p: Pid)
    requires pids != {}
    ensures p in pids
  {
    assert exists p :: p in pids by {
      if forall p :: p !in pids {
        NoMembers(pids);
      }
    }
    var p :| p in pids;
    p
  }

  ghost function Some(open: map<Pid, Op>): (p: Pid)
    requires open.Keys != {}
    ensures p in open && |open - {p}| < |open|
  {
    var p := Pick(open.Keys);
    assert (open - {p}).Keys == open.Keys - {p};
    p
  }

  // The header entries that open operations may still add.
  ghost function Slack(open: map<Pid, Op>): int
    decreases |open|
  {
    if open.Keys == {} then 0 else MAXOPBLOCKS - 1 - open[Some(open)].used + Slack(open - {Some(open)})
  }

  lemma {:induction false} SlackOf(open: map<Pid, Op>, p: Pid)
    requires p in open
    ensures Slack(open) == MAXOPBLOCKS - 1 - open[p].used + Slack(open - {p})
    decreases |open|
  {
    var q := Some(open);
    if q != p {
      assert (open - {p}).Keys == open.Keys - {p};
      SlackOf(open - {q}, p);
      SlackOf(open - {p}, q);
      assert open - {q} - {p} == open - {p} - {q};
    }
  }

  lemma {:induction false} SlackNonNegative(open: map<Pid, Op>)
    requires forall p :: p in open ==> open[p].used < MAXOPBLOCKS
    ensures 0 <= Slack(open) <= (MAXOPBLOCKS - 1) * |open|
    decreases |open|
  {
    if open.Keys != {} {
      assert (open - {Some(open)}).Keys == open.Keys - {Some(open)};
      SlackNonNegative(open - {Some(open)});
    }
  }

  // Two short of LOGSIZE, because a group that fills the log is admitted in at least two steps.
  ghost predicate Fits(open: map<Pid, Op>, n: int) {
    (forall p :: p in open ==> open[p].used < MAXOPBLOCKS) && n + Slack(open) <= LOGSIZE - 2
  }

  ghost predicate InvCapacity(s: State) {
    Recovering(s) || Fits(s.open, |s.lh|)
  }

  lemma AdmitFits(open: map<Pid, Op>, n: nat, p: Pid, id: OpId)
    requires Fits(open, n) && p !in open && n + (|open| + 1) * MAXOPBLOCKS <= LOGSIZE && (|open| == 0 ==> n == 0)
    ensures Fits(open[p := Op(id, 0)], n)
  {
    var open' := open[p := Op(id, 0)];
    SlackOf(open', p);
    assert open' - {p} == open;
    SlackNonNegative(open);
  }

  lemma AddFits(open: map<Pid, Op>, n: nat, p: Pid, op: Op)
    requires Fits(open, n) && p in open && op == open[p].(used := open[p].used + 1) && op.used < MAXOPBLOCKS
    ensures Fits(open[p := op], n + 1)
  {
    var open' := open[p := op];
    SlackOf(open, p);
    SlackOf(open', p);
    assert open' - {p} == open - {p};
  }

  lemma BeginOpCapacity(g: Geometry, s: State, p: Pid, s': State)
    requires InvShape(g, s) && InvCapacity(s) && OpNext(g, s, BeginOp(p), s')
    ensures InvCapacity(s')
  {
    assert |s.open| == 0 ==> s.open == map[];
    AdmitFits(s.open, |s.lh|, p, s.nextOp);
  }

  lemma LogWriteCapacity(g: Geometry, s: State, a: Step, s': State)
    requires InvShape(g, s) && InvCapacity(s) && a.LogWrite? && SmallStep(s, a) && OpNext(g, s, a, s')
    ensures InvCapacity(s')
  {
    if s'.lh != s.lh {
      AddFits(s.open, |s.lh|, a.p, s'.open[a.p]);
    }
  }

  lemma OtherStepCapacity(g: Geometry, s: State, a: Step, s': State)
    requires InvShape(g, s) && InvCapacity(s) && !a.BeginOp? && !a.EndOp? && !a.LogWrite? && Next(g, s, a, s')
    ensures InvCapacity(s')
  {
    assert Recovering(s') || (s'.open == s.open && (s'.lh == s.lh || s'.lh == []));
  }

  lemma EndOpCapacity(g: Geometry, s: State, p: Pid, s': State)
    requires InvShape(g, s) && InvCapacity(s) && OpNext(g, s, EndOp(p), s')
    ensures InvCapacity(s')
  {
    SlackOf(s.open, p);
  }

  lemma StepCapacity(g: Geometry, s: State, a: Step, s': State)
    requires InvShape(g, s) && InvCapacity(s) && SmallStep(s, a) && Next(g, s, a, s')
    ensures InvCapacity(s')
  {
    match a
    case BeginOp(p) => BeginOpCapacity(g, s, p, s');
    case EndOp(p) => EndOpCapacity(g, s, p, s');
    case LogWrite(_, _) => LogWriteCapacity(g, s, a, s');
    case _ => OtherStepCapacity(g, s, a, s');
  }

  lemma {:induction false} RunCapacity(g: Geometry, states: seq<State>, steps: seq<Step>, k: nat)
    requires g.Valid() && IsRun(g, states, steps) && SmallOps(states, steps) && k < |states|
    ensures InvCapacity(states[k])
    decreases k
  {
    if k > 0 {
      RunCapacity(g, states, steps, k - 1);
      NextCapacity(g, states, steps, k - 1);
    }
  }

  lemma NextCapacity(g: Geometry, states: seq<State>, steps: seq<Step>, k: nat)
    requires g.Valid() && IsRun(g, states, steps) && SmallOps(states, steps) && k < |steps| && InvCapacity(states[k])
    ensures InvCapacity(states[k + 1])
  {
    RunShape(g, states, steps, k);
    assert StepAt(g, states, steps, k);
    assert SmallStep(states[k], steps[k]);
    StepCapacity(g, states[k], steps[k], states[k + 1]);
  }

  /** Reservation is sound: if every operation adds fewer than MAXOPBLOCKS blocks (absorbed repeats are
      free), log_write never panics inside an operation, on any log of at least 29 data blocks. */
  lemma LogNeverOverflows(g: Geometry, states: seq<State>, steps: seq<Step>, k: nat)
    requires g.Valid() && IsRun(g, states, steps) && SmallOps(states, steps) && k < |states| && g.nlog >= LOGSIZE
    ensures states[k].open != map[] ==> |states[k].lh| <= LOGSIZE - 2 && !LogWritePanics(g, states[k])
  {
    RunShape(g, states, steps, k);
    RunCapacity(g, states, steps, k);
    SlackNonNegative(states[k].open);
    assert states[k].open != map[] ==> |states[k].open| > 0 && !Recovering(states[k]);
  }
}

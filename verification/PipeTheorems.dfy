/** The invariant of the machine in Pipe, and what follows for every run. */
module PipeTheorems {
  import opened Pipe

  // ---- The ring ----

  /** The positions count the bytes of the history modulo 2^32, and the ring holds those not delivered yet. */
  ghost predicate RingOk(s: State) {
    && |s.data| == PIPESIZE && s.nread == |s.delivered| % WRAP && s.nwrite == |s.accepted| % WRAP
    && |s.delivered| <= |s.accepted| <= |s.delivered| + PIPESIZE && s.delivered == s.accepted[..|s.delivered|]
    && forall k :: |s.delivered| <= k < |s.accepted| ==> s.data[k % PIPESIZE] == s.accepted[k]
  }

  // Wrapping to 32 bits does not disturb the position in the ring, nor the comparisons.
  lemma Wrapped(x: nat)
    ensures x % WRAP % PIPESIZE == x % PIPESIZE && (x % WRAP + 1) % WRAP == (x + 1) % WRAP
    ensures (x % WRAP + PIPESIZE) % WRAP == (x + PIPESIZE) % WRAP
  {
    assert x == PIPESIZE * (0x80_0000 * (x / WRAP)) + x % WRAP;
  }

  lemma SameWrapped(x: nat, y: nat)
    requires x <= y < x + WRAP
    ensures x % WRAP == y % WRAP <==> x == y
  {
    if x % WRAP == y % WRAP {
      assert y - x == WRAP * (y / WRAP - x / WRAP);
    }
  }

  lemma EmptyFull(s: State)
    requires RingOk(s)
    ensures Empty(s) <==> |s.accepted| == |s.delivered|
    ensures Full(s) <==> |s.accepted| == |s.delivered| + PIPESIZE
  {
    SameWrapped(|s.delivered|, |s.accepted|);
    Wrapped(|s.delivered|);
    SameWrapped(|s.accepted|, |s.delivered| + PIPESIZE);
  }

  lemma PutKeepsRing(s: State, p: nat)
    requires RingOk(s) && Enabled(s, PutByte(p))
    ensures RingOk(Apply(s, PutByte(p)))
  {
    EmptyFull(s);
    Wrapped(|s.accepted|);
    var n := |s.accepted|;
    forall k | |s.delivered| <= k < n ensures k % PIPESIZE != n % PIPESIZE {
      DistinctSlots(k, n);
    }
  }

  lemma DistinctSlots(k: nat, n: nat)
    requires k < n < k + PIPESIZE
    ensures k % PIPESIZE != n % PIPESIZE
  {
  }

  lemma GetKeepsRing(s: State, p: nat)
    requires RingOk(s) && Enabled(s, GetByte(p))
    ensures RingOk(Apply(s, GetByte(p)))
  {
    EmptyFull(s);
    Wrapped(|s.delivered|);
    var n := |s.delivered|;
    assert s.data[s.nread % PIPESIZE] == s.accepted[n];
    assert s.accepted[..n] + [s.accepted[n]] == s.accepted[..n + 1];
  }

  // ---- The processes ----

  predicate InZone(s: State, p: nat, c: Chan)
    requires s.Has(p)
  {
    if c == ReadChan then s.pcs[p].ReadFree? || (s.pcs[p].ReadAsleep? && s.sleeping[p])
    else s.pcs[p].WriteFree? || (s.pcs[p].WriteAsleep? && s.sleeping[p])
  }

  // There is a reason to wait on the channel.
  predicate Reason(s: State, c: Chan) {
    if c == ReadChan then Empty(s) && s.writeopen else Full(s) && s.readopen
  }

  // The holder of the pipe lock will still wake p before it lets go of the lock.
  predicate Owes(pc: Pc, c: Chan, p: nat) {
    match pc
    case Writing(_, _, added) => added && c == ReadChan
    case WakeReaders(_, _, j, _) => c == ReadChan && j <= p
    case Copying(i, _) => i > 0 && c == WriteChan
    case WakeWriters(_, j) => c == WriteChan && j <= p
    case Closing(first, j) => if c == ReadChan then first && j <= p else first || j <= p
    case _ => false
  }

  predicate ZoneOk(s: State, p: nat, c: Chan)
    requires s.Has(p)
  {
    InZone(s, p, c) ==> Reason(s, c) || (s.Has(s.holder) && Owes(s.pcs[s.holder], c, p))
  }

  predicate PlaceOk(s: State, p: nat)
    requires s.Has(p)
  {
    match s.pcs[p]
    case Writing(_, i, added) => (added ==> s.readopen && i > 0)
    case WakeReaders(_, _, _, true) => Full(s) && s.readopen
    case WriteReady(_, _) => Full(s) && s.readopen
    case WriteHeld(_, _) => Full(s) && s.readopen
    case ReadReady(_) => Empty(s) && s.writeopen
    case ReadHeld(_) => Empty(s) && s.writeopen
    case Copying(0, _) => !Empty(s) || !s.writeopen
    case _ => true
  }

  predicate OneOk(s: State, p: nat) {
    && s.Has(p) && (HoldsPipe(s.pcs[p]) <==> s.holder == p)
    && (s.sleeping[p] ==> s.pcs[p].WriteAsleep? || s.pcs[p].ReadAsleep?)
    && (IsWrite(s.pcs[p]) ==> s.writeopen) && (IsRead(s.pcs[p]) ==> s.readopen)
    && PlaceOk(s, p) && ZoneOk(s, p, ReadChan) && ZoneOk(s, p, WriteChan)
  }

  ghost predicate Inv(s: State) {
    && RingOk(s) && |s.pcs| == |s.sleeping| && (s.holder == NOBODY || s.Has(s.holder))
    && forall p: nat {:trigger OneOk(s, p)} :: p < |s.pcs| ==> OneOk(s, p)
  }

  ghost predicate Next(s: State, a: Step, s': State) {
    Enabled(s, a) && s' == Apply(s, a)
  }

  lemma Use(s: State, p: int)
    requires Inv(s) && s.Has(p)
    ensures OneOk(s, p)
  {
  }

  // What is known about p, the actor and the holder of the lock.
  lemma Known(s: State, a: Step, p: nat)
    requires Inv(s) && Enabled(s, a) && s.Has(p)
    ensures OneOk(s, p) && s.Has(a.p) && OneOk(s, a.p) && (s.Has(s.holder) ==> OneOk(s, s.holder))
  {
    Use(s, p);
    Use(s, a.p);
  }

  predicate IsByte(a: Step) { a.PutByte? || a.GetByte? }

  predicate IsSleep(a: Step) { a.TakeOwn? || a.Release? || a.Sleep? || a.Kill? }

  predicate IsStart(a: Step) { a.StartWrite? || a.StartRead? || a.Lock? || a.Close? }

  lemma ByteKeepsOne(s: State, a: Step, s': State, p: nat)
    requires Inv(s) && Next(s, a, s') && s.Has(p) && IsByte(a)
    ensures OneOk(s', p)
  {
    Known(s, a, p);
    if a.PutByte? {
      PutKeepsRing(s, a.p);
    } else {
      GetKeepsRing(s, a.p);
    }
    EmptyFull(s);
    EmptyFull(s');
  }

  lemma SleepKeepsOne(s: State, a: Step, s': State, p: nat)
    requires Next(s, a, s') && OneOk(s, p) && OneOk(s, a.p) && (s.Has(s.holder) ==> OneOk(s, s.holder)) && IsSleep(a)
    ensures OneOk(s', p)
  {
  }

  lemma WakeKeepsOne(s: State, a: Step, s': State, p: nat)
    requires Next(s, a, s') && OneOk(s, p) && OneOk(s, a.p) && (s.Has(s.holder) ==> OneOk(s, s.holder)) && a.WakeOne?
    ensures OneOk(s', p)
  {
  }

  lemma WakeEndKeepsOne(s: State, a: Step, s': State, p: nat)
    requires Next(s, a, s') && OneOk(s, p) && OneOk(s, a.p) && (s.Has(s.holder) ==> OneOk(s, s.holder)) && a.WakeEnd?
    ensures OneOk(s', p)
  {
  }

  lemma StartKeepsOne(s: State, a: Step, s': State, p: nat)
    requires Next(s, a, s') && OneOk(s, p) && OneOk(s, a.p) && (s.Has(s.holder) ==> OneOk(s, s.holder)) && IsStart(a)
    ensures OneOk(s', p)
  {
  }

  lemma CallKeepsOne(s: State, a: Step, s': State, p: nat)
    requires Next(s, a, s') && OneOk(s, p) && OneOk(s, a.p) && (s.Has(s.holder) ==> OneOk(s, s.holder))
    requires !IsByte(a) && !IsSleep(a) && !a.WakeOne? && !a.WakeEnd? && !IsStart(a)
    ensures OneOk(s', p)
  {
  }

  lemma StepKeepsOne(s: State, a: Step, s': State, p: nat)
    requires Inv(s) && Next(s, a, s') && s.Has(p)
    ensures OneOk(s', p)
  {
    Known(s, a, p);
    if IsByte(a) {
      ByteKeepsOne(s, a, s', p);
    } else if IsSleep(a) {
      SleepKeepsOne(s, a, s', p);
    } else if a.WakeOne? {
      WakeKeepsOne(s, a, s', p);
    } else if a.WakeEnd? {
      WakeEndKeepsOne(s, a, s', p);
    } else if IsStart(a) {
      StartKeepsOne(s, a, s', p);
    } else {
      CallKeepsOne(s, a, s', p);
    }
  }

  lemma OtherKeepsRing(s: State, a: Step, s': State)
    requires Next(s, a, s') && !a.PutByte? && !a.GetByte?
    ensures s'.data == s.data && s'.nread == s.nread && s'.nwrite == s.nwrite
    ensures s'.accepted == s.accepted && s'.delivered == s.delivered
  {
  }

  lemma StepKeepsRing(s: State, a: Step, s': State)
    requires RingOk(s) && Next(s, a, s')
    ensures RingOk(s')
  {
    if a.PutByte? {
      PutKeepsRing(s, a.p);
    } else if a.GetByte? {
      GetKeepsRing(s, a.p);
    } else {
      OtherKeepsRing(s, a, s');
    }
  }

  lemma StepKeepsShape(s: State, a: Step, s': State)
    requires Next(s, a, s') && |s.pcs| == |s.sleeping| && (s.holder == NOBODY || s.Has(s.holder))
    ensures |s'.pcs| == |s'.sleeping| == |s.pcs| && (s'.holder == NOBODY || s'.Has(s'.holder))
  {
  }

  lemma StepKeepsInv(s: State, a: Step, s': State)
    requires Inv(s) && Next(s, a, s')
    ensures Inv(s')
  {
    StepKeepsShape(s, a, s');
    StepKeepsRing(s, a, s');
    forall p: nat | p < |s'.pcs| ensures OneOk(s', p) {
      StepKeepsOne(s, a, s', p);
    }
  }

  // ---- Runs ----

  /** A fresh pipe, as pipealloc makes it. */
  ghost predicate Init(s: State) {
    && |s.data| == PIPESIZE && s.nread == 0 && s.nwrite == 0 && s.readopen && s.writeopen && s.holder == NOBODY
    && |s.pcs| == |s.sleeping| && s.accepted == [] && s.delivered == []
    && forall p :: 0 <= p < |s.pcs| ==> s.pcs[p] == Idle && !s.sleeping[p]
  }

  ghost predicate StepAt(states: seq<State>, steps: seq<Step>, k: nat)
    requires k < |steps| && |states| == |steps| + 1
  {
    Next(states[k], steps[k], states[k + 1])
  }

  ghost predicate IsRun(states: seq<State>, steps: seq<Step>) {
    && |states| == |steps| + 1 && Init(states[0])
    && forall k {:trigger StepAt(states, steps, k)} :: 0 <= k < |steps| ==> StepAt(states, steps, k)
  }

  lemma {:induction false} RunInv(states: seq<State>, steps: seq<Step>, k: nat)
    requires IsRun(states, steps) && k < |states|
    ensures Inv(states[k])
    decreases k
  {
    if k == 0 {
    } else {
      RunInv(states, steps, k - 1);
      assert StepAt(states, steps, k - 1);
      StepKeepsInv(states[k - 1], steps[k - 1], states[k]);
    }
  }

  /** No lost wakeup: whenever the pipe lock is free, a process asleep on the read channel means an empty ring and a
      live writer end, and one asleep on the write channel means a full ring and a live reader end. */
  lemma NoLostWakeup(states: seq<State>, steps: seq<Step>, k: nat, p: nat)
    requires IsRun(states, steps) && k < |states| && states[k].holder == NOBODY && states[k].Has(p)
    requires states[k].sleeping[p]
    ensures states[k].pcs[p].ReadAsleep? ==> Empty(states[k]) && states[k].writeopen
    ensures states[k].pcs[p].WriteAsleep? ==> Full(states[k]) && states[k].readopen
  {
    RunInv(states, steps, k);
    Use(states[k], p);
  }

  /** So a reader and a writer never sleep both. */
  lemma NeverBothAsleep(states: seq<State>, steps: seq<Step>, k: nat, p: nat, q: nat)
    requires IsRun(states, steps) && k < |states| && states[k].holder == NOBODY && states[k].Has(p) && states[k].Has(q)
    requires states[k].sleeping[p] && states[k].pcs[p].ReadAsleep? && states[k].pcs[q].WriteAsleep?
    ensures !states[k].sleeping[q]
  {
    RunInv(states, steps, k);
    Use(states[k], p);
    Use(states[k], q);
    EmptyFull(states[k]);
  }

  // The bytes in the ring, from the 32-bit positions alone.
  function Occupancy(s: State): nat { (s.nwrite - s.nread) % WRAP }

  function Buffered(s: State): seq<Byte>
    requires |s.data| == PIPESIZE
  {
    seq(Occupancy(s), k => s.data[(s.nread + k) % PIPESIZE])
  }

  lemma OccupancyOf(s: State)
    requires RingOk(s)
    ensures Occupancy(s) == |s.accepted| - |s.delivered|
  {
    var d, x, y := |s.accepted| - |s.delivered|, |s.delivered|, |s.accepted|;
    assert y % WRAP - x % WRAP == d + WRAP * (x / WRAP - y / WRAP);
    ModMultiple(d, x / WRAP - y / WRAP);
  }

  lemma ModMultiple(d: nat, m: int)
    requires d < WRAP
    ensures (d + WRAP * m) % WRAP == d
  {
  }

  /** FIFO across wraparound: over every run, what was delivered followed by what is buffered is what was accepted, and
      the ring never holds more than its size. */
  lemma Fifo(states: seq<State>, steps: seq<Step>, k: nat)
    requires IsRun(states, steps) && k < |states|
    ensures Occupancy(states[k]) <= PIPESIZE == |states[k].data|
    ensures states[k].delivered + Buffered(states[k]) == states[k].accepted
  {
    RunInv(states, steps, k);
    var s := states[k];
    OccupancyOf(s);
    var n := |s.delivered|;
    forall i | 0 <= i < Occupancy(s) ensures Buffered(s)[i] == s.accepted[n + i] {
      Wrapped(n);
      assert (s.nread + i) % PIPESIZE == (n + i) % PIPESIZE by {
        SameSlot(s.nread, n, i);
      }
    }
  }

  lemma SameSlot(x: nat, y: nat, i: nat)
    requires x % PIPESIZE == y % PIPESIZE
    ensures (x + i) % PIPESIZE == (y + i) % PIPESIZE
  {
  }

  /** End of file: a read of at least one byte that returns none does so only when everything accepted has been
      delivered and the write end is closed. */
  lemma EndOfFile(states: seq<State>, steps: seq<Step>, k: nat)
    requires IsRun(states, steps) && k < |steps| && steps[k].ReadDone? && states[k].Has(steps[k].p)
    requires states[k].pcs[steps[k].p].Copying? && states[k].pcs[steps[k].p].i == 0 < states[k].pcs[steps[k].p].n
    ensures states[k].delivered == states[k].accepted && !states[k].writeopen
  {
    RunInv(states, steps, k);
    assert StepAt(states, steps, k);
    Use(states[k], steps[k].p);
    EmptyFull(states[k]);
  }

  /** Once the write end is closed it stays closed, and no byte is accepted any more. */
  lemma {:induction false} ClosedForGood(states: seq<State>, steps: seq<Step>, j: nat, k: nat)
    requires IsRun(states, steps) && j <= k < |states| && !states[j].writeopen
    ensures !states[k].writeopen && states[k].accepted == states[j].accepted
    decreases k
  {
    if j < k {
      ClosedForGood(states, steps, j, k - 1);
      RunInv(states, steps, k - 1);
      assert StepAt(states, steps, k - 1);
      Use(states[k - 1], steps[k - 1].p);
    }
  }

  /** When both ends are closed and the lock is free, nobody is inside the pipe: freeing it is safe. */
  lemma FreedUnused(states: seq<State>, steps: seq<Step>, k: nat, p: nat)
    requires IsRun(states, steps) && k < |states| && states[k].Has(p)
    requires !states[k].readopen && !states[k].writeopen && states[k].holder == NOBODY
    ensures states[k].pcs[p] == Idle
  {
    RunInv(states, steps, k);
    Use(states[k], p);
  }
}

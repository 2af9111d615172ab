/**
 Processes in platform/visionfive2/kernel/proc.c: fork, exit, wait, sleep and wakeup as a machine whose steps are what
 one process does between taking and releasing locks, interleaved freely over any number of harts.
 */
module ExitWait {

  const NOBODY := -1
  const NONE := -1

  datatype RunState = Unused | Used | Sleeping | Runnable | Running | Zombie

  // A slot of the process table. Channels and parents are slot numbers; other channels are numbers from n on.
  datatype Proc = Proc(state: RunState, chan: int, parent: int, pid: nat, xstate: int, killed: bool)

  const FREE := Proc(Unused, NONE, NONE, 0, 0, false)

  // Where a process is in kfork, kexit or kwait.
  datatype Pc =
    | Idle
    // kfork, making process np: its lock held; memory copied; wait_lock held; parent set
    | ForkHeld(np: nat) | ForkCopied(np: nat) | ForkLinking(np: nat) | ForkLinked(np: nat)
    // kexit: reparent at slot i, wakeup(initproc) at slot j for the child in slot i, wakeup(p->parent) at slot j
    | Reparenting(i: nat, status: int) | WakingInit(i: nat, j: nat, status: int) | WakingParent(j: nat, status: int)
    // wakeups done; p->lock held; wait_lock released; switched away
    | ExitReady(status: int) | ExitHeld(status: int) | Switching | Dead
    // kwait: scanning at slot i; about to sleep; p->lock held; wait_lock released; asleep; awake again
    | Scanning(i: nat, kids: bool) | SleepReady | SleepHeld | SleepFree | Asleep | WaitAgain

  datatype State = State(
    init: nat,                 // initproc
    procs: seq<Proc>,
    pcs: seq<Pc>,
    locks: seq<int>,           // holder of each p->lock
    wait: int,                 // holder of wait_lock
    nextpid: nat,
    maker: seq<int>,           // history: who made the process in each slot
    exits: map<nat, int>,      // history: the status of each process that has exited
    reaped: map<nat, int>      // history: what kwait returned for each process
  ) {
    predicate Has(p: int) { 0 <= p < |procs| == |pcs| == |locks| == |maker| }
  }

  predicate IsFork(pc: Pc) { pc.ForkHeld? || pc.ForkCopied? || pc.ForkLinking? || pc.ForkLinked? }

  predicate IsExit(pc: Pc) { pc.Reparenting? || pc.WakingInit? || pc.WakingParent? || pc.ExitReady? || pc.ExitHeld? }

  predicate HoldsWait(pc: Pc) { pc.ForkLinking? || IsExit(pc) || pc.Scanning? || pc.SleepReady? || pc.SleepHeld? }

  predicate HoldsOwn(pc: Pc) { pc.ExitHeld? || pc.Switching? || pc.SleepHeld? || pc.SleepFree? }

  // ---- Steps ----

  datatype Step =
    | ForkStart(p: nat, np: nat) | ForkFail(p: nat) | ForkCopy(p: nat) | ForkLock(p: nat)
    | ForkLink(p: nat) | ForkRun(p: nat)
    | ExitStart(p: nat, status: int) | Reparent(p: nat) | Wake(p: nat)
    | ExitLock(p: nat) | ExitDone(p: nat) | Switch(p: nat)
    | WaitStart(p: nat) | Scan(p: nat) | Reap(p: nat) | ReapFault(p: nat) | GiveUp(p: nat)
    | SleepStart(p: nat) | SleepLock(p: nat) | SleepUnlock(p: nat) | Sleep(p: nat)
    | Schedule(p: nat) | Yield(p: nat) | Kill(i: nat) | SleepElsewhere(p: nat, chan: nat) | WakeElsewhere(i: nat)

  // Process p executes: it is running and at the given place.
  predicate Runs(s: State, p: nat) { s.Has(p) && s.procs[p].state == Running }

  predicate CanLock(s: State, i: nat) { s.Has(i) && s.locks[i] == NOBODY }

  // wakeup(chan) passes slot j: skipped for the caller itself, otherwise p->lock is needed.
  predicate CanWake(s: State, p: nat, j: nat) { j == p || CanLock(s, j) }

  function Woken(x: Proc, chan: int): Proc {
    if x.state == Sleeping && x.chan == chan then x.(state := Runnable) else x
  }

  // The steps of kfork, of kexit around its scans, of kwait, of sleep, and of the scheduler and the rest of the kernel.

  predicate ForkStep(a: Step) {
    a.ForkStart? || a.ForkFail? || a.ForkCopy? || a.ForkLock? || a.ForkLink? || a.ForkRun?
  }

  predicate ExitStep(a: Step) { a.ExitStart? || a.ExitLock? || a.ExitDone? || a.Switch? }

  predicate WaitStep(a: Step) { a.WaitStart? || a.Scan? || a.Reap? || a.ReapFault? || a.GiveUp? }

  predicate SleepStep(a: Step) { a.SleepStart? || a.SleepLock? || a.SleepUnlock? || a.Sleep? }

  predicate RunStep(a: Step) { a.Schedule? || a.Yield? || a.Kill? || a.SleepElsewhere? || a.WakeElsewhere? }

  predicate Enabled(s: State, a: Step) {
    if ForkStep(a) then ForkEnabled(s, a)
    else if ExitStep(a) then ExitEnabled(s, a)
    else if a.Reparent? then ReparentEnabled(s, a.p)
    else if a.Wake? then WakeEnabled(s, a.p)
    else if WaitStep(a) then WaitEnabled(s, a)
    else if SleepStep(a) then SleepEnabled(s, a)
    else RunEnabled(s, a)
  }

  function Apply(s: State, a: Step): State
    requires Enabled(s, a)
  {
    if ForkStep(a) then ForkApply(s, a)
    else if ExitStep(a) then ExitApply(s, a)
    else if a.Reparent? then ReparentApply(s, a.p)
    else if a.Wake? then WakeApply(s, a.p)
    else if WaitStep(a) then WaitApply(s, a)
    else if SleepStep(a) then SleepApply(s, a)
    else RunApply(s, a)
  }

  // ---- kfork ----

  predicate ForkEnabled(s: State, a: Step)
    requires ForkStep(a)
  {
    match a
    case ForkStart(p, np) =>
      Runs(s, p) && s.pcs[p] == Idle && s.Has(np) && s.procs[np].state == Unused && CanLock(s, np)
    // Memory runs out in allocproc or uvmcopy.
    case ForkFail(p) => Runs(s, p) && s.pcs[p].ForkHeld? && s.Has(s.pcs[p].np)
    case ForkCopy(p) => Runs(s, p) && s.pcs[p].ForkHeld? && s.Has(s.pcs[p].np)
    case ForkLock(p) => Runs(s, p) && s.pcs[p].ForkCopied? && s.wait == NOBODY
    case ForkLink(p) => Runs(s, p) && s.pcs[p].ForkLinking? && s.Has(s.pcs[p].np)
    case ForkRun(p) => Runs(s, p) && s.pcs[p].ForkLinked? && s.Has(s.pcs[p].np) && CanLock(s, s.pcs[p].np)
  }

  function ForkApply(s: State, a: Step): State
    requires ForkStep(a) && ForkEnabled(s, a)
  {
    match a
    case ForkStart(p, np) =>
      s.(procs := s.procs[np := FREE.(state := Used, pid := s.nextpid)], pcs := s.pcs[p := ForkHeld(np)],
         locks := s.locks[np := p], maker := s.maker[np := p], nextpid := s.nextpid + 1)
    case ForkFail(p) =>
      var np := s.pcs[p].np;
      s.(procs := s.procs[np := FREE], pcs := s.pcs[p := Idle], locks := s.locks[np := NOBODY])
    case ForkCopy(p) => s.(pcs := s.pcs[p := ForkCopied(s.pcs[p].np)], locks := s.locks[s.pcs[p].np := NOBODY])
    case ForkLock(p) => s.(pcs := s.pcs[p := ForkLinking(s.pcs[p].np)], wait := p)
    case ForkLink(p) =>
      var np := s.pcs[p].np;
      s.(procs := s.procs[np := s.procs[np].(parent := p)], pcs := s.pcs[p := ForkLinked(np)], wait := NOBODY)
    case ForkRun(p) =>
      var np := s.pcs[p].np;
      s.(procs := s.procs[np := s.procs[np].(state := Runnable)], pcs := s.pcs[p := Idle])
  }

  // ---- kexit ----

  predicate ExitEnabled(s: State, a: Step)
    requires ExitStep(a)
  {
    match a
    case ExitStart(p, status) => Runs(s, p) && s.pcs[p] == Idle && s.wait == NOBODY && p != s.init
    case ExitLock(p) => Runs(s, p) && s.pcs[p].ExitReady? && CanLock(s, p)
    case ExitDone(p) => Runs(s, p) && s.pcs[p].ExitHeld?
    case Switch(p) => s.Has(p) && s.pcs[p] == Switching
  }

  function ExitApply(s: State, a: Step): State
    requires ExitStep(a) && ExitEnabled(s, a)
  {
    match a
    case ExitStart(p, status) => s.(pcs := s.pcs[p := Reparenting(0, status)], wait := p)
    case ExitLock(p) => s.(pcs := s.pcs[p := ExitHeld(s.pcs[p].status)], locks := s.locks[p := p])
    case ExitDone(p) =>
      s.(procs := s.procs[p := s.procs[p].(state := Zombie, xstate := s.pcs[p].status)],
         pcs := s.pcs[p := Switching], wait := NOBODY, exits := s.exits[s.procs[p].pid := s.pcs[p].status])
    case Switch(p) => s.(pcs := s.pcs[p := Dead], locks := s.locks[p := NOBODY])
  }

  predicate ReparentEnabled(s: State, p: nat) { Runs(s, p) && s.pcs[p].Reparenting? }

  function ReparentApply(s: State, p: nat): State
    requires ReparentEnabled(s, p)
  {
    var i, status := s.pcs[p].i, s.pcs[p].status;
    if i >= |s.procs| then s.(pcs := s.pcs[p := WakingParent(0, status)])
    else if s.procs[i].parent == p then
      s.(procs := s.procs[i := s.procs[i].(parent := s.init)], pcs := s.pcs[p := WakingInit(i, 0, status)])
    else s.(pcs := s.pcs[p := Reparenting(i + 1, status)])
  }

  predicate WakeEnabled(s: State, p: nat) {
    && Runs(s, p) && (s.pcs[p].WakingInit? || s.pcs[p].WakingParent?)
    && (s.pcs[p].j < |s.procs| ==> CanWake(s, p, s.pcs[p].j))
  }

  function WakeApply(s: State, p: nat): State
    requires WakeEnabled(s, p)
  {
    var pc := s.pcs[p];
    if pc.j >= |s.procs| then
      s.(pcs := s.pcs[p := if pc.WakingInit? then Reparenting(pc.i + 1, pc.status) else ExitReady(pc.status)])
    else
      var chan := if pc.WakingInit? then s.init as int else s.procs[p].parent;
      s.(procs := if pc.j == p then s.procs else s.procs[pc.j := Woken(s.procs[pc.j], chan)],
         pcs := s.pcs[p := if pc.WakingInit? then WakingInit(pc.i, pc.j + 1, pc.status)
                      else WakingParent(pc.j + 1, pc.status)])
  }

  // ---- kwait ----

  // The scan of kwait has reached a child that has exited and is switched away.
  predicate AtZombie(s: State, p: nat) {
    && Runs(s, p) && s.pcs[p].Scanning? && s.Has(s.pcs[p].i) && s.procs[s.pcs[p].i].parent == p
    && CanLock(s, s.pcs[p].i) && s.procs[s.pcs[p].i].state == Zombie
  }

  // The scan of kwait has passed all slots.
  predicate AtEnd(s: State, p: nat) {
    Runs(s, p) && s.pcs[p].Scanning? && s.pcs[p].i == |s.procs| && CanLock(s, p)
  }

  predicate WaitEnabled(s: State, a: Step)
    requires WaitStep(a)
  {
    match a
    case WaitStart(p) => Runs(s, p) && (s.pcs[p] == Idle || s.pcs[p] == WaitAgain) && s.wait == NOBODY
    case Scan(p) =>
      && Runs(s, p) && s.pcs[p].Scanning? && s.Has(s.pcs[p].i)
      && (s.procs[s.pcs[p].i].parent == p ==> CanLock(s, s.pcs[p].i) && s.procs[s.pcs[p].i].state != Zombie)
    case Reap(p) => AtZombie(s, p)
    case ReapFault(p) => AtZombie(s, p)
    case GiveUp(p) => AtEnd(s, p) && (!s.pcs[p].kids || s.procs[p].killed)
  }

  function WaitApply(s: State, a: Step): State
    requires WaitStep(a) && WaitEnabled(s, a)
  {
    match a
    case WaitStart(p) => s.(pcs := s.pcs[p := Scanning(0, false)], wait := p)
    case Scan(p) =>
      s.(pcs := s.pcs[p := Scanning(s.pcs[p].i + 1, s.pcs[p].kids || s.procs[s.pcs[p].i].parent == p)])
    case Reap(p) =>
      var c := s.pcs[p].i;
      s.(procs := s.procs[c := FREE], pcs := s.pcs[c := Idle][p := Idle], wait := NOBODY,
         reaped := s.reaped[s.procs[c].pid := s.procs[c].xstate])
    case ReapFault(p) => s.(pcs := s.pcs[p := Idle], wait := NOBODY)
    case GiveUp(p) => s.(pcs := s.pcs[p := Idle], wait := NOBODY)
  }

  predicate SleepEnabled(s: State, a: Step)
    requires SleepStep(a)
  {
    match a
    case SleepStart(p) => AtEnd(s, p) && s.pcs[p].kids && !s.procs[p].killed
    case SleepLock(p) => Runs(s, p) && s.pcs[p] == SleepReady && CanLock(s, p)
    case SleepUnlock(p) => Runs(s, p) && s.pcs[p] == SleepHeld
    case Sleep(p) => Runs(s, p) && s.pcs[p] == SleepFree
  }

  function SleepApply(s: State, a: Step): State
    requires SleepStep(a) && SleepEnabled(s, a)
  {
    match a
    case SleepStart(p) => s.(pcs := s.pcs[p := SleepReady])
    case SleepLock(p) => s.(pcs := s.pcs[p := SleepHeld], locks := s.locks[p := p])
    case SleepUnlock(p) => s.(pcs := s.pcs[p := SleepFree], wait := NOBODY)
    case Sleep(p) =>
      s.(procs := s.procs[p := s.procs[p].(state := Sleeping, chan := p)], pcs := s.pcs[p := Asleep],
         locks := s.locks[p := NOBODY])
  }

  // ---- The scheduler, kkill, and sleeping elsewhere ----

  predicate RunEnabled(s: State, a: Step)
    requires RunStep(a)
  {
    match a
    case Schedule(p) => s.Has(p) && s.procs[p].state == Runnable && CanLock(s, p)
    // Interrupts are off while a lock is held.
    case Yield(p) => Runs(s, p) && CanLock(s, p) && !HoldsWait(s.pcs[p]) && !s.pcs[p].ForkHeld?
    case Kill(i) => CanLock(s, i)
    case SleepElsewhere(p, chan) => Runs(s, p) && s.pcs[p] == Idle && CanLock(s, p) && chan >= |s.procs|
    case WakeElsewhere(i) => CanLock(s, i) && s.procs[i].chan >= |s.procs|
  }

  function RunApply(s: State, a: Step): State
    requires RunStep(a) && RunEnabled(s, a)
  {
    match a
    case Schedule(p) =>
      s.(procs := s.procs[p := s.procs[p].(state := Running, chan := NONE)],
         pcs := s.pcs[p := if s.pcs[p] == Asleep then WaitAgain else s.pcs[p]])
    case Yield(p) => s.(procs := s.procs[p := s.procs[p].(state := Runnable)])
    case Kill(i) =>
      var x := s.procs[i];
      s.(procs := s.procs[i := x.(killed := true, state := if x.state == Sleeping then Runnable else x.state)])
    case SleepElsewhere(p, chan) => s.(procs := s.procs[p := s.procs[p].(state := Sleeping, chan := chan)])
    case WakeElsewhere(i) => s.(procs := s.procs[i := Woken(s.procs[i], s.procs[i].chan)])
  }
}

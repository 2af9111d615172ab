/** The invariant of the machine in ExitWait, and that every step keeps it. */
module ExitWaitInv {
  import opened ExitWait

  // ---- The invariant, process by process ----

  // A process that will not notice an exit until it is woken: it has given up wait_lock, and sleeps or is about to.
  predicate InSleepZone(s: State, p: nat)
    requires s.Has(p)
  {
    s.pcs[p] == SleepFree || (s.pcs[p] == Asleep && s.procs[p].state == Sleeping)
  }

  predicate Alive(x: Proc) { x.state == Sleeping || x.state == Runnable || x.state == Running }

  // State and place fit together.
  predicate PlaceOk(s: State, p: nat)
    requires s.Has(p)
  {
    match s.pcs[p]
    case Idle => s.procs[p].state != Zombie && (s.procs[p].state == Sleeping ==> s.procs[p].chan >= |s.procs|)
    case Switching => s.procs[p].state == Zombie
    case Dead => s.procs[p].state == Zombie
    case Asleep => s.procs[p].state == Runnable || (s.procs[p].state == Sleeping && s.procs[p].chan == p)
    case _ => s.procs[p].state == Running || s.procs[p].state == Runnable
  }

  // The process that p is making.
  predicate MakesOk(s: State, p: nat)
    requires s.Has(p)
  {
    IsFork(s.pcs[p]) ==>
      var np := s.pcs[p].np;
      && s.Has(np) && np != p && s.procs[np].state == Used && s.maker[np] == p && s.procs[p].pid < s.procs[np].pid
      && (s.pcs[p].ForkHeld? ==> s.locks[np] == p)
      && s.procs[np].parent == if s.pcs[p].ForkLinked? then p else NONE
  }

  predicate LockOk(s: State, i: nat)
    requires s.Has(i)
  {
    && (HoldsWait(s.pcs[i]) <==> s.wait == i) && (HoldsOwn(s.pcs[i]) ==> s.locks[i] == i)
    && (s.locks[i] == NOBODY || (s.locks[i] == i && HoldsOwn(s.pcs[i])) ||
        (s.Has(s.locks[i]) && s.pcs[s.locks[i]] == ForkHeld(i)))
  }

  predicate SlotOk(s: State, c: nat)
    requires s.Has(c)
  {
    var x := s.procs[c];
    && (x.state == Unused ==> s.pcs[c] == Idle && x.parent == NONE)
    && (x.state == Used ==>
        s.pcs[c] == Idle && s.Has(s.maker[c]) && IsFork(s.pcs[s.maker[c]]) && s.pcs[s.maker[c]].np == c)
    && (x.state != Unused ==> 1 <= x.pid < s.nextpid)
    && (c == s.init ==> Alive(x) && x.parent == NONE && x.pid == 1 && !IsExit(s.pcs[c]))
    && (c != s.init && x.state != Unused ==> x.pid > 1)
  }

  // The parent is alive, and older.
  predicate TreeOk(s: State, c: nat)
    requires s.Has(c)
  {
    var x := s.procs[c];
    && (x.parent != NONE ==>
        s.Has(x.parent) && x.state != Unused && Alive(s.procs[x.parent]) && s.procs[x.parent].pid < x.pid)
    && (c != s.init && (Alive(x) || x.state == Zombie) ==> x.parent != NONE)
  }

  // The wakeup that an exiting process owes has been given.
  predicate WakeOk(s: State, q: nat)
    requires s.Has(q) && s.Has(s.init)
  {
    var pc, parent := s.pcs[q], s.procs[q].parent;
    && (pc.WakingInit? && pc.j > s.init ==> !InSleepZone(s, s.init))
    && (((pc.WakingParent? && pc.j > parent) || pc.ExitReady? || pc.ExitHeld?) && s.Has(parent) ==>
        !InSleepZone(s, parent))
  }

  predicate ReapOk(s: State, c: nat)
    requires s.Has(c)
  {
    var x := s.procs[c];
    && (x.state == Zombie ==> x.pid in s.exits && s.exits[x.pid] == x.xstate && x.pid !in s.reaped)
    && (x.state == Used || Alive(x) ==> x.pid !in s.exits)
  }

  // ---- Pairs of processes ----

  predicate PidOk(s: State, c: nat, d: nat)
    requires s.Has(c) && s.Has(d)
  {
    c != d && s.procs[c].state != Unused && s.procs[d].state != Unused ==> s.procs[c].pid != s.procs[d].pid
  }

  // reparent has passed slot c.
  predicate Passed(pc: Pc, c: nat) {
    (pc.Reparenting? && c < pc.i) || (pc.WakingInit? && c <= pc.i) || pc.WakingParent? || pc.ExitReady? || pc.ExitHeld?
  }

  // The scan of kwait has passed slot c.
  predicate Scanned(pc: Pc, c: nat) {
    (pc.Scanning? && c < pc.i) || pc.SleepReady? || pc.SleepHeld?
  }

  // wakeup(initproc) is under way and has not reached init yet.
  predicate InitWillWake(s: State) {
    s.Has(s.wait) && s.pcs[s.wait].WakingInit? && s.pcs[s.wait].j <= s.init
  }

  // What q knows about its child c.
  predicate KidOk(s: State, q: nat, c: nat)
    requires s.Has(q) && s.Has(c)
  {
    s.procs[c].parent == q ==>
      && !Passed(s.pcs[q], c)
      && (Scanned(s.pcs[q], c) ==> s.procs[c].state != Zombie)
      && (s.pcs[q].Scanning? && c < s.pcs[q].i ==> s.pcs[q].kids)
      && (InSleepZone(s, q) && s.procs[c].state == Zombie ==> q == s.init && InitWillWake(s))
  }

  // ---- All together ----

  predicate OneOk(s: State, p: nat) {
    && s.Has(p) && s.Has(s.init) && PlaceOk(s, p) && MakesOk(s, p) && LockOk(s, p) && SlotOk(s, p)
    && TreeOk(s, p) && WakeOk(s, p) && ReapOk(s, p)
  }

  predicate TwoOk(s: State, c: nat, d: nat) {
    s.Has(c) && s.Has(d) && PidOk(s, c, d) && KidOk(s, c, d)
  }

  // The slot of a process that has exited and is not reaped.
  ghost predicate HoldsZombie(s: State, c: nat, x: nat) {
    s.Has(c) && s.procs[c].state == Zombie && s.procs[c].pid == x
  }

  // What has become of process x.
  ghost predicate FateOk(s: State, x: nat) {
    && (x in s.reaped ==> x in s.exits && s.reaped[x] == s.exits[x])
    && (x in s.exits ==> x < s.nextpid)
    && (x in s.exits && x !in s.reaped ==> exists c: nat :: HoldsZombie(s, c, x))
  }

  ghost predicate HistoryOk(s: State) {
    forall x: nat {:trigger FateOk(s, x)} :: FateOk(s, x)
  }

  ghost predicate Inv(s: State) {
    && s.Has(s.init) && (s.wait == NOBODY || s.Has(s.wait))
    && (forall p: nat {:trigger OneOk(s, p)} :: p < |s.procs| ==> OneOk(s, p))
    && (forall c: nat, d: nat {:trigger TwoOk(s, c, d)} :: c < |s.procs| && d < |s.procs| ==> TwoOk(s, c, d))
    && HistoryOk(s)
  }

  ghost predicate Next(s: State, a: Step, s': State) {
    Enabled(s, a) && s' == Apply(s, a)
  }

  // The same, for each kind of step.

  ghost predicate ForkNext(s: State, a: Step, s': State) {
    ForkStep(a) && ForkEnabled(s, a) && s' == ForkApply(s, a)
  }

  ghost predicate ExitNext(s: State, a: Step, s': State) {
    ExitStep(a) && ExitEnabled(s, a) && s' == ExitApply(s, a)
  }

  ghost predicate ReparentNext(s: State, p: nat, s': State) {
    ReparentEnabled(s, p) && s' == ReparentApply(s, p)
  }

  ghost predicate WakeNext(s: State, p: nat, s': State) {
    WakeEnabled(s, p) && s' == WakeApply(s, p)
  }

  ghost predicate WaitNext(s: State, a: Step, s': State) {
    WaitStep(a) && WaitEnabled(s, a) && s' == WaitApply(s, a)
  }

  ghost predicate SleepNext(s: State, a: Step, s': State) {
    SleepStep(a) && SleepEnabled(s, a) && s' == SleepApply(s, a)
  }

  ghost predicate RunNext(s: State, a: Step, s': State) {
    RunStep(a) && RunEnabled(s, a) && s' == RunApply(s, a)
  }

  // ---- Instances ----

  lemma Use(s: State, x: int)
    requires Inv(s) && s.Has(x)
    ensures OneOk(s, x)
  {
  }

  lemma UsePair(s: State, x: int, y: int)
    requires Inv(s) && s.Has(x) && s.Has(y)
    ensures TwoOk(s, x, y) && TwoOk(s, y, x)
  {
  }

  // The process whose fields the step reads or writes, besides p itself.
  function Other(s: State, a: Step): int
    requires Enabled(s, a)
  {
    match a
    case ForkStart(p, np) => np
    case ForkFail(p) => s.pcs[p].np
    case ForkCopy(p) => s.pcs[p].np
    case ForkLink(p) => s.pcs[p].np
    case ForkRun(p) => s.pcs[p].np
    case Reparent(p) => s.pcs[p].i
    case Wake(p) => s.pcs[p].j
    case Scan(p) => s.pcs[p].i
    case Reap(p) => s.pcs[p].i
    case _ => NONE
  }

  function Actor(a: Step): nat {
    match a
    case ForkStart(p, np) => p
    case ExitStart(p, status) => p
    case SleepElsewhere(p, chan) => p
    case Kill(i) => i
    case WakeElsewhere(i) => i
    case _ => a.p
  }

  // What is known about p, the processes of the step and their relatives.
  lemma Known(s: State, a: Step, p: nat)
    requires Inv(s) && Enabled(s, a) && s.Has(p)
    ensures OneOk(s, p) && s.Has(Actor(a)) && OneOk(s, Actor(a)) && OneOk(s, s.init)
    ensures s.Has(Other(s, a)) ==> OneOk(s, Other(s, a))
    ensures IsFork(s.pcs[p]) ==> OneOk(s, s.pcs[p].np)
    ensures s.Has(s.locks[p]) ==> OneOk(s, s.locks[p])
    ensures s.Has(s.maker[p]) ==> OneOk(s, s.maker[p])
    ensures s.Has(s.procs[p].parent) ==> OneOk(s, s.procs[p].parent)
  {
    Use(s, p);
    Use(s, Actor(a));
    Use(s, s.init);
  }

  // The processes of the step, as parents and children of p.
  lemma KnownPairs(s: State, a: Step, p: nat)
    requires Inv(s) && Enabled(s, a) && s.Has(p)
    ensures s.Has(Actor(a)) && TwoOk(s, Actor(a), p) && TwoOk(s, p, Actor(a)) && TwoOk(s, s.init, p)
    ensures s.Has(Other(s, a)) ==>
            TwoOk(s, Other(s, a), p) && TwoOk(s, p, Other(s, a)) && TwoOk(s, Actor(a), Other(s, a))
    ensures s.Has(s.procs[p].parent) ==> TwoOk(s, s.procs[p].parent, p)
  {
    Use(s, p);
    UsePair(s, Actor(a), p);
    UsePair(s, s.init, p);
  }

  // What each kind of step keeps, for one process and for two.

  lemma ForkKeepsPlace(s: State, a: Step, s': State, p: nat)
    requires ForkNext(s, a, s') && s.Has(p)
    requires OneOk(s, p) && OneOk(s, Actor(a))
    ensures s'.Has(p) && PlaceOk(s', p)
  {
  }

  lemma ForkKeepsMakes(s: State, a: Step, s': State, p: nat)
    requires ForkNext(s, a, s') && s.Has(p)
    requires OneOk(s, p) && OneOk(s, Actor(a))
    ensures s'.Has(p) && MakesOk(s', p)
  {
  }

  lemma ForkKeepsLock(s: State, a: Step, s': State, p: nat)
    requires ForkNext(s, a, s') && s.Has(p)
    requires OneOk(s, p) && OneOk(s, Actor(a))
    ensures s'.Has(p) && LockOk(s', p)
  {
  }

  lemma ForkKeepsSlot(s: State, a: Step, s': State, p: nat)
    requires ForkNext(s, a, s') && s.Has(p)
    requires OneOk(s, p) && OneOk(s, Actor(a))
    ensures s'.Has(p) && SlotOk(s', p)
  {
  }

  lemma ForkKeepsKin(s: State, a: Step, s': State, p: nat)
    requires ForkNext(s, a, s') && s.Has(p)
    requires OneOk(s, p) && OneOk(s, Actor(a)) && FateOk(s, s.nextpid)
    ensures s'.Has(p) && s'.Has(s'.init) && TreeOk(s', p) && WakeOk(s', p) && ReapOk(s', p)
  {
  }

  lemma ForkKeepsPids(s: State, a: Step, s': State, c: nat, d: nat)
    requires ForkNext(s, a, s') && s.Has(c) && s.Has(d)
    requires OneOk(s, c) && OneOk(s, Actor(a)) && OneOk(s, d) && TwoOk(s, c, d)
    ensures s'.Has(c) && s'.Has(d) && PidOk(s', c, d)
  {
  }

  lemma ForkKeepsKids(s: State, a: Step, s': State, c: nat, d: nat)
    requires ForkNext(s, a, s') && s.Has(c) && s.Has(d)
    requires OneOk(s, Actor(a)) && TwoOk(s, c, d)
    ensures s'.Has(c) && s'.Has(d) && KidOk(s', c, d)
  {
  }

  lemma ExitKeepsPlace(s: State, a: Step, s': State, p: nat)
    requires ExitNext(s, a, s') && s.Has(p)
    requires OneOk(s, p) && OneOk(s, Actor(a))
    ensures s'.Has(p) && PlaceOk(s', p)
  {
  }

  lemma ExitKeepsMakes(s: State, a: Step, s': State, p: nat)
    requires ExitNext(s, a, s') && s.Has(p)
    requires OneOk(s, p) && OneOk(s, Actor(a))
    ensures s'.Has(p) && MakesOk(s', p)
  {
  }

  lemma ExitKeepsLock(s: State, a: Step, s': State, p: nat)
    requires ExitNext(s, a, s') && s.Has(p)
    requires OneOk(s, p) && OneOk(s, Actor(a))
    ensures s'.Has(p) && LockOk(s', p)
  {
  }

  lemma ExitKeepsSlot(s: State, a: Step, s': State, p: nat)
    requires ExitNext(s, a, s') && s.Has(p)
    requires OneOk(s, p) && OneOk(s, Actor(a))
    ensures s'.Has(p) && SlotOk(s', p)
  {
  }

  lemma ExitKeepsKin(s: State, a: Step, s': State, p: nat)
    requires ExitNext(s, a, s') && s.Has(p)
    requires OneOk(s, p) && TwoOk(s, Actor(a), p) && FateOk(s, s.procs[p].pid)
    ensures s'.Has(p) && s'.Has(s'.init) && TreeOk(s', p) && WakeOk(s', p) && ReapOk(s', p)
  {
  }

  lemma ExitKeepsPair(s: State, a: Step, s': State, c: nat, d: nat)
    requires ExitNext(s, a, s') && s.Has(c) && s.Has(d)
    requires OneOk(s, c) && OneOk(s, Actor(a)) && TwoOk(s, c, d)
    ensures TwoOk(s', c, d)
  {
  }

  lemma ReparentKeepsPlace(s: State, q: nat, s': State, p: nat)
    requires ReparentNext(s, q, s') && s.Has(p)
    requires PlaceOk(s, p)
    ensures s'.Has(p) && PlaceOk(s', p)
  {
  }

  lemma ReparentKeepsMakes(s: State, q: nat, s': State, p: nat)
    requires ReparentNext(s, q, s') && s.Has(p)
    requires OneOk(s, p)
    ensures s'.Has(p) && MakesOk(s', p)
  {
  }

  lemma ReparentKeepsLock(s: State, q: nat, s': State, p: nat)
    requires ReparentNext(s, q, s') && s.Has(p)
    requires OneOk(s, p)
    ensures s'.Has(p) && LockOk(s', p)
  {
  }

  lemma ReparentKeepsSlot(s: State, q: nat, s': State, p: nat)
    requires ReparentNext(s, q, s') && s.Has(p)
    requires OneOk(s, p)
    ensures s'.Has(p) && SlotOk(s', p)
  {
  }

  lemma ReparentKeepsKin(s: State, q: nat, s': State, p: nat)
    requires ReparentNext(s, q, s') && s.Has(p)
    requires OneOk(s, p) && OneOk(s, q) && OneOk(s, s.init)
    ensures s'.Has(p) && TreeOk(s', p) && ReapOk(s', p)
  {
  }

  lemma ReparentKeepsWake(s: State, q: nat, s': State, p: nat)
    requires ReparentNext(s, q, s') && s.Has(p)
    requires OneOk(s, p) && OneOk(s, q) && OneOk(s, s.init)
    ensures s'.Has(p) && s'.Has(s'.init) && WakeOk(s', p)
  {
  }

  lemma ReparentKeepsPids(s: State, q: nat, s': State, c: nat, d: nat)
    requires ReparentNext(s, q, s') && s.Has(c) && s.Has(d)
    requires OneOk(s, c) && OneOk(s, q) && TwoOk(s, c, d)
    ensures s'.Has(c) && s'.Has(d) && PidOk(s', c, d)
  {
  }

  lemma ReparentKeepsKids(s: State, q: nat, s': State, c: nat, d: nat)
    requires ReparentNext(s, q, s') && s.Has(c) && s.Has(d)
    requires OneOk(s, c) && s.Has(q) && LockOk(s, q) && KidOk(s, c, d)
    ensures s'.Has(c) && s'.Has(d) && KidOk(s', c, d)
  {
  }

  lemma WakeKeepsPlace(s: State, q: nat, s': State, p: nat)
    requires WakeNext(s, q, s') && s.Has(p)
    requires PlaceOk(s, p)
    ensures s'.Has(p) && PlaceOk(s', p)
  {
  }

  lemma WakeKeepsMakes(s: State, q: nat, s': State, p: nat)
    requires WakeNext(s, q, s') && s.Has(p)
    requires MakesOk(s, p)
    ensures s'.Has(p) && MakesOk(s', p)
  {
  }

  lemma WakeKeepsLock(s: State, q: nat, s': State, p: nat)
    requires WakeNext(s, q, s') && s.Has(p)
    requires OneOk(s, p)
    ensures s'.Has(p) && LockOk(s', p)
  {
  }

  lemma WakeKeepsSlot(s: State, q: nat, s': State, p: nat)
    requires WakeNext(s, q, s') && s.Has(p)
    requires OneOk(s, p)
    ensures s'.Has(p) && SlotOk(s', p)
  {
  }

  lemma WakeKeepsKin(s: State, q: nat, s': State, p: nat)
    requires WakeNext(s, q, s') && s.Has(p)
    requires OneOk(s, p) && (s.Has(s.pcs[q].j) ==> OneOk(s, s.pcs[q].j))
    ensures s'.Has(p) && s'.Has(s'.init) && TreeOk(s', p) && WakeOk(s', p) && ReapOk(s', p)
  {
  }

  lemma WakeKeepsPids(s: State, q: nat, s': State, c: nat, d: nat)
    requires WakeNext(s, q, s') && s.Has(c) && s.Has(d)
    requires TwoOk(s, c, d)
    ensures s'.Has(c) && s'.Has(d) && PidOk(s', c, d)
  {
  }

  lemma WakeKeepsKids(s: State, q: nat, s': State, c: nat, d: nat)
    requires WakeNext(s, q, s') && s.Has(c) && s.Has(d)
    requires PlaceOk(s, c) && LockOk(s, c) && s.Has(q) && LockOk(s, q) && KidOk(s, c, d)
    ensures s'.Has(c) && s'.Has(d) && KidOk(s', c, d)
  {
  }

  lemma WaitKeepsPlace(s: State, a: Step, s': State, p: nat)
    requires WaitNext(s, a, s') && s.Has(p)
    requires OneOk(s, p)
    ensures s'.Has(p) && PlaceOk(s', p)
  {
  }

  lemma WaitKeepsMakes(s: State, a: Step, s': State, p: nat)
    requires WaitNext(s, a, s') && s.Has(p)
    requires OneOk(s, p)
    ensures s'.Has(p) && MakesOk(s', p)
  {
  }

  lemma WaitKeepsLock(s: State, a: Step, s': State, p: nat)
    requires WaitNext(s, a, s') && s.Has(p)
    requires OneOk(s, p) && OneOk(s, a.p) && (a.Reap? ==> OneOk(s, s.pcs[a.p].i))
    ensures s'.Has(p) && LockOk(s', p)
  {
  }

  lemma WaitKeepsSlot(s: State, a: Step, s': State, p: nat)
    requires WaitNext(s, a, s') && s.Has(p)
    requires OneOk(s, p) && OneOk(s, a.p) && (a.Reap? ==> OneOk(s, s.pcs[a.p].i))
    ensures s'.Has(p) && SlotOk(s', p)
  {
  }

  lemma WaitKeepsKin(s: State, a: Step, s': State, p: nat)
    requires WaitNext(s, a, s') && s.Has(p)
    requires OneOk(s, p) && (a.Reap? ==> TwoOk(s, s.pcs[a.p].i, p))
    ensures s'.Has(p) && s'.Has(s'.init) && TreeOk(s', p) && WakeOk(s', p) && ReapOk(s', p)
  {
  }

  lemma WaitKeepsPids(s: State, a: Step, s': State, c: nat, d: nat)
    requires WaitNext(s, a, s') && s.Has(c) && s.Has(d)
    requires PidOk(s, c, d)
    ensures s'.Has(c) && s'.Has(d) && PidOk(s', c, d)
  {
  }

  lemma WaitKeepsKids(s: State, a: Step, s': State, c: nat, d: nat)
    requires WaitNext(s, a, s') && s.Has(c) && s.Has(d)
    requires OneOk(s, Actor(a)) && KidOk(s, c, d)
    ensures s'.Has(c) && s'.Has(d) && KidOk(s', c, d)
  {
  }

  lemma SleepKeepsPlace(s: State, a: Step, s': State, p: nat)
    requires SleepNext(s, a, s') && s.Has(p)
    requires OneOk(s, p)
    ensures s'.Has(p) && PlaceOk(s', p)
  {
  }

  lemma SleepKeepsMakes(s: State, a: Step, s': State, p: nat)
    requires SleepNext(s, a, s') && s.Has(p)
    requires OneOk(s, p)
    ensures s'.Has(p) && MakesOk(s', p)
  {
  }

  lemma SleepKeepsLock(s: State, a: Step, s': State, p: nat)
    requires SleepNext(s, a, s') && s.Has(p)
    requires OneOk(s, p) && OneOk(s, Actor(a))
    ensures s'.Has(p) && LockOk(s', p)
  {
  }

  lemma SleepKeepsSlot(s: State, a: Step, s': State, p: nat)
    requires SleepNext(s, a, s') && s.Has(p)
    requires OneOk(s, p) && OneOk(s, Actor(a))
    ensures s'.Has(p) && SlotOk(s', p)
  {
  }

  lemma SleepKeepsKin(s: State, a: Step, s': State, p: nat)
    requires SleepNext(s, a, s') && s.Has(p)
    requires OneOk(s, p) && OneOk(s, Actor(a))
    ensures s'.Has(p) && TreeOk(s', p) && ReapOk(s', p)
  {
  }

  lemma SleepKeepsWake(s: State, a: Step, s': State, p: nat)
    requires SleepNext(s, a, s') && s.Has(p)
    requires OneOk(s, p) && OneOk(s, Actor(a))
    ensures s'.Has(p) && s'.Has(s'.init) && WakeOk(s', p)
  {
  }

  lemma SleepKeepsPair(s: State, a: Step, s': State, c: nat, d: nat)
    requires SleepNext(s, a, s') && s.Has(c) && s.Has(d)
    requires OneOk(s, Actor(a)) && TwoOk(s, c, d)
    ensures TwoOk(s', c, d)
  {
  }

  lemma RunKeepsPlace(s: State, a: Step, s': State, p: nat)
    requires RunNext(s, a, s') && s.Has(p)
    requires OneOk(s, p)
    ensures s'.Has(p) && PlaceOk(s', p)
  {
  }

  lemma RunKeepsMakes(s: State, a: Step, s': State, p: nat)
    requires RunNext(s, a, s') && s.Has(p)
    requires OneOk(s, p)
    ensures s'.Has(p) && MakesOk(s', p)
  {
  }

  lemma RunKeepsLock(s: State, a: Step, s': State, p: nat)
    requires RunNext(s, a, s') && s.Has(p)
    requires OneOk(s, p)
    ensures s'.Has(p) && LockOk(s', p)
  {
  }

  lemma RunKeepsSlot(s: State, a: Step, s': State, p: nat)
    requires RunNext(s, a, s') && s.Has(p)
    requires OneOk(s, p)
    ensures s'.Has(p) && SlotOk(s', p)
  {
  }

  lemma RunKeepsKin(s: State, a: Step, s': State, p: nat)
    requires RunNext(s, a, s') && s.Has(p)
    requires OneOk(s, p)
    ensures s'.Has(p) && TreeOk(s', p) && ReapOk(s', p)
  {
  }

  lemma RunKeepsWake(s: State, a: Step, s': State, p: nat)
    requires RunNext(s, a, s') && s.Has(p)
    requires OneOk(s, p)
    ensures s'.Has(p) && s'.Has(s'.init) && WakeOk(s', p)
  {
  }

  lemma RunKeepsPair(s: State, a: Step, s': State, c: nat, d: nat)
    requires RunNext(s, a, s') && s.Has(c) && s.Has(d)
    requires TwoOk(s, c, d)
    ensures TwoOk(s', c, d)
  {
  }

  lemma StepKeepsOwn(s: State, a: Step, s': State, p: nat)
    requires Inv(s) && Next(s, a, s') && s.Has(p)
    ensures s'.Has(p) && PlaceOk(s', p) && MakesOk(s', p) && LockOk(s', p) && SlotOk(s', p)
  {
    Known(s, a, p);
    if ForkStep(a) {
      ForkKeepsPlace(s, a, s', p);
      ForkKeepsMakes(s, a, s', p);
      ForkKeepsLock(s, a, s', p);
      ForkKeepsSlot(s, a, s', p);
    } else if ExitStep(a) {
      ExitKeepsPlace(s, a, s', p);
      ExitKeepsMakes(s, a, s', p);
      ExitKeepsLock(s, a, s', p);
      ExitKeepsSlot(s, a, s', p);
    } else if a.Reparent? {
      ReparentKeepsPlace(s, a.p, s', p);
      ReparentKeepsMakes(s, a.p, s', p);
      ReparentKeepsLock(s, a.p, s', p);
      ReparentKeepsSlot(s, a.p, s', p);
    } else if a.Wake? {
      WakeKeepsPlace(s, a.p, s', p);
      WakeKeepsMakes(s, a.p, s', p);
      WakeKeepsLock(s, a.p, s', p);
      WakeKeepsSlot(s, a.p, s', p);
    } else if WaitStep(a) {
      WaitKeepsPlace(s, a, s', p);
      WaitKeepsMakes(s, a, s', p);
      WaitKeepsLock(s, a, s', p);
      WaitKeepsSlot(s, a, s', p);
    } else if SleepStep(a) {
      SleepKeepsPlace(s, a, s', p);
      SleepKeepsMakes(s, a, s', p);
      SleepKeepsLock(s, a, s', p);
      SleepKeepsSlot(s, a, s', p);
    } else {
      RunKeepsPlace(s, a, s', p);
      RunKeepsMakes(s, a, s', p);
      RunKeepsLock(s, a, s', p);
      RunKeepsSlot(s, a, s', p);
    }
  }

  lemma StepKeepsKin(s: State, a: Step, s': State, p: nat)
    requires Inv(s) && Next(s, a, s') && s.Has(p)
    ensures s'.Has(p) && s'.Has(s'.init) && TreeOk(s', p) && WakeOk(s', p) && ReapOk(s', p)
  {
    Known(s, a, p);
    KnownPairs(s, a, p);
    assert FateOk(s, s.procs[p].pid) && FateOk(s, s.nextpid);
    if ForkStep(a) {
      ForkKeepsKin(s, a, s', p);
    } else if ExitStep(a) {
      ExitKeepsKin(s, a, s', p);
    } else if a.Reparent? {
      ReparentKeepsKin(s, a.p, s', p);
      ReparentKeepsWake(s, a.p, s', p);
    } else if a.Wake? {
      WakeKeepsKin(s, a.p, s', p);
    } else if WaitStep(a) {
      WaitKeepsKin(s, a, s', p);
    } else if SleepStep(a) {
      SleepKeepsKin(s, a, s', p);
      SleepKeepsWake(s, a, s', p);
    } else {
      RunKeepsKin(s, a, s', p);
      RunKeepsWake(s, a, s', p);
    }
  }

  lemma StepKeepsOne(s: State, a: Step, s': State, p: nat)
    requires Inv(s) && Next(s, a, s') && s.Has(p)
    ensures OneOk(s', p)
  {
    StepKeepsOwn(s, a, s', p);
    StepKeepsKin(s, a, s', p);
  }

  lemma StepKeepsPair(s: State, a: Step, s': State, c: nat, d: nat)
    requires Inv(s) && Next(s, a, s') && s.Has(c) && s.Has(d)
    ensures TwoOk(s', c, d)
  {
    Known(s, a, c);
    Known(s, a, d);
    KnownPairs(s, a, d);
    UsePair(s, c, d);
    if ForkStep(a) {
      ForkKeepsPids(s, a, s', c, d);
      ForkKeepsKids(s, a, s', c, d);
    } else if ExitStep(a) {
      ExitKeepsPair(s, a, s', c, d);
    } else if a.Reparent? {
      ReparentKeepsPids(s, a.p, s', c, d);
      ReparentKeepsKids(s, a.p, s', c, d);
    } else if a.Wake? {
      WakeKeepsPids(s, a.p, s', c, d);
      WakeKeepsKids(s, a.p, s', c, d);
    } else if WaitStep(a) {
      WaitKeepsPids(s, a, s', c, d);
      WaitKeepsKids(s, a, s', c, d);
    } else if SleepStep(a) {
      SleepKeepsPair(s, a, s', c, d);
    } else {
      RunKeepsPair(s, a, s', c, d);
    }
  }

  // Only kexit and kwait change the history.
  lemma SameHistory(s: State, a: Step, s': State)
    requires Next(s, a, s') && !a.ExitDone? && !a.Reap?
    ensures s'.exits == s.exits && s'.reaped == s.reaped && s.nextpid <= s'.nextpid
  {
  }

  // Only kwait takes a process that has exited away.

  lemma ForkKeepsZombie(s: State, a: Step, s': State, c: nat, x: nat)
    requires ForkNext(s, a, s') && s.Has(Actor(a)) && MakesOk(s, Actor(a)) && HoldsZombie(s, c, x)
    ensures HoldsZombie(s', c, x)
  {
  }

  lemma ZombieStays(s: State, a: Step, s': State, c: nat, x: nat)
    requires Next(s, a, s') && !ForkStep(a) && !a.Reap? && HoldsZombie(s, c, x)
    ensures HoldsZombie(s', c, x)
  {
  }

  lemma ExitDoneKeepsFate(s: State, a: Step, s': State, x: nat)
    requires ExitNext(s, a, s') && a.ExitDone? && FateOk(s, x) && OneOk(s, a.p)
    ensures FateOk(s', x)
  {
    if x == s.procs[a.p].pid {
      assert HoldsZombie(s', a.p, x);
    } else if x in s'.exits && x !in s'.reaped {
      var c: nat :| HoldsZombie(s, c, x);
      assert HoldsZombie(s', c, x);
    }
  }

  lemma ReapKeepsFate(s: State, a: Step, s': State, x: nat)
    requires WaitNext(s, a, s') && a.Reap? && FateOk(s, x) && ReapOk(s, s.pcs[a.p].i)
    ensures FateOk(s', x)
  {
    if x in s'.exits && x !in s'.reaped {
      var c: nat :| HoldsZombie(s, c, x);
      assert HoldsZombie(s', c, x);
    }
  }

  lemma StepKeepsFate(s: State, a: Step, s': State, x: nat)
    requires Next(s, a, s') && !a.ExitDone? && !a.Reap? && FateOk(s, x) && s.Has(Actor(a)) && MakesOk(s, Actor(a))
    ensures FateOk(s', x)
  {
    SameHistory(s, a, s');
    if x in s'.exits && x !in s'.reaped {
      var c: nat :| HoldsZombie(s, c, x);
      if ForkStep(a) {
        ForkKeepsZombie(s, a, s', c, x);
      } else {
        ZombieStays(s, a, s', c, x);
      }
    }
  }

  lemma StepKeepsHistory(s: State, a: Step, s': State)
    requires Inv(s) && Next(s, a, s')
    ensures HistoryOk(s')
  {
    Known(s, a, s.init);
    forall x: nat ensures FateOk(s', x) {
      assert FateOk(s, x);
      if a.ExitDone? {
        ExitDoneKeepsFate(s, a, s', x);
      } else if a.Reap? {
        ReapKeepsFate(s, a, s', x);
      } else {
        StepKeepsFate(s, a, s', x);
      }
    }
  }

  lemma StepKeepsInv(s: State, a: Step, s': State)
    requires Inv(s) && Next(s, a, s')
    ensures Inv(s')
  {
    Known(s, a, s.init);
    forall p: nat | p < |s'.procs| ensures OneOk(s', p) {
      StepKeepsOne(s, a, s', p);
    }
    forall c: nat, d: nat | c < |s'.procs| && d < |s'.procs| ensures TwoOk(s', c, d) {
      StepKeepsPair(s, a, s', c, d);
    }
    StepKeepsHistory(s, a, s');
  }
}

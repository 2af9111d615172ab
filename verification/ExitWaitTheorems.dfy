/** What holds over every run of the machine in ExitWait. */
module ExitWaitTheorems {
  import opened ExitWait
  import opened ExitWaitInv

  /** The first process runs, all other slots are free. */
  ghost predicate Init(s: State) {
    && s.Has(s.init) && s.wait == NOBODY && s.nextpid == 2 && s.exits == map[] && s.reaped == map[]
    && (forall p :: 0 <= p < |s.procs| ==> s.pcs[p] == Idle && s.locks[p] == NOBODY)
    && (forall p :: 0 <= p < |s.procs| ==>
        s.procs[p] == if p == s.init then FREE.(state := Running, pid := 1) else FREE)
  }

  lemma InitInv(s: State)
    requires Init(s)
    ensures Inv(s)
  {
  }

  ghost predicate StepAt(states: seq<State>, steps: seq<Step>, k: nat)
    requires k < |steps| && |states| == |steps| + 1
  {
    Next(states[k], steps[k], states[k + 1])
  }

  ghost predicate IsRun(states: seq<State>, steps: seq<Step>) {
    && |states| == |steps| + 1 && Init(states[0])
    && forall k {:trigger StepAt(states, steps, k)} :: 0 <= k < |steps| ==> StepAt(states, steps, k)
  }

  lemma {:induction false} RunInv(states: seq<State>, steps: seq<Step>, k: nat)
    requires IsRun(states, steps) && k < |states|
    ensures Inv(states[k])
    decreases k
  {
    if k == 0 {
      InitInv(states[0]);
    } else {
      RunInv(states, steps, k - 1);
      StepAtKeepsInv(states, steps, k - 1);
    }
  }

  lemma StepAtKeepsInv(states: seq<State>, steps: seq<Step>, k: nat)
    requires IsRun(states, steps) && k < |steps| && Inv(states[k])
    ensures Inv(states[k + 1])
  {
    assert StepAt(states, steps, k);
    StepKeepsInv(states[k], steps[k], states[k + 1]);
  }

  /** No missed wakeup: in every state of every run in which wait_lock is free, no process sleeps in kwait while it has
      a child that has exited. */
  lemma NoSleeperWithZombie(states: seq<State>, steps: seq<Step>, k: nat, p: nat, c: nat)
    requires IsRun(states, steps) && k < |states| && states[k].wait == NOBODY && states[k].Has(p) && states[k].Has(c)
    requires states[k].procs[p].state == Sleeping && states[k].procs[p].chan == p && states[k].procs[c].parent == p
    ensures states[k].procs[c].state != Zombie
  {
    RunInv(states, steps, k);
    Use(states[k], p);
    UsePair(states[k], p, c);
  }

  /** kwait reaps each process that exited at most once, and with the status it exited with. */
  lemma ReapsOnce(states: seq<State>, steps: seq<Step>, k: nat)
    requires IsRun(states, steps) && k < |steps| && steps[k].Reap?
    ensures AtZombie(states[k], steps[k].p)
    ensures var s, x := states[k], Reaped(states[k], steps[k].p);
            x in s.exits && x !in s.reaped && states[k + 1].reaped == s.reaped[x := s.exits[x]]
  {
    RunInv(states, steps, k);
    assert StepAt(states, steps, k);
    Use(states[k], states[k].pcs[steps[k].p].i);
  }

  // The pid of the child that the scan of p has reached.
  function Reaped(s: State, p: nat): nat
    requires AtZombie(s, p)
  {
    s.procs[s.pcs[p].i].pid
  }

  // Nothing else reaps, and what is recorded stays.
  lemma OnlyReapReaps(states: seq<State>, steps: seq<Step>, k: nat)
    requires IsRun(states, steps) && k < |steps| && !steps[k].Reap?
    ensures states[k + 1].reaped == states[k].reaped
  {
    assert StepAt(states, steps, k);
  }

  lemma {:induction false} ReapedStays(states: seq<State>, steps: seq<Step>, j: nat, k: nat, x: nat)
    requires IsRun(states, steps) && j <= k < |states| && x in states[j].reaped
    ensures x in states[k].reaped
    decreases k
  {
    if j < k {
      ReapedStays(states, steps, j, k - 1, x);
      if steps[k - 1].Reap? {
        ReapsOnce(states, steps, k - 1);
      } else {
        OnlyReapReaps(states, steps, k - 1);
      }
    }
  }

  /** No two calls of kwait reap the same process. */
  lemma NeverReapedTwice(states: seq<State>, steps: seq<Step>, j: nat, k: nat)
    requires IsRun(states, steps) && j < k < |steps| && steps[j].Reap? && steps[k].Reap?
    ensures AtZombie(states[j], steps[j].p) && AtZombie(states[k], steps[k].p)
    ensures Reaped(states[j], steps[j].p) != Reaped(states[k], steps[k].p)
  {
    ReapsOnce(states, steps, j);
    ReapsOnce(states, steps, k);
    ReapedStays(states, steps, j + 1, k, Reaped(states[j], steps[j].p));
  }

  // Step j is the call of kwait that reaped process x.
  ghost predicate ReapsAt(states: seq<State>, steps: seq<Step>, j: nat, x: nat) {
    && j < |steps| && j < |states| && steps[j].Reap? && AtZombie(states[j], steps[j].p)
    && Reaped(states[j], steps[j].p) == x
  }

  lemma {:induction false} ReapedAt(states: seq<State>, steps: seq<Step>, k: nat, x: nat) returns (j: nat)
    requires IsRun(states, steps) && k < |states| && x in states[k].reaped
    ensures j < k && ReapsAt(states, steps, j, x)
    decreases k
  {
    assert k > 0;
    if x in states[k - 1].reaped {
      j := ReapedAt(states, steps, k - 1, x);
    } else {
      j := k - 1;
      if steps[j].Reap? {
        ReapsOnce(states, steps, j);
      } else {
        OnlyReapReaps(states, steps, j);
      }
    }
  }

  /** Each process recorded as reaped was reaped by one call of kwait, and by no other. */
  lemma ReapedByOne(states: seq<State>, steps: seq<Step>, k: nat, x: nat) returns (j: nat)
    requires IsRun(states, steps) && k < |states| && x in states[k].reaped
    ensures j < k && ReapsAt(states, steps, j, x) && forall i :: 0 <= i && ReapsAt(states, steps, i, x) ==> i == j
  {
    j := ReapedAt(states, steps, k, x);
    forall i | 0 <= i && ReapsAt(states, steps, i, x) ensures i == j {
      if i < j {
        NeverReapedTwice(states, steps, i, j);
      } else if j < i {
        NeverReapedTwice(states, steps, j, i);
      }
    }
  }

  /** A process that has exited and is not reaped keeps its slot: exactly one slot holds it, with its status. */
  lemma ZombieIsKept(states: seq<State>, steps: seq<Step>, k: nat, x: nat)
    requires IsRun(states, steps) && k < |states| && x in states[k].exits && x !in states[k].reaped
    ensures var s := states[k];
            exists c: nat :: HoldsZombie(s, c, x) && s.procs[c].xstate == s.exits[x]
  {
    RunInv(states, steps, k);
    var s := states[k];
    assert FateOk(s, x);
    var c: nat :| HoldsZombie(s, c, x);
    Use(s, c);
  }

  // The chain of parents from c.
  ghost predicate RootedAt(s: State, c: nat, root: nat)
    requires Inv(s) && s.Has(c)
    decreases s.procs[c].pid
  {
    c == root || (
      Use(s, c);
      s.procs[c].parent != NONE && RootedAt(s, s.procs[c].parent, root))
  }

  /** The parent links always form a tree rooted at init: from every process that is alive or not yet reaped, following
      them leads to init. */
  lemma {:induction false} ForestAt(s: State, c: nat)
    requires Inv(s) && s.Has(c) && (Alive(s.procs[c]) || s.procs[c].state == Zombie)
    ensures RootedAt(s, c, s.init)
    decreases s.procs[c].pid
  {
    Use(s, c);
    if c != s.init {
      ForestAt(s, s.procs[c].parent);
    }
  }

  lemma Forest(states: seq<State>, steps: seq<Step>, k: nat, c: nat)
    requires IsRun(states, steps) && k < |states| && states[k].Has(c)
    ensures Inv(states[k])
    ensures Alive(states[k].procs[c]) || states[k].procs[c].state == Zombie ==> RootedAt(states[k], c, states[k].init)
  {
    RunInv(states, steps, k);
    if Alive(states[k].procs[c]) || states[k].procs[c].state == Zombie {
      ForestAt(states[k], c);
    }
  }

  /** kwait gives up only if the caller was killed or has no child at all. */
  lemma GivesUpWithoutChildren(states: seq<State>, steps: seq<Step>, k: nat, c: nat)
    requires IsRun(states, steps) && k < |steps| && steps[k].GiveUp? && states[k].Has(c) && states[k].Has(steps[k].p)
    ensures states[k].procs[steps[k].p].killed || states[k].procs[c].parent != steps[k].p
  {
    RunInv(states, steps, k);
    assert StepAt(states, steps, k);
    UsePair(states[k], steps[k].p, c);
  }
}

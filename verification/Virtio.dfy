/**
 The virtio disk driver of platform/visionfive2/kernel/virtio_disk.c (sections 2.6 and 5.2 of VIRTIO 1.1). Every method
 is one critical section of vdisk_lock, or one action of the device; they may come in any order. Buffers are numbers.
 */
module Virtio {

  const NUM := 8
  const WRAP := 65536       // ring indices are uint16
  const BSIZE := 1024
  const NONE := -1

  // What a descriptor points at: the request header or the status byte of a chain, or the data of a buffer.
  datatype Target = Nothing | Header(head: nat) | Data(b: nat) | Status(head: nat)

  datatype Desc = Desc(addr: Target, next: nat, more: bool, write: bool)

  const CLEARED := Desc(Nothing, 0, false, false)

  datatype Op = Op(write: bool, sector: nat)

  // The first 512-byte sector of a block.
  function Sector(blockno: nat): nat { blockno * (BSIZE / 512) }

  // disk.info: the buffer (NONE for a null pointer) and the status byte.
  datatype Info = Info(b: int, status: nat)

  /** A request: what was asked for, and the descriptors of its chain. */
  datatype Req = Req(b: nat, write: bool, sector: nat, head: nat, mid: nat, tail: nat) {
    predicate Ok() { head < NUM && mid < NUM && tail < NUM && head != mid && head != tail && mid != tail }
  }

  /** What has happened: all requests in the order of submission, those whose chain is not freed yet, which request each
      descriptor belongs to (or NONE), how many requests the device has taken, those that it has completed, in that
      order, and how many of these completions the driver has handled. */
  datatype History = History(reqs: seq<Req>, open: set<nat>, owner: seq<int>, taken: nat, done: seq<nat>, seen: nat)

  // ---- Counting ----

  ghost predicate NoDuplicates(s: seq<nat>) {
    forall i, j :: 0 <= i < j < |s| ==> s[i] != s[j]
  }

  // The descriptors of the requests in rs.
  ghost function Owned(owner: seq<int>, rs: set<nat>): set<nat> {
    set d: nat | d < |owner| && owner[d] >= 0 && (owner[d] as nat) in rs
  }

  ghost predicate Owns(owner: seq<int>, reqs: seq<Req>, r: nat) {
    && |owner| == NUM && r < |reqs| && reqs[r].Ok()
    && forall d: nat :: d < NUM ==> (owner[d] == r <==> d in {reqs[r].head, reqs[r].mid, reqs[r].tail})
  }

  lemma {:induction false} ThreeEach(owner: seq<int>, reqs: seq<Req>, rs: set<nat>)
    requires |owner| == NUM && forall r {:trigger Owns(owner, reqs, r)} :: r in rs ==> Owns(owner, reqs, r)
    ensures |Owned(owner, rs)| == 3 * |rs|
  {
    if rs == {} {
      assert Owned(owner, rs) == {};
    } else {
      var r :| r in rs;
      ThreeEach(owner, reqs, rs - {r});
      assert Owns(owner, reqs, r);
      var x := reqs[r];
      assert Owned(owner, rs) == Owned(owner, rs - {r}) + {x.head, x.mid, x.tail};
      assert Owned(owner, rs - {r}) !! {x.head, x.mid, x.tail};
      assert |{x.head, x.mid, x.tail}| == 3;
    }
  }

  lemma {:induction false} BelowSize(s: set<nat>, n: nat)
    requires forall x :: x in s ==> x < n
    ensures |s| <= n
  {
    if n > 0 {
      BelowSize(s - {n - 1}, n - 1);
    }
  }

  /** Eight descriptors make at most two chains. */
  lemma AtMostTwo(owner: seq<int>, reqs: seq<Req>, rs: set<nat>)
    requires |owner| == NUM && forall r {:trigger Owns(owner, reqs, r)} :: r in rs ==> Owns(owner, reqs, r)
    ensures |rs| <= 2
  {
    ThreeEach(owner, reqs, rs);
    BelowSize(Owned(owner, rs), NUM);
  }

  lemma {:induction false} IntervalWithin(lo: nat, hi: nat, s: set<nat>)
    requires lo <= hi && forall x: nat :: lo <= x < hi ==> x in s
    ensures hi - lo <= |s|
    decreases hi
  {
    if lo < hi {
      IntervalWithin(lo, hi - 1, s - {hi - 1});
    }
  }

  // The last elements of a sequence without duplicates.
  lemma {:induction false} TailWithin(done: seq<nat>, seen: nat, s: set<nat>)
    requires seen <= |done| && NoDuplicates(done) && forall k :: seen <= k < |done| ==> done[k] in s
    ensures |done| - seen <= |s|
    decreases |done|
  {
    if seen < |done| {
      var n := |done| - 1;
      TailWithin(done[..n], seen, s - {done[n]});
    }
  }

  ghost function FreeSet(free: seq<bool>): set<nat> {
    set d: nat | d < |free| && free[d]
  }

  // Descriptors linked by their next fields, in this order; none is free.
  ghost predicate IsChain(desc: seq<Desc>, free: seq<bool>, chain: seq<nat>) {
    && |desc| == |free| == NUM && |chain| > 0 && NoDuplicates(chain)
    && (forall k :: 0 <= k < |chain| ==>
        chain[k] < NUM && !free[chain[k]] && (desc[chain[k]].more <==> k + 1 < |chain|))
    && (forall k :: 0 < k < |chain| ==> desc[chain[k - 1]].next == chain[k])
  }

  // The descriptors of chain have been freed, the others are as before.
  ghost predicate Freed(desc0: seq<Desc>, free0: seq<bool>, desc: seq<Desc>, free: seq<bool>, chain: seq<nat>) {
    && |desc0| == |free0| == |desc| == |free| == NUM
    && forall d: nat :: d < NUM ==>
       if d in chain then free[d] && desc[d] == CLEARED else free[d] == free0[d] && desc[d] == desc0[d]
  }

  lemma FreedOne(desc0: seq<Desc>, free0: seq<bool>, desc: seq<Desc>, free: seq<bool>, chain: seq<nat>, k: nat)
    requires IsChain(desc0, free0, chain) && k < |chain| && Freed(desc0, free0, desc, free, chain[..k])
    ensures !free[chain[k]] && desc[chain[k]] == desc0[chain[k]]
    ensures Freed(desc0, free0, desc[chain[k] := CLEARED], free[chain[k] := true], chain[..k + 1])
  {
    assert chain[k] !in chain[..k];
    assert chain[..k + 1] == chain[..k] + [chain[k]];
  }

  // The descriptors of idx were free and are now taken.
  ghost predicate Taken(free0: seq<bool>, free: seq<bool>, idx: seq<nat>) {
    && |free0| == |free| == NUM && NoDuplicates(idx) && (forall k :: 0 <= k < |idx| ==> idx[k] < NUM && free0[idx[k]])
    && forall d: nat :: d < NUM ==> free[d] == (free0[d] && d !in idx)
  }

  ghost function Elements(s: seq<nat>): set<nat> {
    set d | d in s
  }

  lemma {:induction false} DistinctCount(idx: seq<nat>)
    requires NoDuplicates(idx)
    ensures |Elements(idx)| == |idx|
    decreases |idx|
  {
    if idx != [] {
      var n := |idx| - 1;
      DistinctCount(idx[..n]);
      assert idx == idx[..n] + [idx[n]];
      assert Elements(idx) == Elements(idx[..n]) + {idx[n]};
    }
  }

  lemma TakenCount(free0: seq<bool>, free: seq<bool>, idx: seq<nat>)
    requires Taken(free0, free, idx)
    ensures |FreeSet(free0)| == |FreeSet(free)| + |idx|
  {
    DistinctCount(idx);
    assert FreeSet(free0) == FreeSet(free) + Elements(idx);
  }

  lemma SmallDifference(x: nat, y: nat)
    requires x <= y < x + WRAP
    ensures x % WRAP == y % WRAP <==> x == y
  {
    if x % WRAP == y % WRAP {
      assert y - x == WRAP * (y / WRAP - x / WRAP);
    }
  }

  lemma RingSlot(x: nat)
    ensures x % WRAP % NUM == x % NUM && (x % WRAP + 1) % WRAP == (x + 1) % WRAP
  {
    assert x == NUM * (8192 * (x / WRAP)) + x % WRAP;
  }

  lemma OtherSlot(x: nat, y: nat)
    requires x < y < x + NUM
    ensures x % NUM != y % NUM
  {
  }

  // ---- The parts of the invariant ----

  // Free descriptors are cleared, each other descriptor belongs to an open request, and each open request owns three.
  ghost predicate Partition(owner: seq<int>, free: seq<bool>, desc: seq<Desc>, reqs: seq<Req>, open: set<nat>) {
    && |owner| == |free| == |desc| == NUM
    && (forall d: nat :: d < NUM ==> (free[d] <==> owner[d] == NONE))
    && (forall d: nat :: d < NUM && free[d] ==> desc[d] == CLEARED)
    && (forall d: nat :: d < NUM && owner[d] != NONE ==> owner[d] >= 0 && (owner[d] as nat) in open)
    && (forall r {:trigger Owns(owner, reqs, r)} :: r in open ==> Owns(owner, reqs, r))
  }

  // The available ring holds the heads of the requests that the device has not taken.
  ghost predicate Avail(ring: seq<nat>, idx: nat, reqs: seq<Req>, taken: nat) {
    && |ring| == NUM && idx == |reqs| % WRAP && taken <= |reqs|
    && forall r :: taken <= r < |reqs| ==> ring[r % NUM] == reqs[r].head
  }

  // The used ring holds the heads of the completed requests that the driver has not handled.
  ghost predicate Used(ring: seq<nat>, idx: nat, reqs: seq<Req>, taken: nat, done: seq<nat>, seen: nat) {
    && |ring| == NUM && idx == |done| % WRAP && seen <= |done| && taken <= |reqs| && NoDuplicates(done)
    && (forall k :: 0 <= k < |done| ==> done[k] < taken)
    && (forall k :: seen <= k < |done| ==> ring[k % NUM] == reqs[done[k]].head)
  }

  // The driver has handled the completion of request r.
  ghost predicate Handled(done: seq<nat>, seen: nat, r: nat) {
    exists k :: 0 <= k < seen && k < |done| && done[k] == r
  }

  // The chain of a request, as the device reads it.
  ghost predicate Formatted(desc: seq<Desc>, ops: seq<Op>, x: Req) {
    && |desc| == |ops| == NUM && x.Ok()
    && desc[x.head] == Desc(Header(x.head), x.mid, true, false)
    && desc[x.mid] == Desc(Data(x.b), x.tail, true, !x.write)
    && desc[x.tail] == Desc(Status(x.head), 0, false, true) && ops[x.head] == Op(x.write, x.sector)
  }

  // An open request: its chain is in place, and its buffer is busy until its completion is handled.
  ghost predicate InFlight(reqs: seq<Req>, desc: seq<Desc>, ops: seq<Op>, info: seq<Info>, busy: set<nat>,
                           done: seq<nat>, seen: nat, r: nat) {
    && r < |reqs| && |info| == NUM && Formatted(desc, ops, reqs[r])
    && info[reqs[r].head] == Info(reqs[r].b, if r in done then 0 else 0xff)
    && (reqs[r].b in busy <==> !Handled(done, seen, r))
  }

  // All open requests are in flight, with buffers of their own; all others have been handled.
  ghost predicate Flights(reqs: seq<Req>, open: set<nat>, desc: seq<Desc>, ops: seq<Op>, info: seq<Info>,
                          busy: set<nat>, done: seq<nat>, seen: nat) {
    && |info| == |ops| == NUM && Own(reqs, open)
    && (forall r {:trigger InFlight(reqs, desc, ops, info, busy, done, seen, r)} :: r in open ==>
          InFlight(reqs, desc, ops, info, busy, done, seen, r))
    && (forall r: nat :: r < |reqs| && r !in open ==> Handled(done, seen, r))
  }

  ghost predicate Own(reqs: seq<Req>, open: set<nat>) {
    forall r, t :: r in open && t in open && r < |reqs| && t < |reqs| && reqs[r].b == reqs[t].b ==> r == t
  }

  ghost function Assign(owner: seq<int>, x: Req, r: int): (owner': seq<int>)
    requires |owner| == NUM && x.Ok()
    ensures |owner'| == NUM
  {
    owner[x.head := r][x.mid := r][x.tail := r]
  }

  lemma NewChain(owner: seq<int>, free0: seq<bool>, desc0: seq<Desc>, reqs: seq<Req>, open: set<nat>,
                 free: seq<bool>, desc: seq<Desc>, idx: seq<nat>, x: Req)
    requires Partition(owner, free0, desc0, reqs, open) && Taken(free0, free, idx) && idx == [x.head, x.mid, x.tail]
    requires x.Ok()
    requires |desc| == NUM && forall d: nat :: d < NUM && d !in idx ==> desc[d] == desc0[d]
    ensures Partition(Assign(owner, x, |reqs|), free, desc, reqs + [x], open + {|reqs|})
  {
    var owner' := Assign(owner, x, |reqs|);
    assert free0[idx[0]] && free0[idx[1]] && free0[idx[2]];
    forall d: nat | d < NUM && owner[d] != NONE ensures owner[d] < |reqs| {
      assert Owns(owner, reqs, owner[d]);
    }
    forall r | r in open + {|reqs|} ensures Owns(owner', reqs + [x], r) {
      if r in open {
        assert Owns(owner, reqs, r);
      }
    }
  }

  // A new request is in flight, and the others still are.
  lemma NewFlight(owner: seq<int>, free: seq<bool>, reqs: seq<Req>, open: set<nat>, done: seq<nat>, seen: nat, x: Req,
                  desc0: seq<Desc>, ops0: seq<Op>, info0: seq<Info>, busy: set<nat>, desc: seq<Desc>,
                  ops: seq<Op>, info: seq<Info>)
    requires Partition(owner, free, desc0, reqs, open) && Flights(reqs, open, desc0, ops0, info0, busy, done, seen)
    requires Formatted(desc, ops, x) && |info| == NUM && info[x.head] == Info(x.b, 0xff) && free[x.head] && free[x.mid]
    requires free[x.tail]
    requires forall d: nat :: d < NUM && !free[d] ==> desc[d] == desc0[d] && ops[d] == ops0[d] && info[d] == info0[d]
    requires (forall k :: 0 <= k < |done| ==> done[k] < |reqs|)
    requires (forall r :: r in open && r < |reqs| ==> reqs[r].b != x.b)
    ensures Flights(reqs + [x], open + {|reqs|}, desc, ops, info, busy + {x.b}, done, seen)
  {
    forall r | r in open + {|reqs|} ensures InFlight(reqs + [x], desc, ops, info, busy + {x.b}, done, seen, r) {
      if r in open {
        assert Owns(owner, reqs, r) && InFlight(reqs, desc0, ops0, info0, busy, done, seen, r);
      }
    }
  }

  lemma PushAvail(ring: seq<nat>, idx: nat, reqs: seq<Req>, taken: nat, x: Req)
    requires Avail(ring, idx, reqs, taken) && |reqs| - taken < NUM
    ensures Avail(ring[idx % NUM := x.head], (idx + 1) % WRAP, reqs + [x], taken)
  {
    RingSlot(|reqs|);
    forall r | taken <= r < |reqs| ensures r % NUM != |reqs| % NUM {
      OtherSlot(r, |reqs|);
    }
  }

  lemma PushUsed(ring: seq<nat>, idx: nat, reqs: seq<Req>, taken: nat, done: seq<nat>, seen: nat, r: nat)
    requires Used(ring, idx, reqs, taken, done, seen) && |done| - seen < NUM && r < taken && r !in done
    ensures Used(ring[idx % NUM := reqs[r].head], (idx + 1) % WRAP, reqs, taken, done + [r], seen)
  {
    RingSlot(|done|);
    forall k | seen <= k < |done| ensures k % NUM != |done| % NUM {
      OtherSlot(k, |done|);
    }
  }

  // Completing, handling and ending a request.

  lemma CompleteFlights(h: History, free: seq<bool>, desc: seq<Desc>, ops: seq<Op>, info: seq<Info>, busy: set<nat>,
                        r: nat)
    requires Partition(h.owner, free, desc, h.reqs, h.open)
    requires Flights(h.reqs, h.open, desc, ops, info, busy, h.done, h.seen)
    requires r < |h.reqs| && r !in h.done && h.seen <= |h.done|
    ensures h.reqs[r].head < NUM && r in h.open
    ensures Flights(h.reqs, h.open, desc, ops, info[h.reqs[r].head := Info(info[h.reqs[r].head].b, 0)], busy,
                    h.done + [r], h.seen)
  {
    assert r in h.open;
    assert Owns(h.owner, h.reqs, r) && InFlight(h.reqs, desc, ops, info, busy, h.done, h.seen, r);
    var info' := info[h.reqs[r].head := Info(info[h.reqs[r].head].b, 0)];
    forall t: nat ensures Handled(h.done + [r], h.seen, t) == Handled(h.done, h.seen, t) {
      SameHandled(h.done, r, h.seen, t);
    }
    forall t | t in h.open ensures InFlight(h.reqs, desc, ops, info', busy, h.done + [r], h.seen, t) {
      assert Owns(h.owner, h.reqs, t) && InFlight(h.reqs, desc, ops, info, busy, h.done, h.seen, t);
    }
  }

  lemma SameHandled(done: seq<nat>, r: nat, seen: nat, t: nat)
    requires seen <= |done|
    ensures Handled(done + [r], seen, t) == Handled(done, seen, t)
  {
    forall k | 0 <= k < |done| ensures (done + [r])[k] == done[k] {
    }
  }

  lemma HandleFlights(h: History, free: seq<bool>, desc: seq<Desc>, ops: seq<Op>, info: seq<Info>, busy: set<nat>)
    requires Partition(h.owner, free, desc, h.reqs, h.open)
    requires Flights(h.reqs, h.open, desc, ops, info, busy, h.done, h.seen)
    requires h.seen < |h.done| && NoDuplicates(h.done) && h.done[h.seen] < |h.reqs|
    ensures var r := h.done[h.seen];
            && r in h.open && !Handled(h.done, h.seen, r) && h.reqs[r].b in busy && h.reqs[r].head < NUM
            && info[h.reqs[r].head] == Info(h.reqs[r].b, 0)
            && Flights(h.reqs, h.open, desc, ops, info, busy - {h.reqs[r].b}, h.done, h.seen + 1)
  {
    var r := h.done[h.seen];
    assert r in h.open;
    assert InFlight(h.reqs, desc, ops, info, busy, h.done, h.seen, r);
    forall t: nat ensures Handled(h.done, h.seen + 1, t) == (t == r || Handled(h.done, h.seen, t)) {
    }
    forall t | t in h.open ensures InFlight(h.reqs, desc, ops, info, busy - {h.reqs[r].b}, h.done, h.seen + 1, t) {
      assert InFlight(h.reqs, desc, ops, info, busy, h.done, h.seen, t);
    }
  }

  lemma EndChain(h: History, free0: seq<bool>, desc0: seq<Desc>, free: seq<bool>, desc: seq<Desc>, r: nat)
    requires Partition(h.owner, free0, desc0, h.reqs, h.open) && r in h.open && Owns(h.owner, h.reqs, r)
    requires Freed(desc0, free0, desc, free, [h.reqs[r].head, h.reqs[r].mid, h.reqs[r].tail])
    ensures Partition(Assign(h.owner, h.reqs[r], NONE), free, desc, h.reqs, h.open - {r})
  {
    var owner' := Assign(h.owner, h.reqs[r], NONE);
    assert forall d: nat :: d < NUM ==> owner'[d] == (if h.owner[d] == r then NONE else h.owner[d]);
    forall t | t in h.open - {r} ensures Owns(owner', h.reqs, t) {
      assert Owns(h.owner, h.reqs, t);
    }
  }

  lemma EndFlight(h: History, free0: seq<bool>, desc0: seq<Desc>, ops: seq<Op>, info: seq<Info>, busy: set<nat>,
                  free: seq<bool>, desc: seq<Desc>, r: nat)
    requires Partition(h.owner, free0, desc0, h.reqs, h.open)
    requires Flights(h.reqs, h.open, desc0, ops, info, busy, h.done, h.seen)
    requires r in h.open && Owns(h.owner, h.reqs, r) && Handled(h.done, h.seen, r)
    requires Freed(desc0, free0, desc, free, [h.reqs[r].head, h.reqs[r].mid, h.reqs[r].tail])
    ensures Flights(h.reqs, h.open - {r}, desc, ops, info[h.reqs[r].head := Info(NONE, info[h.reqs[r].head].status)],
                    busy, h.done, h.seen)
  {
    var info' := info[h.reqs[r].head := Info(NONE, info[h.reqs[r].head].status)];
    forall t | t in h.open - {r} ensures InFlight(h.reqs, desc, ops, info', busy, h.done, h.seen, t) {
      assert Owns(h.owner, h.reqs, t) && InFlight(h.reqs, desc0, ops, info, busy, h.done, h.seen, t);
    }
  }

  class Driver {
    var desc: seq<Desc>
    var free: seq<bool>
    var availRing: seq<nat>
    var availIdx: nat
    var usedRing: seq<nat>
    var usedRingIdx: nat          // disk.used->idx, written by the device
    var usedIdx: nat              // disk.used_idx
    var info: seq<Info>
    var ops: seq<Op>
    var busy: set<nat>            // the buffers with b->disk == 1
    var asleep: set<nat>          // the buffers on which a process sleeps
    var starved: nat              // how many processes sleep on disk.free[0]
    ghost var h: History

    /** Free descriptors and the chains of the open requests partition the descriptors; the rings hold what is not
        consumed yet; each buffer is busy until its own request has completed; nobody sleeps in vain. */
    ghost predicate Valid()
      reads this
    {
      ValidWith(free)
    }

    ghost predicate ValidWith(free: seq<bool>)
      reads this
    {
      && Partition(h.owner, free, desc, h.reqs, h.open) && Avail(availRing, availIdx, h.reqs, h.taken)
      && Used(usedRing, usedRingIdx, h.reqs, h.taken, h.done, h.seen) && usedIdx == h.seen % WRAP
      && Flights(h.reqs, h.open, desc, ops, info, busy, h.done, h.seen)
      && asleep <= busy && (starved > 0 ==> |FreeSet(free)| < 3)
    }

    /** virtio_disk_init: all descriptors are free and nothing is in flight. */
    constructor ()
      ensures Valid() && h.reqs == [] && busy == {} && forall d :: 0 <= d < NUM ==> free[d]
    {
      desc := seq(NUM, _ => CLEARED);
      free := seq(NUM, _ => true);
      availRing, availIdx := seq(NUM, _ => 0), 0;
      usedRing, usedRingIdx, usedIdx := seq(NUM, _ => 0), 0, 0;
      info := seq(NUM, _ => Info(NONE, 0));
      ops := seq(NUM, _ => Op(false, 0));
      busy, asleep, starved := {}, {}, 0;
      h := History([], {}, seq(NUM, _ => NONE), 0, [], 0);
    }

    lemma FewOpen()
      requires Valid()
      ensures |h.open| <= 2 && |h.reqs| - h.taken <= 2 && |h.done| - h.seen <= 2
    {
      AtMostTwo(h.owner, h.reqs, h.open);
      assert forall x: nat :: h.taken <= x < |h.reqs| ==> x in h.open;
      IntervalWithin(h.taken, |h.reqs|, h.open);
      assert forall k :: h.seen <= k < |h.done| ==> h.done[k] in h.open;
      TailWithin(h.done, h.seen, h.open);
    }

    method AllocDesc() returns (i: int)
      requires |free| == NUM
      modifies `free
      ensures i == -1 ==> free == old(free) && FreeSet(free) == {}
      ensures i != -1 ==> 0 <= i < NUM && old(free)[i] && free == old(free)[i := false]
      ensures i != -1 ==> forall j :: 0 <= j < i ==> !old(free)[j]
    {
      for k := 0 to NUM
        invariant free == old(free) && forall j :: 0 <= j < k ==> !free[j]
      {
        if free[k] {
          free := free[k := false];
          return k;
        }
      }
      return -1;
    }

    /** ok is false where the source panics. */
    method FreeDesc(i: nat) returns (ok: bool)
      requires |free| == |desc| == NUM
      modifies `free, `desc, `starved
      ensures ok <==> i < NUM && !old(free)[i]
      ensures ok ==> free == old(free)[i := true] && desc == old(desc)[i := CLEARED] && starved == 0
      ensures !ok ==> free == old(free) && desc == old(desc) && starved == old(starved)
    {
      if i >= NUM || free[i] {
        return false;
      }
      desc := desc[i := CLEARED];
      free := free[i := true];
      starved := 0;
      return true;
    }

    /** Frees exactly the chain that starts at head; free_desc never panics. */
    method FreeChain(head: nat, ghost chain: seq<nat>) returns (ok: bool)
      requires IsChain(desc, free, chain) && chain[0] == head
      modifies `free, `desc, `starved
      ensures ok && Freed(old(desc), old(free), desc, free, chain) && starved == 0
    {
      var i := head;
      ghost var k := 0;
      while true
        invariant 0 <= k < |chain| && i == chain[k] && Freed(old(desc), old(free), desc, free, chain[..k])
        decreases |chain| - k
      {
        FreedOne(old(desc), old(free), desc, free, chain, k);
        var more, next := desc[i].more, desc[i].next;
        ok := FreeDesc(i);
        if !ok || !more {
          assert chain[..k + 1] == chain;
          return;
        }
        k := k + 1;
        i := next;
      }
    }

    method Alloc3Desc() returns (ok: bool, idx: seq<nat>)
      requires |free| == |desc| == NUM && forall d: nat :: d < NUM && free[d] ==> desc[d] == CLEARED
      modifies `free, `desc, `starved
      ensures ok <==> |FreeSet(old(free))| >= 3
      ensures ok ==> |idx| == 3 && Taken(old(free), free, idx) && starved == old(starved)
      ensures !ok ==> free == old(free) && starved <= old(starved)
      ensures desc == old(desc)
    {
      idx := [];
      for i := 0 to 3
        invariant |idx| == i && Taken(old(free), free, idx) && desc == old(desc) && starved == old(starved)
      {
        var d := AllocDesc();
        TakenCount(old(free), free, if d < 0 then idx else idx + [d]);
        if d < 0 {
          UndoAlloc(idx, old(free));
          return false, idx;
        }
        idx := idx + [d];
      }
      TakenCount(old(free), free, idx);
      return true, idx;
    }

    // The rollback in alloc3_desc.
    method UndoAlloc(idx: seq<nat>, ghost free0: seq<bool>)
      requires |desc| == NUM && Taken(free0, free, idx) && forall d: nat :: d < NUM && free0[d] ==> desc[d] == CLEARED
      modifies `free, `desc, `starved
      ensures free == free0 && desc == old(desc) && starved <= old(starved)
    {
      for j := 0 to |idx|
        invariant Taken(free0, free, idx[j..]) && desc == old(desc) && starved <= old(starved)
      {
        assert idx[j..] == [idx[j]] + idx[j + 1..];
        var ok := FreeDesc(idx[j]);
        assert desc == old(desc);
      }
    }

    /** virtio_disk_rw up to the wait: false when it has to sleep for descriptors. The caller holds b's sleep lock. */
    method Submit(b: nat, write: bool, blockno: nat) returns (ok: bool, head: nat)
      requires Valid() && forall r :: r in h.open && r < |h.reqs| ==> h.reqs[r].b != b
      modifies this
      ensures Valid() && ok == (|FreeSet(old(free))| >= 3) && h.taken == old(h.taken) && h.done == old(h.done)
      ensures h.seen == old(h.seen)
      ensures ok ==> |h.reqs| == |old(h.reqs)| + 1 && h.reqs[..|old(h.reqs)|] == old(h.reqs)
      ensures ok ==> h.open == old(h.open) + {|old(h.reqs)|}
      ensures ok ==>
              var x := h.reqs[|old(h.reqs)|];
              x.b == b && x.write == write && x.sector == blockno * (BSIZE / 512) && x.head == head
      ensures ok ==> busy == old(busy) + {b} && asleep == old(asleep)
      ensures !ok ==> h.reqs == old(h.reqs) && h.open == old(h.open) && busy == old(busy) && asleep == old(asleep)
    {
      FewOpen();
      var idx;
      ok, idx := Alloc3Desc();
      if !ok {
        starved := starved + 1;
        return false, 0;
      }
      head := idx[0];
      Enqueue(b, write, blockno, idx, old(free));
    }

    // Formats and publishes a request whose descriptors idx have just been taken; free0 is disk.free before that.
    method Enqueue(b: nat, write: bool, blockno: nat, idx: seq<nat>, ghost free0: seq<bool>)
      requires ValidWith(free0) && Taken(free0, free, idx) && |idx| == 3 && starved == 0 && |h.reqs| - h.taken <= 2
      requires forall r :: r in h.open && r < |h.reqs| ==> h.reqs[r].b != b
      modifies this
      ensures Valid() && h.taken == old(h.taken) && h.done == old(h.done) && h.seen == old(h.seen)
      ensures h.reqs == old(h.reqs) + [Req(b, write, Sector(blockno), idx[0], idx[1], idx[2])]
      ensures h.open == old(h.open) + {|old(h.reqs)|}
      ensures busy == old(busy) + {b} && asleep == old(asleep)
    {
      ghost var x := Req(b, write, Sector(blockno), idx[0], idx[1], idx[2]);
      FormatNew(b, write, blockno, idx, free0, x);
      PushAvail(availRing, availIdx, h.reqs, h.taken, x);
      availRing := availRing[availIdx % NUM := idx[0]];
      availIdx := (availIdx + 1) % WRAP;
      h := h.(owner := Assign(h.owner, x, |h.reqs|), open := h.open + {|h.reqs|}, reqs := h.reqs + [x]);
    }

    method FormatNew(b: nat, write: bool, blockno: nat, idx: seq<nat>, ghost free0: seq<bool>, ghost x: Req)
      requires ValidWith(free0) && Taken(free0, free, idx) && |idx| == 3
      requires x == Req(b, write, Sector(blockno), idx[0], idx[1], idx[2])
      requires forall r :: r in h.open && r < |h.reqs| ==> h.reqs[r].b != b
      modifies `ops, `desc, `info, `busy
      ensures x.Ok() && busy == old(busy) + {b}
      ensures Partition(Assign(h.owner, x, |h.reqs|), free, desc, h.reqs + [x], h.open + {|h.reqs|})
      ensures Flights(h.reqs + [x], h.open + {|h.reqs|}, desc, ops, info, busy, h.done, h.seen)
      ensures Used(usedRing, usedRingIdx, h.reqs + [x], h.taken, h.done, h.seen)
    {
      assert free0[idx[0]] && free0[idx[1]] && free0[idx[2]];
      Format(b, write, blockno, idx);
      NewChain(h.owner, free0, old(desc), h.reqs, h.open, free, desc, idx, x);
      NewFlight(h.owner, free0, h.reqs, h.open, h.done, h.seen, x, old(desc), old(ops), old(info), busy, desc, ops,
                info);
      busy := busy + {b};
    }

    method Format(b: nat, write: bool, blockno: nat, idx: seq<nat>)
      requires |desc| == |ops| == |info| == NUM && |idx| == 3 && NoDuplicates(idx)
      requires forall k :: 0 <= k < 3 ==> idx[k] < NUM
      modifies `ops, `desc, `info
      ensures |info| == NUM && Formatted(desc, ops, Req(b, write, Sector(blockno), idx[0], idx[1], idx[2]))
      ensures forall d: nat :: d < NUM && d !in idx ==>
              desc[d] == old(desc)[d] && ops[d] == old(ops)[d] && info[d] == old(info)[d]
      ensures info[idx[0]] == Info(b, 0xff)
    {
      ops := ops[idx[0] := Op(write, Sector(blockno))];
      desc := desc[idx[0] := Desc(Header(idx[0]), idx[1], true, false)];
      desc := desc[idx[1] := Desc(Data(b), idx[2], true, !write)];
      info := info[idx[0] := Info(info[idx[0]].b, 0xff)];
      desc := desc[idx[2] := Desc(Status(idx[0]), 0, false, true)];
      info := info[idx[0] := Info(b, info[idx[0]].status)];
    }

    /** The device takes the next request from the available ring. */
    method Fetch(next: nat) returns (head: nat)
      requires Valid() && next == h.taken % WRAP && next != availIdx
      modifies `h
      ensures Valid() && h == old(h).(taken := old(h.taken) + 1)
      ensures old(h.taken) in h.open && Formatted(desc, ops, h.reqs[old(h.taken)]) && head == h.reqs[old(h.taken)].head
    {
      FewOpen();
      SmallDifference(h.taken, |h.reqs|);
      RingSlot(h.taken);
      assert InFlight(h.reqs, desc, ops, info, busy, h.done, h.seen, h.taken);
      head := availRing[next % NUM];
      h := h.(taken := h.taken + 1);
    }

    /** The device completes any request r that it has taken. */
    method Complete(ghost r: nat, head: nat)
      requires Valid() && r < h.taken && r !in h.done && head == h.reqs[r].head
      modifies `h, `info, `usedRing, `usedRingIdx
      ensures Valid() && h == old(h).(done := old(h.done) + [r])
    {
      FewOpen();
      PushUsed(usedRing, usedRingIdx, h.reqs, h.taken, h.done, h.seen, r);
      CompleteFlights(h, free, desc, ops, info, busy, r);
      info := info[head := Info(info[head].b, 0)];
      usedRing := usedRing[usedRingIdx % NUM := head];
      usedRingIdx := (usedRingIdx + 1) % WRAP;
      h := h.(done := h.done + [r]);
    }

    /** One turn of the loop in virtio_disk_intr: the request is completed for the first time, and its own waiter
        wakes. */
    method IntrOne() returns (more: bool)
      requires Valid()
      modifies `h, `usedIdx, `busy, `asleep
      ensures Valid() && more == (old(h.seen) < |old(h.done)|)
      ensures !more ==> h == old(h) && busy == old(busy) && asleep == old(asleep)
      ensures more ==> h == old(h).(seen := old(h.seen) + 1)
      ensures more ==> var r := h.done[old(h.seen)];
                       && r in h.open && !Handled(h.done, old(h.seen), r) && h.reqs[r].b in old(busy)
                       && busy == old(busy) - {h.reqs[r].b} && asleep == old(asleep) - {h.reqs[r].b}
    {
      FewOpen();
      SmallDifference(h.seen, |h.done|);
      if usedIdx == usedRingIdx {
        return false;
      }
      RingSlot(h.seen);
      var id := usedRing[usedIdx % NUM];
      HandleFlights(h, free, desc, ops, info, busy);
      assert info[id].status == 0;
      var b := info[id].b;
      busy := busy - {b};
      asleep := asleep - {b};
      usedIdx := (usedIdx + 1) % WRAP;
      h := h.(seen := h.seen + 1);
      return true;
    }

    /** virtio_disk_intr handles every completion, whether or not it was there when the interrupt came. */
    method Intr()
      requires Valid()
      modifies `h, `usedIdx, `busy, `asleep
      ensures Valid() && h == old(h).(seen := |old(h.done)|)
    {
      var more := true;
      while more
        invariant Valid() && h.seen <= |h.done| && h == old(h).(seen := h.seen) && (!more ==> h.seen == |h.done|)
        decreases |h.done| - h.seen, more
      {
        more := IntrOne();
      }
    }

    /** The end of virtio_disk_rw: sleep while the buffer is busy, and then free the chain. */
    method Resume(ghost r: nat, b: nat, head: nat) returns (finished: bool)
      requires Valid() && r in h.open && r < |h.reqs| && b == h.reqs[r].b && head == h.reqs[r].head
      modifies this
      ensures Valid() && finished == Handled(h.done, h.seen, r)
      ensures !finished ==>
              h == old(h) && free == old(free) && desc == old(desc) && busy == old(busy) && asleep == old(asleep) + {b}
      ensures finished ==> h == old(h).(owner := h.owner, open := old(h.open) - {r})
      ensures finished ==> Freed(old(desc), old(free), desc, free, [h.reqs[r].head, h.reqs[r].mid, h.reqs[r].tail])
      ensures finished ==> busy == old(busy) && asleep == old(asleep) && starved == 0
    {
      assert InFlight(h.reqs, desc, ops, info, busy, h.done, h.seen, r) && Owns(h.owner, h.reqs, r);
      if b in busy {
        asleep := asleep + {b};
        return false;
      }
      Finish(r, head);
      return true;
    }

    method Finish(ghost r: nat, head: nat)
      requires Valid() && r in h.open && r < |h.reqs| && head == h.reqs[r].head && Handled(h.done, h.seen, r)
      modifies `h, `info, `free, `desc, `starved
      ensures Valid() && h == old(h).(owner := h.owner, open := old(h.open) - {r})
      ensures starved == 0 && Freed(old(desc), old(free), desc, free, [h.reqs[r].head, h.reqs[r].mid, h.reqs[r].tail])
    {
      ghost var x := h.reqs[r];
      assert InFlight(h.reqs, desc, ops, info, busy, h.done, h.seen, r) && Owns(h.owner, h.reqs, r);
      info := info[head := Info(NONE, info[head].status)];
      var ok := FreeChain(head, [x.head, x.mid, x.tail]);
      EndChain(h, old(free), old(desc), free, desc, r);
      EndFlight(h, old(free), old(desc), ops, old(info), busy, free, desc, r);
      h := h.(owner := Assign(h.owner, x, NONE), open := h.open - {r});
    }
  }
}

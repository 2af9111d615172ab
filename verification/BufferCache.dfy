/**
 The buffer cache of kernel/bio.c: NBUF buffers on a circular doubly linked list through a sentinel.

 The value-level operations (TakeRef, Recycle, DropRef) are also the buffer steps of LogSystem; class Cache
 implements them over the linked list. LogTheorems.BgetIsStep connects the two for bget.
 */
module BufferCache {
  import opened LogLayout

  const NBUF := 30
  const HEAD := NBUF   // index of the list sentinel `bcache.head`

  datatype Buf = Buf(dev: nat, blockno: nat, valid: bool, refcnt: int, pinned: int, data: Block)

  function EmptyBuf(): Buf { Buf(0, 0, false, 0, 0, seq(WORDS, _ => 0)) }

  function EmptyCache(): seq<Buf> { seq(NBUF, _ => EmptyBuf()) }

  predicate CanEvict(b: Buf) { b.refcnt == 0 && b.pinned == 0 }

  // A cache hit.
  function TakeRef(bufs: seq<Buf>, i: nat): seq<Buf>
    requires i < |bufs|
  {
    bufs[i := bufs[i].(refcnt := bufs[i].refcnt + 1)]
  }

  // A miss: buffer i is given to another block and will be read from disk.
  function Recycle(bufs: seq<Buf>, i: nat, dev: nat, b: nat): seq<Buf>
    requires i < |bufs|
  {
    bufs[i := bufs[i].(dev := dev, blockno := b, valid := false, refcnt := 1)]
  }

  function DropRef(bufs: seq<Buf>, i: nat): seq<Buf>
    requires i < |bufs|
  {
    bufs[i := bufs[i].(refcnt := bufs[i].refcnt - 1)]
  }

  predicate IsFor(buf: Buf, dev: nat, b: nat) { buf.dev == dev && buf.blockno == b }

  // order is a list of all buffers and pos says where each one is.
  ghost predicate Permutation(order: seq<nat>, pos: seq<nat>) {
    && |order| == |pos| == NBUF
    && (forall k :: 0 <= k < NBUF ==> order[k] < NBUF && pos[order[k]] == k)
    && (forall i :: 0 <= i < NBUF ==> pos[i] < NBUF && order[pos[i]] == i)
  }

  // The list node at position k; the sentinel stands at both ends.
  function Node(order: seq<nat>, k: int): nat {
    if 0 <= k < |order| then order[k] else HEAD
  }

  ghost predicate Linked(order: seq<nat>, next: seq<nat>, prev: seq<nat>) {
    |next| == |prev| == NBUF + 1 && |order| == NBUF &&
    (forall k :: 0 <= k < NBUF ==> order[k] < NBUF) &&
    next[HEAD] == order[0] && prev[HEAD] == order[NBUF - 1] &&
    (forall k {:trigger next[order[k]]} :: 0 <= k < NBUF ==> next[order[k]] == Node(order, k + 1)) &&
    (forall k {:trigger prev[order[k]]} :: 0 <= k < NBUF ==> prev[order[k]] == Node(order, k - 1))
  }

  // Position of the first buffer at or after k that holds the block, or NBUF.
  ghost function FindFrom(order: seq<nat>, bufs: seq<Buf>, dev: nat, b: nat, k: nat): (r: nat)
    requires |order| == |bufs| == NBUF && k <= NBUF && forall j :: 0 <= j < NBUF ==> order[j] < NBUF
    ensures k <= r <= NBUF && (r < NBUF ==> IsFor(bufs[order[r]], dev, b))
    decreases NBUF - k
  {
    if k == NBUF || IsFor(bufs[order[k]], dev, b) then k else FindFrom(order, bufs, dev, b, k + 1)
  }

  // Position of the last buffer before k that may be recycled, or -1.
  ghost function VictimBefore(order: seq<nat>, bufs: seq<Buf>, k: nat): (r: int)
    requires |order| == |bufs| == NBUF && k <= NBUF && forall j :: 0 <= j < NBUF ==> order[j] < NBUF
    ensures -1 <= r < k && (r >= 0 ==> CanEvict(bufs[order[r]]))
  {
    if k == 0 then -1 else if CanEvict(bufs[order[k - 1]]) then k - 1 else VictimBefore(order, bufs, k - 1)
  }

  lemma {:induction false} FindsFirst(order: seq<nat>, bufs: seq<Buf>, dev: nat, b: nat, k: nat, j: nat)
    requires |order| == |bufs| == NBUF && k <= NBUF && forall x :: 0 <= x < NBUF ==> order[x] < NBUF
    requires k <= j < FindFrom(order, bufs, dev, b, k)
    ensures !IsFor(bufs[order[j]], dev, b)
    decreases NBUF - k
  {
    if k < j {
      FindsFirst(order, bufs, dev, b, k + 1, j);
    }
  }

  lemma {:induction false} FindsLast(order: seq<nat>, bufs: seq<Buf>, k: nat, j: nat)
    requires |order| == |bufs| == NBUF && k <= NBUF && forall x :: 0 <= x < NBUF ==> order[x] < NBUF
    requires VictimBefore(order, bufs, k) < j < k
    ensures !CanEvict(bufs[order[j]])
  {
    if j < k - 1 {
      FindsLast(order, bufs, k - 1, j);
    }
  }

  // Buffer i moved to the end of the list.
  ghost function MoveToTail(order: seq<nat>, k: nat): seq<nat>
    requires k < |order|
  {
    order[..k] + order[k + 1..] + [order[k]]
  }

  ghost function MovedPos(pos: seq<nat>, i: nat): (r: seq<nat>)
    requires i < |pos|
  {
    seq(|pos|, j requires 0 <= j < |pos| =>
      if j == i then |pos| - 1 else if pos[j] > pos[i] then pos[j] - 1 else pos[j])
  }

  lemma MoveToTailPermutes(order: seq<nat>, pos: seq<nat>, i: nat)
    requires Permutation(order, pos) && i < NBUF
    ensures Permutation(MoveToTail(order, pos[i]), MovedPos(pos, i))
  {
  }

  /** A block is cached exactly when the lookup finds it: the list reaches every buffer. */
  lemma LookupIsComplete(order: seq<nat>, pos: seq<nat>, bufs: seq<Buf>, dev: nat, b: nat)
    requires Permutation(order, pos) && |bufs| == NBUF
    ensures FindFrom(order, bufs, dev, b, 0) < NBUF <==> exists i :: 0 <= i < NBUF && IsFor(bufs[i], dev, b)
    ensures VictimBefore(order, bufs, NBUF) >= 0 <==> exists i :: 0 <= i < NBUF && CanEvict(bufs[i])
  {
    forall i | 0 <= i < NBUF && IsFor(bufs[i], dev, b) ensures FindFrom(order, bufs, dev, b, 0) < NBUF {
      if pos[i] < FindFrom(order, bufs, dev, b, 0) {
        FindsFirst(order, bufs, dev, b, 0, pos[i]);
      }
    }
    forall i | 0 <= i < NBUF && CanEvict(bufs[i]) ensures VictimBefore(order, bufs, NBUF) >= 0 {
      if VictimBefore(order, bufs, NBUF) < pos[i] {
        FindsLast(order, bufs, NBUF, pos[i]);
      }
    }
  }

  // ---- Which buffer is evicted ----

  /** The buffer that brelse has just put at the tail is the next victim. */
  lemma LastReleasedIsEvictedFirst(order: seq<nat>, pos: seq<nat>, bufs: seq<Buf>, i: nat)
    requires Permutation(order, pos) && |bufs| == NBUF && i < NBUF && CanEvict(bufs[i])
    ensures var order' := MoveToTail(order, pos[i]);
            |order'| == NBUF && (forall j :: 0 <= j < NBUF ==> order'[j] < NBUF) &&
            order'[VictimBefore(order', bufs, NBUF)] == i
  {
    MoveToTailPermutes(order, pos, i);
  }

  // No two buffers share a position.
  ghost predicate Positions(pos: seq<nat>) {
    |pos| == NBUF && (forall i :: 0 <= i < NBUF ==> pos[i] < NBUF) &&
    forall i, j :: 0 <= i < j < NBUF ==> pos[i] != pos[j]
  }

  // Where the buffers are after the given last references have been dropped.
  ghost function PosAfter(pos: seq<nat>, releases: seq<nat>): (r: seq<nat>)
    requires Positions(pos) && forall k :: 0 <= k < |releases| ==> releases[k] < NBUF
    ensures Positions(r)
  {
    if releases == [] then pos
    else var n := |releases| - 1; MovedPos(PosAfter(pos, releases[..n]), releases[n])
  }

  /** The list is in the order of release: a buffer released after the last release of another is behind it. */
  lemma {:induction false} ReleasedLaterIsBehind(pos: seq<nat>, releases: seq<nat>, i: nat, j: nat, k: nat)
    requires Positions(pos) && forall x :: 0 <= x < |releases| ==> releases[x] < NBUF
    requires k < |releases| && releases[k] == i && j < NBUF && j !in releases[k..]
    ensures PosAfter(pos, releases)[j] < PosAfter(pos, releases)[i]
  {
    var n := |releases| - 1;
    var before, x := PosAfter(pos, releases[..n]), releases[n];
    assert x in releases[k..];
    if x != i {
      assert releases[..n][k..] == releases[k..n];
      assert forall y :: y in releases[k..n] ==> y in releases[k..];
      ReleasedLaterIsBehind(pos, releases[..n], i, j, k);
      assert before[x] != before[i] && before[x] != before[j];
    }
  }

  // Position of the first buffer at or after k that may be recycled, or -1: the one that was released longest ago.
  ghost function OldestFrom(order: seq<nat>, bufs: seq<Buf>, k: nat): (r: int)
    requires |order| == |bufs| == NBUF && k <= NBUF && forall j :: 0 <= j < NBUF ==> order[j] < NBUF
    ensures r == -1 || (k <= r < NBUF && CanEvict(bufs[order[r]]))
    decreases NBUF - k
  {
    if k == NBUF then -1 else if CanEvict(bufs[order[k]]) then k else OldestFrom(order, bufs, k + 1)
  }

  lemma {:induction false} OldestIsFirst(order: seq<nat>, bufs: seq<Buf>, k: nat, j: nat)
    requires |order| == |bufs| == NBUF && k <= j < NBUF && forall x :: 0 <= x < NBUF ==> order[x] < NBUF
    requires CanEvict(bufs[order[j]])
    ensures k <= OldestFrom(order, bufs, k) <= j
    decreases NBUF - k
  {
    if k < j && !CanEvict(bufs[order[k]]) {
      OldestIsFirst(order, bufs, k + 1, j);
    }
  }

  /** Eviction is least recently used only where there is no choice: the victim is the buffer that was released longest
      ago if and only if no two buffers may be evicted. */
  lemma EvictsOldestIff(order: seq<nat>, pos: seq<nat>, bufs: seq<Buf>)
    requires Permutation(order, pos) && |bufs| == NBUF
    ensures VictimBefore(order, bufs, NBUF) == OldestFrom(order, bufs, 0) <==>
            forall i, j :: 0 <= i < j < NBUF ==> !CanEvict(bufs[i]) || !CanEvict(bufs[j])
  {
    var v, o := VictimBefore(order, bufs, NBUF), OldestFrom(order, bufs, 0);
    if o >= 0 && v < o {
      FindsLast(order, bufs, NBUF, o);
    }
    if v >= 0 {
      OldestIsFirst(order, bufs, 0, v);
    }
    if v == o {
      forall i, j | 0 <= i < j < NBUF && CanEvict(bufs[i]) && CanEvict(bufs[j]) ensures false {
        OnlyVictim(order, pos, bufs, i);
        OnlyVictim(order, pos, bufs, j);
      }
    } else {
      assert order[v] != order[o];
      assert CanEvict(bufs[order[v]]) && CanEvict(bufs[order[o]]);
    }
  }

  // If the first and the last evictable buffer are the same, every evictable buffer is that one.
  lemma OnlyVictim(order: seq<nat>, pos: seq<nat>, bufs: seq<Buf>, i: nat)
    requires Permutation(order, pos) && |bufs| == NBUF && i < NBUF && CanEvict(bufs[i])
    requires VictimBefore(order, bufs, NBUF) == OldestFrom(order, bufs, 0)
    ensures pos[i] == VictimBefore(order, bufs, NBUF)
  {
    OldestIsFirst(order, bufs, 0, pos[i]);
    if VictimBefore(order, bufs, NBUF) < pos[i] {
      FindsLast(order, bufs, NBUF, pos[i]);
    }
  }

  /** With two released buffers the one released last goes, and the older one stays. */
  lemma EvictsNewest(order: seq<nat>, pos: seq<nat>, bufs: seq<Buf>, i: nat, j: nat)
    requires Permutation(order, pos) && |bufs| == NBUF && i < NBUF && j < NBUF && CanEvict(bufs[i]) && CanEvict(bufs[j])
    requires pos[i] < pos[j] && forall x :: 0 <= x < NBUF && x != i && x != j ==> !CanEvict(bufs[x])
    ensures VictimBefore(order, bufs, NBUF) == pos[j] && OldestFrom(order, bufs, 0) == pos[i]
  {
    OldestIsFirst(order, bufs, 0, pos[i]);
    if VictimBefore(order, bufs, NBUF) < pos[j] {
      FindsLast(order, bufs, NBUF, pos[j]);
    }
    var v, o := VictimBefore(order, bufs, NBUF), OldestFrom(order, bufs, 0);
    assert pos[order[v]] == v && pos[order[o]] == o;
  }

  /** In a cache that nobody uses, the victim is at the tail and the oldest buffer at the head. */
  lemma FreshCacheEvictsTail()
    ensures var order := seq(NBUF, k requires 0 <= k < NBUF => NBUF - 1 - k);
            && Permutation(order, order)
            && VictimBefore(order, EmptyCache(), NBUF) == NBUF - 1 && OldestFrom(order, EmptyCache(), 0) == 0
  {
  }

  class Cache {
    var bufs: seq<Buf>
    var next: seq<nat>
    var prev: seq<nat>
    ghost var order: seq<nat>
    ghost var pos: seq<nat>

    ghost predicate Valid()
      reads this
    {
      |bufs| == NBUF && Permutation(order, pos) && Linked(order, next, prev)
    }

    /** binit pushes each buffer at the front, so the list starts as NBUF - 1, ..., 0. */
    constructor ()
      ensures Valid() && bufs == EmptyCache()
      ensures forall k :: 0 <= k < NBUF ==> order[k] == NBUF - 1 - k
    {
      bufs := EmptyCache();
      var nxt: seq<nat> := seq(NBUF + 1, _ => HEAD);
      var prv: seq<nat> := seq(NBUF + 1, _ => HEAD);
      for b := 0 to NBUF
        invariant |nxt| == |prv| == NBUF + 1
        invariant nxt[HEAD] == if b == 0 then HEAD else b - 1
        invariant prv[HEAD] == if b == 0 then HEAD else 0
        invariant forall j :: 0 <= j < b ==>
                  nxt[j] == (if j == 0 then HEAD else j - 1) && prv[j] == (if j + 1 == b then HEAD else j + 1)
      {
        nxt, prv := nxt[b := nxt[HEAD]], prv[b := HEAD];
        prv := prv[nxt[HEAD] := b];
        nxt := nxt[HEAD := b];
      }
      next, prev := nxt, prv;
      order := seq(NBUF, k requires 0 <= k < NBUF => NBUF - 1 - k);
      pos := seq(NBUF, k requires 0 <= k < NBUF => NBUF - 1 - k);
    }

    // The forward scan of bget for the block; HEAD if it is not cached.
    method Lookup(dev: nat, blockno: nat) returns (b: nat)
      requires Valid()
      ensures b == Node(order, FindFrom(order, bufs, dev, blockno, 0))
    {
      b := next[HEAD];
      ghost var k := 0;
      while b != HEAD
        invariant 0 <= k <= NBUF && b == Node(order, k)
        invariant FindFrom(order, bufs, dev, blockno, 0) == FindFrom(order, bufs, dev, blockno, k)
        decreases NBUF - k
      {
        if bufs[b].dev == dev && bufs[b].blockno == blockno {
          return;
        }
        b, k := next[b], k + 1;
      }
    }

    // The backward scan of bget for a buffer to recycle; HEAD if there is none.
    method FindVictim() returns (b: nat)
      requires Valid()
      ensures b == Node(order, VictimBefore(order, bufs, NBUF))
    {
      b := prev[HEAD];
      ghost var k := NBUF;
      while b != HEAD
        invariant 0 <= k <= NBUF && b == Node(order, k - 1)
        invariant VictimBefore(order, bufs, NBUF) == VictimBefore(order, bufs, k)
        decreases k
      {
        if bufs[b].refcnt == 0 && bufs[b].pinned == 0 {
          return;
        }
        b, k := prev[b], k - 1;
      }
    }

    /** Returns the buffer for the block with one more reference, or -1 where the C code panics. */
    method Bget(dev: nat, blockno: nat) returns (i: int)
      requires Valid()
      modifies this`bufs
      ensures Valid() && -1 <= i < NBUF
      ensures var f, v := FindFrom(order, old(bufs), dev, blockno, 0), VictimBefore(order, old(bufs), NBUF);
              if f < NBUF then i == order[f] && bufs == TakeRef(old(bufs), i)
              else if v >= 0 then i == order[v] && bufs == Recycle(old(bufs), i, dev, blockno)
              else i == -1 && bufs == old(bufs)
    {
      var b := Lookup(dev, blockno);
      if b != HEAD {
        bufs := bufs[b := bufs[b].(refcnt := bufs[b].refcnt + 1)];
        return b;
      }
      b := FindVictim();
      if b != HEAD {
        bufs := bufs[b := bufs[b].(dev := dev, blockno := blockno, valid := false, refcnt := 1)];
        return b;
      }
      return -1;
    }

    /** Drops the caller's reference; the last one moves the buffer to the tail of the list. */
    method Brelse(b: nat)
      requires Valid() && b < NBUF
      modifies this
      ensures Valid() && bufs == DropRef(old(bufs), b)
      ensures order == if bufs[b].refcnt == 0 then MoveToTail(old(order), old(pos)[b]) else old(order)
    {
      bufs := bufs[b := bufs[b].(refcnt := bufs[b].refcnt - 1)];
      if bufs[b].refcnt == 0 {
        ghost var order', pos' := MoveToTail(order, pos[b]), MovedPos(pos, b);
        MoveToTailPermutes(order, pos, b);
        Relink(b);
        order, pos := order', pos';
      }
    }

    // The relinking in brelse: buffer b goes to the tail of the list.
    method Relink(b: nat)
      requires Permutation(order, pos) && Linked(order, next, prev) && b < NBUF
      modifies `next, `prev
      ensures Linked(MoveToTail(order, pos[b]), next, prev)
    {
      assert order[pos[b]] == b;
      if next[b] != HEAD {
        next := next[prev[b] := next[b]];
        prev := prev[next[b] := prev[b]];
        prev := prev[b := prev[HEAD]];
        next := next[prev[HEAD] := b];
        next := next[b := HEAD];
        prev := prev[HEAD := b];
        Relinked(order, pos, old(next), old(prev), b, next, prev);
      }
    }

    method Bpin(b: nat)
      requires Valid() && b < NBUF
      modifies this`bufs
      ensures Valid() && bufs == old(bufs)[b := old(bufs[b]).(pinned := old(bufs[b]).pinned + 1)]
    {
      bufs := bufs[b := bufs[b].(pinned := bufs[b].pinned + 1)];
    }

    /** Returns false where the C code panics. */
    method Bunpin(b: nat) returns (ok: bool)
      requires Valid() && b < NBUF
      modifies this`bufs
      ensures Valid() && ok == (old(bufs[b]).pinned > 0)
      ensures bufs == if ok then old(bufs)[b := old(bufs[b]).(pinned := old(bufs[b]).pinned - 1)] else old(bufs)
    {
      ok := bufs[b].pinned > 0;
      if ok {
        bufs := bufs[b := bufs[b].(pinned := bufs[b].pinned - 1)];
      }
    }
  }

  // The pointer updates of brelse splice buffer b, at position m, out and back in before the sentinel.
  lemma Relinked(order: seq<nat>, pos: seq<nat>, next: seq<nat>, prev: seq<nat>, b: nat, next': seq<nat>,
                 prev': seq<nat>)
    requires Permutation(order, pos) && Linked(order, next, prev) && b < NBUF && next[b] != HEAD
    requires next[b] <= NBUF && prev[b] <= NBUF && prev[HEAD] <= NBUF
    requires next' == next[prev[b] := next[b]][prev[HEAD] := b][b := HEAD]
    requires prev' == prev[next[b] := prev[b]][b := prev[HEAD]][HEAD := b]
    ensures Linked(MoveToTail(order, pos[b]), next', prev')
  {
    var order' := MoveToTail(order, pos[b]);
    forall k | 0 <= k < NBUF
      ensures next'[order'[k]] == Node(order', k + 1) && prev'[order'[k]] == Node(order', k - 1)
    {
      RelinkedNext(order, pos, next, prev, b, next', prev', k);
      RelinkedPrev(order, pos, next, prev, b, next', prev', k);
    }
  }

  lemma RelinkedNext(order: seq<nat>, pos: seq<nat>, next: seq<nat>, prev: seq<nat>, b: nat, next': seq<nat>,
                     prev': seq<nat>, k: nat)
    requires Permutation(order, pos) && Linked(order, next, prev) && b < NBUF && next[b] != HEAD && k < NBUF
    requires next[b] <= NBUF && prev[b] <= NBUF && prev[HEAD] <= NBUF
    requires next' == next[prev[b] := next[b]][prev[HEAD] := b][b := HEAD]
    requires prev' == prev[next[b] := prev[b]][b := prev[HEAD]][HEAD := b]
    ensures var order' := MoveToTail(order, pos[b]);
            order'[k] < NBUF && next'[order'[k]] == Node(order', k + 1)
  {
    var m, order' := pos[b], MoveToTail(order, pos[b]);
    assert m < NBUF - 1 && order[m] == b && Node(order, m + 1) == order[m + 1];
    var x := order'[k];
    assert x == if k < m then order[k] else if k < NBUF - 1 then order[k + 1] else b;
    var q: int := pos[x];
    assert next[order[q]] == Node(order, q + 1) && next[order[m]] == Node(order, m + 1) &&
           prev[order[m]] == Node(order, m - 1);
  }

  lemma RelinkedPrev(order: seq<nat>, pos: seq<nat>, next: seq<nat>, prev: seq<nat>, b: nat, next': seq<nat>,
                     prev': seq<nat>, k: nat)
    requires Permutation(order, pos) && Linked(order, next, prev) && b < NBUF && next[b] != HEAD && k < NBUF
    requires next[b] <= NBUF && prev[b] <= NBUF && prev[HEAD] <= NBUF
    requires next' == next[prev[b] := next[b]][prev[HEAD] := b][b := HEAD]
    requires prev' == prev[next[b] := prev[b]][b := prev[HEAD]][HEAD := b]
    ensures var order' := MoveToTail(order, pos[b]);
            order'[k] < NBUF && prev'[order'[k]] == Node(order', k - 1)
  {
    var m, order' := pos[b], MoveToTail(order, pos[b]);
    assert m < NBUF - 1 && order[m] == b && Node(order, m + 1) == order[m + 1];
    var x := order'[k];
    assert x == if k < m then order[k] else if k < NBUF - 1 then order[k + 1] else b;
    var q: int := pos[x];
    assert prev[order[q]] == Node(order, q - 1) && next[order[m]] == Node(order, m + 1) &&
           prev[order[m]] == Node(order, m - 1);
  }
}

/**
 The user-level allocator of platform/visionfive2/user/umalloc.c. Addresses count headers (16 bytes), so a block of n
 units at b occupies b .. b + n - 1, and what malloc returns is b + 1. The static header `base` lies below the heap.
 */
module Umalloc {

  // ---- Circular lists ----

  function Succ(list: seq<int>, i: nat): int
    requires i < |list|
  {
    if i + 1 < |list| then list[i + 1] else list[0]
  }

  ghost predicate LinkOk(next: map<int, int>, list: seq<int>, i: int) {
    0 <= i < |list| ==> list[i] in next && next[list[i]] == Succ(list, i)
  }

  // next links the elements of the list in a circle.
  ghost predicate Ring(next: map<int, int>, list: seq<int>) {
    forall i {:trigger LinkOk(next, list, i)} :: LinkOk(next, list, i)
  }

  ghost predicate Sorted(list: seq<int>) {
    forall i, j {:trigger Before(list, i, j)} :: Before(list, i, j)
  }

  predicate Before(list: seq<int>, i: int, j: int) {
    0 <= i < j < |list| ==> list[i] < list[j]
  }

  lemma Distinct(list: seq<int>, i: nat, j: nat)
    requires Sorted(list) && i < |list| && j < |list| && list[i] == list[j]
    ensures i == j
  {
    assert Before(list, i, j) && Before(list, j, i);
  }

  function Insert(list: seq<int>, k: nat, b: int): seq<int>
    requires k < |list|
  {
    list[..k + 1] + [b] + list[k + 1..]
  }

  // Without the element after position k.
  function Remove(list: seq<int>, k: nat): seq<int>
    requires k + 1 < |list|
  {
    list[..k + 1] + list[k + 2..]
  }

  lemma RemovedGone(list: seq<int>, k: nat)
    requires Sorted(list) && k + 1 < |list|
    ensures list[k + 1] !in Remove(list, k)
  {
    forall i | 0 <= i < |Remove(list, k)| ensures Remove(list, k)[i] != list[k + 1] {
      var j := if i <= k then i else i + 1;
      assert Before(list, j, k + 1) && Before(list, k + 1, j);
    }
  }

  lemma RingInsert(next: map<int, int>, list: seq<int>, k: nat, b: int)
    requires Ring(next, list) && Sorted(list) && k < |list| && b !in list
    ensures Ring(next[b := Succ(list, k)][list[k] := b], Insert(list, k, b))
  {
    var list', next' := Insert(list, k, b), next[b := Succ(list, k)][list[k] := b];
    forall i ensures LinkOk(next', list', i) {
      var j := if i <= k then i else i - 1;
      assert LinkOk(next, list, j) && Before(list, j, k) && Before(list, k, j);
    }
  }

  lemma RingRemove(next: map<int, int>, list: seq<int>, k: nat)
    requires Ring(next, list) && Sorted(list) && k + 1 < |list|
    ensures Ring(next[list[k] := Succ(list, k + 1)], Remove(list, k))
  {
    var list', next' := Remove(list, k), next[list[k] := Succ(list, k + 1)];
    forall i ensures LinkOk(next', list', i) {
      var j := if i < k then i else i + 1;
      assert LinkOk(next, list, j) && Before(list, j, k) && Before(list, k, j);
    }
  }

  // Only the links of list elements matter.
  lemma RingFrame(next: map<int, int>, next': map<int, int>, list: seq<int>)
    requires Ring(next, list) && forall b :: b in list && b in next ==> b in next' && next'[b] == next[b]
    ensures Ring(next', list)
  {
    forall i ensures LinkOk(next', list, i) {
      assert LinkOk(next, list, i);
      if 0 <= i < |list| {
        var b := list[i];
        assert b in list && b in next;
      }
    }
  }

  // Free blocks do not touch: the list is fully coalesced. The first element is base.
  ghost predicate Apart(list: seq<int>, size: map<int, int>) {
    forall i {:trigger GapOk(list, size, i)} :: GapOk(list, size, i)
  }

  ghost predicate GapOk(list: seq<int>, size: map<int, int>, i: int) {
    1 <= i < |list| - 1 ==> list[i] in size && list[i] + size[list[i]] < list[i + 1]
  }

  ghost function Members(list: seq<int>): set<int> {
    set b | b in list
  }

  lemma MembersInsert(list: seq<int>, k: nat, b: int)
    requires k < |list|
    ensures Members(Insert(list, k, b)[1..]) == Members(list[1..]) + {b}
  {
    assert Insert(list, k, b)[1..] == list[1..k + 1] + [b] + list[k + 1..] &&
           list[1..] == list[1..k + 1] + list[k + 1..];
  }

  lemma MembersRemove(list: seq<int>, k: nat)
    requires k + 1 < |list| && Sorted(list)
    ensures Members(Remove(list, k)[1..]) == Members(list[1..]) - {list[k + 1]}
  {
    assert Remove(list, k)[1..] == list[1..k + 1] + list[k + 2..] &&
           list[1..] == list[1..k + 1] + [list[k + 1]] + list[k + 2..];
    RemovedGone(list, k);
    assert forall b :: b in Remove(list, k)[1..] ==> b in Remove(list, k);
  }

  // ---- The heap as a set of blocks ----

  // Every unit lies in the block that `owner` names.
  ghost predicate UnitsOwned(owner: map<int, int>, size: map<int, int>, blocks: set<int>) {
    forall x :: x in owner ==> owner[x] in blocks && owner[x] in size && owner[x] <= x < owner[x] + size[owner[x]]
  }

  /** The blocks tile the heap: every unit lies in the block that `owner` names, and every block owns its units. */
  ghost predicate Tiled(owner: map<int, int>, size: map<int, int>, blocks: set<int>) {
    && UnitsOwned(owner, size, blocks)
    && (forall b {:trigger OwnsUnits(owner, size, b)} :: b in blocks ==> OwnsUnits(owner, size, b))
  }

  ghost predicate OwnsUnits(owner: map<int, int>, size: map<int, int>, b: int) {
    b in size && size[b] > 0 && forall x :: b <= x < b + size[b] ==> x in owner && owner[x] == b
  }

  lemma BlocksDisjoint(owner: map<int, int>, size: map<int, int>, blocks: set<int>, b: int, c: int)
    requires Tiled(owner, size, blocks) && b in blocks && c in blocks && b < c
    ensures b in size && c in size && b + size[b] <= c
  {
    assert OwnsUnits(owner, size, b) && OwnsUnits(owner, size, c);
    assert owner[c] == c;
  }

  ghost function Reassign(owner: map<int, int>, lo: int, n: int, b: int): (r: map<int, int>)
    ensures r.Keys == owner.Keys
  {
    map x | x in owner :: if lo <= x < lo + n then b else owner[x]
  }

  /** Joining two blocks that touch. */
  lemma TileJoin(owner: map<int, int>, size: map<int, int>, blocks: set<int>, b: int, c: int)
    requires Tiled(owner, size, blocks) && b in blocks && c in blocks && b in size && c in size && b + size[b] == c
    ensures Tiled(Reassign(owner, c, size[c], b), size[b := size[b] + size[c]], blocks - {c})
  {
    var owner', size' := Reassign(owner, c, size[c], b), size[b := size[b] + size[c]];
    assert OwnsUnits(owner, size, b) && OwnsUnits(owner, size, c);
    forall d | d in blocks - {c} ensures OwnsUnits(owner', size', d) {
      assert OwnsUnits(owner, size, d);
      if d < c {
        BlocksDisjoint(owner, size, blocks, d, c);
      } else {
        BlocksDisjoint(owner, size, blocks, c, d);
      }
    }
  }

  // An address inside a block is not the start of one.
  lemma SplitInside(owner: map<int, int>, size: map<int, int>, blocks: set<int>, b: int, n: int)
    requires Tiled(owner, size, blocks) && b in blocks && b in size && 0 < n < size[b]
    ensures b + n !in blocks && b + n in owner
  {
    assert OwnsUnits(owner, size, b);
    if b + n in blocks {
      BlocksDisjoint(owner, size, blocks, b, b + n);
    }
  }

  // The other blocks do not notice.
  lemma SplitKeeps(owner: map<int, int>, size: map<int, int>, blocks: set<int>, b: int, n: int, d: int)
    requires Tiled(owner, size, blocks) && b in blocks && b in size && 0 < n < size[b] && d in blocks && d != b
    ensures OwnsUnits(Reassign(owner, b + n, size[b] - n, b + n), size[b := n][b + n := size[b] - n], d)
  {
    SplitInside(owner, size, blocks, b, n);
    assert OwnsUnits(owner, size, d);
    if d < b {
      BlocksDisjoint(owner, size, blocks, d, b);
    } else {
      BlocksDisjoint(owner, size, blocks, b, d);
    }
  }

  lemma SplitUnits(owner: map<int, int>, size: map<int, int>, blocks: set<int>, b: int, n: int)
    requires UnitsOwned(owner, size, blocks) && b in blocks && b in size && 0 < n < size[b]
    requires OwnsUnits(owner, size, b) && b + n !in blocks
    ensures UnitsOwned(Reassign(owner, b + n, size[b] - n, b + n), size[b := n][b + n := size[b] - n], blocks + {b + n})
  {
  }

  /** Cutting a block: the first n units stay, the rest becomes a block of its own. */
  lemma TileSplit(owner: map<int, int>, size: map<int, int>, blocks: set<int>, b: int, n: int)
    requires Tiled(owner, size, blocks) && b in blocks && b in size && 0 < n < size[b]
    ensures b + n !in blocks
    ensures Tiled(Reassign(owner, b + n, size[b] - n, b + n), size[b := n][b + n := size[b] - n], blocks + {b + n})
  {
    var c := b + n;
    var owner', size' := Reassign(owner, c, size[b] - n, c), size[b := n][c := size[b] - n];
    SplitInside(owner, size, blocks, b, n);
    assert OwnsUnits(owner, size, b);
    SplitUnits(owner, size, blocks, b, n);
    forall d | d in blocks + {c} ensures OwnsUnits(owner', size', d) {
      if d != b && d != c {
        SplitKeeps(owner, size, blocks, b, n, d);
      }
    }
  }

  // owner with the n units from b given to block b.
  ghost function AddUnits(owner: map<int, int>, b: int, n: nat): map<int, int> {
    if n == 0 then owner else AddUnits(owner, b, n - 1)[b + n - 1 := b]
  }

  lemma {:induction false} AddUnitsAt(owner: map<int, int>, b: int, n: nat, x: int)
    ensures var r := AddUnits(owner, b, n);
            if b <= x < b + n then x in r && r[x] == b
            else (x in r <==> x in owner) && (x in owner ==> r[x] == owner[x])
  {
    if n > 0 {
      AddUnitsAt(owner, b, n - 1, x);
    }
  }

  lemma AddKeepsUnits(owner: map<int, int>, size: map<int, int>, blocks: set<int>, b: int, n: nat)
    requires UnitsOwned(owner, size, blocks) && n > 0 && b !in blocks
    ensures UnitsOwned(AddUnits(owner, b, n), size[b := n], blocks + {b})
  {
    var owner', size' := AddUnits(owner, b, n), size[b := n];
    forall x | x in owner'
      ensures owner'[x] in blocks + {b} && owner'[x] in size' && owner'[x] <= x < owner'[x] + size'[owner'[x]] {
      AddUnitsAt(owner, b, n, x);
    }
  }

  /** New memory is a block of its own. */
  lemma TileAdd(owner: map<int, int>, size: map<int, int>, blocks: set<int>, b: int, n: nat)
    requires Tiled(owner, size, blocks) && n > 0 && forall x :: b <= x < b + n ==> x !in owner
    ensures b !in blocks && Tiled(AddUnits(owner, b, n), size[b := n], blocks + {b})
  {
    var owner', size' := AddUnits(owner, b, n), size[b := n];
    assert b !in owner && (b in blocks ==> OwnsUnits(owner, size, b));
    AddKeepsUnits(owner, size, blocks, b, n);
    forall d | d in blocks + {b} ensures OwnsUnits(owner', size', d) {
      assert d != b ==> OwnsUnits(owner, size, d);
      forall x | d <= x < d + size'[d] ensures x in owner' && owner'[x] == d {
        assert d != b ==> x in owner && owner[x] == d;
        AddUnitsAt(owner, b, n, x);
      }
    }
  }

  // ---- The allocator ----

  class Allocator {
    const base: int
    var ptr: map<int, int>          // s.ptr of the header at each address
    var size: map<int, int>         // s.size
    var freep: int                  // 0 before the first malloc
    ghost var list: seq<int>        // the free list, from base up
    ghost var used: set<int>        // the blocks handed out
    ghost var owner: map<int, int>  // the units obtained from sbrk, and the blocks they lie in

    ghost function Blocks(): set<int>
      requires |list| > 0
      reads this
    {
      Members(list[1..]) + used
    }

    /** The free list is a circle in address order with one wrap, through base; no two free blocks touch; free and
        used blocks are distinct and tile the heap. */
    ghost predicate Valid()
      reads this
    {
      && base > 0 && |list| > 0 && list[0] == base && Sorted(list) && Ring(ptr, list) && freep in list
      && base in size && size[base] == 0 && Apart(list, size) && base !in used && (forall b :: b in used ==> b !in list)
      && Tiled(owner, size, Blocks()) && forall x :: x in owner ==> base < x
    }

    constructor (base: int)
      requires base > 0
      ensures this.base == base && Ready() && owner == map[]
    {
      this.base, ptr, size, freep := base, map[], map[], 0;
      list, used, owner := [], {}, map[];
    }

    // Between calls: valid, or as the program starts.
    ghost predicate Ready()
      reads this
    {
      Valid() || (base > 0 && freep == 0 && list == [] && used == {} && owner == map[])
    }

    // ---- free ----

    /** The scan of free: from freep around the circle to the place of bp, in at most one lap. */
    method FindPlace(bp: int) returns (p: int, ghost k: nat, ghost moves: nat)
      requires Valid() && base < bp && bp !in list
      ensures k < |list| && p == list[k] && p < bp && (k + 1 < |list| ==> bp < list[k + 1])
      ensures moves < |list|
    {
      p := freep;
      k := Place(bp);
      ghost var i :| 0 <= i < |list| && list[i] == freep;
      ghost var start := i;
      moves := 0;
      assert LinkOk(ptr, list, i);
      while !(bp > p && bp < ptr[p])
        invariant i < |list| && p == list[i] && p in ptr
        invariant moves + Distance(i, k, |list|) == Distance(start, k, |list|)
        decreases Distance(i, k, |list|)
      {
        assert LinkOk(ptr, list, i) && Before(list, i + 1, k) && Before(list, k + 1, i) && Before(list, 0, i);
        if p >= ptr[p] && (bp > p || bp < ptr[p]) {
          break;
        }
        p, moves := ptr[p], moves + 1;
        i := if i + 1 < |list| then i + 1 else 0;
        assert LinkOk(ptr, list, i);
      }
      assert LinkOk(ptr, list, i) && Before(list, i + 1, k) && Before(list, k + 1, i) && Before(list, 0, i) &&
             Before(list, i, i + 1);
      k := i;
    }

    // Between the two halves of free: bp is still a used block, its link is set, and the link of its predecessor is
    // about to be.
    ghost predicate Halfway(bp: int, k: nat)
      reads this
    {
      && base > 0 && 0 < |list| && k < |list| && list[0] == base && Sorted(list) && list[k] < bp && list[k] in size
      && bp in ptr && bp in size
      && Ring(ptr[list[k] := ptr[bp]], list) && ptr[bp] == Succ(list, k)
      && (k + 1 < |list| ==> bp + size[bp] < list[k + 1])
      && base in size && size[base] == 0 && Apart(list, size) && base !in used && bp in used
      && (forall b :: b in used ==> b !in list)
      && Tiled(owner, size, Blocks()) && forall x :: x in owner ==> base < x
    }

    // Some free block contains the n units from b.
    ghost predicate Covers(k: nat, b: int, n: int)
      reads this
    {
      0 < k < |list| && list[k] in size && list[k] <= b && b + n <= list[k] + size[list[k]]
    }

    // The first half of free: join bp with the free block right after it, if any.
    method FreeUpper(bp: int, p: int, ghost k: nat)
      requires Valid() && bp in used && bp in size && k < |list| && p == list[k] && p < bp
      requires (k + 1 < |list| ==> bp < list[k + 1])
      modifies this`ptr, this`size, this`list, this`owner
      ensures Halfway(bp, k) && list[k] == p && owner.Keys == old(owner.Keys) && size[bp] >= old(size)[bp]
      ensures |list| <= |old(list)|
      ensures forall b :: b in used && b != bp && b in old(size) ==> b in size && size[b] == old(size)[b]
    {
      assert LinkOk(ptr, list, k) && OwnsUnits(owner, size, bp) && owner[bp] == bp;
      assert k > 0 ==> list[1..][k - 1] == p && OwnsUnits(owner, size, p);
      var next := ptr[p];
      if k + 1 < |list| {
        assert list[1..][k] == next;
        BlocksDisjoint(owner, size, Blocks(), bp, next);
      }
      if bp + size[bp] == next {
        JoinUpper(bp, p, next, k);
      } else {
        ptr := ptr[bp := next];
        RingFrame(old(ptr), ptr[p := ptr[bp]], list);
      }
    }

    method JoinUpper(bp: int, p: int, next: int, ghost k: nat)
      requires Valid() && bp in used && k + 1 < |list| && p == list[k] && p < bp && next == list[k + 1] && bp in size
      requires p in size && bp + size[bp] == next
      modifies this`ptr, this`size, this`list, this`owner
      ensures Halfway(bp, k) && list[k] == p && owner.Keys == old(owner.Keys) && size[bp] >= old(size)[bp]
      ensures |list| <= |old(list)|
      ensures forall b :: b in used && b != bp && b in old(size) ==> b in size && size[b] == old(size)[b]
    {
      ghost var blocks := Blocks();
      assert list[1..][k] == next && LinkOk(ptr, list, k + 1) && OwnsUnits(owner, size, next) &&
             OwnsUnits(owner, size, bp);
      ListJoinUpper(list, ptr, size, k, bp);
      MembersRemove(list, k);
      TileJoin(owner, size, blocks, bp, next);
      owner := Reassign(owner, next, size[next], bp);
      list := Remove(list, k);
      size := size[bp := size[bp] + size[next]];
      ptr := ptr[bp := ptr[next]];
      assert Blocks() == blocks - {next};
      forall b | b in used ensures b !in list {
        if b in list {
          RemoveKeeps(old(list), k, b);
        }
      }
    }

    // The second half: join it with the free block right before it, or link it in.
    method FreeLower(bp: int, p: int, ghost k: nat) returns (ghost at: nat)
      requires Halfway(bp, k) && p == list[k]
      modifies this`ptr, this`size, this`list, this`owner, this`used, this`freep
      ensures Valid() && used == old(used) - {bp} && owner.Keys == old(owner.Keys) && Covers(at, bp, old(size)[bp])
      ensures |list| <= |old(list)| + 1
      ensures forall b :: b in used && b in old(size) ==> b in size && size[b] == old(size)[b]
    {
      if p + size[p] == bp {
        JoinLower(bp, p, k);
        at := k;
      } else {
        LinkLower(bp, p, k);
        at := k + 1;
      }
    }

    method JoinLower(bp: int, p: int, ghost k: nat)
      requires Halfway(bp, k) && p == list[k] && p + size[p] == bp
      modifies this`ptr, this`size, this`owner, this`used, this`freep
      ensures Valid() && used == old(used) - {bp} && owner.Keys == old(owner.Keys) && Covers(k, bp, old(size)[bp])
      ensures forall b :: b in used && b in old(size) ==> b in size && size[b] == old(size)[b]
    {
      ghost var blocks := Blocks();
      assert OwnsUnits(owner, size, bp) && k > 0 && list[1..][k - 1] == p && OwnsUnits(owner, size, p);
      TileJoin(owner, size, blocks, p, bp);
      owner := Reassign(owner, bp, size[bp], p);
      ptr := ptr[p := ptr[bp]];
      size := size[p := size[p] + size[bp]];
      used := used - {bp};
      freep := p;
      assert Blocks() == blocks - {bp};
      ApartGrow(list, old(size), k, size[p]);
    }

    method LinkLower(bp: int, p: int, ghost k: nat)
      requires Halfway(bp, k) && p == list[k] && p + size[p] != bp
      modifies this`ptr, this`list, this`used, this`freep
      ensures Valid() && used == old(used) - {bp} && Covers(k + 1, bp, size[bp]) && |list| == |old(list)| + 1
    {
      ghost var blocks, ptr0 := Blocks(), ptr[p := ptr[bp]];
      assert OwnsUnits(owner, size, bp) && owner[bp] == bp;
      if k > 0 {
        assert list[1..][k - 1] == p;
        BlocksDisjoint(owner, size, blocks, p, bp);
      }
      MembersInsert(list, k, bp);
      RingInsert(ptr0, list, k, bp);
      SortedInsert(list, size, k, bp);
      list := Insert(list, k, bp);
      ptr := ptr[p := bp];
      used := used - {bp};
      freep := p;
      assert ptr0[bp := ptr0[bp]][p := bp] == ptr;
      assert Blocks() == blocks;
    }

    /** Gives a block back. Every other block in use keeps its place and size, and no unit is lost. */
    method Free(ap: int) returns (ghost at: nat)
      requires Valid() && ap - 1 in used && ap - 1 in size
      modifies this`ptr, this`size, this`list, this`owner, this`used, this`freep
      ensures Valid() && used == old(used) - {ap - 1} && owner.Keys == old(owner.Keys)
      ensures Covers(at, ap - 1, old(size)[ap - 1]) && |list| <= |old(list)| + 1
      ensures forall b :: b in used && b in old(size) ==> b in size && size[b] == old(size)[b]
    {
      var bp := ap - 1;
      assert OwnsUnits(owner, size, bp) && owner[bp] == bp;
      var p, k, moves := FindPlace(bp);
      FreeUpper(bp, p, k);
      at := FreeLower(bp, p, k);
    }

    // ---- malloc ----

    /** Gets at least nu units from sbrk, which returns `core`, negative for an error, and frees them.
        Returns freep, or 0. */
    method Morecore(nu: nat, core: int) returns (r: int, ghost at: nat)
      requires Valid() && nu > 0
      requires core >= 0 ==> base < core && forall x :: core <= x < core + CoreSize(nu) ==> x !in owner
      modifies this`ptr, this`size, this`list, this`owner, this`used, this`freep
      ensures Valid() && used == old(used) && r == (if core < 0 then 0 else freep) && |list| <= |old(list)| + 1
      ensures core < 0 ==>
              owner == old(owner) && list == old(list) && size == old(size) && ptr == old(ptr) && freep == old(freep)
      ensures core >= 0 ==>
              owner.Keys == AddUnits(old(owner), core, CoreSize(nu)).Keys && Covers(at, core, CoreSize(nu))
      ensures forall b :: b in used && b in old(size) ==> b in size && size[b] == old(size)[b]
    {
      if core < 0 {
        return 0, 0;
      }
      var n := CoreSize(nu);
      ghost var blocks := Blocks();
      TileAdd(owner, size, blocks, core, n);
      forall b | b in list ensures b != core {
        ListInHeap(b);
      }
      owner := AddUnits(owner, core, n);
      size := size[core := n];
      used := used + {core};
      assert Blocks() == blocks + {core};
      ApartFrame(list, old(size), size);
      forall x | x in owner ensures base < x {
        AddUnitsAt(old(owner), core, n, x);
      }
      at := Free(core + 1);
      r := freep;
      assert used == old(used);
    }

    // Every free block but base starts with a unit of the heap.
    lemma ListInHeap(b: int)
      requires Valid() && b in list
      ensures b == base || b in owner
    {
      if b != base {
        var i :| 0 <= i < |list| && list[i] == b;
        assert list[1..][i - 1] == b;
        assert OwnsUnits(owner, size, b);
      }
    }

    // A whole free block goes out.
    method TakeAll(prevp: int, p: int, ghost j: nat)
      requires Valid() && j + 1 < |list| && prevp == list[j] && p == list[j + 1]
      modifies this`ptr, this`list, this`used, this`freep
      ensures Valid() && used == old(used) + {p} && p !in old(used)
    {
      ghost var blocks := Blocks();
      assert LinkOk(ptr, list, j) && LinkOk(ptr, list, j + 1) && list[1..][j] == p;
      MembersRemove(list, j);
      RingRemove(ptr, list, j);
      SortedRemove(list, size, j);
      RemovedGone(list, j);
      forall b | b in used ensures b !in Remove(list, j) {
        if b in Remove(list, j) {
          RemoveKeeps(list, j, b);
        }
      }
      list := Remove(list, j);
      ptr := ptr[prevp := ptr[p]];
      used := used + {p};
      freep := prevp;
      assert Blocks() == blocks && list[j] == prevp;
    }

    // The upper end of a free block goes out.
    method TakeTail(prevp: int, p: int, nunits: nat, ghost i: nat) returns (q: int)
      requires Valid() && 0 < i < |list| && p == list[i] && p in size && 0 < nunits < size[p] && prevp in list
      modifies this`size, this`used, this`owner, this`freep
      ensures Valid() && used == old(used) + {q} && q !in old(used) && q in size && size[q] == nunits
      ensures owner.Keys == old(owner.Keys)
      ensures forall b :: b in old(used) && b in old(size) ==> b in size && size[b] == old(size)[b]
    {
      ghost var blocks, n := Blocks(), size[p] - nunits;
      assert list[1..][i - 1] == p;
      TailIsNew(p, n, i);
      TileSplit(owner, size, blocks, p, n);
      ListSplit(list, size, i, n, nunits);
      owner := Reassign(owner, p + n, nunits, p + n);
      size := size[p := size[p] - nunits];
      q := p + size[p];
      size := size[q := nunits];
      used := used + {q};
      freep := prevp;
      assert Blocks() == blocks + {q};
    }

    // The cut-off part of a free block starts where no block does.
    lemma TailIsNew(p: int, n: nat, i: nat)
      requires Valid() && 0 < i < |list| && p == list[i] && p in size && 0 < n < size[p]
      ensures p + n !in list && p + n !in used && base < p + n
    {
      assert list[1..][i - 1] == p;
      SplitInside(owner, size, Blocks(), p, n);
      if p + n in list {
        MemberOfList(p + n);
      }
    }

    lemma MemberOfList(b: int)
      requires |list| > 0 && b in list
      ensures b == list[0] || b in Members(list[1..])
    {
      if b != list[0] {
        var i :| 0 <= i < |list| && list[i] == b;
        assert list[1..][i - 1] == b;
      }
    }

    // The first call makes base a list of its own.
    method Start()
      requires Ready() && freep == 0
      modifies this`ptr, this`size, this`list, this`freep
      ensures Valid() && list == [base] && used == {} && owner == map[]
    {
      if Valid() {
        FreepAboveBase();
      }
      ptr := ptr[base := base];
      size := size[base := 0];
      freep := base;
      list := [base];
      assert LinkOk(ptr, list, 0);
      forall i ensures LinkOk(ptr, list, i) && GapOk(list, size, i) {
      }
      forall i, j ensures Before(list, i, j) {
      }
    }

    // Takes nunits from free block p, the one after prevp.
    method Take(prevp: int, p: int, nunits: nat, ghost j: nat) returns (q: int)
      requires Valid() && nunits > 0 && j < |list| && prevp == list[j] && p == Succ(list, j) && p in size
      requires size[p] >= nunits
      modifies this`ptr, this`size, this`list, this`used, this`owner, this`freep
      ensures Valid() && used == old(used) + {q} && q !in old(used) && q in size && size[q] == nunits && q > base
      ensures owner.Keys == old(owner.Keys)
      ensures forall b :: b in old(used) && b in old(size) ==> b in size && size[b] == old(size)[b]
    {
      if size[p] == nunits {
        TakeAll(prevp, p, j);
        q := p;
      } else {
        q := TakeTail(prevp, p, nunits, j + 1);
      }
      assert OwnsUnits(owner, size, q) && q in owner;
    }

    // Free block i has fewer than n units.
    ghost predicate TooSmall(n: nat, i: nat)
      reads this
    {
      i < |list| ==> list[i] in size && size[list[i]] < n
    }

    // No free block has n units.
    ghost predicate NoneFits(n: nat)
      reads this
    {
      forall i: nat {:trigger TooSmall(n, i)} :: TooSmall(n, i)
    }

    // None of those that a scan from after f to j has seen.
    ghost predicate AllSmall(n: nat, f: nat, j: nat)
      reads this
    {
      forall i: nat {:trigger TooSmall(n, i)} :: Seen(i, f, j, |list|) ==> TooSmall(n, i)
    }

    lemma SeenStep(n: nat, f: nat, j: nat)
      requires f < |list| && j < |list| && AllSmall(n, f, j) && TooSmall(n, After(j, |list|)) && After(j, |list|) != f
      ensures AllSmall(n, f, After(j, |list|))
    {
      forall i: nat | Seen(i, f, After(j, |list|), |list|) ensures TooSmall(n, i) {
        assert TooSmall(n, if Seen(i, f, j, |list|) then i else After(j, |list|));
      }
    }

    lemma SeenAll(n: nat, f: nat, j: nat)
      requires f < |list| && j < |list| && AllSmall(n, f, j) && TooSmall(n, f) && After(j, |list|) == f
      ensures NoneFits(n)
    {
      forall i: nat ensures TooSmall(n, i) {
        assert i < |list| && i != f ==> Seen(i, f, j, |list|);
      }
    }

    // The n units at core are new.
    ghost predicate NewCore(core: int, n: nat)
      reads this
    {
      core >= 0 ==> base < core && forall x :: core <= x < core + n ==> x !in owner
    }

    /** Returns the address behind the header of a new block of the right size, or 0 if no free block is large enough
        and sbrk, which would return `core`, fails. It looks at `before` free blocks before the call of morecore, and at
        `after` free blocks after it: at most one lap each. */
    method Malloc(nbytes: nat, core: int) returns (ap: int, ghost before: nat, ghost after: nat)
      requires Ready() && NewCore(core, CoreSize(Units(nbytes)))
      modifies this`ptr, this`size, this`list, this`used, this`owner, this`freep
      ensures Valid()
      ensures ap == 0 ==> core < 0 && used == old(used) && owner == old(owner) && NoneFits(Units(nbytes))
      ensures ap != 0 ==>
              var q := ap - 1;
              used == old(used) + {q} && q !in old(used) && q in size && size[q] == Units(nbytes)
      ensures owner.Keys == if after == 0 then old(owner.Keys)
                            else AddUnits(old(owner), core, CoreSize(Units(nbytes))).Keys
      ensures before <= Lap(old(list)) && after <= Lap(old(list)) + 1
      ensures forall b :: b in old(used) && b in old(size) ==> b in size && size[b] == old(size)[b]
    {
      var nunits := Units(nbytes);
      if freep == 0 {
        Start();
      }
      ghost var f: nat := IndexOf(list, freep);
      assert LinkOk(ptr, list, f);
      var prevp := freep;
      var p := ptr[prevp];
      ghost var j: nat, goal: nat, grown: bool := f, f, false;
      before, after := 0, 0;
      assert AllSmall(nunits, f, f);
      LapStart(f, f, |list|);
      while true
        invariant Valid() && Lapping(j, f, goal, |list|) && prevp == list[j] && p == Succ(list, j) && freep == list[f]
        invariant used == old(used) && (!grown ==> owner == old(owner) && goal == f)
        invariant grown ==> owner.Keys == AddUnits(old(owner), core, CoreSize(nunits)).Keys && !TooSmall(nunits, goal)
        invariant !grown ==> AllSmall(nunits, f, j)
        invariant |list| <= Lap(old(list)) + (if grown then 1 else 0) && before <= Lap(old(list))
        invariant (if grown then after else before) == Distance(f, j, |list|) && (!grown ==> after == 0)
        invariant forall b :: b in used && b in old(size) ==> b in size && size[b] == old(size)[b]
        decreases !grown, Distance(After(j, |list|), goal, |list|)
      {
        SizeOf(After(j, |list|));
        assert LinkOk(ptr, list, After(j, |list|));
        if grown {
          after := after + 1;
        } else {
          before := before + 1;
        }
        if size[p] >= nunits {
          var q := Take(prevp, p, nunits, j);
          return q + 1, before, after;
        }
        assert TooSmall(nunits, After(j, |list|));
        if p == freep {
          Distinct(list, After(j, |list|), f);
          assert !grown;
          SeenAll(nunits, f, j);
          p, goal, f := Grow(nunits, core);
          if p == 0 {
            return 0, before, 0;
          }
          LapStart(f, goal, |list|);
          grown, j := true, f;
        } else {
          if !grown {
            SeenStep(nunits, f, j);
          }
          LapStep(j, f, goal, |list|);
          j := After(j, |list|);
        }
        prevp := p;
        p := ptr[p];
      }
    }

    // morecore, and where its memory and freep are afterwards.
    method Grow(nunits: nat, core: int) returns (p: int, ghost goal: nat, ghost f: nat)
      requires Valid() && NewCore(core, CoreSize(nunits)) && nunits > 0
      modifies this`ptr, this`size, this`list, this`owner, this`used, this`freep
      ensures Valid() && used == old(used) && |list| <= |old(list)| + 1 && (p == 0 <==> core < 0)
      ensures p == 0 ==>
              owner == old(owner) && list == old(list) && size == old(size) && ptr == old(ptr) && freep == old(freep)
      ensures p != 0 ==> goal < |list| && f < |list| && p == freep == list[f] && LinkOk(ptr, list, f)
      ensures p != 0 ==> owner.Keys == AddUnits(old(owner), core, CoreSize(nunits)).Keys && !TooSmall(nunits, goal)
      ensures forall b :: b in used && b in old(size) ==> b in size && size[b] == old(size)[b]
    {
      p, goal := Morecore(nunits, core);
      FreepAboveBase();
      f := IndexOf(list, freep);
      assert LinkOk(ptr, list, f);
    }

    lemma FreepAboveBase()
      requires Valid()
      ensures freep >= base > 0
    {
      assert Before(list, 0, IndexOf(list, freep));
    }

    lemma SizeOf(i: nat)
      requires Valid() && i < |list|
      ensures list[i] in size
    {
      if i > 0 {
        assert list[1..][i - 1] == list[i];
        assert OwnsUnits(owner, size, list[i]);
      }
    }

    // The list element after which address b belongs.
    ghost function Place(b: int): (k: nat)
      requires Valid() && base < b
      reads this
      ensures k < |list| && list[k] < b && (k + 1 < |list| ==> b <= list[k + 1])
    {
      PlaceIn(list, b, |list|)
    }
  }

  lemma SortedRemove(list: seq<int>, size: map<int, int>, k: nat)
    requires Sorted(list) && Apart(list, size) && k + 1 < |list|
    ensures Sorted(Remove(list, k)) && Apart(Remove(list, k), size)
  {
    var list' := Remove(list, k);
    forall i, j ensures Before(list', i, j) {
      assert Before(list, if i <= k then i else i + 1, if j <= k then j else j + 1);
    }
    assert Before(list, k + 1, k + 2);
    forall i ensures GapOk(list', size, i) {
      assert GapOk(list, size, if i <= k then i else i + 1);
    }
  }

  lemma SortedInsert(list: seq<int>, size: map<int, int>, k: nat, b: int)
    requires Sorted(list) && Apart(list, size) && k < |list| && list[k] < b && b in size
    requires k + 1 < |list| ==> b < list[k + 1] && b + size[b] < list[k + 1]
    requires k > 0 ==> list[k] in size && list[k] + size[list[k]] < b
    ensures Sorted(Insert(list, k, b)) && Apart(Insert(list, k, b), size)
  {
    var list' := Insert(list, k, b);
    forall i, j ensures Before(list', i, j) {
      assert Before(list, if i <= k then i else i - 1, if j <= k then j else j - 1) && Before(list, i, k) &&
             Before(list, k + 1, j - 1);
    }
    forall i ensures GapOk(list', size, i) {
      assert GapOk(list, size, if i < k then i else i - 1);
    }
  }

  // The list when block b, between positions k and k + 1, swallows the block at k + 1.
  lemma ListJoinUpper(list: seq<int>, ptr: map<int, int>, size: map<int, int>, k: nat, b: int)
    requires Sorted(list) && Ring(ptr, list) && Apart(list, size) && k + 1 < |list| && list[k] < b < list[k + 1]
    requires b in size
    requires list[k + 1] in size && b + size[b] == list[k + 1] && list[k + 1] in ptr
    ensures var list', size', ptr' := Remove(list, k), size[b := size[b] + size[list[k + 1]]],
            ptr[b := ptr[list[k + 1]]];
            && Sorted(list') && Apart(list', size') && Ring(ptr'[list[k] := ptr'[b]], list')
            && ptr'[b] == Succ(list', k)
            && (k + 1 < |list'| ==> b + size'[b] < list'[k + 1]) && b !in list' && list'[k] == list[k]
            && list'[0] == list[0]
  {
    var list', size', ptr' := Remove(list, k), size[b := size[b] + size[list[k + 1]]], ptr[b := ptr[list[k + 1]]];
    assert LinkOk(ptr, list, k + 1) && GapOk(list, size, k + 1);
    NotInList(list, k, b);
    assert b in list' ==> b in list;
    SortedRemove(list, size, k);
    RingRemove(ptr, list, k);
    ApartFrame(list', size, size');
    RingFrame(ptr[list[k] := ptr'[b]], ptr'[list[k] := ptr'[b]], list');
  }

  lemma NotInList(list: seq<int>, k: nat, b: int)
    requires Sorted(list) && k < |list| && list[k] < b && (k + 1 < |list| ==> b < list[k + 1])
    ensures b !in list
  {
    forall i | 0 <= i < |list| ensures list[i] != b {
      assert Before(list, i, k) && Before(list, k + 1, i);
    }
  }

  lemma RemoveKeeps(list: seq<int>, k: nat, b: int)
    requires k + 1 < |list| && b in Remove(list, k)
    ensures b in list
  {
  }

  // A block of the list grows, but not up to the next one.
  lemma ApartGrow(list: seq<int>, size: map<int, int>, k: nat, n: int)
    requires Sorted(list) && Apart(list, size) && k < |list| && (k + 1 < |list| ==> list[k] + n < list[k + 1])
    ensures Apart(list, size[list[k] := n])
  {
    var size' := size[list[k] := n];
    forall i ensures GapOk(list, size', i) {
      assert GapOk(list, size, i) && Before(list, i, k) && Before(list, k, i);
    }
  }

  lemma ListSplit(list: seq<int>, size: map<int, int>, i: nat, n: nat, m: nat)
    requires Sorted(list) && Apart(list, size) && 0 < i < |list| && list[i] in size && size[list[i]] == n + m
    requires list[i] + n !in list
    ensures Apart(list, size[list[i] := n][list[i] + n := m])
  {
    var size1 := size[list[i] := n];
    assert GapOk(list, size, i);
    ApartGrow(list, size, i, n);
    ApartFrame(list, size1, size1[list[i] + n := m]);
  }

  // Sizes of blocks that are not in the list do not matter.
  lemma ApartFrame(list: seq<int>, size: map<int, int>, size': map<int, int>)
    requires Apart(list, size) && forall b :: b in list && b in size ==> b in size' && size'[b] == size[b]
    ensures Apart(list, size')
  {
    forall i ensures GapOk(list, size', i) {
      assert GapOk(list, size, i);
      if 1 <= i < |list| - 1 {
        assert list[i] in list;
      }
    }
  }

  ghost function PlaceIn(list: seq<int>, b: int, n: nat): (k: nat)
    requires 0 < n <= |list| && list[0] < b && (n < |list| ==> b <= list[n])
    ensures k < n && list[k] < b && (k + 1 < |list| ==> b <= list[k + 1])
  {
    if list[n - 1] < b then n - 1 else PlaceIn(list, b, n - 1)
  }

  // The units that malloc asks for: the bytes rounded up, and a header.
  function Units(nbytes: nat): nat { (nbytes + 15) / 16 + 1 }

  ghost function IndexOf(list: seq<int>, b: int): (i: nat)
    requires b in list
    ensures i < |list| && list[i] == b
  {
    var i :| 0 <= i < |list| && list[i] == b;
    i
  }

  // A scan that began after position f and is now after position j has been at position i.
  predicate Seen(i: nat, f: nat, j: nat, n: nat) {
    i < n && f < n && j < n && Distance(After(f, n), i, n) < Distance(After(f, n), After(j, n), n)
  }

  // The position after i.
  function After(i: nat, n: nat): nat
    requires i < n
  {
    if i + 1 < n then i + 1 else 0
  }

  // How many blocks a scan may look at: all of the list, which malloc starts with the static header.
  function Lap(list: seq<int>): nat { if list == [] then 1 else |list| }

  function CoreSize(nu: nat): nat { if nu < 4096 then 4096 else nu }

  // Steps from position i to position k around a circle of n.
  function Distance(i: nat, k: nat, n: nat): nat
    requires i < n && k < n
  {
    if i <= k then k - i else n - i + k
  }

  // A scan at j, which began at f, meets goal before it is back.
  predicate Lapping(j: nat, f: nat, goal: nat, n: nat) {
    j < n && f < n && goal < n && Distance(After(j, n), goal, n) <= Distance(After(j, n), f, n)
  }

  lemma LapStart(f: nat, goal: nat, n: nat)
    requires f < n && goal < n
    ensures Lapping(f, f, goal, n)
  {
  }

  lemma LapStep(j: nat, f: nat, goal: nat, n: nat)
    requires Lapping(j, f, goal, n) && After(j, n) != f && After(j, n) != goal
    ensures Lapping(After(j, n), f, goal, n) && Distance(f, After(j, n), n) == Distance(f, j, n) + 1
    ensures Distance(After(After(j, n), n), goal, n) < Distance(After(j, n), goal, n)
  {
  }
}

/**
 platform/visionfive2/kernel/kalloc.c and vm.c, and the memory side of fork in proc.c: the page allocator, the
 operations on user page tables, and their rollback when memory runs out.

 Addresses are page numbers; sizes are in pages where the code first rounds them up.
 */
module Vm {
  import opened PageTable

  // memset(pa, c, PGSIZE), for c == 1 and c == 5.
  const PGSIZE := 4096
  const JUNK1 := Word(0x0101010101010101 / 1024, NOFLAGS.(v := true, rsw := 1))
  const JUNK5 := Word(0x0505050505050505 / 1024, NOFLAGS.(v := true, w := true, rsw := 1))

  function Fill(w: Word): (p: Page) {
    seq(ENTRIES, (i: nat) => w)
  }

  // A page pointer stored in a word: the address of page p is 4096 * p.
  function Link(p: nat): Word { Word(4 * p, NOFLAGS) }

  // The free list from page `head` on has exactly the given pages, each once: each holds the address of the next one
  // in its first word, the last one holds 0.
  ghost predicate Linked(mem: Memory, head: nat, free: set<nat>)
    decreases |free|
  {
    if head == 0 then free == {}
    else
      && head in free && head < |mem|
      && exists next: nat :: mem[head][0] == Link(next) && Linked(mem, next, free - {head})
  }

  lemma {:induction false} LinkedFrame(mem: Memory, mem': Memory, head: nat, free: set<nat>)
    requires Linked(mem, head, free) && |mem'| == |mem| && forall p :: p in free && p < |mem| ==> mem'[p] == mem[p]
    ensures Linked(mem', head, free)
    decreases |free|
  {
    if head != 0 {
      var next: nat :| mem[head][0] == Link(next) && Linked(mem, next, free - {head});
      LinkedFrame(mem, mem', next, free - {head});
    }
  }

  // Pages moved from the free list into the tree, and nowhere else.
  ghost predicate Took(s: Shape, free: set<nat>, s': Shape, free': set<nat>) {
    s'.root == s.root && s.at.Keys <= s'.at.Keys && s'.at.Keys + free' == s.at.Keys + free
  }

  // Remap, Beyond and BadSize are the panics of mappages: a page mapped already, an address from MAXVA on, no pages.
  datatype MapResult = Done | NoMemory | Remap | Beyond | BadSize

  // The frame of page u when page v goes to frame ppn.
  function FrameOf(ppn: nat, v: nat, u: Vpn): nat {
    if Value(u) < v then 0 else ppn + (Value(u) - v)
  }

  /** m' is m with n pages from v mapped to the frames from ppn on. */
  ghost predicate IsMapped(m: map<Vpn, Word>, m': map<Vpn, Word>, v: nat, n: nat, ppn: nat, perm: Flags) {
    && m'.Keys == m.Keys + Range(v, n)
    && (forall u :: u in m && u !in Range(v, n) ==> m'[u] == m[u])
    && (forall u :: u in Range(v, n) ==> m'[u] == Word(FrameOf(ppn, v, u), LeafFlags(perm)))
  }

  lemma MappedNothing(m: map<Vpn, Word>, v: nat, ppn: nat, perm: Flags)
    ensures IsMapped(m, m, v, 0, ppn, perm)
  {
  }

  lemma MappedMore(m: map<Vpn, Word>, m': map<Vpn, Word>, v: nat, n: nat, ppn: nat, perm: Flags)
    requires IsMapped(m, m', v, n, ppn, perm) && v + n < MAXVPN
    ensures IsMapped(m, m'[Split(v + n) := Word(ppn + n, LeafFlags(perm))], v, n + 1, ppn, perm)
    ensures Split(v + n) in m' ==> Split(v + n) in m
  {
    RangeNext(v, n);
  }

  // m with n pages from v mapped, one after the other.
  ghost function MapAll(m: map<Vpn, Word>, v: nat, n: nat, ppn: nat, perm: Flags): map<Vpn, Word> {
    if n == 0 then m else MapAll(m, v, n - 1, ppn, perm)[Split(v + n - 1) := Word(ppn + n - 1, LeafFlags(perm))]
  }

  lemma {:induction false} AllMapped(m: map<Vpn, Word>, v: nat, n: nat, ppn: nat, perm: Flags)
    requires n == 0 || v + n <= MAXVPN
    ensures IsMapped(m, MapAll(m, v, n, ppn, perm), v, n, ppn, perm)
  {
    if n == 0 {
      MappedNothing(m, v, ppn, perm);
    } else {
      var k := n - 1;
      AllMapped(m, v, k, ppn, perm);
      MappedMore(m, MapAll(m, v, k, ppn, perm), v, k, ppn, perm);
      assert MapAll(m, v, n, ppn, perm) == MapAll(m, v, k, ppn, perm)[Split(v + k) := Word(ppn + k, LeafFlags(perm))];
    }
  }

  // Mapping the pages before it does not change whether page n from v is mapped.
  lemma NextMapped(m: map<Vpn, Word>, v: nat, n: nat, ppn: nat, perm: Flags)
    requires v + n < MAXVPN
    ensures Split(v + n) in MapAll(m, v, n, ppn, perm) <==> Split(v + n) in m
  {
    AllMapped(m, v, n, ppn, perm);
    MappedMore(m, MapAll(m, v, n, ppn, perm), v, n, ppn, perm);
  }

  // What the result of mappages means, after k of n pages from v, none of which was mapped.
  ghost predicate Means(r: MapResult, m: map<Vpn, Word>, v: nat, n: nat, k: nat) {
    && k <= n && (k == 0 || v + k <= MAXVPN) && m.Keys !! Range(v, k)
    && match r
       case Done => k == n
       case NoMemory => k < n
       case Remap => k < n && v + k < MAXVPN && Split(v + k) in m
       case Beyond => k < n && v + k >= MAXVPN
       case BadSize => n == 0
  }

  lemma MeansNext(r: MapResult, m: map<Vpn, Word>, v: nat, n: nat, k: nat)
    requires Means(Done, m, v, k, k) && k < n && !r.BadSize? && (r.Beyond? <==> v + k >= MAXVPN)
    requires (r.Remap? ==> Split(v + k) in m) && (r.Done? ==> Split(v + k) !in m)
    ensures if r.Done? then Means(Done, m, v, k + 1, k + 1) else Means(r, m, v, n, k)
  {
    if r.Done? {
      RangeNext(v, k);
    }
  }

  // The frames of the pages in r.
  ghost function Frames(m: map<Vpn, Word>, r: set<Vpn>): set<nat> {
    set u | u in m && u in r :: m[u].ppn
  }

  // No two pages of r share a frame.
  ghost predicate Separate(m: map<Vpn, Word>, r: set<Vpn>) {
    forall u, w :: u in m && w in m && u in r && w in r && m[u].ppn == m[w].ppn ==> u == w
  }

  lemma FramesMore(m: map<Vpn, Word>, r: set<Vpn>, a: Vpn)
    ensures Frames(m, r + {a}) == Frames(m, r) + if a in m then {m[a].ppn} else {}
    ensures m - (r + {a}) == m - r - {a}
  {
    forall p | p in Frames(m, r) ensures p in Frames(m, r + {a}) {
      var u :| u in m && u in r && m[u].ppn == p;
      assert u in r + {a};
    }
    if a in m {
      assert a in r + {a};
    }
  }

  // The frame of a page outside r is not among those of the pages in r.
  lemma NextFrame(m: map<Vpn, Word>, r: set<Vpn>, all: set<Vpn>, a: Vpn)
    requires Separate(m, all) && r <= all && a in all && a in m && a !in r
    ensures m[a].ppn in Frames(m, all) && m[a].ppn !in Frames(m, r)
  {
    assert forall u :: u in m && u in r ==> m[u].ppn != m[a].ppn;
  }

  predicate SamePage(mem: Memory, mem': Memory, p: nat) {
    p < |mem| && p < |mem'| ==> mem'[p] == mem[p]
  }

  // Only the given pages differ.
  ghost predicate SameOutside(mem: Memory, mem': Memory, inside: set<nat>) {
    |mem'| == |mem| && forall p: nat {:trigger SamePage(mem, mem', p)} :: p !in inside ==> SamePage(mem, mem', p)
  }

  lemma SameOutsideTrans(mem: Memory, mem1: Memory, mem2: Memory, inside1: set<nat>, inside2: set<nat>,
                         inside: set<nat>)
    requires SameOutside(mem, mem1, inside1) && SameOutside(mem1, mem2, inside2) && inside1 <= inside
    requires inside2 <= inside
    ensures SameOutside(mem, mem2, inside)
  {
    forall p: nat | p !in inside ensures SamePage(mem, mem2, p) {
      assert SamePage(mem, mem1, p) && SamePage(mem1, mem2, p);
    }
  }

  lemma SameOutsideMore(mem: Memory, mem': Memory, inside: set<nat>, inside': set<nat>)
    requires SameOutside(mem, mem', inside) && inside <= inside'
    ensures SameOutside(mem, mem', inside')
  {
  }

  // A tree is not disturbed by changes to pages that are not its own.
  lemma TreeOutside(mem: Memory, mem': Memory, inside: set<nat>, s: Shape, m: map<Vpn, Word>)
    requires Refines(mem, s, m) && SameOutside(mem, mem', inside) && s.at.Keys !! inside
    ensures Refines(mem', s, m)
  {
    forall p | p in s.at ensures mem'[p] == mem[p] {
      assert SamePage(mem, mem', p);
    }
    TreeFrame(mem, mem', s, m);
  }

  // ---- Growing a table by fresh frames, for uvmalloc and uvmcopy ----

  // The frames that m' has and m has not.
  ghost function NewFrames(m: map<Vpn, Word>, m': map<Vpn, Word>): set<nat> {
    Frames(m', m'.Keys - m.Keys)
  }

  // Where page p went: tables stay tables, what is free was free, a new frame was free and is neither now, and no page
  // is lost.
  ghost predicate Accounted(s: Shape, m: map<Vpn, Word>, free: set<nat>, s': Shape, m': map<Vpn, Word>,
                            free': set<nat>, p: nat) {
    && (p in s.at ==> p in s'.at) && (p in free' ==> p in free)
    && (p in NewFrames(m, m') ==> p in free && p !in s'.at && p !in free')
    && (p in s.at || p in free <==> p in s'.at || p in free' || p in NewFrames(m, m'))
  }

  // Virtual page u: mapped as before, or new and in r.
  ghost predicate PageKept(m: map<Vpn, Word>, m': map<Vpn, Word>, r: set<Vpn>, u: Vpn) {
    if u in m then u in m' && m'[u] == m[u] else u in m' ==> u in r
  }

  // No two new pages share a frame.
  ghost predicate Apart(m: map<Vpn, Word>, m': map<Vpn, Word>, u: Vpn, w: Vpn) {
    u in m' && w in m' && u !in m && w !in m && m'[u].ppn == m'[w].ppn ==> u == w
  }

  /** From tree s, map m and free pages `free`, the tree, the map and the free pages became s', m' and free': some
      pages of r are mapped to frames of their own, taken from the free pages, and no page is lost. */
  ghost predicate Grown(s: Shape, m: map<Vpn, Word>, free: set<nat>, s': Shape, m': map<Vpn, Word>, free': set<nat>,
                        r: set<Vpn>) {
    && s'.root == s.root
    && (forall p: nat {:trigger Accounted(s, m, free, s', m', free', p)} :: Accounted(s, m, free, s', m', free', p))
    && (forall u {:trigger PageKept(m, m', r, u)} :: PageKept(m, m', r, u))
    && (forall u, w {:trigger Apart(m, m', u, w)} :: Apart(m, m', u, w))
  }

  // The same, in terms of sets.

  ghost predicate Conserved(s: Shape, m: map<Vpn, Word>, free: set<nat>, s': Shape, m': map<Vpn, Word>,
                            free': set<nat>) {
    && s'.root == s.root && s.at.Keys <= s'.at.Keys && free' <= free
    && NewFrames(m, m') <= free && NewFrames(m, m') !! s'.at.Keys && NewFrames(m, m') !! free'
    && s'.at.Keys + free' + NewFrames(m, m') == s.at.Keys + free
  }

  ghost predicate Extends(m: map<Vpn, Word>, m': map<Vpn, Word>, r: set<Vpn>) {
    && m.Keys <= m'.Keys <= m.Keys + r && (forall u :: u in m ==> m'[u] == m[u])
    && Separate(m', m'.Keys - m.Keys)
  }

  lemma GrownSets(s: Shape, m: map<Vpn, Word>, free: set<nat>, s': Shape, m': map<Vpn, Word>, free': set<nat>,
                  r: set<Vpn>)
    requires Grown(s, m, free, s', m', free', r)
    ensures Conserved(s, m, free, s', m', free') && Extends(m, m', r)
  {
    var old1, new1 := s.at.Keys + free, s'.at.Keys + free' + NewFrames(m, m');
    forall p: nat
      ensures (p in s.at ==> p in s'.at) && (p in free' ==> p in free) && (p in old1 <==> p in new1)
      ensures p in NewFrames(m, m') ==> p in free && p !in s'.at && p !in free' {
      assert Accounted(s, m, free, s', m', free', p);
    }
    ExtendsBy(m, m', r);
  }

  lemma ExtendsBy(m: map<Vpn, Word>, m': map<Vpn, Word>, r: set<Vpn>)
    requires forall u {:trigger PageKept(m, m', r, u)} :: PageKept(m, m', r, u)
    requires forall u, w {:trigger Apart(m, m', u, w)} :: Apart(m, m', u, w)
    ensures Extends(m, m', r)
  {
    forall u | u in m ensures u in m' && m'[u] == m[u] {
      assert PageKept(m, m', r, u);
    }
    forall u | u in m' ensures u in m.Keys + r {
      assert PageKept(m, m', r, u);
    }
    var new1 := m'.Keys - m.Keys;
    forall u, w | u in m' && w in m' && u in new1 && w in new1 && m'[u].ppn == m'[w].ppn ensures u == w {
      assert Apart(m, m', u, w);
    }
  }

  lemma SetsGrown(s: Shape, m: map<Vpn, Word>, free: set<nat>, s': Shape, m': map<Vpn, Word>, free': set<nat>,
                  r: set<Vpn>)
    requires Conserved(s, m, free, s', m', free') && Extends(m, m', r)
    ensures Grown(s, m, free, s', m', free', r)
  {
    forall p: nat ensures Accounted(s, m, free, s', m', free', p) {
      assert p in s'.at.Keys + free' + NewFrames(m, m') <==> p in s.at.Keys + free;
    }
  }

  lemma GrownWithin(s: Shape, m: map<Vpn, Word>, free: set<nat>, s': Shape, m': map<Vpn, Word>, free': set<nat>,
                    r: set<Vpn>)
    requires Grown(s, m, free, s', m', free', r)
    ensures s'.at.Keys + free' <= s.at.Keys + free
  {
    GrownSets(s, m, free, s', m', free', r);
  }

  lemma GrowNothing(s: Shape, m: map<Vpn, Word>, free: set<nat>)
    ensures Grown(s, m, free, s, m, free, {})
  {
    assert m.Keys - m.Keys == {};
    SetsGrown(s, m, free, s, m, free, {});
  }

  lemma GrowSkip(s: Shape, m: map<Vpn, Word>, free: set<nat>, s': Shape, m': map<Vpn, Word>, free': set<nat>,
                 r: set<Vpn>, r': set<Vpn>)
    requires Grown(s, m, free, s', m', free', r) && r <= r'
    ensures Grown(s, m, free, s', m', free', r')
  {
    GrownSets(s, m, free, s', m', free', r);
    SetsGrown(s, m, free, s', m', free', r');
  }

  lemma GrowOne(s: Shape, m: map<Vpn, Word>, free: set<nat>, s1: Shape, m1: map<Vpn, Word>, free1: set<nat>,
                s2: Shape, free2: set<nat>, r: set<Vpn>, a: Vpn, e: Word)
    requires Grown(s, m, free, s1, m1, free1, r) && a !in m1
    requires s2.root == s1.root && s1.at.Keys <= s2.at.Keys && e.ppn in free1 && free2 <= free1
    requires e.ppn !in s2.at && e.ppn !in free2 && s2.at.Keys + free2 + {e.ppn} == s1.at.Keys + free1
    requires s1.at.Keys !! free1
    ensures Grown(s, m, free, s2, m1[a := e], free2, r + {a})
  {
    GrownSets(s, m, free, s1, m1, free1, r);
    NewFrame(m, m1, a, e, r);
    ConserveOne(s, m, free, s1, m1, free1, s2, free2, a, e);
    SetsGrown(s, m, free, s2, m1[a := e], free2, r + {a});
  }

  lemma NewFrame(m: map<Vpn, Word>, m1: map<Vpn, Word>, a: Vpn, e: Word, r: set<Vpn>)
    requires Extends(m, m1, r) && a !in m1
    ensures NewFrames(m, m1[a := e]) == NewFrames(m, m1) + {e.ppn}
    ensures e.ppn !in NewFrames(m, m1) ==> Extends(m, m1[a := e], r + {a})
  {
    var m2, new1 := m1[a := e], m1.Keys - m.Keys;
    assert m2.Keys - m.Keys == new1 + {a};
    FramesMore(m2, new1, a);
    assert Frames(m2, new1) == Frames(m1, new1);
    forall u | u in new1 ensures m1[u].ppn in NewFrames(m, m1) {
    }
  }

  lemma ConserveOne(s: Shape, m: map<Vpn, Word>, free: set<nat>, s1: Shape, m1: map<Vpn, Word>, free1: set<nat>,
                    s2: Shape, free2: set<nat>, a: Vpn, e: Word)
    requires Conserved(s, m, free, s1, m1, free1) && NewFrames(m, m1[a := e]) == NewFrames(m, m1) + {e.ppn}
    requires s2.root == s1.root && s1.at.Keys <= s2.at.Keys && e.ppn in free1 && free2 <= free1
    requires e.ppn !in s2.at && e.ppn !in free2 && s2.at.Keys + free2 + {e.ppn} == s1.at.Keys + free1
    ensures Conserved(s, m, free, s2, m1[a := e], free2)
  {
    forall p | p in NewFrames(m, m1) ensures p !in s2.at && p !in free2 {
      assert p !in s1.at.Keys + free1;
    }
  }

  // More tables, and nothing new mapped.
  lemma GrowTables(s: Shape, m: map<Vpn, Word>, free: set<nat>, s1: Shape, m1: map<Vpn, Word>, free1: set<nat>,
                   s2: Shape, free2: set<nat>, r: set<Vpn>)
    requires Grown(s, m, free, s1, m1, free1, r) && s1.at.Keys !! free1
    requires s2.root == s1.root && s1.at.Keys <= s2.at.Keys && free2 <= free1
    requires s2.at.Keys + free2 == s1.at.Keys + free1
    ensures Grown(s, m, free, s2, m1, free2, r)
  {
    GrownSets(s, m, free, s1, m1, free1, r);
    forall p | p in NewFrames(m, m1) ensures p !in s2.at && p !in free2 {
      assert p !in s1.at.Keys + free1;
    }
    SetsGrown(s, m, free, s2, m1, free2, r);
  }

  // Taking the new pages away again gives the old map.
  lemma Shrink(s: Shape, m: map<Vpn, Word>, free: set<nat>, s': Shape, m': map<Vpn, Word>, free': set<nat>, r: set<Vpn>)
    requires Grown(s, m, free, s', m', free', r) && m.Keys !! r
    ensures m' - r == m && Frames(m', r) == NewFrames(m, m') && Separate(m', r) && Conserved(s, m, free, s', m', free')
  {
    GrownSets(s, m, free, s', m', free', r);
    assert forall u :: u in m' && u in r <==> u in m'.Keys - m.Keys;
  }

  // ---- Subtrees, for freewalk ----

  ghost predicate Has(s: Shape, n: Node) {
    match n
    case Root => true
    case Mid(i) => i in s.mid
    case Low(d) => d in s.low
  }

  ghost function PageOf(s: Shape, n: Node): nat
    requires Has(s, n)
  {
    match n
    case Root => s.root
    case Mid(i) => s.mid[i]
    case Low(d) => s.low[d]
  }

  // The node that entry i of a table leads to.
  ghost function Child(n: Node, i: nat): Node
    requires !n.Low?
  {
    match n
    case Root => Mid(i)
    case Mid(x) => Low(Dir(x, i))
  }

  ghost function Rank(n: Node): nat {
    match n
    case Root => 2
    case Mid(_) => 1
    case Low(_) => 0
  }

  // Node x lies below one of the first i entries of n.
  ghost predicate Below(n: Node, i: nat, x: Node) {
    match n
    case Root => (x.Mid? && x.i < i) || (x.Low? && x.d.l2 < i)
    case Mid(j) => x.Low? && x.d.l2 == j && x.d.l1 < i
    case Low(_) => false
  }

  ghost function KidPages(s: Shape, n: Node, i: nat): set<nat> {
    set p | p in s.at && Below(n, i, s.at[p])
  }

  ghost function SubPages(s: Shape, n: Node): set<nat>
    requires Has(s, n)
  {
    {PageOf(s, n)} + KidPages(s, n, ENTRIES)
  }

  // What page p of the tree holds when nothing is mapped.
  ghost function Bare(s: Shape, n: Node): Page {
    match n
    case Root => TopPage(s)
    case Mid(i) => MidPage(s, i)
    case Low(_) => ZeroPage()
  }

  ghost predicate BareBelow(mem: Memory, s: Shape, n: Node)
    requires Has(s, n)
  {
    s.Ok(|mem|) && forall p :: p in SubPages(s, n) ==> p in s.at && mem[p] == Bare(s, s.at[p])
  }

  lemma BareFrame(mem: Memory, mem': Memory, inside: set<nat>, s: Shape, n: Node)
    requires Has(s, n) && BareBelow(mem, s, n) && SameOutside(mem, mem', inside) && SubPages(s, n) !! inside
    ensures BareBelow(mem', s, n)
  {
    forall p | p in SubPages(s, n) ensures mem'[p] == mem[p] {
      assert SamePage(mem, mem', p);
    }
  }

  lemma EmptyIsBare(mem: Memory, s: Shape)
    requires Refines(mem, s, map[])
    ensures BareBelow(mem, s, Root) && SubPages(s, Root) == s.at.Keys
  {
    forall p | p in s.at ensures mem[p] == Bare(s, s.at[p]) && p in SubPages(s, Root) {
      assert s.Holds(s.at[p], p);
      if s.at[p].Low? {
        EmptyLowPage(map[], s.at[p].d);
      }
    }
  }

  // An entry of a bare table is zero or leads to a child.
  lemma BareEntry(s: Shape, n: Node, i: nat)
    requires Has(s, n) && i < ENTRIES
    ensures Valid(Bare(s, n)[i]) ==> !n.Low? && Has(s, Child(n, i)) && Bare(s, n)[i] == Pointer(PageOf(s, Child(n, i)))
    ensures !Valid(Bare(s, n)[i]) ==> n.Low? || !Has(s, Child(n, i))
  {
  }

  lemma KidStep(s: Shape, n: Node, i: nat, size: nat)
    requires s.Ok(size) && Has(s, n) && i < ENTRIES
    ensures KidPages(s, n, i + 1) ==
            KidPages(s, n, i) + if !n.Low? && Has(s, Child(n, i)) then SubPages(s, Child(n, i)) else {}
    ensures PageOf(s, n) in s.at && PageOf(s, n) !in KidPages(s, n, ENTRIES)
    ensures !n.Low? && Has(s, Child(n, i)) ==>
            KidPages(s, n, i) !! SubPages(s, Child(n, i)) && SubPages(s, Child(n, i)) <= KidPages(s, n, ENTRIES)
  {
    forall p | p in s.at && !Below(n, i, s.at[p]) && Below(n, i + 1, s.at[p])
      ensures !n.Low? && Has(s, Child(n, i)) && p in SubPages(s, Child(n, i))
    {
      assert s.Holds(s.at[p], p);
    }
  }

  lemma KidsBelow(s: Shape, n: Node, size: nat)
    requires s.Ok(size) && Has(s, n)
    ensures PageOf(s, n) in s.at && s.at[PageOf(s, n)] == n && PageOf(s, n) !in KidPages(s, n, ENTRIES)
    ensures KidPages(s, n, 0) == {}
  {
  }

  lemma UnionStep(x: set<nat>, a: set<nat>, b: set<nat>)
    requires a <= b
    ensures x + a + (b - a) == x + b
  {
  }

  lemma KidGrow(s: Shape, n: Node, i: nat)
    requires i < ENTRIES
    ensures KidPages(s, n, i) <= KidPages(s, n, i + 1) <= KidPages(s, n, ENTRIES)
  {
  }

  // A free page r becomes the table for root entry i, or a leaf table.

  lemma TopAdded(mem: Memory, free: set<nat>, s: Shape, m: map<Vpn, Word>, i: nat, r: nat)
    requires Refines(mem, s, m) && i < ENTRIES && i !in s.mid && r < |mem| && r in free && s.at.Keys !! free
    ensures var s', mem' := AddMid(s, i, r), mem[r := ZeroPage()][s.root := mem[s.root][i := Pointer(r)]];
            && Refines(mem', s', m) && Took(s, free, s', free - {r}) && s'.at.Keys !! free - {r}
            && SameOutside(mem, mem', s'.at.Keys)
  {
    AddMidRefines(mem, s, m, i, r);
  }

  lemma LowAdded(mem: Memory, free: set<nat>, s: Shape, m: map<Vpn, Word>, d: Dir, r: nat)
    requires Refines(mem, s, m) && d.l1 < ENTRIES && d.l2 in s.mid && d !in s.low
    requires r < |mem| && r in free && s.at.Keys !! free
    ensures var s', t := AddLow(s, d, r), s.mid[d.l2];
            var mem' := mem[r := ZeroPage()][t := mem[t][d.l1 := Pointer(r)]];
            && Refines(mem', s', m) && Took(s, free, s', free - {r}) && s'.at.Keys !! free - {r}
            && SameOutside(mem, mem', s'.at.Keys)
  {
    AddLowRefines(mem, s, m, d, r);
  }

  class Machine {
    const lo: nat                 // first page after the kernel
    const hi: nat                 // end of memory
    var mem: Memory
    var freelist: nat             // page number of the first free page, 0 if none
    ghost var free: set<nat>      // the pages on the list
    ghost var denied: nat         // history: how often kalloc found no page

    ghost predicate Ok()
      reads this
    {
      0 < lo <= hi == |mem| && Linked(mem, freelist, free) && forall p :: p in free ==> lo <= p < hi
    }

    // ---- kalloc.c ----

    /** kinit and freerange: exactly the whole pages between the end of the kernel and the end of memory are free. */
    constructor (end: nat, ramEnd: nat, m: Memory)
      requires 0 < end <= ramEnd / PGSIZE * PGSIZE && |m| == ramEnd / PGSIZE
      ensures Ok() && hi == ramEnd / PGSIZE && end <= lo * PGSIZE < end + PGSIZE
      ensures forall p: nat :: p in free <==> end <= p * PGSIZE && p * PGSIZE + PGSIZE <= ramEnd
    {
      var first := (end + PGSIZE - 1) / PGSIZE;
      lo, hi, mem, freelist, free, denied := first, ramEnd / PGSIZE, m, 0, {}, 0;
      new;
      var p := first;
      while p * PGSIZE + PGSIZE <= ramEnd
        invariant lo == first <= p <= hi && Ok() && forall q: nat :: q in free <==> lo <= q < p
        decreases hi - p
      {
        Kfree(p);
        p := p + 1;
      }
      forall q: nat ensures lo <= q < p <==> end <= q * PGSIZE && q * PGSIZE + PGSIZE <= ramEnd {
      }
    }

    /** Takes a page off the list; 0 if there is none. */
    method Kalloc() returns (r: nat)
      requires Ok()
      modifies this
      ensures denied == old(denied) + if r == 0 then 1 else 0
      ensures Ok() && (r == 0 <==> old(free) == {})
      ensures r == 0 ==> mem == old(mem) && free == old(free)
      ensures r != 0 ==> r in old(free) && free == old(free) - {r} && mem == old(mem)[r := Fill(JUNK5)]
    {
      r := freelist;
      if r != 0 {
        ghost var next: nat :| mem[r][0] == Link(next) && Linked(mem, next, free - {r});
        freelist := mem[r][0].ppn / 4;
        free := free - {r};
        LinkedFrame(mem, mem[r := Fill(JUNK5)], freelist, free);
        mem := mem[r := Fill(JUNK5)];
      } else {
        denied := denied + 1;
      }
    }

    /** Puts a page on the list. The caller no longer uses it; outside the managed range the code panics. */
    method Kfree(p: nat)
      requires Ok() && lo <= p < hi && p !in free
      modifies this
      ensures denied == old(denied)
      ensures Ok() && free == old(free) + {p} && mem == old(mem)[p := mem[p]]
    {
      var page := Fill(JUNK1)[0 := Link(freelist)];
      LinkedFrame(mem, mem[p := page], freelist, free);
      mem := mem[p := page];
      assert free + {p} - {p} == free;
      freelist := p;
      free := free + {p};
    }

    // A store to a page that is in use.
    method Write(p: nat, page: Page)
      requires Ok() && p < hi && p !in free
      modifies this`mem
      ensures Ok() && mem == old(mem)[p := page]
    {
      ghost var before := mem;
      mem := mem[p := page];
      LinkedFrame(before, mem, freelist, free);
    }

    // ---- Page tables ----

    // The table pages are in use, and in the range that kfree accepts.
    ghost predicate Owns(s: Shape)
      reads this
    {
      s.at.Keys !! free && forall p :: p in s.at ==> lo <= p < hi
    }

    // One level of walk: the table that the entry leads to, made if there is none and alloc is set.
    method NextTable(table: nat, idx: nat, alloc: bool) returns (child: nat)
      requires Ok() && table < hi && table !in free && idx < ENTRIES
      modifies this
      ensures denied == old(denied) + if alloc && !PageTable.Valid(old(mem)[table][idx]) && child == 0 then 1 else 0
      ensures Ok()
      ensures PageTable.Valid(old(mem)[table][idx]) ==> child == old(mem)[table][idx].ppn
      ensures !PageTable.Valid(old(mem)[table][idx]) && child == 0 ==> !alloc || free == {}
      ensures PageTable.Valid(old(mem)[table][idx]) || child == 0 ==> mem == old(mem) && free == old(free)
      ensures !PageTable.Valid(old(mem)[table][idx]) && child != 0 ==>
                alloc && child in old(free) && lo <= child < hi && free == old(free) - {child} &&
                mem == old(mem)[child := ZeroPage()][table := old(mem)[table][idx := Pointer(child)]]
    {
      if PageTable.Valid(mem[table][idx]) {
        return mem[table][idx].ppn;
      }
      if !alloc {
        return 0;
      }
      child := Kalloc();
      if child != 0 {
        Write(child, ZeroPage());
        Write(table, mem[table][idx := Pointer(child)]);
      }
    }

    // The first iteration of walk: the table for the root entry of v.
    method WalkTop(root: nat, v: Vpn, alloc: bool, ghost s: Shape, ghost m: map<Vpn, Word>)
      returns (t: nat, ghost s': Shape)
      requires Ok() && Refines(mem, s, m) && Owns(s) && root == s.root && v.Ok()
      modifies this
      ensures denied == old(denied) + if alloc && t == 0 then 1 else 0
      ensures Ok() && Refines(mem, s', m) && Owns(s') && Took(s, old(free), s', free)
      ensures SameOutside(old(mem), mem, s'.at.Keys)
      ensures t != 0 ==> v.l2 in s'.mid && t == s'.mid[v.l2]
      ensures t == 0 && alloc ==> free == {}
      ensures !alloc ==> mem == old(mem) && s' == s && free == old(free) && (t == 0 <==> v.l2 !in s.mid)
    {
      WalkEntries(mem, s, m, v);
      s' := s;
      t := NextTable(root, v.l2, alloc);
      if t != 0 && v.l2 !in s.mid {
        TopAdded(old(mem), old(free), s, m, v.l2, t);
        s' := AddMid(s, v.l2, t);
      }
    }

    // The second iteration: the leaf table, in table `mid`.
    method WalkLow(mid: nat, v: Vpn, alloc: bool, ghost s: Shape, ghost m: map<Vpn, Word>)
      returns (t: nat, ghost s': Shape)
      requires Ok() && Refines(mem, s, m) && Owns(s) && v.Ok() && v.l2 in s.mid && mid == s.mid[v.l2]
      modifies this
      ensures denied == old(denied) + if alloc && t == 0 then 1 else 0
      ensures Ok() && Refines(mem, s', m) && Owns(s') && Took(s, old(free), s', free)
      ensures SameOutside(old(mem), mem, s'.at.Keys)
      ensures t != 0 ==> v.Top() in s'.low && t == s'.low[v.Top()]
      ensures t == 0 && alloc ==> free == {}
      ensures !alloc ==> mem == old(mem) && s' == s && free == old(free) && (t == 0 <==> v.Top() !in s.low)
    {
      WalkEntries(mem, s, m, v);
      s' := s;
      t := NextTable(mid, v.l1, alloc);
      if t != 0 && v.Top() !in s.low {
        LowAdded(old(mem), old(free), s, m, v.Top(), t);
        s' := AddLow(s, v.Top(), t);
      }
    }

    /** Finds the leaf table of virtual page v, making missing tables if alloc is set. Returns its page, 0 if there is
        none and none could be made. The flat map is unchanged, and pages only move from the free list to the tree. */
    method Walk(root: nat, v: Vpn, alloc: bool, ghost s: Shape, ghost m: map<Vpn, Word>)
      returns (t: nat, ghost s': Shape)
      requires Ok() && Refines(mem, s, m) && Owns(s) && root == s.root && v.Ok()
      modifies this
      ensures denied == old(denied) + if alloc && t == 0 then 1 else 0
      ensures Ok() && Refines(mem, s', m) && Owns(s') && Took(s, old(free), s', free)
      ensures SameOutside(old(mem), mem, s'.at.Keys)
      ensures t != 0 ==> v.Top() in s'.low && t == s'.low[v.Top()]
      ensures t == 0 && alloc ==> free == {}
      ensures !alloc ==> mem == old(mem) && s' == s && free == old(free) && (t == 0 <==> v.Top() !in s.low)
    {
      var mid;
      mid, s' := WalkTop(root, v, alloc, s, m);
      if mid == 0 {
        return 0, s';
      }
      ghost var mem1, s1 := mem, s';
      t, s' := WalkLow(mid, v, alloc, s', m);
      SameOutsideTrans(old(mem), mem1, mem, s1.at.Keys, s'.at.Keys, s'.at.Keys);
    }

    // Writes one leaf entry: mappages and uvmunmap.
    method SetEntry(t: nat, v: Vpn, e: Word, ghost s: Shape, ghost m: map<Vpn, Word>)
      requires Ok() && Refines(mem, s, m) && Owns(s) && v.Ok() && v.Top() in s.low && t == s.low[v.Top()]
      requires e == ZERO || PageTable.Valid(e)
      modifies this`mem
      ensures Ok() && Refines(mem, s, if e == ZERO then m - {v} else m[v := e]) && SameOutside(old(mem), mem, s.at.Keys)
    {
      SetLeaf(mem, s, m, v, e);
      Write(t, mem[t][v.l0 := e]);
    }

    // One iteration of mappages.
    method MapOne(root: nat, a: Vpn, e: Word, ghost s: Shape, ghost m: map<Vpn, Word>)
      returns (r: MapResult, ghost s': Shape)
      requires Ok() && Refines(mem, s, m) && Owns(s) && root == s.root && a.Ok() && PageTable.Valid(e)
      modifies this
      ensures denied == old(denied) + if r.NoMemory? then 1 else 0
      ensures Ok() && Owns(s') && Took(s, old(free), s', free) && SameOutside(old(mem), mem, s'.at.Keys)
      ensures Refines(mem, s', if r.Done? then m[a := e] else m)
      ensures !r.Beyond? && !r.BadSize? && (r.NoMemory? ==> free == {}) && (r.Remap? ==> a in m)
      ensures r.Done? ==> a !in m
    {
      var t;
      t, s' := Walk(root, a, true, s, m);
      if t == 0 {
        return NoMemory, s';
      }
      WalkEntries(mem, s', m, a);
      if PageTable.Valid(mem[t][a.l0]) {
        return Remap, s';
      }
      ghost var mem1 := mem;
      SetEntry(t, a, e, s', m);
      SameOutsideTrans(old(mem), mem1, mem, s'.at.Keys, s'.at.Keys, s'.at.Keys);
      return Done, s';
    }

    // The same, after the first k pages from v.
    method MapNext(root: nat, v: nat, k: nat, ppn: nat, perm: Flags, ghost s: Shape, ghost m: map<Vpn, Word>,
                   ghost cur: map<Vpn, Word>)
      returns (r: MapResult, ghost s': Shape, ghost m': map<Vpn, Word>)
      requires Ok() && Refines(mem, s, cur) && Owns(s) && root == s.root
      requires cur == MapAll(m, v, k, ppn, perm)
      modifies this
      ensures denied == old(denied) + if r.NoMemory? then 1 else 0
      ensures Ok() && Refines(mem, s', m') && Owns(s') && Took(s, old(free), s', free)
      ensures SameOutside(old(mem), mem, s'.at.Keys)
      ensures m' == MapAll(m, v, if r.Done? then k + 1 else k, ppn, perm)
      ensures !r.BadSize? && (r.Beyond? <==> v + k >= MAXVPN)
      ensures (r.NoMemory? ==> free == {}) && (r.Remap? ==> Split(v + k) in m) && (r.Done? ==> Split(v + k) !in m)
    {
      if v + k >= MAXVPN {
        return Beyond, s, cur;
      }
      var a := Split(v + k);
      NextMapped(m, v, k, ppn, perm);
      r, s' := MapOne(root, a, Word(ppn + k, LeafFlags(perm)), s, cur);
      m' := if r.Done? then cur[a := Word(ppn + k, LeafFlags(perm))] else cur;
    }

    // The first k pages from v are mapped, in a call that began with tree s0, map m, memory mem0 and free pages free0.
    ghost predicate Mapping(s0: Shape, mem0: Memory, free0: set<nat>, s: Shape, cur: map<Vpn, Word>,
                            m: map<Vpn, Word>, v: nat, k: nat, ppn: nat, perm: Flags)
      reads this
    {
      && Ok() && Refines(mem, s, cur) && Owns(s) && cur == MapAll(m, v, k, ppn, perm)
      && Took(s0, free0, s, free) && SameOutside(mem0, mem, s.at.Keys)
    }

    // The same, in a call for n pages.
    method MapPass(root: nat, v: nat, n: nat, k: nat, ppn: nat, perm: Flags, ghost s: Shape, ghost m: map<Vpn, Word>,
                   ghost cur: map<Vpn, Word>, ghost s0: Shape, ghost mem0: Memory, ghost free0: set<nat>)
      returns (r: MapResult, ghost s': Shape, ghost m': map<Vpn, Word>)
      requires Mapping(s0, mem0, free0, s, cur, m, v, k, ppn, perm) && root == s0.root
      requires Means(Done, m, v, k, k) && k < n
      modifies this
      ensures denied == old(denied) + if r.NoMemory? then 1 else 0
      ensures Mapping(s0, mem0, free0, s', m', m, v, if r.Done? then k + 1 else k, ppn, perm)
      ensures if r.Done? then Means(Done, m, v, k + 1, k + 1) else Means(r, m, v, n, k)
      ensures !r.BadSize? && (r.NoMemory? ==> free == {})
    {
      r, s', m' := MapNext(root, v, k, ppn, perm, s, m, cur);
      SameOutsideTrans(mem0, old(mem), mem, s.at.Keys, s'.at.Keys, s'.at.Keys);
      MeansNext(r, m, v, n, k);
    }

    /** Maps n pages from virtual page v to the frames from ppn on. On success none of them was mapped, and the flat map
        gains exactly these; else the same is true of the first `k`. The code panics for no pages, at the first page
        that was mapped before, and at the first one from MAXVPN on. */
    method Mappages(root: nat, v: nat, n: nat, ppn: nat, perm: Flags, ghost s: Shape, ghost m: map<Vpn, Word>)
      returns (r: MapResult, ghost s': Shape, ghost m': map<Vpn, Word>, k: nat)
      requires Ok() && Refines(mem, s, m) && Owns(s) && root == s.root
      modifies this
      ensures denied == old(denied) + if r.NoMemory? then 1 else 0
      ensures Ok() && Refines(mem, s', m') && Owns(s') && IsMapped(m, m', v, k, ppn, perm)
      ensures Took(s, old(free), s', free) && SameOutside(old(mem), mem, s'.at.Keys)
      ensures Means(r, m, v, n, k) && (r.BadSize? <==> n == 0) && (r.NoMemory? ==> free == {})
    {
      if n == 0 {
        MappedNothing(m, v, ppn, perm);
        return BadSize, s, m, 0;
      }
      r, s', m', k := MapLoop(root, v, n, ppn, perm, s, m);
      AllMapped(m, v, k, ppn, perm);
    }

    // The loop of mappages.
    method MapLoop(root: nat, v: nat, n: nat, ppn: nat, perm: Flags, ghost s: Shape, ghost m: map<Vpn, Word>)
      returns (r: MapResult, ghost s': Shape, ghost m': map<Vpn, Word>, k: nat)
      requires Ok() && Refines(mem, s, m) && Owns(s) && root == s.root
      modifies this
      ensures denied == old(denied) + if r.NoMemory? then 1 else 0
      ensures Mapping(s, old(mem), old(free), s', m', m, v, k, ppn, perm)
      ensures Means(r, m, v, n, k) && !r.BadSize? && (r.NoMemory? ==> free == {})
    {
      k, s', m', r := 0, s, m, Done;
      while r.Done? && k < n
        invariant Means(r, m, v, if r.Done? then k else n, k) && k <= n && !r.BadSize?
        invariant Mapping(s, old(mem), old(free), s', m', m, v, k, ppn, perm)
        invariant denied == (old(denied) + if r.NoMemory? then 1 else 0) && (r.NoMemory? ==> free == {})
        decreases n - k, r.Done?
      {
        r, s', m' := MapPass(root, v, n, k, ppn, perm, s', m, m', s, old(mem), old(free));
        if r.Done? {
          k := k + 1;
        }
      }
    }

    // One iteration of uvmunmap.
    method UnmapOne(root: nat, a: Vpn, doFree: bool, ghost s: Shape, ghost m: map<Vpn, Word>)
      requires Ok() && Refines(mem, s, m) && Owns(s) && root == s.root && a.Ok()
      requires doFree && a in m ==> lo <= m[a].ppn < hi && m[a].ppn !in free && m[a].ppn !in s.at
      modifies this
      ensures denied == old(denied)
      ensures Ok() && Refines(mem, s, m - {a}) && Owns(s)
      ensures free == old(free) + if doFree && a in m then {m[a].ppn} else {}
      ensures SameOutside(old(mem), mem, s.at.Keys + if doFree && a in m then {m[a].ppn} else {})
    {
      WalkEntries(mem, s, m, a);
      var t, _ := Walk(root, a, false, s, m);
      if t == 0 {
        assert m - {a} == m;
        return;
      }
      if !PageTable.Valid(mem[t][a.l0]) {
        assert m - {a} == m;
        return;
      }
      ClearEntry(t, a, doFree, s, m);
    }

    // The second half of that iteration, for a valid entry.
    method ClearEntry(t: nat, a: Vpn, doFree: bool, ghost s: Shape, ghost m: map<Vpn, Word>)
      requires Ok() && Refines(mem, s, m) && Owns(s) && a.Ok() && a in m && a.Top() in s.low && t == s.low[a.Top()]
      requires mem[t][a.l0] == m[a]
      requires doFree ==> lo <= m[a].ppn < hi && m[a].ppn !in free && m[a].ppn !in s.at
      modifies this
      ensures denied == old(denied)
      ensures Ok() && Refines(mem, s, m - {a}) && Owns(s)
      ensures free == old(free) + if doFree then {m[a].ppn} else {}
      ensures SameOutside(old(mem), mem, s.at.Keys + if doFree then {m[a].ppn} else {})
    {
      ghost var freed := if doFree then {m[a].ppn} else {};
      if doFree {
        Kfree(mem[t][a.l0].ppn);
        TreeOutside(old(mem), mem, freed, s, m);
      }
      ghost var mem1 := mem;
      SetEntry(t, a, ZERO, s, m);
      SameOutsideTrans(old(mem), mem1, mem, freed, s.at.Keys, s.at.Keys + freed);
    }

    // The frames of r may be freed: they are in use, in range, not tables, and not shared.
    ghost predicate Freeable(s: Shape, m: map<Vpn, Word>, r: set<Vpn>, free0: set<nat>) {
      && Separate(m, r) && Frames(m, r) !! s.at.Keys && Frames(m, r) !! free0
      && forall p :: p in Frames(m, r) ==> lo <= p < hi
    }

    // The same, after the pages of r, for a page a that is still to come.
    method UnmapNext(root: nat, a: Vpn, doFree: bool, ghost r: set<Vpn>, ghost all: set<Vpn>, ghost s: Shape,
                     ghost m: map<Vpn, Word>, ghost free0: set<nat>)
      requires Ok() && Refines(mem, s, m - r) && Owns(s) && root == s.root && a.Ok() && r <= all && a in all && a !in r
      requires free == free0 + (if doFree then Frames(m, r) else {}) && (doFree ==> Freeable(s, m, all, free0))
      modifies this
      ensures denied == old(denied)
      ensures Ok() && Refines(mem, s, m - (r + {a})) && Owns(s)
      ensures free == free0 + if doFree then Frames(m, r + {a}) else {}
      ensures SameOutside(old(mem), mem, s.at.Keys + if doFree then Frames(m, r + {a}) else {})
    {
      FramesMore(m, r, a);
      if a in m && doFree {
        NextFrame(m, r, all, a);
      }
      UnmapOne(root, a, doFree, s, m - r);
    }

    /** Removes exactly the mappings of n pages from v, and frees their frames if doFree is set. */
    method Uvmunmap(root: nat, v: nat, n: nat, doFree: bool, ghost s: Shape, ghost m: map<Vpn, Word>)
      requires Ok() && Refines(mem, s, m) && Owns(s) && root == s.root && v + n <= MAXVPN
      requires doFree ==> Freeable(s, m, Range(v, n), free)
      modifies this
      ensures denied == old(denied)
      ensures Ok() && Refines(mem, s, m - Range(v, n)) && Owns(s)
      ensures free == old(free) + if doFree then Frames(m, Range(v, n)) else {}
      ensures SameOutside(old(mem), mem, s.at.Keys + if doFree then Frames(m, Range(v, n)) else {})
    {
      var k := 0;
      ghost var done: set<Vpn> := {};
      assert m - done == m && Frames(m, done) == {};
      while k < n
        invariant k <= n && Ok() && done == Range(v, k) && Refines(mem, s, m - done) && Owns(s)
        invariant free == old(free) + if doFree then Frames(m, done) else {}
        invariant denied == old(denied)
        invariant SameOutside(old(mem), mem, s.at.Keys + if doFree then Frames(m, done) else {})
      {
        RangeNext(v, k);
        RangeMono(v, k, n);
        ghost var mem1 := mem;
        UnmapNext(root, Split(v + k), doFree, done, Range(v, n), s, m, old(free));
        FramesMore(m, done, Split(v + k));
        ghost var freed := s.at.Keys + if doFree then Frames(m, done) else {};
        done := done + {Split(v + k)};
        ghost var freed' := s.at.Keys + if doFree then Frames(m, done) else {};
        SameOutsideTrans(old(mem), mem1, mem, freed, freed', freed');
        k := k + 1;
      }
    }

    // The tables of the subtree at n hold no leaf entries, are in use, and are in the range that kfree accepts.
    ghost predicate Walkable(mem0: Memory, free0: set<nat>, s: Shape, n: Node)
      requires Has(s, n)
    {
      && |mem0| == hi && BareBelow(mem0, s, n) && SubPages(s, n) !! free0
      && forall p :: p in SubPages(s, n) ==> lo <= p < hi
    }

    // One pass of the freewalk loop: frees what entry i leads to and clears it.
    method FreeEntry(t: nat, i: nat, ghost n: Node, ghost s: Shape) returns (ok: bool)
      requires Ok() && Has(s, n) && t == PageOf(s, n) && t < hi && t !in free && i < ENTRIES && s.Ok(|mem|)
      requires mem[t][i] == Bare(s, n)[i]
      requires !n.Low? && Has(s, Child(n, i)) ==> Walkable(mem, free, s, Child(n, i))
      modifies this
      ensures denied == old(denied)
      ensures ok && Ok() && |mem| == |old(mem)|
      ensures free == old(free) + (KidPages(s, n, i + 1) - KidPages(s, n, i))
      ensures SameOutside(old(mem), mem, {t} + (KidPages(s, n, i + 1) - KidPages(s, n, i)))
      ensures forall j :: i < j < ENTRIES ==> mem[t][j] == old(mem)[t][j]
      decreases Rank(n), 0
    {
      BareEntry(s, n, i);
      KidStep(s, n, i, hi);
      var pte := mem[t][i];
      if PageTable.Valid(pte) && !pte.flags.r && !pte.flags.w && !pte.flags.x {
        ghost var kids := SubPages(s, Child(n, i));
        ok := Freewalk(pte.ppn, Child(n, i), s);
        ghost var mem1 := mem;
        assert SamePage(old(mem), mem1, t);
        Write(t, mem[t][i := ZERO]);
        SameOutsideTrans(old(mem), mem1, mem, kids, {t}, {t} + kids);
      } else if PageTable.Valid(pte) {
        return false;
      }
      return true;
    }

    // The same, after the first i entries, for a walk that began with memory mem0 and free pages free0.
    method FreeNext(t: nat, i: nat, ghost n: Node, ghost s: Shape, ghost mem0: Memory, ghost free0: set<nat>)
      returns (ok: bool)
      requires Ok() && Has(s, n) && t == PageOf(s, n) && i < ENTRIES && Walkable(mem0, free0, s, n)
      requires free == free0 + KidPages(s, n, i) && SameOutside(mem0, mem, {t} + KidPages(s, n, i))
      requires mem[t][i] == Bare(s, n)[i]
      modifies this
      ensures denied == old(denied)
      ensures ok && Ok() && free == free0 + KidPages(s, n, i + 1)
      ensures SameOutside(mem0, mem, {t} + KidPages(s, n, i + 1))
      ensures forall j :: i < j < ENTRIES ==> mem[t][j] == old(mem)[t][j]
      decreases Rank(n), 1
    {
      KidStep(s, n, i, hi);
      KidGrow(s, n, i);
      if !n.Low? && Has(s, Child(n, i)) {
        BareFrame(mem0, mem, {t} + KidPages(s, n, i), s, Child(n, i));
      }
      ghost var kids, kids' := KidPages(s, n, i), KidPages(s, n, i + 1);
      ok := FreeEntry(t, i, n, s);
      UnionStep(free0, kids, kids');
      SameOutsideTrans(mem0, old(mem), mem, {t} + kids, {t} + (kids' - kids), {t} + kids');
    }

    /** Frees the tables of a subtree without leaf entries, each exactly once. Returns false where the code panics. */
    method Freewalk(t: nat, ghost n: Node, ghost s: Shape) returns (ok: bool)
      requires Ok() && Has(s, n) && t == PageOf(s, n) && Walkable(mem, free, s, n)
      modifies this
      ensures denied == old(denied)
      ensures ok && Ok() && free == old(free) + SubPages(s, n) && SameOutside(old(mem), mem, SubPages(s, n))
      decreases Rank(n), 2
    {
      var i := 0;
      KidsBelow(s, n, hi);
      while i < ENTRIES
        invariant i <= ENTRIES && Ok() && free == old(free) + KidPages(s, n, i)
        invariant SameOutside(old(mem), mem, {t} + KidPages(s, n, i))
        invariant denied == old(denied)
        invariant forall j :: i <= j < ENTRIES ==> mem[t][j] == Bare(s, n)[j]
      {
        ok := FreeNext(t, i, n, s, old(mem), old(free));
        i := i + 1;
      }
      ghost var mem1 := mem;
      Kfree(t);
      SameOutsideTrans(old(mem), mem1, mem, {t} + KidPages(s, n, ENTRIES), {t}, SubPages(s, n));
      return true;
    }

    // ---- User memory ----

    // Takes a page, fills it and maps it at a: the body of the loops of uvmalloc and uvmcopy. If either the page or a
    // table cannot be had, nothing is mapped and the page goes back.
    method AddPage(root: nat, a: Vpn, content: Page, perm: Flags, ghost s: Shape, ghost m: map<Vpn, Word>)
      returns (ok: bool, ghost s': Shape, ghost p: nat)
      requires Ok() && Refines(mem, s, m) && Owns(s) && root == s.root && a.Ok() && a !in m
      modifies this
      ensures denied == old(denied) + if ok then 0 else 1
      ensures Ok() && Owns(s') && s'.root == s.root && s.at.Keys <= s'.at.Keys && free <= old(free)
      ensures SameOutside(old(mem), mem, s.at.Keys + old(free))
      ensures ok ==> Refines(mem, s', m[a := Word(p, LeafFlags(perm))]) && p in old(free) && mem[p] == content
      ensures ok ==> p !in s'.at && p !in free && s'.at.Keys + free + {p} == s.at.Keys + old(free)
      ensures !ok ==> Refines(mem, s', m) && s'.at.Keys + free == s.at.Keys + old(free)
    {
      s' := s;
      var pa := Kalloc();
      p := pa;
      if pa == 0 {
        return false, s', p;
      }
      ghost var all := s.at.Keys + old(free);
      Write(pa, content);
      TreeOutside(old(mem), mem, {pa}, s, m);
      ghost var mem1 := mem;
      var r;
      r, s' := MapOne(root, a, Word(pa, LeafFlags(perm)), s, m);
      ok := r.Done?;
      SameOutsideTrans(old(mem), mem1, mem, {pa}, s'.at.Keys, all);
      assert SamePage(mem1, mem, pa);
      if !ok {
        ghost var mem2 := mem;
        Kfree(pa);
        TreeOutside(mem2, mem, {pa}, s', m);
        SameOutsideTrans(old(mem), mem2, mem, all, {pa}, all);
      }
    }
  }
}

/**
 User memory in platform/visionfive2/kernel/vm.c (uvmcreate to uvmcopy) and the memory side of fork and exit in
 proc.c: allocproc, proc_pagetable, proc_freepagetable, freeproc and kfork.
 */
module Fork {
  import opened PageTable
  import opened Vm

  const TRAMPOLINE := MAXVPN - 1
  const TRAPFRAME := MAXVPN - 2

  // PGROUNDUP(sz) / PGSIZE.
  function Pages(sz: nat): nat { (sz + PGSIZE - 1) / PGSIZE }

  // ---- Creating and freeing ----

  method Uvmcreate(k: Machine) returns (root: nat, ghost s: Shape)
    requires k.Ok()
    modifies k
    ensures k.denied == old(k.denied) + if root == 0 then 1 else 0
    ensures k.Ok() && (root == 0 <==> old(k.free) == {})
    ensures root == 0 ==> k.mem == old(k.mem) && k.free == old(k.free)
    ensures root != 0 ==> Refines(k.mem, s, map[]) && k.Owns(s) && s.root == root && s.at.Keys == {root}
    ensures root != 0 ==>
            root in old(k.free) && k.free == old(k.free) - {root} && SameOutside(old(k.mem), k.mem, {root})
  {
    root := k.Kalloc();
    s := Shape(root, map[], map[], map[root := Root]);
    if root != 0 {
      k.Write(root, ZeroPage());
      assert TopPage(s) == ZeroPage();
    }
  }

  /** Frees the frames of the n pages from 0, where everything mapped lies, and all tables. */
  method Uvmfree(k: Machine, root: nat, n: nat, ghost s: Shape, ghost m: map<Vpn, Word>)
    requires k.Ok() && Refines(k.mem, s, m) && k.Owns(s) && root == s.root && n <= MAXVPN
    requires k.Freeable(s, m, Range(0, n), k.free) && m.Keys <= Range(0, n)
    modifies k
    ensures k.denied == old(k.denied)
    ensures k.Ok() && k.free == old(k.free) + s.at.Keys + Frames(m, Range(0, n))
    ensures SameOutside(old(k.mem), k.mem, s.at.Keys + Frames(m, Range(0, n)))
  {
    ghost var frames := Frames(m, Range(0, n));
    if n > 0 {
      k.Uvmunmap(root, 0, n, true, s, m);
    }
    assert m - Range(0, n) == map[];
    EmptyIsBare(k.mem, s);
    ghost var mem1 := k.mem;
    var ok := k.Freewalk(root, Root, s);
    SameOutsideTrans(old(k.mem), mem1, k.mem, s.at.Keys + frames, s.at.Keys, s.at.Keys + frames);
  }

  lemma CutNothing(m: map<Vpn, Word>)
    ensures m - {} == m && Frames(m, {}) == {}
  {
  }

  /** Shrinks a process from oldsz to newsz bytes, and frees the frames of the pages that go. */
  method Uvmdealloc(k: Machine, root: nat, oldsz: nat, newsz: nat, ghost s: Shape, ghost m: map<Vpn, Word>)
    returns (sz: nat, ghost gone: set<Vpn>)
    requires k.Ok() && Refines(k.mem, s, m) && k.Owns(s) && root == s.root && Pages(oldsz) <= MAXVPN
    requires newsz < oldsz ==> k.Freeable(s, m, Range(Pages(newsz), Pages(oldsz) - Pages(newsz)), k.free)
    modifies k
    ensures k.denied == old(k.denied)
    ensures gone == if newsz < oldsz then Range(Pages(newsz), Pages(oldsz) - Pages(newsz)) else {}
    ensures k.Ok() && Refines(k.mem, s, m - gone) && k.Owns(s) && sz == if newsz < oldsz then newsz else oldsz
    ensures k.free == old(k.free) + Frames(m, gone) && SameOutside(old(k.mem), k.mem, s.at.Keys + Frames(m, gone))
  {
    if newsz >= oldsz {
      CutNothing(m);
      return oldsz, {};
    }
    var v, n := Pages(newsz), Pages(oldsz) - Pages(newsz);
    if n > 0 {
      k.Uvmunmap(root, v, n, true, s, m);
    } else {
      CutNothing(m);
    }
    return newsz, Range(v, n);
  }

  // ---- Growing ----

  // The body of the loops of uvmalloc and uvmcopy, for a page a that is not mapped yet.
  method GrowStep(k: Machine, root: nat, a: Vpn, content: Page, perm: Flags, ghost s: Shape, ghost m: map<Vpn, Word>,
                  ghost free0: set<nat>, ghost r: set<Vpn>, ghost s1: Shape, ghost m1: map<Vpn, Word>)
    returns (ok: bool, ghost s2: Shape, ghost p: nat)
    requires k.Ok() && Refines(k.mem, s1, m1) && k.Owns(s1) && root == s1.root && a.Ok() && a !in m1
    requires Grown(s, m, free0, s1, m1, k.free, r)
    modifies k
    ensures k.denied == old(k.denied) + if ok then 0 else 1
    ensures k.Ok() && k.Owns(s2) && SameOutside(old(k.mem), k.mem, s1.at.Keys + old(k.free))
    ensures ok ==> var m2 := m1[a := Word(p, LeafFlags(perm))];
                   && Refines(k.mem, s2, m2) && Grown(s, m, free0, s2, m2, k.free, r + {a})
                   && p < k.hi && k.mem[p] == content
    ensures !ok ==> Refines(k.mem, s2, m1) && Grown(s, m, free0, s2, m1, k.free, r)
  {
    ok, s2, p := k.AddPage(root, a, content, perm, s1, m1);
    if ok {
      GrowOne(s, m, free0, s1, m1, old(k.free), s2, k.free, r, a, Word(p, LeafFlags(perm)));
    } else {
      GrowTables(s, m, free0, s1, m1, old(k.free), s2, k.free, r);
    }
  }

  // The frames of new pages are neither tables nor free, so they keep what they hold.
  lemma NewFrameKept(s: Shape, m: map<Vpn, Word>, free: set<nat>, s1: Shape, m1: map<Vpn, Word>, free1: set<nat>,
                     r: set<Vpn>, mem: Memory, mem': Memory, u: Vpn)
    requires Grown(s, m, free, s1, m1, free1, r) && SameOutside(mem, mem', s1.at.Keys + free1) && u in m1 && u !in m
    ensures SamePage(mem, mem', m1[u].ppn)
  {
    assert m1[u].ppn in NewFrames(m, m1);
    assert Accounted(s, m, free, s1, m1, free1, m1[u].ppn);
  }

  // The pages of r are mapped with the given permissions to frames of zeros.
  ghost predicate ZeroFilled(mem: Memory, m: map<Vpn, Word>, r: set<Vpn>, perm: Flags) {
    forall u {:trigger ZeroAt(mem, m, u, perm)} :: u in r ==> ZeroAt(mem, m, u, perm)
  }

  ghost predicate ZeroAt(mem: Memory, m: map<Vpn, Word>, u: Vpn, perm: Flags) {
    u in m && m[u].flags == LeafFlags(perm) && m[u].ppn < |mem| && mem[m[u].ppn] == ZeroPage()
  }

  lemma ZeroFilledMore(s: Shape, m: map<Vpn, Word>, free: set<nat>, s1: Shape, m1: map<Vpn, Word>, free1: set<nat>,
                       r: set<Vpn>, mem: Memory, mem': Memory, a: Vpn, p: nat, perm: Flags)
    requires Grown(s, m, free, s1, m1, free1, r) && ZeroFilled(mem, m1, r, perm) && r !! m.Keys && a !in m1
    requires SameOutside(mem, mem', s1.at.Keys + free1) && p < |mem'| && mem'[p] == ZeroPage()
    ensures ZeroFilled(mem', m1[a := Word(p, LeafFlags(perm))], r + {a}, perm)
  {
    forall u | u in r + {a} ensures ZeroAt(mem', m1[a := Word(p, LeafFlags(perm))], u, perm) {
      if u in r {
        assert ZeroAt(mem, m1, u, perm);
        NewFrameKept(s, m, free, s1, m1, free1, r, mem, mem', u);
      }
    }
  }

  lemma PageBound(a: nat, sz: nat)
    ensures a * PGSIZE < sz <==> a < Pages(sz)
  {
  }

  lemma PagesOf(n: nat)
    ensures Pages(n * PGSIZE) == n
  {
  }

  // Page a is not mapped yet, if it is neither in m nor in r.
  lemma NextIsFree(s: Shape, m: map<Vpn, Word>, free: set<nat>, s': Shape, m': map<Vpn, Word>, free': set<nat>, v: nat,
                   i: nat, n: nat)
    requires Grown(s, m, free, s', m', free', Range(v, i)) && i < n && v + n <= MAXVPN && m.Keys !! Range(v, n)
    ensures Split(v + i) !in m' && Range(v, i) !! m.Keys && Range(v, i + 1) == Range(v, i) + {Split(v + i)}
    ensures Split(v + i).Ok()
  {
    RangeNext(v, i);
    RangeMono(v, i, n);
    assert PageKept(m, m', Range(v, i), Split(v + i));
  }

  // One pass of the uvmalloc loop, for the page after the first i.
  method AllocOne(k: Machine, root: nat, v: nat, i: nat, perm: Flags, ghost n: nat, ghost s: Shape,
                  ghost m: map<Vpn, Word>, ghost mem0: Memory, ghost free0: set<nat>, ghost s1: Shape,
                  ghost m1: map<Vpn, Word>)
    returns (ok: bool, ghost s2: Shape, ghost m2: map<Vpn, Word>)
    requires k.Ok() && Refines(k.mem, s1, m1) && k.Owns(s1) && root == s1.root && i < n && v + n <= MAXVPN
    requires Grown(s, m, free0, s1, m1, k.free, Range(v, i)) && ZeroFilled(k.mem, m1, Range(v, i), perm)
    requires m.Keys !! Range(v, n)
    requires SameOutside(mem0, k.mem, s.at.Keys + free0)
    modifies k
    ensures k.denied == old(k.denied) + if ok then 0 else 1
    ensures k.Ok() && Refines(k.mem, s2, m2) && k.Owns(s2) && SameOutside(mem0, k.mem, s.at.Keys + free0)
    ensures Grown(s, m, free0, s2, m2, k.free, Range(v, if ok then i + 1 else i))
    ensures ok ==> ZeroFilled(k.mem, m2, Range(v, i + 1), perm)
  {
    NextIsFree(s, m, free0, s1, m1, k.free, v, i, n);
    ghost var p;
    var a := Split(v + i);
    ok, s2, p := GrowStep(k, root, a, ZeroPage(), perm, s, m, free0, Range(v, i), s1, m1);
    GrownWithin(s, m, free0, s1, m1, old(k.free), Range(v, i));
    SameOutsideTrans(mem0, old(k.mem), k.mem, s.at.Keys + free0, s1.at.Keys + old(k.free), s.at.Keys + free0);
    m2 := m1;
    if ok {
      ZeroFilledMore(s, m, free0, s1, m1, old(k.free), Range(v, i), old(k.mem), k.mem, a, p, perm);
      m2 := m1[a := Word(p, LeafFlags(perm))];
    }
  }

  // The first i pages are taken away again by uvmdealloc.
  method UndoAlloc(k: Machine, root: nat, v: nat, i: nat, ghost s: Shape, ghost m: map<Vpn, Word>,
                   ghost free0: set<nat>, ghost s': Shape, ghost m': map<Vpn, Word>)
    requires k.Ok() && Refines(k.mem, s', m') && k.Owns(s') && root == s.root && v + i <= MAXVPN
    requires Grown(s, m, free0, s', m', k.free, Range(v, i)) && m.Keys !! Range(v, i)
    requires forall p :: p in free0 ==> k.lo <= p < k.hi
    modifies k
    ensures k.denied == old(k.denied)
    ensures k.Ok() && Refines(k.mem, s', m) && k.Owns(s') && Took(s, free0, s', k.free)
    ensures SameOutside(old(k.mem), k.mem, s.at.Keys + free0)
  {
    Shrink(s, m, free0, s', m', k.free, Range(v, i));
    PagesOf(v);
    PagesOf(v + i);
    var sz, gone := Uvmdealloc(k, root, (v + i) * PGSIZE, v * PGSIZE, s', m');
    assert gone == Range(v, i);
    SameOutsideMore(old(k.mem), k.mem, s'.at.Keys + Frames(m', gone), s.at.Keys + free0);
  }

  // The uvmalloc loop: maps zeroed frames from page v up to newsz. Stops after i pages if memory runs out.
  method AllocLoop(k: Machine, root: nat, v: nat, newsz: nat, perm: Flags, ghost n: nat, ghost s: Shape,
                   ghost m: map<Vpn, Word>)
    returns (ok: bool, i: nat, ghost s': Shape, ghost m': map<Vpn, Word>)
    requires k.Ok() && Refines(k.mem, s, m) && k.Owns(s) && root == s.root && v + n == Pages(newsz) <= MAXVPN
    requires m.Keys !! Range(v, n)
    modifies k
    ensures k.denied == old(k.denied) + if ok then 0 else 1
    ensures k.Ok() && Refines(k.mem, s', m') && k.Owns(s') && SameOutside(old(k.mem), k.mem, s.at.Keys + old(k.free))
    ensures Grown(s, m, old(k.free), s', m', k.free, Range(v, i)) && i <= n
    ensures (ok ==> i == n && ZeroFilled(k.mem, m', Range(v, n), perm))
  {
    s', m', ok, i := s, m, true, 0;
    ghost var all := s.at.Keys + old(k.free);
    GrowNothing(s, m, k.free);
    PageBound(v, newsz);
    while ok && (v + i) * PGSIZE < newsz
      invariant i <= n && k.Ok() && Refines(k.mem, s', m') && k.Owns(s') && ((v + i) * PGSIZE < newsz <==> i < n)
      invariant Grown(s, m, old(k.free), s', m', k.free, Range(v, i))
      invariant (ok ==> ZeroFilled(k.mem, m', Range(v, i), perm))
      invariant SameOutside(old(k.mem), k.mem, all)
      invariant k.denied == old(k.denied) + if ok then 0 else 1
      decreases n - i, ok
    {
      ok, s', m' := AllocOne(k, root, v, i, perm, n, s, m, old(k.mem), old(k.free), s', m');
      if ok {
        i := i + 1;
        PageBound(v + i, newsz);
      }
    }
  }

  /** Grows a process from oldsz to newsz bytes by zeroed frames of its own. Returns 0 if memory runs out; then what
      was mapped before is mapped again, and all pages are accounted for. */
  method Uvmalloc(k: Machine, root: nat, oldsz: nat, newsz: nat, xperm: Flags, ghost s: Shape, ghost m: map<Vpn, Word>)
    returns (sz: nat, ghost ok: bool, ghost s': Shape, ghost m': map<Vpn, Word>)
    requires k.Ok() && Refines(k.mem, s, m) && k.Owns(s) && root == s.root && Pages(newsz) <= MAXVPN
    requires newsz >= oldsz ==> m.Keys !! Range(Pages(oldsz), Pages(newsz) - Pages(oldsz))
    modifies k
    ensures k.denied == old(k.denied) + if ok then 0 else 1
    ensures k.Ok() && Refines(k.mem, s', m') && k.Owns(s') && SameOutside(old(k.mem), k.mem, s.at.Keys + old(k.free))
    ensures sz == if newsz < oldsz then oldsz else if ok then newsz else 0
    ensures newsz < oldsz ==> s' == s && m' == m && k.free == old(k.free) && k.mem == old(k.mem)
    ensures newsz >= oldsz && ok ==>
              var r := Range(Pages(oldsz), Pages(newsz) - Pages(oldsz));
              Grown(s, m, old(k.free), s', m', k.free, r) && ZeroFilled(k.mem, m', r, xperm.(r := true, u := true))
    ensures newsz >= oldsz && !ok ==> m' == m && Took(s, old(k.free), s', k.free)
  {
    if newsz < oldsz {
      return oldsz, true, s, m;
    }
    var v := Pages(oldsz);
    ghost var n, all := Pages(newsz) - v, s.at.Keys + old(k.free);
    var r, i;
    r, i, s', m' := AllocLoop(k, root, v, newsz, xperm.(r := true, u := true), n, s, m);
    if !r {
      RangeMono(v, i, n);
      ghost var mem1 := k.mem;
      UndoAlloc(k, root, v, i, s, m, old(k.free), s', m');
      SameOutsideTrans(old(k.mem), mem1, k.mem, all, all, all);
      return 0, false, s', m;
    }
    return newsz, true, s', m';
  }

  // ---- Copying ----

  /** Among the pages of r, the child maps exactly those that the parent maps, with the same permissions, to frames with
      the same contents. */
  ghost predicate Copied(mem: Memory, parent: map<Vpn, Word>, m: map<Vpn, Word>, r: set<Vpn>) {
    forall u {:trigger CopiedPage(mem, parent, m, u)} :: u in r ==> CopiedPage(mem, parent, m, u)
  }

  ghost predicate CopiedPage(mem: Memory, parent: map<Vpn, Word>, m: map<Vpn, Word>, u: Vpn) {
    && (u in m <==> u in parent)
    && (u in m ==>
          && m[u].flags == LeafFlags(parent[u].flags) && m[u].ppn < |mem| && parent[u].ppn < |mem|
          && mem[m[u].ppn] == mem[parent[u].ppn])
  }

  // The parent's tree and its frames for the pages of r lie outside the given pages.
  ghost predicate Parent(mem: Memory, so: Shape, parent: map<Vpn, Word>, r: set<Vpn>, all: set<nat>) {
    && Refines(mem, so, parent) && so.at.Keys !! all && Frames(parent, r) !! all
    && forall p :: p in Frames(parent, r) ==> p < |mem|
  }

  lemma ParentKept(mem: Memory, mem': Memory, so: Shape, parent: map<Vpn, Word>, r: set<Vpn>, all: set<nat>,
                   changed: set<nat>)
    requires Parent(mem, so, parent, r, all) && SameOutside(mem, mem', changed) && changed <= all
    ensures Parent(mem', so, parent, r, all)
    ensures forall u :: u in parent && u in r ==> SamePage(mem, mem', parent[u].ppn)
  {
    TreeOutside(mem, mem', changed, so, parent);
    forall u | u in parent && u in r ensures SamePage(mem, mem', parent[u].ppn) {
      assert parent[u].ppn in Frames(parent, r);
    }
  }

  lemma CopiedKept(mem: Memory, mem': Memory, so: Shape, parent: map<Vpn, Word>, pages: set<Vpn>, s: Shape,
                   m: map<Vpn, Word>, free: set<nat>, s1: Shape, m1: map<Vpn, Word>, free1: set<nat>, r: set<Vpn>)
    requires Grown(s, m, free, s1, m1, free1, r) && Copied(mem, parent, m1, r) && r !! m.Keys && r <= pages
    requires Parent(mem, so, parent, pages, s.at.Keys + free) && SameOutside(mem, mem', s1.at.Keys + free1)
    ensures Copied(mem', parent, m1, r) && Parent(mem', so, parent, pages, s.at.Keys + free)
  {
    GrownWithin(s, m, free, s1, m1, free1, r);
    ParentKept(mem, mem', so, parent, pages, s.at.Keys + free, s1.at.Keys + free1);
    forall u | u in r ensures CopiedPage(mem', parent, m1, u) {
      assert CopiedPage(mem, parent, m1, u);
      if u in m1 {
        NewFrameKept(s, m, free, s1, m1, free1, r, mem, mem', u);
      }
    }
  }

  lemma CopiedMore(mem: Memory, parent: map<Vpn, Word>, m: map<Vpn, Word>, r: set<Vpn>, a: Vpn, p: nat)
    requires Copied(mem, parent, m, r) && a in parent && a !in r && p < |mem| && parent[a].ppn < |mem|
    requires mem[p] == mem[parent[a].ppn]
    ensures Copied(mem, parent, m[a := Word(p, LeafFlags(parent[a].flags))], r + {a})
  {
    var m' := m[a := Word(p, LeafFlags(parent[a].flags))];
    forall u | u in r + {a} ensures CopiedPage(mem, parent, m', u) {
      assert u in r ==> CopiedPage(mem, parent, m, u);
    }
  }

  // One pass of the uvmcopy loop, for page a.
  method CopyOne(k: Machine, oldroot: nat, newroot: nat, a: Vpn, ghost so: Shape, ghost parent: map<Vpn, Word>,
                 ghost pages: set<Vpn>, ghost s: Shape, ghost m: map<Vpn, Word>, ghost free0: set<nat>,
                 ghost r: set<Vpn>, ghost s1: Shape, ghost m1: map<Vpn, Word>)
    returns (ok: bool, ghost s2: Shape, ghost m2: map<Vpn, Word>)
    requires k.Ok() && Refines(k.mem, s1, m1) && k.Owns(s1) && newroot == s1.root && oldroot == so.root && a.Ok()
    requires a !in m1 && a !in r && a in pages
    requires Grown(s, m, free0, s1, m1, k.free, r) && Copied(k.mem, parent, m1, r) && r !! m.Keys && r <= pages
    requires Parent(k.mem, so, parent, pages, s.at.Keys + free0) && forall p :: p in so.at ==> k.lo <= p < k.hi
    modifies k
    ensures k.denied == old(k.denied) + if ok then 0 else 1
    ensures k.Ok() && Refines(k.mem, s2, m2) && k.Owns(s2) && SameOutside(old(k.mem), k.mem, s1.at.Keys + old(k.free))
    ensures Grown(s, m, free0, s2, m2, k.free, if ok then r + {a} else r)
    ensures ok ==> Copied(k.mem, parent, m2, r + {a})
    ensures Parent(k.mem, so, parent, pages, s.at.Keys + free0)
  {
    s2, m2, ok := s1, m1, true;
    GrownWithin(s, m, free0, s1, m1, k.free, r);
    WalkEntries(k.mem, so, parent, a);
    var t, _ := k.Walk(oldroot, a, false, so, parent);
    var e := if t == 0 then ZERO else k.mem[t][a.l0];
    if !PageTable.Valid(e) {
      GrowSkip(s, m, free0, s1, m1, k.free, r, r + {a});
      assert CopiedPage(k.mem, parent, m1, a);
      return;
    }
    assert e.ppn in Frames(parent, pages);
    ghost var p;
    ok, s2, p := GrowStep(k, newroot, a, k.mem[e.ppn], e.flags, s, m, free0, r, s1, m1);
    CopiedKept(old(k.mem), k.mem, so, parent, pages, s, m, free0, s1, m1, old(k.free), r);
    if ok {
      ParentKept(old(k.mem), k.mem, so, parent, pages, s.at.Keys + free0, s1.at.Keys + old(k.free));
      assert SamePage(old(k.mem), k.mem, e.ppn);
      CopiedMore(k.mem, parent, m1, r, a, p);
      m2 := m1[a := Word(p, LeafFlags(e.flags))];
    }
  }

  // The same, for page number i of the n pages.
  method CopyNext(k: Machine, oldroot: nat, newroot: nat, i: nat, ghost n: nat, ghost so: Shape,
                  ghost parent: map<Vpn, Word>, ghost s: Shape, ghost m: map<Vpn, Word>, ghost free0: set<nat>,
                  ghost s1: Shape, ghost m1: map<Vpn, Word>)
    returns (ok: bool, ghost s2: Shape, ghost m2: map<Vpn, Word>)
    requires k.Ok() && Refines(k.mem, s1, m1) && k.Owns(s1) && newroot == s1.root && oldroot == so.root
    requires i < n <= MAXVPN && m.Keys !! Range(0, n)
    requires Grown(s, m, free0, s1, m1, k.free, Range(0, i)) && Copied(k.mem, parent, m1, Range(0, i))
    requires Parent(k.mem, so, parent, Range(0, n), s.at.Keys + free0) && forall p :: p in so.at ==> k.lo <= p < k.hi
    modifies k
    ensures k.denied == old(k.denied) + if ok then 0 else 1
    ensures k.Ok() && Refines(k.mem, s2, m2) && k.Owns(s2) && SameOutside(old(k.mem), k.mem, s.at.Keys + free0)
    ensures Grown(s, m, free0, s2, m2, k.free, Range(0, if ok then i + 1 else i))
    ensures ok ==> Copied(k.mem, parent, m2, Range(0, i + 1))
    ensures Parent(k.mem, so, parent, Range(0, n), s.at.Keys + free0)
  {
    NextIsFree(s, m, free0, s1, m1, k.free, 0, i, n);
    RangeNext(0, i);
    RangeMono(0, i, n);
    ok, s2, m2 := CopyOne(k, oldroot, newroot, Split(0 + i), so, parent, Range(0, n), s, m, free0, Range(0, i), s1, m1);
    GrownWithin(s, m, free0, s1, m1, old(k.free), Range(0, i));
    SameOutsideMore(old(k.mem), k.mem, s1.at.Keys + old(k.free), s.at.Keys + free0);
  }

  // The uvmcopy loop, up to the page where memory runs out.
  method CopyLoop(k: Machine, oldroot: nat, newroot: nat, sz: nat, ghost so: Shape, ghost parent: map<Vpn, Word>,
                  ghost s: Shape, ghost m: map<Vpn, Word>)
    returns (ok: bool, i: nat, ghost s': Shape, ghost m': map<Vpn, Word>)
    requires k.Ok() && Refines(k.mem, s, m) && k.Owns(s) && newroot == s.root && oldroot == so.root
    requires Pages(sz) <= MAXVPN && m.Keys !! Range(0, Pages(sz))
    requires Parent(k.mem, so, parent, Range(0, Pages(sz)), s.at.Keys + k.free)
    requires forall p :: p in so.at ==> k.lo <= p < k.hi
    modifies k
    ensures k.denied == old(k.denied) + if ok then 0 else 1
    ensures k.Ok() && Refines(k.mem, s', m') && k.Owns(s') && SameOutside(old(k.mem), k.mem, s.at.Keys + old(k.free))
    ensures i <= Pages(sz)
    ensures Grown(s, m, old(k.free), s', m', k.free, Range(0, i))
    ensures ok ==> i == Pages(sz) && Copied(k.mem, parent, m', Range(0, Pages(sz)))
  {
    s', m', ok, i := s, m, true, 0;
    ghost var all := s.at.Keys + old(k.free);
    GrowNothing(s, m, k.free);
    PageBound(0, sz);
    while ok && i * PGSIZE < sz
      invariant i <= Pages(sz) && k.Ok() && Refines(k.mem, s', m') && k.Owns(s') && (i * PGSIZE < sz <==> i < Pages(sz))
      invariant Grown(s, m, old(k.free), s', m', k.free, Range(0, i)) && (ok ==> Copied(k.mem, parent, m', Range(0, i)))
      invariant Parent(k.mem, so, parent, Range(0, Pages(sz)), all) && SameOutside(old(k.mem), k.mem, all)
      invariant k.denied == old(k.denied) + if ok then 0 else 1
      decreases Pages(sz) - i, ok
    {
      ghost var mem1 := k.mem;
      ok, s', m' := CopyNext(k, oldroot, newroot, i, Pages(sz), so, parent, s, m, old(k.free), s', m');
      SameOutsideTrans(old(k.mem), mem1, k.mem, all, all, all);
      if ok {
        i := i + 1;
        PageBound(i, sz);
      }
    }
  }

  /** Copies the parent's memory below sz into a table that has none there. If memory runs out, the new table maps what
      it did before and all pages are accounted for. The parent is untouched. */
  method Uvmcopy(k: Machine, oldroot: nat, newroot: nat, sz: nat, ghost so: Shape, ghost parent: map<Vpn, Word>,
                 ghost s: Shape, ghost m: map<Vpn, Word>)
    returns (ok: bool, ghost s': Shape, ghost m': map<Vpn, Word>)
    requires k.Ok() && Refines(k.mem, s, m) && k.Owns(s) && newroot == s.root && oldroot == so.root
    requires Pages(sz) <= MAXVPN && m.Keys !! Range(0, Pages(sz))
    requires Parent(k.mem, so, parent, Range(0, Pages(sz)), s.at.Keys + k.free)
    requires forall p :: p in so.at ==> k.lo <= p < k.hi
    modifies k
    ensures k.denied == old(k.denied) + if ok then 0 else 1
    ensures k.Ok() && Refines(k.mem, s', m') && k.Owns(s') && SameOutside(old(k.mem), k.mem, s.at.Keys + old(k.free))
    ensures ok ==> Grown(s, m, old(k.free), s', m', k.free, Range(0, Pages(sz)))
    ensures ok ==> Copied(k.mem, parent, m', Range(0, Pages(sz)))
    ensures !ok ==> m' == m && Took(s, old(k.free), s', k.free)
  {
    var i;
    ok, i, s', m' := CopyLoop(k, oldroot, newroot, sz, so, parent, s, m);
    if !ok {
      ghost var mem1, all := k.mem, s.at.Keys + old(k.free);
      RangeMono(0, i, Pages(sz));
      Shrink(s, m, old(k.free), s', m', k.free, Range(0, i));
      k.Uvmunmap(newroot, 0, i, true, s', m');
      SameOutsideTrans(old(k.mem), mem1, k.mem, all, s'.at.Keys + Frames(m', Range(0, i)), all);
      m' := m;
    }
  }

  // ---- Processes ----

  const TEXT := NOFLAGS.(r := true, x := true)
  const DATA := NOFLAGS.(r := true, w := true)

  // What every user table maps above the user's memory.
  ghost function SystemMap(trampoline: nat, tf: nat): map<Vpn, Word> {
    map[Split(TRAMPOLINE) := Word(trampoline, LeafFlags(TEXT)), Split(TRAPFRAME) := Word(tf, LeafFlags(DATA))]
  }

  lemma OnePage(v: nat)
    requires v < MAXVPN
    ensures Range(v, 1) == {Split(v)}
  {
    RangeNext(v, 0);
  }

  lemma MappedPage(m: map<Vpn, Word>, m': map<Vpn, Word>, v: nat, ppn: nat, perm: Flags)
    requires v < MAXVPN && IsMapped(m, m', v, 1, ppn, perm)
    ensures m' == m[Split(v) := Word(ppn, LeafFlags(perm))]
  {
    OnePage(v);
    assert FrameOf(ppn, v, Split(v)) == ppn;
  }

  lemma MappedNone(m: map<Vpn, Word>, m': map<Vpn, Word>, v: nat, ppn: nat, perm: Flags)
    requires IsMapped(m, m', v, 0, ppn, perm)
    ensures m' == m
  {
  }

  // mappages of a single page, which is not mapped yet.
  method MapPage(k: Machine, root: nat, v: nat, ppn: nat, perm: Flags, ghost s: Shape, ghost m: map<Vpn, Word>)
    returns (ok: bool, ghost s': Shape)
    requires k.Ok() && Refines(k.mem, s, m) && k.Owns(s) && root == s.root && v < MAXVPN && Split(v) !in m
    modifies k
    ensures k.denied == old(k.denied) + if ok then 0 else 1
    ensures k.Ok() && k.Owns(s') && Took(s, old(k.free), s', k.free) && SameOutside(old(k.mem), k.mem, s'.at.Keys)
    ensures Refines(k.mem, s', if ok then m[Split(v) := Word(ppn, LeafFlags(perm))] else m)
  {
    OnePage(v);
    ghost var m';
    var r, n;
    r, s', m', n := k.Mappages(root, v, 1, ppn, perm, s, m);
    ok := r.Done?;
    if ok {
      MappedPage(m, m', v, ppn, perm);
    } else {
      MappedNone(m, m', v, ppn, perm);
    }
  }

  /** A table for a process without user memory. Returns 0 if memory runs out, with all pages back on the free list. */
  method ProcPagetable(k: Machine, trampoline: nat, tf: nat) returns (root: nat, ghost s: Shape)
    requires k.Ok() && tf !in k.free
    modifies k
    ensures k.denied == old(k.denied) + if root == 0 then 1 else 0
    ensures k.Ok() && SameOutside(old(k.mem), k.mem, old(k.free))
    ensures root == 0 ==> k.free == old(k.free)
    ensures root != 0 ==> s.root == root && Refines(k.mem, s, SystemMap(trampoline, tf)) && k.Owns(s)
    ensures root != 0 ==> s.at.Keys + k.free == old(k.free)
  {
    root, s := Uvmcreate(k);
    if root == 0 {
      return;
    }
    ghost var mem1 := k.mem;
    var ok;
    ok, s := MapPage(k, root, TRAMPOLINE, trampoline, TEXT, s, map[]);
    ghost var mem2, m := k.mem, map[Split(TRAMPOLINE) := Word(trampoline, LeafFlags(TEXT))];
    SameOutsideTrans(old(k.mem), mem1, mem2, {root}, s.at.Keys, old(k.free));
    if !ok {
      ghost var gone := s.at.Keys;
      Uvmfree(k, root, 0, s, map[]);
      SameOutsideTrans(old(k.mem), mem2, k.mem, old(k.free), gone, old(k.free));
      return 0, s;
    }
    root, s := MapTrapframe(k, root, trampoline, tf, s);
    SameOutsideTrans(old(k.mem), mem2, k.mem, old(k.free), old(k.free), old(k.free));
  }

  // The second half of proc_pagetable, once the trampoline is mapped.
  method MapTrapframe(k: Machine, root0: nat, trampoline: nat, tf: nat, ghost s0: Shape)
    returns (root: nat, ghost s: Shape)
    requires k.Ok() && tf !in k.free && root0 == s0.root != 0 && k.Owns(s0)
    requires Refines(k.mem, s0, map[Split(TRAMPOLINE) := Word(trampoline, LeafFlags(TEXT))])
    modifies k
    ensures k.denied == old(k.denied) + if root == 0 then 1 else 0
    ensures k.Ok() && SameOutside(old(k.mem), k.mem, s0.at.Keys + old(k.free))
    ensures root == 0 ==> k.free == s0.at.Keys + old(k.free)
    ensures root != 0 ==> s.root == root && Refines(k.mem, s, SystemMap(trampoline, tf)) && k.Owns(s)
    ensures root != 0 ==> s.at.Keys + k.free == s0.at.Keys + old(k.free)
  {
    ghost var m, all := map[Split(TRAMPOLINE) := Word(trampoline, LeafFlags(TEXT))], s0.at.Keys + old(k.free);
    root := root0;
    SystemPages();
    var ok;
    ok, s := MapPage(k, root, TRAPFRAME, tf, DATA, s0, m);
    ghost var mem1 := k.mem;
    SameOutsideMore(old(k.mem), mem1, s.at.Keys, all);
    if !ok {
      UndoTrampoline(k, root, trampoline, s);
      SameOutsideTrans(old(k.mem), mem1, k.mem, all, s.at.Keys, all);
      return 0, s;
    }
  }

  // Its way out when the trapframe cannot be mapped.
  method UndoTrampoline(k: Machine, root: nat, ghost trampoline: nat, ghost s: Shape)
    requires k.Ok() && k.Owns(s) && root == s.root
    requires Refines(k.mem, s, map[Split(TRAMPOLINE) := Word(trampoline, LeafFlags(TEXT))])
    modifies k
    ensures k.denied == old(k.denied)
    ensures k.Ok() && k.free == s.at.Keys + old(k.free) && SameOutside(old(k.mem), k.mem, s.at.Keys)
  {
    ghost var m := map[Split(TRAMPOLINE) := Word(trampoline, LeafFlags(TEXT))];
    SystemPages();
    k.Uvmunmap(root, TRAMPOLINE, 1, false, s, m);
    ghost var mem1 := k.mem;
    assert m - Range(TRAMPOLINE, 1) == map[];
    Uvmfree(k, root, 0, s, map[]);
    SameOutsideTrans(old(k.mem), mem1, k.mem, s.at.Keys, s.at.Keys, s.at.Keys);
  }

  lemma SystemPages()
    ensures Split(TRAMPOLINE) != Split(TRAPFRAME) && Range(TRAMPOLINE, 1) == {Split(TRAMPOLINE)}
    ensures Range(TRAPFRAME, 1) == {Split(TRAPFRAME)}
  {
    OnePage(TRAMPOLINE);
    OnePage(TRAPFRAME);
  }

  // The system pages lie above the user's.
  lemma SystemAbove(n: nat)
    requires n <= TRAPFRAME
    ensures Split(TRAMPOLINE) !in Range(0, n) && Split(TRAPFRAME) !in Range(0, n)
  {
    RangeMeaning(0, n, Split(TRAMPOLINE));
    RangeMeaning(0, n, Split(TRAPFRAME));
  }

  /** Frees a process's tables and its n pages of user memory, but not the trampoline and the trapframe. */
  method ProcFreepagetable(k: Machine, root: nat, n: nat, ghost s: Shape, ghost m: map<Vpn, Word>)
    requires k.Ok() && Refines(k.mem, s, m) && k.Owns(s) && root == s.root && n <= TRAPFRAME
    requires k.Freeable(s, m, Range(0, n), k.free) && m.Keys <= Range(0, n) + {Split(TRAMPOLINE), Split(TRAPFRAME)}
    modifies k
    ensures k.denied == old(k.denied)
    ensures k.Ok() && k.free == old(k.free) + s.at.Keys + Frames(m, Range(0, n))
    ensures SameOutside(old(k.mem), k.mem, s.at.Keys + Frames(m, Range(0, n)))
  {
    SystemPages();
    SystemAbove(n);
    ghost var m1, frames := m - Range(TRAMPOLINE, 1), Frames(m, Range(0, n));
    ghost var m2 := m1 - Range(TRAPFRAME, 1);
    assert m2.Keys <= Range(0, n) && Frames(m2, Range(0, n)) == frames;
    k.Uvmunmap(root, TRAMPOLINE, 1, false, s, m);
    ghost var mem1 := k.mem;
    k.Uvmunmap(root, TRAPFRAME, 1, false, s, m1);
    ghost var mem2 := k.mem;
    SameOutsideTrans(old(k.mem), mem1, mem2, s.at.Keys, s.at.Keys, s.at.Keys);
    Uvmfree(k, root, n, s, m2);
    SameOutsideTrans(old(k.mem), mem2, k.mem, s.at.Keys, s.at.Keys + frames, s.at.Keys + frames);
  }

  // The part of freeproc that concerns memory, for a process that maps nothing of its own.
  method FreeprocEmpty(k: Machine, tf: nat, root: nat, trampoline: nat, ghost s: Shape)
    requires k.Ok() && Refines(k.mem, s, SystemMap(trampoline, tf)) && k.Owns(s) && root == s.root && k.lo <= tf < k.hi
    requires tf !in k.free && tf !in s.at
    modifies k
    ensures k.denied == old(k.denied)
    ensures k.Ok() && k.free == old(k.free) + s.at.Keys + {tf} && SameOutside(old(k.mem), k.mem, s.at.Keys + {tf})
  {
    k.Kfree(tf);
    ghost var mem1 := k.mem;
    TreeOutside(old(k.mem), mem1, {tf}, s, SystemMap(trampoline, tf));
    ProcFreepagetable(k, root, 0, s, SystemMap(trampoline, tf));
    SameOutsideTrans(old(k.mem), mem1, k.mem, {tf}, s.at.Keys, s.at.Keys + {tf});
  }

  /** The memory side of fork. The child of a successful fork maps copies of the parent's pages. Its frames, its tables
      and its trapframe are pages that were free before, no two of them the same, and none of them is free now. A fork
      that fails at any allocation leaves the free pages as they were, and writes to nothing else. */
  method Kfork(k: Machine, oldroot: nat, sz: nat, trampoline: nat, ghost so: Shape, ghost parent: map<Vpn, Word>)
    returns (ok: bool, tf: nat, root: nat, ghost s: Shape, ghost m: map<Vpn, Word>)
    requires k.Ok() && oldroot == so.root && Pages(sz) <= TRAPFRAME
    requires Parent(k.mem, so, parent, Range(0, Pages(sz)), k.free) && forall p :: p in so.at ==> k.lo <= p < k.hi
    modifies k
    ensures k.denied == old(k.denied) + if ok then 0 else 1
    ensures k.Ok() && SameOutside(old(k.mem), k.mem, old(k.free))
    ensures !ok ==> k.free == old(k.free)
    ensures ok ==> s.root == root && Refines(k.mem, s, m) && Copied(k.mem, parent, m, Range(0, Pages(sz)))
    ensures ok ==> m.Keys <= SystemMap(trampoline, tf).Keys + Range(0, Pages(sz)) && Separate(m, Range(0, Pages(sz)))
    ensures ok ==> forall u :: u in SystemMap(trampoline, tf) ==> u in m && m[u] == SystemMap(trampoline, tf)[u]
    ensures ok ==> s.at.Keys + k.free + Frames(m, Range(0, Pages(sz))) + {tf} == old(k.free)
    ensures ok ==> k.Owns(s) && Frames(m, Range(0, Pages(sz))) !! s.at.Keys && Frames(m, Range(0, Pages(sz))) !! k.free
    ensures ok ==> tf !in k.free && tf !in s.at && tf !in Frames(m, Range(0, Pages(sz)))
  {
    root, ok, m := 0, false, map[];
    s := so;
    tf := k.Kalloc();
    if tf == 0 {
      return;
    }
    ghost var mem1 := k.mem;
    ParentKept(old(k.mem), mem1, so, parent, Range(0, Pages(sz)), old(k.free), {tf});
    root, s := ProcPagetable(k, trampoline, tf);
    ghost var mem2, free2 := k.mem, k.free;
    SameOutsideTrans(old(k.mem), mem1, mem2, {tf}, old(k.free) - {tf}, old(k.free));
    if root == 0 {
      k.Kfree(tf);
      SameOutsideTrans(old(k.mem), mem2, k.mem, old(k.free), {tf}, old(k.free));
      return;
    }
    ParentKept(mem1, mem2, so, parent, Range(0, Pages(sz)), old(k.free), old(k.free) - {tf});
    ok, s, m := ForkCopy(k, oldroot, root, sz, trampoline, tf, so, parent, s);
    SameOutsideTrans(old(k.mem), mem2, k.mem, old(k.free), old(k.free), old(k.free));
  }

  // uvmcopy into the new table, and freeproc if it fails.
  method ForkCopy(k: Machine, oldroot: nat, root: nat, sz: nat, trampoline: nat, tf: nat, ghost so: Shape,
                  ghost parent: map<Vpn, Word>, ghost s: Shape)
    returns (ok: bool, ghost s': Shape, ghost m': map<Vpn, Word>)
    requires k.Ok() && Refines(k.mem, s, SystemMap(trampoline, tf)) && k.Owns(s) && root == s.root && oldroot == so.root
    requires Pages(sz) <= TRAPFRAME
    requires k.lo <= tf < k.hi && tf !in k.free && tf !in s.at
    requires Parent(k.mem, so, parent, Range(0, Pages(sz)), s.at.Keys + k.free)
    requires forall p :: p in so.at ==> k.lo <= p < k.hi
    modifies k
    ensures k.denied == old(k.denied) + if ok then 0 else 1
    ensures k.Ok() && SameOutside(old(k.mem), k.mem, s.at.Keys + old(k.free) + {tf})
    ensures ok ==> s'.root == root && Refines(k.mem, s', m') && Copied(k.mem, parent, m', Range(0, Pages(sz)))
    ensures ok ==> m'.Keys <= SystemMap(trampoline, tf).Keys + Range(0, Pages(sz)) && Separate(m', Range(0, Pages(sz)))
    ensures ok ==> forall u :: u in SystemMap(trampoline, tf) ==> u in m' && m'[u] == SystemMap(trampoline, tf)[u]
    ensures ok ==> s'.at.Keys + k.free + Frames(m', Range(0, Pages(sz))) == s.at.Keys + old(k.free)
    ensures ok ==> k.Owns(s') && Frames(m', Range(0, Pages(sz))) !! s'.at.Keys
    ensures ok ==> Frames(m', Range(0, Pages(sz))) !! k.free
    ensures !ok ==> k.free == old(k.free) + s.at.Keys + {tf}
  {
    ghost var m, all := SystemMap(trampoline, tf), s.at.Keys + old(k.free);
    SystemAbove(Pages(sz));
    ok, s', m' := Uvmcopy(k, oldroot, root, sz, so, parent, s, m);
    ghost var mem1 := k.mem;
    SameOutsideMore(old(k.mem), mem1, all, all + {tf});
    if ok {
      Shrink(s, m, old(k.free), s', m', k.free, Range(0, Pages(sz)));
    } else {
      FreeprocEmpty(k, tf, root, trampoline, s');
      SameOutsideTrans(old(k.mem), mem1, k.mem, all, s'.at.Keys + {tf}, all + {tf});
    }
  }
}

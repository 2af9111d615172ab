/**
 Sv39 page tables (platform/visionfive2/kernel/vm.c; section 4.4 of the RISC-V Privileged Architecture): the
 three-level tree in physical memory, and the flat partial map from virtual page numbers that it stands for.
 */
module PageTable {

  const ENTRIES := 512
  const MAXVPN := 0x400_0000      // MAXVA / PGSIZE

  // The low ten bits of an entry: valid, readable, writable, executable, user, global, accessed, dirty, and two
  // bits left to software.
  datatype Flags = Flags(v: bool, r: bool, w: bool, x: bool, u: bool, g: bool, a: bool, d: bool, rsw: nat)

  const NOFLAGS := Flags(false, false, false, false, false, false, false, false, 0)

  // A 64-bit word, seen as the fields of a page-table entry: PTE2PA and PTE_FLAGS.
  datatype Word = Word(ppn: nat, flags: Flags)

  const ZERO := Word(0, NOFLAGS)

  type Page = p: seq<Word> | |p| == ENTRIES witness seq(ENTRIES, _ => ZERO)

  // Physical memory, by physical page number.
  type Memory = seq<Page>

  function ZeroPage(): (p: Page)
    ensures forall i :: 0 <= i < ENTRIES ==> p[i] == ZERO
  {
    seq(ENTRIES, _ => ZERO)
  }

  predicate Valid(e: Word) { e.flags.v }

  // PA2PTE(pa) | PTE_V.
  function Pointer(ppn: nat): (e: Word)
    ensures Valid(e)
  {
    Word(ppn, NOFLAGS.(v := true))
  }

  // The flags that mappages stores for the given permissions.
  function LeafFlags(perm: Flags): (f: Flags)
    ensures f.v && f.a && (f.w ==> f.d)
  {
    perm.(v := true, a := true, d := perm.d || perm.w)
  }

  // ---- Virtual page numbers ----

  // A virtual page number as the three indices of PX.
  datatype Vpn = Vpn(l2: nat, l1: nat, l0: nat) {
    predicate Ok() { l2 < ENTRIES && l1 < ENTRIES && l0 < ENTRIES }

    function Top(): Dir { Dir(l2, l1) }
  }

  // The leading two indices.
  datatype Dir = Dir(l2: nat, l1: nat)

  // The number itself.
  function Value(v: Vpn): nat { v.l2 * (ENTRIES * ENTRIES) + v.l1 * ENTRIES + v.l0 }

  // Virtual page number v: the indices that PX cuts out of the address.
  function Split(v: nat): (r: Vpn) {
    Vpn(v / (ENTRIES * ENTRIES), v / ENTRIES % ENTRIES, v % ENTRIES)
  }

  lemma SplitIndices(v: nat)
    ensures Value(Split(v)) == v
    ensures v < MAXVPN ==> Split(v).Ok()
  {
    assert v / (ENTRIES * ENTRIES) == v / ENTRIES / ENTRIES;
  }

  // The n virtual pages from v on.
  ghost function Range(v: nat, n: nat): set<Vpn> {
    if n == 0 then {} else Range(v, n - 1) + {Split(v + n - 1)}
  }

  lemma {:induction false} RangeMeaning(v: nat, n: nat, u: Vpn)
    requires v + n <= MAXVPN
    ensures u in Range(v, n) <==> u.Ok() && v <= Value(u) < v + n
  {
    if n > 0 {
      RangeMeaning(v, n - 1, u);
      SplitIndices(v + n - 1);
      if u.Ok() && Value(u) == v + n - 1 {
        ValueInjective(u, Split(v + n - 1));
      }
    }
  }

  lemma {:induction false} RangeMono(v: nat, k: nat, n: nat)
    requires k <= n
    ensures Range(v, k) <= Range(v, n) && (k < n ==> Split(v + k) in Range(v, n))
  {
    if k < n {
      RangeMono(v, k, n - 1);
    }
  }

  lemma RangeNext(v: nat, n: nat)
    requires v + n < MAXVPN
    ensures Range(v, n + 1) == Range(v, n) + {Split(v + n)} && Split(v + n) !in Range(v, n) && Split(v + n).Ok()
    ensures Value(Split(v + n)) == v + n
  {
    RangeMeaning(v, n, Split(v + n));
    SplitIndices(v + n);
  }

  lemma ValueInjective(u: Vpn, v: Vpn)
    requires u.Ok() && v.Ok() && Value(u) == Value(v)
    ensures u == v
  {
    PackInjective(u.l2, u.l1, u.l0, v.l2, v.l1, v.l0);
  }

  lemma PackInjective(a: nat, b: nat, c: nat, x: nat, y: nat, z: nat)
    requires b < ENTRIES && c < ENTRIES && y < ENTRIES && z < ENTRIES
    requires a * (ENTRIES * ENTRIES) + b * ENTRIES + c == x * (ENTRIES * ENTRIES) + y * ENTRIES + z
    ensures a == x && b == y && c == z
  {
  }

  // ---- The tree ----

  // The place of a table page: the root, the table for entry i of the root, or a leaf table.
  datatype Node = Root | Mid(i: nat) | Low(d: Dir)

  /** The pages of a tree: `at` is the inverse of the other three. */
  datatype Shape = Shape(root: nat, mid: map<nat, nat>, low: map<Dir, nat>, at: map<nat, Node>) {
    ghost predicate Ok(size: nat) {
      && root in at && at[root] == Root
      && (forall i :: i in mid ==> i < ENTRIES && mid[i] in at && at[mid[i]] == Mid(i))
      && (forall d :: d in low ==> d.l1 < ENTRIES && d.l2 in mid && low[d] in at && at[low[d]] == Low(d))
      && (forall p :: p in at ==> p < size)
      && (forall p {:trigger Holds(at[p], p)} :: p in at ==> Holds(at[p], p))
    }

    ghost predicate Holds(n: Node, p: nat) {
      match n
      case Root => p == root
      case Mid(i) => i in mid && mid[i] == p
      case Low(d) => d in low && low[d] == p
    }
  }

  function EntryOf<K(==)>(t: map<K, nat>, x: K): Word {
    if x in t then Pointer(t[x]) else ZERO
  }

  function LeafOf(m: map<Vpn, Word>, v: Vpn): Word {
    if v in m then m[v] else ZERO
  }

  // What the table pages hold: the root, the table for root entry i, and the leaf table of a tree that stands for m.
  function TopPage(s: Shape): (p: Page) {
    seq(ENTRIES, (i: nat) => EntryOf(s.mid, i))
  }

  function MidPage(s: Shape, i: nat): (p: Page) {
    seq(ENTRIES, (j: nat) => EntryOf(s.low, Dir(i, j)))
  }

  function LowPage(m: map<Vpn, Word>, d: Dir): (p: Page) {
    seq(ENTRIES, (j: nat) => LeafOf(m, Vpn(d.l2, d.l1, j)))
  }

  // A mapped page has a leaf table and a valid entry.
  ghost predicate PageOk(s: Shape, m: map<Vpn, Word>, v: Vpn) {
    v in m ==> v.Ok() && v.Top() in s.low && Valid(m[v])
  }

  /** The tree with the given pages stands for the flat map m. */
  ghost predicate Refines(mem: Memory, s: Shape, m: map<Vpn, Word>) {
    && s.Ok(|mem|) && mem[s.root] == TopPage(s)
    && (forall i :: i in s.mid ==> mem[s.mid[i]] == MidPage(s, i))
    && (forall d :: d in s.low ==> mem[s.low[d]] == LowPage(m, d))
    && (forall v {:trigger PageOk(s, m, v)} :: PageOk(s, m, v))
  }

  /** What the hardware finds: the entries on the way to virtual page v. */
  lemma WalkEntries(mem: Memory, s: Shape, m: map<Vpn, Word>, v: Vpn)
    requires Refines(mem, s, m) && v.Ok()
    ensures mem[s.root][v.l2] == EntryOf(s.mid, v.l2)
    ensures v.l2 in s.mid ==> mem[s.mid[v.l2]][v.l1] == EntryOf(s.low, v.Top())
    ensures v.Top() in s.low ==> v.l2 in s.mid && mem[s.low[v.Top()]][v.l0] == LeafOf(m, v)
    ensures PageOk(s, m, v)
  {
  }

  // A tree depends on its own pages only.
  lemma TreeFrame(mem: Memory, mem': Memory, s: Shape, m: map<Vpn, Word>)
    requires Refines(mem, s, m) && |mem'| == |mem| && forall p :: p in s.at ==> mem'[p] == mem[p]
    ensures Refines(mem', s, m)
  {
  }

  // ---- Changing the tree ----

  function AddMid(s: Shape, i: nat, r: nat): Shape {
    Shape(s.root, s.mid[i := r], s.low, s.at[r := Mid(i)])
  }

  function AddLow(s: Shape, d: Dir, r: nat): Shape {
    Shape(s.root, s.mid, s.low[d := r], s.at[r := Low(d)])
  }

  lemma AddMidOk(s: Shape, i: nat, r: nat, size: nat)
    requires s.Ok(size) && i < ENTRIES && i !in s.mid && r < size && r !in s.at
    ensures AddMid(s, i, r).Ok(size)
  {
    var s' := AddMid(s, i, r);
    forall p | p in s'.at ensures s'.Holds(s'.at[p], p) {
      assert p in s.at ==> s.Holds(s.at[p], p);
    }
  }

  lemma AddLowOk(s: Shape, d: Dir, r: nat, size: nat)
    requires s.Ok(size) && d.l1 < ENTRIES && d.l2 in s.mid && d !in s.low && r < size && r !in s.at
    ensures AddLow(s, d, r).Ok(size)
  {
    var s' := AddLow(s, d, r);
    forall p | p in s'.at ensures s'.Holds(s'.at[p], p) {
      assert p in s.at ==> s.Holds(s.at[p], p);
    }
  }

  // A fresh zeroed page r becomes the table for entry i of the root.
  lemma AddMidRefines(mem: Memory, s: Shape, m: map<Vpn, Word>, i: nat, r: nat)
    requires Refines(mem, s, m) && i < ENTRIES && i !in s.mid && r < |mem| && r !in s.at
    ensures Refines(mem[r := ZeroPage()][s.root := mem[s.root][i := Pointer(r)]], AddMid(s, i, r), m)
  {
    var s' := AddMid(s, i, r);
    AddMidOk(s, i, r, |mem|);
    assert TopPage(s') == TopPage(s)[i := Pointer(r)];
    assert MidPage(s', i) == ZeroPage();
    assert forall x :: x in s.mid ==> MidPage(s', x) == MidPage(s, x);
    forall v ensures PageOk(s', m, v) {
      assert PageOk(s, m, v);
    }
  }

  lemma MidPageAdd(s: Shape, d: Dir, r: nat, x: nat)
    requires d.l1 < ENTRIES
    ensures MidPage(AddLow(s, d, r), x) == if x == d.l2 then MidPage(s, x)[d.l1 := Pointer(r)] else MidPage(s, x)
  {
  }

  lemma LowPageSet(m: map<Vpn, Word>, v: Vpn, e: Word, d: Dir)
    requires v.Ok()
    ensures LowPage(if e == ZERO then m - {v} else m[v := e], d) ==
            if d == v.Top() then LowPage(m, d)[v.l0 := e] else LowPage(m, d)
  {
  }

  lemma EmptyLowPage(m: map<Vpn, Word>, d: Dir)
    requires forall v :: v in m ==> v.Top() != d
    ensures LowPage(m, d) == ZeroPage()
  {
    assert forall j: nat :: Vpn(d.l2, d.l1, j).Top() == d;
  }

  // A fresh zeroed page r becomes a leaf table.
  lemma AddLowRefines(mem: Memory, s: Shape, m: map<Vpn, Word>, d: Dir, r: nat)
    requires Refines(mem, s, m) && d.l1 < ENTRIES && d.l2 in s.mid && d !in s.low && r < |mem| && r !in s.at
    ensures var t := s.mid[d.l2];
            Refines(mem[r := ZeroPage()][t := mem[t][d.l1 := Pointer(r)]], AddLow(s, d, r), m)
  {
    var s', t := AddLow(s, d, r), s.mid[d.l2];
    var mem' := mem[r := ZeroPage()][t := mem[t][d.l1 := Pointer(r)]];
    AddLowOk(s, d, r, |mem|);
    forall v ensures PageOk(s', m, v) && (v in m ==> v.Top() != d) {
      assert PageOk(s, m, v);
    }
    EmptyLowPage(m, d);
    forall x | x in s.mid ensures mem'[s.mid[x]] == MidPage(s', x) {
      MidPageAdd(s, d, r, x);
      assert s.at[s.mid[x]] == Mid(x);
    }
    forall x | x in s'.low ensures mem'[s'.low[x]] == LowPage(m, x) {
      assert x != d ==> s.at[s.low[x]] == Low(x);
    }
    assert mem'[s.root] == TopPage(s');
  }

  // Writing the leaf entry of v, or clearing it.
  lemma SetLeaf(mem: Memory, s: Shape, m: map<Vpn, Word>, v: Vpn, e: Word)
    requires Refines(mem, s, m) && v.Ok() && v.Top() in s.low && (e == ZERO || Valid(e))
    ensures var t := s.low[v.Top()];
            Refines(mem[t := mem[t][v.l0 := e]], s, if e == ZERO then m - {v} else m[v := e])
  {
    var t, m' := s.low[v.Top()], if e == ZERO then m - {v} else m[v := e];
    var mem' := mem[t := mem[t][v.l0 := e]];
    forall d | d in s.low ensures mem'[s.low[d]] == LowPage(m', d) {
      LowPageSet(m, v, e, d);
      assert s.at[s.low[d]] == Low(d);
    }
    forall u ensures PageOk(s, m', u) {
      assert PageOk(s, m, u);
    }
  }
}

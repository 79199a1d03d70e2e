/** The one shape every page table of the kernel has: five tables that cover
    the first four megabytes (pset4/k-hardware.c virtual_memory_init,
    pset4/kernel.c setup_pagetable). */
module TableShape {
  import opened Basics
  import opened PageTable

  const SPAN: nat := 1024  // virtual pages covered by the two level-4 tables

  datatype Tables = Tables(l0: nat, l1: nat, l2: nat, l3: nat, l4: nat)

  predicate Among(t: Tables, p: nat) { p == t.l0 || p == t.l1 || p == t.l2 || p == t.l3 || p == t.l4 }

  predicate Distinct(t: Tables) {
    t.l0 < NPAGES && t.l1 < NPAGES && t.l2 < NPAGES && t.l3 < NPAGES && t.l4 < NPAGES
    && t.l0 != t.l1 && t.l0 != t.l2 && t.l0 != t.l3 && t.l0 != t.l4
    && t.l1 != t.l2 && t.l1 != t.l3 && t.l1 != t.l4
    && t.l2 != t.l3 && t.l2 != t.l4 && t.l3 != t.l4
  }

  predicate Shape(mem: Memory, t: Tables) {
    Distinct(t)
    && Entry(mem, t.l0, 0) == InnerEntry(t.l1) && Entry(mem, t.l1, 0) == InnerEntry(t.l2)
    && Entry(mem, t.l2, 0) == InnerEntry(t.l3) && Entry(mem, t.l2, 1) == InnerEntry(t.l4)
    && (forall i: Index :: i > 0 ==> Entry(mem, t.l0, i) == 0 && Entry(mem, t.l1, i) == 0)
    && (forall i: Index :: i > 1 ==> Entry(mem, t.l2, i) == 0)
  }

  /** The leaf entry of virtual page `n`. */
  function LeafAt(mem: Memory, t: Tables, n: nat): nat
    requires Distinct(t)
  {
    if n < NENTRIES then Entry(mem, t.l3, n) else if n < SPAN then Entry(mem, t.l4, n - NENTRIES) else 0
  }

  /** The table at level `k` of path `v`. */
  function TableFor(t: Tables, v: Path, k: nat): Option<nat> {
    if k == 0 then Some(t.l0)
    else if v.i0 != 0 then None
    else if k == 1 then Some(t.l1)
    else if v.i1 != 0 then None
    else if k == 2 then Some(t.l2)
    else if v.i2 == 0 then Some(t.l3) else if v.i2 == 1 then Some(t.l4) else None
  }

  lemma ShapeNode(mem: Memory, t: Tables, v: Path, k: nat)
    requires Shape(mem, t) && k <= 3
    ensures Node(mem, t.l0, v, k) == TableFor(t, v, k)
    ensures k < 3 ==> OpenAt(mem, t.l0, v, k)
  {
    LinkEntry(t.l1);
    LinkEntry(t.l2);
    LinkEntry(t.l3);
    LinkEntry(t.l4);
    hide HasP, HasW, HasU, PageNumber, InnerEntry;
    if k > 0 {
      ShapeNode(mem, t, v, k - 1);
    }
  }

  lemma ShapeTree(mem: Memory, t: Tables)
    requires Shape(mem, t)
    ensures Tree(mem, t.l0)
    ensures forall v: Path, k: nat :: k <= 3 ==> Node(mem, t.l0, v, k) == TableFor(t, v, k)
    ensures forall p: nat :: InTree(mem, t.l0, p) <==> Among(t, p)
  {
    hide Node, OpenAt, Shape;
    assert Distinct(t) by { ShapeDistinct(mem, t); }
    forall v: Path, k: nat | k <= 3
      ensures Node(mem, t.l0, v, k) == TableFor(t, v, k)
      ensures k < 3 ==> OpenAt(mem, t.l0, v, k)
    {
      ShapeNode(mem, t, v, k);
    }
    var a, b := Path(0, 0, 0, 0), Path(0, 0, 1, 0);
    assert TableFor(t, a, 0) == Some(t.l0) && TableFor(t, a, 1) == Some(t.l1) && TableFor(t, a, 2) == Some(t.l2);
    assert TableFor(t, a, 3) == Some(t.l3) && TableFor(t, b, 3) == Some(t.l4);
    forall p: nat
      ensures InTree(mem, t.l0, p) <==> Among(t, p)
    {
      assert p == t.l0 ==> Node(mem, t.l0, a, 0) == Some(p);
      assert p == t.l1 ==> Node(mem, t.l0, a, 1) == Some(p);
      assert p == t.l2 ==> Node(mem, t.l0, a, 2) == Some(p);
      assert p == t.l3 ==> Node(mem, t.l0, a, 3) == Some(p);
      assert p == t.l4 ==> Node(mem, t.l0, b, 3) == Some(p);
    }
  }

  lemma ShapeDistinct(mem: Memory, t: Tables)
    requires Shape(mem, t)
    ensures Distinct(t)
  {
  }

  lemma LowPath(n: nat)
    requires n < VPN_LIMIT
    ensures n < SPAN <==> (PathOf(n).i0 == 0 && PathOf(n).i1 == 0 && PathOf(n).i2 < 2)
    ensures n < SPAN ==> PathOf(n).i2 == n / NENTRIES && PathOf(n).i3 == n % NENTRIES
  {
  }

  /** The leaf entry of the walk is the one in the two level-4 tables. */
  lemma ShapeLeaf(mem: Memory, t: Tables, n: nat)
    requires Shape(mem, t) && n < VPN_LIMIT
    ensures Leaf(mem, t.l0, PathOf(n)) == LeafAt(mem, t, n)
  {
    LowPath(n);
    ShapeNode(mem, t, PathOf(n), 3);
    hide PathOf, Node;
  }

  /** Pages outside `pages` have the same contents. */
  ghost predicate SameOutside(mem: Memory, mem': Memory, pages: set<nat>) {
    forall p: nat, i: Index :: p < NPAGES && p !in pages ==> Entry(mem', p, i) == Entry(mem, p, i)
  }

  /** The leaf entries of `[first, end)` are those of a map with `pa`, `perm`. */
  ghost predicate Remapped(mem: Memory, mem': Memory, t: Tables, first: nat, end: nat, pa: nat, perm: nat) {
    Distinct(t) &&
    forall n: nat :: n < SPAN ==>
      LeafAt(mem', t, n) == RemappedLeaf(LeafAt(mem, t, n), first, end, pa, perm, n)
  }

  function RemappedLeaf(e: nat, first: nat, end: nat, pa: nat, perm: nat, n: nat): nat {
    if !(first <= n < end) then e
    else if HasP(perm) then pa + PAGESIZE * (n - first) + perm else perm
  }

  lemma LeavesOutside(mem: Memory, mem': Memory, t: Tables, first: nat, end: nat)
    requires Shape(mem, t) && OnlyLeavesWritten(mem, mem', t.l0, first, end)
    ensures SameOutside(mem, mem', {t.l3, t.l4}) && Shape(mem', t)
  {
    forall p: nat, i: Index | p < NPAGES && p != t.l3 && p != t.l4
      ensures Entry(mem', p, i) == Entry(mem, p, i)
    {
      if Entry(mem', p, i) != Entry(mem, p, i) {
        var v: Path :| Node(mem, t.l0, v, 3) == Some(p);
        ShapeNode(mem, t, v, 3);
      }
    }
  }

  lemma EffectAt(mem: Memory, mem': Memory, t: Tables, first: nat, end: nat, pa: nat, perm: nat, n: nat)
    requires Shape(mem, t) && Shape(mem', t) && n < SPAN
    requires MapEffect(mem, mem', t.l0, first, end, pa, perm)
    ensures LeafAt(mem', t, n) == RemappedLeaf(LeafAt(mem, t, n), first, end, pa, perm, n)
  {
    NumberPath(n);
    LowPath(n);
    ShapeLeaf(mem, t, n);
    ShapeLeaf(mem', t, n);
    ShapeNode(mem, t, PathOf(n), 3);
    hide PathOf, Node, Leaf, Number, Shape, LeafAt;
  }

  /** A present mapping cannot have gone beyond the level-4 tables. */
  lemma MapStaysBelow(mem: Memory, mem': Memory, t: Tables, first: nat, pages: nat, pa: nat, perm: nat)
    requires Shape(mem', t) && HasP(perm) && perm < PAGESIZE && pa % PAGESIZE == 0
    requires MapEffect(mem, mem', t.l0, first, first + pages, pa, perm)
    requires pages > 0 && first + pages <= VPN_LIMIT
    ensures first + pages <= SPAN
  {
    var n := first + pages - 1;
    NumberPath(n);
    ShapeLeaf(mem', t, n);
    FrameFlags(pa / PAGESIZE + (n - first), perm);
    LinkEntry(0);
    hide PathOf, Node, Leaf, Number, Shape;
  }

  lemma MapTableEffect(mem: Memory, mem': Memory, t: Tables, first: nat, pages: nat, total: nat, pa: nat, perm: nat,
                       r: int)
    requires Shape(mem, t) && first + total <= VPN_LIMIT && perm < PAGESIZE
    requires HasP(perm) ==> pa % PAGESIZE == 0
    requires Progress(mem, [], mem', [], t.l0, first, pages, pa, perm, true)
    requires r == 0 || r == -1
    requires r == 0 ==> pages == total
    requires r == -1 ==> HasP(perm) && pages < total && Node(mem', t.l0, PathOf(first + pages), 3) == None
    ensures Shape(mem', t)
    ensures r == if HasP(perm) && total > 0 && first + total > SPAN then -1 else 0
    ensures SameOutside(mem, mem', {t.l3, t.l4})
    ensures Remapped(mem, mem', t, first, first + total, pa, perm)
  {
    hide Shape, SameOutside, Tree, Fresh, MapEffect, OnlyLeavesWritten, OnlyTablesWritten, SameNodes, KeepsNodes,
      PathOf, LeafAt, Node;
    LeavesOutside(mem, mem', t, first, first + pages);
    ShapeDistinct(mem', t);
    if r == 0 && HasP(perm) && total > 0 {
      MapStaysBelow(mem, mem', t, first, pages, pa, perm);
    }
    if r == -1 {
      LowPath(first + pages);
      ShapeNode(mem', t, PathOf(first + pages), 3);
    }
    forall n: nat | n < SPAN
      ensures LeafAt(mem', t, n) == RemappedLeaf(LeafAt(mem, t, n), first, first + total, pa, perm, n)
    {
      EffectAt(mem, mem', t, first, first + pages, pa, perm, n);
    }
  }

  /** The one index that virtual_memory_map takes for its initial -1 is far
      above the four megabytes. */
  lemma InitialIndexHigh(va: nat)
    requires InitialIndex(va)
    ensures Vpn(va) >= VPN_LIMIT - NENTRIES
  {
  }

  lemma NoTableAbove(mem: Memory, t: Tables, n: nat)
    requires Shape(mem, t) && SPAN <= n < VPN_LIMIT
    ensures Node(mem, t.l0, PathOf(n), 3) == None
  {
    LowPath(n);
    ShapeNode(mem, t, PathOf(n), 3);
  }

  /** `virtual_memory_map` on a table of this shape, without an allocator:
      -1 exactly when a present mapping reaches past the four megabytes;
      everything below them is mapped in either case. */
  method MapTable(memory: PhysicalMemory, root: nat, ghost t: Tables, va: nat, pa: nat, sz: nat, perm: nat)
      returns (r: int)
    requires memory.Valid() && Shape(memory.Snapshot(), t) && root == t.l0
    requires va % PAGESIZE == 0 && sz % PAGESIZE == 0 && va % ADDRESSES + sz <= ADDRESSES
    requires HasP(perm) ==> pa % PAGESIZE == 0 && pa + sz <= MEMSIZE_PHYSICAL
    requires perm < PAGESIZE
    modifies memory.cell
    ensures Shape(memory.Snapshot(), t)
    ensures r == if HasP(perm) && sz > 0 && Vpn(va) + sz / PAGESIZE > SPAN then -1 else 0
    ensures SameOutside(old(memory.Snapshot()), memory.Snapshot(), {t.l3, t.l4})
    ensures Remapped(old(memory.Snapshot()), memory.Snapshot(), t, Vpn(va), Vpn(va) + sz / PAGESIZE, pa, perm)
  {
    hide Shape, SameOutside, Progress, Remapped, Tree, PathOf, Node, InitialIndex, Vpn, Drawn, Regions;
    ghost var mem, first, total := memory.Snapshot(), Vpn(va), sz / PAGESIZE;
    FoldedOffset(0, va, sz);
    ShapeTree(mem, t);
    assert Fresh(mem, t.l0, []);
    ghost var pages, calls;
    r, pages, calls := memory.Map(root, va, pa, sz, perm, null);
    if InitialIndex(va) {
      InitialIndexHigh(va);
      if !HasP(perm) {
        NothingRemapped(mem, t, first, total, pa, perm);
        return;
      }
      if sz > 0 {
        MapShape(mem, memory.Snapshot(), t, first, pages, pa, perm);
        NoTableAbove(memory.Snapshot(), t, first);
      }
    }
    MapTableEffect(mem, memory.Snapshot(), t, first, pages, total, pa, perm, r);
  }

  lemma NothingRemapped(mem: Memory, t: Tables, first: nat, total: nat, pa: nat, perm: nat)
    requires Shape(mem, t) && first >= SPAN
    ensures SameOutside(mem, mem, {t.l3, t.l4}) && Remapped(mem, mem, t, first, first + total, pa, perm)
  {
    hide LeafAt;
  }

  lemma MapShape(mem: Memory, mem': Memory, t: Tables, first: nat, pages: nat, pa: nat, perm: nat)
    requires Shape(mem, t) && Progress(mem, [], mem', [], t.l0, first, pages, pa, perm, true)
    ensures Shape(mem', t)
  {
    hide Shape, SameOutside, Tree, Fresh, MapEffect, OnlyLeavesWritten, OnlyTablesWritten, SameNodes, KeepsNodes;
    LeavesOutside(mem, mem', t, first, first + pages);
  }
}

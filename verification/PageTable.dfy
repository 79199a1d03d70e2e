/** Four-level page tables in a flat physical memory: the table walk, the
    range map and the lookup of pset4/k-hardware.c, refined to a plain map
    from virtual page number to leaf entry (`Leaf`).

    Physical memory is an array of 8-byte cells; page `p` is the cells
    `512 * p .. 512 * p + 512`.  A table is named by its page number, an entry
    is the page's address plus twelve flag bits. */
module PageTable {
  import opened Basics

  const PAGESIZE: nat := 4096
  const NENTRIES: nat := 512
  const NPAGES: nat := 512
  const NCELLS: nat := 0x40000            // NPAGES * NENTRIES
  const MEMSIZE_PHYSICAL: nat := 0x200000 // NPAGES * PAGESIZE
  const VPN_LIMIT: nat := 0x10_0000_0000  // 2^36 virtual pages of 4-level paging
  const ADDRESSES: nat := 0x1_0000_0000_0000 // 2^48 addresses, VPN_LIMIT * PAGESIZE
  const PTE_P: nat := 1
  const PTE_W: nat := 2
  const PTE_U: nat := 4
  const PTE_PWU: nat := 7                 // PTE_P | PTE_W | PTE_U

  type Memory = m: seq<nat> | |m| == NCELLS ghost witness seq(NCELLS, _ => 0)

  // ---------------------------------------------------------------- entries

  // bits 0, 1 and 2 of an entry or of a permission argument
  predicate HasP(e: nat) { e % 2 == 1 }
  predicate HasW(e: nat) { e % 4 >= 2 }
  predicate HasU(e: nat) { e % 8 >= 4 }

  function PageNumber(e: nat): nat { e / PAGESIZE }
  function PteFlags(e: nat): nat { e % PAGESIZE }
  function PteAddr(e: nat): nat { e - e % PAGESIZE }

  /** `e & ~(mask & (PTE_W | PTE_U))` */
  function ClearWU(e: nat, mask: nat): nat {
    e - (if HasW(e) && HasW(mask) then PTE_W else 0)
      - (if HasU(e) && HasU(mask) then PTE_U else 0)
  }

  lemma Split2(a: nat, b: nat) requires b < 2 ensures (2 * a + b) % 2 == b {}
  lemma Split4(a: nat, b: nat) requires b < 4 ensures (4 * a + b) % 4 == b {}
  lemma Split8(a: nat, b: nat) requires b < 8 ensures (8 * a + b) % 8 == b {}
  lemma SplitPage(a: nat,
                  b: nat) requires b < PAGESIZE ensures (PAGESIZE * a + b) / PAGESIZE == a
                    && (PAGESIZE * a + b) % PAGESIZE == b {}

  lemma LowBits(q: nat, f: nat)
    requires f < 8
    ensures (8 * q + f) % 8 == f && (8 * q + f) % 4 == f % 4 && (8 * q + f) % 2 == f % 2
    ensures (8 * q + f) / PAGESIZE == q / 512
  {
    Split8(q, f);
    Split4(2 * q + f / 4, f % 4);
    Split2(4 * q + f / 2, f % 2);
    SplitPage(q / 512, 8 * (q % 512) + f);
  }

  lemma BitsOf(q: nat, f: nat)
    requires f < 8
    ensures HasP(8 * q + f) == HasP(f) && HasW(8 * q + f) == HasW(f) && HasU(8 * q + f) == HasU(f)
    ensures PageNumber(8 * q + f) == q / 512 && PteAddr(8 * q + f) == 8 * q - 8 * (q % 512)
  {
    LowBits(q, f);
    SplitPage(q / 512, 8 * (q % 512) + f);
  }

  lemma ClearSmall(f: nat, mask: nat)
    requires f < 8
    ensures var g := ClearWU(f, mask);
      g < 8 && HasP(g) == HasP(f) && HasW(g) == (HasW(f) && !HasW(mask)) && HasU(g) == (HasU(f) && !HasU(mask))
  {
  }

  lemma ClearWUFlags(e: nat, mask: nat)
    ensures PageNumber(ClearWU(e, mask)) == PageNumber(e)
    ensures HasP(ClearWU(e, mask)) == HasP(e)
    ensures HasW(ClearWU(e, mask)) == (HasW(e) && !HasW(mask))
    ensures HasU(ClearWU(e, mask)) == (HasU(e) && !HasU(mask))
    ensures PteAddr(ClearWU(e, mask)) == PteAddr(e)
    ensures !HasW(mask) && !HasU(mask) ==> ClearWU(e, mask) == e
  {
    var q, f := e / 8, e % 8;
    BitsOf(q, f);
    ClearSmall(f, mask);
    BitsOf(q, ClearWU(f, mask));
    hide HasP, HasW, HasU, PageNumber, PteAddr;
    assert ClearWU(e, mask) == 8 * q + ClearWU(f, mask);
  }

  lemma FrameFlags(pn: nat, perm: nat)
    requires perm < PAGESIZE
    ensures var e := PAGESIZE * pn + perm;
      HasP(e) == HasP(perm) && HasW(e) == HasW(perm) && HasU(e) == HasU(perm)
      && PageNumber(e) == pn && PteAddr(e) == PAGESIZE * pn && PteFlags(e) == perm
  {
    var q, f := perm / 8, perm % 8;
    LowBits(512 * pn + q, f);
    LowBits(q, f);
    assert PAGESIZE * pn + perm == 8 * (512 * pn + q) + f;
  }

  // ---------------------------------------------------------------- indices

  type Index = i: nat | i < NENTRIES

  /** A virtual page as the four indices the walk uses. */
  datatype Path = Path(i0: Index, i1: Index, i2: Index, i3: Index)

  function Ix(v: Path, k: nat): Index
    requires k <= 3
  {
    match k case 0 => v.i0 case 1 => v.i1 case 2 => v.i2 case _ => v.i3
  }

  /** `v` and `w` reach the same table at level `k`. */
  predicate SamePrefix(v: Path, w: Path, k: nat) {
    (k > 0 ==> v.i0 == w.i0) && (k > 1 ==> v.i1 == w.i1) && (k > 2 ==> v.i2 == w.i2)
  }

  /** The path of virtual page number `n`. */
  function PathOf(n: nat): Path {
    Path(n / 0x800_0000 % NENTRIES, n / 0x4_0000 % NENTRIES, n / 0x200 % NENTRIES, n % NENTRIES)
  }

  /** The virtual page number that the indices of an address name: addresses
      from 2^48 up fold onto lower ones. */
  function Vpn(va: nat): (n: nat)
    ensures n < VPN_LIMIT && (va / PAGESIZE < VPN_LIMIT ==> n == va / PAGESIZE)
  {
    va / PAGESIZE % VPN_LIMIT
  }

  /** `pageindex`: shift, then mask to nine bits. */
  function PageIndex(va: nat, level: nat): Index
    requires level <= 3
  {
    (match level
     case 0 => va / 0x80_0000_0000
     case 1 => va / 0x4000_0000
     case 2 => va / 0x20_0000
     case _ => va / 0x1000) % NENTRIES
  }

  /** The nine-bit fields of an address are the path of its page number. */
  lemma PageIndexIsPath(va: nat, level: nat)
    requires level <= 3
    ensures PageIndex(va, level) == Ix(PathOf(va / PAGESIZE), level)
  {
  }

  lemma PathFolds(top: nat, n: nat)
    ensures PathOf(VPN_LIMIT * top + n) == PathOf(n)
  {
    FoldIndex(top, n, 0x800_0000, 0x200);
    FoldIndex(top, n, 0x4_0000, 0x4_0000);
    FoldIndex(top, n, 0x200, 0x800_0000);
    FoldIndex(top, n, 1, 0x10_0000_0000);
  }

  lemma FoldIndex(top: nat, n: nat, unit: nat, count: nat)
    requires (unit, count) in {(1, 0x10_0000_0000), (0x200, 0x800_0000), (0x4_0000, 0x4_0000), (0x800_0000, 0x200)}
    ensures (VPN_LIMIT * top + n) / unit % NENTRIES == n / unit % NENTRIES
  {
    assert (VPN_LIMIT * top + n) / unit == count * top + n / unit;
    assert count * top + n / unit == NENTRIES * (count / NENTRIES * top) + n / unit;
  }

  /** The page number of an address and the index above its level-4 index. */
  lemma AddressParts(top: nat, n: nat)
    requires n < VPN_LIMIT
    ensures var va := ADDRESSES * top + PAGESIZE * n;
      Vpn(va) == n && PathOf(va / PAGESIZE) == PathOf(n) && va / 0x20_0000 == 0x800_0000 * top + n / NENTRIES
  {
    PathFolds(top, n);
    hide PathOf;
  }

  function Number(v: Path): nat {
    0x800_0000 * v.i0 + 0x4_0000 * v.i1 + 0x200 * v.i2 + v.i3
  }

  lemma NumberPath(n: nat)
    requires n < VPN_LIMIT
    ensures Number(PathOf(n)) == n
  {
    var a := n / 0x200;
    var b := n / 0x4_0000;
    var c := n / 0x800_0000;
    assert b == a / 0x200 && c == b / 0x200;
    assert n == 0x200 * a + n % 0x200 && a == 0x200 * b + a % 0x200 && b == 0x200 * c + b % 0x200;
    assert c < 0x200;
  }

  lemma PathNumber(v: Path)
    ensures Number(v) < VPN_LIMIT && PathOf(Number(v)) == v
  {
    var n := Number(v);
    assert n / 0x200 == 0x4_0000 * v.i0 + 0x200 * v.i1 + v.i2;
    assert n / 0x4_0000 == 0x200 * v.i0 + v.i1;
    assert n / 0x800_0000 == v.i0;
  }

  /** Page numbers are told apart by their paths; the level-4 table by all
      but the low nine bits. */
  lemma PathsDiffer(n: nat, m: nat)
    requires n < VPN_LIMIT && m < VPN_LIMIT
    ensures PathOf(n) == PathOf(m) <==> n == m
    ensures SamePrefix(PathOf(n), PathOf(m), 3) <==> n / NENTRIES == m / NENTRIES
  {
    NumberPath(n);
    NumberPath(m);
    var v, w := PathOf(n), PathOf(m);
    assert n / 0x200 == 0x4_0000 * v.i0 + 0x200 * v.i1 + v.i2;
    assert m / 0x200 == 0x4_0000 * w.i0 + 0x200 * w.i1 + w.i2;
  }

  // ------------------------------------------------------------------- walk

  function Entry(mem: Memory, p: nat, i: Index): nat
    requires p < NPAGES
  {
    mem[NENTRIES * p + i]
  }

  /** The table at level `k` on the path `v`, if every entry above it is
      present and points into physical memory. */
  ghost function Node(mem: Memory, root: nat, v: Path, k: nat): Option<nat>
    requires k <= 3
  {
    if k == 0 then Some(root)
    else match Node(mem, root, v, k - 1)
         case None => None
         case Some(p) =>
           if p < NPAGES && HasP(Entry(mem, p, Ix(v, k - 1)))
           then Some(PageNumber(Entry(mem, p, Ix(v, k - 1)))) else None
  }

  /** The leaf entry of virtual page `v`; 0 when no level-4 table covers it. */
  ghost function Leaf(mem: Memory, root: nat, v: Path): nat {
    match Node(mem, root, v, 3)
    case Some(p) => if p < NPAGES then Entry(mem, p, v.i3) else 0
    case None => 0
  }

  ghost predicate InTree(mem: Memory, root: nat, p: nat) {
    exists v: Path, k: nat :: k <= 3 && Node(mem, root, v, k) == Some(p)
  }

  ghost predicate InRange(mem: Memory, root: nat) {
    forall v: Path, k: nat :: k <= 3 && Node(mem, root, v, k).Some?
      ==> Node(mem, root, v, k).value < NPAGES
  }

  /** No table is reached along two different paths or at two levels. */
  ghost predicate NoAlias(mem: Memory, root: nat) {
    forall v: Path, j: nat, w: Path, k: nat ::
      j <= 3 && k <= 3 && Node(mem, root, v, j).Some?
      && Node(mem, root, v, j) == Node(mem, root, w, k)
      ==> j == k && SamePrefix(v, w, k)
  }

  ghost predicate OpenAt(mem: Memory, root: nat, v: Path, k: nat)
    requires k <= 3
  {
    match Node(mem, root, v, k)
    case None => true
    case Some(p) =>
      (p < NPAGES && HasP(Entry(mem, p, Ix(v, k)))
       ==> HasW(Entry(mem, p, Ix(v, k))) && HasU(Entry(mem, p, Ix(v, k))))
  }

  /** Present inner entries allow writing and user access; the leaf entry
      alone decides the permissions. */
  ghost predicate InnerOpen(mem: Memory, root: nat) {
    forall v: Path, k: nat :: k < 3 ==> OpenAt(mem, root, v, k)
  }

  ghost predicate Tree(mem: Memory, root: nat) {
    InRange(mem, root) && NoAlias(mem, root) && InnerOpen(mem, root)
  }

  lemma {:induction false} NodeOfPrefix(mem: Memory, root: nat, v: Path, w: Path, k: nat)
    requires k <= 3 && SamePrefix(v, w, k)
    ensures Node(mem, root, v, k) == Node(mem, root, w, k)
  {
    if k > 0 {
      NodeOfPrefix(mem, root, v, w, k - 1);
    }
  }

  // ------------------------------------------------- writing one leaf entry

  /** No table of an upper level is a level-4 table. */
  lemma LevelsDiffer(mem: Memory, root: nat, v: Path, w: Path, k: nat)
    requires NoAlias(mem, root) && k < 3 && Node(mem, root, v, 3).Some?
    ensures Node(mem, root, w, k) != Node(mem, root, v, 3)
  {
    hide Node;
  }

  lemma {:induction false} LeafWriteNode(mem: Memory, mem': Memory, root: nat, v: Path, p: nat, e: nat, w: Path, k: nat)
    requires Tree(mem, root) && k <= 3
    requires p < NPAGES && Node(mem, root, v, 3) == Some(p)
    requires mem' == mem[NENTRIES * p + v.i3 := e]
    ensures Node(mem', root, w, k) == Node(mem, root, w, k)
  {
    if k > 0 {
      LeafWriteNode(mem, mem', root, v, p, e, w, k - 1);
      LevelsDiffer(mem, root, v, w, k - 1);
      hide Tree, PageNumber, HasP;
    }
  }

  lemma LeafWriteLeaf(mem: Memory, mem': Memory, root: nat, v: Path, p: nat, e: nat, w: Path)
    requires Tree(mem, root)
    requires p < NPAGES && Node(mem, root, v, 3) == Some(p)
    requires mem' == mem[NENTRIES * p + v.i3 := e]
    ensures Leaf(mem', root, w) == if w == v then e else Leaf(mem, root, w)
  {
    LeafWriteNode(mem, mem', root, v, p, e, w, 3);
    if w != v && Node(mem, root, w, 3) == Some(p) {
      assert SamePrefix(v, w, 3);
    }
  }

  ghost predicate SameNodes(mem: Memory, mem': Memory, root: nat) {
    forall w: Path, k: nat :: k <= 3 ==> Node(mem', root, w, k) == Node(mem, root, w, k)
  }

  lemma SameShape(mem: Memory, mem': Memory, root: nat)
    requires SameNodes(mem, mem', root) && InRange(mem, root) && NoAlias(mem, root)
    ensures InRange(mem', root) && NoAlias(mem', root)
  {
  }

  lemma LeafWriteOpen(mem: Memory, mem': Memory, root: nat, v: Path, p: nat, e: nat, w: Path, k: nat)
    requires Tree(mem, root) && k < 3 && SameNodes(mem, mem', root)
    requires p < NPAGES && Node(mem, root, v, 3) == Some(p)
    requires mem' == mem[NENTRIES * p + v.i3 := e]
    ensures OpenAt(mem', root, w, k)
  {
    hide Node;
    assert OpenAt(mem, root, w, k);
    assert Node(mem, root, w, k) != Some(p);  // p is a level-4 table, this one is not
  }

  lemma LeafWriteTree(mem: Memory, mem': Memory, root: nat, v: Path, p: nat, e: nat)
    requires Tree(mem, root)
    requires p < NPAGES && Node(mem, root, v, 3) == Some(p)
    requires mem' == mem[NENTRIES * p + v.i3 := e]
    ensures Tree(mem', root) && SameNodes(mem, mem', root)
  {
    hide Node, OpenAt, NoAlias, InRange;
    forall w: Path, k: nat | k <= 3
      ensures Node(mem', root, w, k) == Node(mem, root, w, k)
    {
      LeafWriteNode(mem, mem', root, v, p, e, w, k);
    }
    SameShape(mem, mem', root);
    forall w: Path, k: nat | k < 3
      ensures OpenAt(mem', root, w, k)
    {
      LeafWriteOpen(mem, mem', root, v, p, e, w, k);
    }
  }

  /** Writing a leaf entry through its level-4 table changes the translation
      of exactly one page and keeps the tree. */
  lemma LeafWrite(mem: Memory, mem': Memory, root: nat, v: Path, p: nat, e: nat)
    requires Tree(mem, root)
    requires p < NPAGES && Node(mem, root, v, 3) == Some(p)
    requires mem' == mem[NENTRIES * p + v.i3 := e]
    ensures Tree(mem', root)
    ensures SameNodes(mem, mem', root)
    ensures forall w: Path :: Leaf(mem', root, w) == if w == v then e else Leaf(mem, root, w)
  {
    hide Tree, Node, Leaf;
    LeafWriteTree(mem, mem', root, v, p, e);
    forall w: Path
      ensures Leaf(mem', root, w) == if w == v then e else Leaf(mem, root, w)
    {
      LeafWriteLeaf(mem, mem', root, v, p, e, w);
    }
  }

  // ------------------------------------------------- linking a fresh table

  /** The entry that links table page `q`. */
  function InnerEntry(q: nat): nat { PAGESIZE * q + PTE_PWU }

  /** `mem'` is `mem` with page `q` cleared and linked at level `k` of `v`. */
  ghost predicate Linked(mem: Memory, mem': Memory, root: nat, v: Path, k: nat, q: nat)
    requires k < 3
  {
    q < NPAGES && !InTree(mem, root, q)
    && Node(mem, root, v, k).Some?
    && var p := Node(mem, root, v, k).value;
       p < NPAGES && !HasP(Entry(mem, p, Ix(v, k)))
       && Entry(mem', p, Ix(v, k)) == InnerEntry(q)
       && (forall i: Index :: Entry(mem', q, i) == 0)
       && (forall r: nat, i: Index :: r < NPAGES && r != q && !(r == p && i == Ix(v, k)) ==>
         Entry(mem', r, i) == Entry(mem, r, i))
  }

  lemma LinkEntry(q: nat)
    ensures var e := InnerEntry(q);
      HasP(e) && HasW(e) && HasU(e) && PageNumber(e) == q && !HasP(0)
  {
  }

  lemma {:induction false} LinkNode(mem: Memory, mem': Memory, root: nat, v: Path, k: nat, q: nat, w: Path, j: nat)
    requires Tree(mem, root) && k < 3 && j <= 3 && Linked(mem, mem', root, v, k, q)
    ensures Node(mem', root, w, j) ==
      if j == k + 1 && SamePrefix(v, w, j) then Some(q) else Node(mem, root, w, j)
    ensures j == k + 1 && SamePrefix(v, w, j) ==> Node(mem, root, w, j) == None
    ensures j > k + 1 && SamePrefix(v, w, k + 1) ==> Node(mem, root, w, j) == None
  {
    if j > 0 {
      LinkNode(mem, mem', root, v, k, q, w, j - 1);
      LinkEntry(q);
      if SamePrefix(v, w, k) {
        NodeOfPrefix(mem, root, v, w, k);
      }
      if Node(mem, root, w, j - 1).Some? {
        var r := Node(mem, root, w, j - 1).value;
        assert InTree(mem, root, r);
        assert r == Node(mem, root, v, k).value ==> j - 1 == k && SamePrefix(v, w, k);
      }
    }
  }

  lemma LinkTree(mem: Memory, mem': Memory, root: nat, v: Path, k: nat, q: nat)
    requires Tree(mem, root) && k < 3 && Linked(mem, mem', root, v, k, q)
    ensures Tree(mem', root)
  {
    forall w: Path, j: nat | j <= 3
      ensures Node(mem', root, w, j) == if j == k + 1 && SamePrefix(v, w, j) then Some(q) else Node(mem, root, w, j)
      ensures Node(mem, root, w, j) != Some(q)
    {
      LinkNode(mem, mem', root, v, k, q, w, j);
      assert Node(mem, root, w, j) == Some(q) ==> InTree(mem, root, q);
    }
    assert InRange(mem', root) && NoAlias(mem', root);
    LinkEntry(q);
    forall w: Path, j: nat | j < 3
      ensures OpenAt(mem', root, w, j)
    {
      assert OpenAt(mem, root, w, j);
    }
  }

  /** Linking a fresh, cleared table keeps the tree, every old table and every
      translation; the new table is the only new node. */
  lemma Link(mem: Memory, mem': Memory, root: nat, v: Path, k: nat, q: nat)
    requires Tree(mem, root) && k < 3 && Linked(mem, mem', root, v, k, q)
    ensures Tree(mem', root) && Node(mem', root, v, k + 1) == Some(q)
    ensures Grows(mem, mem', root)
    ensures forall r: nat :: InTree(mem', root, r) ==> r == q || InTree(mem, root, r)
  {
    LinkTree(mem, mem', root, v, k, q);
    LinkNode(mem, mem', root, v, k, q, v, k + 1);
    forall w: Path, j: nat | j <= 3
      ensures Node(mem, root, w, j).Some? ==> Node(mem', root, w, j) == Node(mem, root, w, j)
      ensures Node(mem', root, w, j) == Node(mem, root, w, j) || Node(mem', root, w, j) == Some(q)
    {
      LinkNode(mem, mem', root, v, k, q, w, j);
    }
    forall w: Path
      ensures Leaf(mem', root, w) == Leaf(mem, root, w)
    {
      LinkNode(mem, mem', root, v, k, q, w, 3);
      if Node(mem, root, w, 3).Some? {
        assert InTree(mem, root, Node(mem, root, w, 3).value);
        assert Node(mem, root, w, 3) != Node(mem, root, v, k);  // level 4 against an upper level
      }
    }
    forall r: nat | InTree(mem', root, r)
      ensures r == q || InTree(mem, root, r)
    {
      var w: Path, j: nat :| j <= 3 && Node(mem', root, w, j) == Some(r);
      assert Node(mem, root, w, j) == Some(r) || r == q;
    }
  }

  /** Every table of `mem` is still there in `mem'`, and no translation
      changed. */
  ghost predicate Grows(mem: Memory, mem': Memory, root: nat) {
    (forall w: Path, j: nat :: j <= 3 && Node(mem, root, w, j).Some? ==>
      Node(mem', root, w, j) == Node(mem, root, w, j))
    && (forall w: Path :: Leaf(mem', root, w) == Leaf(mem, root, w))
  }

  // -------------------------------------------------- effect of a range map

  /** `mem'` translates the `[first, end)` pages as a map with `pa` and `perm`
      asks, and every other page as `mem` does.  A map without PTE_P only
      writes where a level-4 table exists. */
  ghost predicate MapEffect(mem: Memory, mem': Memory, root: nat, first: nat, end: nat, pa: nat, perm: nat) {
    forall v: Path :: Leaf(mem', root, v) ==
      if first <= Number(v) < end then
        if HasP(perm) then pa + PAGESIZE * (Number(v) - first) + perm
        else if Node(mem, root, v, 3).Some? then perm else 0
      else Leaf(mem, root, v)
  }

  /** Only the level-4 entries of the `[first, end)` pages differ. */
  ghost predicate OnlyLeavesWritten(mem: Memory, mem': Memory, root: nat, first: nat, end: nat) {
    forall p: nat, i: Index :: p < NPAGES && Entry(mem', p, i) != Entry(mem, p, i) ==>
      exists v: Path :: Node(mem, root, v, 3) == Some(p) && v.i3 == i && first <= Number(v) < end
  }

  /** Only tables of the tree and pages handed out by the allocator differ. */
  ghost predicate OnlyTablesWritten(mem: Memory, mem': Memory, root: nat, answers: seq<Option<nat>>) {
    forall p: nat, i: Index :: p < NPAGES && !InTree(mem, root, p) && Some(p) !in answers ==>
      Entry(mem', p, i) == Entry(mem, p, i)
  }

  // -------------------------------------------------------------- allocator

  /** What the allocator will answer on its next calls; it answers NULL once
      the list is used up. */
  class PageSource {
    var answers: seq<Option<nat>>

    constructor (answers: seq<Option<nat>>)
      ensures this.answers == answers
    {
      this.answers := answers;
    }

    method Next() returns (q: Option<nat>)
      modifies this
      ensures q == Answer(old(answers), 0) && answers == After(old(answers), 1)
    {
      if answers == [] {
        q := None;
      } else {
        q, answers := answers[0], answers[1..];
      }
    }
  }

  /** The answer to call `i`. */
  function Answer(answers: seq<Option<nat>>, i: nat): Option<nat> {
    if i < |answers| then answers[i] else None
  }

  /** The answers left after `calls` calls. */
  function After(answers: seq<Option<nat>>, calls: nat): seq<Option<nat>> {
    if calls <= |answers| then answers[calls..] else []
  }

  /** From `s` to `s'` the allocator was called `calls` times; it answered
      with a page each time, but for the last time when it refused. */
  ghost predicate Drawn(s: seq<Option<nat>>, s': seq<Option<nat>>, calls: nat, refused: bool) {
    s' == After(s, calls)
    && (refused ==> calls > 0 && Answer(s, calls - 1) == None)
    && forall i: nat :: i < (if refused then calls - 1 else calls) ==> Answer(s, i).Some?
  }

  predicate Answers(s: seq<Option<nat>>, n: nat) { forall i: nat :: i < n ==> Answer(s, i).Some? }

  lemma EnoughAnswers(s: seq<Option<nat>>, s': seq<Option<nat>>, calls: nat, refused: bool, n: nat)
    requires Drawn(s, s', calls, refused) && calls <= n
    ensures refused ==> !Answers(s, n)
  {
  }

  lemma NothingDrawn(s: seq<Option<nat>>)
    ensures Drawn(s, s, 0, false)
  {
  }

  lemma DrawnMore(s: seq<Option<nat>>, s1: seq<Option<nat>>, s2: seq<Option<nat>>, calls: nat, more: nat, refused: bool)
    requires Drawn(s, s1, calls, false) && Drawn(s1, s2, more, refused)
    ensures Drawn(s, s2, calls + more, refused)
  {
    assert calls > 0 ==> Answer(s, calls - 1).Some?;
    forall i: nat ensures Answer(s, calls + i) == Answer(s1, i) {}
    forall i: nat | i < (if refused then calls + more - 1 else calls + more) ensures Answer(s, i).Some? {
      if i >= calls { assert Answer(s, calls + (i - calls)) == Answer(s1, i - calls); }
    }
  }

  /** The allocator hands out distinct pages that the tree does not use. */
  ghost predicate Fresh(mem: Memory, root: nat, answers: seq<Option<nat>>) {
    (forall i :: 0 <= i < |answers| && answers[i].Some? ==>
      answers[i].value < NPAGES && !InTree(mem, root, answers[i].value))
    && (forall i, j :: 0 <= i < j < |answers| && answers[i].Some? ==> answers[i] != answers[j])
  }

  ghost function Supply(source: PageSource?): seq<Option<nat>>
    reads source
  {
    if source == null then [] else source.answers
  }

  // ------------------------------------------------------------------ lookup

  datatype VaMapping = VaMapping(pn: int, pa: nat, perm: nat)

  const UNMAPPED: VaMapping := VaMapping(-1, 0xFFFF_FFFF_FFFF_FFFF, 0)

  /** The entry that the walk of `v` reads at level `k`. */
  ghost function PathEntry(mem: Memory, root: nat, v: Path, k: nat): nat
    requires k <= 3
  {
    match Node(mem, root, v, k)
    case Some(p) => if p < NPAGES then Entry(mem, p, Ix(v, k)) else 0
    case None => 0
  }

  /** Section 4.6 of the Intel 64 and IA-32 SDM, Volume 3A: a linear address
      is writable (user-accessible) when every entry on its path allows it. */
  ghost predicate Writable(mem: Memory, root: nat, v: Path) {
    forall k: nat :: k <= 3 ==> HasW(PathEntry(mem, root, v, k))
  }

  ghost predicate UserAccessible(mem: Memory, root: nat, v: Path) {
    forall k: nat :: k <= 3 ==> HasU(PathEntry(mem, root, v, k))
  }

  /** The W flag that the alternating mask of the lookup loop reports. */
  ghost predicate ReportedW(mem: Memory, root: nat, v: Path) {
    HasW(PathEntry(mem, root, v, 3)) && (HasW(PathEntry(mem, root, v, 2)) ==> HasW(PathEntry(mem, root, v, 1)))
  }

  ghost predicate ReportedU(mem: Memory, root: nat, v: Path) {
    HasU(PathEntry(mem, root, v, 3)) && (HasU(PathEntry(mem, root, v, 2)) ==> HasU(PathEntry(mem, root, v, 1)))
  }

  lemma PresentPath(mem: Memory, root: nat, v: Path)
    requires Tree(mem, root) && HasP(Leaf(mem, root, v))
    ensures forall k: nat :: k <= 3 ==> Node(mem, root, v, k).Some? && HasP(PathEntry(mem, root, v, k))
    ensures forall k: nat :: k < 3 ==> HasW(PathEntry(mem, root, v, k)) && HasU(PathEntry(mem, root, v, k))
  {
    assert Node(mem, root, v, 3).Some? && Node(mem, root, v, 2).Some? && Node(mem, root, v, 1).Some?
      && Node(mem, root, v, 0).Some?;
    assert OpenAt(mem, root, v, 0) && OpenAt(mem, root, v, 1) && OpenAt(mem, root, v, 2);
  }

  /** With open inner entries the reported flags are the conjunction of the
      four entries on the path, and are the leaf's own. */
  lemma ReportedFlagsInTree(mem: Memory, root: nat, v: Path)
    requires Tree(mem, root) && HasP(Leaf(mem, root, v))
    ensures ReportedW(mem, root, v) == Writable(mem, root, v) == HasW(Leaf(mem, root, v))
    ensures ReportedU(mem, root, v) == UserAccessible(mem, root, v) == HasU(Leaf(mem, root, v))
  {
    PresentPath(mem, root, v);
    assert Leaf(mem, root, v) == PathEntry(mem, root, v, 3);
  }

  /** In a table whose inner entries are not all open, the report of W is
      right exactly when the leaf forbids writing, or all inner entries allow
      it, or the level-3 entry allows it and the level-2 entry does not. */
  lemma ReportedWExact(mem: Memory, root: nat, v: Path)
    ensures ReportedW(mem, root, v) == Writable(mem, root, v)
      <==> (var w := (k: nat) requires k <= 3 => HasW(PathEntry(mem, root, v, k));
            !w(3) || (w(0) && w(1) && w(2)) || (w(2) && !w(1)))
  {
  }

  /** The same for U. */
  lemma ReportedUExact(mem: Memory, root: nat, v: Path)
    ensures ReportedU(mem, root, v) == UserAccessible(mem, root, v)
      <==> (var u := (k: nat) requires k <= 3 => HasU(PathEntry(mem, root, v, k));
            !u(3) || (u(0) && u(1) && u(2)) || (u(2) && !u(1)))
  {
  }

  /** From `mem` with allocator answers `s` to `mem'` with `s'`: the tree has
      grown by tables from `s` and nothing else has happened. */
  ghost predicate Extended(mem: Memory, s: seq<Option<nat>>, mem': Memory, s': seq<Option<nat>>, root: nat) {
    Tree(mem', root) && Fresh(mem', root, s') && Grows(mem, mem', root)
    && (forall q :: q in s' ==> q in s)
    && (forall p: nat :: InTree(mem', root, p) ==> InTree(mem, root, p) || Some(p) in s)
    && OnlyTablesWritten(mem, mem', root, s)
  }

  lemma ExtendedStart(mem: Memory, s: seq<Option<nat>>, root: nat)
    requires Tree(mem, root) && Fresh(mem, root, s)
    ensures Extended(mem, s, mem, s, root)
  {
  }

  lemma ExtendedTree(mem: Memory, s: seq<Option<nat>>, mem': Memory, s': seq<Option<nat>>, root: nat, v: Path, k: nat)
    requires Extended(mem, s, mem', s', root) && k <= 3
    ensures Tree(mem', root) && Fresh(mem', root, s')
    ensures Node(mem', root, v, k).Some? ==> Node(mem', root, v, k).value < NPAGES
  {
  }

  lemma ExtendedStep(m0: Memory, s0: seq<Option<nat>>, m1: Memory, s1: seq<Option<nat>>, m2: Memory,
                     s2: seq<Option<nat>>, root: nat)
    requires Extended(m0, s0, m1, s1, root) && Extended(m1, s1, m2, s2, root)
    ensures Extended(m0, s0, m2, s2, root)
  {
  }

  lemma LinkExtends(mem: Memory, s: seq<Option<nat>>, mem': Memory, root: nat, v: Path, k: nat)
    requires Tree(mem, root) && Fresh(mem, root, s) && s != [] && s[0].Some?
    requires k < 3 && Linked(mem, mem', root, v, k, s[0].value)
    ensures Extended(mem, s, mem', s[1..], root) && Node(mem', root, v, k + 1) == s[0]
  {
    var q := s[0].value;
    Link(mem, mem', root, v, k, q);
    assert InTree(mem, root, Node(mem, root, v, k).value);
    assert s[0] in s;
    forall i | 0 <= i < |s[1..]| && s[1..][i].Some?
      ensures s[1..][i].value < NPAGES && !InTree(mem', root, s[1..][i].value)
    {
      assert s[1..][i] == s[i + 1] && s[0] != s[i + 1];
    }
  }

  /** What `va` should translate to: the leaf entry of its page. */
  ghost function Translate(mem: Memory, root: nat, va: nat): VaMapping {
    var e := Leaf(mem, root, PathOf(va / PAGESIZE));
    if HasP(e) then VaMapping(PageNumber(e), PteAddr(e) + va % PAGESIZE, PteFlags(e)) else UNMAPPED
  }

  /** The variable `pe` of the lookup loop after `i` rounds. */
  ghost function Masked(mem: Memory, root: nat, v: Path, i: nat): nat
    requires i <= 4
  {
    if i == 0 then 7 else ClearWU(PathEntry(mem, root, v, i - 1), Masked(mem, root, v, i - 1))
  }

  lemma FourMasks(e0: nat, e1: nat, e2: nat, e3: nat)
    ensures var pe := ClearWU(e3, ClearWU(e2, ClearWU(e1, ClearWU(e0, 7))));
      PageNumber(pe) == PageNumber(e3) && HasP(pe) == HasP(e3) && PteAddr(pe) == PteAddr(e3)
      && HasW(pe) == (HasW(e3) && (HasW(e2) ==> HasW(e1)))
      && HasU(pe) == (HasU(e3) && (HasU(e2) ==> HasU(e1)))
      && (HasW(e1) && HasU(e1) && HasW(e2) && HasU(e2) ==> pe == e3)
  {
    assert HasW(7) && HasU(7);
    ClearWUFlags(e0, 7);
    ClearWUFlags(e1, ClearWU(e0, 7));
    ClearWUFlags(e2, ClearWU(e1, ClearWU(e0, 7)));
    hide HasP, HasW, HasU;
    ClearWUFlags(e3, ClearWU(e2, ClearWU(e1, ClearWU(e0, 7))));
  }

  lemma MaskedUnrolled(mem: Memory, root: nat, v: Path)
    ensures Masked(mem, root, v, 4) == ClearWU(PathEntry(mem, root, v, 3), ClearWU(PathEntry(mem, root, v, 2),
              ClearWU(PathEntry(mem, root, v, 1), ClearWU(PathEntry(mem, root, v, 0), 7))))
  {
    hide PathEntry, ClearWU;
    assert Masked(mem, root, v, 2) == ClearWU(PathEntry(mem, root, v, 1), Masked(mem, root, v, 1));
  }

  lemma MaskedFlags(mem: Memory, root: nat, v: Path)
    ensures var pe := Masked(mem, root, v, 4);
      PageNumber(pe) == PageNumber(PathEntry(mem, root, v, 3)) && HasP(pe) == HasP(PathEntry(mem, root, v, 3))
      && PteAddr(pe) == PteAddr(PathEntry(mem, root, v, 3))
      && HasP(PteFlags(pe)) == HasP(pe)
      && HasW(PteFlags(pe)) == ReportedW(mem, root, v) && HasU(PteFlags(pe)) == ReportedU(mem, root, v)
  {
    var pe := Masked(mem, root, v, 4);
    MaskedUnrolled(mem, root, v);
    FourMasks(PathEntry(mem, root, v, 0), PathEntry(mem, root, v, 1), PathEntry(mem, root, v, 2),
      PathEntry(mem, root, v, 3));
    FrameFlags(PageNumber(pe), PteFlags(pe));
    hide PathEntry, ClearWU, HasP, HasW, HasU;
  }

  lemma MaskedInTree(mem: Memory, root: nat, v: Path)
    requires Tree(mem, root) && HasP(Leaf(mem, root, v))
    ensures Masked(mem, root, v, 4) == Leaf(mem, root, v)
  {
    PresentPath(mem, root, v);
    hide Node, Tree, ClearWU, HasP, HasW, HasU;
    MaskedUnrolled(mem, root, v);
    FourMasks(PathEntry(mem, root, v, 0), PathEntry(mem, root, v, 1), PathEntry(mem, root, v, 2),
      PathEntry(mem, root, v, 3));
  }

  lemma FoldedOffset(x: nat, va: nat, sz: nat)
    requires va % PAGESIZE == 0 && sz % PAGESIZE == 0
    ensures var offset := x % ADDRESSES - va % ADDRESSES;
      0 <= offset < sz <==> Vpn(va) <= Vpn(x) < Vpn(va) + sz / PAGESIZE
    ensures x % ADDRESSES == PAGESIZE * Vpn(x) + x % PAGESIZE && va % ADDRESSES == PAGESIZE * Vpn(va)
  {
  }

  /** After a complete map every address of the range translates to its
      physical counterpart with exactly `perm` (to nothing without PTE_P),
      and no other address translates differently. */
  lemma MapTranslates(mem: Memory, mem': Memory, root: nat, va: nat, pa: nat, sz: nat, perm: nat, x: nat)
    requires va % PAGESIZE == 0 && sz % PAGESIZE == 0 && perm < PAGESIZE
    requires HasP(perm) ==> pa % PAGESIZE == 0
    requires va % ADDRESSES + sz <= ADDRESSES
    requires MapEffect(mem, mem', root, Vpn(va), Vpn(va) + sz / PAGESIZE, pa, perm)
    ensures Translate(mem', root, x) ==
      var offset := x % ADDRESSES - va % ADDRESSES;
      if 0 <= offset < sz then
        if HasP(perm) then VaMapping((pa + offset) / PAGESIZE, pa + offset, perm) else UNMAPPED
      else Translate(mem, root, x)
  {
    hide Leaf, Node, PathOf, Number;
    var n, first, offset := Vpn(x), Vpn(va), x % ADDRESSES - va % ADDRESSES;
    NumberPath(n);
    PathFolds(x / PAGESIZE / VPN_LIMIT, n);
    FoldedOffset(x, va, sz);
    if 0 <= offset < sz && HasP(perm) {
      FrameFlags(pa / PAGESIZE + (n - first), perm);
      SplitPage(pa / PAGESIZE + (n - first), x % PAGESIZE);
    }
  }

  // ------------------------------------------------------ state of a map loop

  /** `(int) x` */
  function ToInt32(x: nat): int {
    var m := x % 0x1_0000_0000;
    if m < 0x8000_0000 then m else m - 0x1_0000_0000
  }

  /** The index of `va` above its level-4 index is the -1 that the loop of
      virtual_memory_map starts with, so it looks no table up. */
  predicate InitialIndex(va: nat) { ToInt32(va / 0x20_0000) == -1 }

  /** That is the index of the last level-4 table that an address can have,
      so it is the index of all of a range that starts there. */
  lemma InitialIndexLast(top: nat, first: nat, pages: nat)
    requires InitialIndex(ADDRESSES * top + PAGESIZE * first) && first + pages < VPN_LIMIT
    ensures InitialIndex(ADDRESSES * top + PAGESIZE * (first + pages))
  {
    AddressParts(top, first);
    AddressParts(top, first + pages);
    LastIndex(top, first / NENTRIES);
    assert (first + pages) / NENTRIES == first / NENTRIES;
    hide PathOf, Vpn;
  }

  lemma LastIndex(top: nat, x: nat)
    requires x < 0x800_0000 && ToInt32(0x800_0000 * top + x) == -1
    ensures x == 0x7FF_FFFF
  {
    assert (0x800_0000 * top + x) % 0x1_0000_0000 == 0x800_0000 * (top % 32) + x;
  }

  /** The truncated index changes exactly with the level-4 table. */
  lemma NextIndex(top: nat, first: nat, pages: nat)
    ensures pages > 0 ==>
      var a, b := (first + pages - 1) / NENTRIES, (first + pages) / NENTRIES;
      (ToInt32(0x800_0000 * top + b) == ToInt32(0x800_0000 * top + a) <==> a == b)
      && Regions(first, pages + 1) == Regions(first, pages) + (if a == b then 0 else 1)
    ensures Regions(first, 1) == 1
  {
  }

  lemma NothingRegions(first: nat)
    ensures Regions(first, 0) == 0
  {
  }

  lemma RegionsMore(first: nat, n: nat, more: nat)
    requires n <= more
    ensures Regions(first, n) <= Regions(first, more)
  {
  }

  /** The level-4 tables that cover `n` pages from `first`. */
  function Regions(first: nat, n: nat): nat {
    if n == 0 then 0 else (first + n - 1) / NENTRIES - first / NENTRIES + 1
  }

  /** From `mem` with allocator answers `s`, `n` pages from `first` have been
      mapped and `mem'`, `s'` is the result.  Inner tables are only added by
      an allocator and only for a present mapping. */
  ghost predicate Progress(mem: Memory, s: seq<Option<nat>>, mem': Memory, s': seq<Option<nat>>, root: nat,
                           first: nat, n: nat, pa: nat, perm: nat, noAllocator: bool) {
    Tree(mem', root) && Fresh(mem', root, s')
    && MapEffect(mem, mem', root, first, first + n, pa, perm)
    && KeepsNodes(mem, mem', root)
    && (forall q :: q in s' ==> q in s)
    && (forall p: nat :: InTree(mem', root, p) ==> InTree(mem, root, p) || Some(p) in s)
    && OnlyTablesWritten(mem, mem', root, s)
    && (noAllocator || !HasP(perm) ==>
          s' == s && SameNodes(mem, mem', root) && OnlyLeavesWritten(mem, mem', root, first, first + n))
  }

  ghost predicate KeepsNodes(mem: Memory, mem': Memory, root: nat) {
    forall w: Path, k: nat :: k <= 3 && Node(mem, root, w, k).Some? ==> Node(mem', root, w, k) == Node(mem, root, w, k)
  }

  lemma ProgressStart(mem: Memory, s: seq<Option<nat>>, root: nat, first: nat, pa: nat, perm: nat, noAllocator: bool)
    requires Tree(mem, root) && Fresh(mem, root, s)
    ensures Progress(mem, s, mem, s, root, first, 0, pa, perm, noAllocator)
  {
  }

  lemma ProgressTree(mem: Memory, s: seq<Option<nat>>, mem': Memory, s': seq<Option<nat>>, root: nat,
                     first: nat, n: nat, pa: nat, perm: nat, noAllocator: bool)
    requires Progress(mem, s, mem', s', root, first, n, pa, perm, noAllocator)
    ensures Tree(mem', root) && Fresh(mem', root, s')
    ensures forall v: Path :: Node(mem', root, v, 3).Some? ==> Node(mem', root, v, 3).value < NPAGES
  {
  }

  lemma ProgressExtend(mem: Memory, s: seq<Option<nat>>, m1: Memory, s1: seq<Option<nat>>, m2: Memory,
                       s2: seq<Option<nat>>, root: nat, first: nat, n: nat, pa: nat, perm: nat, noAllocator: bool)
    requires Progress(mem, s, m1, s1, root, first, n, pa, perm, noAllocator)
    requires Extended(m1, s1, m2, s2, root)
    requires noAllocator || !HasP(perm) ==> m2 == m1 && s2 == s1
    ensures Progress(mem, s, m2, s2, root, first, n, pa, perm, noAllocator)
  {
  }

  lemma EffectSkip(mem: Memory, mem': Memory, root: nat, first: nat, n: nat, pa: nat, perm: nat)
    requires MapEffect(mem, mem', root, first, first + n, pa, perm) && SameNodes(mem, mem', root)
    requires first + n < VPN_LIMIT && !HasP(perm) && Node(mem', root, PathOf(first + n), 3) == None
    ensures MapEffect(mem, mem', root, first, first + n + 1, pa, perm)
  {
    forall v: Path
      ensures Leaf(mem', root, v) ==
        if first <= Number(v) < first + n + 1 then (if Node(mem, root, v, 3).Some? then perm else 0)
        else Leaf(mem, root, v)
    {
      PathNumber(v);
    }
  }

  lemma LeavesSkip(mem: Memory, mem': Memory, root: nat, first: nat, n: nat)
    requires OnlyLeavesWritten(mem, mem', root, first, first + n)
    ensures OnlyLeavesWritten(mem, mem', root, first, first + n + 1)
  {
  }

  lemma ProgressSkip(mem: Memory, s: seq<Option<nat>>, mem': Memory, s': seq<Option<nat>>, root: nat,
                     first: nat, n: nat, pa: nat, perm: nat, noAllocator: bool)
    requires Progress(mem, s, mem', s', root, first, n, pa, perm, noAllocator)
    requires first + n < VPN_LIMIT && !HasP(perm) && Node(mem', root, PathOf(first + n), 3) == None
    ensures Progress(mem, s, mem', s', root, first, n + 1, pa, perm, noAllocator)
  {
    hide Tree, Fresh, OnlyTablesWritten, MapEffect, OnlyLeavesWritten;
    EffectSkip(mem, mem', root, first, n, pa, perm);
    LeavesSkip(mem, mem', root, first, n);
  }

  /** `m2` is `m1` with the leaf entry of page number `n` replaced by `e`. */
  ghost predicate Written(m1: Memory, m2: Memory, root: nat, n: nat, p: nat, e: nat) {
    n < VPN_LIMIT && p < NPAGES && Node(m1, root, PathOf(n), 3) == Some(p)
    && m2 == m1[NENTRIES * p + PathOf(n).i3 := e]
  }

  lemma EffectWrite(mem: Memory, m1: Memory, m2: Memory, root: nat, first: nat, n: nat, pa: nat, perm: nat, p: nat)
    requires Tree(m1, root) && MapEffect(mem, m1, root, first, first + n, pa, perm)
    requires !HasP(perm) ==> SameNodes(mem, m1, root)
    requires Written(m1, m2, root, first + n, p, if HasP(perm) then pa + PAGESIZE * n + perm else perm)
    ensures MapEffect(mem, m2, root, first, first + n + 1, pa, perm)
  {
    var v, e := PathOf(first + n), if HasP(perm) then pa + PAGESIZE * n + perm else perm;
    NumberPath(first + n);
    forall w: Path
      ensures Leaf(m2, root, w) == if w == v then e else Leaf(m1, root, w)
      ensures Number(w) == first + n <==> w == v
    {
      PathNumber(w);
      LeafWriteLeaf(m1, m2, root, v, p, e, w);
    }
  }

  lemma LeavesWrite(mem: Memory, m1: Memory, m2: Memory, root: nat, first: nat, n: nat, p: nat, e: nat)
    requires OnlyLeavesWritten(mem, m1, root, first, first + n) && SameNodes(mem, m1, root)
    requires Written(m1, m2, root, first + n, p, e)
    ensures OnlyLeavesWritten(mem, m2, root, first, first + n + 1)
  {
    hide PathOf, Number, Node;
    NumberPath(first + n);
    forall q: nat, i: Index | q < NPAGES && Entry(m2, q, i) != Entry(mem, q, i)
      ensures exists v: Path :: Node(mem, root, v, 3) == Some(q) && v.i3 == i && first <= Number(v) < first + n + 1
    {
      if q == p && i == PathOf(first + n).i3 {
        assert Node(m1, root, PathOf(first + n), 3) == Node(mem, root, PathOf(first + n), 3);
      } else {
        assert Entry(m2, q, i) == Entry(m1, q, i);
        var v: Path :| Node(mem, root, v, 3) == Some(q) && v.i3 == i && first <= Number(v) < first + n;
      }
    }
  }

  lemma TablesWrite(mem: Memory, s: seq<Option<nat>>, m1: Memory, m2: Memory, s1: seq<Option<nat>>, root: nat, n: nat,
                    p: nat, e: nat)
    requires Tree(m1, root) && Fresh(m1, root, s1) && Written(m1, m2, root, n, p, e)
    requires forall q: nat :: InTree(m1, root, q) ==> InTree(mem, root, q) || Some(q) in s
    requires OnlyTablesWritten(mem, m1, root, s)
    ensures Tree(m2, root) && SameNodes(m1, m2, root) && Fresh(m2, root, s1)
    ensures forall q: nat :: InTree(m2, root, q) ==> InTree(mem, root, q) || Some(q) in s
    ensures OnlyTablesWritten(mem, m2, root, s)
  {
    hide Node, NoAlias, InnerOpen, InRange, PathOf, Leaf;
    LeafWrite(m1, m2, root, PathOf(n), p, e);
    SameTables(m1, m2, root);
    assert InTree(m1, root, p);
  }

  lemma SameTables(mem: Memory, mem': Memory, root: nat)
    requires SameNodes(mem, mem', root)
    ensures forall q: nat :: InTree(mem', root, q) <==> InTree(mem, root, q)
  {
  }

  lemma ProgressWrite(mem: Memory, s: seq<Option<nat>>, m1: Memory, m2: Memory, s': seq<Option<nat>>, root: nat,
                      first: nat, n: nat, pa: nat, perm: nat, noAllocator: bool, p: nat, cached: nat)
    requires Progress(mem, s, m1, s', root, first, n, pa, perm, noAllocator)
    requires Written(m1, m2, root, first + n, p, if HasP(perm) then pa + PAGESIZE * n + perm else perm)
    ensures Progress(mem, s, m2, s', root, first, n + 1, pa, perm, noAllocator)
    ensures Node(m2, root, PathOf(cached), 3) == Node(m1, root, PathOf(cached), 3)
  {
    hide Tree, Fresh, OnlyTablesWritten, MapEffect, OnlyLeavesWritten, Written;
    var e := if HasP(perm) then pa + PAGESIZE * n + perm else perm;
    EffectWrite(mem, m1, m2, root, first, n, pa, perm, p);
    TablesWrite(mem, s, m1, m2, s', root, first + n, p, e);
    if noAllocator || !HasP(perm) {
      LeavesWrite(mem, m1, m2, root, first, n, p, e);
    }
  }

  /** A table whose level-1 entry forbids writing and whose other entries
      allow it: the lookup reports a writable page that the processor would
      refuse to write. */
  lemma ReportedWOverstates(mem: Memory, v: Path)
    requires v == Path(0, 0, 0, 0)
    requires Entry(mem, 0, 0) == PAGESIZE + PTE_P + PTE_U
    requires Entry(mem, 1, 0) == 2 * PAGESIZE + PTE_PWU
    requires Entry(mem, 2, 0) == 3 * PAGESIZE + PTE_PWU
    requires Entry(mem, 3, 0) == PTE_PWU
    ensures ReportedW(mem, 0, v) && !Writable(mem, 0, v)
  {
    FrameFlags(1, 5);
    FrameFlags(2, 7);
    FrameFlags(3, 7);
    FrameFlags(0, 7);
    assert Node(mem, 0, v, 1) == Some(1);
    assert Node(mem, 0, v, 2) == Some(2);
    assert Node(mem, 0, v, 3) == Some(3);
    assert !HasW(PathEntry(mem, 0, v, 0));
  }

  // ---------------------------------------------------------- physical memory

  class PhysicalMemory {
    const cell: array<nat>

    ghost predicate Valid() { cell.Length == NCELLS }

    ghost function Snapshot(): Memory
      requires Valid()
      reads cell
    {
      cell[..]
    }

    constructor ()
      ensures Valid() && fresh(cell)
    {
      cell := new nat[NCELLS];
    }

    /** `memset(page, 0, PAGESIZE)` */
    method ClearPage(p: nat)
      requires Valid() && p < NPAGES
      modifies cell
      ensures forall r: nat, i: Index :: r < NPAGES ==>
        Entry(Snapshot(), r, i) == if r == p then 0 else old(Entry(Snapshot(), r, i))
    {
      forall i | 0 <= i < NENTRIES { cell[NENTRIES * p + i] := 0; }
    }

    method Store(p: nat, i: Index, e: nat)
      requires Valid() && p < NPAGES
      modifies cell
      ensures Snapshot() == old(Snapshot())[NENTRIES * p + i := e]
      ensures forall r: nat, j: Index :: r < NPAGES ==>
        Entry(Snapshot(), r, j) == if r == p && j == i then e else old(Entry(Snapshot(), r, j))
    {
      cell[NENTRIES * p + i] := e;
    }

    /** The allocating branch of `lookup_l4pagetable`. */
    method AllocateTable(root: nat, ghost v: Path, i: nat, pt: nat, index: Index, source: PageSource)
        returns (page: Option<nat>)
      requires Valid() && Tree(Snapshot(), root) && Fresh(Snapshot(), root, source.answers)
      requires i < 3 && Node(Snapshot(), root, v, i) == Some(pt) && pt < NPAGES && index == Ix(v, i)
      requires !HasP(Entry(Snapshot(), pt, index))
      modifies cell, source
      ensures Extended(old(Snapshot()), old(source.answers), Snapshot(), source.answers, root)
      ensures page.Some? ==> Node(Snapshot(), root, v, i + 1) == page
      ensures page == None ==> Snapshot() == old(Snapshot())
      ensures page == Answer(old(source.answers), 0) && Drawn(old(source.answers), source.answers, 1, page == None)
    {
      ghost var answers := source.answers;
      page := source.Next();
      if page.Some? {
        assert InTree(old(Snapshot()), root, pt);
        var q := page.value;
        Store(pt, index, InnerEntry(q));
        ClearPage(q);
        LinkExtends(old(Snapshot()), answers, Snapshot(), root, v, i);
      }
    }

    /** `lookup_l4pagetable`: without a table only when a present mapping is
        not asked for, or there is no allocator, or it refused. */
    method LookupL4(root: nat, va: nat, perm: nat, source: PageSource?) returns (l4: Option<nat>, ghost calls: nat)
      requires Valid() && Tree(Snapshot(), root)
      requires Fresh(Snapshot(), root, Supply(source))
      modifies cell, source
      ensures Extended(old(Snapshot()), old(Supply(source)), Snapshot(), Supply(source), root)
      ensures l4 == Node(Snapshot(), root, PathOf(va / PAGESIZE), 3)
      ensures source == null || !HasP(perm) ==> Snapshot() == old(Snapshot()) && Supply(source) == old(Supply(source))
      ensures calls <= 3 && Drawn(old(Supply(source)), Supply(source), calls,
        l4 == None && HasP(perm) && source != null)
    {
      hide Tree, Fresh, Extended, PathOf, Drawn;
      ExtendedStart(Snapshot(), Supply(source), root);
      NothingDrawn(Supply(source));
      ghost var v := PathOf(va / PAGESIZE);
      var pt := root;
      calls := 0;
      for i := 0 to 3
        invariant Extended(old(Snapshot()), old(Supply(source)), Snapshot(), Supply(source), root)
        invariant Node(Snapshot(), root, v, i) == Some(pt)
        invariant source == null || !HasP(perm) ==>
          Snapshot() == old(Snapshot()) && Supply(source) == old(Supply(source))
        invariant calls <= i && Drawn(old(Supply(source)), Supply(source), calls, false)
      {
        PageIndexIsPath(va, i);
        ExtendedTree(old(Snapshot()), old(Supply(source)), Snapshot(), Supply(source), root, v, i);
        var pe := cell[NENTRIES * pt + PageIndex(va, i)];
        if HasP(pe) {
          pt := PageNumber(pe);
        } else {
          ghost var mem, answers := Snapshot(), Supply(source);
          NoPath(mem, root, v, i);
          if !HasP(perm) || source == null {
            return None, calls;
          }
          var page := AllocateTable(root, v, i, pt, PageIndex(va, i), source);
          ExtendedStep(old(Snapshot()), old(Supply(source)), mem, answers, Snapshot(), Supply(source), root);
          DrawnMore(old(Supply(source)), answers, Supply(source), calls, 1, page == None);
          calls := calls + 1;
          if page == None {
            return None, calls;
          }
          pt := page.value;
        }
      }
      l4 := Some(pt);
    }

    /** The variables of the map loop before page `first + pages`. */
    ghost predicate Looked(root: nat, top: nat, first: nat, pages: nat, l4: Option<nat>, lastIndex123: int)
      requires Valid()
      reads cell
    {
      if pages == 0 then lastIndex123 == -1 && l4 == None
      else
        lastIndex123 == ToInt32(0x800_0000 * top + (first + pages - 1) / NENTRIES)
        && l4 == Node(Snapshot(), root, PathOf(first + pages - 1), 3)
    }

    /** The map loop so far: `mem` and `s` are what it started from. */
    ghost predicate Mapping(mem: Memory, s: seq<Option<nat>>, root: nat, first: nat, pages: nat, pa0: nat, perm: nat,
                            source: PageSource?, calls: nat, refused: bool)
      requires Valid()
      reads cell, source
    {
      Progress(mem, s, Snapshot(), Supply(source), root, first, pages, pa0, perm, source == null)
      && Drawn(s, Supply(source), calls, refused)
    }

    /** The table of page `n`, from the round before or looked up now. */
    method FindTable(root: nat, va: nat, perm: nat, source: PageSource?, l4: Option<nat>, lastIndex123: int,
                     ghost top: nat, ghost first: nat, ghost pages: nat, ghost mem: Memory, ghost s: seq<Option<nat>>,
                     ghost pa0: nat, ghost calls: nat)
        returns (l4': Option<nat>, lastIndex': int, ghost calls': nat)
      requires Valid() && va == ADDRESSES * top + PAGESIZE * (first + pages) && first + pages < VPN_LIMIT
      requires Mapping(mem, s, root, first, pages, pa0, perm, source, calls, false)
        && Looked(root, top, first, pages, l4, lastIndex123)
      requires calls <= 3 * Regions(first, pages) && (pages > 0 && HasP(perm) ==> l4.Some?)
      modifies cell, source
      ensures var initial := pages == 0 && InitialIndex(va);
        Mapping(mem, s, root, first, pages, pa0, perm, source, calls',
          l4' == None && HasP(perm) && source != null && !initial)
        && (if initial then l4' == None && lastIndex' == -1 && calls' == 0
              && Snapshot() == old(Snapshot()) && Supply(source) == old(Supply(source))
            else
              l4' == Node(Snapshot(), root, PathOf(first + pages), 3)
              && lastIndex' == ToInt32(0x800_0000 * top + (first + pages) / NENTRIES))
      ensures calls' <= 3 * Regions(first, pages + 1)
    {
      hide Tree, Fresh, Progress, Extended, Node, PathOf, SamePrefix, Drawn, ToInt32, Regions;
      ghost var n := first + pages;
      AddressParts(top, n);
      NextIndex(top, first, pages);
      NothingRegions(first);
      ProgressTree(mem, s, Snapshot(), Supply(source), root, first, pages, pa0, perm, source == null);
      l4', lastIndex', calls' := l4, lastIndex123, calls;
      var curIndex123 := ToInt32(va / 0x20_0000);
      if curIndex123 != lastIndex123 {
        ghost var m1, s1, more := Snapshot(), Supply(source), 0;
        l4', more := LookupL4(root, va, perm, source);
        ProgressExtend(mem, s, m1, s1, Snapshot(), Supply(source), root, first, pages, pa0, perm, source == null);
        DrawnMore(s, s1, Supply(source), calls, more, l4' == None && HasP(perm) && source != null);
        calls' := calls + more;
        lastIndex' := curIndex123;
      } else if pages > 0 {
        PathsDiffer(n, n - 1);
        NodeOfPrefix(Snapshot(), root, PathOf(n), PathOf(n - 1), 3);
      }
    }

    /** The store of one round; it fails only without a table. */
    method MapPage(root: nat, va: nat, pa: nat, perm: nat, l4: Option<nat>, source: PageSource?, ghost top: nat,
                   ghost first: nat, ghost pages: nat, ghost mem: Memory, ghost s: seq<Option<nat>>, ghost pa0: nat,
                   ghost calls: nat, ghost refused: bool, ghost skip: bool)
        returns (ok: bool)
      requires Valid() && va == ADDRESSES * top + PAGESIZE * (first + pages) && first + pages < VPN_LIMIT
        && perm < PAGESIZE
      requires HasP(perm) ==> pa == pa0 + PAGESIZE * pages
      requires Mapping(mem, s, root, first, pages, pa0, perm, source, calls, refused)
      requires if skip then l4 == None && !HasP(perm)
        else (l4 == None && HasP(perm)) || (l4 == Node(Snapshot(), root, PathOf(first + pages), 3) && !refused)
      modifies cell
      ensures ok <==> l4.Some? || !HasP(perm)
      ensures !ok || skip ==> Snapshot() == old(Snapshot())
      ensures ok && !skip ==> Mapping(mem, s, root, first, pages + 1, pa0, perm, source, calls, false)
      ensures ok && !skip ==> l4 == Node(Snapshot(), root, PathOf(first + pages), 3)
    {
      hide Tree, Fresh, Progress, Node, PathOf, SamePrefix, Drawn;
      ghost var n := first + pages;
      AddressParts(top, n);
      PageIndexIsPath(va, 3);
      ghost var m1 := Snapshot();
      ProgressTree(mem, s, m1, Supply(source), root, first, pages, pa0, perm, source == null);
      ok := true;
      if l4.Some? {
        Store(l4.value, PageIndex(va, 3), if HasP(perm) then pa + perm else perm);
        ProgressWrite(mem, s, m1, Snapshot(), Supply(source), root, first, pages, pa0, perm, source == null, l4.value,
          n);
      } else if HasP(perm) {
        ok := false;
      } else if !skip {
        ProgressSkip(mem, s, m1, Supply(source), root, first, pages, pa0, perm, source == null);
      }
    }

    /** `virtual_memory_map`; `pages` counts the pages it got through, `calls`
        those to the allocator.  It fails only for a present mapping: at once
        when the truncated index of the first address is the loop's initial
        one, or without an allocator where there is no table, or when the
        allocator refused one of at most three calls for each level-4 table.
        An unmapping from an address with that index leaves all as it was:
        the range lies in the one table that the loop then never looks up. */
    method Map(root: nat, va0: nat, pa0: nat, sz0: nat, perm: nat, source: PageSource?)
        returns (r: int, ghost pages: nat, ghost calls: nat)
      requires Valid() && Tree(Snapshot(), root) && Fresh(Snapshot(), root, Supply(source))
      requires va0 % PAGESIZE == 0 && sz0 % PAGESIZE == 0 && va0 % ADDRESSES + sz0 <= ADDRESSES
      requires HasP(perm) ==> pa0 % PAGESIZE == 0 && pa0 + sz0 <= MEMSIZE_PHYSICAL
      requires perm < PAGESIZE
      modifies cell, source
      ensures r == 0 || r == -1
      ensures r == 0 ==> pages == sz0 / PAGESIZE
      ensures sz0 > 0 && HasP(perm) && InitialIndex(va0) ==> r == -1 && pages == calls == 0
      ensures r == -1 ==> HasP(perm) && pages < sz0 / PAGESIZE
      ensures r == -1 && !InitialIndex(va0) ==> Node(Snapshot(), root, PathOf(Vpn(va0) + pages), 3) == None
      ensures !HasP(perm) && InitialIndex(va0) ==>
        Snapshot() == old(Snapshot()) && Supply(source) == old(Supply(source))
      ensures HasP(perm) || !InitialIndex(va0) ==>
        Progress(old(Snapshot()), old(Supply(source)), Snapshot(), Supply(source), root, Vpn(va0), pages, pa0, perm,
          source == null)
      ensures Drawn(old(Supply(source)), Supply(source), calls, r == -1 && source != null && !InitialIndex(va0))
      ensures calls <= 3 * Regions(Vpn(va0), sz0 / PAGESIZE)
      // so three answers for each level-4 table are enough
      ensures
        source != null && !InitialIndex(va0) && Answers(old(Supply(source)), 3 * Regions(Vpn(va0), sz0 / PAGESIZE)) ==>
        r == 0
    {
      hide Tree, Fresh, Progress, Node, PathOf, SamePrefix, Drawn, ToInt32, Regions;
      ghost var mem, s := Snapshot(), Supply(source);
      var va, pa, sz := va0, pa0, sz0;
      var lastIndex123: int := -1;
      var l4: Option<nat> := None;
      ghost var start, total, top := Vpn(va0), sz0 / PAGESIZE, va0 / ADDRESSES;
      ghost var skip := !HasP(perm) && InitialIndex(va0);
      ghost var first, done: nat := start, 0;   // where mapping began, and the pages mapped
      pages, calls := 0, 0;
      ProgressStart(mem, s, root, first, pa0, perm, source == null);
      NothingDrawn(s);
      NothingRegions(first);
      while sz != 0
        invariant pages <= total && sz == PAGESIZE * (total - pages)
        invariant first + done == start + pages && if skip then done == 0 else first == start
        invariant va == ADDRESSES * top + PAGESIZE * (first + done) && pa == pa0 + PAGESIZE * pages
        invariant Mapping(mem, s, root, first, done, pa0, perm, source, calls, false)
          && Looked(root, top, first, done, l4, lastIndex123)
        invariant calls <= 3 * Regions(first, done)
        invariant skip ==> Snapshot() == mem && Supply(source) == s && calls == 0
        invariant done > 0 ==> !InitialIndex(va0) && (HasP(perm) ==> l4.Some?)
        decreases total - pages
      {
        hide Mapping, Looked;
        if skip { InitialIndexLast(top, start, pages); }
        RegionsMore(first, done + 1, done + total - pages);
        l4, lastIndex123, calls :=
          FindTable(root, va, perm, source, l4, lastIndex123, top, first, done, mem, s, pa0, calls);
        ghost var refused := l4 == None && HasP(perm) && source != null && !(pages == 0 && InitialIndex(va0));
        var ok := MapPage(root, va, pa, perm, l4, source, top, first, done, mem, s, pa0, calls, refused, skip);
        if !ok {
          EnoughAnswers(s, Supply(source), calls, refused, 3 * Regions(start, total));
          return -1, pages, calls;
        }
        va, pa, sz := va + PAGESIZE, pa + PAGESIZE, sz - PAGESIZE;
        pages := pages + 1;
        if skip {
          first := first + 1;
          ProgressStart(mem, s, root, first, pa0, perm, source == null);
        } else {
          done := done + 1;
        }
      }
      r := 0;
    }

    /** `virtual_memory_lookup`, on any table whose entries stay inside
        physical memory. */
    method Lookup(root: nat, va: nat) returns (vam: VaMapping)
      requires Valid() && InRange(Snapshot(), root)
      ensures vam == UNMAPPED <==> !HasP(Leaf(Snapshot(), root, PathOf(va / PAGESIZE)))
      ensures vam != UNMAPPED ==>
        var e := Leaf(Snapshot(), root, PathOf(va / PAGESIZE));
        vam.pn == PageNumber(e) && vam.pa == PteAddr(e) + va % PAGESIZE && HasP(vam.perm)
        && HasW(vam.perm) == ReportedW(Snapshot(), root, PathOf(va / PAGESIZE))
        && HasU(vam.perm) == ReportedU(Snapshot(), root, PathOf(va / PAGESIZE))
      ensures Tree(Snapshot(), root) ==> vam == Translate(Snapshot(), root, va)
    {
      hide NoAlias, InnerOpen, PathOf;
      ghost var mem, v := Snapshot(), PathOf(va / PAGESIZE);
      var pt, pe := root, PTE_PWU;
      var i := 0;
      while i <= 3 && HasP(pe)
        invariant i <= 4 && pe == Masked(mem, root, v, i)
        invariant HasP(pe) ==> (i <= 3 ==> Node(mem, root, v, i) == Some(pt))
        invariant i > 0 && HasP(pe) ==> HasP(PathEntry(mem, root, v, i - 1))
        invariant !HasP(pe) ==> !HasP(Leaf(mem, root, v))
        decreases 4 - i
      {
        PageIndexIsPath(va, i);
        ghost var mask := pe;
        pe := ClearWU(cell[NENTRIES * pt + PageIndex(va, i)], pe);
        ClearWUFlags(PathEntry(mem, root, v, i), mask);
        if !HasP(pe) && i < 3 { NoPath(mem, root, v, i); }
        pt := PageNumber(pe);
        i := i + 1;
      }
      vam := UNMAPPED;
      if HasP(pe) {
        vam := VaMapping(PageNumber(pe), PteAddr(pe) + va % PAGESIZE, PteFlags(pe));
        MaskedFlags(mem, root, v);
        if Tree(mem, root) { MaskedInTree(mem, root, v); }
      }
    }
  }

  /** A missing entry at level `k` leaves nothing below it. */
  lemma NoPath(mem: Memory, root: nat, v: Path, k: nat)
    requires k < 3 && Node(mem, root, v, k).Some? && Node(mem, root, v, k).value < NPAGES
    requires !HasP(Entry(mem, Node(mem, root, v, k).value, Ix(v, k)))
    ensures Node(mem, root, v, 3) == None
  {
    assert Node(mem, root, v, k + 1) == None;
    assert k == 0 ==> Node(mem, root, v, 2) == None;
  }
}

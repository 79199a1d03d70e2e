/** Page ownership and process isolation in the kernel of pset4/kernel.c:
    boot, process set-up, and the page-allocation, yield, timer, getpid and
    page-fault exceptions, as a machine whose every run keeps `Inv`. */
module KernelState {
  import opened Basics
  import opened PageTable
  import opened TableShape

  const NPROC: nat := 16
  const PO_FREE: int := 0
  const PO_RESERVED: int := -1
  const PO_KERNEL: int := -2
  const CONSOLE: nat := 0xB8          // page of 0xB8000
  const PROC_START: nat := 0x100      // page of PROC_START_ADDR
  const MEMSIZE_VIRTUAL: nat := 0x30_0000
  const KERNEL_START: nat := 0x40     // page of KERNEL_START_ADDR
  const KERNEL_STACK: nat := 0x7F     // page below KERNEL_STACK_TOP
  const UINT64_MAX: nat := 0xFFFF_FFFF_FFFF_FFFF

  /** kernel_pagetables[0..5); setup_pagetable names pages 0x5B and 0x5C of it
      by the constants 372775 and 376871. */
  const KERNEL_TABLES: Tables := Tables(0x59, 0x5A, 0x5B, 0x5C, 0x5D)

  datatype PageInfo = PageInfo(owner: int, refcount: int)
  datatype ProcState = P_FREE | P_RUNNABLE | P_BLOCKED | P_BROKEN
  datatype Proc = Proc(state: ProcState, root: nat, rax: nat)

  /** Everything the invariant talks about; `tables[pid]` are the five pages
      of the page table rooted at `proc[pid].root`. */
  datatype Machine = Machine(mem: Memory, info: seq<PageInfo>, proc: seq<Proc>, tables: seq<Tables>)

  predicate IsReserved(p: nat) { p == 0 || 0xA0 <= p < 0x100 }

  /** Where the linker puts the kernel: its data and its end, and the two
      procedures that set_pagetable looks for. */
  datatype Layout = Layout(startData: nat, end: nat, handler: nat, mapper: nat)

  /** Kernel code, data and stack. */
  predicate IsKernelPage(lay: Layout, p: nat) {
    (KERNEL_START <= p && PAGESIZE * p < lay.end) || p == KERNEL_STACK
  }

  predicate IsDataPage(lay: Layout, p: nat) { PAGESIZE * p >= lay.startData || p == KERNEL_STACK }

  /** The kernel image covers its page tables and its procedures and stays
      below its stack. */
  predicate GoodLayout(lay: Layout) {
    0x5_E000 <= lay.end <= 0x7_F000
    && IsKernelPage(lay, lay.handler / PAGESIZE) && IsKernelPage(lay, lay.mapper / PAGESIZE)
  }

  predicate Owned(m: Machine, pid: int, p: nat)
    requires |m.info| == NPAGES
  {
    p < NPAGES && m.info[p] == PageInfo(pid, 1)
  }

  predicate Live(m: Machine, pid: int) { 0 < pid < NPROC && pid < |m.proc| && m.proc[pid].state != P_FREE }

  predicate Sized(m: Machine) { |m.info| == NPAGES && |m.proc| == NPROC && |m.tables| == NPROC }

  /** `pid` is the process being set up, or 0. */
  predicate InfoOk(m: Machine, lay: Layout, pid: int, p: nat)
    requires Sized(m) && p < NPAGES
  {
    if IsReserved(p) then m.info[p] == PageInfo(PO_RESERVED, 1)
    else if IsKernelPage(lay, p) then m.info[p] == PageInfo(PO_KERNEL, 1)
    else
      (m.info[p] == PageInfo(PO_FREE, 0)
       || (m.info[p].refcount == 1 && 0 < m.info[p].owner < NPROC
         && (Live(m, m.info[p].owner) || m.info[p].owner == pid)))
  }

  ghost predicate PagesOk(m: Machine, lay: Layout, pid: int)
    requires Sized(m)
  {
    forall p: nat :: p < NPAGES ==> InfoOk(m, lay, pid, p)
  }

  /** Identity map of physical memory; below PROC_START_ADDR only the console
      is user-accessible. */
  function KernelLeaf(n: nat): nat {
    if n < NPAGES then PAGESIZE * n + (if n < PROC_START && n != CONSOLE then PTE_P + PTE_W else PTE_PWU)
    else 0
  }

  ghost predicate KernelTableOk(mem: Memory) {
    Shape(mem, KERNEL_TABLES) && forall n: nat :: n < SPAN ==> LeafAt(mem, KERNEL_TABLES, n) == KernelLeaf(n)
  }

  /** A page that user code of `pid` can reach is the console or a page of
      `pid` that is not one of its page tables. */
  predicate UserLeafOk(m: Machine, pid: int, t: Tables, e: nat)
    requires Sized(m)
  {
    HasP(e) && HasU(e) ==> PageNumber(e) == CONSOLE || (Owned(m, pid, PageNumber(e)) && !Among(t, PageNumber(e)))
  }

  ghost predicate OwnsTables(m: Machine, pid: int, t: Tables)
    requires Sized(m)
  {
    Owned(m, pid, t.l0) && Owned(m, pid, t.l1) && Owned(m, pid, t.l2) && Owned(m, pid, t.l3) && Owned(m, pid, t.l4)
  }

  ghost predicate TableOk(m: Machine, pid: int, t: Tables)
    requires Sized(m)
  {
    Shape(m.mem, t) && OwnsTables(m, pid, t)
    && forall n: nat :: n < SPAN ==> UserLeafOk(m, pid, t, LeafAt(m.mem, t, n))
  }

  ghost predicate ProcOk(m: Machine, pid: int)
    requires Sized(m) && 0 <= pid < NPROC
  {
    m.proc[pid].root == m.tables[pid].l0 && TableOk(m, pid, m.tables[pid])
  }

  ghost predicate Inv(m: Machine, lay: Layout, pid: int) {
    GoodLayout(lay) && Sized(m) && m.proc[0].state == P_FREE
    && PagesOk(m, lay, pid) && KernelTableOk(m.mem)
    && forall q: int :: Live(m, q) ==> ProcOk(m, q)
  }

  // ------------------------------------------------------------- isolation

  /** A user-accessible translation of process `p`. */
  ghost predicate UserReaches(m: Machine, p: int, va: nat, pn: nat)
    requires Sized(m) && 0 <= p < NPROC
  {
    va / PAGESIZE < VPN_LIMIT
    && var e := Leaf(m.mem, m.proc[p].root, PathOf(va / PAGESIZE));
       HasP(e) && HasU(e) && PageNumber(e) == pn
  }

  lemma UserReachesOwn(m: Machine, lay: Layout, p: int, va: nat, pn: nat)
    requires Inv(m, lay, 0) && Live(m, p) && UserReaches(m, p, va, pn) && pn != CONSOLE
    ensures Owned(m, p, pn) && !Among(m.tables[p], pn)
  {
    assert ProcOk(m, p);
    ShapeLeaf(m.mem, m.tables[p], va / PAGESIZE);
    LinkEntry(0);
    hide Shape, PathOf, Leaf, LeafAt;
  }

  /** Process isolation: what one process can reach, apart from the console,
      it owns; no other process can reach it, and it is no page table of any
      process or of the kernel. */
  lemma Isolation(m: Machine, lay: Layout, p: int, va: nat, pn: nat, q: int, va': nat)
    requires Inv(m, lay, 0) && Live(m, p) && Live(m, q) && UserReaches(m, p, va, pn) && pn != CONSOLE
    ensures Owned(m, p, pn)
    ensures q != p ==> !UserReaches(m, q, va', pn)
    ensures !Among(m.tables[q], pn) && !Among(KERNEL_TABLES, pn)
  {
    UserReachesOwn(m, lay, p, va, pn);
    if q != p && UserReaches(m, q, va', pn) {
      UserReachesOwn(m, lay, q, va', pn);
      assert false;
    }
    assert ProcOk(m, q);
    hide Shape, UserReaches;
    assert InfoOk(m, lay, 0, pn);
  }

  // ------------------------------------------------------------ small steps

  /** Tables and their leaves survive a step that leaves the table pages and
      the ownership of `pid` alone. */
  lemma TableFrame(m: Machine, m': Machine, pid: int, t: Tables, changed: set<nat>)
    requires Sized(m) && Sized(m') && TableOk(m, pid, t)
    requires SameOutside(m.mem, m'.mem, changed)
    requires t.l0 !in changed && t.l1 !in changed && t.l2 !in changed && t.l3 !in changed && t.l4 !in changed
    requires forall p: nat :: Owned(m, pid, p) ==> Owned(m', pid, p)
    ensures TableOk(m', pid, t)
  {
    ShapeFrame(m.mem, m'.mem, t, changed);
    hide Shape, SameOutside;
    forall n: nat | n < SPAN
      ensures UserLeafOk(m', pid, t, LeafAt(m'.mem, t, n))
    {
      assert UserLeafOk(m, pid, t, LeafAt(m.mem, t, n));
    }
  }

  lemma ShapeFrame(mem: Memory, mem': Memory, t: Tables, changed: set<nat>)
    requires Shape(mem, t) && SameOutside(mem, mem', changed)
    requires t.l0 !in changed && t.l1 !in changed && t.l2 !in changed && t.l3 !in changed && t.l4 !in changed
    ensures Shape(mem', t)
    ensures forall n: nat :: n < SPAN ==> LeafAt(mem', t, n) == LeafAt(mem, t, n)
  {
  }

  lemma KernelTableFrame(mem: Memory, mem': Memory, changed: set<nat>)
    requires KernelTableOk(mem) && SameOutside(mem, mem', changed)
    requires forall p :: p in changed ==> !Among(KERNEL_TABLES, p)
    ensures KernelTableOk(mem')
  {
  }

  /** Pages of the kernel's tables are never those of a process, nor free. */
  lemma KernelTablesReserved(m: Machine, lay: Layout, pid: int, p: nat)
    requires GoodLayout(lay) && Sized(m) && PagesOk(m, lay, pid) && Among(KERNEL_TABLES, p)
    ensures m.info[p] == PageInfo(PO_KERNEL, 1)
  {
    assert InfoOk(m, lay, pid, p);
  }

  /** Giving a free page to `pid`. */
  function Claim(m: Machine, pid: int, p: nat): Machine
    requires p < |m.info|
  {
    m.(info := m.info[p := PageInfo(pid, 1)])
  }

  lemma ClaimPages(m: Machine, lay: Layout, setup: int, pid: int, p: nat)
    requires Sized(m) && PagesOk(m, lay, setup) && p < NPAGES && m.info[p].refcount == 0
    requires 0 < pid < NPROC && (Live(m, pid) || pid == setup)
    ensures PagesOk(Claim(m, pid, p), lay, setup)
  {
    var m' := Claim(m, pid, p);
    forall q: nat | q < NPAGES
      ensures InfoOk(m', lay, setup, q)
    {
      assert InfoOk(m, lay, setup, q) && InfoOk(m, lay, setup, p);
    }
  }

  lemma ClaimInv(m: Machine, lay: Layout, setup: int, pid: int, p: nat)
    requires Inv(m, lay, setup) && p < NPAGES && m.info[p].refcount == 0
    requires 0 < pid < NPROC && (Live(m, pid) || pid == setup)
    ensures Inv(Claim(m, pid, p), lay, setup)
  {
    var m' := Claim(m, pid, p);
    ClaimPages(m, lay, setup, pid, p);
    hide KernelTableOk, PagesOk;
    forall q: int | Live(m', q)
      ensures ProcOk(m', q)
    {
      assert Live(m, q) && ProcOk(m, q);
      TableFrame(m, m', q, m.tables[q], {});
    }
  }

  /** A write to pages of `pid` (and the console) leaves every other process
      and the kernel as they were. */
  lemma OtherTables(m: Machine, m': Machine, lay: Layout, setup: int, pid: int, changed: set<nat>)
    requires Inv(m, lay, setup) && m' == m.(mem := m'.mem) && pid > 0
    requires SameOutside(m.mem, m'.mem, changed)
    requires forall p :: p in changed ==> p == CONSOLE || Owned(m, pid, p)
    ensures PagesOk(m', lay, setup) && KernelTableOk(m'.mem)
    ensures forall q: int :: Live(m', q) && q != pid ==> ProcOk(m', q)
  {
    hide SameOutside, KernelTableOk, TableOk;
    assert PagesOk(m', lay, setup) by {
      forall p: nat | p < NPAGES ensures InfoOk(m', lay, setup, p) { assert InfoOk(m, lay, setup, p); }
    }
    forall p | p in changed
      ensures !Among(KERNEL_TABLES, p)
    {
      if Among(KERNEL_TABLES, p) { KernelTablesReserved(m, lay, setup, p); }
    }
    KernelTableFrame(m.mem, m'.mem, changed);
    assert InfoOk(m, lay, setup, CONSOLE);
    forall q: int | Live(m', q) && q != pid
      ensures ProcOk(m', q)
    {
      assert Live(m, q) && ProcOk(m, q);
      TableOwned(m, q, m.tables[q]);
      TableFrame(m, m', q, m.tables[q], changed);
    }
  }

  lemma TableOwned(m: Machine, pid: int, t: Tables)
    requires Sized(m) && TableOk(m, pid, t)
    ensures OwnsTables(m, pid, t) && Shape(m.mem, t) && Distinct(t)
  {
  }

  /** Remapping part of the address space of `pid`. */
  lemma RemapOwn(m: Machine, m': Machine, pid: int, t: Tables, first: nat, last: nat, pa: nat, perm: nat)
    requires Sized(m) && m' == m.(mem := m'.mem) && TableOk(m, pid, t)
    requires Shape(m'.mem, t) && Remapped(m.mem, m'.mem, t, first, last, pa, perm)
    requires forall n: nat :: first <= n < last && n < SPAN ==>
      UserLeafOk(m, pid, t, RemappedLeaf(0, first, last, pa, perm, n))
    ensures TableOk(m', pid, t)
  {
    hide Shape, LeafAt;
    forall n: nat | n < SPAN
      ensures UserLeafOk(m', pid, t, LeafAt(m'.mem, t, n))
    {
      assert UserLeafOk(m, pid, t, LeafAt(m.mem, t, n));
      assert first <= n < last ==> UserLeafOk(m, pid, t, RemappedLeaf(0, first, last, pa, perm, n));
      assert LeafAt(m'.mem, t, n) == RemappedLeaf(LeafAt(m.mem, t, n), first, last, pa, perm, n);
    }
  }

  /** A map into the table of `pid` of pages that `pid` may reach. */
  lemma MappedInv(m: Machine, m': Machine, lay: Layout, setup: int, pid: int, t: Tables, first: nat, last: nat, pa: nat,
                  perm: nat)
    requires Inv(m, lay, setup) && Live(m, pid) && t == m.tables[pid] && m' == m.(mem := m'.mem)
    requires Shape(m'.mem, t) && Remapped(m.mem, m'.mem, t, first, last, pa, perm)
      && SameOutside(m.mem, m'.mem, {t.l3, t.l4})
    requires forall n: nat :: first <= n < last && n < SPAN ==>
      UserLeafOk(m, pid, t, RemappedLeaf(0, first, last, pa, perm, n))
    ensures Inv(m', lay, setup)
  {
    hide KernelTableOk, PagesOk, Shape, SameOutside, Remapped, TableOk, UserLeafOk;
    assert ProcOk(m, pid);
    TableOwned(m, pid, t);
    OtherTables(m, m', lay, setup, pid, {t.l3, t.l4});
    RemapOwn(m, m', pid, t, first, last, pa, perm);
  }

  /** A page that was free a moment ago is no table of its new owner. */
  lemma ClaimedPage(m: Machine, pid: int, t: Tables, p: nat, n: nat, perm: nat)
    requires Sized(m) && OwnsTables(m, pid, t) && p < NPAGES && m.info[p].refcount == 0
    requires perm < PAGESIZE
    ensures UserLeafOk(Claim(m, pid, p), pid, t, RemappedLeaf(0, n, n + 1, PAGESIZE * p, perm, n))
  {
  }

  function SetRax(m: Machine, pid: int, value: nat): Machine
    requires 0 <= pid < |m.proc|
  {
    m.(proc := m.proc[pid := m.proc[pid].(rax := value)])
  }

  lemma RaxInv(m: Machine, lay: Layout, pid: int, value: nat)
    requires Inv(m, lay, 0) && Live(m, pid)
    ensures Inv(SetRax(m, pid, value), lay, 0)
  {
    StateInv(m, SetRax(m, pid, value), lay);
  }

  /** Registers, and states other than free, do not matter to the invariant. */
  lemma StateInv(m: Machine, m': Machine, lay: Layout)
    requires Inv(m, lay, 0) && Sized(m') && m' == m.(proc := m'.proc)
    requires forall q :: 0 <= q < NPROC ==> m'.proc[q].root == m.proc[q].root
    requires forall q :: 0 <= q < NPROC ==> (m'.proc[q].state == P_FREE <==> m.proc[q].state == P_FREE)
    ensures Inv(m', lay, 0)
  {
    hide KernelTableOk;
    forall p: nat | p < NPAGES ensures InfoOk(m', lay, 0, p) { assert InfoOk(m, lay, 0, p); }
    forall q: int | Live(m', q) ensures ProcOk(m', q) {
      assert ProcOk(m, q);
      TableFrame(m, m', q, m.tables[q], {});
    }
  }

  /** `pn` is the page that use_any_physical_page picks. */
  ghost predicate LowestFree(m: Machine, pn: nat)
    requires Sized(m)
  {
    pn < NPAGES && m.info[pn].refcount == 0 && forall p: nat :: p < pn ==> m.info[p].refcount != 0
  }

  /** `m'` is `m` with free page `pn` given to `pid` and mapped, for user
      reading and writing, at virtual page `n` if the tables reach that far. */
  ghost predicate PageMapped(m: Machine, m': Machine, pid: int, n: nat, pn: nat)
    requires Sized(m) && Sized(m') && 0 <= pid < NPROC && pn < NPAGES
  {
    var t := m.tables[pid];
    m'.tables == m.tables && m'.proc == SetRax(m, pid, 0).proc && m'.info == Claim(m, pid, pn).info
    && SameOutside(m.mem, m'.mem, {t.l3, t.l4})
    && Remapped(m.mem, m'.mem, t, n, n + 1, PAGESIZE * pn, PTE_PWU)
  }

  // ------------------------------------------------- check_virtual_memory

  /** `check_page_table_mappings`: kernel pages are identity-mapped, and
      those of data and the stack are writable. */
  ghost predicate MappingsOk(mem: Memory, root: nat, lay: Layout) {
    forall p: nat :: IsKernelPage(lay, p) ==> MappingOk(mem, root, lay, p)
  }

  ghost predicate MappingOk(mem: Memory, root: nat, lay: Layout, p: nat) {
    Identity(mem, root, PAGESIZE * p) && (IsDataPage(lay, p) ==> HasW(Translate(mem, root, PAGESIZE * p).perm))
  }

  ghost predicate Identity(mem: Memory, root: nat, addr: nat) { Translate(mem, root, addr).pa == addr }

  /** The same, read off the level-4 tables. */
  ghost predicate KernelMapped(mem: Memory, t: Tables, lay: Layout) {
    Distinct(t) && forall p: nat :: IsKernelPage(lay, p) ==> KernelLeafOk(LeafAt(mem, t, p), p, IsDataPage(lay, p))
  }

  predicate KernelLeafOk(e: nat, p: nat, data: bool) { HasP(e) && (data ==> HasW(e)) && PageNumber(e) == p }

  lemma IdentityAt(mem: Memory, t: Tables, addr: nat)
    requires Shape(mem, t) && addr / PAGESIZE < SPAN
    ensures var e := LeafAt(mem, t, addr / PAGESIZE);
      (Identity(mem, t.l0, addr) <==> HasP(e) && PageNumber(e) == addr / PAGESIZE)
      && (HasP(e) ==> HasW(Translate(mem, t.l0, addr).perm) == HasW(e))
  {
    ShapeLeaf(mem, t, addr / PAGESIZE);
    var e := LeafAt(mem, t, addr / PAGESIZE);
    FrameFlags(PageNumber(e), PteFlags(e));
    hide Shape, PathOf, Leaf, LeafAt, HasP, HasW;
  }

  lemma MappingsKernelMapped(mem: Memory, t: Tables, lay: Layout)
    requires Shape(mem, t) && GoodLayout(lay)
    ensures MappingsOk(mem, t.l0, lay) <==> KernelMapped(mem, t, lay)
  {
    ShapeDistinct(mem, t);
    hide Shape, Translate, LeafAt, Identity, HasP, HasW, PageNumber;
    forall p: nat | IsKernelPage(lay, p)
      ensures MappingOk(mem, t.l0, lay, p) <==> KernelLeafOk(LeafAt(mem, t, p), p, IsDataPage(lay, p))
    {
      IdentityAt(mem, t, PAGESIZE * p);
    }
  }

  /** The assertions of `set_pagetable`. */
  ghost predicate Settable(mem: Memory, root: nat, lay: Layout) {
    Identity(mem, root, lay.handler) && Identity(mem, KERNEL_TABLES.l0, PAGESIZE * root)
    && Identity(mem, root, PAGESIZE * KERNEL_TABLES.l0) && Identity(mem, root, lay.mapper)
  }

  /** They hold for every table that maps the kernel. */
  lemma MappedSettable(mem: Memory, t: Tables, lay: Layout)
    requires GoodLayout(lay) && KernelTableOk(mem) && Shape(mem, t) && KernelMapped(mem, t, lay)
    ensures Settable(mem, t.l0, lay)
  {
    ShapeDistinct(mem, t);
    IdentityKernelTable(mem, t.l0);
    hide Shape, LeafAt, HasP, HasW, PageNumber;
    assert KernelLeafOk(LeafAt(mem, t, lay.handler / PAGESIZE), lay.handler / PAGESIZE,
      IsDataPage(lay, lay.handler / PAGESIZE));
    assert KernelLeafOk(LeafAt(mem, t, lay.mapper / PAGESIZE), lay.mapper / PAGESIZE,
      IsDataPage(lay, lay.mapper / PAGESIZE));
    assert KernelLeafOk(LeafAt(mem, t, KERNEL_TABLES.l0), KERNEL_TABLES.l0, IsDataPage(lay, KERNEL_TABLES.l0));
    IdentityAt(mem, t, lay.handler);
    IdentityAt(mem, t, lay.mapper);
    IdentityAt(mem, t, PAGESIZE * KERNEL_TABLES.l0);
  }

  /** `check_page_table_ownership_level` */
  ghost predicate OwnershipLevel(m: Machine, pt: nat, level: nat, owner: int, refcount: int)
    requires Sized(m) && level <= 3
    decreases 3 - level
  {
    pt < NPAGES && m.info[pt] == PageInfo(owner, refcount)
    && (level < 3 ==> forall i: Index :: Entry(m.mem, pt, i) != 0 ==>
          OwnershipLevel(m, PageNumber(Entry(m.mem, pt, i)), level + 1, owner, 1))
  }

  /** How many of the first `n` processes use the kernel's table. */
  function Sharing(m: Machine, n: nat): nat
    requires Sized(m) && n <= NPROC
  {
    if n == 0 then 0
    else Sharing(m, n - 1) + if m.proc[n - 1].state != P_FREE && m.proc[n - 1].root == KERNEL_TABLES.l0 then 1 else 0
  }

  lemma {:induction false} NoSharing(m: Machine, n: nat)
    requires Sized(m) && n <= NPROC
    requires forall q :: 0 <= q < NPROC && m.proc[q].state != P_FREE ==> m.proc[q].root != KERNEL_TABLES.l0
    ensures Sharing(m, n) == 0
  {
    if n > 0 { NoSharing(m, n - 1); }
  }

  /** A process with a page table of its own owns it and maps the kernel. */
  ghost predicate ProcessChecked(m: Machine, lay: Layout, q: int)
    requires Sized(m) && 0 <= q < NPROC
  {
    m.proc[q].state != P_FREE && m.proc[q].root != KERNEL_TABLES.l0 ==>
      MappingsOk(m.mem, m.proc[q].root, lay) && OwnershipLevel(m, m.proc[q].root, 0, q, 1)
  }

  /** A page in use belongs to a process in use. */
  predicate PageChecked(m: Machine, p: nat)
    requires Sized(m) && p < NPAGES
  {
    m.info[p].refcount > 0 && m.info[p].owner >= 0 ==>
      m.info[p].owner < NPROC && m.proc[m.info[p].owner].state != P_FREE
  }

  /** Every assertion of `check_virtual_memory`. */
  ghost predicate CheckVirtualMemory(m: Machine, lay: Layout)
    requires Sized(m)
  {
    m.proc[0].state == P_FREE
    && MappingsOk(m.mem, KERNEL_TABLES.l0, lay)
    && OwnershipLevel(m, KERNEL_TABLES.l0, 0, PO_KERNEL, 1 + Sharing(m, NPROC))
    && (forall q: nat :: q < NPROC ==> ProcessChecked(m, lay, q))
    && (forall p: nat :: p < NPAGES ==> PageChecked(m, p))
  }

  /** The kernel is mapped in every live process. */
  ghost predicate AllMapped(m: Machine, lay: Layout)
    requires Sized(m)
  {
    forall q: int :: Live(m, q) ==> KernelMapped(m.mem, m.tables[q], lay)
  }

  lemma OwnershipFromShape(m: Machine, t: Tables, owner: int)
    requires Sized(m) && Shape(m.mem, t)
    requires Owned(m, owner, t.l0) && Owned(m, owner, t.l1) && Owned(m, owner, t.l2) && Owned(m, owner, t.l3)
      && Owned(m, owner, t.l4)
    ensures OwnershipLevel(m, t.l0, 0, owner, 1)
  {
    LinkEntry(t.l1);
    LinkEntry(t.l2);
    LinkEntry(t.l3);
    LinkEntry(t.l4);
    hide InnerEntry, HasP, HasW, HasU, PageNumber;
    assert OwnershipLevel(m, t.l3, 3, owner, 1) && OwnershipLevel(m, t.l4, 3, owner, 1);
    assert OwnershipLevel(m, t.l2, 2, owner, 1);
    assert OwnershipLevel(m, t.l1, 1, owner, 1);
  }

  lemma KernelTableMapped(mem: Memory, lay: Layout)
    requires KernelTableOk(mem) && GoodLayout(lay)
    ensures MappingsOk(mem, KERNEL_TABLES.l0, lay)
  {
    MappingsKernelMapped(mem, KERNEL_TABLES, lay);
    hide Shape, MappingsOk, LeafAt;
    forall p: nat | IsKernelPage(lay, p)
      ensures KernelLeafOk(LeafAt(mem, KERNEL_TABLES, p), p, IsDataPage(lay, p))
    {
      FrameFlags(p, PTE_P + PTE_W);
    }
  }

  /** In a state that satisfies the invariant, check_virtual_memory passes
      exactly when every live process maps the kernel. */
  lemma CheckPasses(m: Machine, lay: Layout)
    requires Inv(m, lay, 0)
    ensures CheckVirtualMemory(m, lay) <==> AllMapped(m, lay)
  {
    hide Shape, MappingsOk, OwnershipLevel, KernelMapped, KernelLeaf;
    KernelTableMapped(m.mem, lay);
    forall p: nat | Among(KERNEL_TABLES, p) ensures Owned(m, PO_KERNEL, p) { KernelTablesReserved(m, lay, 0, p); }
    OwnershipFromShape(m, KERNEL_TABLES, PO_KERNEL);
    forall q: int | Live(m, q)
      ensures MappingsOk(m.mem, m.proc[q].root, lay) <==> KernelMapped(m.mem, m.tables[q], lay)
      ensures OwnershipLevel(m, m.proc[q].root, 0, q, 1) && m.proc[q].root != KERNEL_TABLES.l0
    {
      assert ProcOk(m, q);
      MappingsKernelMapped(m.mem, m.tables[q], lay);
      OwnershipFromShape(m, m.tables[q], q);
    }
    forall q: int | 0 <= q < NPROC && m.proc[q].state != P_FREE ensures Live(m, q) {}
    NoSharing(m, NPROC);
    forall p: nat | p < NPAGES && m.info[p].owner >= 0 && m.info[p].refcount > 0
      ensures Live(m, m.info[p].owner)
    {
      assert InfoOk(m, lay, 0, p);
    }
    if AllMapped(m, lay) {
      assert CheckVirtualMemory(m, lay);
    }
    if CheckVirtualMemory(m, lay) {
      forall q: int | Live(m, q) ensures KernelMapped(m.mem, m.tables[q], lay) {
        assert ProcessChecked(m, lay, q);
      }
    }
  }

  /** A page allocation keeps the kernel mapped, and check_virtual_memory
      passing, exactly when the process did not ask for a kernel page. */
  lemma PageAllocMapped(m: Machine, m': Machine, lay: Layout, pid: int, n: nat, pn: nat)
    requires Inv(m, lay, 0) && Inv(m', lay, 0) && Live(m, pid) && LowestFree(m, pn) && PageMapped(m, m', pid, n, pn)
    requires AllMapped(m, lay)
    ensures AllMapped(m', lay) <==> !IsKernelPage(lay, n)
    ensures KernelMapped(m'.mem, m'.tables[pid], lay) <==> !IsKernelPage(lay, n)
  {
    var t := m.tables[pid];
    assert ProcOk(m, pid) && ProcOk(m', pid);
    TableOwned(m, pid, t);
    assert InfoOk(m, lay, 0, pn);
    FrameFlags(pn, 7);
    RemappedKernel(m.mem, m'.mem, t, lay, n, pn);
    OthersMapped(m, m.(mem := m'.mem), lay, 0, pid, {t.l3, t.l4});
    hide Shape, LeafAt, KernelMapped, Remapped, SameOutside, TableOk, PagesOk, KernelTableOk;
    assert forall q: int :: Live(m', q) <==> Live(m, q);
    assert Live(m', pid);
  }

  /** A page whose mapping set_pagetable asserts. */
  predicate IsSwitchPage(lay: Layout, n: nat) {
    n == lay.handler / PAGESIZE || n == lay.mapper / PAGESIZE || n == KERNEL_TABLES.l0
  }

  /** After a page allocation the process can be run exactly when it did not
      ask for one of those pages. */
  lemma PageAllocSettable(m: Machine, m': Machine, lay: Layout, pid: int, n: nat, pn: nat)
    requires Inv(m, lay, 0) && Inv(m', lay, 0) && Live(m, pid) && LowestFree(m, pn) && PageMapped(m, m', pid, n, pn)
    requires AllMapped(m, lay)
    ensures Settable(m'.mem, m'.proc[pid].root, lay) <==> !IsSwitchPage(lay, n)
  {
    var t := m.tables[pid];
    assert ProcOk(m, pid) && ProcOk(m', pid) && KernelMapped(m.mem, t, lay);
    TableOwned(m', pid, t);
    assert InfoOk(m, lay, 0, pn);
    FrameFlags(pn, 7);
    forall p: nat | IsSwitchPage(lay, p)
      ensures IsKernelPage(lay, p) && p < SPAN && HasP(LeafAt(m'.mem, t, p))
      ensures PageNumber(LeafAt(m'.mem, t, p)) == p <==> p != n
    {
      assert KernelLeafOk(LeafAt(m.mem, t, p), p, IsDataPage(lay, p));
    }
    IdentityKernelTable(m'.mem, t.l0);
    hide Shape, LeafAt, HasP, PageNumber, KernelMapped, Remapped, SameOutside, TableOk, PagesOk, KernelTableOk;
    IdentityAt(m'.mem, t, lay.handler);
    IdentityAt(m'.mem, t, lay.mapper);
    IdentityAt(m'.mem, t, PAGESIZE * KERNEL_TABLES.l0);
  }

  /** The kernel's own table maps all of physical memory to itself. */
  lemma IdentityKernelTable(mem: Memory, p: nat)
    requires KernelTableOk(mem) && p < NPAGES
    ensures Identity(mem, KERNEL_TABLES.l0, PAGESIZE * p)
  {
    FrameFlags(p, KernelLeaf(p) - PAGESIZE * p);
    hide Shape, LeafAt, HasP, PageNumber;
    IdentityAt(mem, KERNEL_TABLES, PAGESIZE * p);
  }

  lemma RemappedKernel(mem: Memory, mem': Memory, t: Tables, lay: Layout, n: nat, pn: nat)
    requires GoodLayout(lay) && KernelMapped(mem, t, lay) && !IsKernelPage(lay, pn)
    requires Remapped(mem, mem', t, n, n + 1, PAGESIZE * pn, PTE_PWU)
    ensures KernelMapped(mem', t, lay) <==> !IsKernelPage(lay, n)
  {
  }

  lemma KernelMappedFrame(mem: Memory, mem': Memory, t: Tables, lay: Layout, changed: set<nat>)
    requires Shape(mem, t) && SameOutside(mem, mem', changed) && KernelMapped(mem, t, lay) && GoodLayout(lay)
    requires t.l0 !in changed && t.l1 !in changed && t.l2 !in changed && t.l3 !in changed && t.l4 !in changed
    ensures KernelMapped(mem', t, lay)
  {
  }

  // ------------------------------------------------------- process set-up

  ghost function FreePages(m: Machine): set<nat>
    requires Sized(m)
  {
    set p: nat | p < NPAGES && m.info[p].refcount == 0
  }

  /** `pid` is a free slot that is being set up. */
  ghost predicate Setting(m: Machine, lay: Layout, pid: int) {
    0 < pid < NPROC && Inv(m, lay, pid) && !Live(m, pid) && AllMapped(m, lay)
  }

  lemma SetupClaim(m: Machine, lay: Layout, pid: int, p: nat)
    requires Setting(m, lay, pid) && p < NPAGES && m.info[p].refcount == 0
    ensures Setting(Claim(m, pid, p), lay, pid)
    ensures FreePages(Claim(m, pid, p)) == FreePages(m) - {p}
  {
    ClaimInv(m, lay, pid, pid, p);
  }

  lemma SetupWrite(m: Machine, m': Machine, lay: Layout, pid: int, changed: set<nat>)
    requires Setting(m, lay, pid) && m' == m.(mem := m'.mem) && SameOutside(m.mem, m'.mem, changed)
    requires forall p :: p in changed ==> Owned(m, pid, p)
    ensures Setting(m', lay, pid)
  {
    OtherTables(m, m', lay, pid, pid, changed);
    OthersMapped(m, m', lay, pid, pid, changed);
    hide SameOutside, PagesOk, KernelTableOk, ProcOk, KernelMapped;
  }

  lemma OthersMapped(m: Machine, m': Machine, lay: Layout, setup: int, pid: int, changed: set<nat>)
    requires Inv(m, lay, setup) && m' == m.(mem := m'.mem) && SameOutside(m.mem, m'.mem, changed)
    requires forall p :: p in changed ==> p == CONSOLE || Owned(m, pid, p)
    ensures forall q: int :: Live(m, q) && q != pid && KernelMapped(m.mem, m.tables[q], lay) ==>
      KernelMapped(m'.mem, m.tables[q], lay)
  {
    assert InfoOk(m, lay, setup, CONSOLE);
    hide SameOutside, PagesOk, KernelTableOk, TableOk, KernelMapped;
    forall q: int | Live(m, q) && q != pid && KernelMapped(m.mem, m.tables[q], lay)
      ensures KernelMapped(m'.mem, m.tables[q], lay)
    {
      assert ProcOk(m, q);
      TableOwned(m, q, m.tables[q]);
      KernelMappedFrame(m.mem, m'.mem, m.tables[q], lay, changed);
    }
  }

  /** The address space that setup_pagetable builds. */
  function InitialLeaf(n: nat): nat {
    if n < PROC_START then KernelLeaf(n) else 0
  }

  ghost predicate InitialTable(mem: Memory, t: Tables) {
    Shape(mem, t) && forall n: nat :: n < SPAN ==> LeafAt(mem, t, n) == InitialLeaf(n)
  }

  lemma InitialTableOk(m: Machine, lay: Layout, pid: int, t: Tables)
    requires Sized(m) && GoodLayout(lay) && OwnsTables(m, pid, t) && InitialTable(m.mem, t)
    ensures TableOk(m, pid, t) && KernelMapped(m.mem, t, lay)
  {
    hide Shape, LeafAt;
    ShapeDistinct(m.mem, t);
    forall n: nat | n < SPAN
      ensures UserLeafOk(m, pid, t, LeafAt(m.mem, t, n))
      ensures IsKernelPage(lay, n) ==> KernelLeafOk(LeafAt(m.mem, t, n), n, IsDataPage(lay, n))
    {
      LinkEntry(0);
      FrameFlags(n, PTE_P + PTE_W);
      FrameFlags(n, PTE_PWU);
    }
  }

  /** A process whose table is complete but whose slot is still free. */
  ghost predicate Loading(m: Machine, lay: Layout, pid: int) {
    Setting(m, lay, pid) && ProcOk(m, pid) && KernelMapped(m.mem, m.tables[pid], lay)
  }

  lemma StartLoading(m: Machine, m': Machine, lay: Layout, pid: int, t: Tables)
    requires Setting(m, lay, pid) && OwnsTables(m, pid, t) && InitialTable(m.mem, t)
    requires m' == m.(proc := m.proc[pid := m.proc[pid].(root := t.l0)], tables := m.tables[pid := t])
    ensures Loading(m', lay, pid)
  {
    hide Shape, LeafAt, KernelTableOk, InitialTable, TableOk;
    forall p: nat | p < NPAGES ensures InfoOk(m', lay, pid, p) {
      assert InfoOk(m, lay, pid, p);
      assert forall q: int :: Live(m, q) ==> Live(m', q);
    }
    forall q: int | Live(m', q) ensures ProcOk(m', q) {
      assert Live(m, q) && ProcOk(m, q);
      SameTableOk(m, m', q, m.tables[q]);
    }
    InitialTableOk(m', lay, pid, t);
  }

  lemma SameTableOk(m: Machine, m': Machine, pid: int, t: Tables)
    requires Sized(m) && Sized(m') && TableOk(m, pid, t) && m'.mem == m.mem && m'.info == m.info
    ensures TableOk(m', pid, t)
  {
  }

  /** Claiming a page while loading. */
  lemma LoadClaim(m: Machine, lay: Layout, pid: int, p: nat)
    requires Loading(m, lay, pid) && p < NPAGES && m.info[p].refcount == 0
    ensures Loading(Claim(m, pid, p), lay, pid) && !Among(m.tables[pid], p) && !IsKernelPage(lay, p)
  {
    SetupClaim(m, lay, pid, p);
    assert InfoOk(m, lay, pid, p);
    TableOwned(m, pid, m.tables[pid]);
    TableFrame(m, Claim(m, pid, p), pid, m.tables[pid], {});
  }

  /** Mapping an own page at `n`, away from the kernel or in its place. */
  lemma LoadMap(m: Machine, m': Machine, lay: Layout, pid: int, n: nat, p: nat, perm: nat)
    requires Loading(m, lay, pid) && m' == m.(mem := m'.mem) && perm < PAGESIZE
    requires Owned(m, pid, p) && !Among(m.tables[pid], p) && !IsKernelPage(lay, n)
    requires var t := m.tables[pid];
      Shape(m'.mem, t) && SameOutside(m.mem, m'.mem, {t.l3, t.l4})
        && Remapped(m.mem, m'.mem, t, n, n + 1, PAGESIZE * p, perm)
    ensures Loading(m', lay, pid)
  {
    var t := m.tables[pid];
    TableOwned(m, pid, t);
    SetupWrite(m, m', lay, pid, {t.l3, t.l4});
    FrameFlags(p, perm);
    LinkEntry(0);
    assert UserLeafOk(m, pid, t, RemappedLeaf(0, n, n + 1, PAGESIZE * p, perm, n));
    RemapOwn(m, m', pid, t, n, n + 1, PAGESIZE * p, perm);
    RemapKeepsKernel(m.mem, m'.mem, t, lay, n, PAGESIZE * p, perm);
  }

  lemma RemapKeepsKernel(mem: Memory, mem': Memory, t: Tables, lay: Layout, n: nat, pa: nat, perm: nat)
    requires GoodLayout(lay) && KernelMapped(mem, t, lay) && !IsKernelPage(lay, n)
    requires Remapped(mem, mem', t, n, n + 1, pa, perm)
    ensures KernelMapped(mem', t, lay)
  {
  }

  /** Writing data into own pages that are no page tables. */
  lemma LoadWrite(m: Machine, m': Machine, lay: Layout, pid: int, changed: set<nat>)
    requires Loading(m, lay, pid) && m' == m.(mem := m'.mem) && SameOutside(m.mem, m'.mem, changed)
    requires forall p :: p in changed ==> Owned(m, pid, p) && !Among(m.tables[pid], p)
    ensures Loading(m', lay, pid)
  {
    var t := m.tables[pid];
    SetupWrite(m, m', lay, pid, changed);
    TableFrame(m, m', pid, t, changed);
    TableOwned(m, pid, t);
    KernelMappedFrame(m.mem, m'.mem, t, lay, changed);
  }

  lemma LoadingTable(m: Machine, lay: Layout, pid: int)
    requires Loading(m, lay, pid)
    ensures Sized(m) && 0 < pid < NPROC && Shape(m.mem, m.tables[pid]) && m.proc[pid].root == m.tables[pid].l0
    ensures Owned(m, pid, m.tables[pid].l3) && Owned(m, pid, m.tables[pid].l4) && OthersUntouched(m, m, pid)
  {
  }

  /** Marking the loaded process runnable. */
  lemma FinishLoading(m: Machine, m': Machine, lay: Layout, pid: int)
    requires Loading(m, lay, pid)
    requires m' == m.(proc := m.proc[pid := m.proc[pid].(state := P_RUNNABLE)])
    ensures Inv(m', lay, 0) && AllMapped(m', lay)
  {
    hide KernelTableOk, TableOk, KernelMapped;
    forall p: nat | p < NPAGES ensures InfoOk(m', lay, 0, p) {
      assert InfoOk(m, lay, pid, p);
      assert Live(m', pid) && forall q: int :: Live(m, q) ==> Live(m', q);
    }
    forall q: int | Live(m', q)
      ensures ProcOk(m', q) && KernelMapped(m'.mem, m'.tables[q], lay)
    {
      assert q == pid || Live(m, q);
      assert ProcOk(m, q);
      SameTableOk(m, m', q, m.tables[q]);
    }
  }

  // ------------------------------------------------------------ confinement

  /** Nothing of owner `q` has changed: its pages, their contents, its process
      descriptor and its tables. */
  ghost predicate Untouched(m: Machine, m': Machine, q: int) {
    Sized(m) && Sized(m')
    && (forall p: nat :: p < NPAGES && m.info[p] == PageInfo(q, 1) ==>
      m'.info[p] == PageInfo(q, 1) && SamePage(m.mem, m'.mem, p))
    && (0 <= q < NPROC ==> m'.proc[q] == m.proc[q] && m'.tables[q] == m.tables[q])
  }

  ghost predicate SamePage(mem: Memory, mem': Memory, p: nat)
    requires p < NPAGES
  {
    forall i: Index :: Entry(mem', p, i) == Entry(mem, p, i)
  }

  lemma UntouchedTrans(m0: Machine, m1: Machine, m2: Machine, q: int)
    requires Untouched(m0, m1, q) && Untouched(m1, m2, q)
    ensures Untouched(m0, m2, q)
  {
  }

  /** Nothing of any owner but `pid` has changed. */
  ghost predicate OthersUntouched(m: Machine, m': Machine, pid: int) {
    Sized(m) && Sized(m') && forall q: int :: q != pid ==> Untouched(m, m', q)
  }

  lemma OthersTrans(m0: Machine, m1: Machine, m2: Machine, pid: int)
    requires OthersUntouched(m0, m1, pid) && OthersUntouched(m1, m2, pid)
    ensures OthersUntouched(m0, m2, pid)
  {
    forall q: int | q != pid ensures Untouched(m0, m2, q) { UntouchedTrans(m0, m1, m2, q); }
  }

  /** A step of `pid` that changes at most its own pages and free ones. */
  lemma OwnStep(m: Machine, m': Machine, pid: int, changed: set<nat>)
    requires Sized(m) && Sized(m') && SameOutside(m.mem, m'.mem, changed)
    requires forall p :: p in changed ==> p < NPAGES && (Owned(m, pid, p) || m.info[p].refcount == 0)
    requires forall p: nat :: p < NPAGES && m.info[p].refcount == 1 ==> m'.info[p] == m.info[p]
    requires forall q :: 0 <= q < NPROC && q != pid ==> m'.proc[q] == m.proc[q] && m'.tables[q] == m.tables[q]
    ensures OthersUntouched(m, m', pid)
  {
  }

  /** A process that was left untouched translates every address as before
      and finds the same words there. */
  lemma UntouchedView(m: Machine, m': Machine, lay: Layout, q: int, va: nat)
    requires Inv(m, lay, 0) && Live(m, q) && Untouched(m, m', q) && va / PAGESIZE < VPN_LIMIT
    ensures Translate(m'.mem, m'.proc[q].root, va) == Translate(m.mem, m.proc[q].root, va)
    ensures var pn := Translate(m.mem, m.proc[q].root, va).pn;
      pn >= 0 && pn != CONSOLE && HasU(Translate(m.mem, m.proc[q].root, va).perm) ==>
        pn < NPAGES && SamePage(m.mem, m'.mem, pn)
  {
    var t := m.tables[q];
    assert ProcOk(m, q);
    assert SamePage(m.mem, m'.mem, t.l0) && SamePage(m.mem, m'.mem, t.l1) && SamePage(m.mem, m'.mem, t.l2)
      && SamePage(m.mem, m'.mem, t.l3) && SamePage(m.mem, m'.mem, t.l4);
    assert Shape(m'.mem, t);
    var n := va / PAGESIZE;
    ShapeLeaf(m.mem, t, n);
    ShapeLeaf(m'.mem, t, n);
    assert LeafAt(m'.mem, t, n) == LeafAt(m.mem, t, n);
    var e := LeafAt(m.mem, t, n);
    FrameFlags(PageNumber(e), PteFlags(e));
    LinkEntry(0);
    hide Shape, PathOf, Leaf, HasP, HasU;
    assert n < SPAN ==> UserLeafOk(m, q, t, e);
  }

  /** Steps of `pid` that give it at most free pages and write at most its own
      pages and the console. */
  lemma StepUntouched(m: Machine, m': Machine, pid: int, changed: set<nat>)
    requires Sized(m) && Sized(m') && SameOutside(m.mem, m'.mem, changed)
    requires forall p :: p in changed ==> (p < NPAGES && (m.info[p].owner == PO_RESERVED || Owned(m, pid, p)))
    requires forall p: nat :: p < NPAGES && m.info[p].refcount == 1 ==> m'.info[p] == m.info[p]
    requires forall q :: 0 <= q < NPROC && q != pid ==> m'.proc[q] == m.proc[q] && m'.tables[q] == m.tables[q]
    ensures forall q: int :: q != pid && q != PO_RESERVED ==> Untouched(m, m', q)
  {
  }
}

module Kernel {
  import opened Basics
  import opened PageTable
  import opened TableShape
  import opened KernelState
  import opened Loader

  /** How an exception ends: a process runs, the kernel panics, no process is
      runnable and the scheduler spins, or the kernel's instructions, stack
      and data are reached through a table that does not map them, and
      nothing is known any more. */
  datatype Outcome = Running | Panicked | Spinning | Lost

  /** `virtual_memory_init`, then the two maps of `kernel` that take the
      kernel's memory away from user code and give it the console. */
  method InitKernelTable(memory: PhysicalMemory)
    requires memory.Valid()
    modifies memory.cell
    ensures KernelTableOk(memory.Snapshot())
  {
    memory.ClearPage(KERNEL_TABLES.l0);
    memory.ClearPage(KERNEL_TABLES.l1);
    memory.ClearPage(KERNEL_TABLES.l2);
    memory.ClearPage(KERNEL_TABLES.l3);
    memory.ClearPage(KERNEL_TABLES.l4);
    memory.Store(KERNEL_TABLES.l0, 0, InnerEntry(KERNEL_TABLES.l1));
    memory.Store(KERNEL_TABLES.l1, 0, InnerEntry(KERNEL_TABLES.l2));
    memory.Store(KERNEL_TABLES.l2, 0, InnerEntry(KERNEL_TABLES.l3));
    memory.Store(KERNEL_TABLES.l2, 1, InnerEntry(KERNEL_TABLES.l4));
    assert Shape(memory.Snapshot(), KERNEL_TABLES);
    assert forall n: nat :: n < SPAN ==> LeafAt(memory.Snapshot(), KERNEL_TABLES, n) == 0;
    hide Shape, LeafAt;
    var r := MapTable(memory, KERNEL_TABLES.l0, KERNEL_TABLES, 0, 0, MEMSIZE_PHYSICAL, PTE_PWU);
    r := MapTable(memory, KERNEL_TABLES.l0, KERNEL_TABLES, 0, 0, PAGESIZE * PROC_START, PTE_P + PTE_W);
    r := MapTable(memory, KERNEL_TABLES.l0, KERNEL_TABLES, PAGESIZE * CONSOLE, PAGESIZE * CONSOLE, PAGESIZE, PTE_PWU);
  }

  /** A zero-filled page that is no kernel table. */
  ghost predicate Cleared(mem: Memory, p: nat) {
    p < NPAGES && !Among(KERNEL_TABLES, p) && forall i: Index :: Entry(mem, p, i) == 0
  }

  /** Linking and filling the five cleared pages of `setup_pagetable`. */
  method LinkTables(memory: PhysicalMemory, a0: nat, a1: nat, a2: nat, a3: nat, a4: nat)
    requires memory.Valid() && KernelTableOk(memory.Snapshot())
    requires Distinct(Tables(a0, a1, a2, a3, a4))
    requires Cleared(memory.Snapshot(), a0) && Cleared(memory.Snapshot(), a1) && Cleared(memory.Snapshot(), a2)
    requires Cleared(memory.Snapshot(), a3) && Cleared(memory.Snapshot(), a4)
    modifies memory.cell
    ensures InitialTable(memory.Snapshot(), Tables(a0, a1, a2, a3, a4))
    ensures SameOutside(old(memory.Snapshot()), memory.Snapshot(), {a0, a1, a2, a3, a4})
  {
    ghost var t := Tables(a0, a1, a2, a3, a4);
    memory.Store(a0, 0, InnerEntry(a1));
    CopyPage(memory, a1, KERNEL_TABLES.l1);
    memory.Store(a1, 0, InnerEntry(a2));
    CopyPage(memory, a2, KERNEL_TABLES.l2);
    memory.Store(a2, 0, InnerEntry(a3));
    CopyPage(memory, a3, KERNEL_TABLES.l3);
    memory.Store(a2, 1, InnerEntry(a4));
    assert Shape(memory.Snapshot(), t);
    assert forall n: nat :: n < SPAN ==>
      LeafAt(memory.Snapshot(), t, n) == LeafAt(old(memory.Snapshot()), KERNEL_TABLES, n);
    assert SameOutside(old(memory.Snapshot()), memory.Snapshot(), {a0, a1, a2, a3, a4});
    hide Shape, LeafAt;
    var r := MapTable(memory, a0, t, PAGESIZE * PROC_START, PAGESIZE * PROC_START,
      MEMSIZE_PHYSICAL - PAGESIZE * PROC_START, 0);
  }

  /** `copy_pagetable` */
  method CopyPage(memory: PhysicalMemory, to: nat, from: nat)
    requires memory.Valid() && to < NPAGES && from < NPAGES && to != from
    modifies memory.cell
    ensures forall r: nat, i: Index :: r < NPAGES ==>
      Entry(memory.Snapshot(), r, i) == old(Entry(memory.Snapshot(), if r == to then from else r, i))
  {
    forall i | 0 <= i < NENTRIES { memory.cell[NENTRIES * to + i] := memory.cell[NENTRIES * from + i]; }
  }

  /** A zero-filled page of the process that is being set up. */
  ghost predicate Holds(m: Machine, pid: int, p: nat)
    requires Sized(m)
  {
    Owned(m, pid, p) && Cleared(m.mem, p)
  }

  /** Between two page requests of `setup_pagetable`: the lowest pages of `m0`
      are taken. */
  ghost predicate Claiming(m0: Machine, m: Machine, lay: Layout, pid: int, taken: set<nat>) {
    Setting(m, lay, pid) && OthersUntouched(m0, m, pid)
    && m == m0.(mem := m.mem, info := TakeN(m0.info, pid, |taken|))
    && |FreePages(m)| == |FreePages(m0)| - |taken|
    && (forall q :: q in taken ==> Holds(m, pid, q))
  }

  lemma ClaimingStart(m: Machine, lay: Layout, pid: int)
    requires Setting(m, lay, pid)
    ensures Claiming(m, m, lay, pid, {})
  {
  }

  /** Taking and clearing the free page `p`. */
  lemma ClaimingMore(m0: Machine, m: Machine, m': Machine, lay: Layout, pid: int, taken: set<nat>, p: nat)
    requires Claiming(m0, m, lay, pid, taken) && p < NPAGES && m.info[p].refcount == 0 && p == Lowest(m.info)
    requires m' == Claim(m, pid, p).(mem := m'.mem)
    requires SameOutside(m.mem, m'.mem, {p}) && forall i: Index :: Entry(m'.mem, p, i) == 0
    requires !Among(KERNEL_TABLES, p) && Setting(m', lay, pid) && OthersUntouched(m0, m', pid)
    ensures p !in taken && Claiming(m0, m', lay, pid, taken + {p})
  {
    SetupClaim(m, lay, pid, p);
    assert FreePages(m') == FreePages(Claim(m, pid, p));
    assert p in FreePages(m);
    forall q: nat | Holds(m, pid, q) ensures Holds(m', pid, q) && q != p {}
    hide Setting, OthersUntouched, Holds, FreePages, SameOutside, Lowest;
    assert Holds(m', pid, p) by { HoldsTaken(m, m', pid, p); }
    assert TakeN(m0.info, pid, |taken| + 1) == Take(m.info, pid);
  }

  lemma HoldsTaken(m: Machine, m': Machine, pid: int, p: nat)
    requires Sized(m) && p < NPAGES && m' == Claim(m, pid, p).(mem := m'.mem)
    requires !Among(KERNEL_TABLES, p) && forall i: Index :: Entry(m'.mem, p, i) == 0
    ensures Holds(m', pid, p)
  {
  }

  lemma ClaimingEnd(m0: Machine, m: Machine, lay: Layout, pid: int, taken: set<nat>)
    requires Claiming(m0, m, lay, pid, taken)
    ensures Setting(m, lay, pid) && OthersUntouched(m0, m, pid) && m == m0.(mem := m.mem, info := m.info)
    ensures |FreePages(m0)| >= |taken| && m.info == TakeN(m0.info, pid, |taken|)
    ensures forall q :: q in taken ==> Owned(m, pid, q) && Cleared(m.mem, q)
  {
  }

  lemma NotKernelTable(m: Machine, lay: Layout, pid: int, p: nat)
    requires Setting(m, lay, pid) && Owned(m, pid, p)
    ensures !Among(KERNEL_TABLES, p)
  {
    if Among(KERNEL_TABLES, p) { KernelTablesReserved(m, lay, pid, p); }
  }

  lemma LiveTable(m: Machine, lay: Layout, pid: int)
    requires Inv(m, lay, 0) && Live(m, pid)
    ensures Sized(m) && OwnsTables(m, pid, m.tables[pid]) && Shape(m.mem, m.tables[pid])
      && m.proc[pid].root == m.tables[pid].l0
  {
  }

  /** A page request: -1 when memory is full; otherwise the lowest free page
      now belongs to `pid` and, if `addr` is page-aligned, is mapped there. */
  ghost predicate PageAllocated(m: Machine, m': Machine, pid: int, addr: nat)
    requires Sized(m) && Sized(m') && 0 <= pid < NPROC
  {
    if HasFree(m) then exists pn: nat :: PageGiven(m, m', pid, addr, pn)
    else m' == SetRax(m, pid, UINT64_MAX)
  }

  ghost predicate HasFree(m: Machine)
    requires Sized(m)
  {
    exists pn: nat :: LowestFree(m, pn)
  }

  ghost predicate PageGiven(m: Machine, m': Machine, pid: int, addr: nat, pn: nat)
    requires Sized(m) && Sized(m') && 0 <= pid < NPROC
  {
    LowestFree(m, pn)
    && if addr % PAGESIZE == 0 then PageMapped(m, m', pid, Vpn(addr), pn) else m' == Claim(m, pid, pn)
  }

  /** Giving a free page to `pid`, mapping it or panicking before that. */
  lemma GivenConfined(m: Machine, m': Machine, lay: Layout, pid: int, addr: nat, pn: nat)
    requires Inv(m, lay, 0) && Live(m, pid) && Sized(m') && PageGiven(m, m', pid, addr, pn)
    ensures OthersUntouched(m, m', pid)
  {
  }

  lemma SameStateMapped(m: Machine, m': Machine, lay: Layout)
    requires Sized(m) && Sized(m') && m'.mem == m.mem && m'.tables == m.tables && AllMapped(m, lay)
    requires forall q :: 0 <= q < NPROC ==> m'.proc[q].state == m.proc[q].state
    ensures AllMapped(m', lay)
  {
  }

  /** Memory is never given back. */
  lemma FreeBefore(m: Machine, m': Machine, pid: int, addr: nat)
    requires Sized(m) && Sized(m') && 0 <= pid < NPROC && PageAllocated(m, m', pid, addr)
    ensures HasFree(m') ==> HasFree(m)
  {
    if !HasFree(m) && HasFree(m') {
      var pn: nat :| LowestFree(m', pn);
      assert LowestFree(m, pn);
    }
  }

  /** A page request touches no other process.  With the kernel mapped before,
      a request that is granted leaves it mapped, so that check_virtual_memory
      passes next time, exactly when it was not for a kernel page; and lets
      the process run on exactly when it was not for one of those that
      set_pagetable asserts. */
  lemma PageAllocConfined(m: Machine, m': Machine, lay: Layout, pid: int, addr: nat)
    requires Inv(m, lay, 0) && Inv(m', lay, 0) && Live(m, pid) && PageAllocated(m, m', pid, addr)
    ensures OthersUntouched(m, m', pid) && (HasFree(m') ==> HasFree(m))
    ensures AllMapped(m, lay) && addr % PAGESIZE == 0 && HasFree(m) ==>
      (AllMapped(m', lay) <==> !IsKernelPage(lay, Vpn(addr)))
      && (KernelMapped(m'.mem, m'.tables[pid], lay) <==> !IsKernelPage(lay, Vpn(addr)))
      && (Settable(m'.mem, m'.proc[pid].root, lay) <==> !IsSwitchPage(lay, Vpn(addr)))
    ensures AllMapped(m, lay) && (addr % PAGESIZE != 0 || !HasFree(m)) ==> AllMapped(m', lay)
  {
    assert Sized(m) && Sized(m') && 0 <= pid < NPROC;
    FreeBefore(m, m', pid, addr);
    hide Inv, AllMapped, PageMapped, OthersUntouched, IsKernelPage, IsSwitchPage, Settable, KernelMapped, Live, HasFree,
      LowestFree, Vpn;
    if HasFree(m) {
      var pn: nat :| PageGiven(m, m', pid, addr, pn);
      GivenConfined(m, m', lay, pid, addr, pn);
      if AllMapped(m, lay) {
        if addr % PAGESIZE == 0 {
          PageAllocMapped(m, m', lay, pid, Vpn(addr), pn);
          PageAllocSettable(m, m', lay, pid, Vpn(addr), pn);
        } else {
          SameStateMapped(m, m', lay);
        }
      }
    } else {
      OwnStep(m, m', pid, {});
      if AllMapped(m, lay) { SameStateMapped(m, m', lay); }
    }
  }

  function Turn(pid: nat, k: nat): (p: nat)
    ensures p < NPROC
  {
    (pid + k) % NPROC
  }

  lemma TurnStart(pid: nat)
    requires pid < NPROC
    ensures Turn(pid, 0) == pid
  {
  }

  lemma TurnNext(pid: nat, k: nat)
    ensures Turn(pid, k + 1) == (Turn(pid, k) + 1) % NPROC
  {
  }

  /** Every process has its turn. */
  lemma TurnTo(pid: nat, p: nat)
    requires pid < NPROC && p < NPROC
    ensures Turn(pid, if p > pid then p - pid else p + NPROC - pid) == p
  {
  }

  /** The `k`-th process after `pid` is the first runnable one. */
  ghost predicate IsNext(m: Machine, pid: nat, k: nat)
    requires Sized(m)
  {
    1 <= k <= NPROC && m.proc[Turn(pid, k)].state == P_RUNNABLE
    && forall j: nat :: 1 <= j < k ==> m.proc[Turn(pid, j)].state != P_RUNNABLE
  }

  /** Of the processes that can run, `q` comes first after `pid`, which itself
      comes last. */
  ghost predicate Nearest(m: Machine, pid: nat, q: nat)
    requires Sized(m) && pid < NPROC
  {
    q < NPROC && m.proc[q].state == P_RUNNABLE
    && forall p: nat :: p < NPROC && m.proc[p].state == P_RUNNABLE ==>
         (q + NPROC - 1 - pid) % NPROC <= (p + NPROC - 1 - pid) % NPROC
  }

  lemma TurnAhead(pid: nat, k: nat)
    requires pid < NPROC && 1 <= k <= NPROC
    ensures (Turn(pid, k) + NPROC - 1 - pid) % NPROC == k - 1
  {
    if pid + k < NPROC {
      assert Turn(pid, k) + NPROC - 1 - pid == NPROC + (k - 1);
    } else {
      assert Turn(pid, k) == pid + k - NPROC;
    }
  }

  lemma NextNearest(m: Machine, pid: nat, k: nat)
    requires Sized(m) && pid < NPROC && IsNext(m, pid, k)
    ensures Nearest(m, pid, Turn(pid, k))
  {
    TurnAhead(pid, k);
    forall p: nat | p < NPROC && m.proc[p].state == P_RUNNABLE
      ensures (Turn(pid, k) + NPROC - 1 - pid) % NPROC <= (p + NPROC - 1 - pid) % NPROC
    {
      var j := if p > pid then p - pid else p + NPROC - pid;
      TurnTo(pid, p);
      TurnAhead(pid, j);
      hide Turn;
    }
    hide Turn;
  }

  lemma StartSetting(m: Machine, m': Machine, lay: Layout, pid: int)
    requires Inv(m, lay, 0) && AllMapped(m, lay) && 0 < pid < NPROC && !Live(m, pid)
    requires m' == SetRax(m, pid, 0)
    ensures Setting(m', lay, pid)
  {
    hide KernelMapped;
    StateInv(m, m', lay);
    forall p: nat | p < NPAGES ensures InfoOk(m', lay, pid, p) { assert InfoOk(m', lay, 0, p); }
    assert forall q: int :: Live(m', q) ==> Live(m, q);
  }

  /** A user store lands in an own page or on the console. */
  lemma StoreTarget(m: Machine, lay: Layout, pid: int, va: nat)
    requires Inv(m, lay, 0) && Live(m, pid) && va / PAGESIZE < VPN_LIMIT
    ensures var vam := Translate(m.mem, m.proc[pid].root, va);
      HasP(vam.perm) && HasU(vam.perm) ==>
        PageNumber(vam.pa) < NPAGES && vam.pa == PAGESIZE * PageNumber(vam.pa) + va % PAGESIZE
        && (PageNumber(vam.pa) == CONSOLE
          || (Owned(m, pid, PageNumber(vam.pa)) && !Among(m.tables[pid], PageNumber(vam.pa))))
  {
    var t, n := m.tables[pid], va / PAGESIZE;
    assert ProcOk(m, pid);
    ShapeLeaf(m.mem, t, n);
    var e := LeafAt(m.mem, t, n);
    FrameFlags(PageNumber(e), PteFlags(e));
    SplitPage(PageNumber(e), va % PAGESIZE);
    LinkEntry(0);
    hide Shape, PathOf, Leaf, HasP, HasU, LeafAt;
    assert n < SPAN ==> UserLeafOk(m, pid, t, e);
  }

  lemma CellInPage(pa: nat)
    requires PageNumber(pa) < NPAGES
    ensures pa / 8 < NCELLS && pa / 8 / NENTRIES == PageNumber(pa)
  {
  }

  /** The processor's own walk of a process table. */
  method Walk(memory: PhysicalMemory, root: nat, ghost t: Tables, va: nat) returns (vam: VaMapping)
    requires memory.Valid() && Shape(memory.Snapshot(), t) && root == t.l0
    ensures vam == Translate(memory.Snapshot(), root, va)
  {
    hide Shape, Translate, Leaf, Node, PathOf, ReportedW, ReportedU, NoAlias, InnerOpen;
    ShapeTree(memory.Snapshot(), t);
    vam := memory.Lookup(root, va);
  }

  lemma SelfUntouched(m: Machine)
    requires Sized(m)
    ensures forall q: int :: Untouched(m, m, q)
  {
  }

  lemma OneCell(mem: Memory, mem': Memory, c: nat, value: nat)
    requires c < NCELLS && mem' == mem[c := value]
    ensures SameOutside(mem, mem', {c / NENTRIES})
  {
  }

  /** A store outside all page tables maps no page differently. */
  lemma StoreMapped(m: Machine, m': Machine, lay: Layout, pid: int, pn: nat)
    requires Inv(m, lay, 0) && Live(m, pid) && m' == m.(mem := m'.mem) && SameOutside(m.mem, m'.mem, {pn})
      && pn < NPAGES
    requires pn == CONSOLE || (Owned(m, pid, pn) && !Among(m.tables[pid], pn))
    ensures AllMapped(m', lay) <==> AllMapped(m, lay)
  {
    assert InfoOk(m, lay, 0, CONSOLE);
    forall q: int | Live(m, q)
      ensures KernelMapped(m'.mem, m.tables[q], lay) <==> KernelMapped(m.mem, m.tables[q], lay)
    {
      assert ProcOk(m, q);
      TableOwned(m, q, m.tables[q]);
      ShapeFrame(m.mem, m'.mem, m.tables[q], {pn});
      hide Shape, LeafAt, SameOutside;
      assert forall n: nat :: IsKernelPage(lay, n) ==> n < SPAN;
    }
    hide Inv, KernelMapped;
  }

  /** Free pages depend on pageinfo only. */
  lemma SameInfoFree(m: Machine, m': Machine)
    requires Sized(m) && Sized(m') && m'.info == m.info
    ensures HasFree(m') <==> HasFree(m)
  {
    forall pn: nat ensures LowestFree(m', pn) <==> LowestFree(m, pn) {}
  }

  /** The pages that set_pagetable asserts are the kernel's. */
  lemma SwitchIsKernel(lay: Layout)
    ensures GoodLayout(lay) ==> forall n: nat :: IsSwitchPage(lay, n) ==> IsKernelPage(lay, n)
  {
  }

  lemma EntersMapped(m: Machine, lay: Layout, pid: int)
    requires Inv(m, lay, 0) && Live(m, pid)
    ensures AllMapped(m, lay) ==> KernelMapped(m.mem, m.tables[pid], lay)
  {
  }

  lemma KernelSettable(m: Machine, lay: Layout)
    requires Inv(m, lay, 0)
    ensures Shape(m.mem, KERNEL_TABLES) && KernelTableOk(m.mem) && Settable(m.mem, KERNEL_TABLES.l0, lay)
  {
    KernelTableMapped(m.mem, lay);
    MappingsKernelMapped(m.mem, KERNEL_TABLES, lay);
    hide MappingsOk, KernelMapped, Settable;
    MappedSettable(m.mem, KERNEL_TABLES, lay);
  }

  lemma StoreInv(m: Machine, m': Machine, lay: Layout, pid: int, pn: nat)
    requires Inv(m, lay, 0) && Live(m, pid) && m' == m.(mem := m'.mem) && SameOutside(m.mem, m'.mem, {pn})
      && pn < NPAGES
    requires pn == CONSOLE || (Owned(m, pid, pn) && !Among(m.tables[pid], pn))
    ensures Inv(m', lay, 0) && (AllMapped(m', lay) <==> AllMapped(m, lay))
    ensures forall q: int :: q != pid && q != PO_RESERVED ==> Untouched(m, m', q)
  {
    var t := m.tables[pid];
    LiveTable(m, lay, pid);
    assert InfoOk(m, lay, 0, CONSOLE);
    OtherTables(m, m', lay, 0, pid, {pn});
    assert ProcOk(m, pid);
    TableFrame(m, m', pid, t, {pn});
    StoreMapped(m, m', lay, pid, pn);
    hide SameOutside, PagesOk, KernelTableOk, TableOk, KernelMapped;
    StepUntouched(m, m', pid, {pn});
    assert forall q: int :: Live(m', q) <==> Live(m, q);
  }

  datatype Trap =
    | GetPid | Yield | Timer
    | PageRequest(addr: nat)
    | PageFault(user: bool)
    | PanicCall | Unexpected
  {
    predicate KeepsProcess() { GetPid? || PageRequest? }
    predicate Panics() { PanicCall? || Unexpected? || (PageFault? && !user) }
    predicate AsksForKernelPage(lay: Layout) { PageRequest? && IsKernelPage(lay, Vpn(addr)) }
  }

  /** A step of a run: a store by the current process, or an exception. */
  datatype Event = Store(va: nat, value: nat) | Trap(trap: Trap) {
    predicate Possible() { Store? ==> va % 8 == 0 && va / PAGESIZE < VPN_LIMIT }
    predicate AsksForKernelPage(lay: Layout) { Trap? && trap.AsksForKernelPage(lay) }
    predicate KeepsProcess() { Store? || trap.KeepsProcess() }
    predicate Panics() { Trap? && (trap.Panics() || (trap.PageRequest? && trap.addr % PAGESIZE != 0)) }
  }

  /** A granted page request panics when the address is not page-aligned, in
      virtual_memory_map, or takes the place of a page that set_pagetable
      asserts, on the way back. */
  ghost predicate PageRequestPanics(m: Machine, lay: Layout, trap: Trap)
    requires Sized(m)
  {
    trap.PageRequest? && HasFree(m) && (trap.addr % PAGESIZE != 0 || IsSwitchPage(lay, Vpn(trap.addr)))
  }

  /** One that is granted for another kernel page replaces that page under the
      feet of the kernel. */
  ghost predicate PageRequestLost(m: Machine, lay: Layout, trap: Trap)
    requires Sized(m)
  {
    trap.AsksForKernelPage(lay) && HasFree(m) && trap.addr % PAGESIZE == 0 && !IsSwitchPage(lay, Vpn(trap.addr))
  }

  /** The processor takes the trap through a table that maps the kernel: that
      of the process, or the kernel's own when the kernel faults. */
  ghost predicate Enters(m: Machine, lay: Layout, pid: int, trap: Trap)
    requires Sized(m) && 0 <= pid < NPROC
  {
    trap == PageFault(false) || KernelMapped(m.mem, m.tables[pid], lay)
  }

  /** What becomes of loading the table of `pid`: the assertions of
      set_pagetable come first, then the kernel goes on through that table. */
  ghost function RunOutcome(m: Machine, lay: Layout, pid: int): Outcome
    requires Sized(m) && 0 <= pid < NPROC
  {
    if !Settable(m.mem, m.proc[pid].root, lay) then Panicked
    else if !KernelMapped(m.mem, m.tables[pid], lay) then Lost
    else Running
  }

  /** The machine between two events: what it holds, whose turn it is, and the
      timer's count. */
  datatype State = State(machine: Machine, current: nat, ticks: nat) {
    ghost predicate Good() { Sized(machine) && current < NPROC }
  }

  /** The event loses the kernel: the trap comes in through a table that does
      not map it, or goes out through one. */
  ghost predicate Loses(s: State, e: Event, lay: Layout)
    requires s.Good()
  {
    e.Trap?
    && (!Enters(s.machine, lay, s.current, e.trap)
        || (CheckVirtualMemory(s.machine, lay) && PageRequestLost(s.machine, lay, e.trap)))
  }

  /** A store of the current process: one word changes, if the translation of
      its address is present, writable and open to user code. */
  ghost predicate StoreDone(s: State, va: nat, value: nat, s': State)
    requires s.Good()
  {
    var m, vam := s.machine, Translate(s.machine.mem, s.machine.proc[s.current].root, va);
    if HasP(vam.perm) && HasW(vam.perm) && HasU(vam.perm) then
      vam.pa / 8 < NCELLS && s' == s.(machine := m.(mem := m.mem[vam.pa / 8 := value]))
    else s' == s
  }

  /** What a trap that gets past check_virtual_memory does to the machine. */
  ghost predicate TrapDone(m: Machine, pid: nat, trap: Trap, m': Machine)
    requires Sized(m) && Sized(m') && pid < NPROC
  {
    var me := m.proc[pid];
    match trap
    case GetPid => m' == m.(proc := m.proc[pid := me.(rax := pid)])
    case PageRequest(addr) =>
      if HasFree(m) then exists pn: nat :: PageGiven(m, m', pid, addr, pn)
      else m' == m.(proc := m.proc[pid := me.(rax := UINT64_MAX)])
    case PageFault(true) => m' == m.(proc := m.proc[pid := me.(state := P_BROKEN)])
    case _ => m' == m
  }

  /** `s'` and `o` are what event `e` makes of a running machine `s`, unless it
      loses the kernel. */
  ghost predicate Does(s: State, e: Event, o: Outcome, s': State, lay: Layout)
    requires s.Good() && s'.Good()
  {
    match e
    case Store(va, value) => o == Running && StoreDone(s, va, value, s')
    case Trap(trap) =>
      var m, m', pid, checked := s.machine, s'.machine, s.current, CheckVirtualMemory(s.machine, lay);
      (o == Panicked <==> trap.Panics() || !checked || PageRequestPanics(m, lay, trap))
      && (o == Spinning ==> forall p: nat :: p < NPROC ==> m'.proc[p].state != P_RUNNABLE)
      && (o == Running ==> m'.proc[s'.current].state == P_RUNNABLE)
      && (if o == Running && !trap.KeepsProcess() then Nearest(m', pid, s'.current) else s'.current == pid)
      && s'.ticks == s.ticks + (if checked && trap.Timer? then 1 else 0)
      && (if checked then TrapDone(m, pid, trap, m') else m' == m)
  }

  lemma TrapDoes(s: State, trap: Trap, o: Outcome, s': State, lay: Layout)
    requires s.Good() && s'.Good() && o != Lost
    requires var m, m', pid, checked := s.machine, s'.machine, s.current, CheckVirtualMemory(s.machine, lay);
      (o == Panicked <==> trap.Panics() || !checked || PageRequestPanics(m, lay, trap))
      && (o == Spinning ==> forall p :: 0 <= p < NPROC ==> m'.proc[p].state != P_RUNNABLE)
      && (o == Running ==> m'.proc[s'.current].state == P_RUNNABLE)
      && (o == Running && !trap.KeepsProcess() ==> exists k :: IsNext(m', pid, k) && s'.current == Turn(pid, k))
      && (trap.KeepsProcess() || o != Running ==> s'.current == pid)
      && (!checked ==> m' == m && s'.ticks == s.ticks)
      && (checked ==>
            s'.ticks == s.ticks + (if trap.Timer? then 1 else 0)
            && match trap
               case GetPid => m' == SetRax(m, pid, pid)
               case PageRequest(addr) => PageAllocated(m, m', pid, addr)
               case PageFault(true) => m' == SetState(m, pid, P_BROKEN)
               case _ => m' == m)
    ensures Does(s, Event.Trap(trap), o, s', lay)
  {
    if o == Running && !trap.KeepsProcess() {
      var k :| IsNext(s'.machine, s.current, k) && s'.current == Turn(s.current, k);
      NextNearest(s'.machine, s.current, k);
    }
    hide Nearest, IsNext, Turn;
  }

  lemma StoreDoes(s: State, va: nat, value: nat, s': State, lay: Layout)
    requires s.Good() && s'.Good() && StoreDone(s, va, value, s')
    ensures !Loses(s, Store(va, value), lay) && Does(s, Store(va, value), Running, s', lay)
    ensures s'.current == s.current
  {
    hide Translate;
  }

  /** With the kernel mapped, a trap that asks for none of its pages finds it
      on the way in and on the way out. */
  lemma TrapLost(s: State, trap: Trap, lay: Layout)
    requires s.Good() && (AllMapped(s.machine, lay) ==> KernelMapped(s.machine.mem, s.machine.tables[s.current], lay))
    ensures AllMapped(s.machine, lay) && !trap.AsksForKernelPage(lay) ==> !Loses(s, Event.Trap(trap), lay)
  {
    hide AllMapped, KernelMapped, Trap.AsksForKernelPage;
  }

  /** Who can run after a trap, and when it panics. */
  lemma TrapState(s: State, trap: Trap, o: Outcome, s': State, lay: Layout)
    requires s.Good() && s'.Good() && GoodLayout(lay) && var ok := Does(s, Event.Trap(trap), o, s', lay); ok
    requires s.machine.proc[s.current].state == P_RUNNABLE
    requires forall q: int :: q != s.current && q != PO_RESERVED ==> Untouched(s.machine, s'.machine, q)
    requires CheckVirtualMemory(s.machine, lay) <==> AllMapped(s.machine, lay)
    ensures o == Running ==> s'.machine.proc[s'.current].state == P_RUNNABLE
    ensures o == Running && trap.KeepsProcess() ==> s'.current == s.current
    ensures forall q :: 0 <= q < NPROC && s'.machine.proc[q].state == P_RUNNABLE ==>
      s.machine.proc[q].state == P_RUNNABLE
    ensures AllMapped(s.machine, lay) && !trap.AsksForKernelPage(lay) && !Event.Trap(trap).Panics() ==> o != Panicked
    ensures o == Running && trap.PageRequest? && HasFree(s.machine) ==> trap.addr % PAGESIZE == 0
  {
    SwitchIsKernel(lay);
    hide AllMapped, Untouched, HasFree, IsKernelPage, CheckVirtualMemory, TrapDone, Nearest;
    forall q | 0 <= q < NPROC && q != s.current && s'.machine.proc[q].state == P_RUNNABLE
      ensures s.machine.proc[q].state == P_RUNNABLE
    {
      SameProc(s.machine, s'.machine, q);
    }
  }

  /** The events happen one after the other from `start`, `trace[i]` is the
      machine before event `i`, and only the last one can end the run. */
  ghost predicate IsRun(start: State, events: seq<Event>, trace: seq<State>, o: Outcome, lay: Layout) {
    |trace| <= |events| && (forall s :: s in trace ==> s.Good()) && (trace != [] ==> trace[0] == start)
    && (forall i :: 0 <= i < |trace| - 1 ==>
          !Loses(trace[i], events[i], lay) && Does(trace[i], events[i], Running, trace[i + 1], lay))
    && (trace != [] ==> (o == Lost <==> Loses(trace[|trace| - 1], events[|trace| - 1], lay)))
  }

  /** A run that is not lost has come to `end`. */
  ghost predicate RunEnds(start: State, events: seq<Event>, trace: seq<State>, o: Outcome, end: State, lay: Layout)
    requires |trace| <= |events|
  {
    if trace == [] then end == start
    else
      var n := |trace| - 1;
      trace[n].Good() && end.Good() && Does(trace[n], events[n], o, end, lay)
  }

  lemma RunStart(start: State, events: seq<Event>, lay: Layout)
    ensures IsRun(start, events, [], Running, lay) && RunEnds(start, events, [], Running, start, lay)
  {
  }

  /** One more event. */
  lemma RunMore(start: State, events: seq<Event>, trace: seq<State>, s: State, o: Outcome, lay: Layout)
    requires IsRun(start, events, trace, Running, lay) && RunEnds(start, events, trace, Running, s, lay)
    requires |trace| < |events| && s.Good() && (o == Lost <==> Loses(s, events[|trace|], lay))
    ensures IsRun(start, events, trace + [s], o, lay)
  {
    hide Does, Loses;
    var n := |trace|;
    assert n > 0 ==> !Loses(trace[n - 1], events[n - 1], lay);
    forall i | 0 <= i < n
      ensures !Loses(trace[i], events[i], lay)
      ensures Does(trace[i], events[i], Running, (trace + [s])[i + 1], lay)
    {
      if i + 1 < n { assert (trace + [s])[i + 1] == trace[i + 1]; }
    }
  }

  lemma RunEnded(start: State, events: seq<Event>, trace: seq<State>, s: State, o: Outcome, s': State, lay: Layout)
    requires |trace| < |events| && s.Good() && s'.Good() && var ok := Does(s, events[|trace|], o, s', lay); ok
    ensures var ok := RunEnds(start, events, trace + [s], o, s', lay); ok
  {
    hide Does;
  }

  /** Process `q` was never current. */
  ghost predicate Stayed(trace: seq<State>, q: int) { forall s :: s in trace ==> s.current != q }

  /** Every machine of a run meets the invariant, and its current process could
      run at the start. */
  ghost predicate Kept(start: State, trace: seq<State>, lay: Layout)
    requires start.Good()
  {
    forall s :: s in trace ==>
      Sized(s.machine) && Inv(s.machine, lay, 0)
      && s.current < NPROC && start.machine.proc[s.current].state == P_RUNNABLE
  }

  ghost predicate RunnableBefore(m: Machine, m': Machine)
    requires Sized(m) && Sized(m')
  {
    forall q :: 0 <= q < NPROC && m'.proc[q].state == P_RUNNABLE ==> m.proc[q].state == P_RUNNABLE
  }

  /** Another event of process `pid`. */
  lemma KeptMore(start: State, trace: seq<State>, s: State, lay: Layout)
    requires start.Good() && s.Good() && Kept(start, trace, lay) && Inv(s.machine, lay, 0)
    requires RunnableBefore(start.machine, s.machine) && s.machine.proc[s.current].state == P_RUNNABLE
    ensures Kept(start, trace + [s], lay)
  {
    hide Inv;
  }

  lemma StayedMore(m0: Machine, trace: seq<State>, s: State, m': Machine)
    requires forall q: int :: Stayed(trace, q) && q != PO_RESERVED ==> Untouched(m0, s.machine, q)
    requires forall q: int :: q != s.current && q != PO_RESERVED ==> Untouched(s.machine, m', q)
    ensures forall q: int :: Stayed(trace + [s], q) && q != PO_RESERVED ==> Untouched(m0, m', q)
  {
    hide Untouched;
    forall q: int | Stayed(trace + [s], q) && q != PO_RESERVED ensures Untouched(m0, m', q) {
      assert s in trace + [s];
      assert forall r :: r in trace ==> r in trace + [s];
      UntouchedTrans(m0, s.machine, m', q);
    }
  }

  /** A run that has come this far, to `end` if the kernel is not lost. */
  ghost predicate SoFar(start: State, events: seq<Event>, trace: seq<State>, o: Outcome, end: State, lay: Layout) {
    start.Good() && end.Good() && IsRun(start, events, trace, o, lay) && Kept(start, trace, lay)
    && (o == Running || trace != [])
    && (o != Lost ==>
          Inv(end.machine, lay, 0) && RunEnds(start, events, trace, o, end, lay)
          && forall q: int :: Stayed(trace, q) && q != PO_RESERVED ==> Untouched(start.machine, end.machine, q))
    && (o == Running ==>
          end.machine.proc[end.current].state == P_RUNNABLE && RunnableBefore(start.machine, end.machine)
          && (HasFree(end.machine) ==> NoKernelPage(events, |trace|, lay)))
    && (AllMapped(start.machine, lay) && NoKernelPage(events, |events|, lay) ==>
          o != Lost && AllMapped(end.machine, lay) && ((forall e :: e in events ==> !e.Panics()) ==> o != Panicked))
  }

  lemma StartsRun(start: State, events: seq<Event>, lay: Layout)
    requires start.Good() && Inv(start.machine, lay, 0) && start.machine.proc[start.current].state == P_RUNNABLE
    ensures var ok := SoFar(start, events, [], Running, start, lay); ok
  {
    RunStart(start, events, lay);
    SelfUntouched(start.machine);
    hide Inv, AllMapped, Untouched, HasFree, IsRun, RunEnds;
  }

  /** A step takes a run one event further. */
  lemma NextSoFar(start: State, events: seq<Event>, trace: seq<State>, s: State, o: Outcome, s': State, lay: Layout)
    requires |trace| < |events| && s'.Good() && var ok := SoFar(start, events, trace, Running, s, lay); ok
    requires o == Lost <==> Loses(s, events[|trace|], lay)
    requires o != Lost ==> Inv(s'.machine, lay, 0) && var ok := Does(s, events[|trace|], o, s', lay); ok
    requires o != Lost ==>
      forall q: int :: q != s.current && q != PO_RESERVED ==> Untouched(s.machine, s'.machine, q)
    requires o == Running ==> s'.machine.proc[s'.current].state == P_RUNNABLE
    requires o != Lost ==> RunnableBefore(s.machine, s'.machine)
    requires o != Lost && HasFree(s'.machine) ==> HasFree(s.machine)
    requires var e := events[|trace|];
      (AllMapped(s.machine, lay) && !e.AsksForKernelPage(lay) ==>
        o != Lost && AllMapped(s'.machine, lay) && (!e.Panics() ==> o != Panicked))
      && (e.AsksForKernelPage(lay) && o == Running ==> !HasFree(s'.machine))
    ensures var ok := SoFar(start, events, trace + [s], o, s', lay); ok
  {
    hide Inv, AllMapped, Untouched, HasFree, IsRun, RunEnds, Does, Loses, Event.AsksForKernelPage, Event.Panics, Stayed;
    assert events[|trace|] in events;
    RunMore(start, events, trace, s, o, lay);
    KeptMore(start, trace, s, lay);
    if o != Lost {
      RunEnded(start, events, trace, s, o, s', lay);
      StayedMore(start.machine, trace, s, s'.machine);
    }
    hide Kept;
  }

  function SetState(m: Machine, pid: int, state: ProcState): Machine
    requires 0 <= pid < |m.proc|
  {
    m.(proc := m.proc[pid := m.proc[pid].(state := state)])
  }

  lemma NoProcessZero(m: Machine, lay: Layout)
    requires Inv(m, lay, 0)
    ensures Sized(m) && m.proc[0].state == P_FREE
  {
  }

  /** Changing registers or a live state of `pid`. */
  lemma StateStep(m: Machine, m': Machine, lay: Layout, pid: int)
    requires Inv(m, lay, 0) && Live(m, pid) && Sized(m') && m' == m.(proc := m'.proc)
    requires m'.proc[pid].root == m.proc[pid].root && m'.proc[pid].state != P_FREE
    requires forall q :: 0 <= q < NPROC && q != pid ==> m'.proc[q] == m.proc[q]
    ensures Inv(m', lay, 0) && (AllMapped(m, lay) <==> AllMapped(m', lay))
    ensures forall q: int :: q != pid && q != PO_RESERVED ==> Untouched(m, m', q)
  {
    StateInv(m, m', lay);
    hide Inv, KernelMapped;
    StepUntouched(m, m', pid, {});
    assert forall q: int :: Live(m', q) <==> Live(m, q);
  }

  lemma SameProc(m: Machine, m': Machine, q: int)
    requires Untouched(m, m', q) && 0 <= q < NPROC
    ensures m'.proc[q] == m.proc[q]
  {
  }

  lemma PageAllocState(m: Machine, m': Machine, pid: int, addr: nat)
    requires Sized(m) && Sized(m') && 0 <= pid < NPROC && PageAllocated(m, m', pid, addr)
    ensures m'.proc[pid].state == m.proc[pid].state && m'.proc[pid].root == m.proc[pid].root
    ensures forall q :: 0 <= q < NPROC && q != pid ==> m'.proc[q] == m.proc[q]
  {
  }

  lemma OtherUntouched(m: Machine, m': Machine, pid: int, q: int)
    requires OthersUntouched(m, m', pid) && q != pid
    ensures Untouched(m, m', q)
  {
  }

  /** What holds when `n` of the programs have been set up. */
  ghost predicate Booted(m: Machine, lay: Layout, programs: seq<seq<Segment>>, n: nat)
    requires n <= |programs| < NPROC
  {
    Inv(m, lay, 0) && AllMapped(m, lay)
    && (forall pid :: 0 <= pid < NPROC ==> m.proc[pid].state == if 1 <= pid <= n then P_RUNNABLE else P_FREE)
    && forall i :: 0 <= i < n ==> ProgramLoaded(m, i + 1, programs[i])
  }

  lemma BootedIs(m: Machine, lay: Layout, programs: seq<seq<Segment>>, n: nat)
    requires n <= |programs| < NPROC && Booted(m, lay, programs, n)
    ensures Inv(m, lay, 0) && AllMapped(m, lay) && Sized(m)
    ensures n + 1 < NPROC ==> m.proc[n + 1].state == P_FREE
  {
  }

  lemma BootedMore(m: Machine, m': Machine, lay: Layout, programs: seq<seq<Segment>>, i: nat)
    requires i < |programs| < NPROC && Booted(m, lay, programs, i)
    requires Inv(m', lay, 0) && AllMapped(m', lay) && ProgramLoaded(m', i + 1, programs[i])
      && OthersUntouched(m, m', i + 1)
    requires m'.proc[i + 1].state == P_RUNNABLE && forall q :: 0 <= q < NPROC && q != i + 1 ==> m'.proc[q] == m.proc[q]
    ensures Booted(m', lay, programs, i + 1)
  {
    assert Sized(m) && Sized(m');
    hide Inv, AllMapped, ProgramLoaded, OthersUntouched;
    forall j | 0 <= j < i ensures ProgramLoaded(m', j + 1, programs[j]) {
      OtherUntouched(m, m', i + 1, j + 1);
      ProgramUntouched(m, m', lay, j + 1, programs[j]);
    }
  }

  lemma BootFitsNext(info: seq<PageInfo>, programs: seq<seq<Segment>>, pid: int)
    requires programs != []
    ensures BootFits(info, programs, pid) <==>
      ProcessFits(info, programs[0], pid) && BootFits(ProcessTaken(info, programs[0], pid), programs[1..], pid + 1)
  {
  }

  /** Every live process can be run while the kernel is mapped. */
  lemma AllSettable(m: Machine, lay: Layout, pid: int)
    requires Inv(m, lay, 0) && AllMapped(m, lay) && Live(m, pid)
    ensures Settable(m.mem, m.proc[pid].root, lay) && KernelMapped(m.mem, m.tables[pid], lay)
  {
    assert ProcOk(m, pid);
    MappedSettable(m.mem, m.tables[pid], lay);
  }

  /** None of the first `n` events asks for a kernel page. */
  predicate NoKernelPage(events: seq<Event>, n: nat, lay: Layout)
    requires n <= |events|
  {
    forall i :: 0 <= i < n ==> !events[i].AsksForKernelPage(lay)
  }

  class Kernel {
    const memory: PhysicalMemory
    const pageinfo: array<PageInfo>
    const processes: array<Proc>
    const lay: Layout
    var current: nat
    var ticks: nat
    ghost var tables: seq<Tables>

    ghost predicate Valid()
      reads this
    {
      memory.Valid() && pageinfo.Length == NPAGES && processes.Length == NPROC && |tables| == NPROC && current < NPROC
    }

    ghost function Abs(): Machine
      requires Valid()
      reads this, memory.cell, pageinfo, processes
    {
      Machine(memory.Snapshot(), pageinfo[..], processes[..], tables)
    }

    ghost function Now(): State
      requires Valid()
      reads this, memory.cell, pageinfo, processes
    {
      State(Abs(), current, ticks)
    }

    /** hardware_init, pageinfo_init and the process table of `kernel`, up to
        the first process_setup. */
    constructor (lay: Layout)
      requires GoodLayout(lay)
      ensures Valid() && Inv(Abs(), lay, 0) && this.lay == lay && current == 0
      ensures AllMapped(Abs(), lay) && forall pid :: 0 <= pid < NPROC ==> processes[pid].state == P_FREE
      ensures fresh(memory.cell) && fresh(pageinfo) && fresh(processes)
    {
      this.lay := lay;
      memory := new PhysicalMemory();
      pageinfo := new PageInfo[NPAGES];
      processes := new Proc[NPROC](_ => Proc(P_FREE, 0, 0));
      tables := seq(NPROC, _ => KERNEL_TABLES);
      current, ticks := 0, 0;
      new;
      InitKernelTable(memory);
      PageinfoInit();
    }

    /** `pageinfo_init` */
    method PageinfoInit()
      requires Valid() && GoodLayout(lay)
      modifies pageinfo
      ensures PagesOk(Abs(), lay, 0)
    {
      var pn := 0;
      while pn < NPAGES
        invariant pn <= NPAGES
        invariant forall p: nat :: p < pn ==> InfoOk(Abs(), lay, 0, p)
      {
        var owner := if IsReserved(pn) then PO_RESERVED else if IsKernelPage(lay, pn) then PO_KERNEL else PO_FREE;
        ghost var m := Abs();
        pageinfo[pn] := PageInfo(owner, if owner != PO_FREE then 1 else 0);
        forall p: nat | p <= pn ensures InfoOk(Abs(), lay, 0, p) { assert p < pn ==> InfoOk(m, lay, 0, p); }
        pn := pn + 1;
      }
    }

    /** `use_any_physical_page`: the lowest free page, or -1. */
    method UseAnyPhysicalPage() returns (addr: nat)
      requires Valid()
      ensures addr == UINT64_MAX ==> forall p: nat :: p < NPAGES ==> pageinfo[p].refcount != 0
      ensures addr != UINT64_MAX ==>
        (addr % PAGESIZE == 0 && addr < MEMSIZE_PHYSICAL && pageinfo[addr / PAGESIZE].refcount == 0
         && forall p: nat :: p < addr / PAGESIZE ==> pageinfo[p].refcount != 0)
      ensures addr == if Lowest(Abs().info) < NPAGES then PAGESIZE * Lowest(Abs().info) else UINT64_MAX
    {
      var pn := 0;
      while pn < NPAGES && pageinfo[pn].refcount != 0
        invariant pn <= NPAGES
        invariant forall p: nat :: p < pn ==> pageinfo[p].refcount != 0
      {
        pn := pn + 1;
      }
      addr := if pn < NPAGES then PAGESIZE * pn else UINT64_MAX;
      LowestIs(Abs().info, pn);
    }

    /** `assign_physical_page` */
    method AssignPhysicalPage(addr: nat, owner: int) returns (r: int)
      requires Valid()
      modifies pageinfo
      ensures r ==
        if addr % PAGESIZE == 0 && addr < MEMSIZE_PHYSICAL && old(pageinfo[addr / PAGESIZE].refcount) == 0 then 0
        else -1
      ensures r == 0 ==> Abs() == Claim(old(Abs()), owner, addr / PAGESIZE)
      ensures r == -1 ==> Abs() == old(Abs())
    {
      if addr % PAGESIZE != 0 || addr >= MEMSIZE_PHYSICAL || pageinfo[addr / PAGESIZE].refcount != 0 {
        r := -1;
      } else {
        pageinfo[addr / PAGESIZE] := PageInfo(owner, 1);
        r := 0;
      }
    }

    /** One page request of `setup_pagetable`: use, assign and clear a page.
        Without a free page the code would clear memory at address -1; the
        set-up stops here. */
    method ClaimCleared(pid: nat, ghost m0: Machine, ghost taken: set<nat>) returns (p: Option<nat>)
      requires Valid() && Claiming(m0, Abs(), lay, pid, taken)
      modifies memory.cell, pageinfo
      ensures Valid()
      ensures p == None <==> |FreePages(m0)| == |taken|
      ensures p == None ==> Claiming(m0, Abs(), lay, pid, taken)
      ensures p.Some? ==> p.value !in taken && Claiming(m0, Abs(), lay, pid, taken + {p.value})
    {
      ghost var m := Abs();
      var addr := UseAnyPhysicalPage();
      var r := AssignPhysicalPage(addr, pid);
      if addr == UINT64_MAX {
        assert FreePages(m) == {};
        return None;
      }
      ghost var pn := addr / PAGESIZE;
      assert pn in FreePages(m);
      SetupClaim(m, lay, pid, pn);
      ghost var m1 := Abs();
      memory.ClearPage(addr / PAGESIZE);
      SetupWrite(m1, Abs(), lay, pid, {pn});
      NotKernelTable(m1, lay, pid, pn);
      p := Some(addr / PAGESIZE);
      OwnStep(m, Abs(), pid, {pn});
      OthersTrans(m0, m, Abs(), pid);
      ClaimingMore(m0, m, Abs(), lay, pid, taken, pn);
    }

    /** The five page requests of `setup_pagetable`, as far as pages last. */
    method ClaimTables(pid: nat) returns (ok: bool, a0: nat, a1: nat, a2: nat, a3: nat, a4: nat, ghost taken: set<nat>)
      requires Valid() && Setting(Abs(), lay, pid)
      modifies memory.cell, pageinfo
      ensures Valid() && Claiming(old(Abs()), Abs(), lay, pid, taken)
      ensures ok ==> |taken| == 5 && a0 in taken && a1 in taken && a2 in taken && a3 in taken && a4 in taken
      ensures ok ==>
        a0 != a1 && a0 != a2 && a0 != a3 && a0 != a4 && a1 != a2 && a1 != a3 && a1 != a4
        && a2 != a3 && a2 != a4 && a3 != a4
      ensures !ok ==> |taken| < 5 && |FreePages(old(Abs()))| == |taken|
    {
      ghost var m0 := Abs();
      ClaimingStart(m0, lay, pid);
      hide *;
      ok, a0, a1, a2, a3, a4, taken := false, 0, 0, 0, 0, 0, {};
      var p := ClaimCleared(pid, m0, taken);
      if p == None { return; }
      a0, taken := p.value, taken + {p.value};
      p := ClaimCleared(pid, m0, taken);
      if p == None { return; }
      a1, taken := p.value, taken + {p.value};
      p := ClaimCleared(pid, m0, taken);
      if p == None { return; }
      a2, taken := p.value, taken + {p.value};
      p := ClaimCleared(pid, m0, taken);
      if p == None { return; }
      a3, taken := p.value, taken + {p.value};
      p := ClaimCleared(pid, m0, taken);
      if p == None { return; }
      a4, taken := p.value, taken + {p.value};
      ok := true;
    }

    /** `setup_pagetable`; it has its five pages, the lowest, exactly when
        five are free. */
    method SetupPagetable(pid: nat) returns (ok: bool)
      requires Valid() && Setting(Abs(), lay, pid)
      modifies memory.cell, pageinfo, processes, this`tables
      ensures Valid()
      ensures ok <==> |FreePages(old(Abs()))| >= 5
      ensures ok ==> Loading(Abs(), lay, pid) && InitialTable(Abs().mem, tables[pid])
      ensures ok ==> Abs().info == TakeN(old(Abs()).info, pid, 5)
      ensures forall q :: 0 <= q < NPROC && q != pid ==>
        processes[q] == old(processes[q]) && tables[q] == old(tables[q])
      ensures processes[pid].state == old(processes[pid].state) && OthersUntouched(old(Abs()), Abs(), pid)
    {
      ghost var m0 := Abs();
      var a0, a1, a2, a3, a4;
      ghost var taken;
      ok, a0, a1, a2, a3, a4, taken := ClaimTables(pid);
      ghost var m := Abs();
      ClaimingEnd(m0, m, lay, pid, taken);
      if ok {
        assert OwnsTables(m, pid, Tables(a0, a1, a2, a3, a4));
        assert Distinct(Tables(a0, a1, a2, a3, a4));
        hide *;
        LinkProcess(pid, a0, a1, a2, a3, a4);
        OthersTrans(m0, m, Abs(), pid);
      }
    }

    /** Linking the five pages and making them the table of the process. */
    method LinkProcess(pid: nat, a0: nat, a1: nat, a2: nat, a3: nat, a4: nat)
      requires Valid() && Setting(Abs(), lay, pid)
      requires Distinct(Tables(a0, a1, a2, a3, a4)) && OwnsTables(Abs(), pid, Tables(a0, a1, a2, a3, a4))
      requires Cleared(Abs().mem, a0) && Cleared(Abs().mem, a1) && Cleared(Abs().mem, a2) && Cleared(Abs().mem, a3)
        && Cleared(Abs().mem, a4)
      modifies memory.cell, processes, this`tables
      ensures Valid() && Loading(Abs(), lay, pid) && InitialTable(Abs().mem, tables[pid])
        && Abs().info == old(Abs()).info
      ensures forall q :: 0 <= q < NPROC && q != pid ==>
        processes[q] == old(processes[q]) && tables[q] == old(tables[q])
      ensures processes[pid].state == old(processes[pid].state) && OthersUntouched(old(Abs()), Abs(), pid)
    {
      hide Loading, Cleared, SameOutside, InitialTable, OthersUntouched;
      ghost var t, m := Tables(a0, a1, a2, a3, a4), Abs();
      processes[pid] := processes[pid].(root := a0);
      LinkTables(memory, a0, a1, a2, a3, a4);
      ghost var m1 := m.(mem := Abs().mem);
      SetupWrite(m, m1, lay, pid, {a0, a1, a2, a3, a4});
      tables := tables[pid := t];
      StartLoading(m1, Abs(), lay, pid, t);
      OwnStep(m, Abs(), pid, {a0, a1, a2, a3, a4});
    }

    /** The body of the page loop of `program_load_segment`: it loads the page
        if and only if that page exists and is free. */
    method LoadOne(pid: nat, addr: nat, ghost first: nat, ghost n: nat) returns (r: int)
      requires Valid() && Loading(Abs(), lay, pid) && LoadedPages(Abs(), pid, first, n)
        && addr == PAGESIZE * (first + n)
      modifies memory.cell, pageinfo
      ensures Valid() && Loading(Abs(), lay, pid) && OthersUntouched(old(Abs()), Abs(), pid)
      ensures r == if old(FreeAt(Abs().info, first + n)) then 0 else -1
      ensures r == -1 ==> Abs() == old(Abs())
      ensures r == 0 ==> Abs() == Claim(old(Abs()), pid, first + n).(mem := Abs().mem)
      ensures r == 0 ==> LoadedPages(Abs(), pid, first, n + 1)
      ensures SameOutside(old(Abs()).mem, Abs().mem, {tables[pid].l3, tables[pid].l4})
      ensures LeavesKept(old(Abs()).mem, Abs().mem, tables[pid], first + n, 1)
    {
      ghost var m := Abs();
      LoadingTable(m, lay, pid);
      SelfUntouched(m);
      hide Loading, SameOutside, Remapped, Shape, OthersUntouched, LeafAt;
      r := AssignPhysicalPage(addr, pid);
      if r == 0 {
        r := MapTable(memory, processes[pid].root, tables[pid], addr, addr, PAGESIZE, PTE_PWU);
        LoadOnePage(m, Abs(), lay, pid, first, n);
        RemapKeeps(m.mem, Abs().mem, tables[pid], first + n, PAGESIZE * (first + n), PTE_PWU);
        OwnStep(m, Abs(), pid, {tables[pid].l3, tables[pid].l4});
      } else {
        NothingChanged(m.mem, tables[pid], first + n);
      }
    }

    /** The page loop of `program_load_segment`: all pages or a failure. */
    method LoadPages(pid: nat, seg: Segment) returns (r: int)
      requires Valid() && Loading(Abs(), lay, pid)
      modifies memory.cell, pageinfo
      ensures Valid() && Loading(Abs(), lay, pid)
      ensures Abs() == old(Abs()).(mem := Abs().mem, info := Abs().info)
      ensures r == if old(RangeFree(Abs().info, seg.first, seg.Pages())) then 0 else -1
      ensures r == 0 ==> LoadedPages(Abs(), pid, seg.first, seg.Pages())
      ensures r == 0 ==> Abs().info == GivenRange(old(Abs()).info, seg.first, seg.Pages(), pid)
      ensures SameOutside(old(Abs()).mem, Abs().mem, {tables[pid].l3, tables[pid].l4})
      ensures LeavesKept(old(Abs()).mem, Abs().mem, tables[pid], seg.first, seg.Pages())
      ensures OthersUntouched(old(Abs()), Abs(), pid)
    {
      ghost var m0 := Abs();
      ghost var n := 0;
      PartlyStart(m0, lay, pid, seg.first);
      var addr, endMem := PAGESIZE * seg.first, PAGESIZE * seg.first + 8 * seg.memWords;
      hide Partly, Loading, LoadedPages, LeavesKept, OthersUntouched, SameOutside, RangeFree, GivenRange;
      while addr < endMem
        invariant addr == PAGESIZE * (seg.first + n) && n <= seg.Pages()
        invariant Partly(m0, Abs(), lay, pid, seg.first, n)
      {
        ghost var m := Abs();
        PartlyEnd(m0, m, lay, pid, seg.first, n);
        r := LoadOne(pid, addr, seg.first, n);
        PartlyMore(m0, m, Abs(), lay, pid, seg.first, n, r);
        if r < 0 {
          PartlyFails(m0, Abs(), lay, pid, seg.first, n, seg.Pages());
          return -1;
        }
        addr := addr + PAGESIZE;
        n := n + 1;
      }
      PartlyEnd(m0, Abs(), lay, pid, seg.first, n);
      r := 0;
    }

    method StoreImage(seg: Segment)
      requires Valid() && NENTRIES * seg.first + seg.memWords <= NCELLS && seg.Good()
      modifies memory.cell
      ensures Abs() == old(Abs()).(mem := Abs().mem)
      ensures ImageWritten(Abs().mem, seg) && SameOutside(old(Abs()).mem, Abs().mem, seg.PageSet())
    {
      forall i | 0 <= i < seg.memWords {
        memory.cell[NENTRIES * seg.first + i] := if i < |seg.image| then seg.image[i] else 0;
      }
    }

    /** The memcpy and memset of `program_load_segment`, through the identity
        map that `LoadPages` has set up. */
    method WriteImage(pid: nat, seg: Segment)
      requires Valid() && Loading(Abs(), lay, pid) && LoadedPages(Abs(), pid, seg.first, seg.Pages()) && seg.Good()
      modifies memory.cell
      ensures Loading(Abs(), lay, pid) && LoadedPages(Abs(), pid, seg.first, seg.Pages())
      ensures Abs() == old(Abs()).(mem := Abs().mem)
      ensures ImageWritten(Abs().mem, seg) && OthersUntouched(old(Abs()), Abs(), pid)
      ensures SameOutside(old(Abs()).mem, Abs().mem, seg.PageSet())
      ensures LeavesKept(old(Abs()).mem, Abs().mem, tables[pid], 0, 0)
    {
      LoadingTable(Abs(), lay, pid);
      ghost var m, changed := Abs(), seg.PageSet();
      LoadedOwned(m, pid, seg.first, seg.Pages());
      hide Loading, LoadedPages, SameOutside, ImageWritten, Shape;
      StoreImage(seg);
      LoadWrite(m, Abs(), lay, pid, changed);
      LoadedFrame(m, Abs(), lay, pid, seg.first, seg.Pages(), changed);
      ShapeFrame(m.mem, Abs().mem, tables[pid], changed);
      OwnStep(m, Abs(), pid, changed);
    }

    /** `program_load_segment`: it succeeds if and only if the pages of the
        segment are free. */
    method LoadSegment(pid: nat, seg: Segment) returns (r: int)
      requires Valid() && Loading(Abs(), lay, pid) && seg.Good()
      modifies memory.cell, pageinfo
      ensures Valid() && Loading(Abs(), lay, pid)
      ensures Abs() == old(Abs()).(mem := Abs().mem, info := Abs().info)
      ensures r == if old(RangeFree(Abs().info, seg.first, seg.Pages())) then 0 else -1
      ensures r == 0 ==> SegmentLoaded(Abs(), pid, seg)
      ensures r == 0 ==> Abs().info == GivenRange(old(Abs()).info, seg.first, seg.Pages(), pid)
      ensures SameOutside(old(Abs()).mem, Abs().mem, seg.PageSet() + {tables[pid].l3, tables[pid].l4})
      ensures LeavesKept(old(Abs()).mem, Abs().mem, tables[pid], seg.first, seg.Pages())
      ensures OthersUntouched(old(Abs()), Abs(), pid)
    {
      hide Loading, SameOutside, Remapped, Shape, OthersUntouched, LeavesKept, GivenRange, ImageWritten, LeafAt;
      LoadingTable(Abs(), lay, pid);
      ghost var m0, t := Abs(), tables[pid];
      r := LoadPages(pid, seg);
      ghost var m1 := Abs();
      OutsideMore(m0.mem, m1.mem, {t.l3, t.l4}, seg.PageSet() + {t.l3, t.l4});
      if r == 0 {
        WriteImage(pid, seg);
        ghost var m2 := Abs();
        OthersTrans(m0, m1, m2, pid);
        KeptChain(m0.mem, m1.mem, m2.mem, t, seg, 0, 0, seg.PageSet());
        LoadingTable(m2, lay, pid);
        assert LoadedPage(m2, pid, seg.first, PTE_PWU);
        if !seg.writable {
          var e := MapTable(memory, processes[pid].root, tables[pid], PAGESIZE * seg.first, PAGESIZE * seg.first,
            PAGESIZE, PTE_P + PTE_U);
          ReadOnlyFirst(m2, Abs(), lay, pid, seg);
          RemapKeeps(m2.mem, Abs().mem, t, seg.first, PAGESIZE * seg.first, PTE_P + PTE_U);
          KeptChain(m0.mem, m2.mem, Abs().mem, t, seg, seg.first, 1, {t.l3, t.l4});
          OwnStep(m2, Abs(), pid, {t.l3, t.l4});
          OthersTrans(m0, m2, Abs(), pid);
        }
      }
    }
    /** `program_load`: it succeeds if and only if the pages of all segments
        are free and no two segments share one; then all are in place. */
    method LoadProgram(pid: nat, program: seq<Segment>) returns (r: int)
      requires Valid() && Loading(Abs(), lay, pid) && forall seg :: seg in program ==> seg.Good()
      modifies memory.cell, pageinfo
      ensures Valid() && Loading(Abs(), lay, pid)
      ensures Abs() == old(Abs()).(mem := Abs().mem, info := Abs().info)
      ensures r == 0 || r == -1
      ensures r == 0 <==> Fits(old(Abs()).info, program)
      ensures r == 0 ==> Abs().info == TakenFor(old(Abs()).info, program, pid)
      ensures r == 0 ==> forall seg :: seg in program ==> SegmentLoaded(Abs(), pid, seg)
      ensures OthersUntouched(old(Abs()), Abs(), pid)
    {
      ghost var m0 := Abs();
      LoadingTable(m0, lay, pid);
      FitsNone(m0.info, pid);
      hide Loading, LoadedPages, LoadedPage, OthersUntouched, Fits, TakenFor, SegmentLoaded, SameOutside, LeavesKept,
        RangeFree, GivenRange;
      assert program[..0] == [];
      for i := 0 to |program|
        invariant Loading(Abs(), lay, pid) && OthersUntouched(m0, Abs(), pid)
        invariant Abs() == m0.(mem := Abs().mem, info := TakenFor(m0.info, program[..i], pid))
        invariant Fits(m0.info, program[..i])
        invariant forall seg :: seg in program[..i] ==> SegmentLoaded(Abs(), pid, seg)
      {
        ghost var m := Abs();
        FitsMore(m0.info, program[..i], program[i], pid);
        assert program[..i + 1] == program[..i] + [program[i]];
        r := LoadSegment(pid, program[i]);
        OthersTrans(m0, m, Abs(), pid);
        if r < 0 {
          FitsPrefixNot(m0.info, program, i + 1);
          return -1;
        }
        SegmentsKept(m, Abs(), lay, pid, program[..i], program[i]);
      }
      assert program[..|program|] == program;
      r := 0;
    }

    /** The stack page of `process_setup`: the lowest free one. */
    method MapStack(pid: nat, ghost program: seq<Segment>) returns (ok: bool)
      requires Valid() && Loading(Abs(), lay, pid) && forall seg :: seg in program ==> SegmentLoaded(Abs(), pid, seg)
      modifies memory.cell, pageinfo
      ensures Valid() && OthersUntouched(old(Abs()), Abs(), pid)
      ensures Abs() == old(Abs()).(mem := Abs().mem, info := Abs().info)
      ensures ok <==> Lowest(old(Abs()).info) < NPAGES
      ensures ok ==> Loading(Abs(), lay, pid) && Abs().info == Take(old(Abs()).info, pid)
      ensures ok ==> LeafAt(Abs().mem, tables[pid], STACK) == PAGESIZE * Lowest(old(Abs()).info) + PTE_PWU
      ensures ok ==> ProgramLoaded(Abs(), pid, program)
    {
      ghost var m, t := Abs(), tables[pid];
      LoadingTable(m, lay, pid);
      var stack := UseAnyPhysicalPage();
      var r := AssignPhysicalPage(stack, pid);
      if stack == UINT64_MAX {
        return false;  // assertion in virtual_memory_map
      }
      ghost var pn := stack / PAGESIZE;
      assert Vpn(MEMSIZE_VIRTUAL - PAGESIZE) == STACK;
      hide Loading, OthersUntouched, Shape, SameOutside, LeafAt, SegmentLoaded, ProgramLoaded, Lowest, Remapped, Vpn;
      r := MapTable(memory, processes[pid].root, t, MEMSIZE_VIRTUAL - PAGESIZE, stack, PAGESIZE, PTE_PWU);
      StackLoaded(m, Abs(), lay, pid, program, pn);
      ok := true;
    }

    /** `process_setup`: if and only if there are pages for everything the new
        process is runnable, its program is in place and everything holds;
        otherwise the kernel cannot go on. */
    method ProcessSetup(pid: nat, program: seq<Segment>) returns (ok: bool)
      requires Valid() && 0 < pid < NPROC && Inv(Abs(), lay, 0) && AllMapped(Abs(), lay)
        && processes[pid].state == P_FREE
      requires forall seg :: seg in program ==> seg.Good()
      modifies memory.cell, pageinfo, processes, this`tables
      ensures Valid()
      ensures ok <==> ProcessFits(old(Abs()).info, program, pid)
      ensures ok ==> Inv(Abs(), lay, 0) && AllMapped(Abs(), lay) && processes[pid].state == P_RUNNABLE
      ensures ok ==> ProgramLoaded(Abs(), pid, program) && Abs().info == ProcessTaken(old(Abs()).info, program, pid)
      ensures forall q :: 0 <= q < NPROC && q != pid ==> processes[q] == old(processes[q])
      ensures OthersUntouched(old(Abs()), Abs(), pid)
    {
      ghost var m0 := Abs();
      FreeSetPages(m0);
      processes[pid] := processes[pid].(rax := 0);  // process_init
      StartSetting(m0, Abs(), lay, pid);
      OwnStep(m0, Abs(), pid, {});
      hide Inv, Setting, Loading, AllMapped, InitialTable, OthersUntouched, Fits, TakenFor, TakeN, Take, Lowest,
        SegmentLoaded, ProgramLoaded, FreePages, FreeSet;
      ghost var ms := Abs();
      assert FreePages(ms) == FreePages(m0) by { FreeSetPages(ms); }
      ok := SetupPagetable(pid);
      OthersTrans(m0, ms, Abs(), pid);
      if !ok { return; }
      ms := Abs();
      var r := LoadProgram(pid, program);
      OthersTrans(m0, ms, Abs(), pid);
      if r < 0 { return false; }
      ms := Abs();
      ok := MapStack(pid, program);
      OthersTrans(m0, ms, Abs(), pid);
      if !ok { return; }
      ms := Abs();
      MakeRunnable(pid, program);
      OthersTrans(m0, ms, Abs(), pid);
    }

    /** The last line of `process_setup`. */
    method MakeRunnable(pid: nat, ghost program: seq<Segment>)
      requires Valid() && Loading(Abs(), lay, pid) && ProgramLoaded(Abs(), pid, program)
      modifies processes
      ensures Valid() && Inv(Abs(), lay, 0) && AllMapped(Abs(), lay) && processes[pid].state == P_RUNNABLE
      ensures Abs() == old(Abs()).(proc := Abs().proc)
        && forall q :: 0 <= q < NPROC && q != pid ==> processes[q] == old(processes[q])
      ensures ProgramLoaded(Abs(), pid, program) && OthersUntouched(old(Abs()), Abs(), pid)
    {
      ghost var m := Abs();
      LoadingTable(m, lay, pid);
      hide *;
      processes[pid] := processes[pid].(state := P_RUNNABLE);
      FinishLoading(m, Abs(), lay, pid);
      ProgramSame(m, Abs(), pid, program);
      SameOutsideSelf(m.mem);
      OwnStep(m, Abs(), pid, {});
    }

    /** The rest of `kernel`: one process_setup per program, then run process 1. */
    method Boot(programs: seq<seq<Segment>>) returns (ok: bool)
      requires Valid() && 0 < |programs| < NPROC && Booted(Abs(), lay, programs, 0)
      requires forall i, seg :: 0 <= i < |programs| && seg in programs[i] ==> seg.Good()
      modifies memory.cell, pageinfo, processes, this
      ensures Valid() && (ok <==> BootFits(old(Abs()).info, programs, 1))
      ensures ok ==> Booted(Abs(), lay, programs, |programs|) && current == 1
    {
      ghost var all := BootFits(Abs().info, programs, 1);
      assert programs[0..] == programs;
      hide *;
      var i := 0;
      while i < |programs|
        invariant i <= |programs| && Valid() && var booted := Booted(Abs(), lay, programs, i); booted
        invariant all == BootFits(Abs().info, programs[i..], i + 1)
      {
        ok := BootOne(programs, i);
        if !ok { return; }
        i := i + 1;
      }
      assert programs[i..] == [];
      RunFirst(programs);
      ok := true;
    }

    method RunFirst(programs: seq<seq<Segment>>)
      requires Valid() && 0 < |programs| < NPROC && Booted(Abs(), lay, programs, |programs|)
      modifies this`current
      ensures current == 1 && Abs() == old(Abs()) && BootFits(Abs().info, [], |programs| + 1)
    {
      AllSettable(Abs(), lay, 1);
      hide Inv, AllMapped, ProgramLoaded, Settable, KernelMapped;
      var o := RunProcess(1);
      assert o == Running;
    }

    /** One turn of the loop of `kernel`. */
    method BootOne(programs: seq<seq<Segment>>, i: nat) returns (ok: bool)
      requires Valid() && i < |programs| < NPROC && Booted(Abs(), lay, programs, i)
      requires forall j, seg :: 0 <= j < |programs| && seg in programs[j] ==> seg.Good()
      modifies memory.cell, pageinfo, processes, this`tables
      ensures Valid()
      ensures ok ==> Booted(Abs(), lay, programs, i + 1)
      ensures BootFits(old(Abs()).info, programs[i..], i + 1) <==>
        ok && BootFits(Abs().info, programs[i + 1..], i + 2)
    {
      ghost var m := Abs();
      assert programs[i..][1..] == programs[i + 1..];
      BootedIs(m, lay, programs, i);
      hide *;
      ok := ProcessSetup(i + 1, programs[i]);
      BootFitsNext(m.info, programs[i..], i + 1);
      if ok { BootedMore(m, Abs(), lay, programs, i); }
    }

    /** An aligned 8-byte store by user code: what the processor does with the
        current page table. */
    method UserStore(va: nat, value: nat) returns (fault: bool)
      requires Valid() && Inv(Abs(), lay, 0) && Live(Abs(), current) && va % 8 == 0 && va / PAGESIZE < VPN_LIMIT
      modifies memory.cell
      ensures Inv(Abs(), lay, 0)
      ensures AllMapped(Abs(), lay) <==> AllMapped(old(Abs()), lay)
      ensures var vam := Translate(old(Abs()).mem, processes[current].root, va);
        fault == !(HasP(vam.perm) && HasW(vam.perm) && HasU(vam.perm))
        && Abs() == (if fault then old(Abs()) else old(Abs()).(mem := Abs().mem))
        && (!fault ==> vam.pa / 8 < NCELLS && Abs().mem == old(Abs()).mem[vam.pa / 8 := value])
      ensures forall q: int :: q != current && q != PO_RESERVED ==> Untouched(old(Abs()), Abs(), q)
    {
      hide Inv, AllMapped, Untouched, Translate, HasP, HasW, HasU, Shape;
      ghost var m := Abs();
      LiveTable(m, lay, current);
      var vam := Walk(memory, processes[current].root, tables[current], va);
      fault := !(HasP(vam.perm) && HasW(vam.perm) && HasU(vam.perm));
      if fault {
        SelfUntouched(m);
      } else {
        StoreTarget(m, lay, current, va);
        CellInPage(vam.pa);
        memory.cell[vam.pa / 8] := value;
        OneCell(m.mem, Abs().mem, vam.pa / 8, value);
        StoreInv(m, Abs(), lay, current, PageNumber(vam.pa));
      }
    }

    // ------------------------------------------- check_virtual_memory

    /** `check_page_table_mappings` */
    method CheckMappings(root: nat, ghost t: Tables) returns (ok: bool)
      requires Valid() && Shape(Abs().mem, t) && root == t.l0 && GoodLayout(lay)
      ensures ok <==> MappingsOk(Abs().mem, root, lay)
    {
      hide Shape, Translate, HasW;
      var p := KERNEL_START;
      while PAGESIZE * p < lay.end
        invariant KERNEL_START <= p && PAGESIZE * (p - 1) < lay.end
        invariant forall q: nat :: KERNEL_START <= q < p ==> MappingOk(Abs().mem, root, lay, q)
      {
        var vam := Walk(memory, root, t, PAGESIZE * p);
        if vam.pa != PAGESIZE * p || (PAGESIZE * p >= lay.startData && !HasW(vam.perm)) {
          assert !MappingOk(Abs().mem, root, lay, p);
          return false;
        }
        p := p + 1;
      }
      var vam := Walk(memory, root, t, PAGESIZE * KERNEL_STACK);
      ok := vam.pa == PAGESIZE * KERNEL_STACK && HasW(vam.perm);
      assert ok <==> MappingOk(Abs().mem, root, lay, KERNEL_STACK);
    }

    /** `check_page_table_ownership_level` */
    method CheckLevel(pt: nat, level: nat, owner: int, refcount: int) returns (ok: bool)
      requires Valid() && level <= 3
      ensures ok <==> OwnershipLevel(Abs(), pt, level, owner, refcount)
      decreases 3 - level
    {
      if pt >= NPAGES || pageinfo[pt].owner != owner || pageinfo[pt].refcount != refcount { return false; }
      if level < 3 {
        for index := 0 to NENTRIES
          invariant forall i: Index :: i < index && Entry(Abs().mem, pt, i) != 0 ==>
            OwnershipLevel(Abs(), PageNumber(Entry(Abs().mem, pt, i)), level + 1, owner, 1)
        {
          var e := memory.cell[NENTRIES * pt + index];
          ghost var i: Index := index;
          assert Entry(Abs().mem, pt, i) == e;
          if e != 0 {
            ok := CheckLevel(PageNumber(e), level + 1, owner, 1);
            if !ok { return; }
          }
        }
      }
      ok := true;
    }

    /** The two checks of one page table. */
    method CheckTable(root: nat, ghost t: Tables, owner: int, refcount: int) returns (ok: bool)
      requires Valid() && Shape(Abs().mem, t) && root == t.l0 && GoodLayout(lay)
      ensures ok <==> MappingsOk(Abs().mem, root, lay) && OwnershipLevel(Abs(), root, 0, owner, refcount)
    {
      hide *;
      ok := CheckMappings(root, t);
      if ok { ok := CheckLevel(root, 0, owner, refcount); }
    }

    method CheckKernelTable() returns (ok: bool)
      requires Valid() && Inv(Abs(), lay, 0)
      ensures ok <==>
        MappingsOk(Abs().mem, KERNEL_TABLES.l0, lay)
        && OwnershipLevel(Abs(), KERNEL_TABLES.l0, 0, PO_KERNEL, 1 + Sharing(Abs(), NPROC))
    {
      var expected := 1;
      for xpid := 0 to NPROC
        invariant expected == 1 + Sharing(Abs(), xpid)
      {
        if processes[xpid].state != P_FREE && processes[xpid].root == KERNEL_TABLES.l0 { expected := expected + 1; }
      }
      hide Shape, MappingsOk, OwnershipLevel;
      ok := CheckTable(KERNEL_TABLES.l0, KERNEL_TABLES, PO_KERNEL, expected);
    }

    method CheckProcesses() returns (ok: bool)
      requires Valid() && Inv(Abs(), lay, 0)
      ensures ok <==> forall q: nat :: q < NPROC ==> ProcessChecked(Abs(), lay, q)
    {
      hide Shape, MappingsOk, OwnershipLevel;
      for pid := 0 to NPROC
        invariant forall q: nat :: q < pid ==> ProcessChecked(Abs(), lay, q)
      {
        if processes[pid].state != P_FREE && processes[pid].root != KERNEL_TABLES.l0 {
          LiveTable(Abs(), lay, pid);
          ok := CheckTable(processes[pid].root, tables[pid], pid, 1);
          assert ok <==> ProcessChecked(Abs(), lay, pid);
          if !ok { return; }
        }
      }
      ok := true;
    }

    method CheckPages() returns (ok: bool)
      requires Valid()
      ensures ok <==> forall p: nat :: p < NPAGES ==> PageChecked(Abs(), p)
    {
      for pn := 0 to NPAGES
        invariant forall p: nat :: p < pn ==> PageChecked(Abs(), p)
      {
        if pageinfo[pn].refcount > 0 && pageinfo[pn].owner >= 0 {
          ok := pageinfo[pn].owner < NPROC && processes[pageinfo[pn].owner].state != P_FREE;
          assert ok <==> PageChecked(Abs(), pn);
          if !ok { return; }
        }
      }
      ok := true;
    }

    /** `check_virtual_memory` */
    method CheckMemory() returns (ok: bool)
      requires Valid() && Inv(Abs(), lay, 0)
      ensures ok <==> CheckVirtualMemory(Abs(), lay)
    {
      hide MappingsOk, OwnershipLevel, Inv;
      ok := processes[0].state == P_FREE;
      if ok { ok := CheckKernelTable(); }
      if ok { ok := CheckProcesses(); }
      if ok { ok := CheckPages(); }
    }

    // ----------------------------------------------------- switching

    /** The assertions of `set_pagetable`. */
    method SetPagetable(root: nat, ghost t: Tables) returns (ok: bool)
      requires Valid() && KernelTableOk(Abs().mem) && Shape(Abs().mem, t) && root == t.l0
      ensures ok <==> Settable(Abs().mem, root, lay)
    {
      hide Shape, Translate;
      var vam := Walk(memory, root, t, lay.handler);
      ok := vam.pa == lay.handler;
      vam := Walk(memory, KERNEL_TABLES.l0, KERNEL_TABLES, PAGESIZE * root);
      ok := ok && vam.pa == PAGESIZE * root;
      vam := Walk(memory, root, t, PAGESIZE * KERNEL_TABLES.l0);
      ok := ok && vam.pa == PAGESIZE * KERNEL_TABLES.l0;
      vam := Walk(memory, root, t, lay.mapper);
      ok := ok && vam.pa == lay.mapper;
    }

    /** Whether the kernel is there for the processor when it uses the table of
        `pid`. */
    method FindsKernel(pid: nat) returns (ok: bool)
      requires Valid() && Inv(Abs(), lay, 0) && pid < NPROC && processes[pid].state != P_FREE
      ensures ok <==> KernelMapped(Abs().mem, tables[pid], lay)
    {
      NoProcessZero(Abs(), lay);
      LiveTable(Abs(), lay, pid);
      MappingsKernelMapped(Abs().mem, tables[pid], lay);
      hide Shape, MappingsOk, KernelMapped;
      ok := CheckMappings(processes[pid].root, tables[pid]);
    }

    /** `run` */
    method RunProcess(pid: nat) returns (o: Outcome)
      requires Valid() && Inv(Abs(), lay, 0) && pid < NPROC && processes[pid].state == P_RUNNABLE
      modifies this`current
      ensures current == pid && Abs() == old(Abs()) && o == RunOutcome(Abs(), lay, pid)
    {
      hide Shape, Settable, TableOk, KernelMapped;
      current := pid;
      LiveTable(Abs(), lay, pid);
      var ok := SetPagetable(processes[pid].root, tables[pid]);
      if !ok { return Panicked; }
      ok := FindsKernel(pid);
      o := if ok then Running else Lost;
    }

    /** `schedule`: run the next runnable process after `current`, in cyclic
        order; with none the code spins. */
    method Schedule() returns (o: Outcome)
      requires Valid() && Inv(Abs(), lay, 0)
      modifies this`current
      ensures current < NPROC && Abs() == old(Abs())
      ensures o == Spinning ==>
        current == old(current) && forall p :: 0 <= p < NPROC ==> processes[p].state != P_RUNNABLE
      ensures o != Spinning ==> processes[current].state == P_RUNNABLE
      ensures o != Spinning ==> exists k :: IsNext(old(Abs()), old(current), k) && current == Turn(old(current), k)
      ensures o != Spinning ==> o == RunOutcome(Abs(), lay, current)
    {
      TurnStart(current);
      hide Turn, Inv, RunOutcome;
      var pid: nat, k: nat := current, 0;
      while k < NPROC
        invariant k <= NPROC && pid == Turn(current, k) && current == old(current) && Abs() == old(Abs())
        invariant forall j :: 1 <= j <= k ==> processes[Turn(current, j)].state != P_RUNNABLE
      {
        TurnNext(current, k);
        pid, k := (pid + 1) % NPROC, k + 1;
        if processes[pid].state == P_RUNNABLE {
          assert IsNext(Abs(), current, k);
          o := RunProcess(pid);
          return;
        }
      }
      forall p | 0 <= p < NPROC ensures processes[p].state != P_RUNNABLE {
        TurnTo(current, p);
      }
      o := Spinning;
    }

    // ----------------------------------------------------- exceptions

    /** The INT_SYS_PAGE_ALLOC case of `exception`, for any address the
        process asks for; false is the assertion of virtual_memory_map on an
        address that is not page-aligned. */
    method PageAlloc(addr: nat) returns (ok: bool)
      requires Valid() && Inv(Abs(), lay, 0) && Live(Abs(), current)
      modifies memory.cell, pageinfo, processes
      ensures Valid() && Inv(Abs(), lay, 0)
      ensures ok <==> !(old(HasFree(Abs())) && addr % PAGESIZE != 0)
      ensures PageAllocated(old(Abs()), Abs(), current, addr)
    {
      hide Inv, Shape, SameOutside, Remapped, Vpn;
      var pid := current;
      ghost var m, t := Abs(), tables[pid];
      LiveTable(m, lay, pid);
      var pa := UseAnyPhysicalPage();
      var r := AssignPhysicalPage(pa, pid);
      if r >= 0 {
        ghost var pn := pa / PAGESIZE;
        ClaimInv(m, lay, 0, pid, pn);
        assert LowestFree(m, pn);
        if addr % PAGESIZE != 0 {
          assert PageGiven(m, Abs(), pid, addr, pn);
          return false;
        }
        ghost var m1 := Abs();
        ClaimedPage(m, pid, t, pn, Vpn(addr), PTE_PWU);
        FoldedOffset(0, addr, PAGESIZE);
        r := MapTable(memory, processes[pid].root, t, addr, pa, PAGESIZE, PTE_PWU);
        MappedInv(m1, Abs(), lay, 0, pid, t, Vpn(addr), Vpn(addr) + 1, pa, PTE_PWU);
        ghost var m2 := Abs();
        processes[pid] := processes[pid].(rax := 0);
        RaxInv(m2, lay, pid, 0);
        assert Abs() == SetRax(m2, pid, 0);
        assert PageGiven(m, Abs(), pid, addr, pn);
      } else {
        processes[pid] := processes[pid].(rax := UINT64_MAX);
        RaxInv(m, lay, pid, UINT64_MAX);
        assert Abs() == SetRax(m, pid, UINT64_MAX);
      }
      ok := true;
    }

    /** PAGE_ALLOC and the return to the process. */
    method HandlePageRequest(addr: nat) returns (o: Outcome)
      requires Valid() && Inv(Abs(), lay, 0) && AllMapped(Abs(), lay) && processes[current].state == P_RUNNABLE
      modifies memory.cell, pageinfo, processes, this`current
      ensures Valid() && Inv(Abs(), lay, 0) && current == old(current)
      ensures PageAllocated(old(Abs()), Abs(), current, addr)
      ensures o == (if old(PageRequestPanics(Abs(), lay, PageRequest(addr))) then Panicked
                    else if old(PageRequestLost(Abs(), lay, PageRequest(addr))) then Lost
                    else Running)
      ensures processes[current].state == P_RUNNABLE
      ensures OthersUntouched(old(Abs()), Abs(), current)
      ensures HasFree(Abs()) ==> old(HasFree(Abs()))
      ensures AllMapped(Abs(), lay) <==> !(old(HasFree(Abs())) && addr % PAGESIZE == 0 && IsKernelPage(lay, Vpn(addr)))
    {
      ghost var m, pid := Abs(), current;
      NoProcessZero(m, lay);
      SwitchIsKernel(lay);
      hide Inv, AllMapped, HasFree, IsKernelPage, IsSwitchPage, Vpn, OthersUntouched, Settable, KernelMapped;
      var ok := PageAlloc(addr);
      PageAllocState(m, Abs(), pid, addr);
      PageAllocConfined(m, Abs(), lay, pid, addr);
      if !ok { return Panicked; }
      assert Live(Abs(), pid);
      o := RunProcess(current);
      if AllMapped(Abs(), lay) { AllSettable(Abs(), lay, pid); }
    }

    /** The end of an exception that does not return to the process at once:
        with the kernel mapped, the next process can be run. */
    method HandleSchedule() returns (o: Outcome)
      requires Valid() && Inv(Abs(), lay, 0) && AllMapped(Abs(), lay)
      modifies this`current
      ensures current < NPROC && Abs() == old(Abs())
      ensures o in {Running, Spinning} && (o == Running ==> processes[current].state == P_RUNNABLE)
      ensures o == Running ==> exists k :: IsNext(Abs(), old(current), k) && current == Turn(old(current), k)
      ensures o == Spinning ==>
        current == old(current) && forall p :: 0 <= p < NPROC ==> processes[p].state != P_RUNNABLE
    {
      NoProcessZero(Abs(), lay);
      hide Inv, AllMapped, Settable, KernelMapped, IsNext, Turn;
      o := Schedule();
      if o != Spinning { AllSettable(Abs(), lay, current); }
    }

    /** GETPID. */
    method HandleGetPid() returns (o: Outcome)
      requires Valid() && Inv(Abs(), lay, 0) && AllMapped(Abs(), lay) && processes[current].state == P_RUNNABLE
      modifies processes, this`current
      ensures Valid() && Inv(Abs(), lay, 0) && AllMapped(Abs(), lay) && current == old(current) && o == Running
      ensures Abs() == SetRax(old(Abs()), current, current)
      ensures forall q: int :: q != current && q != PO_RESERVED ==> Untouched(old(Abs()), Abs(), q)
    {
      ghost var m := Abs();
      NoProcessZero(m, lay);
      hide Inv, AllMapped, Untouched, Settable, KernelMapped;
      processes[current] := processes[current].(rax := current);
      assert Abs() == SetRax(m, current, current);
      StateStep(m, Abs(), lay, current);
      AllSettable(Abs(), lay, current);
      o := RunProcess(current);
    }

    /** A page fault in user code: the process is broken. */
    method HandleFault() returns (o: Outcome)
      requires Valid() && Inv(Abs(), lay, 0) && AllMapped(Abs(), lay) && processes[current].state == P_RUNNABLE
      modifies processes, this`current
      ensures Valid() && Inv(Abs(), lay, 0) && AllMapped(Abs(), lay)
      ensures Abs() == SetState(old(Abs()), old(current), P_BROKEN)
      ensures o in {Running, Spinning} && (o == Running ==> processes[current].state == P_RUNNABLE)
      ensures o == Running ==> exists k :: IsNext(Abs(), old(current), k) && current == Turn(old(current), k)
      ensures o == Spinning ==>
        current == old(current) && forall p :: 0 <= p < NPROC ==> processes[p].state != P_RUNNABLE
      ensures forall q: int :: q != old(current) && q != PO_RESERVED ==> Untouched(old(Abs()), Abs(), q)
    {
      ghost var m := Abs();
      NoProcessZero(m, lay);
      hide Inv, AllMapped, Untouched, IsNext, Turn;
      processes[current] := processes[current].(state := P_BROKEN);
      assert Abs() == SetState(m, current, P_BROKEN);
      StateStep(m, Abs(), lay, current);
      o := HandleSchedule();
    }

    /** The `switch` of `exception` and what follows it.  GETPID and
        PAGE_ALLOC return to the process; YIELD, TIMER and a user page fault
        schedule. */
    method Handle(trap: Trap) returns (o: Outcome)
      requires Valid() && Inv(Abs(), lay, 0) && processes[current].state == P_RUNNABLE
      requires AllMapped(Abs(), lay) || trap == PageFault(false)
      modifies memory.cell, pageinfo, processes, this`current, this`ticks
      ensures Valid() && Inv(Abs(), lay, 0)
      ensures o == Panicked <==> trap.Panics() || old(PageRequestPanics(Abs(), lay, trap))
      ensures o == Lost <==> old(PageRequestLost(Abs(), lay, trap))
      ensures o == Running ==> processes[current].state == P_RUNNABLE
      ensures trap.KeepsProcess() || o != Running ==> current == old(current)
      ensures o == Running && !trap.KeepsProcess() ==>
        exists k :: IsNext(Abs(), old(current), k) && current == Turn(old(current), k)
      ensures o == Spinning ==> forall p :: 0 <= p < NPROC ==> processes[p].state != P_RUNNABLE
      ensures ticks == old(ticks) + if trap.Timer? then 1 else 0
      ensures forall q: int :: q != old(current) && q != PO_RESERVED ==> Untouched(old(Abs()), Abs(), q)
      ensures HasFree(Abs()) ==> old(HasFree(Abs()))
      ensures old(AllMapped(Abs(), lay)) ==>
        (AllMapped(Abs(), lay) <==> !(old(HasFree(Abs())) && trap.AsksForKernelPage(lay) && trap.addr % PAGESIZE == 0))
      ensures match trap
        case GetPid => Abs() == SetRax(old(Abs()), old(current), old(current))
        case PageRequest(addr) => PageAllocated(old(Abs()), Abs(), old(current), addr)
        case PageFault(true) => Abs() == SetState(old(Abs()), old(current), P_BROKEN)
        case _ => Abs() == old(Abs())
    {
      ghost var m, pid := Abs(), current;
      NoProcessZero(m, lay);
      SelfUntouched(m);
      hide Inv, AllMapped, Untouched, HasFree, Vpn, IsKernelPage, PageAllocated;
      match trap
      case GetPid =>
        o := HandleGetPid();
        SameInfoFree(m, Abs());
      case PageRequest(addr) =>
        o := HandlePageRequest(addr);
      case Yield =>
        o := HandleSchedule();
      case Timer =>
        ticks := ticks + 1;
        o := HandleSchedule();
      case PageFault(user) =>
        if !user { return Panicked; }
        o := HandleFault();
        SameInfoFree(m, Abs());
      case PanicCall =>
        o := Panicked;
      case Unexpected =>
        o := Panicked;
    }

    /** `exception`: every one but a kernel page fault first checks all of
        virtual memory.  Nothing is promised of the machine when the kernel is
        not mapped on the way in, or on the way out. */
    method Exception(trap: Trap) returns (o: Outcome)
      requires Valid() && Inv(Abs(), lay, 0) && processes[current].state == P_RUNNABLE
      modifies memory.cell, pageinfo, processes, this`current, this`ticks
      ensures o == Lost <==>
        !old(Enters(Abs(), lay, current, trap))
        || (CheckVirtualMemory(old(Abs()), lay) && old(PageRequestLost(Abs(), lay, trap)))
      ensures o == Panicked <==>
        old(Enters(Abs(), lay, current, trap))
        && (trap.Panics() || !CheckVirtualMemory(old(Abs()), lay) || old(PageRequestPanics(Abs(), lay, trap)))
      ensures o != Lost ==> Valid() && Inv(Abs(), lay, 0)
      ensures o == Running ==>
        processes[current].state == P_RUNNABLE && old(AllMapped(Abs(), lay)) && AllMapped(Abs(), lay)
      ensures o == Spinning ==> forall p :: 0 <= p < NPROC ==> processes[p].state != P_RUNNABLE
      ensures o != Lost && (trap.KeepsProcess() || o != Running) ==> current == old(current)
      ensures o == Running && !trap.KeepsProcess() ==>
        exists k :: IsNext(Abs(), old(current), k) && current == Turn(old(current), k)
      ensures o != Lost ==> forall q: int :: q != old(current) && q != PO_RESERVED ==> Untouched(old(Abs()), Abs(), q)
      ensures o != Lost && HasFree(Abs()) ==> old(HasFree(Abs()))
      ensures o != Lost && old(AllMapped(Abs(), lay)) ==>
        (AllMapped(Abs(), lay) <==> !(old(HasFree(Abs())) && trap.AsksForKernelPage(lay) && trap.addr % PAGESIZE == 0))
      ensures o != Lost && !CheckVirtualMemory(old(Abs()), lay) ==> Abs() == old(Abs()) && ticks == old(ticks)
      ensures o != Lost && CheckVirtualMemory(old(Abs()), lay) ==> ticks == old(ticks) + if trap.Timer? then 1 else 0
      ensures o != Lost && CheckVirtualMemory(old(Abs()), lay) ==>
        match trap
        case GetPid => Abs() == SetRax(old(Abs()), old(current), old(current))
        case PageRequest(addr) => PageAllocated(old(Abs()), Abs(), old(current), addr)
        case PageFault(true) => Abs() == SetState(old(Abs()), old(current), P_BROKEN)
        case _ => Abs() == old(Abs())
    {
      ghost var m := Abs();
      NoProcessZero(m, lay);
      SelfUntouched(m);
      CheckPasses(m, lay);
      KernelSettable(m, lay);
      SwitchIsKernel(lay);
      EntersMapped(m, lay, current);
      hide *;
      var ok := trap == PageFault(false);
      if !ok {
        ok := FindsKernel(current);
        if !ok { return Lost; }
      }
      ok := SetPagetable(KERNEL_TABLES.l0, KERNEL_TABLES);
      assert ok;
      if !(trap.PageFault? && !trap.user) {
        ok := CheckMemory();
        if !ok { return Panicked; }
      }
      o := Handle(trap);
    }

    /** A store as a step of a run. */
    method StoreStep(va: nat, value: nat) returns (o: Outcome)
      requires Valid() && Inv(Abs(), lay, 0) && Live(Abs(), current) && Store(va, value).Possible()
      modifies memory.cell
      ensures Inv(Abs(), lay, 0) && o == Running && StoreDone(old(Now()), va, value, Now())
      ensures Abs().proc == old(Abs()).proc && Abs().info == old(Abs()).info
      ensures AllMapped(Abs(), lay) <==> old(AllMapped(Abs(), lay))
      ensures forall q: int :: q != current && q != PO_RESERVED ==> Untouched(old(Abs()), Abs(), q)
    {
      hide Inv, AllMapped, Untouched, Translate, HasP, HasW, HasU;
      var fault := UserStore(va, value);
      o := Running;
    }

    /** An exception as a step of a run. */
    method TrapStep(trap: Trap) returns (o: Outcome)
      requires Valid() && Inv(Abs(), lay, 0) && processes[current].state == P_RUNNABLE
      modifies memory.cell, pageinfo, processes, this`current, this`ticks
      ensures o != Lost ==> Valid() && Inv(Abs(), lay, 0)
      ensures o == Lost <==> old(Loses(Now(), Event.Trap(trap), lay))
      ensures o != Lost ==> var ok := Does(old(Now()), Event.Trap(trap), o, Now(), lay); ok
      ensures o != Lost ==> forall q: int :: q != old(current) && q != PO_RESERVED ==> Untouched(old(Abs()), Abs(), q)
      ensures o != Lost && HasFree(Abs()) ==> old(HasFree(Abs()))
      ensures o == Running ==> old(AllMapped(Abs(), lay)) && AllMapped(Abs(), lay)
      ensures o != Lost && old(AllMapped(Abs(), lay)) ==>
        (AllMapped(Abs(), lay) <==> !(old(HasFree(Abs())) && trap.AsksForKernelPage(lay) && trap.addr % PAGESIZE == 0))
    {
      ghost var s := Now();
      hide Inv, AllMapped, Untouched, HasFree, Vpn, IsKernelPage, PageGiven, IsNext, Turn, Nearest, KernelMapped,
        Enters, CheckVirtualMemory, PageRequestLost, PageRequestPanics;
      o := Exception(trap);
      if o != Lost { TrapDoes(s, trap, o, Now(), lay); }
    }

    /** A step of a run: exactly what the event does, unless the kernel is lost. */
    method Step(event: Event) returns (o: Outcome)
      requires Valid() && Inv(Abs(), lay, 0) && processes[current].state == P_RUNNABLE && event.Possible()
      modifies memory.cell, pageinfo, processes, this`current, this`ticks
      ensures o != Lost ==> Valid() && Inv(Abs(), lay, 0)
      ensures o == Lost <==> old(Loses(Now(), event, lay))
      ensures o != Lost ==> var ok := Does(old(Now()), event, o, Now(), lay); ok
      ensures o != Lost ==> forall q: int :: q != old(current) && q != PO_RESERVED ==> Untouched(old(Abs()), Abs(), q)
      ensures o == Running ==> processes[current].state == P_RUNNABLE
      ensures o == Running && event.KeepsProcess() ==> current == old(current)
      ensures o != Lost ==>
        forall pid :: 0 <= pid < NPROC && processes[pid].state == P_RUNNABLE ==> old(processes[pid].state) == P_RUNNABLE
      ensures o != Lost && HasFree(Abs()) ==> old(HasFree(Abs()))
      // an exception is survived only with the kernel mapped, before it and
      // after it
      ensures event.Trap? && o == Running ==> old(AllMapped(Abs(), lay)) && AllMapped(Abs(), lay)
      ensures old(AllMapped(Abs(), lay)) && !event.AsksForKernelPage(lay) ==> o != Lost && AllMapped(Abs(), lay)
      ensures old(AllMapped(Abs(), lay)) && !event.AsksForKernelPage(lay) && !event.Panics() ==> o != Panicked
      ensures event.AsksForKernelPage(lay) && o == Running ==> !HasFree(Abs())
      ensures event.Store? ==> o == Running && (AllMapped(Abs(), lay) <==> old(AllMapped(Abs(), lay)))
    {
      ghost var s := Now();
      NoProcessZero(Abs(), lay);
      CheckPasses(Abs(), lay);
      SwitchIsKernel(lay);
      EntersMapped(Abs(), lay, current);
      hide *;
      match event {
        case Store(va, value) =>
          o := StoreStep(va, value);
          SameInfoFree(s.machine, Abs());
          StoreDoes(s, va, value, Now(), lay);
        case Trap(trap) =>
          TrapLost(s, trap, lay);
          o := TrapStep(trap);
          if o != Lost { TrapState(s, trap, o, Now(), lay); }
      }
    }

    /** The next event of a run. */
    method NextEvent(event: Event, ghost start: State, ghost events: seq<Event>, ghost trace: seq<State>)
        returns (o: Outcome)
      requires |trace| < |events| && event == events[|trace|] && event.Possible() && Valid()
      requires Inv(Abs(), lay, 0) && processes[current].state == P_RUNNABLE
      requires var ok := SoFar(start, events, trace, Running, Now(), lay); ok
      modifies memory.cell, pageinfo, processes, this`current, this`ticks
      ensures o != Lost ==> Valid() && Inv(Abs(), lay, 0)
      ensures o == Running ==> processes[current].state == P_RUNNABLE
      ensures o != Lost ==> var ok := SoFar(start, events, trace + [old(Now())], o, Now(), lay); ok
      ensures o == Lost ==> var ok := SoFar(start, events, trace + [old(Now())], o, old(Now()), lay); ok
    {
      ghost var s := Now();
      hide *;
      o := Step(event);
      NextSoFar(start, events, trace, s, o, if o == Lost then s else Now(), lay);
    }

    /** Any run from a running machine: user stores and exceptions in any
        order, until the kernel panics or is lost or nothing is runnable. */
    method Run(events: seq<Event>) returns (o: Outcome, ghost trace: seq<State>)
      requires Valid() && Inv(Abs(), lay, 0) && processes[current].state == P_RUNNABLE
      requires forall e :: e in events ==> e.Possible()
      modifies memory.cell, pageinfo, processes, this`current, this`ticks
      ensures IsRun(old(Now()), events, trace, o, lay) && (o == Running ==> |trace| == |events|)
      ensures o != Lost ==> Valid() && Inv(Abs(), lay, 0) && RunEnds(old(Now()), events, trace, o, Now(), lay)
      ensures trace == [] ==> o == Running
      // what every run keeps
      ensures forall s :: s in trace ==> Sized(s.machine) && Inv(s.machine, lay, 0)
      ensures forall s :: s in trace ==> s.current < NPROC && old(Abs()).proc[s.current].state == P_RUNNABLE
      ensures o != Lost ==> forall q: int :: Stayed(trace, q) && q != PO_RESERVED ==> Untouched(old(Abs()), Abs(), q)
      // while nobody asks for a kernel page, the kernel is not lost,
      // check_virtual_memory passes and only the events that panic by
      // themselves end the run
      ensures old(AllMapped(Abs(), lay)) && NoKernelPage(events, |events|, lay) ==>
        o != Lost && AllMapped(Abs(), lay) && CheckVirtualMemory(Abs(), lay)
      ensures
        old(AllMapped(Abs(), lay)) && NoKernelPage(events, |events|, lay)
        && (forall e :: e in events ==> !e.Panics()) ==>
        o != Panicked
      // and no run goes on after a request for one, unless memory was full
      ensures o == Running && HasFree(Abs()) ==> NoKernelPage(events, |events|, lay)
    {
      trace := [];
      o := Running;
      ghost var start := Now();
      StartsRun(start, events, lay);
      for i := 0 to |events|
        invariant o == Running && |trace| == i && Valid()
        invariant Inv(Abs(), lay, 0) && processes[current].state == P_RUNNABLE
        invariant var ok := SoFar(start, events, trace, Running, Now(), lay); ok
      {
        ghost var s := Now();
        assert events[i] in events;
        hide *;
        o := NextEvent(events[i], start, events, trace);
        trace := trace + [s];
        if o != Running { break; }
      }
      if o != Lost { CheckPasses(Abs(), lay); }
      hide Inv, Sized, AllMapped, Untouched, CheckVirtualMemory, HasFree, IsRun, RunEnds;
    }
  }

  /** `kernel`, from start-up to the first process: up to fifteen programs
      whose segments lie above PROC_START_ADDR and share no page all boot. */
  method Start(lay: Layout, programs: seq<seq<Segment>>) returns (kernel: Kernel)
    requires GoodLayout(lay) && 0 < |programs| < NPROC && Apart(Flat(programs))
    requires forall p: nat :: Covered(Flat(programs), p) ==> PROC_START <= p < NPAGES
    requires forall i, seg :: 0 <= i < |programs| && seg in programs[i] ==> seg.Good()
    ensures kernel.Valid() && kernel.lay == lay && kernel.current == 1
    ensures Booted(kernel.Abs(), lay, programs, |programs|)
  {
    kernel := new Kernel(lay);
    BootableHigh(kernel.Abs(), lay, programs);
    hide Inv, AllMapped, BootFits, Apart, Covered;
    var ok := kernel.Boot(programs);
    assert ok;
  }
}

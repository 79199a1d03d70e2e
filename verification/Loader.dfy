/** The program loader of pset4/k-loader.c and the pages that process_setup
    of pset4/kernel.c takes: which pages they are and when they suffice. */
module Loader {
  import opened Basics
  import opened PageTable
  import opened TableShape
  import opened KernelState

  /** A loadable segment of a program, page-aligned and with p_pa == p_va;
      sizes in 8-byte words. */
  datatype Segment = Segment(first: nat, image: seq<nat>, memWords: nat, writable: bool) {
    predicate Good() { |image| <= memWords && memWords > 0 }
    function Pages(): nat { (memWords + NENTRIES - 1) / NENTRIES }
    predicate Covers(p: nat) { first <= p < first + Pages() }
    function Cell(i: nat): nat { NENTRIES * first + i }
    ghost function PageSet(): set<nat> { set p: nat | p < NPAGES && Covers(p) }
  }

  /** Virtual page `p` of `pid` is physical page `p`, which `pid` owns. */
  ghost predicate LoadedPage(m: Machine, pid: int, p: nat, perm: nat)
    requires Sized(m) && 0 <= pid < NPROC
  {
    Distinct(m.tables[pid]) && Owned(m, pid, p) && !Among(m.tables[pid], p)
    && LeafAt(m.mem, m.tables[pid], p) == PAGESIZE * p + perm
  }

  ghost predicate LoadedPages(m: Machine, pid: int, first: nat, n: nat)
    requires Sized(m) && 0 <= pid < NPROC
  {
    forall p: nat :: first <= p < first + n ==> LoadedPage(m, pid, p, PTE_PWU)
  }

  /** Claiming page `first + n` and mapping it to itself. */
  lemma LoadOnePage(m: Machine, m': Machine, lay: Layout, pid: int, first: nat, n: nat)
    requires Loading(m, lay, pid) && first + n < NPAGES && m.info[first + n].refcount == 0
    requires LoadedPages(m, pid, first, n)
    requires var t, m1, p := m.tables[pid], Claim(m, pid, first + n), first + n;
      m' == m1.(mem := m'.mem) && Shape(m'.mem, t) && SameOutside(m.mem, m'.mem, {t.l3, t.l4})
      && Remapped(m.mem, m'.mem, t, p, p + 1, PAGESIZE * p, PTE_PWU)
    ensures Loading(m', lay, pid) && LoadedPages(m', pid, first, n + 1)
  {
    var m1, p := Claim(m, pid, first + n), first + n;
    LoadClaim(m, lay, pid, p);
    LoadMap(m1, m', lay, pid, p, p, PTE_PWU);
    hide Loading, Shape, SameOutside, LeafAt;
    FrameFlags(0, 7);
    LinkEntry(0);
    forall q: nat | first <= q < first + n + 1
      ensures LoadedPage(m', pid, q, PTE_PWU)
    {
      assert q < p ==> LoadedPage(m, pid, q, PTE_PWU);
    }
  }

  lemma LoadedOwned(m: Machine, pid: int, first: nat, n: nat)
    requires Sized(m) && 0 <= pid < NPROC && LoadedPages(m, pid, first, n)
    ensures forall p: nat :: first <= p < first + n ==> Owned(m, pid, p) && !Among(m.tables[pid], p)
    ensures n > 0 ==> first + n <= NPAGES
  {
    forall p: nat | first <= p < first + n
      ensures Owned(m, pid, p) && !Among(m.tables[pid], p)
    {
      assert LoadedPage(m, pid, p, PTE_PWU);
    }
    assert n > 0 ==> Owned(m, pid, first + n - 1);
  }

  lemma LoadedFrame(m: Machine, m': Machine, lay: Layout, pid: int, first: nat, n: nat, changed: set<nat>)
    requires Loading(m, lay, pid) && LoadedPages(m, pid, first, n) && m' == m.(mem := m'.mem)
    requires SameOutside(m.mem, m'.mem, changed) && forall p :: p in changed ==> !Among(m.tables[pid], p)
    ensures LoadedPages(m', pid, first, n)
  {
    ShapeFrame(m.mem, m'.mem, m.tables[pid], changed);
    hide Shape, LeafAt, SameOutside;
    forall p: nat | first <= p < first + n
      ensures LoadedPage(m', pid, p, PTE_PWU)
    {
      assert LoadedPage(m, pid, p, PTE_PWU);
    }
  }

  /** The segment's words are in place, and zeros follow them. */
  ghost predicate ImageWritten(mem: Memory, seg: Segment) {
    NENTRIES * seg.first + seg.memWords <= NCELLS
    && forall i :: 0 <= i < seg.memWords ==> mem[seg.Cell(i)] == if i < |seg.image| then seg.image[i] else 0
  }

  lemma ImageFrame(mem: Memory, mem': Memory, seg: Segment, changed: set<nat>)
    requires ImageWritten(mem, seg) && SameOutside(mem, mem', changed)
    requires forall p :: p in changed ==> !seg.Covers(p)
    ensures ImageWritten(mem', seg)
  {
    forall i | 0 <= i < seg.memWords
      ensures mem'[seg.Cell(i)] == mem[seg.Cell(i)]
    {
      var p, j := seg.first + i / NENTRIES, i % NENTRIES;
      assert NENTRIES * p + j == seg.Cell(i);
      assert Entry(mem', p, j) == Entry(mem, p, j);
    }
  }

  /** Making the first page of a loaded segment read-only. */
  lemma ReadOnlyFirst(m: Machine, m': Machine, lay: Layout, pid: int, seg: Segment)
    requires Loading(m, lay, pid) && seg.Good() && LoadedPages(m, pid, seg.first, seg.Pages())
      && ImageWritten(m.mem, seg)
    requires var t, p := m.tables[pid], seg.first;
      m' == m.(mem := m'.mem) && Shape(m'.mem, t) && SameOutside(m.mem, m'.mem, {t.l3, t.l4})
      && Remapped(m.mem, m'.mem, t, p, p + 1, PAGESIZE * p, PTE_P + PTE_U)
    ensures Loading(m', lay, pid) && ImageWritten(m'.mem, seg)
    ensures LoadedPages(m', pid, seg.first + 1, seg.Pages() - 1) && LoadedPage(m', pid, seg.first, PTE_P + PTE_U)
  {
    var t, p := m.tables[pid], seg.first;
    assert LoadedPage(m, pid, p, PTE_PWU);
    assert InfoOk(m, lay, pid, p);
    LoadMap(m, m', lay, pid, p, p, PTE_P + PTE_U);
    LoadedOwned(m, pid, p, seg.Pages());
    ImageFrame(m.mem, m'.mem, seg, {t.l3, t.l4});
    assert HasP(5) by { FrameFlags(0, 5); }
    hide Loading, Shape, SameOutside, LeafAt, HasP;
    forall q: nat | p < q < p + seg.Pages()
      ensures LoadedPage(m', pid, q, PTE_PWU)
    {
      assert LoadedPage(m, pid, q, PTE_PWU);
    }
  }

  /** A segment in place: its words, and its pages mapped to themselves; one
      that is not writable is protected on its first page. */
  ghost predicate SegmentLoaded(m: Machine, pid: int, seg: Segment)
    requires Sized(m) && 0 <= pid < NPROC
  {
    seg.Good() && ImageWritten(m.mem, seg) && LoadedPages(m, pid, seg.first + 1, seg.Pages() - 1)
    && LoadedPage(m, pid, seg.first, if seg.writable then PTE_PWU else PTE_P + PTE_U)
  }

  /** The leaf entries outside `n` pages from `first` are as they were. */
  ghost predicate LeavesKept(mem: Memory, mem': Memory, t: Tables, first: nat, n: nat) {
    Distinct(t) && forall q: nat :: q < SPAN && !(first <= q < first + n) ==> LeafAt(mem', t, q) == LeafAt(mem, t, q)
  }

  lemma SegmentOwned(m: Machine, pid: int, seg: Segment, p: nat)
    requires Sized(m) && 0 <= pid < NPROC && SegmentLoaded(m, pid, seg) && seg.Covers(p)
    ensures Owned(m, pid, p) && !Among(m.tables[pid], p)
    ensures LoadedPage(m, pid, p, if p == seg.first && !seg.writable then PTE_P + PTE_U else PTE_PWU)
  {
    assert p > seg.first ==> LoadedPage(m, pid, p, PTE_PWU);
  }

  /** A loaded segment stays in place while other pages are loaded. */
  lemma SegmentKept(m: Machine, m': Machine, pid: int, seg: Segment, first: nat, n: nat, changed: set<nat>)
    requires Sized(m) && Sized(m') && 0 <= pid < NPROC && SegmentLoaded(m, pid, seg) && m'.tables == m.tables
    requires forall p: nat :: Owned(m, pid, p) ==> Owned(m', pid, p)
    requires SameOutside(m.mem, m'.mem, changed) && LeavesKept(m.mem, m'.mem, m.tables[pid], first, n)
    requires forall p: nat :: seg.Covers(p) ==> p !in changed && !(first <= p < first + n)
    ensures SegmentLoaded(m', pid, seg)
  {
    ImageFrame(m.mem, m'.mem, seg, changed);
    hide SameOutside, LeafAt;
    forall p: nat | seg.Covers(p)
      ensures LoadedPage(m', pid, p, if p == seg.first && !seg.writable then PTE_P + PTE_U else PTE_PWU)
    {
      SegmentOwned(m, pid, seg, p);
    }
    LoadedByCover(m', pid, seg);
  }

  lemma LoadedByCover(m: Machine, pid: int, seg: Segment)
    requires Sized(m) && 0 <= pid < NPROC && seg.Good()
    requires forall p: nat :: seg.Covers(p) ==>
      LoadedPage(m, pid, p, if p == seg.first && !seg.writable then PTE_P + PTE_U else PTE_PWU)
    ensures LoadedPages(m, pid, seg.first + 1, seg.Pages() - 1)
    ensures LoadedPage(m, pid, seg.first, if seg.writable then PTE_PWU else PTE_P + PTE_U)
  {
    assert seg.Covers(seg.first);
    forall p: nat | seg.first + 1 <= p < seg.first + seg.Pages() ensures LoadedPage(m, pid, p, PTE_PWU) {
      assert seg.Covers(p);
    }
  }

  /** And while other processes do anything. */
  lemma SegmentUntouched(m: Machine, m': Machine, pid: int, seg: Segment)
    requires 0 <= pid < NPROC && Untouched(m, m', pid) && SegmentLoaded(m, pid, seg)
      && OwnsTables(m, pid, m.tables[pid])
    ensures SegmentLoaded(m', pid, seg)
  {
    var t := m.tables[pid];
    assert SamePage(m.mem, m'.mem, t.l3) && SamePage(m.mem, m'.mem, t.l4);
    forall p: nat | seg.Covers(p)
      ensures LoadedPage(m', pid, p, if p == seg.first && !seg.writable then PTE_P + PTE_U else PTE_PWU)
      ensures SamePage(m.mem, m'.mem, p)
    {
      SegmentOwned(m, pid, seg, p);
    }
    LoadedByCover(m', pid, seg);
    forall i | 0 <= i < seg.memWords
      ensures m'.mem[seg.Cell(i)] == m.mem[seg.Cell(i)]
    {
      var p, j := seg.first + i / NENTRIES, i % NENTRIES;
      assert NENTRIES * p + j == seg.Cell(i) && seg.Covers(p);
      assert Entry(m'.mem, p, j) == Entry(m.mem, p, j);
    }
  }

  lemma NothingChanged(mem: Memory, t: Tables, first: nat)
    requires Distinct(t)
    ensures SameOutside(mem, mem, {t.l3, t.l4}) && LeavesKept(mem, mem, t, first, 0)
      && LeavesKept(mem, mem, t, first, 1)
  {
  }

  lemma RemapKeeps(mem: Memory, mem': Memory, t: Tables, n: nat, pa: nat, perm: nat)
    requires Remapped(mem, mem', t, n, n + 1, pa, perm)
    ensures LeavesKept(mem, mem', t, n, 1)
  {
  }

  lemma OutsideMore(mem: Memory, mem': Memory, changed: set<nat>, more: set<nat>)
    requires SameOutside(mem, mem', changed) && changed <= more
    ensures SameOutside(mem, mem', more)
  {
  }

  /** One more page of a range. */
  lemma KeptTrans(m0: Memory, m1: Memory, m2: Memory, t: Tables, first: nat, n: nat)
    requires SameOutside(m0, m1, {t.l3, t.l4}) && LeavesKept(m0, m1, t, first, n)
    requires SameOutside(m1, m2, {t.l3, t.l4}) && LeavesKept(m1, m2, t, first + n, 1)
    ensures SameOutside(m0, m2, {t.l3, t.l4}) && LeavesKept(m0, m2, t, first, n + 1)
  {
  }

  lemma SameOutsideSelf(mem: Memory)
    ensures SameOutside(mem, mem, {})
  {
  }

  /** The page loop of program_load_segment after `n` pages from `first`. */
  ghost predicate Partly(m0: Machine, m: Machine, lay: Layout, pid: int, first: nat, n: nat)
    requires Sized(m0) && 0 <= pid < NPROC
  {
    var t := m0.tables[pid];
    Loading(m, lay, pid) && LoadedPages(m, pid, first, n) && OthersUntouched(m0, m, pid)
    && m == m0.(mem := m.mem, info := GivenRange(m0.info, first, n, pid)) && RangeFree(m0.info, first, n)
    && SameOutside(m0.mem, m.mem, {t.l3, t.l4}) && LeavesKept(m0.mem, m.mem, t, first, n)
  }

  lemma PartlyStart(m: Machine, lay: Layout, pid: int, first: nat)
    requires Loading(m, lay, pid)
    ensures Partly(m, m, lay, pid, first, 0)
  {
  }

  lemma PartlyEnd(m0: Machine, m: Machine, lay: Layout, pid: int, first: nat, n: nat)
    requires Sized(m0) && 0 <= pid < NPROC && Partly(m0, m, lay, pid, first, n)
    ensures Loading(m, lay, pid) && LoadedPages(m, pid, first, n) && OthersUntouched(m0, m, pid)
    ensures m == m0.(mem := m.mem, info := GivenRange(m0.info, first, n, pid)) && RangeFree(m0.info, first, n)
    ensures var t := m0.tables[pid]; SameOutside(m0.mem, m.mem, {t.l3, t.l4}) && LeavesKept(m0.mem, m.mem, t, first, n)
  {
  }

  /** One more page, or a failure that changes nothing. */
  lemma PartlyMore(m0: Machine, m: Machine, m': Machine, lay: Layout, pid: int, first: nat, n: nat, r: int)
    requires Sized(m0) && 0 <= pid < NPROC && Partly(m0, m, lay, pid, first, n)
    requires r == if FreeAt(m.info, first + n) then 0 else -1
    requires if r == 0 then m' == Claim(m, pid, first + n).(mem := m'.mem) && LoadedPages(m', pid, first, n + 1)
      else m' == m
    requires Loading(m', lay, pid) && OthersUntouched(m, m', pid)
    requires var t := m0.tables[pid];
      SameOutside(m.mem, m'.mem, {t.l3, t.l4}) && LeavesKept(m.mem, m'.mem, t, first + n, 1)
    ensures if r == 0 then Partly(m0, m', lay, pid, first, n + 1) else Partly(m0, m', lay, pid, first, n)
    ensures r == -1 ==> !FreeAt(m0.info, first + n)
  {
    GivenOne(m0.info, first, n, pid);
    hide Loading, OthersUntouched, SameOutside, LeavesKept, LoadedPages, GivenRange;
    OthersTrans(m0, m, m', pid);
    KeptTrans(m0.mem, m.mem, m'.mem, m0.tables[pid], first, n);
  }

  lemma PartlyFails(m0: Machine, m: Machine, lay: Layout, pid: int, first: nat, n: nat, total: nat)
    requires Sized(m0) && 0 <= pid < NPROC && Partly(m0, m, lay, pid, first, n)
    requires n < total && !FreeAt(m0.info, first + n)
    ensures Loading(m, lay, pid) && OthersUntouched(m0, m, pid) && m == m0.(mem := m.mem, info := m.info)
    ensures !RangeFree(m0.info, first, total)
    ensures var t := m0.tables[pid];
      SameOutside(m0.mem, m.mem, {t.l3, t.l4}) && LeavesKept(m0.mem, m.mem, t, first, total)
  {
  }

  /** One more step inside the pages of a segment. */
  lemma KeptChain(m0: Memory, m1: Memory, m2: Memory, t: Tables, seg: Segment, first: nat, n: nat, changed: set<nat>)
    requires SameOutside(m0, m1, seg.PageSet() + {t.l3, t.l4}) && LeavesKept(m0, m1, t, seg.first, seg.Pages())
    requires SameOutside(m1, m2, changed) && LeavesKept(m1, m2, t, first, n) && changed <= seg.PageSet() + {t.l3, t.l4}
    requires n == 0 || (seg.first <= first && first + n <= seg.first + seg.Pages())
    ensures SameOutside(m0, m2, seg.PageSet() + {t.l3, t.l4}) && LeavesKept(m0, m2, t, seg.first, seg.Pages())
  {
  }

  // ------------------------------------------------------ which pages

  predicate FreeAt(info: seq<PageInfo>, p: nat) { p < |info| && info[p].refcount == 0 }

  /** The page that use_any_physical_page finds, or the number of pages. */
  function Lowest(info: seq<PageInfo>): (p: nat)
    ensures p <= |info| && (p < |info| ==> FreeAt(info, p)) && forall q: nat :: q < p ==> !FreeAt(info, q)
  {
    if info == [] || info[0].refcount == 0 then 0
    else
      assert forall q: nat :: 0 < q ==> (FreeAt(info, q) <==> FreeAt(info[1..], q - 1));
      1 + Lowest(info[1..])
  }

  lemma LowestIs(info: seq<PageInfo>, p: nat)
    requires p <= |info| && (p < |info| ==> FreeAt(info, p)) && forall q: nat :: q < p ==> !FreeAt(info, q)
    ensures Lowest(info) == p
  {
  }

  /** The lowest free page given to `pid`, if there is one. */
  function Take(info: seq<PageInfo>, pid: int): (r: seq<PageInfo>)
    ensures |r| == |info|
  {
    var p := Lowest(info);
    if p < |info| then info[p := PageInfo(pid, 1)] else info
  }

  function TakeN(info: seq<PageInfo>, pid: int, n: nat): (r: seq<PageInfo>)
    ensures |r| == |info|
  {
    if n == 0 then info else Take(TakeN(info, pid, n - 1), pid)
  }

  function GivenRange(info: seq<PageInfo>, first: nat, n: nat, pid: int): (r: seq<PageInfo>)
    ensures |r| == |info|
  {
    seq(|info|, p requires 0 <= p < |info| => if first <= p < first + n then PageInfo(pid, 1) else info[p])
  }

  predicate RangeFree(info: seq<PageInfo>, first: nat, n: nat)
  {
    forall p: nat :: first <= p < first + n ==> FreeAt(info, p)
  }

  lemma GivenOne(info: seq<PageInfo>, first: nat, n: nat, pid: int)
    ensures var given := GivenRange(info, first, n, pid);
      (FreeAt(given, first + n) <==> FreeAt(info, first + n))
      && (FreeAt(given, first + n) ==> GivenRange(info, first, n + 1, pid) == given[first + n := PageInfo(pid, 1)])
  {
  }

  ghost predicate Covered(program: seq<Segment>, p: nat) { exists k: nat :: k < |program| && program[k].Covers(p) }

  ghost predicate Apart(program: seq<Segment>) {
    forall j: nat, k: nat, p: nat :: j < k < |program| && program[j].Covers(p) ==> !program[k].Covers(p)
  }

  /** A program loads exactly when its pages are free and its segments do not
      share one. */
  ghost predicate Fits(info: seq<PageInfo>, program: seq<Segment>) {
    (forall p: nat :: Covered(program, p) ==> FreeAt(info, p)) && Apart(program)
  }

  /** The pages of `program` given to `pid`. */
  ghost function TakenFor(info: seq<PageInfo>, program: seq<Segment>, pid: int): (r: seq<PageInfo>)
    ensures |r| == |info|
  {
    seq(|info|, p requires 0 <= p < |info| => if Covered(program, p) then PageInfo(pid, 1) else info[p])
  }

  lemma CoveredMore(program: seq<Segment>, seg: Segment, p: nat)
    ensures Covered(program + [seg], p) <==> Covered(program, p) || seg.Covers(p)
  {
    var more := program + [seg];
    forall k: nat | k < |program| ensures more[k] == program[k] {}
    assert more[|program|] == seg;
    if Covered(program, p) {
      var k: nat :| k < |program| && program[k].Covers(p);
      assert more[k].Covers(p);
    }
  }

  lemma ApartMore(program: seq<Segment>, seg: Segment)
    ensures Apart(program + [seg]) <==> Apart(program) && forall p: nat :: seg.Covers(p) ==> !Covered(program, p)
  {
    var more := program + [seg];
    forall k: nat | k < |program| ensures more[k] == program[k] {}
    assert more[|program|] == seg;
    hide Segment.Covers;
    if Apart(more) {
      forall j: nat, p: nat | j < |program| && program[j].Covers(p) ensures !seg.Covers(p) {
        assert more[j].Covers(p) ==> !more[|program|].Covers(p);
      }
      forall j: nat, k: nat, p: nat | j < k < |program| && program[j].Covers(p) ensures !program[k].Covers(p) {
        assert more[j].Covers(p) ==> !more[k].Covers(p);
      }
    }
  }

  /** Loading one more segment. */
  lemma FitsMore(info: seq<PageInfo>, program: seq<Segment>, seg: Segment, pid: int)
    requires Fits(info, program)
    ensures Fits(info, program + [seg]) <==> RangeFree(TakenFor(info, program, pid), seg.first, seg.Pages())
    ensures TakenFor(info, program + [seg], pid)
      == GivenRange(TakenFor(info, program, pid), seg.first, seg.Pages(), pid)
  {
    ApartMore(program, seg);
    forall p: nat ensures Covered(program + [seg], p) <==> Covered(program, p) || seg.Covers(p) {
      CoveredMore(program, seg, p);
    }
    hide Covered, Apart;
    var taken := TakenFor(info, program, pid);
    forall p: nat ensures FreeAt(taken, p) <==> FreeAt(info, p) && !Covered(program, p) {}
  }

  lemma FitsPrefixNot(info: seq<PageInfo>, program: seq<Segment>, n: nat)
    requires n <= |program| && !Fits(info, program[..n])
    ensures !Fits(info, program)
  {
  }

  lemma FitsNone(info: seq<PageInfo>, pid: int)
    ensures Fits(info, []) && TakenFor(info, [], pid) == info
  {
  }

  lemma StackLeaf(mem: Memory, mem': Memory, t: Tables, pa: nat)
    requires Remapped(mem, mem', t, STACK, STACK + 1, pa, PTE_PWU)
    ensures LeafAt(mem', t, STACK) == pa + PTE_PWU
  {
  }

  // ---------------------------------------------------- whole programs

  const STACK: nat := MEMSIZE_VIRTUAL / PAGESIZE - 1   // virtual page of the stack

  /** Every segment of the program is in place, and the stack is mapped. */
  ghost predicate ProgramLoaded(m: Machine, pid: int, program: seq<Segment>)
    requires Sized(m) && 0 <= pid < NPROC
  {
    (forall seg :: seg in program ==> SegmentLoaded(m, pid, seg))
    && Distinct(m.tables[pid])
    && exists pn: nat :: Owned(m, pid, pn) && LeafAt(m.mem, m.tables[pid], STACK) == PAGESIZE * pn + PTE_PWU
  }

  /** The segments loaded so far stay while the next one is loaded. */
  lemma SegmentsKept(m: Machine, m': Machine, lay: Layout, pid: int, program: seq<Segment>, seg: Segment)
    requires Loading(m, lay, pid) && forall s :: s in program ==> SegmentLoaded(m, pid, s)
    requires RangeFree(m.info, seg.first, seg.Pages())
    requires m' == m.(mem := m'.mem, info := GivenRange(m.info, seg.first, seg.Pages(), pid))
    requires var t := m.tables[pid];
      SameOutside(m.mem, m'.mem, seg.PageSet() + {t.l3, t.l4}) && LeavesKept(m.mem, m'.mem, t, seg.first, seg.Pages())
    ensures forall s :: s in program ==> SegmentLoaded(m', pid, s)
  {
    var t := m.tables[pid];
    forall s | s in program
      ensures SegmentLoaded(m', pid, s)
    {
      forall p: nat | s.Covers(p)
        ensures p !in seg.PageSet() + {t.l3, t.l4} && !(seg.first <= p < seg.first + seg.Pages())
      {
        SegmentOwned(m, pid, s, p);
        assert seg.first <= p < seg.first + seg.Pages() ==> FreeAt(m.info, p);
      }
      hide Loading, SegmentLoaded, SameOutside, LeavesKept;
      SegmentKept(m, m', pid, s, seg.first, seg.Pages(), seg.PageSet() + {t.l3, t.l4});
    }
  }

  /** Mapping the stack page `pn`. */
  lemma StackKeeps(m: Machine, m': Machine, lay: Layout, pid: int, program: seq<Segment>, pn: nat)
    requires Loading(m, lay, pid) && forall s :: s in program ==> SegmentLoaded(m, pid, s)
    requires pn < NPAGES && m.info[pn].refcount == 0 && m' == Claim(m, pid, pn).(mem := m'.mem)
    requires var t := m.tables[pid]; SameOutside(m.mem, m'.mem, {t.l3, t.l4}) && LeavesKept(m.mem, m'.mem, t, STACK, 1)
    requires LeafAt(m'.mem, m.tables[pid], STACK) == PAGESIZE * pn + PTE_PWU
    ensures ProgramLoaded(m', pid, program)
  {
    var t := m.tables[pid];
    assert Owned(m', pid, pn);
    forall s | s in program
      ensures SegmentLoaded(m', pid, s)
    {
      forall p: nat | s.Covers(p)
        ensures p !in {t.l3, t.l4} && !(STACK <= p < STACK + 1)
      {
        SegmentOwned(m, pid, s, p);
      }
      hide Loading, SegmentLoaded, SameOutside, LeavesKept;
      SegmentKept(m, m', pid, s, STACK, 1, {t.l3, t.l4});
    }
  }

  lemma StackLoaded(m: Machine, m': Machine, lay: Layout, pid: int, program: seq<Segment>, pn: nat)
    requires Loading(m, lay, pid) && forall s :: s in program ==> SegmentLoaded(m, pid, s)
    requires pn < NPAGES && m.info[pn].refcount == 0 && m' == Claim(m, pid, pn).(mem := m'.mem)
    requires var t := m.tables[pid];
      Shape(m'.mem, t) && SameOutside(m.mem, m'.mem, {t.l3, t.l4})
      && Remapped(m.mem, m'.mem, t, STACK, STACK + 1, PAGESIZE * pn, PTE_PWU)
    ensures Loading(m', lay, pid) && OthersUntouched(m, m', pid) && ProgramLoaded(m', pid, program)
    ensures LeafAt(m'.mem, m.tables[pid], STACK) == PAGESIZE * pn + PTE_PWU
  {
    var t := m.tables[pid];
    LoadingTable(m, lay, pid);
    LoadClaim(m, lay, pid, pn);
    assert Owned(Claim(m, pid, pn), pid, pn);
    hide Loading, OthersUntouched, Shape, SameOutside, LeafAt, SegmentLoaded, ProgramLoaded, Remapped, LeavesKept;
    LoadMap(Claim(m, pid, pn), m', lay, pid, STACK, pn, PTE_PWU);
    OwnStep(m, m', pid, {t.l3, t.l4});
    RemapKeeps(m.mem, m'.mem, t, STACK, PAGESIZE * pn, PTE_PWU);
    StackLeaf(m.mem, m'.mem, t, PAGESIZE * pn);
    StackKeeps(m, m', lay, pid, program, pn);
  }

  lemma ProgramSame(m: Machine, m': Machine, pid: int, program: seq<Segment>)
    requires Sized(m) && Sized(m') && 0 <= pid < NPROC && ProgramLoaded(m, pid, program)
    requires m'.mem == m.mem && m'.info == m.info && m'.tables == m.tables
    ensures ProgramLoaded(m', pid, program)
  {
    hide LeafAt, ImageWritten;
    forall s | s in program ensures SegmentLoaded(m', pid, s) { SegmentSame(m, m', pid, s); }
    var pn: nat :| Owned(m, pid, pn) && LeafAt(m.mem, m.tables[pid], STACK) == PAGESIZE * pn + PTE_PWU;
    assert Owned(m', pid, pn);
  }

  lemma SegmentSame(m: Machine, m': Machine, pid: int, seg: Segment)
    requires Sized(m) && Sized(m') && 0 <= pid < NPROC && SegmentLoaded(m, pid, seg)
    requires m'.mem == m.mem && m'.info == m.info && m'.tables == m.tables
    ensures SegmentLoaded(m', pid, seg)
  {
    hide LeafAt, ImageWritten;
    forall p: nat, perm: nat | LoadedPage(m, pid, p, perm) ensures LoadedPage(m', pid, p, perm) {}
  }

  lemma ProgramUntouched(m: Machine, m': Machine, lay: Layout, pid: int, program: seq<Segment>)
    requires Inv(m, lay, 0) && Live(m, pid) && Untouched(m, m', pid) && ProgramLoaded(m, pid, program)
    ensures ProgramLoaded(m', pid, program)
  {
    assert ProcOk(m, pid);
    TableOwned(m, pid, m.tables[pid]);
    forall s | s in program ensures SegmentLoaded(m', pid, s) { SegmentUntouched(m, m', pid, s); }
    var t := m.tables[pid];
    assert SamePage(m.mem, m'.mem, t.l4);
    var pn: nat :| Owned(m, pid, pn) && LeafAt(m.mem, m.tables[pid], STACK) == PAGESIZE * pn + PTE_PWU;
    assert Owned(m', pid, pn);
  }

  // ------------------------------------------------ when memory suffices

  function FreeSet(info: seq<PageInfo>): set<nat> { set p: nat | p < |info| && FreeAt(info, p) }

  lemma FreeSetPages(m: Machine)
    requires Sized(m)
    ensures FreeSet(m.info) == FreePages(m)
  {
  }

  /** `process_setup` gets five pages for tables, the pages of the program and
      a page for the stack. */
  ghost predicate ProcessFits(info: seq<PageInfo>, program: seq<Segment>, pid: int) {
    var tables := TakeN(info, pid, 5);
    |FreeSet(info)| >= 5 && Fits(tables, program) && Lowest(TakenFor(tables, program, pid)) < |info|
  }

  ghost function ProcessTaken(info: seq<PageInfo>, program: seq<Segment>, pid: int): (r: seq<PageInfo>)
    ensures |r| == |info|
  {
    Take(TakenFor(TakeN(info, pid, 5), program, pid), pid)
  }

  /** One `process_setup` after the other. */
  ghost predicate BootFits(info: seq<PageInfo>, programs: seq<seq<Segment>>, pid: int)
    decreases |programs|
  {
    programs == []
    || (ProcessFits(info, programs[0], pid) && BootFits(ProcessTaken(info, programs[0], pid), programs[1..], pid + 1))
  }

  function Flat(programs: seq<seq<Segment>>): seq<Segment> {
    if programs == [] then [] else programs[0] + Flat(programs[1..])
  }

  /** The free pages below PROC_START_ADDR. */
  function LowFree(info: seq<PageInfo>): set<nat> { set p: nat | p < PROC_START && FreeAt(info, p) }

  /** A page is taken from below as long as there is one. */
  lemma TakeLow(info: seq<PageInfo>, pid: int)
    requires LowFree(info) != {}
    ensures |LowFree(Take(info, pid))| == |LowFree(info)| - 1
    ensures forall p: nat :: p >= PROC_START ==> (FreeAt(Take(info, pid), p) <==> FreeAt(info, p))
    ensures Lowest(info) < |info|
  {
    var q :| q in LowFree(info);
    var p := Lowest(info);
    assert p <= q;
    assert LowFree(Take(info, pid)) == LowFree(info) - {p};
  }

  lemma {:induction false} TakeLowN(info: seq<PageInfo>, pid: int, n: nat)
    requires |LowFree(info)| >= n
    ensures |LowFree(TakeN(info, pid, n))| == |LowFree(info)| - n
    ensures forall p: nat :: p >= PROC_START ==> (FreeAt(TakeN(info, pid, n), p) <==> FreeAt(info, p))
  {
    if n > 0 {
      TakeLowN(info, pid, n - 1);
      TakeLow(TakeN(info, pid, n - 1), pid);
    }
  }

  lemma LowIsFree(info: seq<PageInfo>)
    ensures |LowFree(info)| <= |FreeSet(info)|
  {
    var low, all := LowFree(info), FreeSet(info);
    assert all == low + (all - low);
  }

  ghost predicate High(program: seq<Segment>) { forall p: nat :: Covered(program, p) ==> p >= PROC_START }

  lemma CoveredJoined(a: seq<Segment>, b: seq<Segment>, p: nat)
    ensures Covered(a + b, p) <==> Covered(a, p) || Covered(b, p)
  {
    var c := a + b;
    if Covered(a, p) { var k: nat :| k < |a| && a[k].Covers(p); assert c[k] == a[k]; }
    if Covered(b, p) { var k: nat :| k < |b| && b[k].Covers(p); assert c[|a| + k] == b[k]; }
    if Covered(c, p) {
      var k: nat :| k < |c| && c[k].Covers(p);
      assert c[k] == if k < |a| then a[k] else b[k - |a|];
    }
  }

  lemma ApartJoined(a: seq<Segment>, b: seq<Segment>)
    requires Apart(a + b)
    ensures Apart(a) && Apart(b) && forall p: nat :: Covered(a, p) ==> !Covered(b, p)
  {
    var c := a + b;
    assert forall k: nat :: k < |a| ==> c[k] == a[k];
    assert forall k: nat :: k < |b| ==> c[|a| + k] == b[k];
    hide Segment.Covers;
    forall j: nat, k: nat, p: nat | j < k < |a| && a[j].Covers(p) ensures !a[k].Covers(p) {
      assert c[j].Covers(p) ==> !c[k].Covers(p);
    }
    forall j: nat, k: nat, p: nat | j < k < |b| && b[j].Covers(p) ensures !b[k].Covers(p) {
      assert c[|a| + j].Covers(p) ==> !c[|a| + k].Covers(p);
    }
    forall j: nat, k: nat, p: nat | j < |a| && k < |b| && a[j].Covers(p) ensures !b[k].Covers(p) {
      assert c[j].Covers(p) ==> !c[|a| + k].Covers(p);
    }
  }

  /** One process: its tables and stack come from below, its program from
      above. */
  lemma ProcessFitsHigh(info: seq<PageInfo>, program: seq<Segment>, rest: seq<Segment>, pid: int)
    requires |LowFree(info)| >= 6 && Fits(info, program + rest) && High(program + rest)
    ensures ProcessFits(info, program, pid) && |LowFree(ProcessTaken(info, program, pid))| == |LowFree(info)| - 6
    ensures Fits(ProcessTaken(info, program, pid), rest) && High(rest)
  {
    var tables := TakeN(info, pid, 5);
    var taken := TakenFor(tables, program, pid);
    TakeLowN(info, pid, 5);
    LowIsFree(info);
    ApartJoined(program, rest);
    forall p: nat ensures Covered(program + rest, p) <==> Covered(program, p) || Covered(rest, p) {
      CoveredJoined(program, rest, p);
    }
    hide Covered, Apart, TakeN, Take, Lowest;
    forall p: nat ensures FreeAt(taken, p) <==> FreeAt(tables, p) && !Covered(program, p) {}
    assert LowFree(taken) == LowFree(tables);
    TakeLow(taken, pid);
  }

  /** Any programs above PROC_START_ADDR that do not overlap boot, as long as
      six pages each are free below. */
  lemma {:induction false} BootFitsHigh(info: seq<PageInfo>, programs: seq<seq<Segment>>, pid: int)
    requires |LowFree(info)| >= 6 * |programs| && Fits(info, Flat(programs)) && High(Flat(programs))
    ensures BootFits(info, programs, pid)
    decreases |programs|
  {
    if programs != [] {
      ProcessFitsHigh(info, programs[0], Flat(programs[1..]), pid);
      hide ProcessFits, ProcessTaken, Fits, High;
      BootFitsHigh(ProcessTaken(info, programs[0], pid), programs[1..], pid + 1);
    }
  }

  lemma {:induction false} CountedFree(info: seq<PageInfo>, lo: nat, hi: nat) returns (counted: set<nat>)
    requires lo <= hi && forall p: nat :: lo <= p < hi ==> FreeAt(info, p)
    ensures |counted| == hi - lo && forall p: nat :: p in counted <==> lo <= p < hi
    decreases hi - lo
  {
    counted := {};
    if lo < hi {
      counted := CountedFree(info, lo, hi - 1);
      counted := counted + {hi - 1};
    }
  }

  /** At boot 95 pages below PROC_START_ADDR are free wherever the kernel
      ends, and so are all pages above it. */
  lemma InitialFree(m: Machine, lay: Layout)
    requires Inv(m, lay, 0) && forall q :: 0 <= q < NPROC ==> m.proc[q].state == P_FREE
    ensures |LowFree(m.info)| >= 95
    ensures forall p: nat :: PROC_START <= p < NPAGES ==> FreeAt(m.info, p)
  {
    forall p: nat | p < NPAGES && !IsReserved(p) && !IsKernelPage(lay, p) ensures FreeAt(m.info, p) {
      assert InfoOk(m, lay, 0, p);
    }
    var low := LowFree(m.info);
    var a := CountedFree(m.info, 1, KERNEL_START);
    var b := CountedFree(m.info, 0x80, 0xA0);
    hide FreeAt, Inv;
    assert |a + b| == 95;
    assert low == (a + b) + (low - (a + b));
  }

  /** So up to fifteen programs boot, whatever their segments above
      PROC_START_ADDR, if no two of them share a page. */
  lemma BootableHigh(m: Machine, lay: Layout, programs: seq<seq<Segment>>)
    requires Inv(m, lay, 0) && (forall q :: 0 <= q < NPROC ==> m.proc[q].state == P_FREE)
    requires |programs| < NPROC && Apart(Flat(programs))
    requires forall p: nat :: Covered(Flat(programs), p) ==> PROC_START <= p < NPAGES
    ensures BootFits(m.info, programs, 1)
  {
    InitialFree(m, lay);
    hide Covered, Apart, Inv, FreeAt, LowFree;
    BootFitsHigh(m.info, programs, 1);
  }
}

/** pset1/m61.c: the debugging allocator.  Every block carries a header in a
    doubly linked list and a trailer of two sentinels. */
module M61 {
  import opened Basics
  import opened Modular

  const SIZE_MAX := WORD - 1
  const METADATA := 56      // sizeof(struct m61_metadata)
  const BUFFERS := 16       // sizeof(m61_buffers)
  const STATISTICS := 64    // sizeof(struct m61_statistics)

  /** Arithmetic of `unsigned long long`. */
  function Wrap(x: int): (w: nat)
    ensures w < WORD && (0 <= x < WORD ==> w == x)
  {
    x % WORD
  }

  /** An allocation site; the file name is compared as a pointer. */
  datatype Site = Site(file: nat, line: int)

  /** A heavy-hitter slot: the fields of its header that are used. */
  datatype Hitter = Hitter(blockSize: nat, site: Site)

  /** A successful allocation and where its block is. */
  datatype Request = Request(site: Site, sz: nat, at: nat)

  datatype Leak = Leak(site: Site, address: nat, size: nat)

  datatype Call = Malloc | Calloc(nmemb: nat) | Free | Realloc | Write

  /** A step of a program: what it calls, the position of the block that it
      passes, the size (or the offset of a write), the site, the address that
      the C library offers, and the byte of a write. */
  datatype Op = Op(call: Call, k: nat, sz: nat, site: Site, base: nat, value: byte) {
    predicate Possible() {
      sz <= SIZE_MAX && site.file != 0 && (call.Calloc? ==> call.nmemb <= SIZE_MAX)
    }
  }

  /** A block of memory at address `at`: header, payload and trailer. */
  class Block {
    const at: nat
    const data: array<byte>
    var blockSize: nat
    var active: int
    var address: nat
    var site: Site
    var prev: Block?
    var next: Block?
    var buffer1: nat
    var buffer2: nat

    /** Memory from the C library, with arbitrary contents. */
    constructor (at: nat, sz: nat)
      ensures this.at == at && data.Length == sz && fresh(data)
    {
      this.at := at;
      data := new byte[sz];
      site := Site(0, 0);
    }

    /** The bytes the block takes up. */
    function Extent(): nat { METADATA + data.Length + BUFFERS }
  }

  // ------------------------------------------------------- the live blocks

  predicate Disjoint(a: Block, b: Block) { a.at + a.Extent() <= b.at || b.at + b.Extent() <= a.at }

  predicate DisjointAll(live: seq<Block>) { forall i, j :: 0 <= i < j < |live| ==> Disjoint(live[i], live[j]) }

  /** The C library may return the `size` bytes at `base`. */
  predicate Available(live: seq<Block>, base: nat, size: nat) {
    0 < base && base + size < WORD
    && forall i :: 0 <= i < |live| ==> base + size <= live[i].at || live[i].at + live[i].Extent() <= base
  }

  /** Position `i` of the list: its links are to its neighbours. */
  ghost predicate LinkedAt(live: seq<Block>, i: nat)
    requires i < |live|
    reads live`next, live`prev
  {
    live[i].next == (if i + 1 < |live| then live[i + 1] else null)
    && live[i].prev == (if i > 0 then live[i - 1] else null)
  }

  ghost predicate Linked(head: Block?, live: seq<Block>)
    reads live`next, live`prev
  {
    head == (if live == [] then null else live[0]) && forall i :: 0 <= i < |live| ==> LinkedAt(live, i)
  }

  /** The header describes the block. */
  ghost predicate Described(b: Block)
    reads b`blockSize, b`active, b`address
  {
    b.blockSize == b.data.Length && b.active == 0 && b.address == b.at + METADATA
  }

  ghost predicate Intact(b: Block)
    reads b`buffer1, b`buffer2
  {
    b.buffer1 == 1234 && b.buffer2 == 4321
  }

  ghost predicate AllDescribed(live: seq<Block>)
    reads live`blockSize, live`active, live`address
  {
    forall i :: 0 <= i < |live| ==> Described(live[i])
  }

  lemma DescribedMore(p: Block, live: seq<Block>)
    requires Described(p) && AllDescribed(live)
    ensures AllDescribed([p] + live)
  {
  }

  lemma DescribedLess(live: seq<Block>, k: nat)
    requires AllDescribed(live) && Different(live) && k < |live|
    ensures AllDescribed(Without(live, k)) && live[k] !in Without(live, k)
  {
  }

  ghost predicate InHeap(b: Block, heapMin: nat, heapMax: nat) {
    0 < heapMin <= b.at && b.at + b.Extent() <= heapMax
  }

  function Bytes(live: seq<Block>): nat {
    if live == [] then 0 else live[0].data.Length + Bytes(live[1..])
  }

  function Extents(live: seq<Block>): nat {
    if live == [] then 0 else live[0].Extent() + Extents(live[1..])
  }

  function Without<T>(s: seq<T>, k: nat): (r: seq<T>)
    requires k < |s|
    ensures |r| == |s| - 1
  {
    s[..k] + s[k + 1..]
  }

  lemma {:induction false} BytesWithout(live: seq<Block>, k: nat)
    requires k < |live|
    ensures Bytes(live) == Bytes(Without(live, k)) + live[k].data.Length
    ensures Extents(live) == Extents(Without(live, k)) + live[k].Extent()
  {
    if k == 0 {
      assert Without(live, k) == live[1..];
    } else {
      BytesWithout(live[1..], k - 1);
      assert Without(live, k) == [live[0]] + Without(live[1..], k - 1);
      assert Without(live, k)[1..] == Without(live[1..], k - 1);
    }
  }

  lemma {:induction false} ExtentsBytes(live: seq<Block>)
    ensures Extents(live) == Bytes(live) + |live| * (METADATA + BUFFERS)
  {
    if live != [] { ExtentsBytes(live[1..]); }
  }

  /** The block that ends last. */
  lemma {:induction false} LastBlock(live: seq<Block>) returns (k: nat)
    requires live != []
    ensures k < |live| && forall i :: 0 <= i < |live| ==> live[i].at + live[i].Extent() <= live[k].at + live[k].Extent()
  {
    k := 0;
    if |live| > 1 {
      var j := LastBlock(live[1..]);
      assert forall i :: 1 <= i < |live| ==> live[i] == live[1..][i - 1];
      if live[0].at + live[0].Extent() <= live[j + 1].at + live[j + 1].Extent() { k := j + 1; }
    }
  }

  lemma DisjointWithout(live: seq<Block>, k: nat)
    requires k < |live| && DisjointAll(live)
    ensures DisjointAll(Without(live, k))
  {
  }

  /** Disjoint blocks below `top` take up at most `top` bytes. */
  lemma {:induction false} Space(live: seq<Block>, top: nat)
    requires DisjointAll(live) && forall i :: 0 <= i < |live| ==> live[i].at + live[i].Extent() <= top
    ensures Extents(live) <= top
    decreases |live|
  {
    if live != [] {
      var k := LastBlock(live);
      var r := Without(live, k);
      DisjointWithout(live, k);
      forall i | 0 <= i < |r| ensures r[i].at + r[i].Extent() <= live[k].at {
        var j := if i < k then i else i + 1;
        assert r[i] == live[j];
        assert Disjoint(live[if j < k then j else k], live[if j < k then k else j]);
      }
      Space(r, live[k].at);
      BytesWithout(live, k);
    }
  }

  /** Neither the number of live blocks nor their bytes can wrap. */
  lemma NoWrap(live: seq<Block>)
    requires DisjointAll(live) && forall i :: 0 <= i < |live| ==> live[i].at + live[i].Extent() <= WORD
    ensures Bytes(live) < WORD && |live| < WORD
  {
    Space(live, WORD);
    ExtentsBytes(live);
  }

  // ---------------------------------------------------------- the top three

  function Total(history: seq<Request>): nat {
    if history == [] then 0 else history[0].sz + Total(history[1..])
  }

  /** The bytes that were really allocated at `site`. */
  function SiteTotal(history: seq<Request>, site: Site): nat {
    if history == [] then 0 else (if history[0].site == site then history[0].sz else 0) + SiteTotal(history[1..], site)
  }

  /** The lowest address of a block, or 0. */
  function Lowest(history: seq<Request>): nat {
    if history == [] then 0
    else
      var rest, at := history[..|history| - 1], history[|history| - 1].at;
      if rest == [] || at < Lowest(rest) then at else Lowest(rest)
  }

  function EndOf(r: Request): nat { r.at + METADATA + r.sz + BUFFERS }

  /** The highest end of a block, or 0. */
  function Highest(history: seq<Request>): nat {
    if history == [] then 0
    else
      var rest, end := history[..|history| - 1], EndOf(history[|history| - 1]);
      if end > Highest(rest) then end else Highest(rest)
  }

  /** They are bounds, and some block reaches each. */
  lemma {:induction false} ExtremesReached(history: seq<Request>)
    ensures forall r :: r in history ==> Lowest(history) <= r.at && EndOf(r) <= Highest(history)
    ensures history != [] ==> exists r :: r in history && r.at == Lowest(history)
    ensures history != [] ==> exists r :: r in history && EndOf(r) == Highest(history)
  {
    if history != [] {
      var rest, r := history[..|history| - 1], history[|history| - 1];
      ExtremesReached(rest);
      assert history == rest + [r];
      assert r in history && forall q :: q in rest ==> q in history;
    }
  }

  lemma {:induction false} TotalAppend(history: seq<Request>, r: Request, site: Site)
    ensures Total(history + [r]) == Total(history) + r.sz
    ensures SiteTotal(history + [r], site) == SiteTotal(history, site) + if r.site == site then r.sz else 0
  {
    if history == [] {
      assert history + [r] == [r] && [r][1..] == [];
    } else {
      TotalAppend(history[1..], r, site);
      assert (history + [r])[1..] == history[1..] + [r];
    }
  }

  predicate Descending(s: seq<Hitter>) { forall i, j :: 0 <= i < j < |s| ==> s[i].blockSize >= s[j].blockSize }

  predicate DifferentSites(s: seq<Hitter>) { forall i, j :: 0 <= i < j < |s| ==> s[i].site != s[j].site }

  function Sum(s: seq<Hitter>): nat { if s == [] then 0 else s[0].blockSize + Sum(s[1..]) }

  /** The occupied slots: no count is above what its site allocated, and
      together they are not above the total. */
  predicate Counts(s: seq<Hitter>, history: seq<Request>) {
    DifferentSites(s) && Sum(s) <= Total(history)
    && forall i :: 0 <= i < |s| ==> s[i].blockSize <= SiteTotal(history, s[i].site)
  }

  lemma SwapSum(s: seq<Hitter>, i: nat, j: nat)
    requires i < j < |s|
    ensures Sum(s[i := s[j]][j := s[i]]) == Sum(s)
  {
    SumUpdate(s, i, s[j]);
    SumUpdate(s[i := s[j]], j, s[i]);
  }

  lemma {:induction false} SumUpdate(s: seq<Hitter>, k: nat, h: Hitter)
    requires k < |s|
    ensures Sum(s[k := h]) == Sum(s) - s[k].blockSize + h.blockSize
  {
    if k == 0 {
      assert s[k := h][1..] == s[1..];
    } else {
      assert s[k := h][1..] == s[1..][k - 1 := h];
      SumUpdate(s[1..], k - 1, h);
    }
  }

  lemma {:induction false} SumAppend(s: seq<Hitter>, h: Hitter)
    ensures Sum(s + [h]) == Sum(s) + h.blockSize
  {
    if s == [] {
      assert s + [h] == [h] && [h][1..] == [];
    } else {
      SumAppend(s[1..], h);
      assert (s + [h])[1..] == s[1..] + [h];
    }
  }

  lemma {:induction false} SumAtLeast(s: seq<Hitter>, k: nat)
    requires k < |s|
    ensures s[k].blockSize <= Sum(s)
  {
    if k > 0 { SumAtLeast(s[1..], k - 1); }
  }

  /** A rearrangement by swaps; what it keeps. */
  ghost predicate Rearranged(s: seq<Hitter>, t: seq<Hitter>) {
    multiset(s) == multiset(t) && Sum(s) == Sum(t) && (DifferentSites(s) ==> DifferentSites(t))
  }

  lemma SwapRearranged(s: seq<Hitter>, i: nat, j: nat)
    requires i < j < |s|
    ensures Rearranged(s, s[i := s[j]][j := s[i]])
  {
    SwapSum(s, i, j);
  }

  lemma RearrangedTwice(s: seq<Hitter>, t: seq<Hitter>, u: seq<Hitter>)
    requires Rearranged(s, t) && Rearranged(t, u)
    ensures Rearranged(s, u)
  {
  }

  /** The slots from `from` on are smallest and in order. */
  predicate SortedFrom(s: seq<Hitter>, from: int) {
    forall p, q :: 0 <= p < q < |s| && from <= q ==> s[p].blockSize >= s[q].blockSize
  }

  /** No slot before `k` is smaller than slot `k`. */
  predicate SmallestAt(s: seq<Hitter>, k: nat)
    requires k < |s|
  {
    forall p :: 0 <= p < k ==> s[p].blockSize >= s[k].blockSize
  }

  function Swapped(s: seq<Hitter>, k: nat): (t: seq<Hitter>)
    requires k + 1 < |s|
    ensures |t| == |s|
  {
    s[k := s[k + 1]][k + 1 := s[k]]
  }

  lemma SwapSmallest(s: seq<Hitter>, k: nat, from: int)
    requires k + 1 < |s| && k + 1 < from && SmallestAt(s, k) && SortedFrom(s, from)
    ensures var t := if s[k].blockSize < s[k + 1].blockSize then Swapped(s, k) else s;
      SmallestAt(t, k + 1) && SortedFrom(t, from) && Rearranged(s, t)
  {
    SwapRearranged(s, k, k + 1);
    hide Rearranged;
  }

  /** The body of `heavy`'s inner loop. */
  method SwapNext(a: array<Hitter>, n: nat, index: nat)
    requires index + 1 < n <= a.Length
    modifies a
    ensures a[..n] == old(if a[index].blockSize < a[index + 1].blockSize then Swapped(a[..n], index) else a[..n])
    ensures a[n..] == old(a[n..])
  {
    if a[index].blockSize < a[index + 1].blockSize {
      var temp := a[index];
      a[index] := a[index + 1];
      a[index + 1] := temp;
    }
  }

  /** One pass of `heavy` over the first `end` slots. */
  method Pass(a: array<Hitter>, n: nat, end: nat)
    requires 0 < end <= n <= a.Length && SortedFrom(a[..n], end)
    modifies a
    ensures Rearranged(old(a[..n]), a[..n]) && a[n..] == old(a[n..])
    ensures SortedFrom(a[..n], end - 1)
  {
    var index := 0;
    while index < end - 1
      invariant index < end && SmallestAt(a[..n], index) && SortedFrom(a[..n], end)
      invariant Rearranged(old(a[..n]), a[..n]) && a[n..] == old(a[n..])
    {
      hide Rearranged, SmallestAt, SortedFrom, Swapped;
      ghost var was := a[..n];
      SwapSmallest(was, index, end);
      SwapNext(a, n, index);
      RearrangedTwice(old(a[..n]), was, a[..n]);
      index := index + 1;
    }
  }

  /** `heavy`: a bubble sort of the first `n` slots, largest first. */
  method Heavy(a: array<Hitter>, n: nat)
    requires n <= a.Length
    modifies a
    ensures Descending(a[..n]) && Rearranged(old(a[..n]), a[..n]) && a[n..] == old(a[n..])
  {
    var i := 0;
    while i < n - 1
      invariant 0 <= i && (n > 0 ==> i < n) && SortedFrom(a[..n], n - i)
      invariant Rearranged(old(a[..n]), a[..n]) && a[n..] == old(a[n..])
    {
      hide Rearranged;
      ghost var was := a[..n];
      Pass(a, n, n - i);
      RearrangedTwice(old(a[..n]), was, a[..n]);
      i := i + 1;
    }
  }

  function SlotOf(s: seq<Hitter>, site: Site): (k: nat)
    ensures k <= |s| && (k < |s| ==> s[k].site == site) && forall j :: 0 <= j < k ==> s[j].site != site
  {
    if s == [] || s[0].site == site then 0 else 1 + SlotOf(s[1..], site)
  }

  /** The occupied slots after an allocation, before they are sorted. */
  function Recorded(s: seq<Hitter>, h: Hitter): seq<Hitter> {
    var k := SlotOf(s, h.site);
    if k < |s| then s[k := Hitter(Wrap(s[k].blockSize + h.blockSize), h.site)]
    else if |s| < 3 then s + [h]
    else if s[2].blockSize < h.blockSize then s[2 := h]
    else s
  }

  lemma RecordedDifferent(s: seq<Hitter>, h: Hitter)
    requires DifferentSites(s)
    ensures DifferentSites(Recorded(s, h))
  {
  }

  /** Slot by slot: a slot is as it was, or it is the one of the new site. */
  lemma RecordedSlot(s: seq<Hitter>, h: Hitter, i: nat)
    requires DifferentSites(s) && i < |Recorded(s, h)|
    ensures var slot, k := Recorded(s, h)[i], SlotOf(s, h.site);
      if slot.site == h.site then
        (if k < |s| then i == k && slot.blockSize == Wrap(s[k].blockSize + h.blockSize) else slot == h)
      else i < |s| && slot == s[i]
  {
  }

  /** Recording keeps the counts within what was really allocated. */
  lemma CountsRecorded(s: seq<Hitter>, history: seq<Request>, h: Hitter, at: nat)
    requires Counts(s, history)
    ensures Counts(Recorded(s, h), history + [Request(h.site, h.blockSize, at)])
  {
    var r, k, s' := Request(h.site, h.blockSize, at), SlotOf(s, h.site), Recorded(s, h);
    TotalAppend(history, r, h.site);
    RecordedDifferent(s, h);
    if k < |s| {
      SumUpdate(s, k, Hitter(Wrap(s[k].blockSize + h.blockSize), h.site));
      WrapAtMost(s[k].blockSize + h.blockSize);
    } else if |s| < 3 {
      SumAppend(s, h);
    } else {
      SumUpdate(s, 2, h);
    }
    hide Recorded, SlotOf, Total, SiteTotal, Sum, Wrap;
    forall i | 0 <= i < |s'| ensures s'[i].blockSize <= SiteTotal(history + [r], s'[i].site) {
      RecordedSlot(s, h, i);
      TotalAppend(history, r, s'[i].site);
    }
  }

  lemma WrapAtMost(x: nat)
    ensures Wrap(x) <= x
  {
  }

  /** The sites that have allocated. */
  function Sites(history: seq<Request>): set<Site> { set r | r in history :: r.site }

  /** The table knows every site and its exact number of bytes. */
  ghost predicate Exact(s: seq<Hitter>, history: seq<Request>) {
    DifferentSites(s)
    && (forall site :: site in Sites(history) ==> SlotOf(s, site) < |s|)
    && forall i :: 0 <= i < |s| ==> s[i].site in Sites(history) && s[i].blockSize == SiteTotal(history, s[i].site)
  }

  lemma SitesAppend(history: seq<Request>, r: Request)
    ensures Sites(history + [r]) == Sites(history) + {r.site}
  {
  }

  /** The sites in the table. */
  function Named(s: seq<Hitter>): set<Site> { set i | 0 <= i < |s| :: s[i].site }

  lemma {:induction false} NamedSize(s: seq<Hitter>)
    ensures |Named(s)| <= |s| && (DifferentSites(s) ==> |Named(s)| == |s|)
  {
    if s != [] {
      var last, rest := s[|s| - 1], s[..|s| - 1];
      NamedSize(rest);
      assert Named(s) == Named(rest) + {last.site};
      assert DifferentSites(s) ==> last.site !in Named(rest);
    }
  }

  lemma SubsetSize(a: set<Site>, b: set<Site>)
    requires a <= b
    ensures |a| <= |b|
  {
    assert b == a + (b - a);
  }

  /** An exact table of three slots knows at most three sites ... */
  lemma ExactFew(s: seq<Hitter>, history: seq<Request>)
    requires Exact(s, history) && |s| <= 3
    ensures |Sites(history)| <= 3
  {
    forall site | site in Sites(history) ensures site in Named(s) { assert s[SlotOf(s, site)].site == site; }
    SubsetSize(Sites(history), Named(s));
    NamedSize(s);
  }

  /** ... and with at most three a new one finds a free slot. */
  lemma FewFit(s: seq<Hitter>, history: seq<Request>, site: Site)
    requires Exact(s, history) && |s| <= 3 && |Sites(history) + {site}| <= 3
    ensures SlotOf(s, site) < |s| || |s| < 3
  {
    if SlotOf(s, site) == |s| {
      NamedSize(s);
      SubsetSize(Named(s) + {site}, Sites(history) + {site});
      assert site !in Named(s);
    }
  }

  /** The largest slot of an exact table is the heaviest site. */
  lemma HeaviestFirst(s: seq<Hitter>, history: seq<Request>, site: Site)
    requires Exact(s, history) && Descending(s) && history != []
    ensures s != [] && SiteTotal(history, site) <= s[0].blockSize
  {
    assert history[0].site in Sites(history);
    var k := SlotOf(s, site);
    if k == |s| {
      forall r | r in history ensures r.site != site { assert r.site in Sites(history); }
      NoRequests(history, site);
    } else {
      assert s[k].blockSize == SiteTotal(history, site);
    }
  }

  lemma {:induction false} NoRequests(history: seq<Request>, site: Site)
    requires forall r :: r in history ==> r.site != site
    ensures SiteTotal(history, site) == 0
  {
    if history != [] { NoRequests(history[1..], site); }
  }

  lemma {:induction false} SiteAtMostTotal(history: seq<Request>, site: Site)
    ensures SiteTotal(history, site) <= Total(history)
  {
    if history != [] { SiteAtMostTotal(history[1..], site); }
  }

  lemma SlotFound(s: seq<Hitter>, i: nat)
    requires i < |s|
    ensures SlotOf(s, s[i].site) < |s|
  {
  }

  /** As long as a new site finds a free slot, the table stays exact. */
  lemma ExactRecorded(s: seq<Hitter>, history: seq<Request>, h: Hitter, at: nat)
    requires Exact(s, history) && (SlotOf(s, h.site) < |s| || |s| < 3)
    requires Total(history) + h.blockSize < WORD
    ensures Exact(Recorded(s, h), history + [Request(h.site, h.blockSize, at)])
  {
    var r := Request(h.site, h.blockSize, at);
    var s', k := Recorded(s, h), SlotOf(s, h.site);
    RecordedDifferent(s, h);
    SitesAppend(history, r);
    SiteAtMostTotal(history, h.site);
    forall site | site in Sites(history + [r]) ensures SlotOf(s', site) < |s'| {
      var j := if site == h.site then k else SlotOf(s, site);
      assert s'[j].site == site;
      SlotFound(s', j);
    }
    if k == |s| {
      forall q | q in history ensures q.site != h.site { assert q.site in Sites(history) && SlotOf(s, q.site) < |s|; }
      NoRequests(history, h.site);
    }
    hide Recorded, SlotOf, Total, SiteTotal;
    forall i | 0 <= i < |s'|
      ensures s'[i].site in Sites(history + [r]) && s'[i].blockSize == SiteTotal(history + [r], s'[i].site)
    {
      RecordedSlot(s, h, i);
      TotalAppend(history, r, s'[i].site);
    }
  }

  /** So the table is exact when at most three sites have allocated. */
  ghost predicate ExactIfFew(s: seq<Hitter>, history: seq<Request>) {
    Total(history) < WORD && |Sites(history)| <= 3 ==> Exact(s, history)
  }

  lemma FewRecorded(s: seq<Hitter>, history: seq<Request>, h: Hitter, at: nat)
    requires ExactIfFew(s, history) && |s| <= 3
    ensures ExactIfFew(Recorded(s, h), history + [Request(h.site, h.blockSize, at)])
  {
    var r := Request(h.site, h.blockSize, at);
    TotalAppend(history, r, h.site);
    SitesAppend(history, r);
    if Total(history + [r]) < WORD && |Sites(history + [r])| <= 3 {
      SubsetSize(Sites(history), Sites(history + [r]));
      FewFit(s, history, h.site);
      ExactRecorded(s, history, h, at);
    }
  }

  lemma FewRearranged(s: seq<Hitter>, t: seq<Hitter>, history: seq<Request>)
    requires ExactIfFew(s, history) && Rearranged(s, t)
    ensures ExactIfFew(t, history)
  {
    if Exact(s, history) {
      hide SlotOf, SiteTotal, Sites, Sum;
      forall i | 0 <= i < |t| ensures t[i].site in Sites(history) && t[i].blockSize == SiteTotal(history, t[i].site) {
        assert t[i] in multiset(t);
        assert t[i] in multiset(s);
      }
      forall site | site in Sites(history) ensures SlotOf(t, site) < |t| {
        var k := SlotOf(s, site);
        assert s[k] in multiset(s);
        assert s[k] in multiset(t);
        var j: nat :| j < |t| && t[j] == s[k];
        SlotFound(t, j);
      }
    }
  }

  /** With four sites the table can miss the one that allocated most. */
  lemma HeaviestMissed(a: Site, b: Site, c: Site, d: Site, at: nat, history: seq<Request>)
    requires a != b && a != c && a != d && b != c && b != d && c != d
    requires history == [Request(a, 10, at), Request(b, 10, at), Request(c, 10, at), Request(d, 9, at),
      Request(d, 9, at)]
    ensures var table := Recorded(Recorded(Recorded([], Hitter(10, a)), Hitter(10, b)), Hitter(10, c));
      table == [Hitter(10, a), Hitter(10, b), Hitter(10, c)]
      && Recorded(Recorded(table, Hitter(9, d)), Hitter(9, d)) == table
    ensures SiteTotal(history, a) == SiteTotal(history, b) == SiteTotal(history, c) == 10 && SiteTotal(history, d) == 18
  {
    var s := [Hitter(10, a), Hitter(10, b), Hitter(10, c)];
    assert SlotOf([], a) == 0 && SlotOf([Hitter(10, a)], b) == 1 && SlotOf([Hitter(10, a), Hitter(10, b)], c) == 2
      && SlotOf(s, d) == 3;
    forall site: Site ensures SiteTotal(history, site) ==
      (if site == a then 10 else 0) + (if site == b then 10 else 0) + (if site == c then 10 else 0)
        + (if site == d then 18 else 0)
    {
      assert SiteTotal(history[5..], site) == 0;
      SiteTotalAt(history, 4, site);
      SiteTotalAt(history, 3, site);
      SiteTotalAt(history, 2, site);
      SiteTotalAt(history, 1, site);
      SiteTotalAt(history, 0, site);
      assert history[0..] == history;
    }
  }

  lemma SiteTotalAt(history: seq<Request>, k: nat, site: Site)
    requires k < |history|
    ensures SiteTotal(history[k..], site)
         == (if history[k].site == site then history[k].sz else 0) + SiteTotal(history[k + 1..], site)
  {
  }

  /** The slots beyond the occupied ones are still empty. */
  predicate Unused(s: seq<Hitter>) { forall i :: 0 <= i < |s| ==> s[i].site.file == 0 }

  /** The occupied slots and the others. */
  ghost predicate TopThree(s: seq<Hitter>, unused: seq<Hitter>, history: seq<Request>) {
    Descending(s) && Counts(s, history) && ExactIfFew(s, history) && Unused(unused)
  }

  /** Recording an allocation and sorting. */
  lemma TopThreeRecorded(s: seq<Hitter>, unused: seq<Hitter>, history: seq<Request>, h: Hitter, at: nat, t: seq<Hitter>,
                         unused': seq<Hitter>)
    requires TopThree(s, unused, history) && |s| <= 3
    requires Rearranged(Recorded(s, h), t) && Descending(t) && Unused(unused')
    ensures TopThree(t, unused', history + [Request(h.site, h.blockSize, at)])
  {
    CountsRecorded(s, history, h, at);
    FewRecorded(s, history, h, at);
    hide Descending, Unused, Recorded, Counts, ExactIfFew, Rearranged;
    CountsRearranged(Recorded(s, h), t, history + [Request(h.site, h.blockSize, at)]);
    FewRearranged(Recorded(s, h), t, history + [Request(h.site, h.blockSize, at)]);
  }

  /** The loop over the slots: a site that has one is counted there. */
  method BumpSlot(a: array<Hitter>, used: nat, h: Hitter) returns (heavyHitter: bool)
    requires a.Length == 3 && used <= 3 && DifferentSites(a[..used]) && Unused(a[used..]) && h.site.file != 0
    modifies a
    ensures heavyHitter <==> SlotOf(old(a[..used]), h.site) < used
    ensures a[..used] == (if heavyHitter then Recorded(old(a[..used]), h) else old(a[..used]))
    ensures a[used..] == old(a[used..])
  {
    heavyHitter := false;
    ghost var s, rest, k := a[..used], a[used..], SlotOf(a[..used], h.site);
    for i := 0 to 3
      invariant heavyHitter <==> k < used && k < i
      invariant a[..used] == (if heavyHitter then Recorded(s, h) else s)
      invariant a[used..] == rest
    {
      assert i >= used ==> a[i] == rest[i - used];
      assert i < used && !heavyHitter ==> a[i] == s[i];
      assert i < used && i != k ==> a[i].site == s[i].site;
      if a[i].site == h.site {
        a[i] := a[i].(blockSize := Wrap(a[i].blockSize + h.blockSize));
        heavyHitter := true;
      }
    }
  }

  /** The heavy-hitter part of `m61_malloc`; `file` is not NULL. */
  method RecordSite(a: array<Hitter>, used: nat, h: Hitter) returns (used': nat)
    requires a.Length == 3 && used <= 3 && DifferentSites(a[..used]) && Unused(a[used..]) && h.site.file != 0
    modifies a
    ensures used <= used' <= 3 && Unused(a[used'..]) && Descending(a[..used'])
    ensures Rearranged(Recorded(old(a[..used]), h), a[..used'])
  {
    hide Rearranged, Descending, SlotOf, DifferentSites, Wrap;
    ghost var s, rest := a[..used], a[used..];
    var heavyHitter := BumpSlot(a, used, h);
    used' := used;
    if !heavyHitter && used < 3 {
      a[used] := h;
      used' := used + 1;
    } else if !heavyHitter && a[2].blockSize < h.blockSize {
      a[2] := h;
    }
    assert a[..used'] == Recorded(s, h);
    ghost var tail := a[used'..];
    assert tail == rest[used' - used..];
    Heavy(a, used');
  }

  // ------------------------------------------------------------ the list

  ghost predicate Different(live: seq<Block>) { forall i, j :: 0 <= i < j < |live| ==> live[i] != live[j] }

  lemma DisjointDifferent(live: seq<Block>)
    requires DisjointAll(live)
    ensures Different(live)
  {
  }

  /** The list of live blocks, newest first. */
  class BlockList {
    var metadataLink: Block?
    ghost var live: seq<Block>

    constructor ()
      ensures metadataLink == null && live == []
    {
      metadataLink := null;
      live := [];
    }

    /** The list enumerates disjoint, well described blocks. */
    ghost predicate Listed()
      reads this, live`next, live`prev, live`blockSize, live`active, live`address
    {
      Linked(metadataLink, live) && DisjointAll(live) && AllDescribed(live)
    }

    /** The header, list and trailer parts of `m61_malloc`. */
    method Add(p: Block, sz: nat, site: Site)
      requires Listed() && p !in live && p.data.Length == sz && DisjointAll([p] + live)
      modifies this, p, live`prev
      ensures Listed() && live == [p] + old(live) && p.site == site && Intact(p)
    {
      DisjointDifferent(live);
      hide DisjointAll, Linked, Different, AllDescribed;
      p.blockSize, p.active, p.address, p.site, p.prev, p.next := sz, 0, p.at + METADATA, site, null, null;
      DescribedMore(p, live);
      Push(p);
      p.buffer1, p.buffer2 := 1234, 4321;
    }

    /** The list part of `m61_malloc`. */
    method Push(ptr: Block)
      requires Linked(metadataLink, live) && Different(live) && ptr !in live && ptr.prev == null && ptr.next == null
      modifies this, ptr`next, live`prev
      ensures live == [ptr] + old(live) && Linked(metadataLink, live)
    {
      var head := metadataLink;
      if head != null {
        ptr.next := head;
        head.prev := ptr;
      }
      metadataLink := ptr;
      live := [ptr] + live;
      forall i | 0 <= i < |live| ensures LinkedAt(live, i) {
        if i > 0 { assert old(LinkedAt(live, i - 1)); }
      }
    }

    /** The list part of `m61_free`. */
    method Unlink(ptr: Block, ghost k: nat)
      requires Linked(metadataLink, live) && Different(live) && k < |live| && live[k] == ptr
      modifies this, live`prev, live`next
      ensures live == Without(old(live), k) && Linked(metadataLink, live)
    {
      assert LinkedAt(live, k);
      ghost var was := live;
      if ptr.prev != null { ptr.prev.next := ptr.next; } else { metadataLink := ptr.next; }
      if ptr.next != null { ptr.next.prev := ptr.prev; }
      ptr.next, ptr.prev := null, null;
      live := Without(live, k);
      forall i | 0 <= i < |live| ensures LinkedAt(live, i) {
        assert old(LinkedAt(was, if i < k then i else i + 1));
      }
    }

    /** The checks of `m61_free` after those of the header, on a live block:
        the links hold, so only a damaged trailer is found. */
    method Check(ptr: Block, ghost k: nat) returns (ok: bool)
      requires Listed() && k < |live| && live[k] == ptr
      ensures ok <==> Intact(ptr)
    {
      assert LinkedAt(live, k);
      assert k + 1 < |live| ==> LinkedAt(live, k + 1);
      assert k > 0 ==> LinkedAt(live, k - 1);
      ok := true;
      if ptr.next != null {
        ok := ok && ptr.next.prev == ptr;
      } else if ptr.prev != null {
        ok := ok && ptr.prev.next == ptr;
      }
      ok := ok && ptr.buffer1 == 1234 && ptr.buffer2 == 4321;
    }

    /** Taking a live block off the list and marking it. */
    method Remove(ptr: Block, ghost k: nat)
      requires Listed() && k < |live| && live[k] == ptr
      modifies this, live`prev, live`next, live`active
      ensures Listed() && live == Without(old(live), k) && ptr.active == 1 && ptr !in live
    {
      DisjointDifferent(live);
      DisjointWithout(live, k);
      hide Linked, DisjointAll;
      ghost var rest := Without(live, k);
      DescribedLess(live, k);
      Unlink(ptr, k);
      ptr.active := 1;
    }

    /** `m61_printleakreport`, as the list of what it prints. */
    method LeakReport() returns (leaks: seq<Leak>)
      requires Linked(metadataLink, live)
      ensures |leaks| == |live|
      ensures forall i :: 0 <= i < |live| ==> leaks[i] == Leak(live[i].site, live[i].address, live[i].blockSize)
    {
      var metadata := metadataLink;
      leaks := [];
      while metadata != null
        invariant |leaks| <= |live| && metadata == if |leaks| < |live| then live[|leaks|] else null
        invariant forall i :: 0 <= i < |leaks| ==> leaks[i] == Leak(live[i].site, live[i].address, live[i].blockSize)
        decreases |live| - |leaks|
      {
        assert LinkedAt(live, |leaks|);
        leaks := leaks + [Leak(metadata.site, metadata.address, metadata.blockSize)];
        metadata := metadata.next;
      }
    }
  }

  // ------------------------------------------------------- the allocator

  /** Conversion to `long`. */
  function ToLong(x: int): int {
    var w := Wrap(x);
    if w < WORD / 2 then w else w - WORD
  }

  lemma WrapAdd(x: int, y: int)
    ensures Wrap(Wrap(x) + y) == Wrap(x + y) && ToLong(ToLong(x) + y) == ToLong(x + y)
  {
    WrapShift(x + y, x / WORD);
    WrapShift(x + y, x / WORD + 1);
  }

  lemma WrapShift(x: int, k: int)
    ensures Wrap(x - k * WORD) == Wrap(x)
  {
  }

  /** Memory of `size` bytes at `base` from the C library; 0 is no memory. */
  method LibraryMalloc(base: nat, size: nat) returns (b: Block?)
    requires base == 0 || size >= METADATA + BUFFERS
    ensures b == null <==> base == 0
    ensures b != null ==> fresh(b) && fresh(b.data) && b.at == base && b.Extent() == size
  {
    if base == 0 { return null; }
    b := new Block(base, size - METADATA - BUFFERS);
  }

  // ------------------------------------------------- what calls should do

  /** A block as its program sees it, and the call it comes from. */
  datatype Held = Held(at: nat, data: seq<byte>, site: Site)

  /** The blocks that a program holds, newest first, all its successful
      requests, and the bytes it has given back. */
  datatype Books = Books(held: seq<Held>, history: seq<Request>, freed: nat)

  /** `struct m61_statistics` */
  datatype Statistics61 = Statistics61(nactive: nat, activeSize: nat, ntotal: nat, totalSize: nat,
                                       nfail: nat, failSize: nat, heapMin: nat, heapMax: nat)

  function HeldBytes(held: seq<Held>): nat { if held == [] then 0 else |held[0].data| + HeldBytes(held[1..]) }

  /** Without the item at `k`, if there is one. */
  function Rest<T>(s: seq<T>, k: nat): seq<T> { if k < |s| then Without(s, k) else s }

  /** `size` bytes at `base` meet none of the blocks. */
  predicate Room(held: seq<Held>, base: nat, size: nat) {
    0 < base && base + size < WORD
    && forall i :: 0 <= i < |held| ==>
         base + size <= held[i].at || held[i].at + METADATA + |held[i].data| + BUFFERS <= base
  }

  /** A block of `sz` bytes at `base` is new in front of `rest`. */
  predicate Gained(b: Books, rest: seq<Held>, freed: nat, site: Site, sz: nat, base: nat, b': Books) {
    b'.held != [] && b'.held[1..] == rest
    && b'.held[0].at == base && b'.held[0].site == site && |b'.held[0].data| == sz
    && b'.history == b.history + [Request(site, sz, base)] && b'.freed == freed
  }

  /** What one call does to the books; `base` is what the C library returns. */
  predicate CallDone(b: Books, op: Op, base: nat, b': Books) {
    var inside := op.k < |b.held|;
    var rest, freed := Rest(b.held, op.k), b.freed + if inside then |b.held[op.k].data| else 0;
    match op.call
    case Malloc =>
      if op.sz > SIZE_MAX - STATISTICS - BUFFERS || base == 0 then b' == b
      else Gained(b, b.held, b.freed, op.site, op.sz, base, b')
    case Calloc(nmemb) =>
      var sz := Wrap(Product(nmemb, op.sz));
      if sz < op.sz || sz < nmemb || sz > SIZE_MAX - STATISTICS - BUFFERS || base == 0 then b' == b
      else Gained(b, b.held, b.freed, op.site, sz, base, b') && b'.held[0].data == Zeros(sz)
    case Free => b' == Books(rest, b.history, freed)
    case Realloc =>
      if op.sz == 0 || op.sz > SIZE_MAX - STATISTICS - BUFFERS || base == 0 then b' == Books(rest, b.history, freed)
      else
        Gained(b, rest, freed, op.site, op.sz, base, b')
        && (inside ==>
              var n := Min(|b.held[op.k].data|, op.sz);
              b'.held[0].data[..n] == b.held[op.k].data[..n])
    case Write =>
      if inside && op.sz < |b.held[op.k].data| then
        b' == b.(held := b.held[op.k := b.held[op.k].(data := b.held[op.k].data[op.sz := op.value])])
      else b' == b
  }

  lemma FreeDone(b: Books, op: Op, freed: nat)
    requires op.call.Free? && freed == b.freed + if op.k < |b.held| then |b.held[op.k].data| else 0
    ensures var done := CallDone(b, op, 0, Books(Rest(b.held, op.k), b.history, freed)); done
  {
    hide Product, Wrap;
  }

  lemma ReallocDone(b: Books, op: Op, base: nat, freed: nat, b': Books)
    requires op.call.Realloc? && freed == b.freed + if op.k < |b.held| then |b.held[op.k].data| else 0
    requires if op.sz == 0 || op.sz > SIZE_MAX - STATISTICS - BUFFERS || base == 0 then
        b' == Books(Rest(b.held, op.k), b.history, freed)
      else
        Gained(b, Rest(b.held, op.k), freed, op.site, op.sz, base, b')
        && (op.k < |b.held| ==>
              var n := Min(|b.held[op.k].data|, op.sz);
              b'.held[0].data[..n] == b.held[op.k].data[..n])
    ensures var done := CallDone(b, op, base, b'); done
  {
    hide Product, Wrap;
  }

  /** What a call needs of the C library: the bytes of a block. */
  function Needed(op: Op): nat {
    Wrap(METADATA + (if op.call.Calloc? then Wrap(Product(op.call.nmemb, op.sz)) else op.sz) + BUFFERS)
  }

  /** One step of a program; the C library offers no memory that is in use. */
  predicate StepDone(b: Books, op: Op, b': Books) {
    CallDone(b, op, if Room(b.held, op.base, Needed(op)) then op.base else 0, b')
  }

  class Allocator {
    var nactive: nat
    var activeSize: nat
    var ntotal: nat
    var totalSize: nat
    var nfail: nat
    var failSize: nat
    var heapMin: nat
    var heapMax: nat
    const blocks: BlockList
    const heavyHitters: array<Hitter>
    var heavyHittersSize: nat
    var sampleSize: int
    ghost var history: seq<Request>   // every successful allocation
    ghost var freed: nat              // bytes freed

    /** The statistics; only the totals over the whole run can wrap. */
    ghost predicate Statistics(live: seq<Block>, history: seq<Request>)
      reads `nactive, `activeSize, `ntotal, `totalSize, `freed
    {
      nactive == |live| && activeSize == Bytes(live)
      && ntotal == Wrap(|history|) && totalSize == Wrap(Total(history))
      && Total(history) == Bytes(live) + freed
    }

    /** The heap bounds are those of every block there has ever been. */
    ghost predicate Extremes(history: seq<Request>)
      reads `heapMin, `heapMax
    {
      heapMin == Lowest(history) && heapMax == Highest(history) && (heapMin == 0 <==> history == [])
        && (heapMax == 0 <==> history == [])
    }

    ghost predicate ValidHitters()
      reads `heavyHittersSize, `sampleSize, `history, heavyHitters
    {
      heavyHitters.Length == 3 && heavyHittersSize <= 3 && sampleSize == ToLong(Total(history))
      && TopThree(heavyHitters[..heavyHittersSize], heavyHitters[heavyHittersSize..], history)
    }

    /** The allocator's own variables fit the live blocks and the history. */
    ghost predicate Accounted(live: seq<Block>)
      reads `heapMin, `heapMax, `nactive, `activeSize, `ntotal, `totalSize, `heavyHittersSize, `sampleSize, `history,
        `freed, heavyHitters
    {
      Bounded(live) && Statistics(live, history) && Extremes(history) && ValidHitters()
    }

    ghost predicate Valid()
      reads `heapMin, `heapMax, `nactive, `activeSize, `ntotal, `totalSize, `heavyHittersSize, `sampleSize, `history,
        `freed
      reads blocks, blocks.live, heavyHitters
    {
      blocks.Listed() && Accounted(blocks.live)
    }

    constructor ()
      ensures Valid() && blocks.live == [] && history == [] && freed == 0
      ensures fresh(blocks) && fresh(heavyHitters)
    {
      nactive, activeSize, ntotal, totalSize, nfail, failSize := 0, 0, 0, 0, 0, 0;
      heapMin, heapMax, heavyHittersSize, sampleSize, history, freed := 0, 0, 0, 0, [], 0;
      blocks := new BlockList();
      heavyHitters := new Hitter[3](_ => Hitter(0, Site(0, 0)));
    }

    /** The guard and the C library's answer; `size` never wraps. */
    method Reserve(sz: nat, base: nat) returns (ptr: Block?)
      requires sz <= SIZE_MAX
      requires base == 0 || Available(blocks.live, base, Wrap(METADATA + sz + BUFFERS))
      modifies `nfail, `failSize
      ensures ptr == null <==> sz > SIZE_MAX - STATISTICS - BUFFERS || base == 0
      ensures ptr == null ==> nfail == Wrap(old(nfail) + 1) && failSize == Wrap(old(failSize) + sz)
      ensures ptr != null ==> fresh(ptr) && fresh(ptr.data) && ptr.at == base && ptr.data.Length == sz
      ensures ptr != null ==> nfail == old(nfail) && failSize == old(failSize)
      ensures ptr != null ==> Available(blocks.live, base, METADATA + sz + BUFFERS)
    {
      if sz > SIZE_MAX - STATISTICS - BUFFERS {
        nfail, failSize := Wrap(nfail + 1), Wrap(failSize + sz);
        return null;
      }
      ptr := LibraryMalloc(base, Wrap(METADATA + sz + BUFFERS));
      if ptr == null {
        nfail, failSize := Wrap(nfail + 1), Wrap(failSize + sz);
      }
    }

    /** The heap bounds cover `live`. */
    ghost predicate Bounded(live: seq<Block>)
      reads `heapMin, `heapMax
    {
      heapMax < WORD && forall i :: 0 <= i < |live| ==> InHeap(live[i], heapMin, heapMax)
    }

    /** The counters of `m61_malloc`. */
    method CountMalloc(ghost p: Block, sz: nat, ghost site: Site)
      requires Statistics(blocks.live, history) && p.data.Length == sz && Bytes([p] + blocks.live) < WORD
        && |blocks.live| + 1 < WORD
      modifies `nactive, `activeSize, `ntotal, `totalSize
      ensures Statistics([p] + blocks.live, history + [Request(site, sz, p.at)])
    {
      ghost var live, past := [p] + blocks.live, history + [Request(site, sz, p.at)];
      TotalAppend(history, Request(site, sz, p.at), site);
      assert live[1..] == blocks.live && |live| == |blocks.live| + 1 && |past| == |history| + 1;
      assert Bytes(live) == sz + Bytes(blocks.live) && Total(past) == Total(history) + sz;
      WrapAdd(|history|, 1);
      WrapAdd(Total(history), sz);
      hide Bytes, Total, Wrap;
      ntotal := Wrap(ntotal + 1);
      nactive := Wrap(nactive + 1);
      totalSize := Wrap(totalSize + sz);
      activeSize := Wrap(activeSize + sz);
      assert ntotal == Wrap(|past|) && totalSize == Wrap(Total(past));
    }

    /** The heap bounds of `m61_malloc`. */
    method WidenHeap(p: Block, sz: nat, ghost site: Site)
      requires Bounded(blocks.live) && Extremes(history) && p.data.Length == sz && 0 < p.at && p.at + p.Extent() < WORD
      modifies `heapMin, `heapMax
      ensures Bounded([p] + blocks.live) && Extremes(history + [Request(site, sz, p.at)])
    {
      assert (history + [Request(site, sz, p.at)])[..|history|] == history;
      var heapMinT, heapMaxT := p.at, p.at + sz + METADATA + BUFFERS;
      if heapMin == 0 || heapMin >= heapMinT { heapMin := heapMinT; }
      if heapMax == 0 || heapMax <= heapMaxT { heapMax := heapMaxT; }
      forall i | 0 <= i < |blocks.live| ensures InHeap(blocks.live[i], heapMin, heapMax) {
        assert old(InHeap(blocks.live[i], heapMin, heapMax));
      }
    }

    /** The heavy-hitter part of `m61_malloc`. */
    method RecordHitter(sz: nat, site: Site, ghost at: nat)
      requires ValidHitters() && site.file != 0
      modifies `sampleSize, `heavyHittersSize, `history, heavyHitters
      ensures ValidHitters() && history == old(history) + [Request(site, sz, at)]
    {
      ghost var s, unused := heavyHitters[..heavyHittersSize], heavyHitters[heavyHittersSize..];
      assert TopThree(s, unused, history) && DifferentSites(s) && Unused(unused);
      hide *;
      heavyHittersSize := RecordSite(heavyHitters, heavyHittersSize, Hitter(sz, site));
      TopThreeRecorded(s, unused, history, Hitter(sz, site), at, heavyHitters[..heavyHittersSize],
        heavyHitters[heavyHittersSize..]);
      Sample(sz, site, at);
    }

    /** `sample_size`, a `long`. */
    method Sample(sz: nat, ghost site: Site, ghost at: nat)
      requires sampleSize == ToLong(Total(history))
      modifies `sampleSize, `history
      ensures history == old(history) + [Request(site, sz, at)] && sampleSize == ToLong(Total(history))
    {
      TotalAppend(history, Request(site, sz, at), site);
      WrapAdd(Total(history), sz);
      history := history + [Request(site, sz, at)];
      sampleSize := ToLong(sampleSize + sz);
    }

    /** Statistics, bounds and hitters with the new block `p`. */
    method Account(p: Block, sz: nat, site: Site)
      requires Accounted(blocks.live) && site.file != 0
      requires p.data.Length == sz && 0 < p.at && p.at + p.Extent() < WORD
      requires Bytes([p] + blocks.live) < WORD && |blocks.live| + 1 < WORD
      modifies `nactive, `activeSize, `ntotal, `totalSize, `heapMin, `heapMax, `sampleSize, `heavyHittersSize, `history,
        heavyHitters
      ensures history == old(history) + [Request(site, sz, p.at)]
      ensures Accounted([p] + blocks.live)
    {
      hide Statistics, ValidHitters, Bounded, Extremes;
      CountMalloc(p, sz, site);
      WidenHeap(p, sz, site);
      RecordHitter(sz, site, p.at);
    }

    /** The list part of `m61_malloc`, with the block accounted for. */
    method Link(p: Block, sz: nat, site: Site)
      requires blocks.Listed() && Accounted([p] + blocks.live)
      requires p !in blocks.live && p.data.Length == sz && DisjointAll([p] + blocks.live)
      modifies blocks, p, blocks.live`prev
      ensures Valid() && blocks.live == [p] + old(blocks.live) && p.site == site && Intact(p)
    {
      ghost var all := [p] + blocks.live;
      hide *;
      blocks.Add(p, sz, site);
      assert Accounted(all);
    }

    /** The part of `m61_malloc` after the memory is there. */
    method Install(p: Block, sz: nat, site: Site)
      requires Valid() && p !in blocks.live && p.data.Length == sz && Available(blocks.live, p.at, p.Extent())
        && site.file != 0
      modifies this, blocks, blocks.live`prev, heavyHitters, p
      ensures Valid() && freed == old(freed) && nfail == old(nfail) && failSize == old(failSize)
      ensures blocks.live == [p] + old(blocks.live) && history == old(history) + [Request(site, sz, p.at)]
      ensures p.site == site && Intact(p)
    {
      NewBlock(blocks.live, p);
      hide *;
      Account(p, sz, site);
      Link(p, sz, site);
    }

    /** `m61_malloc`.  `base` is what the C library's malloc returns. */
    method Malloc(sz: nat, site: Site, base: nat) returns (p: Block?)
      requires Valid() && sz <= SIZE_MAX && site.file != 0
      requires base == 0 || Available(blocks.live, base, Wrap(METADATA + sz + BUFFERS))
      modifies this, blocks, blocks.live`prev, heavyHitters
      ensures Valid() && freed == old(freed)
      ensures p == null <==> sz > SIZE_MAX - STATISTICS - BUFFERS || base == 0
      ensures p == null ==> blocks.live == old(blocks.live) && history == old(history)
      ensures p == null ==> nfail == Wrap(old(nfail) + 1) && failSize == Wrap(old(failSize) + sz)
      ensures p != null ==> nfail == old(nfail) && failSize == old(failSize)
      ensures p != null ==> blocks.live == [p] + old(blocks.live) && history == old(history) + [Request(site, sz, p.at)]
      ensures p != null ==>
        fresh(p) && fresh(p.data) && p.data.Length == sz && p.at == base && p.site == site && Intact(p)
    {
      hide Valid, Wrap, Available;
      p := Reserve(sz, base);
      if p != null { Install(p, sz, site); }
    }

    /** The counters of `m61_free`. */
    method CountFree(ptr: Block, ghost k: nat)
      requires Statistics(blocks.live, history) && k < |blocks.live| && blocks.live[k] == ptr
        && ptr.blockSize == ptr.data.Length
      requires Bytes(blocks.live) < WORD && |blocks.live| < WORD
      modifies `nactive, `activeSize, `freed
      ensures Statistics(Without(blocks.live, k), history) && freed == old(freed) + ptr.data.Length
    {
      BytesWithout(blocks.live, k);
      hide Bytes, Total;
      nactive := Wrap(nactive - 1);
      activeSize := Wrap(activeSize - ptr.blockSize);
      freed := freed + ptr.blockSize;
    }

    /** While the total has not wrapped, the table is exact if and only if at
        most three sites have allocated. */
    lemma ExactTable()
      requires Valid() && Total(history) < WORD
      ensures Exact(heavyHitters[..heavyHittersSize], history) <==> |Sites(history)| <= 3
    {
      if Exact(heavyHitters[..heavyHittersSize], history) { ExactFew(heavyHitters[..heavyHittersSize], history); }
    }

    lemma BoundedLess(k: nat)
      requires Bounded(blocks.live) && k < |blocks.live|
      ensures Bounded(Without(blocks.live, k)) && heapMin <= blocks.live[k].at <= heapMax
    {
    }

    lemma BoundedSizes()
      requires Valid()
      ensures Bytes(blocks.live) < WORD && |blocks.live| < WORD
    {
      forall i | 0 <= i < |blocks.live| ensures blocks.live[i].at + blocks.live[i].Extent() <= WORD {
        assert InHeap(blocks.live[i], heapMin, heapMax);
      }
      NoWrap(blocks.live);
    }

    /** The part of `m61_free` after its checks. */
    method Release(ptr: Block, ghost k: nat)
      requires Valid() && k < |blocks.live| && blocks.live[k] == ptr
      modifies `nactive, `activeSize, `freed, blocks, blocks.live`prev, blocks.live`next, blocks.live`active
      ensures Valid() && blocks.live == Without(old(blocks.live), k) && freed == old(freed) + ptr.data.Length
      ensures ptr.active == 1 && ptr !in blocks.live
    {
      BoundedLess(k);
      BoundedSizes();
      assert Described(blocks.live[k]);
      hide Bounded, Statistics, ValidHitters, Extremes, BlockList.Listed, Bytes;
      CountFree(ptr, k);
      blocks.Remove(ptr, k);
    }

    /** The memory in front of a pointer that is not a live block does not
        pass for the header of one: it is outside the heap, was freed, or does
        not hold its own address. */
    ghost predicate Foreign(ptr: Block)
      reads this, blocks, ptr
    {
      ptr !in blocks.live && (!(heapMin <= ptr.at <= heapMax) || ptr.active == 1 || ptr.address != ptr.at + METADATA)
    }

    /** `m61_free` of NULL, of the live block at position `k` of the list, or
        of a pointer that is none.  It aborts exactly for the last and when
        the trailer has been overwritten; a second free of the same block is
        of the last kind. */
    method Free(ptr: Block?, ghost k: nat) returns (aborted: bool)
      requires Valid() && (ptr != null ==> (k < |blocks.live| && blocks.live[k] == ptr) || Foreign(ptr))
      modifies `nactive, `activeSize, `freed, blocks, blocks.live`prev, blocks.live`next, blocks.live`active
      ensures aborted <==> ptr != null && (ptr !in old(blocks.live) || !old(Intact(ptr)))
      ensures Valid()
      ensures ptr == null || aborted ==> blocks.live == old(blocks.live) && freed == old(freed)
      ensures ptr != null && !aborted ==>
        blocks.live == Without(old(blocks.live), k) && freed == old(freed) + ptr.data.Length && Foreign(ptr)
    {
      aborted := false;
      if ptr != null {
        if ptr in blocks.live {
          BoundedLess(k);
          assert Described(blocks.live[k]);
        }
        if !(heapMin <= ptr.at <= heapMax) || ptr.active == 1 || ptr.address != ptr.at + METADATA { return true; }
        var ok := blocks.Check(ptr, k);
        aborted := !ok;
        if !aborted {
          hide Valid;
          Release(ptr, k);
        }
      }
    }

    /** One more failed request of `sz` bytes, or none. */
    ghost predicate FailureCounted(nfail0: nat, failSize0: nat, failed: bool, sz: nat)
      reads `nfail, `failSize
    {
      if failed then nfail == Wrap(nfail0 + 1) && failSize == Wrap(failSize0 + sz)
      else nfail == nfail0 && failSize == failSize0
    }

    /** The part of `m61_realloc` before the old block is freed. */
    method Copied(ptr: Block?, sz: nat, site: Site, base: nat, ghost k: nat) returns (p: Block?, ghost at: nat)
      requires Valid() && (ptr != null ==> k < |blocks.live| && blocks.live[k] == ptr)
      requires sz <= SIZE_MAX && site.file != 0
      requires base == 0 || Available(blocks.live, base, Wrap(METADATA + sz + BUFFERS))
      modifies this, blocks, blocks.live`prev, heavyHitters
      ensures Valid() && freed == old(freed)
      ensures p == null <==> sz == 0 || sz > SIZE_MAX - STATISTICS - BUFFERS || base == 0
      ensures p != null ==>
        fresh(p) && fresh(p.data) && p.data.Length == sz && p.at == base && p.site == site && Intact(p)
      ensures history == old(history) + (if p == null then [] else [Request(site, sz, base)])
      ensures FailureCounted(old(nfail), old(failSize), p == null && sz != 0, sz)
      ensures p != null && ptr != null ==> p.data[..Min(ptr.data.Length, sz)] == ptr.data[..Min(ptr.data.Length, sz)]
      ensures blocks.live == (if p == null then [] else [p]) + old(blocks.live)
      ensures ptr != null ==> at < |blocks.live| && blocks.live[at] == ptr
      ensures ptr != null ==> Without(blocks.live, at) == (if p == null then [] else [p]) + Without(old(blocks.live), k)
    {
      p := null;
      at := k;
      if ptr != null { assert Described(blocks.live[k]); }
      hide *;
      if sz != 0 { p := Malloc(sz, site, base); }
      if p != null {
        at := k + 1;
        if ptr != null {
          WithoutNew(old(blocks.live), p, k);
          CopyOld(ptr, p, sz);
        }
      }
    }

    /** The copying part of `m61_realloc`. */
    method CopyOld(ptr: Block, p: Block, sz: nat)
      requires Valid() && ptr.blockSize == ptr.data.Length && p.data.Length == sz && ptr.data != p.data
      modifies p.data
      ensures Valid() && p.data[..Min(ptr.data.Length, sz)] == ptr.data[..Min(ptr.data.Length, sz)]
    {
      var asize := ptr.blockSize;
      CopyBytes(ptr.data, p.data, if asize <= sz then asize else sz);
    }

    /** `m61_realloc`.  It keeps the bytes that fit; the old block is given up
        even when there is no new one. */
    method Realloc(ptr: Block?, sz: nat, site: Site, base: nat, ghost k: nat) returns (p: Block?, aborted: bool)
      requires Valid() && (ptr != null ==> k < |blocks.live| && blocks.live[k] == ptr)
      requires sz <= SIZE_MAX && site.file != 0
      requires base == 0 || Available(blocks.live, base, Wrap(METADATA + sz + BUFFERS))
      modifies this, blocks, blocks.live`prev, blocks.live`next, blocks.live`active, heavyHitters
      ensures Valid()
      ensures p == null <==> sz == 0 || sz > SIZE_MAX - STATISTICS - BUFFERS || base == 0
      ensures aborted <==> ptr != null && !old(Intact(ptr))
      ensures p != null ==>
        fresh(p) && fresh(p.data) && p.data.Length == sz && p.at == base && p.site == site && Intact(p)
      ensures history == old(history) + (if p == null then [] else [Request(site, sz, base)])
      ensures FailureCounted(old(nfail), old(failSize), p == null && sz != 0, sz)
      ensures p != null && ptr != null ==>
        p.data[..Min(ptr.data.Length, sz)] == old(ptr.data[..Min(ptr.data.Length, sz)])
      ensures !aborted ==>
        blocks.live == (if p == null then [] else [p])
          + (if ptr == null then old(blocks.live) else Without(old(blocks.live), k))
      ensures aborted ==> blocks.live == (if p == null then [] else [p]) + old(blocks.live)
      ensures freed == old(freed) + if ptr == null || aborted then 0 else ptr.data.Length
    {
      hide *;
      ghost var at;
      p, at := Copied(ptr, sz, site, base, k);
      aborted := Free(ptr, at);
    }

    /** `m61_calloc`: a product that wraps is noticed only when it wraps to
        less than a factor; else the block has only the wrapped size. */
    method Calloc(nmemb: nat, sz: nat, site: Site, base: nat) returns (p: Block?)
      requires Valid() && nmemb <= SIZE_MAX && sz <= SIZE_MAX && site.file != 0
      requires base == 0 || Available(blocks.live, base, Wrap(METADATA + Wrap(Product(nmemb, sz)) + BUFFERS))
      modifies this, blocks, blocks.live`prev, heavyHitters
      ensures Valid() && freed == old(freed)
      ensures p == null <==>
        Refused(nmemb, sz) || Wrap(Product(nmemb, sz)) > SIZE_MAX - STATISTICS - BUFFERS || base == 0
      ensures p != null ==>
        fresh(p) && fresh(p.data) && p.at == base && p.site == site && Intact(p)
        && p.data[..] == Zeros(Wrap(Product(nmemb, sz)))
      ensures history == old(history) + (if p == null then [] else [Request(site, Wrap(Product(nmemb, sz)), base)])
      ensures p != null ==> (p.data.Length == Product(nmemb, sz) <==> Product(nmemb, sz) <= SIZE_MAX)
      ensures if Refused(nmemb, sz) then nfail == Wrap(old(nfail) + 1) && failSize == old(failSize)
        else FailureCounted(old(nfail), old(failSize), p == null, Wrap(Product(nmemb, sz)))
      ensures blocks.live == (if p == null then [] else [p]) + old(blocks.live)
    {
      WrapBound(Product(nmemb, sz));
      var product := Wrap(Product(nmemb, sz));
      assert Refused(nmemb, sz) <==> product < sz || product < nmemb;
      hide *;
      if product < sz || product < nmemb {
        nfail := Wrap(nfail + 1);
        return null;
      }
      p := Malloc(product, site, base);
      if p != null { Clear(p); }
    }

    /** `memset` of a payload. */
    method Clear(p: Block)
      requires Valid()
      modifies p.data
      ensures Valid() && p.data[..] == Zeros(p.data.Length)
    {
      hide *;
      forall i | 0 <= i < p.data.Length { p.data[i] := 0; }
      assert p.data[..] == Zeros(p.data.Length);
    }

    /** A program holds exactly the live blocks, all trailers are intact, and
        the books are right. */
    ghost predicate Running(held: seq<Block>, books: Books)
      reads this, blocks, blocks.live, heavyHitters, set b | b in held :: b.data, held`site
    {
      Valid() && blocks.live == held && AllIntact(held)
      && Holds(held, books.held) && history == books.history && freed == books.freed
    }

    /** `m61_getstatistics` of a running program. */
    method GetStatistics(ghost held: seq<Block>, ghost books: Books) returns (stats: Statistics61)
      requires Running(held, books)
      ensures stats.nactive == |books.held| && stats.activeSize == HeldBytes(books.held)
      ensures stats.ntotal == |books.history| % WORD && stats.totalSize == Total(books.history) % WORD
      ensures Total(books.history) == HeldBytes(books.held) + books.freed
      ensures stats.nfail == nfail && stats.failSize == failSize
      ensures stats.heapMin == Lowest(books.history) && stats.heapMax == Highest(books.history)
    {
      BytesHeld(held, books.held);
      hide BlockList.Listed, ValidHitters, Bytes, HeldBytes, Total, Lowest, Highest;
      stats := Statistics61(nactive, activeSize, ntotal, totalSize, nfail, failSize, heapMin, heapMax);
    }

    /** `m61_printleakreport` of a running program: what it holds, each block
        with the site of the call that it comes from. */
    method ReportLeaks(ghost held: seq<Block>, ghost books: Books) returns (leaks: seq<Leak>)
      requires Running(held, books)
      ensures |leaks| == |books.held|
      ensures forall i :: 0 <= i < |leaks| ==>
        leaks[i] == Leak(books.held[i].site, books.held[i].at + METADATA, |books.held[i].data|)
    {
      assert forall i :: 0 <= i < |held| ==> Described(held[i]);
      hide Accounted, AllIntact, DisjointAll, Linked;
      leaks := blocks.LeakReport();
    }

    /** A new block in front of `rest`. */
    lemma Gains(p: Block, rest: seq<Block>, books: Books, view: seq<Held>, site: Site) returns (books': Books)
      requires Valid() && blocks.live == [p] + rest && AllIntact(rest) && Intact(p) && Holds(rest, view)
      requires p.site == site && (forall b :: b in rest ==> b.data != p.data)
      requires history == books.history + [Request(site, p.data.Length, p.at)]
      ensures Running([p] + rest, books') && books'.held[0].data == p.data[..]
      ensures Gained(books, view, freed, site, p.data.Length, p.at, books')
    {
      hide Valid, Intact;
      IntactMore(p, rest);
      HoldsMore(p, rest, view);
      books' := Books([Held(p.at, p.data[..], p.site)] + view, history, freed);
    }

    method StepMalloc(op: Op, base: nat, held: seq<Block>, ghost books: Books)
        returns (held': seq<Block>, ghost books': Books)
      requires Running(held, books) && op.call.Malloc? && op.sz <= SIZE_MAX && op.site.file != 0
      requires base == 0 || Available(held, base, Wrap(METADATA + op.sz + BUFFERS))
      modifies this, blocks, blocks.live`prev, heavyHitters
      ensures Running(held', books') && CallDone(books, op, base, books')
      ensures held' == held || (held' != [] && fresh(held'[0]) && fresh(held'[0].data) && held'[1..] == held)
    {
      hide Valid, Available, Wrap, Intact;
      var p := Malloc(op.sz, op.site, base);
      held', books' := held, books;
      if p != null {
        books' := Gains(p, held, books, books.held, op.site);
        held' := [p] + held;
      }
    }

    method StepCalloc(op: Op, base: nat, held: seq<Block>, ghost books: Books)
        returns (held': seq<Block>, ghost books': Books)
      requires Running(held, books) && op.call.Calloc? && op.call.nmemb <= SIZE_MAX && op.sz <= SIZE_MAX
      requires op.site.file != 0 && (base == 0 || Available(held, base, Needed(op)))
      modifies this, blocks, blocks.live`prev, heavyHitters
      ensures Running(held', books') && CallDone(books, op, base, books')
      ensures held' == held || (held' != [] && fresh(held'[0]) && fresh(held'[0].data) && held'[1..] == held)
    {
      hide Valid, Available, Wrap, Intact, Product;
      var p := Calloc(op.call.nmemb, op.sz, op.site, base);
      held', books' := held, books;
      if p != null {
        books' := Gains(p, held, books, books.held, op.site);
        held' := [p] + held;
      } else {
        assert [] + held == held;
      }
    }

    lemma Balanced(held: seq<Block>, view: seq<Held>)
      requires var ok := Valid() && blocks.live == held && AllIntact(held) && Holds(held, view); ok
      ensures var ok := Running(held, Books(view, history, freed)); ok
    {
      hide Valid, AllIntact, Holds;
    }

    /** What is left when the block at `k`, if there is one, is given up. */
    lemma GivesUp(held: seq<Block>, books: Books, k: nat)
      requires var ok := Running(held, books); ok
      ensures var valid := Valid(); valid && blocks.live == held && history == books.history && freed == books.freed
      ensures Rest(held, k) == if k < |held| then Without(held, k) else held
      ensures AllIntact(Rest(held, k)) && Holds(Rest(held, k), Rest(books.held, k))
      ensures forall b :: b in Rest(held, k) ==> b in held
      ensures |held| == |books.held|
      ensures k < |held| ==> Intact(held[k]) && books.held[k].data == held[k].data[..]
    {
      hide Valid;
      if k < |held| {
        IntactLess(held, k);
        HoldsLess(held, books.held, k);
      }
    }

    /** A free of a block with an intact trailer, or of NULL, beside the
        blocks `rest`. */
    method FreeHeld(ptr: Block?, k: nat, ghost rest: seq<Block>, ghost view: seq<Held>) returns (aborted: bool)
      requires var valid := Valid(); valid
      requires ptr != null ==> k < |blocks.live| && blocks.live[k] == ptr && Intact(ptr)
      requires rest == (if ptr == null then blocks.live else Without(blocks.live, k))
      requires AllIntact(rest) && Holds(rest, view)
      modifies `nactive, `activeSize, `freed, blocks, blocks.live`prev, blocks.live`next, blocks.live`active
      ensures var valid := Valid(); valid && !aborted
      ensures blocks.live == rest && AllIntact(rest) && Holds(rest, view)
      ensures freed == old(freed) + if ptr == null then 0 else ptr.data.Length
    {
      hide *;
      IntactTrailers(rest);
      aborted := Free(ptr, k);
      IntactTrailers(rest);
    }

    method StepFree(op: Op, held: seq<Block>, ghost books: Books)
        returns (held': seq<Block>, aborted: bool, ghost books': Books)
      requires op.call.Free? && var ok := Running(held, books); ok
      modifies `nactive, `activeSize, `freed, blocks, blocks.live`prev, blocks.live`next, blocks.live`active
      ensures !aborted && var done := CallDone(books, op, 0, books'); done
      ensures var ok := Running(held', books'); ok
      ensures forall b :: b in held' ==> b in held
    {
      hide *;
      GivesUp(held, books, op.k);
      var ptr: Block? := if op.k < |held| then held[op.k] else null;
      held' := Rest(held, op.k);
      ghost var view := Rest(books.held, op.k);
      aborted := FreeHeld(ptr, op.k, held', view);
      books' := Books(view, history, freed);
      Balanced(held', view);
      FreeDone(books, op, freed);
    }

    /** A realloc of a block with an intact trailer, or of NULL, beside the
        blocks `rest`. */
    method ReallocHeld(ptr: Block?, op: Op, base: nat, ghost rest: seq<Block>, ghost view: seq<Held>)
        returns (p: Block?, aborted: bool)
      requires var valid := Valid(); valid
      requires ptr != null ==> op.k < |blocks.live| && blocks.live[op.k] == ptr && Intact(ptr)
      requires rest == (if ptr == null then blocks.live else Without(blocks.live, op.k))
      requires AllIntact(rest) && Holds(rest, view) && op.sz <= SIZE_MAX && op.site.file != 0
      requires base == 0 || Available(blocks.live, base, Wrap(METADATA + op.sz + BUFFERS))
      modifies this, blocks, blocks.live`prev, blocks.live`next, blocks.live`active, heavyHitters
      ensures var valid := Valid(); valid && !aborted
      ensures p == null <==> op.sz == 0 || op.sz > SIZE_MAX - STATISTICS - BUFFERS || base == 0
      ensures blocks.live == (if p == null then rest else [p] + rest) && AllIntact(rest) && Holds(rest, view)
      ensures p != null ==>
        fresh(p) && fresh(p.data) && p.data.Length == op.sz && p.at == base && p.site == op.site && Intact(p)
      ensures p != null && ptr != null ==>
        p.data[..Min(ptr.data.Length, op.sz)] == old(ptr.data[..Min(ptr.data.Length, op.sz)])
      ensures history == old(history) + (if p == null then [] else [Request(op.site, op.sz, base)])
      ensures freed == old(freed) + if ptr == null then 0 else ptr.data.Length
    {
      hide *;
      IntactTrailers(rest);
      p, aborted := Realloc(ptr, op.sz, op.site, base, op.k);
      IntactTrailers(rest);
      assert [] + rest == rest;
    }

    method StepRealloc(op: Op, base: nat, held: seq<Block>, ghost books: Books)
        returns (held': seq<Block>, aborted: bool, ghost books': Books)
      requires op.call.Realloc? && op.sz <= SIZE_MAX && op.site.file != 0 && var ok := Running(held, books); ok
      requires base == 0 || Available(held, base, Wrap(METADATA + op.sz + BUFFERS))
      modifies this, blocks, blocks.live`prev, blocks.live`next, blocks.live`active, heavyHitters
      ensures !aborted && var done := CallDone(books, op, base, books'); done
      ensures var ok := Running(held', books'); ok
      ensures forall b :: b in held' ==> b in held || (fresh(b) && fresh(b.data))
    {
      hide *;
      GivesUp(held, books, op.k);
      var ptr: Block? := if op.k < |held| then held[op.k] else null;
      held' := Rest(held, op.k);
      ghost var view := Rest(books.held, op.k);
      var p;
      p, aborted := ReallocHeld(ptr, op, base, held', view);
      if p != null {
        books' := Gains(p, held', books, view, op.site);
        held' := [p] + held';
      } else {
        books' := Books(view, history, freed);
        Balanced(held', view);
      }
      ReallocDone(books, op, base, freed, books');
    }

    /** A write of the program into one of its blocks. */
    method StepWrite(op: Op, held: seq<Block>, ghost books: Books) returns (ghost books': Books)
      requires Running(held, books) && op.call.Write?
      modifies set b | b in held :: b.data
      ensures Running(held, books') && CallDone(books, op, 0, books')
    {
      hide Valid, Intact, AllIntact;
      books' := books;
      if op.k < |held| && op.sz < held[op.k].data.Length {
        held[op.k].data[op.sz] := op.value;
        books' := books.(held := books.held[op.k := books.held[op.k].(data := held[op.k].data[..])]);
      }
    }

    /** One step of a program that writes inside its blocks only.  A position
        that is out of range is a NULL pointer, and the C library offers no
        memory that is in use.  No step aborts, and each does what its call
        is for. */
    method Step(op: Op, held: seq<Block>, ghost books: Books)
        returns (held': seq<Block>, aborted: bool, ghost books': Books)
      requires Running(held, books) && op.Possible()
      modifies this, blocks, blocks.live`prev, blocks.live`next, blocks.live`active, heavyHitters,
        set b | b in blocks.live :: b.data
      ensures !aborted && Running(held', books') && StepDone(books, op, books')
      ensures forall b :: b in held' ==> b in held || (fresh(b) && fresh(b.data))
    {
      var base := if Available(held, op.base, Needed(op)) then op.base else 0;
      SameRoom(held, books.held, op.base, Needed(op));
      assert blocks.live == held;
      hide *;
      held', aborted := held, false;
      match op.call {
        case Malloc => held', books' := StepMalloc(op, base, held, books);
        case Calloc(_) => held', books' := StepCalloc(op, base, held, books);
        case Free => held', aborted, books' := StepFree(op, held, books);
        case Realloc => held', aborted, books' := StepRealloc(op, base, held, books);
        case Write => books' := StepWrite(op, held, books);
      }
    }
  }

  ghost predicate AllIntact(live: seq<Block>)
    reads live`buffer1, live`buffer2
  {
    forall i :: 0 <= i < |live| ==> Intact(live[i])
  }

  /** `view` is what the blocks are to their program. */
  ghost predicate Holds(held: seq<Block>, view: seq<Held>)
    reads held`site, set b | b in held :: b.data
  {
    |held| == |view|
    && (forall i :: 0 <= i < |held| ==> view[i] == Held(held[i].at, held[i].data[..], held[i].site))
    && forall i, j :: 0 <= i < j < |held| ==> held[i].data != held[j].data
  }

  lemma HoldsMore(p: Block, held: seq<Block>, view: seq<Held>)
    requires Holds(held, view) && forall b :: b in held ==> b.data != p.data
    ensures Holds([p] + held, [Held(p.at, p.data[..], p.site)] + view)
  {
  }

  lemma {:induction false} BytesHeld(held: seq<Block>, view: seq<Held>)
    requires Holds(held, view)
    ensures Bytes(held) == HeldBytes(view)
  {
    if held != [] { BytesHeld(held[1..], view[1..]); }
  }

  lemma SameRoom(held: seq<Block>, view: seq<Held>, base: nat, size: nat)
    requires Holds(held, view)
    ensures Available(held, base, size) <==> Room(view, base, size)
  {
  }

  lemma HoldsLess(held: seq<Block>, view: seq<Held>, k: nat)
    requires Holds(held, view) && k < |held|
    ensures Holds(Without(held, k), Without(view, k))
  {
  }

  lemma IntactTrailers(live: seq<Block>)
    ensures AllIntact(live) <==> forall b :: b in live ==> b.buffer1 == 1234 && b.buffer2 == 4321
  {
    forall b | AllIntact(live) && b in live ensures Intact(b) {
      var i :| 0 <= i < |live| && live[i] == b;
    }
  }

  lemma IntactMore(p: Block, live: seq<Block>)
    requires Intact(p) && AllIntact(live)
    ensures AllIntact([p] + live)
  {
  }

  lemma IntactLess(live: seq<Block>, k: nat)
    requires AllIntact(live) && k < |live|
    ensures AllIntact(Without(live, k)) && Intact(live[k])
    ensures forall b :: b in Without(live, k) ==> b in live
  {
  }

  function Product(a: nat, b: nat): nat {
    MulOrdered(0, a, b);
    a * b
  }

  /** The guard of `m61_calloc`. */
  predicate Refused(nmemb: nat, sz: nat) {
    Wrap(Product(nmemb, sz)) < sz || Wrap(Product(nmemb, sz)) < nmemb
  }

  /** When the product does not wrap, the guard refuses just the requests with
      one factor zero. */
  lemma GuardCases(nmemb: nat, sz: nat)
    requires Product(nmemb, sz) <= SIZE_MAX
    ensures Refused(nmemb, sz) <==> (nmemb == 0) != (sz == 0)
  {
  }

  /** When it wraps, the guard can miss it. */
  lemma GuardMisses()
    ensures Product(0x1_0000_0001, 0x1_0000_0001) > SIZE_MAX && !Refused(0x1_0000_0001, 0x1_0000_0001)
    ensures Wrap(Product(0x1_0000_0001, 0x1_0000_0001)) == 0x2_0000_0001
  {
  }

  lemma WrapBound(x: nat)
    ensures Wrap(x) <= SIZE_MAX && (Wrap(x) == x <==> x <= SIZE_MAX)
  {
  }

  lemma WithoutNew(live: seq<Block>, p: Block, k: nat)
    requires k < |live|
    ensures Without([p] + live, k + 1) == [p] + Without(live, k)
  {
  }

  /** `memcpy` */
  method CopyBytes(src: array<byte>, dst: array<byte>, n: nat)
    requires n <= src.Length && n <= dst.Length && src != dst
    modifies dst
    ensures dst[..n] == src[..n]
  {
    forall i | 0 <= i < n { dst[i] := src[i]; }
  }

  lemma NewBlock(live: seq<Block>, p: Block)
    requires DisjointAll(live) && Available(live, p.at, p.Extent())
    requires forall i :: 0 <= i < |live| ==> live[i].at + live[i].Extent() < WORD
    ensures DisjointAll([p] + live) && Bytes([p] + live) == p.data.Length + Bytes(live) < WORD && |live| + 1 < WORD
  {
    var all := [p] + live;
    forall i, j | 0 <= i < j < |all| ensures Disjoint(all[i], all[j]) {
      if i > 0 { assert Disjoint(live[i - 1], live[j - 1]); }
    }
    assert all[1..] == live;
    NoWrap(all);
  }

  lemma CountsRearranged(s: seq<Hitter>, t: seq<Hitter>, history: seq<Request>)
    requires Counts(s, history) && Rearranged(s, t)
    ensures Counts(t, history)
  {
    forall i | 0 <= i < |t| ensures t[i].blockSize <= SiteTotal(history, t[i].site) {
      assert t[i] in multiset(t);
      assert t[i] in multiset(s);
    }
  }

  /** Any run of the four calls and in-bounds writes: nothing aborts, every
      step does what its call is for, and in the end list, statistics and top
      three are those of the blocks that the program holds. */
  method Run(ops: seq<Op>) returns (a: Allocator, held: seq<Block>, aborted: bool, ghost books: seq<Books>)
    requires forall op :: op in ops ==> op.Possible()
    ensures |books| == |ops| + 1 && books[0] == Books([], [], 0)
    ensures forall i :: 0 <= i < |ops| ==> StepDone(books[i], ops[i], books[i + 1])
    ensures !aborted && a.Running(held, books[|ops|])
    ensures Total(a.history) < WORD ==>
      (Exact(a.heavyHitters[..a.heavyHittersSize], a.history) <==> |Sites(a.history)| <= 3)
  {
    a := new Allocator();
    held, aborted, books := [], false, [Books([], [], 0)];
    for i := 0 to |ops|
      invariant fresh(a) && fresh(a.blocks) && fresh(a.heavyHitters)
      invariant |books| == i + 1 && books[0] == Books([], [], 0)
      invariant forall j :: 0 <= j < i ==> StepDone(books[j], ops[j], books[j + 1])
      invariant !aborted && a.Running(held, books[i]) && forall b :: b in held ==> fresh(b) && fresh(b.data)
    {
      hide StepDone, Allocator.Running;
      ghost var books';
      held, aborted, books' := a.Step(ops[i], held, books[i]);
      books := books + [books'];
    }
    if Total(a.history) < WORD { a.ExactTable(); }
  }
}

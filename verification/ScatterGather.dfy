/** pset3/scatter61.c and pset3/gather61.c: dealing the blocks of one file to
    many files in turn, and merging many files block by block. */
module ScatterGather {
  import opened Basics
  import opened Io61
  import opened Modular
  import opened OsFile

  // -------------------------------------------------------- specifications

  function Head(s: seq<byte>, b: nat): seq<byte> { s[..Min(b, |s|)] }

  function Tail(s: seq<byte>, b: nat): seq<byte> { s[Min(b, |s|)..] }

  function Empties(n: nat): (s: seq<seq<byte>>)
    ensures |s| == n && forall k :: 0 <= k < n ==> s[k] == []
  {
    seq(n, _ => [])
  }

  /** The files that receive the blocks of `input`, starting with file `w`. */
  function Deal(input: seq<byte>, b: nat, n: nat, w: nat): (files: seq<seq<byte>>)
    requires b > 0 && w < n
    ensures |files| == n
  {
    if input == [] then Empties(n)
    else
      var rest := Deal(Tail(input, b), b, n, (w + 1) % n);
      rest[w := Head(input, b) + rest[w]]
  }

  function Total(files: seq<seq<byte>>): nat {
    if files == [] then 0 else |files[0]| + Total(files[1..])
  }

  lemma {:induction false} TotalUpdate(files: seq<seq<byte>>, k: nat, s: seq<byte>)
    requires k < |files|
    ensures Total(files[k := s]) == Total(files) - |files[k]| + |s|
  {
    if k == 0 {
      assert files[k := s][1..] == files[1..];
    } else {
      assert files[k := s][1..] == files[1..][k - 1 := s];
      TotalUpdate(files[1..], k - 1, s);
    }
  }

  lemma {:induction false} TotalZero(files: seq<seq<byte>>)
    ensures Total(files) == 0 <==> forall k :: 0 <= k < |files| ==> files[k] == []
  {
    if files != [] {
      TotalZero(files[1..]);
      assert Total(files) == 0 ==> forall k :: 0 < k < |files| ==> files[k] == files[1..][k - 1];
      assert forall k :: 0 <= k < |files[1..]| ==> files[1..][k] == files[k + 1];
    }
  }

  /** Turns from `w` to the next file satisfying `live`. */
  function Turns(live: seq<bool>, w: nat): (d: nat)
    requires w < |live|
  {
    if exists k :: w <= k < |live| && live[k] then Next(live, w) - w
    else if exists k :: 0 <= k < |live| && live[k] then |live| - w + Next(live, 0)
    else 0
  }

  function Next(live: seq<bool>, w: nat): (k: nat)
    requires exists k :: w <= k < |live| && live[k]
    ensures w <= k < |live| && live[k] && forall j :: w <= j < k ==> !live[j]
    decreases |live| - w
  {
    if live[w] then w else Next(live, w + 1)
  }

  /** A turn that finds no live file brings the next one closer. */
  lemma TurnPassed(live: seq<bool>, w: nat)
    requires w < |live| && !live[w] && exists k :: 0 <= k < |live| && live[k]
    ensures Turns(live, (w + 1) % |live|) < Turns(live, w)
  {
    NextTurn(w, |live|);
    TurnCloser(live, w, if w + 1 < |live| then w + 1 else 0);
  }

  lemma NextTurn(w: nat, n: nat)
    requires w < n
    ensures (w + 1) % n == if w + 1 < n then w + 1 else 0
  {
    if w + 1 < n { SmallMod(w + 1, n); }
  }

  lemma TurnCloser(live: seq<bool>, w: nat, next: nat)
    requires w < |live| && !live[w] && exists k :: 0 <= k < |live| && live[k]
    requires next == if w + 1 < |live| then w + 1 else 0
    ensures Turns(live, next) < Turns(live, w)
  {
    if k :| w <= k < |live| && live[k] {
      assert w + 1 <= k;
      assert Next(live, w) == Next(live, w + 1);
    }
  }

  function Live(files: seq<seq<byte>>): (live: seq<bool>)
    ensures |live| == |files| && forall k :: 0 <= k < |files| ==> live[k] == (files[k] != [])
  {
    seq(|files|, k requires 0 <= k < |files| => files[k] != [])
  }

  lemma SomeLive(files: seq<seq<byte>>)
    requires Total(files) > 0
    ensures exists k :: 0 <= k < |files| && Live(files)[k]
  {
    TotalZero(files);
    var k :| 0 <= k < |files| && files[k] != [];
    assert Live(files)[k];
  }

  lemma GatherDecreases(files: seq<seq<byte>>, b: nat, w: nat)
    requires b > 0 && w < |files| && Total(files) > 0
    ensures var files' := files[w := Tail(files[w], b)];
      Total(files') < Total(files)
      || (files' == files && Turns(Live(files), (w + 1) % |files|) < Turns(Live(files), w))
  {
    TotalUpdate(files, w, Tail(files[w], b));
    SomeLive(files);
    if files[w] == [] {
      assert files[w := Tail(files[w], b)] == files;
      TurnPassed(Live(files), w);
    }
  }

  /** The merge: a block from each file in turn until all are used up. */
  function Gathered(files: seq<seq<byte>>, b: nat, w: nat): seq<byte>
    requires b > 0 && w < |files|
    decreases Total(files), Turns(Live(files), w)
  {
    if Total(files) == 0 then []
    else
      GatherDecreases(files, b, w);
      Head(files[w], b) + Gathered(files[w := Tail(files[w], b)], b, (w + 1) % |files|)
  }

  // ------------------------------------------------------------ properties

  /** The first block of a deal can be gathered again. */
  lemma DealFirst(input: seq<byte>, b: nat, n: nat, w: nat)
    requires b > 0 && w < n && input != []
    ensures var files := Deal(input, b, n, w);
      Head(files[w], b) == Head(input, b) && files[w := Tail(files[w], b)] == Deal(Tail(input, b), b, n, (w + 1) % n)
      && Total(files) > 0
  {
    var files, rest := Deal(input, b, n, w), Deal(Tail(input, b), b, n, (w + 1) % n);
    TotalZero(files);
    assert files[w] == Head(input, b) + rest[w];
    assert files[w := rest[w]] == rest;
  }

  /** Gathering what was dealt gives the input back, for every length. */
  lemma {:induction false} GatherDeal(input: seq<byte>, b: nat, n: nat, w: nat)
    requires b > 0 && w < n
    ensures Gathered(Deal(input, b, n, w), b, w) == input
  {
    if input == [] {
      TotalZero(Deal(input, b, n, w));
    } else {
      GatherDeal(Tail(input, b), b, n, (w + 1) % n);
      DealFirst(input, b, n, w);
      assert Head(input, b) + Tail(input, b) == input;
      hide Deal, Head, Tail, Total;
    }
  }

  /** Block `i / b` goes to file `i / b` modulo `n`, counting from `w` ... */
  function FileOf(i: nat, b: nat, n: nat, w: nat): (f: nat)
    requires b > 0 && n > 0
    ensures f < n
  {
    (w + i / b) % n
  }

  /** ... where it is preceded by one block for every earlier round. */
  function PlaceOf(i: nat, b: nat, n: nat): nat
    requires b > 0 && n > 0
  {
    var row: nat := i / b / n;
    row * b + i % b
  }

  lemma PlaceNext(i: nat, b: nat, n: nat, w: nat)
    requires b > 0 && w < n && i >= b
    ensures FileOf(i - b, b, n, (w + 1) % n) == FileOf(i, b, n, w)
    ensures PlaceOf(i, b, n) == PlaceOf(i - b, b, n) + if FileOf(i, b, n, w) == w then b else 0
  {
    var j := i / b;
    BlockBefore(i, b);
    TurnLater(w, j - 1, n);
    SameTurn(w, j, n);
    RowBefore(j, n);
    if j % n == 0 { OneMore(j / n, b); }
  }

  lemma PlaceFirst(i: nat, b: nat, n: nat, w: nat)
    requires w < n && i < b
    ensures FileOf(i, b, n, w) == w && PlaceOf(i, b, n) == i
  {
    SmallMod(i, b);
    SmallMod(w, n);
    ModUnique(b, 0, i, i);
    ModUnique(n, 0, 0, 0);
  }

  lemma {:induction false} DealtByte(input: seq<byte>, b: nat, n: nat, w: nat, i: nat)
    requires b > 0 && w < n && i < |input|
    ensures var file, p := Deal(input, b, n, w)[FileOf(i, b, n, w)], PlaceOf(i, b, n);
      p < |file| && file[p] == input[i]
  {
    if i < b {
      PlaceFirst(i, b, n, w);
    } else {
      PlaceNext(i, b, n, w);
      DealtByte(Tail(input, b), b, n, (w + 1) % n, i - b);
      hide FileOf, PlaceOf;
    }
  }

  /** No byte is lost and none is added. */
  lemma {:induction false} DealTotal(input: seq<byte>, b: nat, n: nat, w: nat)
    requires b > 0 && w < n
    ensures Total(Deal(input, b, n, w)) == |input|
  {
    if input == [] {
      TotalZero(Empties(n));
    } else {
      var rest := Deal(Tail(input, b), b, n, (w + 1) % n);
      DealTotal(Tail(input, b), b, n, (w + 1) % n);
      TotalUpdate(rest, w, Head(input, b) + rest[w]);
    }
  }

  /** The file each byte of the merge comes from. */
  function Sources(files: seq<seq<byte>>, b: nat, w: nat): (who: seq<nat>)
    requires b > 0 && w < |files|
    ensures |who| == |Gathered(files, b, w)|
    decreases Total(files), Turns(Live(files), w)
  {
    if Total(files) == 0 then []
    else
      GatherDecreases(files, b, w);
      seq(|Head(files[w], b)|, _ => w) + Sources(files[w := Tail(files[w], b)], b, (w + 1) % |files|)
  }

  /** The bytes that come from file `k`, in order. */
  function Project(bytes: seq<byte>, who: seq<nat>, k: nat): seq<byte>
    requires |bytes| == |who|
  {
    if bytes == [] then []
    else (if who[0] == k then [bytes[0]] else []) + Project(bytes[1..], who[1..], k)
  }

  lemma {:induction false} ProjectBlock(block: seq<byte>, bytes: seq<byte>, who: seq<nat>, w: nat, k: nat)
    requires |bytes| == |who|
    ensures Project(block + bytes, seq(|block|, _ => w) + who, k)
      == (if w == k then block else []) + Project(bytes, who, k)
  {
    var ws := seq(|block|, _ => w);
    if block == [] {
      assert block + bytes == bytes && ws + who == who;
    } else {
      ProjectBlock(block[1..], bytes, who, w, k);
      assert (block + bytes)[1..] == block[1..] + bytes;
      assert (ws + who)[1..] == seq(|block[1..]|, _ => w) + who;
    }
  }

  /** On any files, the merge emits each file's bytes exactly once and in
      their order. */
  lemma {:induction false} GatheredOnce(files: seq<seq<byte>>, b: nat, w: nat, k: nat)
    requires b > 0 && w < |files| && k < |files|
    ensures Project(Gathered(files, b, w), Sources(files, b, w), k) == files[k]
    decreases Total(files), Turns(Live(files), w)
  {
    TotalZero(files);
    if Total(files) > 0 {
      GatherDecreases(files, b, w);
      var files', w' := files[w := Tail(files[w], b)], (w + 1) % |files|;
      GatheredOnce(files', b, w', k);
      ProjectBlock(Head(files[w], b), Gathered(files', b, w'), Sources(files', b, w'), w, k);
      assert Head(files[w], b) + Tail(files[w], b) == files[w];
    }
  }

  // --------------------------------------------------------- open files

  /** Different handles, on different files, with different buffers. */
  ghost predicate Apart(hs: seq<CachedHandle>) {
    forall j, k :: 0 <= j < |hs| && 0 <= k < |hs| && j != k ==>
      hs[j] != hs[k] && hs[j].file != hs[k].file && hs[j].cbuf != hs[k].cbuf
  }

  ghost function Files(hs: seq<CachedHandle>): set<File> { set h | h in hs :: h.file }

  ghost function Buffers(hs: seq<CachedHandle>): set<array<byte>> { set h | h in hs :: h.cbuf }

  /** A writer that has only written forward. */
  ghost predicate Writer(h: CachedHandle)
    reads h, h.file, h.cbuf
  {
    h.Writing() && h.posTag == |h.Written()|
  }

  ghost predicate Writers(hs: seq<CachedHandle>)
    reads hs, Files(hs), Buffers(hs)
  {
    Apart(hs) && forall k :: 0 <= k < |hs| ==> Writer(hs[k])
  }

  /** Handle `k` of a row of writers has been given `text` so far. */
  ghost predicate Holds(h: CachedHandle, text: seq<byte>)
    requires Writer(h)
    reads h, h.file, h.cbuf
  {
    h.Written() == text
  }

  ghost predicate AllHold(hs: seq<CachedHandle>, texts: seq<seq<byte>>)
    requires Writers(hs)
    reads hs, Files(hs), Buffers(hs)
  {
    |texts| == |hs| && forall k :: 0 <= k < |hs| ==> Holds(hs[k], texts[k])
  }

  lemma Associate(a: seq<byte>, b: seq<byte>, c: seq<byte>)
    ensures a + (b + c) == (a + b) + c
  {
  }

  /** `io61_write` at the end of what has been written. */
  method Put(h: CachedHandle, ghost text: seq<byte>, buf: array<byte>, n: nat)
    requires Writer(h) && Holds(h, text) && n <= buf.Length && buf != h.cbuf
    modifies h, h.file, h.cbuf
    ensures Writer(h) && Holds(h, text + buf[..n])
    ensures buf[..] == old(buf[..])
  {
    Append(text, buf[..n]);
    hide WriteAt;
    var m := h.Write(buf, n);
  }

  /** Appending a block to one of a row of writers. */
  method WriteTo(ghost hs: seq<CachedHandle>, ghost texts: seq<seq<byte>>, h: CachedHandle, ghost k: nat,
                 buf: array<byte>, n: nat)
    requires Writers(hs) && AllHold(hs, texts) && k < |hs| && h == hs[k]
    requires n <= buf.Length && buf !in Buffers(hs)
    modifies h, h.file, h.cbuf
    ensures Writers(hs) && AllHold(hs, texts[k := texts[k] + buf[..n]])
    ensures buf[..] == old(buf[..])
  {
    assert Writer(h) && Holds(h, texts[k]) && h.cbuf in Buffers(hs);
    Put(h, texts[k], buf, n);
    forall j | 0 <= j < |hs| && j != k ensures Writer(hs[j]) && Holds(hs[j], texts[j]) {
      assert old(Writer(hs[j]) && Holds(hs[j], texts[j]));
    }
  }

  method Close(h: CachedHandle, ghost text: seq<byte>)
    requires Writer(h) && Holds(h, text)
    modifies h, h.file
    ensures Writer(h) && Holds(h, text) && h.file.bytes == text
  {
    hide WriteAt;
    h.CloseBlocks();
    WriteNothing(h.file.bytes, h.tag);
    assert h.cbuf[..0] == [];
  }

  /** `io61_close` of one of a row of writers. */
  method CloseAt(ghost hs: seq<CachedHandle>, ghost texts: seq<seq<byte>>, h: CachedHandle, ghost k: nat)
    requires Writers(hs) && AllHold(hs, texts) && k < |hs| && h == hs[k]
    modifies h, h.file
    ensures Writers(hs) && AllHold(hs, texts) && h.file.bytes == texts[k]
  {
    assert Writer(h) && Holds(h, texts[k]);
    Close(h, texts[k]);
    forall j | 0 <= j < |hs| && j != k ensures Writer(hs[j]) && Holds(hs[j], texts[j]) {
      assert old(Writer(hs[j]) && Holds(hs[j], texts[j]));
    }
  }

  // ------------------------------------------------------------ scatter61

  function Joined(a: seq<seq<byte>>, b: seq<seq<byte>>): (c: seq<seq<byte>>)
    requires |a| == |b|
    ensures |c| == |a| && forall k :: 0 <= k < |c| ==> c[k] == a[k] + b[k]
  {
    seq(|a|, k requires 0 <= k < |a| => a[k] + b[k])
  }

  lemma DealStart(input: seq<byte>, b: nat, n: nat)
    requires b > 0 && n > 0
    ensures Joined(Empties(n), Deal(input, b, n, 0)) == Deal(input, b, n, 0)
  {
    hide Deal;
    forall k | 0 <= k < n ensures Joined(Empties(n), Deal(input, b, n, 0))[k] == Deal(input, b, n, 0)[k] {
    }
  }

  lemma DealStep(texts: seq<seq<byte>>, rest: seq<byte>, b: nat, n: nat, w: nat)
    requires b > 0 && w < n == |texts| && rest != []
    ensures var texts' := texts[w := texts[w] + Head(rest, b)];
      Joined(texts', Deal(Tail(rest, b), b, n, (w + 1) % n)) == Joined(texts, Deal(rest, b, n, w))
  {
    var more := Deal(Tail(rest, b), b, n, (w + 1) % n);
    assert Deal(rest, b, n, w) == more[w := Head(rest, b) + more[w]];
    hide Deal, Head;
    var texts' := texts[w := texts[w] + Head(rest, b)];
    var left, right := Joined(texts', more), Joined(texts, Deal(rest, b, n, w));
    forall k | 0 <= k < n ensures left[k] == right[k] {
      if k == w { assert (texts[w] + Head(rest, b)) + more[w] == texts[w] + (Head(rest, b) + more[w]); }
    }
  }

  lemma DealEnd(texts: seq<seq<byte>>, b: nat, w: nat)
    requires b > 0 && w < |texts|
    ensures Joined(texts, Deal([], b, |texts|, w)) == texts
  {
    forall k | 0 <= k < |texts| ensures Joined(texts, Deal([], b, |texts|, w))[k] == texts[k] {
    }
  }

  /** The copying loop of `scatter61`. */
  method DealBlocks(inf: CachedHandle, outfs: array<CachedHandle>, blockSize: nat) returns (ghost texts: seq<seq<byte>>)
    requires inf.Reading(inf.cbuf) && inf.posTag == 0 && blockSize > 0 && outfs.Length > 0
    requires Writers(outfs[..]) && AllHold(outfs[..], Empties(outfs.Length))
    requires inf !in outfs[..] && inf.file !in Files(outfs[..]) && inf.cbuf !in Buffers(outfs[..])
    modifies inf, inf.file, inf.cbuf, outfs[..], Files(outfs[..]), Buffers(outfs[..])
    ensures texts == Deal(old(inf.file.bytes), blockSize, outfs.Length, 0)
    ensures Writers(outfs[..]) && AllHold(outfs[..], texts)
  {
    hide Slice, Deal, Writers, AllHold, Joined, Empties, Head, Tail;
    ghost var hs, input := outfs[..], inf.file.bytes;
    var buf := new byte[blockSize];
    var nfiles: nat, whichf: nat := outfs.Length, 0;
    texts := Empties(nfiles);
    DealStart(input, blockSize, nfiles);
    while true
      invariant inf.Reading(inf.cbuf) && inf.file.bytes == input && inf.posTag <= |input|
      invariant whichf < nfiles == |texts| && Writers(hs) && AllHold(hs, texts)
      invariant Joined(texts, Deal(input[inf.posTag..], blockSize, nfiles, whichf)) == Deal(input, blockSize, nfiles, 0)
      decreases |input| - inf.posTag
    {
      BlockAt(input, inf.posTag, blockSize);
      ghost var rest := input[inf.posTag..];
      var amount := inf.Read(buf, blockSize);
      if amount <= 0 { break; }
      WriteTo(hs, texts, outfs[whichf], whichf, buf, amount);
      DealStep(texts, rest, blockSize, nfiles, whichf);
      texts := texts[whichf := texts[whichf] + buf[..amount]];
      whichf := (whichf + 1) % nfiles;
    }
    DealEnd(texts, blockSize, whichf);
  }

  /** `scatter61` */
  method Scatter(inf: CachedHandle, outfs: array<CachedHandle>, blockSize: nat)
    requires inf.Reading(inf.cbuf) && inf.posTag == 0 && blockSize > 0 && outfs.Length > 0
    requires Writers(outfs[..]) && AllHold(outfs[..], Empties(outfs.Length))
    requires inf !in outfs[..] && inf.file !in Files(outfs[..]) && inf.cbuf !in Buffers(outfs[..])
    modifies inf, inf.file, inf.cbuf, outfs[..], Files(outfs[..]), Buffers(outfs[..])
    ensures forall k :: 0 <= k < outfs.Length ==>
      outfs[k].file.bytes == Deal(old(inf.file.bytes), blockSize, outfs.Length, 0)[k]
  {
    hide Deal, Empties;
    ghost var hs := outfs[..];
    ghost var texts := DealBlocks(inf, outfs, blockSize);
    for i := 0 to outfs.Length
      invariant Writers(hs) && AllHold(hs, texts)
      invariant forall k :: 0 <= k < i ==> hs[k].file.bytes == texts[k]
    {
      CloseAt(hs, texts, outfs[i], i);
    }
  }

  lemma BlockAt(bytes: seq<byte>, pos: nat, n: nat)
    requires pos <= |bytes| && n > 0
    ensures Slice(bytes, pos, n) == Head(bytes[pos..], n) && pos + |Slice(bytes, pos, n)| <= |bytes|
    ensures bytes[pos + |Slice(bytes, pos, n)|..] == Tail(bytes[pos..], n)
    ensures |Slice(bytes, pos, n)| == 0 <==> bytes[pos..] == []
  {
  }

  // ------------------------------------------------------------- gather61

  /** `left` is what handle `h` has still to read. */
  ghost predicate Remains(h: CachedHandle, left: seq<byte>)
    reads h, h.file, h.cbuf
  {
    h.Reading(h.cbuf) && h.posTag <= |h.file.bytes| && h.file.bytes[h.posTag..] == left
  }

  ghost predicate Readers(hs: seq<CachedHandle>, left: seq<seq<byte>>)
    reads hs, Files(hs), Buffers(hs)
  {
    Apart(hs) && |left| == |hs| && forall k :: 0 <= k < |hs| ==> Remains(hs[k], left[k])
  }

  /** Reading a block from one of a row of readers. */
  method ReadFrom(ghost hs: seq<CachedHandle>, ghost left: seq<seq<byte>>, h: CachedHandle, ghost k: nat,
                  buf: array<byte>, n: nat)
      returns (amount: nat)
    requires Readers(hs, left) && k < |hs| && h == hs[k]
    requires 0 < n <= buf.Length && buf !in Buffers(hs)
    modifies h, h.file, h.cbuf, buf
    ensures amount <= n && buf[..amount] == Head(left[k], n)
    ensures Readers(hs, left[k := Tail(left[k], n)])
  {
    hide Slice, Head, Tail;
    assert Remains(h, left[k]) && h.cbuf in Buffers(hs);
    BlockAt(h.file.bytes, h.posTag, n);
    amount := h.Read(buf, n);
    assert Remains(h, Tail(left[k], n));
    forall j | 0 <= j < |hs| && j != k ensures Remains(hs[j], left[j]) {
      assert old(Remains(hs[j], left[j]));
    }
  }

  function Dead(live: seq<bool>): (d: nat)
    ensures d <= |live|
  {
    if live == [] then 0 else (if live[0] then 0 else 1) + Dead(live[1..])
  }

  lemma {:induction false} DeadUpdate(live: seq<bool>, k: nat)
    requires k < |live| && live[k]
    ensures Dead(live[k := false]) == Dead(live) + 1
  {
    if k == 0 {
      assert live[k := false][1..] == live[1..];
    } else {
      assert live[k := false][1..] == live[1..][k - 1 := false];
      DeadUpdate(live[1..], k - 1);
    }
  }

  lemma {:induction false} DeadAll(live: seq<bool>)
    ensures Dead(live) == |live| <==> forall k :: 0 <= k < |live| ==> !live[k]
  {
    if live != [] {
      DeadAll(live[1..]);
      assert forall k :: 0 <= k < |live[1..]| ==> live[1..][k] == live[k + 1];
      assert (forall k :: 0 <= k < |live| ==> !live[k]) ==> forall k :: 0 <= k < |live[1..]| ==> !live[1..][k];
      if !live[0] && Dead(live[1..]) == |live[1..]| {
        forall k | 0 <= k < |live| ensures !live[k] { assert k > 0 ==> live[k] == live[1..][k - 1]; }
      }
    }
  }

  lemma DeadNone(n: nat)
    ensures Dead(seq(n, _ => true)) == 0
  {
    if n > 0 {
      DeadNone(n - 1);
      assert seq(n, _ => true)[1..] == seq(n - 1, _ => true);
    }
  }

  /** One turn, whether or not the file has anything left. */
  lemma GatherStep(left: seq<seq<byte>>, b: nat, w: nat)
    requires b > 0 && w < |left|
    ensures Gathered(left, b, w) == Head(left[w], b) + Gathered(left[w := Tail(left[w], b)], b, (w + 1) % |left|)
    ensures left[w] == [] ==> left[w := Tail(left[w], b)] == left && Head(left[w], b) == []
    ensures left[w] != [] ==> Head(left[w], b) != [] && Total(left[w := Tail(left[w], b)]) < Total(left)
  {
    TotalZero(left);
    TotalUpdate(left, w, Tail(left[w], b));
    if left[w] == [] { assert left[w := Tail(left[w], b)] == left; }
  }

  /** Which files are still open: a closed one has nothing left. */
  ghost predicate Open(infs: seq<CachedHandle?>, hs: seq<CachedHandle>, left: seq<seq<byte>>, live: seq<bool>) {
    |infs| == |hs| == |left| == |live|
    && forall k :: 0 <= k < |infs| ==> if live[k] then infs[k] == hs[k] else infs[k] == null && left[k] == []
  }

  lemma SomeOpen(live: seq<bool>, w: nat)
    requires Dead(live) != |live| && w < |live| && !live[w]
    ensures Turns(live, (w + 1) % |live|) < Turns(live, w)
  {
    DeadAll(live);
    TurnPassed(live, w);
  }

  /** A point of the copying loop: what is left, which files are open, what
      has been written, and that together they still make up `goal`. */
  ghost predicate Gathering(infs: array<CachedHandle?>, hs: seq<CachedHandle>, left: seq<seq<byte>>, live: seq<bool>,
                            text: seq<byte>, b: nat, w: nat, goal: seq<byte>)
    reads infs, hs, Files(hs), Buffers(hs)
  {
    b > 0 && w < |hs| && Open(infs[..], hs, left, live) && Readers(hs, left)
    && text + Gathered(left, b, w) == goal
  }

  /** What decreases: bytes, open files, and turns to the next open file. */
  predicate Progress(left: seq<seq<byte>>, live: seq<bool>, w: nat, left': seq<seq<byte>>, live': seq<bool>, w': nat)
    requires w < |live| && w' < |live'|
  {
    Total(left') < Total(left)
    || (Total(left') == Total(left) && |live'| == |live|
        && (Dead(live) < Dead(live') || (live' == live && Turns(live', w') < Turns(live, w))))
  }

  /** A turn on an open file, up to the write: a read that finds nothing
      closes it. */
  method GatherTurn(infs: array<CachedHandle?>, ghost hs: seq<CachedHandle>, ghost left: seq<seq<byte>>,
                    ghost live: seq<bool>, ghost text: seq<byte>, b: nat, w: nat, ghost goal: seq<byte>,
                    buf: array<byte>)
      returns (amount: nat, ghost left': seq<seq<byte>>, ghost live': seq<bool>)
    requires Gathering(infs, hs, left, live, text, b, w, goal) && infs[w] != null
    requires b <= buf.Length && buf !in Buffers(hs)
    modifies infs, infs[w], infs[w].file, infs[w].cbuf, buf
    ensures amount <= b && Gathering(infs, hs, left', live', text + buf[..amount], b, (w + 1) % |hs|, goal)
    ensures Dead(live') == Dead(live) + if amount == 0 then 1 else 0
    ensures |live'| == |live| && Progress(left, live, w, left', live', (w + 1) % |hs|)
  {
    hide Gathered, Head, Tail, Total, Turns, Dead, CachedHandle.Reading;
    GatherStep(left, b, w);
    left' := left[w := Tail(left[w], b)];
    live' := live;
    Associate(text, Head(left[w], b), Gathered(left', b, (w + 1) % |hs|));
    amount := ReadFrom(hs, left, infs[w], w, buf, b);
    if amount == 0 {
      DeadUpdate(live, w);
      live' := live[w := false];
      label Read:
      infs[w] := null;
      forall k | 0 <= k < |hs| ensures Remains(hs[k], left'[k]) {
        assert old@Read(Remains(hs[k], left'[k]));
      }
    }
  }

  /** A turn on a closed file. */
  lemma IdleTurn(infs: array<CachedHandle?>, hs: seq<CachedHandle>, left: seq<seq<byte>>, live: seq<bool>,
                 text: seq<byte>, b: nat, w: nat, goal: seq<byte>)
    requires Gathering(infs, hs, left, live, text, b, w, goal) && infs[w] == null && Dead(live) != |live|
    ensures Gathering(infs, hs, left, live, text, b, (w + 1) % |hs|, goal)
    ensures Turns(live, (w + 1) % |live|) < Turns(live, w)
  {
    hide Gathered, Head, Tail, Readers, Total, Turns, Dead;
    GatherStep(left, b, w);
    SomeOpen(live, w);
  }

  /** With every file closed the merge is complete. */
  lemma AllClosed(infs: array<CachedHandle?>, hs: seq<CachedHandle>, left: seq<seq<byte>>, live: seq<bool>,
                  text: seq<byte>, b: nat, w: nat, goal: seq<byte>)
    requires Gathering(infs, hs, left, live, text, b, w, goal) && Dead(live) == |live|
    ensures text == goal
  {
    DeadAll(live);
    TotalZero(left);
  }

  lemma GatheringShape(infs: array<CachedHandle?>, hs: seq<CachedHandle>, left: seq<seq<byte>>, live: seq<bool>,
                       text: seq<byte>, b: nat, w: nat, goal: seq<byte>)
    requires Gathering(infs, hs, left, live, text, b, w, goal)
    ensures infs[w] != null ==>
      infs[w] == hs[w] && infs[w] in hs && infs[w].file in Files(hs) && infs[w].cbuf in Buffers(hs)
  {
  }

  lemma GatherStart(infs: array<CachedHandle?>, hs: seq<CachedHandle>, files: seq<seq<byte>>, b: nat)
    requires b > 0 && infs.Length > 0 && infs[..] == hs && Readers(hs, files)
    ensures var live := seq(|hs|, _ => true);
      Gathering(infs, hs, files, live, [], b, 0, Gathered(files, b, 0)) && Dead(live) == 0
  {
    DeadNone(|hs|);
  }

  /** A turn on an open file. */
  method MergeTurn(infs: array<CachedHandle?>, outf: CachedHandle, ghost hs: seq<CachedHandle>,
                   ghost left: seq<seq<byte>>, ghost live: seq<bool>, ghost text: seq<byte>, b: nat, w: nat,
                   ghost goal: seq<byte>, buf: array<byte>)
      returns (amount: nat, ghost left': seq<seq<byte>>, ghost live': seq<bool>, ghost text': seq<byte>)
    requires Gathering(infs, hs, left, live, text, b, w, goal) && infs[w] != null
    requires Writer(outf) && Holds(outf, text)
    requires b <= buf.Length && buf !in Buffers(hs) && buf != outf.cbuf
    requires outf !in hs && outf.file !in Files(hs) && outf.cbuf !in Buffers(hs)
    modifies infs, hs, Files(hs), Buffers(hs), outf, outf.file, outf.cbuf, buf
    ensures Gathering(infs, hs, left', live', text', b, (w + 1) % |hs|, goal)
    ensures Writer(outf) && Holds(outf, text')
    ensures Dead(live') == Dead(live) + if amount == 0 then 1 else 0
    ensures |live'| == |live| && Progress(left, live, w, left', live', (w + 1) % |hs|)
  {
    GatheringShape(infs, hs, left, live, text, b, w, goal);
    hide Gathered, Readers, Total, Turns, Dead, Writer, Holds, Gathering, Progress;
    amount, left', live' := GatherTurn(infs, hs, left, live, text, b, w, goal, buf);
    text' := text + buf[..amount];
    if amount > 0 { Put(outf, text, buf, amount); }
  }

  /** `gather61` of any files, each read from where its handle stands. */
  method Gather(infs: array<CachedHandle?>, outf: CachedHandle, blockSize: nat, ghost hs: seq<CachedHandle>,
                ghost files: seq<seq<byte>>)
    requires blockSize > 0 && infs.Length > 0 && infs[..] == hs && Readers(hs, files)
    requires Writer(outf) && Holds(outf, [])
    requires outf !in hs && outf.file !in Files(hs) && outf.cbuf !in Buffers(hs)
    modifies infs, hs, Files(hs), Buffers(hs), outf, outf.file, outf.cbuf
    ensures outf.file.bytes == Gathered(files, blockSize, 0)
  {
    var nfiles: nat := infs.Length;
    var buf := new byte[blockSize];
    assert buf !in Buffers(hs);
    ghost var left, live, text: seq<byte> := files, seq(nfiles, _ => true), [];
    ghost var goal := Gathered(files, blockSize, 0);
    var whichf: nat, ndeadfiles: nat := 0, 0;
    GatherStart(infs, hs, files, blockSize);
    hide Gathered, Readers, Total, Turns, Dead, Writer, Holds, Gathering, Files, Buffers;
    while ndeadfiles != nfiles
      invariant |live| == |hs| == infs.Length == nfiles && whichf < nfiles && ndeadfiles == Dead(live)
      invariant Gathering(infs, hs, left, live, text, blockSize, whichf, goal)
      invariant Writer(outf) && Holds(outf, text)
      decreases Total(left), nfiles - ndeadfiles, Turns(live, whichf)
    {
      if infs[whichf] != null {
        var amount;
        amount, left, live, text := MergeTurn(infs, outf, hs, left, live, text, blockSize, whichf, goal, buf);
        if amount <= 0 { ndeadfiles := ndeadfiles + 1; }
      } else {
        IdleTurn(infs, hs, left, live, text, blockSize, whichf, goal);
      }
      whichf := (whichf + 1) % nfiles;
    }
    AllClosed(infs, hs, left, live, text, blockSize, whichf, goal);
    Close(outf, text);
  }
}

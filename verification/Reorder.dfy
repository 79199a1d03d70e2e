/** pset3/reordercat61.c: copying a file block by block in a random order. */
module Reorder {
  import opened Basics
  import opened Io61
  import opened Modular
  import opened OsFile
  import opened SlowIo61

  const MAX_BLOCKS := 30 * 0x10_0000   // 30 << 20

  function Numbers(n: nat): (s: seq<nat>)
    ensures |s| == n && forall k :: 0 <= k < n ==> s[k] == k
  {
    seq(n, k => k)
  }

  /** The position of block `j`. */
  function Start(j: nat, b: nat): nat {
    MulOrdered(0, j, b);
    j * b
  }

  /** Block `j` of `out` is block `j` of `input`. */
  predicate BlockIn(input: seq<byte>, out: seq<byte>, b: nat, j: nat) {
    var lo := Start(j, b);
    lo + b <= |out| && lo + b <= |input| && out[lo..lo + b] == input[lo..lo + b]
  }

  /** The blocks copied and the blocks to come are together all the blocks,
      each once, and those copied are in place. */
  ghost predicate Reordering(input: seq<byte>, out: seq<byte>, b: nat, order: seq<nat>, rest: seq<nat>) {
    b > 0 && |input| % b == 0 && |out| <= |input|
    && multiset(order) + multiset(rest) == multiset(Numbers(|input| / b))
    && forall j :: j in order ==> BlockIn(input, out, b, j)
  }

  lemma BlockBounds(j: nat, total: nat, b: nat)
    requires j < total
    ensures 0 <= j * b <= j * b + b <= total * b
  {
    MulOrdered(0, j, b);
    OneMore(j + 1, b);
    MulOrdered(j + 1, total, b);
  }

  lemma BlocksApart(i: nat, j: nat, b: nat)
    requires i != j
    ensures i * b + b <= j * b || j * b + b <= i * b
  {
    BlockBounds(i, if i < j then j else i + 1, b);
    BlockBounds(j, if j < i then i else j + 1, b);
  }

  lemma WriteElsewhere(out: seq<byte>, pos: nat, data: seq<byte>, lo: nat, hi: nat)
    requires lo <= hi <= |out| && (hi <= pos || pos + |data| <= lo)
    ensures hi <= |WriteAt(out, pos, data)| && WriteAt(out, pos, data)[lo..hi] == out[lo..hi]
  {
  }

  lemma WriteHere(out: seq<byte>, pos: nat, data: seq<byte>)
    requires data != []
    ensures pos + |data| <= |WriteAt(out, pos, data)| && WriteAt(out, pos, data)[pos..pos + |data|] == data
    ensures |WriteAt(out, pos, data)| == |out| || |WriteAt(out, pos, data)| == pos + |data|
  {
  }

  lemma WholeBlock(input: seq<byte>, b: nat, x: nat)
    requires b > 0 && |input| % b == 0 && x < |input| / b
    ensures Start(x, b) + b <= |input| && Slice(input, Start(x, b), b) == input[Start(x, b)..Start(x, b) + b]
  {
    assert |input| == |input| / b * b;
    BlockBounds(x, |input| / b, b);
  }

  lemma KeepBlock(input: seq<byte>, out: seq<byte>, b: nat, x: nat, j: nat)
    requires BlockIn(input, out, b, j) && j != x && |Slice(input, Start(x, b), b)| == b
    ensures BlockIn(input, WriteAt(out, Start(x, b), Slice(input, Start(x, b), b)), b, j)
  {
    BlocksApart(x, j, b);
    WriteElsewhere(out, Start(x, b), Slice(input, Start(x, b), b), Start(j, b), Start(j, b) + b);
  }

  /** Copying one more block. */
  lemma ReorderStep(input: seq<byte>, out: seq<byte>, b: nat, order: seq<nat>, rest: seq<nat>, x: nat, rest': seq<nat>)
    requires Reordering(input, out, b, order, rest) && multiset(rest) == multiset(rest') + multiset{x}
    ensures x < |input| / b && Start(x, b) + b <= |input| && |Slice(input, Start(x, b), b)| == b
    ensures Reordering(input, WriteAt(out, Start(x, b), Slice(input, Start(x, b), b)), b, order + [x], rest')
  {
    var all := Numbers(|input| / b);
    assert x in multiset(rest);
    assert x in multiset(all);
    assert x in all;
    WholeBlock(input, b, x);
    var data := Slice(input, Start(x, b), b);
    WriteHere(out, Start(x, b), data);
    hide WriteAt, Slice;
    forall j | j in order + [x] ensures BlockIn(input, WriteAt(out, Start(x, b), data), b, j) {
      if j != x { KeepBlock(input, out, b, x, j); }
    }
    assert multiset(order + [x]) == multiset(order) + multiset{x};
  }

  lemma ByteIn(input: seq<byte>, out: seq<byte>, b: nat, j: nat, i: nat)
    requires BlockIn(input, out, b, j) && Start(j, b) <= i < Start(j, b) + b
    ensures Same(input, out, i)
  {
  }

  /** With every block copied the output is the input. */
  lemma ReorderEnd(input: seq<byte>, out: seq<byte>, b: nat, order: seq<nat>)
    requires Reordering(input, out, b, order, [])
    ensures out == input && multiset(order) == multiset(Numbers(|input| / b))
  {
    var total := |input| / b;
    assert |input| == total * b;
    hide BlockIn;
    forall i: nat | i < |input| ensures Same(input, out, i) {
      BlockOf(i, b, total);
      var j := i / b;
      assert Numbers(total)[j] == j;
      assert j in multiset(Numbers(total));
      assert j in multiset(order);
      ByteIn(input, out, b, j, i);
    }
    AllSame(input, out);
  }

  // ------------------------------------------------------- the order

  /** Item `i` removed by moving the last one to its place. */
  function SwapRemoved(rest: seq<nat>, i: nat): (r: seq<nat>)
    requires i < |rest|
    ensures |r| == |rest| - 1
  {
    rest[i := rest[|rest| - 1]][..|rest| - 1]
  }

  lemma SwapRemovedCount(rest: seq<nat>, i: nat)
    requires i < |rest|
    ensures multiset(rest) == multiset(SwapRemoved(rest, i)) + multiset{rest[i]}
  {
    var last := |rest| - 1;
    assert rest == rest[..last] + [rest[last]];
    var moved := rest[i := rest[last]];
    assert multiset(moved) == multiset(rest) - multiset{rest[i]} + multiset{rest[last]};
    assert moved == moved[..last] + [rest[last]];
  }

  /** The order in which `rest` is copied when `random()` returns `randoms`. */
  function Order(rest: seq<nat>, randoms: seq<nat>): seq<nat>
    requires |rest| <= |randoms|
    decreases |rest|
  {
    if rest == [] then []
    else
      var i := randoms[0] % |rest|;
      [rest[i]] + Order(SwapRemoved(rest, i), randoms[1..])
  }

  lemma {:induction false} OrderPermutes(rest: seq<nat>, randoms: seq<nat>)
    requires |rest| <= |randoms|
    ensures multiset(Order(rest, randoms)) == multiset(rest)
    decreases |rest|
  {
    if rest != [] {
      var i := randoms[0] % |rest|;
      SwapRemovedCount(rest, i);
      OrderPermutes(SwapRemoved(rest, i), randoms[1..]);
    }
  }

  /** Every order can be drawn. */
  method EveryOrder(order: seq<nat>, rest: seq<nat>) returns (randoms: seq<nat>)
    requires multiset(order) == multiset(rest)
    ensures |randoms| == |rest| && Order(rest, randoms) == order
    decreases |order|
  {
    randoms := [];
    if order == [] {
      assert |multiset(rest)| == |rest|;
    } else {
      assert order == [order[0]] + order[1..];
      assert order[0] in multiset(rest);
      var i: nat :| i < |rest| && rest[i] == order[0];
      SwapRemovedCount(rest, i);
      assert multiset(order) == multiset{order[0]} + multiset(order[1..]);
      assert multiset(order[1..]) == multiset(order) - multiset{rest[i]};
      assert multiset(SwapRemoved(rest, i)) == multiset(rest) - multiset{rest[i]};
      var more := EveryOrder(order[1..], SwapRemoved(rest, i));
      randoms := [i] + more;
      SmallMod(i, |rest|);
      assert randoms[1..] == more;
    }
  }

  /** Choosing a block and removing it by moving the last one to its place. */
  method TakeBlock(blockpos: array<nat>, nblocks: nat, random: nat) returns (x: nat)
    requires 0 < nblocks <= blockpos.Length
    modifies blockpos
    ensures x == old(blockpos[random % nblocks])
    ensures blockpos[..nblocks - 1] == SwapRemoved(old(blockpos[..nblocks]), random % nblocks)
  {
    var index := random % nblocks;
    x := blockpos[index];
    blockpos[index] := blockpos[nblocks - 1];
  }

  /** With `order` copied, the rest of `randoms` gives the rest of `all`. */
  ghost predicate Drawing(all: seq<nat>, order: seq<nat>, rest: seq<nat>, randoms: seq<nat>) {
    |order| + |rest| == |randoms| && order + Order(rest, randoms[|order|..]) == all
  }

  lemma DrawStart(rest: seq<nat>, randoms: seq<nat>)
    requires |rest| == |randoms|
    ensures Drawing(Order(rest, randoms), [], rest, randoms)
  {
  }

  lemma DrawEnd(all: seq<nat>, order: seq<nat>, randoms: seq<nat>)
    requires Drawing(all, order, [], randoms)
    ensures order == all
  {
  }

  lemma DrawStep(all: seq<nat>, order: seq<nat>, rest: seq<nat>, randoms: seq<nat>)
    requires Drawing(all, order, rest, randoms) && rest != []
    ensures |order| + |rest| == |randoms|
    ensures var i := randoms[|order|] % |rest|;
      Drawing(all, order + [rest[i]], SwapRemoved(rest, i), randoms)
      && multiset(rest) == multiset(SwapRemoved(rest, i)) + multiset{rest[i]}
  {
    var i := randoms[|order|] % |rest|;
    SwapRemovedCount(rest, i);
    assert randoms[|order|..][1..] == randoms[|order| + 1..];
    assert order + ([rest[i]] + Order(SwapRemoved(rest, i), randoms[|order| + 1..]))
        == (order + [rest[i]]) + Order(SwapRemoved(rest, i), randoms[|order| + 1..]);
  }

  /** The choice of the next block: the part of the loop body before the I/O. */
  method DrawBlock(blockpos: array<nat>, nblocks: nat, randoms: seq<nat>, ghost all: seq<nat>, ghost order: seq<nat>)
      returns (x: nat)
    requires 0 < nblocks <= blockpos.Length && Drawing(all, order, blockpos[..nblocks], randoms)
    modifies blockpos
    ensures var ok := Drawing(all, order + [x], blockpos[..nblocks - 1], randoms); ok
    ensures multiset(old(blockpos[..nblocks])) == multiset(blockpos[..nblocks - 1]) + multiset{x}
  {
    DrawStep(all, order, blockpos[..nblocks], randoms);
    hide *;
    x := TakeBlock(blockpos, nblocks, randoms[|randoms| - nblocks]);
  }

  lemma ReorderStart(input: seq<byte>, b: nat)
    requires b > 0 && |input| / b * b == |input|
    ensures Reordering(input, [], b, [], Numbers(|input| / b))
  {
  }

  /** `blockpos` before any block is chosen; the two error exits of the
      driver are an input of too many blocks and one of a partial block. */
  method Blocks(inputSize: nat, blockSize: nat) returns (ok: bool, nblocks: nat, blockpos: array<nat>)
    requires blockSize > 0
    ensures nblocks == inputSize / blockSize && fresh(blockpos)
    ensures ok <==> nblocks <= MAX_BLOCKS && inputSize % blockSize == 0
    ensures ok ==> nblocks * blockSize == inputSize
    ensures blockpos.Length == nblocks && blockpos[..] == Numbers(nblocks)
  {
    nblocks := inputSize / blockSize;
    ok := nblocks <= MAX_BLOCKS && nblocks * blockSize == inputSize;
    if nblocks * blockSize == inputSize { ModUnique(blockSize, nblocks, 0, inputSize); }
    blockpos := new nat[nblocks];
    for i := 0 to nblocks
      invariant forall k :: 0 <= k < i ==> blockpos[k] == k
    {
      blockpos[i] := i;
    }
  }

  /** Moving one block: the part of the loop body that does I/O. */
  method MoveBlockSlow(inf: SlowHandle, outf: SlowHandle, buf: array<byte>, pos: nat, blockSize: nat)
      returns (amount: nat)
    requires inf.file != outf.file && 0 < blockSize <= buf.Length && pos < |inf.file.bytes|
    modifies inf.file, outf.file, buf
    ensures inf.file.bytes == old(inf.file.bytes) && amount > 0
    ensures outf.file.bytes == WriteAt(old(outf.file.bytes), pos, Slice(inf.file.bytes, pos, blockSize))
  {
    hide WriteAt;
    var r := inf.Seek(pos);
    amount := inf.Read(buf, blockSize);
    r := outf.Seek(pos);
    r := outf.Write(buf, amount);
  }

  /** Between two blocks of the copying loop over slow-io61. */
  ghost predicate BetweenSlow(inf: SlowHandle, outf: SlowHandle, input: seq<byte>, b: nat, order: seq<nat>,
                              rest: seq<nat>)
    reads inf.file, outf.file
  {
    inf.file != outf.file && inf.file.bytes == input && Reordering(input, outf.file.bytes, b, order, rest)
  }

  /** One block of the copying loop, once it is chosen. */
  method CopyChosenSlow(inf: SlowHandle, outf: SlowHandle, buf: array<byte>, x: nat, b: nat, ghost input: seq<byte>,
                        ghost order: seq<nat>, ghost rest: seq<nat>, ghost rest': seq<nat>)
      returns (amount: nat)
    requires BetweenSlow(inf, outf, input, b, order, rest) && multiset(rest) == multiset(rest') + multiset{x}
      && b <= buf.Length
    modifies inf.file, outf.file, buf
    ensures amount > 0 && var ok := BetweenSlow(inf, outf, input, b, order + [x], rest'); ok
  {
    hide WriteAt, Slice, Start;
    ReorderStep(input, outf.file.bytes, b, order, rest, x, rest');
    amount := MoveBlockSlow(inf, outf, buf, Start(x, b), b);
  }

  /** The copying loop over slow-io61. */
  method MoveBlocksSlow(inf: SlowHandle, outf: SlowHandle, blockpos: array<nat>, blockSize: nat, randoms: seq<nat>,
                        ghost input: seq<byte>, ghost all: seq<nat>)
      returns (ghost order: seq<nat>)
    requires BetweenSlow(inf, outf, input, blockSize, [], blockpos[..]) && Drawing(all, [], blockpos[..], randoms)
    modifies inf.file, outf.file, blockpos
    ensures var ok := BetweenSlow(inf, outf, input, blockSize, order, []) && Drawing(all, order, [], randoms); ok
  {
    hide *;
    order := [];
    var nblocks := blockpos.Length;
    assert blockpos[..nblocks] == blockpos[..];
    var buf := new byte[blockSize];
    while nblocks != 0
      invariant nblocks <= blockpos.Length
      invariant var ok := Drawing(all, order, blockpos[..nblocks], randoms); ok
      invariant var ok := BetweenSlow(inf, outf, input, blockSize, order, blockpos[..nblocks]); ok
    {
      ghost var rest := blockpos[..nblocks];
      var x := DrawBlock(blockpos, nblocks, randoms, all, order);
      nblocks := nblocks - 1;
      var amount := CopyChosenSlow(inf, outf, buf, x, blockSize, input, order, rest, blockpos[..nblocks]);
      order := order + [x];
      if amount <= 0 { break; }
    }
    assert blockpos[..nblocks] == [];
  }

  /** `reordercat61` over slow-io61: for every block size that divides the
      file and all random numbers the output is the input, and each block is
      copied once. */
  method ReorderSlow(inf: SlowHandle, outf: SlowHandle, blockSize: nat, randoms: seq<nat>)
      returns (ok: bool, ghost order: seq<nat>)
    requires inf.file != outf.file && outf.file.bytes == [] && blockSize > 0
      && |randoms| == |inf.file.bytes| / blockSize
    modifies inf.file, outf.file
    ensures inf.file.bytes == old(inf.file.bytes)
    ensures ok <==> |inf.file.bytes| % blockSize == 0 && |inf.file.bytes| / blockSize <= MAX_BLOCKS
    ensures outf.file.bytes == if ok then old(inf.file.bytes) else []
    ensures ok ==> order == Order(Numbers(|inf.file.bytes| / blockSize), randoms)
    ensures ok ==> multiset(order) == multiset(Numbers(|inf.file.bytes| / blockSize))
  {
    hide WriteAt, Slice;
    ghost var input := inf.file.bytes;
    order := [];
    var r := inf.Seek(0);
    r := outf.Seek(0);
    var nblocks: nat, blockpos;
    ok, nblocks, blockpos := Blocks(|inf.file.bytes|, blockSize);
    if !ok { return; }
    ReorderStart(input, blockSize);
    assert blockpos[..nblocks] == Numbers(nblocks);
    DrawStart(Numbers(nblocks), randoms);
    order := MoveBlocksSlow(inf, outf, blockpos, blockSize, randoms, input, Order(Numbers(nblocks), randoms));
    ReorderEnd(input, outf.file.bytes, blockSize, order);
    DrawEnd(Order(Numbers(nblocks), randoms), order, randoms);
  }

  // ------------------------------------------------------- over io61.c

  /** The block copied before the `k`-th, or the first seek to 0. */
  function Before(order: seq<nat>, k: nat): nat
    requires k <= |order|
  {
    if k == 0 then 0 else order[k - 1]
  }

  /** The output seek to the `k`-th block is not taken for a step to a
      neighbour inside a buffer block. */
  predicate SoundInto(order: seq<nat>, k: nat, b: nat, size: nat)
    requires k < |order| && size > 0
  {
    SoundSeek(O_WRONLY, ToInt(Start(Before(order, k), b)), size, Start(order[k], b))
  }

  predicate AllSound(order: seq<nat>, b: nat, size: nat)
    requires size > 0
  {
    forall k: nat :: k < |order| ==> SoundInto(order, k, b, size)
  }

  /** The last seek is the first unsound one in a row. */
  predicate BadLast(order: seq<nat>, b: nat, size: nat)
    requires size > 0
  {
    |order| >= 2 && SoundInto(order, |order| - 2, b, size) && !SoundInto(order, |order| - 1, b, size)
  }

  /** Where the last block's seek puts the descriptor, and the byte of the
      input that the buffer starts with then. */
  function SpoiltAt(order: seq<nat>, b: nat, size: nat): (lo: nat)
    requires order != [] && size > 0
  {
    AlignedBelow(Start(order[|order| - 1], b), size);
    Aligned(Start(order[|order| - 1], b), size)
  }

  function SpoiltBy(order: seq<nat>, b: nat, size: nat): (from: nat)
    requires |order| >= 2 && size > 0 && b > 0
  {
    Start(order[|order| - 2], b) + LastChunk(b, size)
  }

  predicate Spoilt(input: seq<byte>, out: seq<byte>, lo: nat, from: nat) {
    lo < |out| && from < |input| && out[lo] == input[from]
  }

  /** What is known between two blocks of the copying loop, whether seeks
      were sound or not: `out` is the output, `head` the first byte of the
      output buffer. */
  ghost predicate Progress(input: seq<byte>, out: seq<byte>, head: byte, counter: int, size: nat, b: nat,
                           order: seq<nat>, rest: seq<nat>) {
    b > 0 && size > 0 && |input| % b == 0
    && multiset(order) + multiset(rest) == multiset(Numbers(|input| / b))
    && counter == ToInt(Start(Before(order, |order|), b))
    && (AllSound(order, b, size) ==> Reordering(input, out, b, order, rest))
    && (order != [] && SoundInto(order, |order| - 1, b, size) ==> Headed(input, head, order[|order| - 1], b, size))
    && (BadLast(order, b, size) ==> Spoilt(input, out, SpoiltAt(order, b, size), SpoiltBy(order, b, size)))
  }

  /** A file of two blocks of one byte: the byte before the second is written
      again, from the first or before it. */
  ghost predicate TwoBytes(input: seq<byte>, out: seq<byte>, head: byte, b: nat, order: seq<nat>) {
    b == 1 && |input| == 2 ==>
    (order == [] ==> out == []) && (order == [0] ==> out == [input[0]] && head == input[0])
    && (order == [1] ==> |out| == 2 && out[1] == input[1]) && (|order| == 2 ==> out == input)
  }

  lemma TwoBytesStep(input: seq<byte>, out: seq<byte>, head: byte, order: seq<nat>, x: nat, lo: nat, stale: seq<byte>,
                     head': byte)
    requires |input| == 2 && TwoBytes(input, out, head, 1, order) && (order == [] || order == [0] || order == [1])
    requires x < 2 && x !in order && lo + |stale| == x && (lo < x ==> stale[0] == head)
      && (x == 0 ==> head' == input[0])
    ensures TwoBytes(input, WriteAt(WriteAt(out, lo, stale), x, [input[x]]), head', 1, order + [x])
  {
    assert (order + [x])[|order|] == x;
    var mid := WriteAt(out, lo, stale);
    var out' := WriteAt(mid, x, [input[x]]);
    if x == 0 {
      assert mid == out;
      assert order == [1] ==> out' == [input[0], out[1]];
    } else {
      assert |mid| == 1 || mid == [];
      assert |out'| == 2 && out'[1] == input[1];
      assert order == [0] ==> mid == [input[0]];
    }
  }

  /** Only the two blocks 0 and 1. */
  lemma TwoBlocks(order: seq<nat>, rest: seq<nat>, x: nat, rest': seq<nat>)
    requires multiset(order) + multiset(rest) == multiset(Numbers(2)) && multiset(rest) == multiset(rest') + multiset{x}
    ensures x < 2 && x !in order && (order == [] || order == [0] || order == [1])
  {
    assert Numbers(2) == [0, 1];
    assert x in multiset(rest);
    assert x in multiset([0, 1]);
    assert |multiset(order)| + |multiset(rest)| == |multiset([0, 1])| && |multiset(rest)| >= 1;
    if |order| == 1 {
      assert order == [order[0]];
      assert order[0] in multiset(order);
      assert order[0] in multiset([0, 1]);
    }
    assert multiset([0, 1])[x] == 1 && multiset(rest)[x] >= 1;
    assert multiset(order)[x] == 0;
  }

  /** The output buffer starts with the last chunk of block `x`. */
  ghost predicate Headed(input: seq<byte>, head: byte, x: nat, b: nat, size: nat)
    requires b > 0 && size > 0
  {
    Start(x, b) + b <= |input| && head == input[Start(x, b) + LastChunk(b, size)]
  }

  lemma NextBlock(n: nat, b: nat, order: seq<nat>, rest: seq<nat>, x: nat, rest': seq<nat>)
    requires b > 0 && multiset(order) + multiset(rest) == multiset(Numbers(n / b))
      && multiset(rest) == multiset(rest') + multiset{x}
    ensures x < n / b && multiset(order + [x]) + multiset(rest') == multiset(Numbers(n / b))
  {
    assert x in multiset(rest);
    assert x in multiset(Numbers(n / b));
    assert x in Numbers(n / b);
    assert multiset(order + [x]) == multiset(order) + multiset{x};
  }

  /** The orders up to block `k` decide about block `k`. */
  lemma SoundPrefix(order: seq<nat>, x: nat, b: nat, size: nat)
    requires size > 0
    ensures AllSound(order + [x], b, size) <==>
      AllSound(order, b, size) && SoundSeek(O_WRONLY, ToInt(Start(Before(order, |order|), b)), size, Start(x, b))
    ensures SoundInto(order + [x], |order|, b, size) <==>
      SoundSeek(O_WRONLY, ToInt(Start(Before(order, |order|), b)), size, Start(x, b))
    ensures order != [] ==> (SoundInto(order + [x], |order| - 1, b, size) <==> SoundInto(order, |order| - 1, b, size))
  {
    hide SoundSeek, ToInt, Start;
    var more := order + [x];
    forall k: nat | k < |order| ensures SoundInto(more, k, b, size) <==> SoundInto(order, k, b, size) {
      assert Before(more, k) == Before(order, k) && more[k] == order[k];
    }
    assert Before(more, |order|) == Before(order, |order|) && more[|order|] == x;
    assert SoundInto(more, |order|, b, size) <==>
      SoundSeek(O_WRONLY, ToInt(Start(Before(order, |order|), b)), size, Start(x, b));
    hide SoundInto;
    if AllSound(order, b, size) && SoundInto(more, |order|, b, size) {
      forall k: nat | k < |more| ensures SoundInto(more, k, b, size) {
        assert k < |order| ==> SoundInto(order, k, b, size);
      }
    }
    if AllSound(more, b, size) {
      forall k: nat | k < |order| ensures SoundInto(order, k, b, size) { assert SoundInto(more, k, b, size); }
    }
  }

  lemma FirstStale(out: seq<byte>, lo: nat, pos: nat, stale: seq<byte>, data: seq<byte>)
    requires lo + |stale| == pos && lo < pos && data != []
    ensures var out' := WriteAt(WriteAt(out, lo, stale), pos, data); lo < |out'| && out'[lo] == stale[0]
  {
  }

  /** A block behind one whose seek was sound spoils a byte if its own seek
      is not. */
  lemma SpoiltStep(input: seq<byte>, out: seq<byte>, head: byte, size: nat, b: nat, order: seq<nat>, x: nat,
                   stale: seq<byte>, data: seq<byte>)
    requires b > 0 && size > 0 && data != [] && BadLast(order + [x], b, size)
    requires order != [] && (SoundInto(order, |order| - 1, b, size) ==>
      Headed(input, head, order[|order| - 1], b, size))
    requires var pos := Start(x, b); var lo := Target(pos, ToInt(Start(Before(order, |order|), b)), size);
      |stale| == pos - lo && (lo < pos ==> stale[0] == head)
    ensures var pos := Start(x, b); var lo := Target(pos, ToInt(Start(Before(order, |order|), b)), size);
      Spoilt(input, WriteAt(WriteAt(out, lo, stale), pos, data), SpoiltAt(order + [x], b, size),
        SpoiltBy(order + [x], b, size))
  {
    var pos, counter := Start(x, b), ToInt(Start(Before(order, |order|), b));
    SoundPrefix(order, x, b, size);
    SoundTarget(pos, counter, size);
    hide SoundInto, SoundSeek, WriteAt, ToInt;
    FirstStale(out, Target(pos, counter, size), pos, stale, data);
  }

  lemma TwoBytesNext(input: seq<byte>, out: seq<byte>, head: byte, counter: int, size: nat, b: nat, order: seq<nat>,
                     rest: seq<nat>, x: nat, rest': seq<nat>, stale: seq<byte>, out': seq<byte>, head': byte)
    requires TwoBytes(input, out, head, b, order)
    requires b > 0 && size > 0 && multiset(order) + multiset(rest) == multiset(Numbers(|input| / b))
    requires multiset(rest) == multiset(rest') + multiset{x}
    requires StepOf(input, out, head, counter, size, b, x, stale, out', head')
    ensures TwoBytes(input, out', head', b, order + [x])
  {
    if b == 1 && |input| == 2 {
      var lo := Target(Start(x, b), counter, size);
      var data := Slice(input, Start(x, b), b);
      assert |stale| == Start(x, b) - lo && (lo < Start(x, b) ==> stale[0] == head);
      assert out' == WriteAt(WriteAt(out, lo, stale), Start(x, b), data);
      assert lo == Start(x, b) && |data| == b ==> head' == data[LastChunk(b, size)];
      hide *;
      TwoBlocks(order, rest, x, rest');
      OneByte(input, x);
      TwoBytesStep(input, out, head, order, x, lo, stale, head');
    }
  }

  /** What copying block `x` does to the output and the buffer. */
  ghost predicate StepOf(input: seq<byte>, out: seq<byte>, head: byte, counter: int, size: nat, b: nat, x: nat,
                         stale: seq<byte>, out': seq<byte>, head': byte)
    requires size > 0 && b > 0
  {
    var pos, data := Start(x, b), Slice(input, Start(x, b), b);
    var lo := Target(pos, counter, size);
    |stale| == pos - lo && (lo < pos ==> stale[0] == head) && out' == WriteAt(WriteAt(out, lo, stale), pos, data)
    && data != [] && (lo == pos && |data| == b ==> head' == data[LastChunk(b, size)])
  }

  /** One block of the copying loop. */
  lemma ProgressStep(input: seq<byte>, out: seq<byte>, head: byte, counter: int, size: nat, b: nat, order: seq<nat>,
                     rest: seq<nat>, x: nat, rest': seq<nat>, stale: seq<byte>, out': seq<byte>, head': byte)
    requires Progress(input, out, head, counter, size, b, order, rest)
      && multiset(rest) == multiset(rest') + multiset{x}
    requires b > 0 && size > 0 && StepOf(input, out, head, counter, size, b, x, stale, out', head')
    ensures Progress(input, out', head', ToInt(Start(x, b)), size, b, order + [x], rest')
  {
    var pos, data := Start(x, b), Slice(input, Start(x, b), b);
    var lo := Target(pos, counter, size);
    NextBlock(|input|, b, order, rest, x, rest');
    WholeBlock(input, b, x);
    SoundTarget(pos, counter, size);
    SoundPrefix(order, x, b, size);
    WriteNothing(out, pos);
    hide WriteAt, Target, AllSound, SoundInto, SoundSeek, SpoiltAt, SpoiltBy, Spoilt, Aligned, ToInt, Reordering,
      TwoBytes, Numbers;
    if AllSound(order + [x], b, size) { ReorderStep(input, out, b, order, rest, x, rest'); }
    if BadLast(order + [x], b, size) { SpoiltStep(input, out, head, size, b, order, x, stale, data); }
  }

  lemma OneByte(input: seq<byte>, x: nat)
    requires x < |input|
    ensures Start(x, 1) == x && Slice(input, x, 1) == [input[x]] && forall size: nat :: size > 0 ==>
      LastChunk(1, size) == 0
  {
  }

  lemma ProgressStart(input: seq<byte>, head: byte, size: nat, b: nat)
    requires b > 0 && size > 0 && |input| / b * b == |input|
    ensures Progress(input, [], head, 0, size, b, [], Numbers(|input| / b)) && TwoBytes(input, [], head, b, [])
  {
  }

  /** With every block copied: what a caller gets. */
  lemma ProgressEnd(input: seq<byte>, out: seq<byte>, head: byte, counter: int, size: nat, b: nat, order: seq<nat>)
    requires Progress(input, out, head, counter, size, b, order, []) && TwoBytes(input, out, head, b, order)
    ensures b > 0 && size > 0 && multiset(order) == multiset(Numbers(|input| / b))
    ensures AllSound(order, b, size) || (b == 1 && |input| == 2) ==> out == input
    ensures BadLast(order, b, size) ==> Spoilt(input, out, SpoiltAt(order, b, size), SpoiltBy(order, b, size))
  {
    if AllSound(order, b, size) { ReorderEnd(input, out, b, order); }
    if b == 1 && |input| == 2 { assert |multiset(order)| == |multiset(Numbers(2))| == 2; }
  }

  /** Moving one block: the part of the loop body that does I/O. */
  method MoveBlock(inf: CachedHandle, outf: CachedHandle, buf: array<byte>, pos: nat, blockSize: nat)
      returns (amount: nat)
    requires inf.Reading(inf.cbuf) && outf.Writing()
    requires inf != outf && inf.file != outf.file && inf.cbuf != outf.cbuf
    requires 0 < blockSize <= buf.Length && buf != inf.cbuf && buf != outf.cbuf && pos < |inf.file.bytes|
    modifies inf, inf.file, inf.cbuf, outf, outf.file, outf.cbuf, buf
    ensures inf.Reading(inf.cbuf) && outf.Writing() && inf.file.bytes == old(inf.file.bytes)
      && outf.counter == ToInt(pos)
    ensures amount > 0 && amount == |Slice(inf.file.bytes, pos, blockSize)|
    ensures var data := Slice(inf.file.bytes, pos, blockSize);
      var lo := Target(pos, old(outf.counter), outf.size);
      data != [] && outf.Written() == WriteAt(WriteAt(old(outf.Written()), lo, old(outf.cbuf[..pos - lo])), pos, data)
      && (lo == pos ==> outf.cbuf[0] == data[LastChunk(|data|, outf.size)])
  {
    hide WriteAt, ToInt, LastChunk, Target;
    SeekForward(inf, pos);
    amount := inf.Read(buf, blockSize);
    SeekAndWrite(outf, pos, buf, amount);
  }

  /** Between two blocks of the copying loop. */
  ghost predicate Between(inf: CachedHandle, outf: CachedHandle, input: seq<byte>, b: nat, order: seq<nat>,
                          rest: seq<nat>)
    reads inf, inf.file, inf.cbuf, outf, outf.file, outf.cbuf
  {
    inf.Reading(inf.cbuf) && outf.Writing() && inf != outf && inf.file != outf.file && inf.cbuf != outf.cbuf
    && inf.file.bytes == input && Progress(input, outf.Written(), outf.cbuf[0], outf.counter, outf.size, b, order, rest)
    && TwoBytes(input, outf.Written(), outf.cbuf[0], b, order)
  }

  lemma InsideFile(input: seq<byte>, b: nat, order: seq<nat>, rest: seq<nat>, x: nat, rest': seq<nat>)
    requires b > 0 && |input| % b == 0 && multiset(order) + multiset(rest) == multiset(Numbers(|input| / b))
    requires multiset(rest) == multiset(rest') + multiset{x}
    ensures Start(x, b) + b <= |input| && |Slice(input, Start(x, b), b)| == b
  {
    NextBlock(|input|, b, order, rest, x, rest');
    WholeBlock(input, b, x);
  }

  /** One block of the copying loop, once it is chosen. */
  method CopyChosen(inf: CachedHandle, outf: CachedHandle, buf: array<byte>, x: nat, b: nat, ghost input: seq<byte>,
                    ghost order: seq<nat>, ghost rest: seq<nat>, ghost rest': seq<nat>)
      returns (amount: nat)
    requires Between(inf, outf, input, b, order, rest) && multiset(rest) == multiset(rest') + multiset{x}
    requires b <= buf.Length && buf != inf.cbuf && buf != outf.cbuf
    modifies inf, inf.file, inf.cbuf, outf, outf.file, outf.cbuf, buf
    ensures amount > 0 && Between(inf, outf, input, b, order + [x], rest')
  {
    assert b > 0 && multiset(order) + multiset(rest) == multiset(Numbers(|input| / b));
    InsideFile(input, b, order, rest, x, rest');
    var pos := Start(x, b);
    ghost var lo := Target(pos, outf.counter, outf.size);
    ghost var out, head, counter, stale := outf.Written(), outf.cbuf[0], outf.counter, outf.cbuf[..pos - lo];
    hide Progress, TwoBytes, Target, ToInt, Start, WriteAt, Slice, LastChunk;
    amount := MoveBlock(inf, outf, buf, pos, b);
    assert StepOf(input, out, head, counter, outf.size, b, x, stale, outf.Written(), outf.cbuf[0]);
    hide StepOf;
    TwoBytesNext(input, out, head, counter, outf.size, b, order, rest, x, rest', stale, outf.Written(), outf.cbuf[0]);
    ProgressStep(input, out, head, counter, outf.size, b, order, rest, x, rest', stale, outf.Written(), outf.cbuf[0]);
  }

  /** The copying loop of `reordercat61` over io61.c. */
  method MoveBlocks(inf: CachedHandle, outf: CachedHandle, blockpos: array<nat>, blockSize: nat, randoms: seq<nat>,
                    ghost input: seq<byte>, ghost all: seq<nat>)
      returns (ghost order: seq<nat>)
    requires Between(inf, outf, input, blockSize, [], blockpos[..]) && Drawing(all, [], blockpos[..], randoms)
    modifies inf, inf.file, inf.cbuf, outf, outf.file, outf.cbuf, blockpos
    ensures Between(inf, outf, input, blockSize, order, []) && Drawing(all, order, [], randoms)
  {
    hide *;
    order := [];
    var nblocks := blockpos.Length;
    assert blockpos[..nblocks] == blockpos[..];
    var buf := new byte[blockSize];
    while nblocks != 0
      invariant nblocks <= blockpos.Length
      invariant Drawing(all, order, blockpos[..nblocks], randoms)
      invariant Between(inf, outf, input, blockSize, order, blockpos[..nblocks])
    {
      ghost var rest := blockpos[..nblocks];
      var x := DrawBlock(blockpos, nblocks, randoms, all, order);
      nblocks := nblocks - 1;
      var amount := CopyChosen(inf, outf, buf, x, blockSize, input, order, rest, blockpos[..nblocks]);
      order := order + [x];
      if amount <= 0 { break; }
    }
    assert blockpos[..nblocks] == [];
  }

  /** `reordercat61` over io61.c, for every first value of `counter` and all
      random numbers: the output is the input when every output seek is
      sound; when only the last one need not be, but is not, one byte of the
      output is a stale one. */
  method ReorderCached(inf: CachedHandle, outf: CachedHandle, blockSize: nat, randoms: seq<nat>)
      returns (ok: bool, ghost order: seq<nat>)
    requires inf.Reading(inf.cbuf) && outf.Writing() && outf.Written() == [] && blockSize > 0
    requires inf != outf && inf.file != outf.file && inf.cbuf != outf.cbuf && |randoms| == |inf.file.bytes| / blockSize
    modifies inf, inf.file, inf.cbuf, outf, outf.file, outf.cbuf
    ensures inf.file.bytes == old(inf.file.bytes)
    ensures ok <==> |inf.file.bytes| % blockSize == 0 && |inf.file.bytes| / blockSize <= MAX_BLOCKS
    ensures ok ==> order == Order(Numbers(|inf.file.bytes| / blockSize), randoms)
    ensures ok && (AllSound(order, blockSize, outf.size) || (blockSize == 1 && |inf.file.bytes| == 2)) ==>
      outf.file.bytes == inf.file.bytes
    ensures ok && BadLast(order, blockSize, outf.size) ==>
      Spoilt(inf.file.bytes, outf.file.bytes, SpoiltAt(order, blockSize, outf.size),
        SpoiltBy(order, blockSize, outf.size))
  {
    hide WriteAt, Slice;
    order := [];
    ghost var input := inf.file.bytes;
    SeekForward(inf, 0);
    SeekSound(outf, 0);
    var nblocks, blockpos;
    ok, nblocks, blockpos := Blocks(|inf.file.bytes|, blockSize);
    if !ok { return; }
    ProgressStart(input, outf.cbuf[0], outf.size, blockSize);
    DrawStart(Numbers(nblocks), randoms);
    hide *;
    order := MoveBlocks(inf, outf, blockpos, blockSize, randoms, input, Order(Numbers(nblocks), randoms));
    DrawEnd(Order(Numbers(nblocks), randoms), order, randoms);
    FinishCached(inf, outf, input, blockSize, order);
  }

  method FinishCached(inf: CachedHandle, outf: CachedHandle, ghost input: seq<byte>, b: nat, ghost order: seq<nat>)
    requires Between(inf, outf, input, b, order, [])
    modifies outf, outf.file
    ensures inf.file.bytes == input && b > 0 && outf.size > 0
    ensures AllSound(order, b, outf.size) || (b == 1 && |input| == 2) ==> outf.file.bytes == input
    ensures BadLast(order, b, outf.size) ==>
      Spoilt(input, outf.file.bytes, SpoiltAt(order, b, outf.size), SpoiltBy(order, b, outf.size))
  {
    hide Progress, TwoBytes, AllSound, BadLast, WriteAt, Spoilt;
    ProgressEnd(input, outf.Written(), outf.cbuf[0], outf.counter, outf.size, b, order);
    outf.CloseBlocks();
  }

  // ---------------------------------------- which block sizes are right

  /** No two of `total` blocks start next to each other modulo 2^32. */
  predicate SafeSteps(total: nat, b: nat) { forall d: nat :: 1 <= d < total ==> Far(Start(d, b)) }

  lemma SafeSeek(x: nat, y: nat, b: nat, total: nat, size: nat)
    requires x < total && y < total && SafeSteps(total, b) && size > 0
    ensures SoundSeek(O_WRONLY, ToInt(Start(x, b)), size, Start(y, b))
  {
    var lo, hi := if x <= y then x else y, if x <= y then y else x;
    MulOrdered(lo, hi, b);
    MulMinus(hi, lo, b);
    assert Start(hi - lo, b) == Start(hi, b) - Start(lo, b);
    assert lo < hi ==> Far(Start(hi - lo, b));
    NeighboursNear(Start(lo, b), Start(hi, b));
  }

  /** Then every order has only sound seeks. */
  lemma SafeOrder(order: seq<nat>, total: nat, b: nat, size: nat)
    requires multiset(order) == multiset(Numbers(total)) && SafeSteps(total, b) && size > 0
    ensures AllSound(order, b, size)
  {
    forall k: nat | k < |order| ensures SoundInto(order, k, b, size) {
      forall j: nat | j < |order| ensures order[j] < total {
        assert order[j] in multiset(order);
        assert order[j] in multiset(Numbers(total));
      }
      assert Before(order, k) < total;
      hide *;
      SafeSeek(Before(order, k), order[k], b, total, size);
      SoundByName(order, k, b, size);
    }
  }

  lemma SoundByName(order: seq<nat>, k: nat, b: nat, size: nat)
    requires k < |order| && size > 0 && SoundSeek(O_WRONLY, ToInt(Start(Before(order, k), b)), size, Start(order[k], b))
    ensures SoundInto(order, k, b, size)
  {
  }

  lemma EvenSafe(total: nat, b: nat)
    requires b % 2 == 0
    ensures SafeSteps(total, b)
  {
    forall d: nat | 1 <= d < total ensures Far(Start(d, b)) {
      var c := b / 2;
      assert d * b == (d * c) * 2;
      MulOrdered(0, d, c);
      EvenFar(d * c);
    }
  }

  lemma EvenFar(h: nat)
    ensures Far(h * 2)
  {
  }

  /** Files below 4 GB in blocks of two bytes or more. */
  lemma SmallSafe(total: nat, b: nat)
    requires b >= 2 && Start(total, b) < 0x1_0000_0000
    ensures SafeSteps(total, b)
  {
  }

  /** A file just over 4 GB, within the driver's limit, in blocks of 257. */
  lemma LargeUnsafe()
    ensures 16711936 <= MAX_BLOCKS && !SafeSteps(16711936, 257)
  {
    assert Start(16711935, 257) == 0xFFFF_FFFF;
    assert !Far(0xFFFF_FFFF);
  }

  lemma AwayFromBlock(p: nat, size: nat)
    requires !Far(p) && 2 <= size && 0x1_0000_0000 % size == 0
    ensures p % size == 1 || p % size == size - 1
  {
    var c, k := 0x1_0000_0000 / size, p / 0x1_0000_0000;
    assert 0x1_0000_0000 == c * size;
    assert k * (c * size) == (k * c) * size;
    if p % 0x1_0000_0000 == 1 {
      ModUnique(size, k * c, 1, p);
    } else {
      assert (k * c + c - 1) * size == (k * c) * size + c * size - size;
      ModUnique(size, k * c + c - 1, size - 1, p);
    }
  }

  /** The seek from block 0 to an unsafe block, and what it spoils. */
  lemma UnsafeSeek(d: nat, b: nat, size: nat)
    requires d >= 1 && 2 <= b < 0xFFFF_FFFF && !Far(Start(d, b))
    requires 2 <= size < 0x1_0000_0000 && 0x1_0000_0000 % size == 0
    ensures !SoundSeek(O_WRONLY, ToInt(0), size, Start(d, b))
    ensures Aligned(Start(d, b), size) != LastChunk(b, size)
  {
    var p := Start(d, b);
    AwayFromBlock(p, size);
    HalfAtMost(size);
    assert d == 1 ==> p == b;
    if d > 1 { MulOrdered(2, d, b); }
  }

  lemma HalfAtMost(size: nat)
    requires 2 <= size < 0x1_0000_0000 && 0x1_0000_0000 % size == 0
    ensures size <= 0x8000_0000
  {
  }

  lemma SplitNumbers(total: nat, d: nat)
    requires 1 <= d < total
    ensures multiset(Numbers(total)) == multiset(Numbers(total)[1..d] + Numbers(total)[d + 1..] + [0] + [d])
  {
    var numbers := Numbers(total);
    assert numbers == [0] + numbers[1..d] + [d] + numbers[d + 1..];
  }

  lemma SplitBytes(total: nat)
    requires total > 2
    ensures multiset(Numbers(total)) == multiset(Numbers(total)[3..] + [0] + [2] + [1])
  {
    var numbers := Numbers(total);
    assert numbers == [0] + [1] + [2] + numbers[3..];
  }

  /** An order that goes wrong: the unsafe block last, behind block 0; or,
      for single bytes, block 1 behind block 2. */
  method BadOrder(total: nat, b: nat, size: nat) returns (order: seq<nat>)
    requires 1 <= b < 0xFFFF_FFFF && 2 <= size < 0x1_0000_0000 && 0x1_0000_0000 % size == 0
    requires !SafeSteps(total, b) && !(b == 1 && total == 2)
    ensures multiset(order) == multiset(Numbers(total)) && BadLast(order, b, size)
    ensures SpoiltAt(order, b, size) != SpoiltBy(order, b, size)
  {
    var numbers := Numbers(total);
    var d: nat :| 1 <= d < total && !Far(Start(d, b));
    hide *;
    if b == 1 {
      order := numbers[3..] + [0] + [2] + [1];
      SplitBytes(total);
      BadBytes(order, size);
    } else {
      order := numbers[1..d] + numbers[d + 1..] + [0] + [d];
      SplitNumbers(total, d);
      BadBlocks(order, d, b, size);
    }
  }

  lemma BadBlocks(order: seq<nat>, d: nat, b: nat, size: nat)
    requires |order| >= 2 && order[|order| - 2] == 0 && order[|order| - 1] == d >= 1
    requires 2 <= b < 0xFFFF_FFFF && !Far(Start(d, b)) && 2 <= size < 0x1_0000_0000 && 0x1_0000_0000 % size == 0
    ensures BadLast(order, b, size) && SpoiltAt(order, b, size) != SpoiltBy(order, b, size)
  {
    assert Start(0, b) == 0;
    UnsafeSeek(d, b, size);
    SmallMod(0, size);
    hide ToInt, Aligned, Adjacent;
  }

  lemma BadBytes(order: seq<nat>, size: nat)
    requires |order| >= 3 && order[|order| - 3] == 0 && order[|order| - 2] == 2 && order[|order| - 1] == 1 && size >= 2
    ensures BadLast(order, 1, size) && SpoiltAt(order, 1, size) != SpoiltBy(order, 1, size)
  {
  }

  /** The driver on freshly opened handles: right for all random numbers and
      every first `counter` when no two blocks start next to each other
      modulo 2^32, and for two blocks of one byte. */
  method ReorderFresh(input: seq<byte>, b: nat, size: nat, counter: int, randoms: seq<nat>) returns (output: seq<byte>)
    requires b > 0 && size > 0 && |input| % b == 0 && |input| / b <= MAX_BLOCKS && |randoms| == |input| / b
    ensures SafeSteps(|input| / b, b) || (b == 1 && |input| == 2) ==> output == input
    ensures var order := Order(Numbers(|input| / b), randoms);
      BadLast(order, b, size) ==> Spoilt(input, output, SpoiltAt(order, b, size), SpoiltBy(order, b, size))
  {
    var from := new File(input, true);
    var to := new File([], true);
    var inf := new CachedHandle(from, O_RDONLY, size, counter);
    var outf := new CachedHandle(to, O_WRONLY, size, counter);
    assert outf.cbuf[..0] == [];
    hide WriteAt;
    WriteNothing(to.bytes, 0);
    hide SafeSteps, BadLast, AllSound, Spoilt, Order;
    var ok, order := ReorderCached(inf, outf, b, randoms);
    output := to.bytes;
    OrderPermutes(Numbers(|input| / b), randoms);
    if SafeSteps(|input| / b, b) { SafeOrder(order, |input| / b, b, size); }
  }

  /** For every other block size there are a file and random numbers for
      which the output is not the input. */
  method ReorderWrong(total: nat, b: nat, size: nat, counter: int) returns (input: seq<byte>, output: seq<byte>)
    requires 1 <= b < 0xFFFF_FFFF && 2 <= size < 0x1_0000_0000 && 0x1_0000_0000 % size == 0
    requires total <= MAX_BLOCKS && !SafeSteps(total, b) && !(b == 1 && total == 2)
    ensures |input| == Start(total, b) && output != input
  {
    var order := BadOrder(total, b, size);
    var randoms := EveryOrder(order, Numbers(total));
    var lo, from := SpoiltAt(order, b, size), SpoiltBy(order, b, size);
    var n := Start(total, b);
    ModUnique(b, total, 0, n);
    input := Zeros(n);
    if lo < n { input := input[lo := 1]; }
    hide SafeSteps, BadLast, Order, SpoiltAt, SpoiltBy;
    output := ReorderFresh(input, b, size, counter, randoms);
    assert Spoilt(input, output, lo, from);
  }
}

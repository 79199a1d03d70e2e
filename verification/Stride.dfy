/** pset3/stridecat61.c and pset3/ostridecat61.c: copying in a strided order,
    by reading in strides or by writing in strides. */
module Stride {
  import opened Basics
  import opened Io61
  import opened Modular
  import opened OsFile
  import opened SlowIo61

  // ------------------------------------------------------ the strided order

  /** The width of the column of blocks that starts at `c`. */
  function Width(t: nat, b: nat, c: nat): nat
    requires c <= t
  {
    Min(b, t - c)
  }

  function Range(lo: nat, hi: nat): (s: seq<nat>)
    requires lo <= hi
    ensures |s| == hi - lo && forall k :: 0 <= k < |s| ==> s[k] == lo + k
  {
    seq(hi - lo, k => lo + k)
  }

  /** The indices still to be visited from block position `pos` in the column
      at `c`: down the column, then on to the next column. */
  function Visit(n: nat, t: nat, b: nat, pos: nat, c: nat): seq<nat>
    requires b > 0 && c <= pos
    decreases if c < t then t - c else 0, if pos < n then n - pos else 0
  {
    if c >= t then []
    else if pos < n then Range(pos, Min(pos + Width(t, b, c), n)) + Visit(n, t, b, pos + t, c)
    else if pos == c then []
    else Visit(n, t, b, c + Width(t, b, c), c + Width(t, b, c))
  }

  /** Index `i` has been visited before the block at `pos` in column `c`. */
  predicate Done(t: nat, b: nat, pos: nat, c: nat, i: nat)
    requires t > 0 && c <= t
  {
    i % t < c || (i % t < c + Width(t, b, c) && i < pos)
  }

  predicate At(t: nat, pos: nat, c: nat)
  {
    0 < t && c <= pos && c <= t && (c < t ==> pos % t == c) && (c == t ==> pos == t)
  }

  /** The indices of a block are those of its column and row. */
  lemma BlockMember(n: nat, t: nat, b: nat, pos: nat, c: nat, i: nat)
    requires b > 0 && At(t, pos, c) && c < t && pos < n
    ensures i in Range(pos, Min(pos + Width(t, b, c), n)) <==>
      i < n && !Done(t, b, pos, c, i) && Done(t, b, pos + t, c, i)
  {
    var w := Width(t, b, c);
    if pos <= i < pos + w {
      ModShift(t, pos, i - pos);
      if i < n { assert Range(pos, Min(pos + w, n))[i - pos] == i; }
    } else if pos + w <= i < pos + t && c <= i % t < c + w {
      ModShift(t, pos, i % t - c);
      ModClose(t, pos + (i % t - c), i);
      assert false;
    }
  }

  /** Going on to the next column. */
  lemma DoneNextColumn(n: nat, t: nat, b: nat, pos: nat, c: nat, i: nat)
    requires b > 0 && At(t, pos, c) && c < t && n <= pos && i < n
    ensures var d := c + Width(t, b, c); Done(t, b, pos, c, i) <==> Done(t, b, d, d, i)
  {
    if i < t { ModUnique(t, 0, i, i); }
  }

  lemma NewColumn(t: nat, b: nat, pos: nat, c: nat)
    requires b > 0 && At(t, pos, c) && c < t
    ensures At(t, pos + t, c) && At(t, c + Width(t, b, c), c + Width(t, b, c))
  {
    ModStride(t, pos);
    var d := c + Width(t, b, c);
    if d < t { ModUnique(t, 0, d, d); }
  }

  /** The ends of the order: everything done, or a column past the file. */
  lemma DoneAtEnd(n: nat, t: nat, b: nat, pos: nat, c: nat, i: nat)
    requires At(t, pos, c) && (c == t || (n <= pos && pos == c)) && i < n
    ensures Done(t, b, pos, c, i)
  {
  }

  /** What is visited from here is exactly what has not been visited. */
  lemma {:induction false} VisitMember(n: nat, t: nat, b: nat, pos: nat, c: nat, i: nat)
    requires b > 0 && At(t, pos, c)
    ensures i in Visit(n, t, b, pos, c) <==> i < n && !Done(t, b, pos, c, i)
    decreases if c < t then t - c else 0, if pos < n then n - pos else 0
  {
    if c == t || (n <= pos && pos == c) {
      if i < n { DoneAtEnd(n, t, b, pos, c, i); }
    } else {
      NewColumn(t, b, pos, c);
      VisitNext(n, t, b, pos, c);
      hide Visit, Done, At, Range;
      if pos < n {
        VisitMember(n, t, b, pos + t, c, i);
        BlockMember(n, t, b, pos, c, i);
        DoneDown(t, b, pos, c, i);
      } else {
        var d := c + Width(t, b, c);
        VisitMember(n, t, b, d, d, i);
        if i < n { DoneNextColumn(n, t, b, pos, c, i); }
      }
    }
  }

  lemma VisitNext(n: nat, t: nat, b: nat, pos: nat, c: nat)
    requires b > 0 && c <= pos && c < t && (pos < n || pos != c)
    ensures Visit(n, t, b, pos, c) ==
      if pos < n then Range(pos, Min(pos + Width(t, b, c), n)) + Visit(n, t, b, pos + t, c)
      else Visit(n, t, b, c + Width(t, b, c), c + Width(t, b, c))
  {
  }

  lemma DoneDown(t: nat, b: nat, pos: nat, c: nat, i: nat)
    requires t > 0 && c <= t
    ensures Done(t, b, pos, c, i) ==> Done(t, b, pos + t, c, i)
  {
  }

  predicate Distinct(s: seq<nat>) { forall j, k :: 0 <= j < k < |s| ==> s[j] != s[k] }

  lemma DistinctAppend(a: seq<nat>, b: seq<nat>)
    requires Distinct(a) && Distinct(b) && forall x :: x in a ==> x !in b
    ensures Distinct(a + b)
  {
    forall j, k | 0 <= j < k < |a + b| ensures (a + b)[j] != (a + b)[k] {
      assert j < |a| <= k ==> a[j] in a && b[k - |a|] in b;
    }
  }

  /** No index is visited twice. */
  lemma {:induction false} VisitDistinct(n: nat, t: nat, b: nat, pos: nat, c: nat)
    requires b > 0 && At(t, pos, c)
    ensures Distinct(Visit(n, t, b, pos, c))
    decreases if c < t then t - c else 0, if pos < n then n - pos else 0
  {
    if c == t || (n <= pos && pos == c) {
    } else {
      NewColumn(t, b, pos, c);
      if pos < n {
        VisitDistinct(n, t, b, pos + t, c);
        var block, rest := Range(pos, Min(pos + Width(t, b, c), n)), Visit(n, t, b, pos + t, c);
        forall x | x in block ensures x !in rest {
          BlockMember(n, t, b, pos, c, x);
          VisitMember(n, t, b, pos + t, c, x);
        }
        DistinctAppend(block, rest);
      } else {
        var d := c + Width(t, b, c);
        VisitDistinct(n, t, b, d, d);
      }
    }
  }

  // ------------------------------------------------------------- the order

  /** `x` comes before `y`: in an earlier column of blocks, or in the same one
      and further up or to the left. */
  predicate Before(t: nat, b: nat, x: nat, y: nat)
    requires t > 0 && b > 0
  {
    x % t / b < y % t / b || (x % t / b == y % t / b && x < y)
  }

  predicate InOrder(t: nat, b: nat, s: seq<nat>)
    requires t > 0 && b > 0
  {
    forall j, k :: 0 <= j < k < |s| ==> Before(t, b, s[j], s[k])
  }

  lemma OrderAppend(t: nat, b: nat, x: seq<nat>, y: seq<nat>)
    requires t > 0 && b > 0 && InOrder(t, b, x) && InOrder(t, b, y)
    requires forall i, j :: i in x && j in y ==> Before(t, b, i, j)
    ensures InOrder(t, b, x + y)
  {
    forall j, k | 0 <= j < k < |x + y| ensures Before(t, b, (x + y)[j], (x + y)[k]) {
      assert j < |x| <= k ==> x[j] in x && y[k - |x|] in y;
      hide Before;
    }
  }

  lemma ColumnOf(b: nat, c: nat, r: nat)
    requires b > 0 && c % b == 0 && c <= r
    ensures if r < c + b then r / b == c / b else r / b > c / b
  {
    if r < c + b {
      ModUnique(b, c / b, r - c, r);
    } else {
      var q := r / b;
      assert r == q * b + r % b;
      if q <= c / b { MulOrdered(q, c / b, b); }
    }
  }

  /** A block, in order and before what is visited after it. */
  lemma BlockBefore(n: nat, t: nat, b: nat, pos: nat, c: nat)
    requires b > 0 && At(t, pos, c) && c < t && c % b == 0 && pos < n
    ensures var block := Range(pos, Min(pos + Width(t, b, c), n));
      InOrder(t, b, block)
      && forall x, y :: x in block && y in Visit(n, t, b, pos + t, c) ==> Before(t, b, x, y)
  {
    var w := Width(t, b, c);
    var block, rest := Range(pos, Min(pos + w, n)), Visit(n, t, b, pos + t, c);
    NewColumn(t, b, pos, c);
    forall x | x in block ensures pos <= x < pos + w && x % t / b == c / b {
      ModShift(t, pos, x - pos);
      ColumnOf(b, c, x % t);
    }
    forall j, k | 0 <= j < k < |block| ensures Before(t, b, block[j], block[k]) {
      assert block[j] in block && block[k] in block;
    }
    forall x, y | x in block && y in rest ensures Before(t, b, x, y) {
      VisitMember(n, t, b, pos + t, c, y);
      assert c <= y % t;
      ColumnOf(b, c, y % t);
      hide Visit;
    }
  }

  /** The order is by columns of blocks, and down each column. */
  lemma {:induction false} VisitInOrder(n: nat, t: nat, b: nat, pos: nat, c: nat)
    requires 0 < b && At(t, pos, c) && (c < t ==> c % b == 0)
    ensures InOrder(t, b, Visit(n, t, b, pos, c))
    decreases if c < t then t - c else 0, if pos < n then n - pos else 0
  {
    if c == t || (n <= pos && pos == c) {
    } else {
      NewColumn(t, b, pos, c);
      if pos < n {
        VisitInOrder(n, t, b, pos + t, c);
        BlockBefore(n, t, b, pos, c);
        hide InOrder, Before, At;
        OrderAppend(t, b, Range(pos, Min(pos + Width(t, b, c), n)), Visit(n, t, b, pos + t, c));
      } else {
        var d := c + Width(t, b, c);
        if d < t { ModStride(b, c); }
        VisitInOrder(n, t, b, d, d);
      }
    }
  }

  // -------------------------------------------------------------- counting

  function Elements(s: seq<nat>): set<nat> { set i | i in s }

  lemma {:induction false} DistinctSize(s: seq<nat>)
    requires Distinct(s)
    ensures |Elements(s)| == |s|
  {
    if s == [] {
      assert Elements(s) == {};
    } else {
      DistinctSize(s[1..]);
      assert Elements(s) == {s[0]} + Elements(s[1..]);
    }
  }

  /** The strided order is a permutation of all indices below `n`. */
  lemma VisitPermutation(n: nat, t: nat, b: nat)
    requires 0 < b <= t
    ensures var s := Visit(n, t, b, 0, 0); |s| == n && Distinct(s) && InOrder(t, b, s) && forall i: nat :: i in s <==>
      i < n
  {
    var s := Visit(n, t, b, 0, 0);
    ModUnique(t, 0, 0, 0);
    VisitDistinct(n, t, b, 0, 0);
    ModUnique(b, 0, 0, 0);
    VisitInOrder(n, t, b, 0, 0);
    hide InOrder, Before;
    forall i: nat ensures i in s <==> i < n { VisitMember(n, t, b, 0, 0, i); }
    DistinctSize(s);
    DistinctSize(Range(0, n));
    forall i: nat ensures i in Range(0, n) <==> i < n { assert i < n ==> Range(0, n)[i] == i; }
    assert Elements(s) == Elements(Range(0, n));
  }

  // ----------------------------------------------------------- stridecat61

  /** `order` only names bytes of the file. */
  predicate Within(n: nat, order: seq<nat>) { forall k :: 0 <= k < |order| ==> order[k] < n }

  function Pick(bytes: seq<byte>, order: seq<nat>): (s: seq<byte>)
    requires Within(|bytes|, order)
    ensures |s| == |order| && forall k :: 0 <= k < |s| ==> s[k] == bytes[order[k]]
  {
    seq(|order|, k requires 0 <= k < |order| => bytes[order[k]])
  }

  lemma VisitWithin(n: nat, t: nat, b: nat, pos: nat, c: nat)
    requires b > 0 && At(t, pos, c)
    ensures Within(n, Visit(n, t, b, pos, c))
  {
    var s := Visit(n, t, b, pos, c);
    forall k | 0 <= k < |s| ensures s[k] < n {
      assert s[k] in s;
      VisitMember(n, t, b, pos, c, s[k]);
    }
  }

  /** The position after a block, as the driver computes it. */
  function NextPos(n: nat, t: nat, pos: nat, w: nat): nat
    requires t > 0
  {
    if pos + t >= n then (pos + t) % t + w else pos + t
  }

  function NextColumn(n: nat, t: nat, pos: nat, c: nat, w: nat): nat { if pos + t >= n then c + w else c }

  function NextWidth(n: nat, t: nat, pos: nat, w: nat): int
    requires t > 0
  {
    if pos + t >= n && NextPos(n, t, pos, w) + w > t then t - NextPos(n, t, pos, w) else w
  }

  /** The block position names its column, and is inside the file unless it
      is the head of a column that starts past its end. */
  predicate Head(n: nat, t: nat, b: nat, pos: nat, c: nat) {
    At(t, pos, c) && 0 < b && (pos < n || pos == c) && (c < t ==> c % b == 0)
  }

  /** One step of the order; the stride never gets below the position. */
  lemma VisitStep(n: nat, t: nat, b: nat, pos: nat, c: nat)
    requires Head(n, t, b, pos, c) && Visit(n, t, b, pos, c) != []
    ensures c < t && pos < n && Width(t, b, c) > 0
    ensures var w := Width(t, b, c);
      var pos', c' := NextPos(n, t, pos, w), NextColumn(n, t, pos, c, w);
      Head(n, t, b, pos', c') && NextWidth(n, t, pos, w) == Width(t, b, c')
      && Visit(n, t, b, pos, c) == Range(pos, Min(pos + w, n)) + Visit(n, t, b, pos', c')
      && Visit(n, t, b, pos', c') == Visit(n, t, b, pos + t, c)
  {
    var w := Width(t, b, c);
    ModStride(t, pos);
    if pos + t >= n {
      var d := c + w;
      if d < t {
        ModUnique(t, 0, d, d);
        ModStride(b, c);
      }
    }
  }

  /** Copying one block: the file so far, and what is still to come. */
  lemma CopiedBlock(bytes: seq<byte>, out: seq<byte>, block: seq<byte>, rest: seq<nat>, pos: nat, w: nat)
    requires pos < |bytes| && block == Slice(bytes, pos, w) && Within(|bytes|, rest)
    ensures Within(|bytes|, Range(pos, Min(pos + w, |bytes|)) + rest)
    ensures |block| == |Range(pos, Min(pos + w, |bytes|))|
    ensures WriteAt(out, |out|, block) + Pick(bytes, rest)
      == out + Pick(bytes, Range(pos, Min(pos + w, |bytes|)) + rest)
  {
  }

  /** Copying a block: `io61_read`, then `io61_write` of what was read. */
  method CopyBlock(inf: CachedHandle, outf: CachedHandle, buf: array<byte>, n: nat) returns (amount: nat)
    requires inf.Reading(inf.cbuf) && outf.Writing() && n <= buf.Length
    requires inf != outf && inf.file != outf.file && inf.cbuf != outf.cbuf && buf != inf.cbuf && buf != outf.cbuf
    modifies inf, inf.file, inf.cbuf, outf, outf.file, outf.cbuf, buf
    ensures inf.Reading(inf.cbuf) && inf.file.bytes == old(inf.file.bytes)
    ensures amount == |Slice(inf.file.bytes, old(inf.posTag), n)|
    ensures outf.Writing() && outf.posTag == old(outf.posTag) + amount
    ensures outf.Written() == WriteAt(old(outf.Written()), old(outf.posTag), Slice(inf.file.bytes, old(inf.posTag), n))
  {
    hide WriteAt, Slice;
    amount := inf.Read(buf, n);
    if amount > 0 {
      var m := outf.Write(buf, amount);
    } else {
      WriteNothing(outf.Written(), outf.posTag);
    }
  }

  /** Moving to the next stride, in both programs; `stride - pos` does not
      go below zero. */
  method Advance(inputSize: nat, stride: nat, pos0: nat, blockSize0: nat) returns (pos: nat, blockSize: nat)
    requires stride > 0 && NextWidth(inputSize, stride, pos0, blockSize0) >= 0
    ensures pos == NextPos(inputSize, stride, pos0, blockSize0)
    ensures blockSize == NextWidth(inputSize, stride, pos0, blockSize0)
  {
    pos, blockSize := pos0 + stride, blockSize0;
    if pos >= inputSize {
      pos := pos % stride + blockSize;
      if pos + blockSize > stride {
        blockSize := stride - pos;
      }
    }
  }

  lemma HeadAt(n: nat, t: nat, b: nat, pos: nat, c: nat)
    requires Head(n, t, b, pos, c)
    ensures At(t, pos, c) && 0 < b && c <= pos && c <= t
  {
  }

  lemma StartCopying(bytes: seq<byte>, t: nat, b: nat)
    requires 0 < b <= t
    ensures Head(|bytes|, t, b, 0, 0) && Width(t, b, 0) == b && Copying(bytes, t, b, 0, 0, [])
  {
    VisitPermutation(|bytes|, t, b);
    ModUnique(t, 0, 0, 0);
    ModUnique(b, 0, 0, 0);
    VisitWithin(|bytes|, t, b, 0, 0);
  }

  /** `stridecat61`: the output is the input in the strided order. */
  method Stridecat(inf: CachedHandle, outf: CachedHandle, stride: nat, blockSize0: nat)
    requires inf.Reading(inf.cbuf) && outf.Writing() && outf.Written() == [] && outf.posTag == 0
    requires inf != outf && inf.file != outf.file && inf.cbuf != outf.cbuf
    requires 0 < blockSize0 <= stride
    modifies inf, inf.file, inf.cbuf, outf, outf.file, outf.cbuf
    ensures Within(|old(inf.file.bytes)|, Visit(|old(inf.file.bytes)|, stride, blockSize0, 0, 0))
    ensures outf.file.bytes == Pick(old(inf.file.bytes), Visit(|old(inf.file.bytes)|, stride, blockSize0, 0, 0))
  {
    ghost var bytes := inf.file.bytes;
    var inputSize := |inf.file.bytes|;
    ghost var n, t, b := inputSize, stride, blockSize0;
    StartCopying(bytes, t, b);
    hide WriteAt, Slice, Visit, At, Range, Distinct, Within, Copying, Head, NextPos, NextColumn, NextWidth, Width;
    hide CachedHandle.Written, Pick;
    var buf := new byte[blockSize0];
    var blockSize: nat, pos: nat, written: nat := blockSize0, 0, 0;
    ghost var c: nat := 0;
    SeekForward(inf, 0);
    while written < inputSize
      invariant Head(n, t, b, pos, c) && blockSize == Width(t, b, c)
      invariant inf.Reading(inf.cbuf) && inf.file.bytes == bytes && inf.posTag == pos
      invariant outf.Writing() && written == outf.posTag
      invariant Copying(bytes, t, b, pos, c, outf.Written())
      invariant written == |outf.Written()|
      decreases inputSize - written
    {
      CopyingStep(bytes, t, b, pos, c, outf.Written());
      ghost var w, c' := blockSize, NextColumn(n, t, pos, c, blockSize);
      var amount := CopyBlock(inf, outf, buf, blockSize);
      if amount <= 0 { break; }
      written := written + amount;
      pos, blockSize := Advance(inputSize, stride, pos, blockSize);
      c := c';
      SeekForward(inf, pos);
    }
    CopyingEnd(bytes, t, b, pos, c, outf.Written());
    outf.CloseBlocks();
  }

  /** `out` followed by what is still to be visited is the whole output. */
  ghost predicate Copying(bytes: seq<byte>, t: nat, b: nat, pos: nat, c: nat, out: seq<byte>) {
    var n := |bytes|;
    b > 0 && c <= pos && Within(n, Visit(n, t, b, pos, c)) && Within(n, Visit(n, t, b, 0, 0))
    && |out| + |Visit(n, t, b, pos, c)| == n
    && out + Pick(bytes, Visit(n, t, b, pos, c)) == Pick(bytes, Visit(n, t, b, 0, 0))
  }

  lemma CopyingStep(bytes: seq<byte>, t: nat, b: nat, pos: nat, c: nat, out: seq<byte>)
    requires Head(|bytes|, t, b, pos, c) && Copying(bytes, t, b, pos, c, out) && |out| < |bytes|
    ensures c < t && pos < |bytes| && 0 < |Slice(bytes, pos, Width(t, b, c))| <= Width(t, b, c)
    ensures var w := Width(t, b, c);
      var pos', c' := NextPos(|bytes|, t, pos, w), NextColumn(|bytes|, t, pos, c, w);
      Head(|bytes|, t, b, pos', c') && NextWidth(|bytes|, t, pos, w) == Width(t, b, c')
      && Copying(bytes, t, b, pos', c', WriteAt(out, |out|, Slice(bytes, pos, w)))
      && |WriteAt(out, |out|, Slice(bytes, pos, w))| == |out| + |Slice(bytes, pos, w)|
  {
    hide Visit, At, Slice, WriteAt, Range, Within, Head, NextPos, NextColumn, NextWidth, Width;
    var n := |bytes|;
    VisitStep(n, t, b, pos, c);
    var w := Width(t, b, c);
    var pos', c' := NextPos(n, t, pos, w), NextColumn(n, t, pos, c, w);
    HeadAt(n, t, b, pos', c');
    VisitWithin(n, t, b, pos', c');
    var rest := Visit(n, t, b, pos', c');
    CopiedBlock(bytes, out, Slice(bytes, pos, w), rest, pos, w);
    Append(out, Slice(bytes, pos, w));
  }

  lemma CopyingEnd(bytes: seq<byte>, t: nat, b: nat, pos: nat, c: nat, out: seq<byte>)
    requires Copying(bytes, t, b, pos, c, out) && |out| >= |bytes|
    ensures Within(|bytes|, Visit(|bytes|, t, b, 0, 0))
    ensures out == Pick(bytes, Visit(|bytes|, t, b, 0, 0))
  {
  }

  // ---------------------------------------------------------- ostridecat61

  /** The last row ends inside a block that is not in the last column. */
  predicate Ragged(n: nat, t: nat, b: nat)
    requires 0 < b <= t
  {
    var m := n % t;
    n >= t && m % b != 0 && m - m % b + b < t
  }

  /** `out` agrees with `orig` on everything visited, and is not longer. */
  ghost predicate Restored(orig: seq<byte>, out: seq<byte>, t: nat, b: nat, pos: nat, c: nat) {
    0 < t && c <= t && |out| <= |orig|
    && forall i: nat :: i < |orig| && Done(t, b, pos, c, i) ==> Same(orig, out, i)
  }

  lemma SameAfter(orig: seq<byte>, out: seq<byte>, pos: nat, hi: nat, i: nat)
    requires pos < hi <= |orig| && i < |orig| && (Same(orig, out, i) || pos <= i < hi)
    ensures Same(orig, WriteAt(out, pos, orig[pos..hi]), i)
  {
  }

  /** Writing back a whole block. */
  lemma RestoreBlock(orig: seq<byte>, out: seq<byte>, t: nat, b: nat, pos: nat, c: nat)
    requires b > 0 && At(t, pos, c) && c < t && pos < |orig| && Restored(orig, out, t, b, pos, c)
    ensures Restored(orig, WriteAt(out, pos, orig[pos..Min(pos + Width(t, b, c), |orig|)]), t, b, pos + t, c)
  {
    var hi := Min(pos + Width(t, b, c), |orig|);
    var out' := WriteAt(out, pos, orig[pos..hi]);
    WriteAtByte(out, pos, orig[pos..hi], 0);
    hide WriteAt, Done, Same;
    forall i: nat | i < |orig| && Done(t, b, pos + t, c, i)
      ensures Same(orig, out', i)
    {
      BlockMember(|orig|, t, b, pos, c, i);
      SameAfter(orig, out, pos, hi, i);
    }
  }

  /** Without a ragged edge a block is cut short only when nothing follows. */
  lemma WholeBlocks(n: nat, t: nat, b: nat, pos: nat, c: nat)
    requires Head(n, t, b, pos, c) && b <= t && c < t && pos < n && !Ragged(n, t, b)
    ensures pos + Width(t, b, c) <= n || Visit(n, t, b, pos + t, c) == []
  {
    var w, rest := Width(t, b, c), Visit(n, t, b, pos + t, c);
    if pos + w > n && rest != [] {
      var i := rest[0];
      ModStride(t, pos);
      VisitMember(n, t, b, pos + t, c, i);
      assert i in rest && i % t >= c + w;
      assert w == b && c + b < t;
      ModShift(t, pos, n - pos);
      var m := n % t;
      assert m == c + (n - pos);
      ModShift(b, c, n - pos);
      if n < t {
        ModUnique(t, 0, i, i);
        ModUnique(t, 0, pos, pos);
      }
    }
  }

  /** The index at which a ragged edge cuts off a block. */
  function Edge(n: nat, t: nat, b: nat): int
    requires t > 0 && b > 0
  {
    n - n % t % b
  }

  lemma EdgeFacts(n: nat, t: nat, b: nat)
    requires 0 < b <= t && Ragged(n, t, b)
    ensures var e := Edge(n, t, b); 0 <= e < n < e + b && e % t % b == 0 && e % t + b < t && e % t + b < n
  {
    var m := n % t;
    ModBounds(n, t);
    ModBounds(m, b);
    var k := m % b;
    ModUnique(t, n / t, m - k, n - k);
    ModUnique(b, m / b, 0, m - k);
  }

  /** At the ragged edge the block is cut short although more follows. */
  lemma EdgeBlock(n: nat, t: nat, b: nat, pos: nat, c: nat)
    requires Head(n, t, b, pos, c) && b <= t && c < t && pos < n && Ragged(n, t, b)
    requires Edge(n, t, b) >= 0 && Edge(n, t, b) in Range(pos, Min(pos + Width(t, b, c), n))
    ensures pos + Width(t, b, c) > n && Width(t, b, c) == b && Visit(n, t, b, pos + t, c) != []
  {
    EdgeFacts(n, t, b);
    var e: nat := Edge(n, t, b);
    ModShift(t, pos, e - pos);
    var c0 := e % t;
    assert c0 == c + (e - pos);
    if e > pos {
      if e - pos < b { ModShiftBack(b, c, e - pos); }
      assert false;
    }
    ModStride(t, pos);
    ModUnique(t, 0, c + b, c + b);
    VisitMember(n, t, b, pos + t, c, c + b);
  }

  /** Where ostridecat61 stands: either `out` fits in the file, agrees with
      `orig` on everything visited and the ragged edge is still to come, or
      `out` has grown past the file. */
  ghost predicate Restoring(orig: seq<byte>, out: seq<byte>, t: nat, b: nat, pos: nat, c: nat, written: nat) {
    var n := |orig|;
    Head(n, t, b, pos, c) && b <= t && written <= n <= written + |Visit(n, t, b, pos, c)|
    && (|out| > n ==> Ragged(n, t, b))
    && (|out| <= n ==>
          Restored(orig, out, t, b, pos, c) && AtOrder(n, t, b, pos, c, written) && EdgeAhead(n, t, b, pos, c))
  }

  /** Exactly the last `n - written` places of the order are to come. */
  ghost predicate AtOrder(n: nat, t: nat, b: nat, pos: nat, c: nat, written: nat) {
    b > 0 && c <= pos && written <= |Visit(n, t, b, 0, 0)| && Visit(n, t, b, 0, 0)[written..] == Visit(n, t, b, pos, c)
  }

  ghost predicate EdgeAhead(n: nat, t: nat, b: nat, pos: nat, c: nat) {
    0 < b <= t && c <= t && (Ragged(n, t, b) ==> 0 <= Edge(n, t, b) < n && !Done(t, b, pos, c, Edge(n, t, b)))
  }

  /** The block that is written is the one that was read from there, unless
      it runs past the end of the file. */
  lemma BlockRead(orig: seq<byte>, t: nat, b: nat, pos: nat, c: nat, written: nat, block: nat, rest: seq<nat>)
    requires AtOrder(|orig|, t, b, pos, c, written) && Within(|orig|, Visit(|orig|, t, b, 0, 0))
    requires pos < |orig| && block > 0
    requires Visit(|orig|, t, b, pos, c) == Range(pos, Min(pos + block, |orig|)) + rest
    ensures var data := Slice(Pick(orig, Visit(|orig|, t, b, 0, 0)), written, block);
      (pos + block <= |orig| || rest == [] ==> data == orig[pos..Min(pos + block, |orig|)])
      && (pos + block > |orig| && rest != [] ==> pos + |data| > |orig|)
  {
    hide Visit, Pick, Within, Slice, Range;
    var order := Visit(|orig|, t, b, 0, 0);
    assert order == order[..written] + order[written..];
    BlockOf(orig, order[..written], pos, Min(pos + block, |orig|), rest, block);
  }

  /** The bytes that are read after those of `done`. */
  lemma BlockOf(orig: seq<byte>, done: seq<nat>, pos: nat, hi: nat, rest: seq<nat>, block: nat)
    requires pos < hi <= |orig| && hi <= pos + block && Within(|orig|, done + (Range(pos, hi) + rest))
    ensures var data := Slice(Pick(orig, done + (Range(pos, hi) + rest)), |done|, block);
      |data| == Min(block, hi - pos + |rest|) && (block == hi - pos || rest == [] ==> data == orig[pos..hi])
  {
  }

  lemma EdgeStays(n: nat, t: nat, b: nat, pos: nat, c: nat)
    requires Head(n, t, b, pos, c) && c < t && pos < n && EdgeAhead(n, t, b, pos, c)
    requires pos + Width(t, b, c) <= n || Visit(n, t, b, pos + t, c) == []
    ensures EdgeAhead(n, t, b, pos + t, c)
  {
    if Ragged(n, t, b) && Done(t, b, pos + t, c, Edge(n, t, b)) {
      BlockMember(n, t, b, pos, c, Edge(n, t, b));
      EdgeBlock(n, t, b, pos, c);
      assert false;
    }
  }

  /** Nothing changes by going on to the next column. */
  lemma SameColumns(orig: seq<byte>, out: seq<byte>, t: nat, b: nat, pos: nat, c: nat)
    requires b > 0 && At(t, pos, c) && c < t && |orig| <= pos
    requires Restored(orig, out, t, b, pos, c) && EdgeAhead(|orig|, t, b, pos, c)
    ensures var d := c + Width(t, b, c); Restored(orig, out, t, b, d, d) && EdgeAhead(|orig|, t, b, d, d)
  {
    var d := c + Width(t, b, c);
    forall i: nat | i < |orig| && Done(t, b, d, d, i) ensures Same(orig, out, i) {
      DoneNextColumn(|orig|, t, b, pos, c, i);
    }
    if Ragged(|orig|, t, b) { DoneNextColumn(|orig|, t, b, pos, c, Edge(|orig|, t, b)); }
  }

  /** A block that is written where it belongs, or the one at the edge. */
  lemma RestoreNext(orig: seq<byte>, out: seq<byte>, data: seq<byte>, t: nat, b: nat, pos: nat, c: nat)
    requires Head(|orig|, t, b, pos, c) && b <= t && c < t && pos < |orig| && |out| <= |orig| && data != []
    requires Restored(orig, out, t, b, pos, c) && EdgeAhead(|orig|, t, b, pos, c)
    requires var v := Min(pos + Width(t, b, c), |orig|);
      (pos + Width(t, b, c) <= |orig| || Visit(|orig|, t, b, pos + t, c) == [] ==> data == orig[pos..v])
      && (pos + Width(t, b, c) > |orig| && Visit(|orig|, t, b, pos + t, c) != [] ==> pos + |data| > |orig|)
    ensures var out' := WriteAt(out, pos, data);
      (|out'| > |orig| ==> Ragged(|orig|, t, b))
      && (|out'| <= |orig| ==> Restored(orig, out', t, b, pos + t, c) && EdgeAhead(|orig|, t, b, pos + t, c))
  {
    WriteAtByte(out, pos, data, 0);
    hide Visit, WriteAt, Edge, Ragged, Done;
    if pos + Width(t, b, c) <= |orig| || Visit(|orig|, t, b, pos + t, c) == [] {
      RestoreBlock(orig, out, t, b, pos, c);
      EdgeStays(|orig|, t, b, pos, c);
    } else if !Ragged(|orig|, t, b) {
      WholeBlocks(|orig|, t, b, pos, c);
    }
  }

  /** One block of ostridecat61. */
  lemma RestoringStep(orig: seq<byte>, out: seq<byte>, t: nat, b: nat, pos: nat, c: nat, written: nat)
    requires Restoring(orig, out, t, b, pos, c, written) && written < |orig|
    requires Within(|orig|, Visit(|orig|, t, b, 0, 0)) && |Visit(|orig|, t, b, 0, 0)| == |orig|
    ensures c < t && 0 < Width(t, b, c) && pos < |orig|
    ensures var w := Width(t, b, c);
      var data := Slice(Pick(orig, Visit(|orig|, t, b, 0, 0)), written, w);
      var pos', c' := NextPos(|orig|, t, pos, w), NextColumn(|orig|, t, pos, c, w);
      0 < |data| && NextWidth(|orig|, t, pos, w) == Width(t, b, c')
      && Restoring(orig, WriteAt(out, pos, data), t, b, pos', c', written + |data|)
  {
    hide Visit, Range, Done, WriteAt, Slice, Edge, Ragged, Restored, EdgeAhead, AtOrder, Within, Width, Pick;
    hide At, Head, NextPos, NextColumn, NextWidth;
    HeadAt(|orig|, t, b, pos, c);
    var n, w := |orig|, Width(t, b, c);
    VisitStep(n, t, b, pos, c);
    NewColumn(t, b, pos, c);
    NextIs(n, t, pos, c, w);
    var pos', c' := NextPos(n, t, pos, w), NextColumn(n, t, pos, c, w);
    HeadAt(n, t, b, pos', c');
    var input := Pick(orig, Visit(n, t, b, 0, 0));
    var data := Slice(input, written, w);
    SliceSize(input, written, w);
    var out' := WriteAt(out, pos, data);
    WriteAtByte(out, pos, data, 0);
    OrderStep(n, t, b, pos, c, written, w, pos', c');
    if |out| <= n {
      BlockRead(orig, t, b, pos, c, written, w, Visit(n, t, b, pos', c'));
      RestoreNext(orig, out, data, t, b, pos, c);
      if pos + t >= n && |out'| <= n { SameColumns(orig, out', t, b, pos + t, c); }
    }
  }

  lemma NextIs(n: nat, t: nat, pos: nat, c: nat, w: nat)
    requires At(t, pos, c) && c < t
    ensures if pos + t >= n then NextPos(n, t, pos, w) == NextColumn(n, t, pos, c, w) == c + w
      else NextPos(n, t, pos, w) == pos + t && NextColumn(n, t, pos, c, w) == c
  {
    ModStride(t, pos);
  }

  /** What remains to be written, as the order moves on by one block. */
  lemma OrderStep(n: nat, t: nat, b: nat, pos: nat, c: nat, written: nat, w: nat, pos': nat, c': nat)
    requires b > 0 && c <= pos < n && c' <= pos' && w > 0 && written < n == |Visit(n, t, b, 0, 0)|
    requires Visit(n, t, b, pos, c) == Range(pos, Min(pos + w, n)) + Visit(n, t, b, pos', c')
    requires n <= written + |Visit(n, t, b, pos, c)|
    ensures var amount := Min(w, n - written);
      n <= written + amount + |Visit(n, t, b, pos', c')|
      && (AtOrder(n, t, b, pos, c, written) && (pos + w <= n || Visit(n, t, b, pos', c') == [])
          ==> AtOrder(n, t, b, pos', c', written + amount))
  {
    hide Visit;
    var order, v, rest := Visit(n, t, b, 0, 0), Min(pos + w, n) - pos, Visit(n, t, b, pos', c');
    if AtOrder(n, t, b, pos, c, written) && (pos + w <= n || rest == []) {
      assert order[written..] == Range(pos, pos + v) + rest;
      assert order[written..][v..] == rest;
    }
  }

  lemma RestoringStart(orig: seq<byte>, t: nat, b: nat)
    requires 0 < b <= t
    ensures Restoring(orig, [], t, b, 0, 0, 0) && Width(t, b, 0) == b
    ensures Within(|orig|, Visit(|orig|, t, b, 0, 0)) && |Visit(|orig|, t, b, 0, 0)| == |orig|
  {
    StartCopying(orig, t, b);
    VisitPermutation(|orig|, t, b);
    if Ragged(|orig|, t, b) { EdgeFacts(|orig|, t, b); }
  }

  /** With every byte copied, `out` is `orig` or has grown past it. */
  lemma RestoringEnd(orig: seq<byte>, out: seq<byte>, t: nat, b: nat, pos: nat, c: nat)
    requires Restoring(orig, out, t, b, pos, c, |orig|) && |Visit(|orig|, t, b, 0, 0)| == |orig|
    ensures Ragged(|orig|, t, b) ==> |out| > |orig|
    ensures !Ragged(|orig|, t, b) ==> out == orig
  {
    hide Visit, Edge, Ragged, Done, Same;
    if |out| <= |orig| {
      assert Visit(|orig|, t, b, pos, c) == [];
      forall i: nat | i < |orig| ensures Done(t, b, pos, c, i) && Same(orig, out, i) {
        VisitMember(|orig|, t, b, pos, c, i);
      }
      AllSame(orig, out);
    }
  }

  /** `ostridecat61` over slow-io61, whose contracts io61.c meets for sound
      seeks.  Given the output of `stridecat61` with the same block size and
      stride it writes the original file back, exactly when the last row of
      the file does not end inside a block that other columns follow; if it
      does, the output is longer than the input. */
  method Ostridecat(inf: SlowHandle, outf: SlowHandle, stride: nat, blockSize0: nat, ghost orig: seq<byte>)
    requires inf.file != outf.file && inf.file.offset == 0 && outf.file.bytes == []
    requires 0 < blockSize0 <= stride
    requires Within(|orig|, Visit(|orig|, stride, blockSize0, 0, 0))
    requires inf.file.bytes == Pick(orig, Visit(|orig|, stride, blockSize0, 0, 0))
    modifies inf.file, outf.file
    ensures outf.file.bytes == orig <==> !Ragged(|orig|, stride, blockSize0)
    ensures Ragged(|orig|, stride, blockSize0) ==> |outf.file.bytes| > |orig|
  {
    ghost var n, t, b := |orig|, stride, blockSize0;
    RestoringStart(orig, t, b);
    var inputSize := |inf.file.bytes|;
    ghost var input := inf.file.bytes;
    ghost var c: nat := 0;
    hide WriteAt, Slice, Visit, Range, Within, Head, NextPos, NextColumn, NextWidth, Width, Restoring, Pick, Ragged;
    var buf := new byte[blockSize0];
    var blockSize: nat, pos: nat, written: nat := blockSize0, 0, 0;
    var r := outf.Seek(0);
    while written < inputSize
      invariant inf.file.bytes == input && inf.file.offset == written <= n && outf.file.offset == pos
      invariant c <= t && blockSize == Width(t, b, c) <= blockSize0
      invariant Restoring(orig, outf.file.bytes, t, b, pos, c, written)
      decreases inputSize - written
    {
      RestoringStep(orig, outf.file.bytes, t, b, pos, c, written);
      c := NextColumn(n, t, pos, c, blockSize);
      var amount := inf.Read(buf, blockSize);
      if amount <= 0 { break; }
      var m := outf.Write(buf, amount);
      written := written + amount;
      pos, blockSize := Advance(inputSize, stride, pos, blockSize);
      r := outf.Seek(pos);
    }
    RestoringEnd(orig, outf.file.bytes, t, b, pos, c);
  }
}

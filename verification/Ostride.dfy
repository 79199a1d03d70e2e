/** pset3/ostridecat61.c over io61.c: writing in strides with the adaptive
    seek, which takes some of the steps for steps to a neighbour. */
module Ostride {
  import opened Basics
  import opened Io61
  import opened Modular
  import opened OsFile
  import opened Stride

  // ------------------------------------------------- which steps are unsound

  /** The last row of the column at `c`. */
  function LastRow(n: nat, t: nat, c: nat): (p: nat)
    requires t > 0 && c < n
  {
    MulOrdered(0, (n - 1 - c) / t, t);
    c + (n - 1 - c) / t * t
  }

  lemma LastRowIs(n: nat, t: nat, c: nat, pos: nat)
    requires At(t, pos, c) && c < t && pos < n <= pos + t
    ensures LastRow(n, t, c) == pos && (c + t < n <==> c + t <= pos) && (pos > c ==> c + t <= pos)
  {
    var q := (pos - c) / t;
    assert pos == pos / t * t + c;
    ModUnique(t, pos / t, 0, pos - c);
    assert n - 1 - c == (pos - c) + (n - 1 - pos);
    ModUnique(t, q, n - 1 - pos, n - 1 - c);
    assert pos - c == q * t;
    if q > 0 { MulAtLeast(q, t); }
  }

  /** The step from the column at `c` to the next one is no step to a
      neighbour inside a buffer block. */
  predicate SoundColumn(n: nat, t: nat, b: nat, size: nat, c: nat)
    requires t > 0 && c < n && size > 0
  {
    SoundSeek(O_WRONLY, ToInt(LastRow(n, t, c)), size, c + b)
  }

  /** So is every step from a column of two rows or more. */
  predicate SoundColumns(n: nat, t: nat, b: nat, size: nat)
    requires 0 < b <= t && size > 0
  {
    forall c: nat :: c + t < n && c + b < t && c % b == 0 ==> SoundColumn(n, t, b, size, c)
  }

  /** io61.c writes the strided order right: the order is sequential, or every
      step to a column is sound and the columns of single bytes at its end, if
      there are two, start where the buffer can. */
  predicate Fine(n: nat, t: nat, b: nat, size: nat)
    requires 0 < b <= t && size > 0
  {
    t == 1 || n <= t
    || (SoundColumns(n, t, b, size) && (b == 1 && n + 2 <= 2 * t ==> (n - t) % size == 0 || (n - t + 1) % size == 0))
  }

  /** The step to the column at `e` writes a wrong byte at the start of its
      buffer block. */
  predicate BadStep(n: nat, t: nat, b: nat, size: nat, e: nat)
    requires 0 < b <= t && size > 0
  {
    2 <= t < n && b <= e < t && (e - b) % b == 0
    && ((e - b + t < n && !SoundColumn(n, t, b, size, e - b))
        || (b == 1 && e - 1 + t == n && (e - 1) % size != 0 && e % size != 0 && SoundColumns(n, t, b, size)))
  }

  method SomeBadStep(n: nat, t: nat, b: nat, size: nat) returns (e: nat)
    requires 0 < b <= t && size > 0 && !Fine(n, t, b, size)
    ensures BadStep(n, t, b, size, e)
  {
    if c: nat :| c < n && c + t < n && c + b < t && c % b == 0 && !SoundColumn(n, t, b, size, c) {
      e := c + b;
      assert e - b == c;
    } else {
      e := n - t + 1;
    }
  }

  // --------------------------------------------------- the output handle

  /** The handle before a block is written at `pos`: what the file holds, what
      it is promised to hold, the descriptor, and the first byte of `cbuf`. */
  datatype Dest = Dest(file: seq<byte>, promised: seq<byte>, tag: nat, head: byte)

  ghost predicate Stands(outf: CachedHandle, d: Dest, pos: nat)
    reads outf, outf.file, outf.cbuf
  {
    outf.Cached() && outf.tag == outf.endTag && outf.posTag == pos && outf.counter == ToInt(pos)
    && d == Dest(outf.file.bytes, outf.Written(), outf.tag, outf.cbuf[0])
  }

  /** `promised` is `file` with the bytes in `[lo, hi)` from the buffer. */
  ghost predicate Stained(file: seq<byte>, promised: seq<byte>, lo: nat, hi: nat, head: byte) {
    lo <= hi
    && if lo == hi then promised == file
       else
         |promised| == (if hi > |file| then hi else |file|) && promised[lo] == head
         && forall i: nat :: i < |file| && !(lo <= i < hi) ==> promised[i] == file[i]
  }

  lemma StainedBy(file: seq<byte>, lo: nat, stale: seq<byte>, head: byte)
    requires stale != [] ==> stale[0] == head
    ensures Stained(file, WriteAt(file, lo, stale), lo, lo + |stale|, head)
  {
    if stale != [] {
      var promised := WriteAt(file, lo, stale);
      WriteAtByte(file, lo, stale, lo);
      forall i: nat | i < |file| && !(lo <= i < lo + |stale|) ensures promised[i] == file[i] {
        WriteAtByte(file, lo, stale, i);
      }
    } else {
      WriteNothing(file, lo);
    }
  }

  /** After the write of `data` at `pos`. */
  ghost predicate Filled(outf: CachedHandle, d: Dest, pos: nat, data: seq<byte>)
    reads outf, outf.file, outf.cbuf
  {
    outf.Writing() && outf.counter == ToInt(pos) && outf.posTag == pos + |data| && d.tag <= pos < d.tag + outf.size
    && outf.Written() == WriteAt(d.promised, pos, data)
    && outf.cbuf[0] == HeadOf(data, |data|, pos - d.tag, d.head, outf.size)
    && (d.tag % outf.size == 0 ==> outf.tag % outf.size == 0)
  }

  lemma TagStays(from: nat, tag: int, posTag: nat, k: nat, n: nat, size: nat)
    requires size > 0 && from % size == 0 && posTag == from + k + n && posTag - tag == Over(k + n, size)
    ensures tag % size == 0
  {
    var q, r := from / size, (k + n) / size;
    assert from == q * size && k + n == r * size + Over(k + n, size);
    assert (q + r) * size == q * size + r * size;
    ModUnique(size, q + r, 0, tag);
  }

  method Put(outf: CachedHandle, buf: array<byte>, amount: nat, ghost d: Dest, ghost pos: nat)
    requires Stands(outf, d, pos) && 0 < amount <= buf.Length && buf != outf.cbuf
    modifies outf, outf.file, outf.cbuf
    ensures buf[..amount] == old(buf[..amount]) && Filled(outf, d, pos, buf[..amount])
  {
    ghost var data, all := buf[..amount], buf[..];
    HeadPart(all, amount, pos - d.tag, d.head, outf.size);
    hide HeadOf, Over, WriteAt, ToInt;
    var n := outf.Write(buf, amount);
    assert buf[..] == all;
    if d.tag % outf.size == 0 { TagStays(d.tag, outf.tag, outf.posTag, pos - d.tag, amount, outf.size); }
    assert buf[..amount] == data;
  }

  lemma HeadPart(all: seq<byte>, n: nat, k: nat, head: byte, size: nat)
    requires n <= |all| && k < size
    ensures HeadOf(all[..n], n, k, head, size) == HeadOf(all, n, k, head, size)
  {
  }

  /** The seek to `next` after a write. */
  ghost predicate Moves(d: Dest, d': Dest, size: nat, pos: nat, data: seq<byte>, next: nat) {
    size > 0 && d.tag <= pos < d.tag + size && d'.file == WriteAt(d.promised, pos, data)
    && d'.tag == Target(next, ToInt(pos), size) && Stained(d'.file, d'.promised, d'.tag, next, d'.head)
    && (next == pos + |data| && d.tag % size == 0 ==> d'.promised == d'.file)
    && d'.head == HeadOf(data, |data|, pos - d.tag, d.head, size)
  }

  /** The bytes that wait in the buffer are those that were written. */
  lemma RewriteSame(base: seq<byte>, tag: nat, pending: seq<byte>)
    ensures WriteAt(WriteAt(base, tag, pending), tag, pending) == WriteAt(base, tag, pending)
  {
    var file := WriteAt(base, tag, pending);
    if pending != [] {
      WriteAtByte(base, tag, pending, 0);
      WriteAtByte(file, tag, pending, 0);
      forall i: nat | i < |file| ensures WriteAt(file, tag, pending)[i] == file[i] {
        WriteAtByte(base, tag, pending, i);
        WriteAtByte(file, tag, pending, i);
      }
    }
  }

  lemma SameBlock(tag: nat, pos: nat, size: nat)
    requires size > 0 && tag % size == 0 && tag <= pos < tag + size
    ensures Aligned(pos, size) == tag
  {
    ModUnique(size, tag / size, pos - tag, pos);
  }

  lemma StainedHandle(outf: CachedHandle, next: nat)
    requires outf.Cached() && outf.posTag == next
    ensures Stained(outf.file.bytes, outf.Written(), outf.tag, next, outf.cbuf[0])
  {
    StainedBy(outf.file.bytes, outf.tag, outf.cbuf[..next - outf.tag], outf.cbuf[0]);
  }

  /** `io61_seek` of a writer: what waits in the buffer is in the file, and
      the start of the block of `next` may be promised again. */
  method SeekOn(outf: CachedHandle, next: nat)
    requires outf.Writing()
    modifies outf, outf.file
    ensures outf.Cached() && outf.tag == outf.endTag && outf.posTag == next && outf.counter == ToInt(next)
    ensures outf.tag == Target(next, old(outf.counter), outf.size) && outf.file.bytes == old(outf.Written())
    ensures var stained := Stained(outf.file.bytes, outf.Written(), outf.tag, next, outf.cbuf[0]); stained
    ensures next == old(outf.posTag) && old(outf.tag) % outf.size == 0 ==> outf.Written() == outf.file.bytes
  {
    ghost var base, tag: nat, at: nat := outf.file.bytes, outf.tag, outf.posTag;
    ghost var pending := outf.cbuf[..at - tag];
    ghost var file := WriteAt(base, tag, pending);
    assert outf.Flushed() == outf.Written() == file;
    RewriteSame(base, tag, pending);
    ghost var lo := Target(next, outf.counter, outf.size);
    WriteNothing(file, lo);
    if next == at && tag % outf.size == 0 { SameBlock(tag, next, outf.size); }
    hide WriteAt, ToInt, Stained;
    var r := outf.SeekWrite(next);
    hide Adjacent, Aligned;
    StainedHandle(outf, next);
    assert lo == next ==> outf.cbuf[..next - lo] == [];
    assert lo == tag && next == at ==> outf.cbuf[..next - lo] == pending;
  }

  method SeekNext(outf: CachedHandle, next: nat, ghost d: Dest, ghost pos: nat, ghost data: seq<byte>)
      returns (ghost d': Dest)
    requires Filled(outf, d, pos, data)
    modifies outf, outf.file
    ensures Stands(outf, d', next) && Moves(d, d', outf.size, pos, data, next)
  {
    hide WriteAt, HeadOf, ToInt, Stained, Target;
    SeekOn(outf, next);
    d' := Dest(outf.file.bytes, outf.Written(), outf.tag, outf.cbuf[0]);
  }

  // ------------------------------------------------------- one block

  /** The next block of the order, as the driver goes on to it. */
  predicate Onward(n: nat, t: nat, b: nat, pos: nat, c: nat, pos': nat, c': nat)
    requires t > 0
  {
    Head(n, t, b, pos, c) && c < t && pos < n && b <= t
    && pos' == NextPos(n, t, pos, Width(t, b, c)) && c' == NextColumn(n, t, pos, c, Width(t, b, c))
    && Head(n, t, b, pos', c')
  }

  /** Down the column, or on to the next one. */
  lemma OnwardIs(n: nat, t: nat, b: nat, pos: nat, c: nat, pos': nat, c': nat)
    requires t > 0 && Onward(n, t, b, pos, c, pos', c')
    ensures c <= pos && c % b == 0
    ensures pos + t < n ==> pos' == pos + t && c' == c && c + t < n
    ensures pos + t >= n ==>
      pos' == c' > c && LastRow(n, t, c) == pos && (c + t < n <==> c + t <= pos) && (pos > c ==> c + t <= pos)
      && (c' < t ==> c' == c + b) && c' <= c + b
  {
    NextIs(n, t, pos, c, Width(t, b, c));
    if pos + t >= n { LastRowIs(n, t, c, pos); }
    hide NextPos, NextColumn, LastRow;
  }

  /** Where the seek to the next block goes when it is no step to a
      neighbour. */
  lemma FarTarget(pos: nat, d: nat, size: nat)
    requires 2 <= d < 0xFFFF_FFFF && size > 0
    ensures Target(pos + d, ToInt(pos), size) == pos + d
  {
    NeighboursNear(pos, pos + d);
  }

  /** A step of one byte: the start of a block is kept. */
  lemma NextTarget(pos: nat, size: nat)
    requires size > 0 && 0x8000_0000 % size == 0
    ensures Target(pos + 1, ToInt(pos), size) == Aligned(pos + 1, size)
    ensures Target(pos + 1, ToInt(pos), size) % size == 0
    ensures Target(pos + 1, ToInt(pos), size) == pos + 1 <==> (pos + 1) % size == 0
  {
    var next := pos + 1;
    AlignedBelow(next, size);
    AlignedStart(next, size);
    NextAdjacent(pos);
    hide Aligned, Adjacent, ToInt;
    if next % 0x8000_0000 == 0 { HalfMultiple(next, size); }
  }

  lemma NextAdjacent(pos: nat)
    ensures Adjacent(pos + 1, ToInt(pos)) || (pos + 1) % 0x8000_0000 == 0
  {
    var q, m := pos / 0x1_0000_0000, pos % 0x1_0000_0000;
    if m < 0xFFFF_FFFF {
      ModUnique(0x1_0000_0000, q, m + 1, pos + 1);
      if m == 0x7FFF_FFFF { ModUnique(0x8000_0000, 2 * q + 1, 0, pos + 1); }
    } else {
      ModUnique(0x8000_0000, 2 * q + 2, 0, pos + 1);
    }
  }

  lemma AlignedStart(pos: nat, size: nat)
    requires size > 0
    ensures 0 <= Aligned(pos, size) && Aligned(pos, size) % size == 0
  {
    var q := pos / size;
    assert pos == q * size + pos % size;
    MulOrdered(0, q, size);
    ModUnique(size, q, 0, q * size);
  }

  lemma HalfMultiple(p: nat, size: nat)
    requires size > 0 && 0x8000_0000 % size == 0 && p % 0x8000_0000 == 0
    ensures p % size == 0
  {
    var k, m := p / 0x8000_0000, 0x8000_0000 / size;
    assert p == k * (m * size);
    assert k * (m * size) == (k * m) * size;
    ModUnique(size, k * m, 0, p);
  }

  // --------------------------------------------------- right all the way

  /** The buffer starts where columns of single bytes need it to. */
  predicate Even(n: nat, t: nat, b: nat, size: nat, tag: nat, c: nat)
    requires size > 0
  {
    (t == 1 ==> tag % size == 0)
    && (b == 1 && c + t >= n && c + 1 < t ==> tag % size == 0 || (c + t == n && (c + 1) % size == 0))
  }

  /** With fine steps nothing wrong is promised. */
  lemma FineStep(n: nat, t: nat, b: nat, size: nat, d: Dest, d': Dest, pos: nat, c: nat, pos': nat, c': nat,
                 data: seq<byte>)
    requires 0 < b <= t < 0xFFFF_FFFF && size > 0 && 0x8000_0000 % size == 0 && Fine(n, t, b, size)
    requires Onward(n, t, b, pos, c, pos', c') && Moves(d, d', size, pos, data, pos') && Even(n, t, b, size, d.tag, c)
    requires c' < t && pos' < n && |data| == Min(pos + Width(t, b, c), n) - pos
    ensures d'.promised == d'.file && Even(n, t, b, size, d'.tag, c')
  {
    OnwardIs(n, t, b, pos, c, pos', c');
    hide Onward, Stained;
    if pos + t < n {
      FineDown(n, t, b, size, d, d', pos, c, data);
    } else {
      FineAcross(n, t, b, size, d, d', pos, c, data);
    }
  }

  lemma FineDown(n: nat, t: nat, b: nat, size: nat, d: Dest, d': Dest, pos: nat, c: nat, data: seq<byte>)
    requires 0 < b <= t < 0xFFFF_FFFF && size > 0 && 0x8000_0000 % size == 0
    requires c <= pos && pos + t < n && Moves(d, d', size, pos, data, pos + t) && Even(n, t, b, size, d.tag, c)
    requires t == 1 ==> |data| == 1
    ensures d'.promised == d'.file && Even(n, t, b, size, d'.tag, c)
  {
    if t == 1 { NextTarget(pos, size); } else { FarTarget(pos, t, size); }
    hide Target, ToInt, HeadOf, WriteAt;
  }

  lemma FineAcross(n: nat, t: nat, b: nat, size: nat, d: Dest, d': Dest, pos: nat, c: nat, data: seq<byte>)
    requires 0 < b <= t < 0xFFFF_FFFF && size > 0 && 0x8000_0000 % size == 0 && Fine(n, t, b, size)
    requires c <= pos < n <= pos + t && c % b == 0 && c + b < t && c + b < n && LastRow(n, t, c) == pos
    requires c + t < n <==> c + t <= pos
    requires pos > c ==> c + t <= pos
    requires Moves(d, d', size, pos, data, c + b) && Even(n, t, b, size, d.tag, c) && |data| == Min(pos + b, n) - pos
    ensures d'.promised == d'.file && Even(n, t, b, size, d'.tag, c + b)
  {
    if c + t < n {
      assert SoundColumn(n, t, b, size, c);
      SoundTarget(c + b, ToInt(pos), size);
    } else if b > 1 {
      FarTarget(pos, b, size);
    } else {
      NextTarget(pos, size);
    }
    hide Target, ToInt, HeadOf, WriteAt, Aligned, SoundSeek, LastRow, SoundColumns;
  }

  // ------------------------------------------------- wrong from one step on

  /** The byte of `out` at `lo` is that of another place. */
  ghost predicate Wrong(orig: seq<byte>, out: seq<byte>, lo: nat) { lo < |out| && Elsewhere(orig, out[lo], lo) }

  ghost predicate Elsewhere(orig: seq<byte>, x: byte, lo: nat)
  {
    exists k: nat :: k < |orig| && k != lo && x == orig[k]
  }

  lemma ElsewhereAt(orig: seq<byte>, x: byte, lo: nat, k: nat)
    requires k < |orig| && k != lo && x == orig[k]
    ensures Elsewhere(orig, x, lo)
  {
  }

  /** Before the step the buffer is where that step finds it wrong; after it
      the file is wrong, and so is what the buffer starts with. */
  ghost predicate Spoilt(orig: seq<byte>, d: Dest, t: nat, b: nat, size: nat, pos: nat, c: nat, e: nat)
    requires 0 < b <= t && size > 0
  {
    var n, lo := |orig|, Aligned(e, size);
    (pos > c ==> d.tag == pos)
    && (c < e && c + t == n && pos == c && e == c + 1 && SoundColumns(n, t, b, size) ==> d.tag == pos)
    && (c >= e ==> lo >= 0 && Wrong(orig, d.promised, lo) && Elsewhere(orig, d.head, lo))
    && (c >= e && pos > e ==> lo >= 0 && Wrong(orig, d.file, lo))
  }

  lemma BadStepIs(n: nat, t: nat, b: nat, size: nat, e: nat)
    requires 0 < b <= t && size > 0 && BadStep(n, t, b, size, e)
    ensures 0 <= Aligned(e, size) < e < t < n && Aligned(e, size) % size == 0
  {
    AlignedBelow(e, size);
    AlignedStart(e, size);
    if e - b + t < n { SoundTarget(e, ToInt(LastRow(n, t, e - b)), size); }
    hide Aligned;
  }

  /** A byte before the position stays wrong. */
  lemma WrongStays(orig: seq<byte>, d: Dest, d': Dest, size: nat, pos: nat, data: seq<byte>, next: nat, lo: nat)
    requires Moves(d, d', size, pos, data, next) && data != [] && lo < pos && lo < next && lo % size == 0
    requires Wrong(orig, d.promised, lo) && Elsewhere(orig, d.head, lo)
    requires pos + |data| <= |orig| && data == orig[pos..pos + |data|]
    ensures Wrong(orig, d'.file, lo) && Wrong(orig, d'.promised, lo) && Elsewhere(orig, d'.head, lo)
  {
    WriteAtByte(d.promised, pos, data, lo);
    HeadElsewhere(orig, d.head, pos, pos - d.tag, data, size, lo);
    SoundTarget(next, ToInt(pos), size);
    AlignedStart(next, size);
    if d'.tag <= lo && lo < next { SameStart(d'.tag, lo, size); }
    hide WriteAt, HeadOf, ToInt, Aligned, SoundSeek;
  }

  lemma SameStart(a: nat, lo: nat, size: nat)
    requires size > 0 && a % size == 0 && lo % size == 0 && a <= lo < a + size
    ensures a == lo
  {
    ModClose(size, a, lo);
  }

  lemma HeadElsewhere(orig: seq<byte>, head: byte, pos: nat, k: nat, data: seq<byte>, size: nat, lo: nat)
    requires k < size && data != [] && lo < pos && Elsewhere(orig, head, lo)
    requires pos + |data| <= |orig| && data == orig[pos..pos + |data|]
    ensures Elsewhere(orig, HeadOf(data, |data|, k, head, size), lo)
  {
    var l := LastChunk(k + |data|, size);
    ChunkBeyond(k + |data|, size);
    if !(l == 0 && k > 0) { ElsewhereAt(orig, data[l - k], lo, pos + (l - k)); }
    hide LastChunk, Elsewhere;
  }

  /** The bad step itself. */
  lemma BadStepTaken(orig: seq<byte>, d: Dest, d': Dest, t: nat, b: nat, size: nat, pos: nat, c: nat, data: seq<byte>)
    requires 0 < b <= t < 0xFFFF_FFFF && size > 0 && 0x8000_0000 % size == 0 && BadStep(|orig|, t, b, size, c + b)
    requires c <= pos < |orig| <= pos + t && LastRow(|orig|, t, c) == pos && d.tag == pos
    requires c + t < |orig| <==> c + t <= pos
    requires pos > c ==> c + t <= pos
    requires Moves(d, d', size, pos, data, c + b) && data != [] && pos + |data| <= |orig|
      && data == orig[pos..pos + |data|]
    ensures var lo := Aligned(c + b, size); lo >= 0 && Wrong(orig, d'.promised, lo) && Elsewhere(orig, d'.head, lo)
  {
    var e := c + b;
    assert e - b == c;
    BadStepIs(|orig|, t, b, size, e);
    var lo := Aligned(e, size);
    var l := LastChunk(|data|, size);
    SoundTarget(e, ToInt(pos), size);
    if c + t < |orig| {
      assert !SoundColumn(|orig|, t, b, size, c);
    } else {
      NextTarget(pos, size);
    }
    assert d'.tag == lo < e && pos + l != lo;
    ElsewhereAt(orig, data[l], lo, pos + l);
    hide WriteAt, Target, ToInt, Aligned, SoundSeek, LastRow, LastChunk, Elsewhere, BadStep;
  }

  lemma Multiples(c: nat, e: nat, b: nat)
    requires b > 0 && c % b == 0 && c < e && b <= e && (e - b) % b == 0
    ensures c + b <= e
  {
    var p, q := c / b, (e - b) / b;
    assert c == p * b && e - b == q * b;
    if q < p {
      MulMinus(p, q, b);
      MulAtLeast(p - q, b);
    } else {
      MulOrdered(p, q, b);
    }
  }

  /** The block that is read is that of the original at `pos`. */
  ghost predicate OwnData(orig: seq<byte>, pos: nat, data: seq<byte>) {
    data != [] && pos + |data| <= |orig| && data == orig[pos..pos + |data|]
  }

  /** What stays wrong is wrong in every later state. */
  lemma SpoiltLater(orig: seq<byte>, d: Dest, d': Dest, t: nat, b: nat, size: nat, pos: nat, c: nat, pos': nat, c': nat,
                    e: nat, data: seq<byte>)
    requires 0 < b <= t && size > 0 && BadStep(|orig|, t, b, size, e)
    requires Spoilt(orig, d, t, b, size, pos, c, e) && e <= c <= pos && c <= c' <= pos'
    requires Moves(d, d', size, pos, data, pos') && OwnData(orig, pos, data) && (pos' > c' ==> d'.tag == pos')
    ensures Spoilt(orig, d', t, b, size, pos', c', e)
  {
    BadStepIs(|orig|, t, b, size, e);
    hide Moves, Wrong, Elsewhere, BadStep, Aligned, SoundColumns;
    WrongStays(orig, d, d', size, pos, data, pos', Aligned(e, size));
  }

  lemma SpoiltStep(orig: seq<byte>, d: Dest, d': Dest, t: nat, b: nat, size: nat, pos: nat, c: nat, pos': nat, c': nat,
                   e: nat, data: seq<byte>)
    requires 0 < b <= t < 0xFFFF_FFFF && size > 0 && 0x8000_0000 % size == 0 && BadStep(|orig|, t, b, size, e)
    requires Spoilt(orig, d, t, b, size, pos, c, e) && Onward(|orig|, t, b, pos, c, pos', c')
    requires Moves(d, d', size, pos, data, pos') && OwnData(orig, pos, data)
    ensures Spoilt(orig, d', t, b, size, pos', c', e)
  {
    OnwardIs(|orig|, t, b, pos, c, pos', c');
    BadStepIs(|orig|, t, b, size, e);
    if pos + t < |orig| { TagDown(d, d', t, size, pos, data); }
    if c < e { BadStepColumns(|orig|, t, b, size, c, e); }
    hide *;
    if c >= e {
      SpoiltLater(orig, d, d', t, b, size, pos, c, pos', c', e, data);
    } else if pos + t < |orig| {
      SpoiltDown(orig, d', t, b, size, pos', c', e);
    } else {
      SpoiltAcross(orig, d, d', t, b, size, pos, c, e, data);
      SpoiltAt(orig, d', t, b, size, c', e);
    }
  }

  lemma TagDown(d: Dest, d': Dest, t: nat, size: nat, pos: nat, data: seq<byte>)
    requires 2 <= t < 0xFFFF_FFFF && Moves(d, d', size, pos, data, pos + t)
    ensures d'.tag == pos + t
  {
    FarTarget(pos, t, size);
  }

  lemma BadStepColumns(n: nat, t: nat, b: nat, size: nat, c: nat, e: nat)
    requires 0 < b <= t && size > 0 && BadStep(n, t, b, size, e) && c < e && c % b == 0
    ensures c + b <= e
  {
    Multiples(c, e, b);
  }

  lemma SpoiltDown(orig: seq<byte>, d: Dest, t: nat, b: nat, size: nat, pos: nat, c: nat, e: nat)
    requires 0 < b <= t && size > 0 && c < e && c < pos && d.tag == pos
    ensures Spoilt(orig, d, t, b, size, pos, c, e)
  {
  }

  lemma SpoiltAt(orig: seq<byte>, d: Dest, t: nat, b: nat, size: nat, c: nat, e: nat)
    requires 0 < b <= t && size > 0 && c <= e
    requires c + t == |orig| && SoundColumns(|orig|, t, b, size) ==> d.tag == c
    requires c == e ==> var lo := Aligned(e, size);
      lo >= 0 && Wrong(orig, d.promised, lo) && Elsewhere(orig, d.head, lo)
    ensures Spoilt(orig, d, t, b, size, c, c, e)
  {
    hide Wrong, Elsewhere, SoundColumns;
  }

  /** The step to the next column. */
  lemma SpoiltAcross(orig: seq<byte>, d: Dest, d': Dest, t: nat, b: nat, size: nat, pos: nat, c: nat, e: nat,
                     data: seq<byte>)
    requires 0 < b <= t < 0xFFFF_FFFF && size > 0 && 0x8000_0000 % size == 0 && BadStep(|orig|, t, b, size, e)
    requires Spoilt(orig, d, t, b, size, pos, c, e) && Moves(d, d', size, pos, data, c + b) && OwnData(orig, pos, data)
    requires c <= pos < |orig| <= pos + t && c % b == 0 && c < e && c + b <= e && c + b < t
      && LastRow(|orig|, t, c) == pos
    requires c + t < |orig| <==> c + t <= pos
    requires pos > c ==> c + t <= pos
    ensures e == c + b ==> var lo := Aligned(e, size);
      lo >= 0 && Wrong(orig, d'.promised, lo) && Elsewhere(orig, d'.head, lo)
    ensures c + b + t == |orig| && SoundColumns(|orig|, t, b, size) ==> d'.tag == c + b
  {
    if c + b + t == |orig| && SoundColumns(|orig|, t, b, size) {
      assert SoundColumn(|orig|, t, b, size, c);
      SoundTarget(c + b, ToInt(pos), size);
    }
    if e == c + b {
      assert e - b == c;
      hide Aligned, ToInt, Target, Stained, HeadOf, WriteAt, LastRow, Wrong, Elsewhere, Moves, SoundSeek;
      assert d.tag == pos;
      BadStepTaken(orig, d, d', t, b, size, pos, c, data);
    }
    hide *;
  }

  // ------------------------------------------------------- the whole run

  /** The run over io61.c beside the one over slow-io61, whose file is `ref`:
      the files are equally long; with fine steps they are equal, and after
      a bad one the file is wrong. */
  ghost predicate Tracking(orig: seq<byte>, ref: seq<byte>, d: Dest, t: nat, b: nat, size: nat, pos: nat, c: nat,
                           written: nat) {
    Restoring(orig, ref, t, b, pos, c, written) && size > 0 && |d.file| == |ref|
    && (|d.promised| == |d.file| || |d.promised| == pos >= |d.file|)
    && (!Ragged(|orig|, t, b) ==>
      Unspoilt(orig, ref, d, t, b, size, c, written) && SpoiltIf(orig, d, t, b, size, pos, c))
  }

  ghost predicate Unspoilt(orig: seq<byte>, ref: seq<byte>, d: Dest, t: nat, b: nat, size: nat, c: nat, written: nat)
    requires 0 < b <= t && size > 0
  {
    Fine(|orig|, t, b, size) ==>
      d.file == ref && (written < |orig| ==> d.promised == ref && Even(|orig|, t, b, size, d.tag, c))
  }

  ghost predicate SpoiltIf(orig: seq<byte>, d: Dest, t: nat, b: nat, size: nat, pos: nat, c: nat)
    requires 0 < b <= t && size > 0
  {
    2 <= t ==> forall e: nat :: BadStep(|orig|, t, b, size, e) ==> Spoilt(orig, d, t, b, size, pos, c, e)
  }

  /** Without a ragged edge the block that is read is that of the original. */
  lemma ChunkIs(orig: seq<byte>, ref: seq<byte>, t: nat, b: nat, pos: nat, c: nat, written: nat, pos': nat, c': nat,
                data: seq<byte>)
    requires Restoring(orig, ref, t, b, pos, c, written) && written < |orig|
      && Within(|orig|, Visit(|orig|, t, b, 0, 0))
    requires Onward(|orig|, t, b, pos, c, pos', c') && !Ragged(|orig|, t, b)
    requires data == Slice(Pick(orig, Visit(|orig|, t, b, 0, 0)), written, Width(t, b, c))
    ensures OwnData(orig, pos, data) && |data| == Min(pos + Width(t, b, c), |orig|) - pos
  {
    var n, w := |orig|, Width(t, b, c);
    RestoringIs(orig, ref, t, b, pos, c, written);
    OnwardIs(n, t, b, pos, c, pos', c');
    hide Visit, Pick, Within, Slice, Range, Ragged, Restoring, NextPos, NextColumn, At, AtOrder, LastRow;
    VisitStep(n, t, b, pos, c);
    WholeBlocks(n, t, b, pos, c);
    BlockRead(orig, t, b, pos, c, written, w, Visit(n, t, b, pos', c'));
    OwnDataIs(orig, pos, w, data);
  }

  lemma OwnDataIs(orig: seq<byte>, pos: nat, w: nat, data: seq<byte>)
    requires pos < |orig| && w > 0 && data == orig[pos..Min(pos + w, |orig|)]
    ensures OwnData(orig, pos, data) && |data| == Min(pos + w, |orig|) - pos
  {
  }

  lemma RestoringIs(orig: seq<byte>, ref: seq<byte>, t: nat, b: nat, pos: nat, c: nat, written: nat)
    requires Restoring(orig, ref, t, b, pos, c, written) && written < |orig| && !Ragged(|orig|, t, b)
    ensures AtOrder(|orig|, t, b, pos, c, written) && Visit(|orig|, t, b, pos, c) != []
  {
  }

  lemma LengthStep(ref: seq<byte>, d: Dest, d': Dest, size: nat, pos: nat, data: seq<byte>, next: nat)
    requires Moves(d, d', size, pos, data, next) && data != [] && |d.file| == |ref|
    requires |d.promised| == |d.file| || |d.promised| == pos >= |d.file|
    ensures |d'.file| == |WriteAt(ref, pos, data)|
    ensures |d'.promised| == |d'.file| || |d'.promised| == next >= |d'.file|
  {
    WriteAtByte(ref, pos, data, 0);
    WriteAtByte(d.promised, pos, data, 0);
    hide WriteAt, Target, HeadOf;
  }

  /** More to write means more of the order. */
  lemma MoreToVisit(orig: seq<byte>, ref: seq<byte>, t: nat, b: nat, pos: nat, c: nat, written: nat)
    requires Restoring(orig, ref, t, b, pos, c, written) && written < |orig|
    ensures c < t && pos < |orig|
  {
    VisitStep(|orig|, t, b, pos, c);
  }

  /** One block. */
  lemma TrackingStep(orig: seq<byte>, ref: seq<byte>, d: Dest, d': Dest, t: nat, b: nat, size: nat, pos: nat, c: nat,
                     written: nat, pos': nat, c': nat, data: seq<byte>)
    requires 0 < b <= t < 0xFFFF_FFFF && size > 0 && 0x8000_0000 % size == 0 && written < |orig|
    requires Tracking(orig, ref, d, t, b, size, pos, c, written) && c <= t
    requires Planned(orig, ref, t, b, pos, c, written, data, pos', c') && Moves(d, d', size, pos, data, pos')
    ensures var after := Tracking(orig, WriteAt(ref, pos, data), d', t, b, size, pos', c', written + |data|); after
  {
    hide *;
    TrackingIs(orig, ref, d, t, b, size, pos, c, written);
    PlannedIs(orig, ref, t, b, pos, c, written, data, pos', c');
    LengthStep(ref, d, d', size, pos, data, pos');
    if !Ragged(|orig|, t, b) {
      if written + |data| < |orig| { MoreToVisit(orig, WriteAt(ref, pos, data), t, b, pos', c', written + |data|); }
      UnspoiltStep(orig, ref, d, d', t, b, size, pos, c, written, pos', c', data);
      SpoiltIfStep(orig, d, d', t, b, size, pos, c, pos', c', data);
    }
    TrackingParts(orig, WriteAt(ref, pos, data), d', t, b, size, pos', c', written + |data|);
  }

  lemma TrackingIs(orig: seq<byte>, ref: seq<byte>, d: Dest, t: nat, b: nat, size: nat, pos: nat, c: nat, written: nat)
    requires Tracking(orig, ref, d, t, b, size, pos, c, written)
    ensures Restoring(orig, ref, t, b, pos, c, written) && 0 < b <= t && size > 0 && |d.file| == |ref|
    ensures |d.promised| == |d.file| || |d.promised| == pos >= |d.file|
    ensures !Ragged(|orig|, t, b) ==>
      Unspoilt(orig, ref, d, t, b, size, c, written) && SpoiltIf(orig, d, t, b, size, pos, c)
  {
  }

  lemma TrackingParts(orig: seq<byte>, ref: seq<byte>, d: Dest, t: nat, b: nat, size: nat, pos: nat, c: nat,
                      written: nat)
    requires Restoring(orig, ref, t, b, pos, c, written) && 0 < b <= t && size > 0 && |d.file| == |ref|
    requires |d.promised| == |d.file| || |d.promised| == pos >= |d.file|
    requires !Ragged(|orig|, t, b) ==>
      Unspoilt(orig, ref, d, t, b, size, c, written) && SpoiltIf(orig, d, t, b, size, pos, c)
    ensures var tracking := Tracking(orig, ref, d, t, b, size, pos, c, written); tracking
  {
  }

  lemma UnspoiltStep(orig: seq<byte>, ref: seq<byte>, d: Dest, d': Dest, t: nat, b: nat, size: nat, pos: nat, c: nat,
                     written: nat, pos': nat, c': nat, data: seq<byte>)
    requires 0 < b <= t < 0xFFFF_FFFF && size > 0 && 0x8000_0000 % size == 0 && written < |orig|
    requires Unspoilt(orig, ref, d, t, b, size, c, written)
    requires Onward(|orig|, t, b, pos, c, pos', c') && Moves(d, d', size, pos, data, pos')
    requires |data| == Min(pos + Width(t, b, c), |orig|) - pos
    requires written + |data| < |orig| ==> c' < t && pos' < |orig|
    ensures Unspoilt(orig, WriteAt(ref, pos, data), d', t, b, size, c', written + |data|)
  {
    if Fine(|orig|, t, b, size) && written + |data| < |orig| {
      FineStep(|orig|, t, b, size, d, d', pos, c, pos', c', data);
    }
    hide Fine, Even, WriteAt, HeadOf, Stained, Target, Onward;
  }

  lemma SpoiltIfStep(orig: seq<byte>, d: Dest, d': Dest, t: nat, b: nat, size: nat, pos: nat, c: nat, pos': nat,
                     c': nat, data: seq<byte>)
    requires 0 < b <= t < 0xFFFF_FFFF && size > 0 && 0x8000_0000 % size == 0 && SpoiltIf(orig, d, t, b, size, pos, c)
    requires Onward(|orig|, t, b, pos, c, pos', c') && Moves(d, d', size, pos, data, pos') && OwnData(orig, pos, data)
    ensures SpoiltIf(orig, d', t, b, size, pos', c')
  {
    hide BadStep, Spoilt, Moves, Onward, OwnData;
    forall e: nat | 2 <= t && BadStep(|orig|, t, b, size, e) ensures Spoilt(orig, d', t, b, size, pos', c', e) {
      SpoiltStep(orig, d, d', t, b, size, pos, c, pos', c', e, data);
    }
  }

  /** Before anything is written. */
  lemma TrackingStart(orig: seq<byte>, d: Dest, t: nat, b: nat, size: nat)
    requires 0 < b <= t && size > 0 && d.file == d.promised == [] && d.tag == 0
    ensures Tracking(orig, [], d, t, b, size, 0, 0, 0) && Width(t, b, 0) == b
    ensures Within(|orig|, Visit(|orig|, t, b, 0, 0)) && |Visit(|orig|, t, b, 0, 0)| == |orig|
  {
    RestoringStart(orig, t, b);
    SmallMod(0, size);
    hide Restoring, Fine, Visit, Ragged;
    forall e: nat | BadStep(|orig|, t, b, size, e) ensures Spoilt(orig, d, t, b, size, 0, 0, e) {}
  }

  /** With every byte copied. */
  lemma TrackingEnd(orig: seq<byte>, ref: seq<byte>, d: Dest, t: nat, b: nat, size: nat, pos: nat, c: nat)
    requires 0 < b <= t && size > 0 && Tracking(orig, ref, d, t, b, size, pos, c, |orig|)
    requires |Visit(|orig|, t, b, 0, 0)| == |orig|
    ensures Ragged(|orig|, t, b) ==> |d.file| > |orig|
    ensures !Ragged(|orig|, t, b) && Fine(|orig|, t, b, size) ==> d.file == orig
    ensures forall e: nat :: !Ragged(|orig|, t, b) && BadStep(|orig|, t, b, size, e) ==>
      Aligned(e, size) >= 0 && Wrong(orig, d.file, Aligned(e, size))
  {
    RestoringEnd(orig, ref, t, b, pos, c);
    if !Ragged(|orig|, t, b) {
      assert Visit(|orig|, t, b, pos, c) == [];
      VisitedAll(|orig|, t, b, pos, c);
      hide Ragged, Visit, Fine, Wrong, Elsewhere, Aligned;
      forall e: nat | BadStep(|orig|, t, b, size, e)
        ensures Aligned(e, size) >= 0 && Wrong(orig, d.file, Aligned(e, size))
      {
        assert Spoilt(orig, d, t, b, size, pos, c, e);
      }
    }
  }

  lemma VisitedAll(n: nat, t: nat, b: nat, pos: nat, c: nat)
    requires Head(n, t, b, pos, c) && Visit(n, t, b, pos, c) == []
    ensures c <= pos && (c == t || n <= pos == c)
  {
  }

  /** Where the next round goes on. */
  lemma OnwardStarts(orig: seq<byte>, ref: seq<byte>, t: nat, b: nat, pos: nat, c: nat, written: nat, pos': nat,
                     c': nat)
    requires Restoring(orig, ref, t, b, pos, c, written) && written < |orig|
    requires pos' == NextPos(|orig|, t, pos, Width(t, b, c)) && c' == NextColumn(|orig|, t, pos, c, Width(t, b, c))
    ensures 0 < b <= t && c <= t && Onward(|orig|, t, b, pos, c, pos', c') && c' <= t
  {
    assert Visit(|orig|, t, b, pos, c) != [];
    hide Restored, AtOrder, EdgeAhead, Ragged, Visit, NextPos, NextColumn, NextWidth;
    VisitStep(|orig|, t, b, pos, c);
  }

  /** The file that `stridecat61` makes of `orig`. */
  ghost predicate Strided(orig: seq<byte>, t: nat, b: nat, input: seq<byte>) {
    b > 0 && Within(|orig|, Visit(|orig|, t, b, 0, 0)) && |Visit(|orig|, t, b, 0, 0)| == |orig|
    && input == Pick(orig, Visit(|orig|, t, b, 0, 0))
  }

  /** The next block is `data`, at `pos`, and the order goes on at `pos'`. */
  ghost predicate Planned(orig: seq<byte>, ref: seq<byte>, t: nat, b: nat, pos: nat, c: nat, written: nat,
                          data: seq<byte>, pos': nat, c': nat)
    requires 0 < b <= t && c <= t
  {
    data != [] && written < |orig| && Onward(|orig|, t, b, pos, c, pos', c') && c' <= t
    && Restoring(orig, WriteAt(ref, pos, data), t, b, pos', c', written + |data|)
    && (!Ragged(|orig|, t, b) ==> OwnData(orig, pos, data) && |data| == Min(pos + Width(t, b, c), |orig|) - pos)
  }

  lemma PlanAhead(orig: seq<byte>, ref: seq<byte>, t: nat, b: nat, pos: nat, c: nat, written: nat, input: seq<byte>,
                  w: nat, data: seq<byte>)
    requires Restoring(orig, ref, t, b, pos, c, written) && written < |orig| && 0 < b <= t && c <= t
      && w == Width(t, b, c)
    requires Strided(orig, t, b, input) && data == Slice(input, written, w)
    ensures data != [] && NextColumn(|orig|, t, pos, c, w) <= t
    ensures NextWidth(|orig|, t, pos, w) == Width(t, b, NextColumn(|orig|, t, pos, c, w))
    ensures var planned := Planned(orig, ref, t, b, pos, c, written, data, NextPos(|orig|, t, pos, w),
      NextColumn(|orig|, t, pos, c, w));
      planned
  {
    var pos', c' := NextPos(|orig|, t, pos, w), NextColumn(|orig|, t, pos, c, w);
    OnwardStarts(orig, ref, t, b, pos, c, written, pos', c');
    assert Within(|orig|, Visit(|orig|, t, b, 0, 0)) && |Visit(|orig|, t, b, 0, 0)| == |orig|;
    assert data == Slice(Pick(orig, Visit(|orig|, t, b, 0, 0)), written, w);
    hide *;
    RestoringStep(orig, ref, t, b, pos, c, written);
    assert Restoring(orig, WriteAt(ref, pos, data), t, b, pos', c', written + |data|);
    if !Ragged(|orig|, t, b) { ChunkIs(orig, ref, t, b, pos, c, written, pos', c', data); }
    PlannedBy(orig, ref, t, b, pos, c, written, data, pos', c');
  }

  lemma PlannedBy(orig: seq<byte>, ref: seq<byte>, t: nat, b: nat, pos: nat, c: nat, written: nat, data: seq<byte>,
                  pos': nat, c': nat)
    requires 0 < b <= t && c <= t && data != [] && written < |orig| && Onward(|orig|, t, b, pos, c, pos', c') && c' <= t
    requires Restoring(orig, WriteAt(ref, pos, data), t, b, pos', c', written + |data|)
    requires !Ragged(|orig|, t, b) ==> OwnData(orig, pos, data) && |data| == Min(pos + Width(t, b, c), |orig|) - pos
    ensures var planned := Planned(orig, ref, t, b, pos, c, written, data, pos', c'); planned
  {
  }

  lemma PlannedIs(orig: seq<byte>, ref: seq<byte>, t: nat, b: nat, pos: nat, c: nat, written: nat, data: seq<byte>,
                  pos': nat, c': nat)
    requires 0 < b <= t && c <= t && Planned(orig, ref, t, b, pos, c, written, data, pos', c')
    ensures data != [] && written < |orig| && c' <= t
    ensures var on := Onward(|orig|, t, b, pos, c, pos', c'); on
    ensures var restoring := Restoring(orig, WriteAt(ref, pos, data), t, b, pos', c', written + |data|); restoring
    ensures !Ragged(|orig|, t, b) ==> OwnData(orig, pos, data) && |data| == Min(pos + Width(t, b, c), |orig|) - pos
  {
  }

  /** The input handle between two blocks. */
  ghost predicate Sequential(inf: CachedHandle, input: seq<byte>, written: nat)
    reads inf, inf.file, inf.cbuf
  {
    inf.Reading(inf.cbuf) && inf.posTag == written <= |input| && inf.file.bytes == input
  }

  /** `io61_read` of the next block. */
  method ReadChunk(inf: CachedHandle, buf: array<byte>, blockSize: nat, ghost input: seq<byte>, ghost written: nat)
      returns (amount: nat)
    requires Sequential(inf, input, written) && blockSize <= buf.Length && buf != inf.cbuf
    modifies inf, inf.file, inf.cbuf, buf
    ensures amount <= buf.Length && Sequential(inf, input, written + amount)
    ensures buf[..amount] == Slice(input, written, blockSize)
  {
    SliceInside(input, written, blockSize);
    hide Slice;
    amount := inf.Read(buf, blockSize);
  }

  lemma SliceInside(bytes: seq<byte>, pos: nat, n: nat)
    requires pos <= |bytes|
    ensures pos + |Slice(bytes, pos, n)| <= |bytes|
  {
  }

  /** Writing a block and seeking to the next one. */
  method PutBack(outf: CachedHandle, buf: array<byte>, amount: nat, inputSize: nat, stride: nat, pos: nat,
                 blockSize: nat, ghost orig: seq<byte>, ghost ref: seq<byte>, ghost d: Dest, ghost b: nat, ghost c: nat,
                 ghost written: nat, ghost data: seq<byte>, ghost c': nat)
      returns (pos': nat, blockSize': nat, ghost d': Dest)
    requires Stands(outf, d, pos) && 0 < amount <= buf.Length && buf != outf.cbuf && inputSize == |orig|
    requires outf.size > 0 && written < |orig|
    requires 0 < b <= stride < 0xFFFF_FFFF && c <= stride && 0x8000_0000 % outf.size == 0
      && blockSize == Width(stride, b, c)
    requires Tracking(orig, ref, d, stride, b, outf.size, pos, c, written)
    requires c' == NextColumn(|orig|, stride, pos, c, blockSize) <= stride && data == buf[..amount]
    requires NextWidth(|orig|, stride, pos, blockSize) == Width(stride, b, c')
    requires Planned(orig, ref, stride, b, pos, c, written, data, NextPos(|orig|, stride, pos, blockSize), c')
    modifies outf, outf.file, outf.cbuf
    ensures blockSize' == Width(stride, b, c')
    ensures var after := Stands(outf, d', pos')
        && Tracking(orig, WriteAt(ref, pos, data), d', stride, b, outf.size, pos', c', written + |data|);
      after
  {
    hide *;
    Put(outf, buf, amount, d, pos);
    pos', blockSize' := Advance(inputSize, stride, pos, blockSize);
    d' := SeekNext(outf, pos', d, pos, data);
    TrackingStep(orig, ref, d, d', stride, b, outf.size, pos, c, written, pos', c', data);
  }

  /** One turn of the loop of `ostridecat61`. */
  method CopyBack(inf: CachedHandle, outf: CachedHandle, buf: array<byte>, inputSize: nat, stride: nat, pos: nat,
                  blockSize: nat, ghost orig: seq<byte>, ghost input: seq<byte>, ghost ref: seq<byte>, ghost d: Dest,
                  ghost b: nat, ghost c: nat, ghost written: nat)
      returns (amount: nat, pos': nat, blockSize': nat, ghost c': nat, ghost ref': seq<byte>, ghost d': Dest)
    requires inf != outf && inf.file != outf.file && inf.cbuf != outf.cbuf && 0 < b <= stride < 0xFFFF_FFFF
      && c <= stride
    requires Sequential(inf, input, written) && Strided(orig, stride, b, input) && Stands(outf, d, pos)
    requires outf.size > 0 && 0x8000_0000 % outf.size == 0
      && Tracking(orig, ref, d, stride, b, outf.size, pos, c, written)
    requires written < |orig| == inputSize
    requires blockSize == Width(stride, b, c) <= buf.Length && buf != inf.cbuf && buf != outf.cbuf
    modifies inf, inf.file, inf.cbuf, outf, outf.file, outf.cbuf, buf
    ensures amount > 0 && c' <= stride && blockSize' == Width(stride, b, c')
    ensures var reading := Sequential(inf, input, written + amount); reading
    ensures var writing := Stands(outf, d', pos')
      && Tracking(orig, ref', d', stride, b, outf.size, pos', c', written + amount); writing
  {
    hide *;
    TrackingIs(orig, ref, d, stride, b, outf.size, pos, c, written);
    amount := ReadChunk(inf, buf, blockSize, input, written);
    ghost var data := buf[..amount];
    assert |data| == amount;
    PlanAhead(orig, ref, stride, b, pos, c, written, input, blockSize, data);
    c', ref' := NextColumn(|orig|, stride, pos, c, blockSize), WriteAt(ref, pos, data);
    pos', blockSize', d' := PutBack(outf, buf, amount, inputSize, stride, pos, blockSize, orig, ref, d, b, c, written,
      data, c');
  }

  /** `ostridecat61` over io61.c, given the output of `stridecat61` with the
      same block size and stride.  With a ragged edge the output is longer
      than the original; without one it is the original if every step is
      fine, and otherwise the byte at the start of a buffer block is that of
      another place. */
  method Ostridecat(inf: CachedHandle, outf: CachedHandle, stride: nat, blockSize0: nat, ghost orig: seq<byte>)
    requires inf.Reading(inf.cbuf) && inf.posTag == 0 && outf.Writing() && outf.Written() == []
    requires inf != outf && inf.file != outf.file && inf.cbuf != outf.cbuf
    requires 0 < blockSize0 <= stride < 0xFFFF_FFFF && 0x8000_0000 % outf.size == 0
    requires Strided(orig, stride, blockSize0, inf.file.bytes)
    modifies inf, inf.file, inf.cbuf, outf, outf.file, outf.cbuf
    ensures Ragged(|orig|, stride, blockSize0) ==> |outf.file.bytes| > |orig|
    ensures !Ragged(|orig|, stride, blockSize0) && Fine(|orig|, stride, blockSize0, outf.size) ==>
      outf.file.bytes == orig
    ensures forall e: nat ::
      !Ragged(|orig|, stride, blockSize0) && BadStep(|orig|, stride, blockSize0, outf.size, e) ==>
      Aligned(e, outf.size) >= 0 && Wrong(orig, outf.file.bytes, Aligned(e, outf.size))
  {
    ghost var c: nat, ref: seq<byte>, input := 0, [], inf.file.bytes;
    var inputSize := |inf.file.bytes|;
    var buf := new byte[blockSize0];
    var blockSize: nat, pos: nat, written: nat := blockSize0, 0, 0;
    ghost var d := SeekStart(outf);
    TrackingStart(orig, d, stride, blockSize0, outf.size);
    hide *;
    while written < inputSize
      invariant written <= |orig| == inputSize && c <= stride && blockSize == Width(stride, blockSize0, c) <= blockSize0
      invariant Sequential(inf, input, written) && Stands(outf, d, pos)
      invariant Tracking(orig, ref, d, stride, blockSize0, outf.size, pos, c, written)
      decreases inputSize - written
    {
      var amount;
      amount, pos, blockSize, c, ref, d :=
        CopyBack(inf, outf, buf, inputSize, stride, pos, blockSize, orig, input, ref, d, blockSize0, c, written);
      if amount <= 0 { break; }
      written := written + amount;
    }
    TrackingEnd(orig, ref, d, stride, blockSize0, outf.size, pos, c);
    CloseSought(outf, d, pos);
  }

  /** The seek to 0 before anything is written. */
  method SeekStart(outf: CachedHandle) returns (ghost d: Dest)
    requires outf.Writing() && outf.Written() == []
    modifies outf, outf.file
    ensures Stands(outf, d, 0) && d.file == d.promised == [] && d.tag == 0 && outf.size > 0
  {
    AlignedBelow(0, outf.size);
    SeekOn(outf, 0);
    d := Dest(outf.file.bytes, outf.Written(), outf.tag, outf.cbuf[0]);
  }

  /** `io61_close` behind a seek: nothing is left to write. */
  method CloseSought(outf: CachedHandle, ghost d: Dest, ghost pos: nat)
    requires Stands(outf, d, pos)
    modifies outf, outf.file
    ensures outf.file.bytes == d.file
  {
    WriteNothing(outf.file.bytes, outf.tag);
    assert outf.cbuf[..0] == [];
    outf.FlushBlocks();
  }

  // ----------------------------------------------------- there and back

  lemma StridedBy(orig: seq<byte>, t: nat, b: nat)
    requires 0 < b <= t && Within(|orig|, Visit(|orig|, t, b, 0, 0))
    ensures Strided(orig, t, b, Pick(orig, Visit(|orig|, t, b, 0, 0)))
  {
    VisitPermutation(|orig|, t, b);
  }

  /** `stridecat61`, then `ostridecat61` of its output, on freshly opened
      handles and for every first `counter`. */
  method ThereAndBack(orig: seq<byte>, t: nat, b: nat, size: nat, counter: int) returns (back: seq<byte>)
    requires 0 < b <= t < 0xFFFF_FFFF && size > 0 && 0x8000_0000 % size == 0
    ensures Ragged(|orig|, t, b) ==> |back| > |orig|
    ensures !Ragged(|orig|, t, b) && Fine(|orig|, t, b, size) ==> back == orig
    ensures forall e: nat :: !Ragged(|orig|, t, b) && BadStep(|orig|, t, b, size, e) ==>
      Aligned(e, size) >= 0 && Wrong(orig, back, Aligned(e, size))
  {
    var strided := Fresh(orig, t, b, size, counter);
    var from := new File(strided, true);
    var to := new File([], true);
    var inf := new CachedHandle(from, O_RDONLY, size, counter);
    var outf := new CachedHandle(to, O_WRONLY, size, counter);
    assert outf.cbuf[..0] == [];
    WriteNothing(to.bytes, 0);
    hide Ragged, Fine, BadStep, Wrong, Visit, Pick, Within, WriteAt, Strided;
    Ostridecat(inf, outf, t, b, orig);
    back := to.bytes;
  }

  /** `stridecat61` on freshly opened handles. */
  method Fresh(orig: seq<byte>, t: nat, b: nat, size: nat, counter: int) returns (strided: seq<byte>)
    requires 0 < b <= t && size > 0
    ensures Strided(orig, t, b, strided)
  {
    var from := new File(orig, true);
    var to := new File([], true);
    var inf := new CachedHandle(from, O_RDONLY, size, counter);
    var outf := new CachedHandle(to, O_WRONLY, size, counter);
    assert outf.cbuf[..0] == [];
    WriteNothing(to.bytes, 0);
    hide Visit, Pick, Within, WriteAt, Strided;
    Stridecat(inf, outf, t, b);
    strided := to.bytes;
    StridedBy(orig, t, b);
  }

  /** Whenever a step is not fine there is a file that does not come back. */
  method LostOriginal(n: nat, t: nat, b: nat, size: nat, counter: int) returns (orig: seq<byte>, back: seq<byte>)
    requires 0 < b <= t < 0xFFFF_FFFF && size > 0 && 0x8000_0000 % size == 0 && !Ragged(n, t, b) && !Fine(n, t, b, size)
    ensures |orig| == n && back != orig
  {
    var e := SomeBadStep(n, t, b, size);
    BadStepIs(n, t, b, size, e);
    var lo: nat := Aligned(e, size);
    orig := Zeros(n)[lo := 1];
    hide Ragged, Fine, BadStep, Aligned;
    back := ThereAndBack(orig, t, b, size, counter);
    assert Wrong(orig, back, lo);
  }

  // ------------------------------------------------------- smaller files

  /** Up to 2 GB the columns are sound unless the second column is the last
      one, a single byte wide and not at the start of a buffer block, and is
      reached from the second row. */
  lemma SmallColumns(n: nat, t: nat, b: nat, size: nat)
    requires 0 < b <= t && 2 <= t < n <= 0x8000_0000 && size > 0
    ensures SoundColumns(n, t, b, size) <==> !(b + 1 == t && n <= 2 * t && b % size != 0)
  {
    forall c: nat | c + t < n && c + b < t && c % b == 0
      ensures SoundColumn(n, t, b, size, c) <==> !(c == 0 && b + 1 == t && n <= 2 * t && b % size != 0)
    {
      SmallColumn(n, t, b, size, c);
    }
    SmallMod(0, b);
    hide SoundColumn;
    assert b + 1 == t ==> (SoundColumn(n, t, b, size, 0) <==> !(n <= 2 * t && b % size != 0));
  }

  lemma SmallColumn(n: nat, t: nat, b: nat, size: nat, c: nat)
    requires 0 < b <= t && 2 <= t < n <= 0x8000_0000 && size > 0 && c + t < n && c + b < t
    ensures SoundColumn(n, t, b, size, c) <==> !(c == 0 && b + 1 == t && n <= 2 * t && b % size != 0)
  {
    var q, p := (n - 1 - c) / t, LastRow(n, t, c);
    ModBounds(n - 1 - c, t);
    assert n - 1 - c == q * t + (n - 1 - c) % t && p == c + q * t;
    assert q == 0 ==> q * t == 0;
    MulAtLeast(q, t);
    if q >= 2 { MulOrdered(2, q, t); }
    SmallInts(p, c + b);
    hide ToInt, LastRow;
  }

  lemma SmallInts(p: nat, next: nat)
    requires p < 0x8000_0000 && next < 0x8000_0000
    ensures ToInt(p) == p && ToInt(next) == next
  {
  }

  /** The four bytes of two strides of single bytes: the step from 2 to 1. */
  lemma FourBytes(size: nat)
    requires size >= 2
    ensures !Ragged(4, 2, 1) && BadStep(4, 2, 1, size, 1)
  {
    SmallColumn(4, 2, 1, size, 0);
    SmallMod(1, size);
    hide SoundColumn;
  }
}

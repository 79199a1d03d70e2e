/** pset3/reverse61.c: copying a file backwards, character by character. */
module Reverse {
  import opened Basics
  import opened Io61
  import opened Modular
  import opened OsFile

  /** `out` is the end of `input` from `m`, backwards. */
  predicate Backwards(input: seq<byte>, out: seq<byte>, m: nat) {
    m + |out| == |input| && forall i :: 0 <= i < |out| ==> out[i] == input[|input| - 1 - i]
  }

  lemma BackwardsStep(input: seq<byte>, out: seq<byte>, m: nat)
    requires 0 < m && Backwards(input, out, m)
    ensures Backwards(input, WriteAt(out, |out|, [input[m - 1]]), m - 1)
    ensures |WriteAt(out, |out|, [input[m - 1]])| == |out| + 1
  {
  }

  /** Blocks of `b` needed to cover `x` bytes. */
  function Blocks(x: nat, b: nat): (k: nat)
    requires b > 0
  {
    (x + b - 1) / b
  }

  /** The block below `x` and the blocks below that. */
  lemma BlocksBelow(x: nat, b: nat)
    requires b > 0 && x > 0
    ensures 0 <= Aligned(x - 1, b) < x <= Aligned(x - 1, b) + b
    ensures Blocks(x, b) == Blocks(Aligned(x - 1, b), b) + 1
  {
    var q, r := (x - 1) / b, (x - 1) % b;
    assert x - 1 == q * b + r && Aligned(x - 1, b) == q * b;
    MulOrdered(0, q, b);
    assert (q + 1) * b == q * b + b;
    ModUnique(b, q + 1, r, x + b - 1);
    ModUnique(b, q, b - 1, q * b + b - 1);
  }

  lemma NoBlocks(b: nat)
    requires b > 0
    ensures Blocks(0, b) == 0
  {
  }

  /** The reader after position `m` (or at the start, with `m` the size):
      the reads so far, with those that the bytes below the cached ones will
      take, are within the bound. */
  ghost predicate Reversing(inf: CachedHandle, m: nat)
    reads inf, inf.file, inf.memory
  {
    var n := |inf.file.bytes|;
    inf.Reading(inf.memory) && inf.file.fullReads && m <= n && inf.counter == ToInt(if m < n then m else 0)
    && (m == n ==> inf.tag == inf.endTag == 0 && inf.file.dataReads == 0)
    && (n <= 0x8000_0000 && m < n ==>
      inf.tag <= m < inf.endTag && inf.file.dataReads + Blocks(inf.tag, inf.size) <= 1 + Blocks(n - 1, inf.size))
  }

  lemma StepBack(m: nat)
    requires 0 < m < 0x8000_0000
    ensures Adjacent(m - 1, ToInt(m))
  {
  }

  /** The reader moved to position `pos`, with or without the need to read. */
  ghost predicate Placed(inf: CachedHandle, pos: nat)
    reads inf, inf.file, inf.memory
  {
    var n := |inf.file.bytes|;
    inf.Reading(inf.memory) && inf.file.fullReads && inf.posTag == pos < n && inf.counter == ToInt(pos)
    && (pos <= inf.endTag || (inf.tag == inf.endTag && pos < inf.endTag + inf.size))
    && (n <= 0x8000_0000 ==> pos < inf.endTag || inf.tag == inf.endTag)
    && (n <= 0x8000_0000 ==>
      inf.file.dataReads + (if pos < inf.endTag then 0 else 1) + Blocks(inf.tag, inf.size)
        <= 1 + Blocks(n - 1, inf.size))
  }

  method SeekBackwards(inf: CachedHandle, m: nat)
    requires Reversing(inf, m) && 0 < m
    modifies inf, inf.file
    ensures inf.file.bytes == old(inf.file.bytes) && Placed(inf, m - 1)
  {
    BlocksBelow(m, inf.size);
    NoBlocks(inf.size);
    ForwardSeek(inf.counter, inf.size, m - 1);
    if m < 0x8000_0000 { StepBack(m); }
    hide ToInt, Aligned, Adjacent, Blocks, SoundSeek, Slice;
    var r := inf.SeekRead(inf.memory, m - 1);
  }

  method ReadPlaced(inf: CachedHandle, pos: nat) returns (ch: int)
    requires Placed(inf, pos)
    modifies inf, inf.file, inf.memory
    ensures inf.file.bytes == old(inf.file.bytes) && Reversing(inf, pos) && ch == inf.file.bytes[pos]
  {
    if inf.endTag < |inf.file.bytes| { SliceSize(inf.file.bytes, inf.endTag, inf.size); }
    hide ToInt, Blocks, Slice;
    ch := inf.Readc();
  }

  /** The writer with `out` typed so far. */
  ghost predicate Typing(outf: CachedHandle, out: seq<byte>)
    reads outf, outf.file, outf.memory
  {
    outf.Ring() && outf.Typed() == out && outf.file.offset + outf.cacheSize == |out|
  }

  method TypeNext(outf: CachedHandle, ghost input: seq<byte>, ghost out: seq<byte>, ghost m: nat, ch: int)
      returns (ghost out': seq<byte>)
    requires Typing(outf, out) && Backwards(input, out, m) && 0 < m && ch == input[m - 1]
    modifies outf, outf.file, outf.memory
    ensures Typing(outf, out') && Backwards(input, out', m - 1)
  {
    BackwardsStep(input, out, m);
    out' := WriteAt(out, |out|, [input[m - 1]]);
    hide WriteAt, Backwards;
    SmallMod(ch, 256);
    var r := outf.Writec(ch);
  }

  method StartReversing(inf: CachedHandle)
    requires inf.Reading(inf.memory) && inf.posTag == inf.tag == inf.endTag == 0 && inf.file.fullReads
      && inf.file.dataReads == 0
    modifies inf, inf.file
    ensures inf.file.bytes == old(inf.file.bytes) && Reversing(inf, |inf.file.bytes|)
  {
    ForwardSeek(inf.counter, inf.size, 0);
    hide SoundSeek;
    var r := inf.SeekRead(inf.memory, 0);
  }

  /** `reverse61` on a file whose reads are never short: the output is the
      input backwards, and up to 2 GB there is one read for the last byte and
      one for each block of the rest. */
  method ReverseFile(inf: CachedHandle, outf: CachedHandle)
    requires inf.Reading(inf.memory) && inf.posTag == inf.tag == inf.endTag == 0 && inf.file.fullReads
      && inf.file.dataReads == 0
    requires Typing(outf, [])
    requires inf != outf && inf.file != outf.file && inf.memory != outf.memory
    modifies inf, inf.file, inf.memory, outf, outf.file, outf.memory
    ensures Backwards(old(inf.file.bytes), outf.file.bytes, 0)
    ensures 1 <= |inf.file.bytes| <= 0x8000_0000 ==> inf.file.dataReads <= 1 + Blocks(|inf.file.bytes| - 1, inf.size)
  {
    ghost var input, out := inf.file.bytes, [];
    var inputSize := |inf.file.bytes|;
    StartReversing(inf);
    while inputSize != 0
      invariant 0 <= inputSize <= |input| && inf.file.bytes == input && Reversing(inf, inputSize)
      invariant Typing(outf, out) && Backwards(input, out, inputSize)
    {
      hide *;
      SeekBackwards(inf, inputSize);
      var ch := ReadPlaced(inf, inputSize - 1);
      out := TypeNext(outf, input, out, inputSize, ch);
      inputSize := inputSize - 1;
    }
    outf.FlushChars();
  }
}

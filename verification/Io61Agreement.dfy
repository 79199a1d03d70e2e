/** The cached library and slow-io61 side by side: the same operations on the
    same file give the same answers and leave the same file. */
module Io61Agreement {
  import opened Basics
  import opened Io61
  import opened Modular
  import opened OsFile
  import opened SlowIo61

  datatype ReadOp = ReadBlock(n: nat) | SeekTo(pos: int)
  datatype WriteOp = WriteBlock(data: seq<byte>) | Flush | MoveTo(pos: int)
  datatype Reply = Data(bytes: seq<byte>) | Status(r: int)

  /** `counter` after a seek to `pos`. */
  function After(counter: int, pos: int): int { if pos >= 0 then ToInt(pos) else counter }

  predicate SoundReads(ops: seq<ReadOp>, counter: int, size: nat)
    requires size > 0
  {
    ops == []
    || (ops[0].ReadBlock? && SoundReads(ops[1..], counter, size))
    || (ops[0].SeekTo? && SoundSeek(O_RDONLY, counter, size, ops[0].pos)
        && SoundReads(ops[1..], After(counter, ops[0].pos), size))
  }

  predicate SoundWrites(ops: seq<WriteOp>, counter: int, size: nat)
    requires size > 0
  {
    ops == []
    || (!ops[0].MoveTo? && SoundWrites(ops[1..], counter, size))
    || (ops[0].MoveTo? && SoundSeek(O_WRONLY, counter, size, ops[0].pos)
        && SoundWrites(ops[1..], After(counter, ops[0].pos), size))
  }

  /** Every non-negative seek of a reader is sound, whatever `counter` is. */
  lemma {:induction false} ForwardReadsSound(ops: seq<ReadOp>, counter: int, size: nat)
    requires size > 0 && forall op :: op in ops && op.SeekTo? ==> op.pos >= 0
    ensures SoundReads(ops, counter, size)
  {
    if ops != [] {
      ForwardReadsSound(ops[1..], if ops[0].SeekTo? then After(counter, ops[0].pos) else counter, size);
    }
  }

  /** What one operation should get from position `pos` of a file. */
  function ReplyTo(op: ReadOp, bytes: seq<byte>, pos: nat): Reply {
    match op
    case ReadBlock(n) => Data(if pos < |bytes| then bytes[pos..Min(pos + n, |bytes|)] else [])
    case SeekTo(to) => Status(if to >= 0 then 0 else -1)
  }

  /** The position after it. */
  function NextPos(op: ReadOp, bytes: seq<byte>, pos: nat): nat {
    match op
    case ReadBlock(n) => if pos < |bytes| then Min(pos + n, |bytes|) else pos
    case SeekTo(to) => if to >= 0 then to else pos
  }

  /** What readers should get. */
  function Replies(ops: seq<ReadOp>, bytes: seq<byte>, pos: nat): (r: seq<Reply>)
    ensures |r| == |ops|
  {
    if ops == [] then [] else [ReplyTo(ops[0], bytes, pos)] + Replies(ops[1..], bytes, NextPos(ops[0], bytes, pos))
  }

  /** What writers should leave of a file when they start at position `pos`. */
  function Rewritten(ops: seq<WriteOp>, bytes: seq<byte>, pos: nat): seq<byte> {
    if ops == [] then bytes
    else
      match ops[0]
      case WriteBlock(data) => Rewritten(ops[1..], WriteAt(bytes, pos, data), pos + |data|)
      case Flush => Rewritten(ops[1..], bytes, pos)
      case MoveTo(to) => Rewritten(ops[1..], bytes, if to >= 0 then to else pos)
  }

  /** What their operations should return. */
  function Results(ops: seq<WriteOp>): (r: seq<int>)
    ensures |r| == |ops|
  {
    if ops == [] then []
    else
      match ops[0]
      case WriteBlock(data) => [|data|] + Results(ops[1..])
      case Flush => [0] + Results(ops[1..])
      case MoveTo(to) => [if to >= 0 then 0 else -1] + Results(ops[1..])
  }

  /** One more operation of a fold that goes on with `rest`. */
  lemma OneReply<T>(done: seq<T>, next: T, rest: seq<T>)
    ensures done + ([next] + rest) == (done + [next]) + rest
  {
  }

  /** One read or seek on both. */
  method ReadStep(fast: CachedHandle, slow: SlowHandle, op: ReadOp) returns (a: Reply, b: Reply)
    requires fast.Reading(fast.cbuf) && fast.file != slow.file
    requires slow.file.bytes == fast.file.bytes && slow.file.offset == fast.posTag
    requires op.SeekTo? ==> SoundSeek(O_RDONLY, fast.counter, fast.size, op.pos)
    modifies fast, fast.file, fast.cbuf, slow.file
    ensures fast.Reading(fast.cbuf) && fast.file.bytes == slow.file.bytes == old(fast.file.bytes)
    ensures a == b == ReplyTo(op, fast.file.bytes, old(fast.posTag))
    ensures slow.file.offset == fast.posTag == NextPos(op, fast.file.bytes, old(fast.posTag))
    ensures fast.counter == if op.SeekTo? then After(old(fast.counter), op.pos) else old(fast.counter)
  {
    assert fast.mode == O_RDONLY && (op.SeekTo? ==> op.pos != -1);
    hide Adjacent, Aligned, RoundsUp, SoundSeek, ToInt, CachedHandle.Reading;
    match op {
      case ReadBlock(n) =>
        var x, y := new byte[n], new byte[n];
        var ra := fast.Read(x, n);
        var rb := slow.Read(y, n);
        a, b := Data(x[..ra]), Data(y[..rb]);
      case SeekTo(pos) =>
        var ra := fast.SeekRead(fast.cbuf, pos);
        var rb := slow.Seek(pos);
        a, b := Status(ra), Status(rb);
    }
  }

  /** Readers: for every sequence of reads and seeks, every pattern of short
      reads and every initial `counter`, the replies of both libraries are
      those that the file has to give. */
  method RunReaders(fast: CachedHandle, slow: SlowHandle, ops: seq<ReadOp>)
      returns (fastReplies: seq<Reply>, slowReplies: seq<Reply>)
    requires fast.Reading(fast.cbuf) && fast.file != slow.file
    requires slow.file.bytes == fast.file.bytes && slow.file.offset == fast.posTag
    requires SoundReads(ops, fast.counter, fast.size)
    modifies fast, fast.file, fast.cbuf, slow.file
    ensures fastReplies == slowReplies == Replies(ops, old(fast.file.bytes), old(fast.posTag))
    ensures fast.file.bytes == slow.file.bytes == old(fast.file.bytes)
  {
    fastReplies, slowReplies := [], [];
    ghost var bytes, all := fast.file.bytes, Replies(ops, fast.file.bytes, fast.posTag);
    for i := 0 to |ops|
      invariant fast.Reading(fast.cbuf) && fast.file.bytes == slow.file.bytes == bytes
      invariant slow.file.offset == fast.posTag && SoundReads(ops[i..], fast.counter, fast.size)
      invariant fastReplies == slowReplies && fastReplies + Replies(ops[i..], bytes, fast.posTag) == all
    {
      assert ops[i..][1..] == ops[i + 1..];
      hide SoundSeek, ToInt, CachedHandle.Reading, ReplyTo, NextPos;
      var a, b := ReadStep(fast, slow, ops[i]);
      OneReply(fastReplies, a, Replies(ops[i + 1..], bytes, fast.posTag));
      fastReplies, slowReplies := fastReplies + [a], slowReplies + [b];
    }
  }

  /** Writers: for every sequence of writes, flushes and sound seeks followed
      by a close, both libraries return and leave what they should. */
  method RunWriters(fast: CachedHandle, slow: SlowHandle, ops: seq<WriteOp>)
      returns (fastResults: seq<int>, slowResults: seq<int>)
    requires fast.Writing() && fast.file != slow.file
    requires slow.file.bytes == fast.Written() && slow.file.offset == fast.posTag
    requires SoundWrites(ops, fast.counter, fast.size)
    modifies fast, fast.file, fast.cbuf, slow.file
    ensures fast.file.bytes == slow.file.bytes == Rewritten(ops, old(fast.Written()), old(fast.posTag))
    ensures fastResults == slowResults == Results(ops)
  {
    hide WriteAt;
    fastResults, slowResults := [], [];
    ghost var final := Rewritten(ops, fast.Written(), fast.posTag);
    for i := 0 to |ops|
      invariant fast.Writing() && slow.file.bytes == fast.Written() && slow.file.offset == fast.posTag
      invariant SoundWrites(ops[i..], fast.counter, fast.size)
      invariant Rewritten(ops[i..], fast.Written(), fast.posTag) == final
      invariant fastResults == slowResults && |fastResults| == i && fastResults + Results(ops[i..]) == Results(ops)
    {
      assert ops[i..][1..] == ops[i + 1..];
      var a, b := 0, 0;
      match ops[i] {
        case WriteBlock(data) =>
          var buf := new byte[|data|](j requires 0 <= j < |data| => data[j]);
          assert buf[..|data|] == data;
          a := fast.Write(buf, |data|);
          b := slow.Write(buf, |data|);
        case Flush =>
          fast.FlushBlocks();
          WriteNothing(fast.file.bytes, fast.tag);
          assert fast.cbuf[..0] == [];
        case MoveTo(pos) =>
          a := fast.SeekWrite(pos);
          b := slow.Seek(pos);
      }
      OneReply(fastResults, a, Results(ops[i + 1..]));
      fastResults, slowResults := fastResults + [a], slowResults + [b];
    }
    fast.CloseBlocks();
  }

  // ------------------------------------------------- one seek, exactly

  /** When a seek to `pos` and a read of `n` bytes go as with slow-io61. */
  predicate ReadsRight(bytes: seq<byte>, position: nat, descriptor: nat, counter: int, size: nat, pos: int, n: nat) {
    pos >= 0
    || (!RoundsUp(pos, counter, size)
        && (pos == -1 ==> Slice(bytes, descriptor, n) == Slice(bytes, position, n)))
  }

  /** The library's side of a seek and a read; the data are None when
      `io61_read` would copy from before the start of its buffer. */
  method FastSeekThenRead(fast: CachedHandle, pos: int, n: nat) returns (status: int, data: Option<seq<byte>>)
    requires fast.Reading(fast.cbuf) && n > 0
    modifies fast, fast.file, fast.cbuf
    ensures fast.file.bytes == old(fast.file.bytes)
    ensures RoundsUp(pos, old(fast.counter), fast.size) ==> status == 0 && data == None
    ensures !RoundsUp(pos, old(fast.counter), fast.size) ==>
      status == SlowSeekResult(pos)
      && data == Some(Slice(fast.file.bytes,
        if pos >= 0 then pos else if pos == -1 then old(fast.endTag) else old(fast.posTag), n))
  {
    var buf := new byte[n];
    ghost var descriptor: nat := fast.endTag;
    hide Target, Adjacent, Aligned, ToInt, Slice;
    status := fast.SeekRead(fast.cbuf, pos);
    if fast.posTag < fast.tag { return status, None; }
    ghost var shift := if pos == -1 then descriptor + 1 else 0;
    hide RoundsUp, SoundSeek;
    var k := fast.Read(buf, n, shift);
    data := Some(buf[..k]);
  }

  /** A seek of a reader and the read after it: the same status and the same
      bytes if and only if the position is not negative, or it is not rounded
      up to block 0 and, for -1, the bytes at the descriptor are those at the
      position. */
  method SeekThenRead(fast: CachedHandle, slow: SlowHandle, pos: int, n: nat)
      returns (fastStatus: int, slowStatus: int, fastData: Option<seq<byte>>, slowData: seq<byte>)
    requires fast.Reading(fast.cbuf) && fast.file != slow.file && n > 0
    requires slow.file.bytes == fast.file.bytes && slow.file.offset == fast.posTag
    modifies fast, fast.file, fast.cbuf, slow.file
    ensures slowStatus == (if pos >= -1 then 0 else -1)
    ensures slowData == Slice(old(fast.file.bytes), if pos >= 0 then pos else old(fast.posTag), n)
    ensures (fastStatus == slowStatus && fastData == Some(slowData)) <==>
      old(ReadsRight(fast.file.bytes, fast.posTag, fast.endTag, fast.counter, fast.size, pos, n))
  {
    hide Adjacent, Slice;
    fastStatus, fastData := FastSeekThenRead(fast, pos, n);
    slowStatus := slow.Seek(pos);
    var buf := new byte[n];
    var k := slow.Read(buf, n);
    slowData := buf[..k];
  }

  /** The bytes of `file` in `[lo, hi)`, with zeros past its end. */
  function Extended(file: seq<byte>, lo: nat, hi: nat): seq<byte>
    requires lo <= hi
  {
    (file + Zeros(hi))[lo..hi]
  }

  /** When a seek to `pos`, a write of `data` and a close leave the file of
      slow-io61: `file` is the file so far, `block` what the buffer holds. */
  predicate WritesRight(file: seq<byte>, position: nat, descriptor: nat, block: seq<byte>, counter: int, pos: int,
                        data: seq<byte>)
    requires block != []
  {
    if pos >= 0 then
      var lo := Target(pos, counter, |block|);
      block[..pos - lo] == Extended(file, lo, pos)
    else
      !RoundsUp(pos, counter, |block|) && WriteAt(file, descriptor, data) == WriteAt(file, position, data)
  }

  /** Rewriting the bytes before `pos` does no harm exactly when they were
      there already. */
  lemma StaleHarmless(file: seq<byte>, lo: nat, pos: nat, stale: seq<byte>, data: seq<byte>)
    requires lo + |stale| == pos && data != []
    ensures WriteAt(WriteAt(file, lo, stale), pos, data) == WriteAt(file, pos, data) <==>
      stale == Extended(file, lo, pos)
  {
    WriteAtTwice(file, lo, stale, data);
    var x, y, z := WriteAt(file, lo, stale + data), WriteAt(file, pos, data), Extended(file, lo, pos);
    assert |x| == |y|;
    StaleBytes(file, lo, pos, stale, data);
    hide WriteAt, Extended;
    if stale == z {
      forall i: nat | i < |x| ensures x[i] == y[i] { assert lo <= i < pos ==> x[i] == stale[i - lo]; }
    }
    if x == y {
      forall i: nat | i < |stale| ensures stale[i] == z[i] { assert x[lo + i] == y[lo + i]; }
    }
  }

  lemma StaleBytes(file: seq<byte>, lo: nat, pos: nat, stale: seq<byte>, data: seq<byte>)
    requires lo + |stale| == pos && data != []
    ensures var x, y, z := WriteAt(file, lo, stale + data), WriteAt(file, pos, data), Extended(file, lo, pos);
      |x| == |y| && |z| == |stale| && pos <= |x|
      && (forall i: nat :: i < |x| ==>
        if lo <= i < pos then x[i] == stale[i - lo] && y[i] == z[i - lo] else x[i] == y[i])
  {
    var x, y, z := WriteAt(file, lo, stale + data), WriteAt(file, pos, data), Extended(file, lo, pos);
    WriteAtByte(file, lo, stale + data, 0);
    WriteAtByte(file, pos, data, 0);
    assert |z| == |stale|;
    forall i: nat | i < |x|
      ensures if lo <= i < pos then x[i] == stale[i - lo] && y[i] == z[i - lo] else x[i] == y[i]
    {
      WriteAtByte(file, lo, stale + data, i);
      WriteAtByte(file, pos, data, i);
      assert lo <= i < pos ==> z[i - lo] == (file + Zeros(pos))[i];
      hide WriteAt, Extended;
    }
    hide WriteAt, Extended;
  }

  /** The library's side of a seek, a write and a close. */
  method FastSeekThenWrite(fast: CachedHandle, pos: int, buf: array<byte>) returns (status: int, inside: bool)
    requires fast.Cached() && buf.Length > 0 && buf != fast.cbuf
    modifies fast, fast.file, fast.cbuf
    ensures pos >= 0 ==> status == 0 && inside
    ensures pos >= 0 ==>
      var lo := Target(pos, old(fast.counter), fast.size);
      fast.file.bytes == WriteAt(WriteAt(old(fast.Flushed()), lo, old(fast.cbuf[..pos - lo])), pos, buf[..])
    ensures RoundsUp(pos, old(fast.counter), fast.size) ==> status == 0 && !inside
    ensures pos < 0 && !RoundsUp(pos, old(fast.counter), fast.size) ==>
      status == SlowSeekResult(pos) && inside
        && fast.file.bytes == WriteAt(old(fast.Flushed()), old(fast.endTag), buf[..])
  {
    hide WriteAt;
    ghost var descriptor: nat := fast.file.offset + fast.endTag - fast.tag;
    ghost var file := fast.Flushed();
    assert fast.cbuf[..0] == [];
    WriteNothing(file, descriptor);
    status := fast.SeekWrite(pos);
    hide Adjacent, Aligned, ToInt, RoundsUp;
    if fast.posTag < fast.tag { return status, false; }
    inside := true;
    ghost var shift := if pos == -1 then descriptor + 1 else 0;
    assert buf[..buf.Length] == buf[..];
    var n := fast.Write(buf, buf.Length, shift);
    fast.CloseBlocks(shift);
  }

  /** A seek of a writer, a write that is not empty, and a close: the same
      status and the same file if and only if the position is a step to no
      neighbour, or the block before it in the buffer happens to be what the
      file has there; and, for a negative one, it is not rounded up to block
      0 and writing at the descriptor is writing at the position.  `inside`
      is false when `io61_write` would store before the start of its buffer. */
  method SeekThenWrite(fast: CachedHandle, slow: SlowHandle, pos: int, buf: array<byte>)
      returns (fastStatus: int, slowStatus: int, inside: bool)
    requires fast.Cached() && fast.file != slow.file && buf.Length > 0 && buf != fast.cbuf
    requires slow.file.bytes == fast.Flushed() && slow.file.offset == fast.posTag
    modifies fast, fast.file, fast.cbuf, slow.file
    ensures slowStatus == (if pos >= -1 then 0 else -1)
    ensures slow.file.bytes == WriteAt(old(fast.Flushed()), if pos >= 0 then pos else old(fast.posTag), buf[..])
    ensures (fastStatus == slowStatus && inside && fast.file.bytes == slow.file.bytes) <==>
      old(WritesRight(fast.Flushed(), fast.posTag, fast.endTag, fast.cbuf[..], fast.counter, pos, buf[..]))
  {
    hide WriteAt, Target, RoundsUp, Extended, CachedHandle.Flushed;
    ghost var file, block, counter, data := fast.Flushed(), fast.cbuf[..], fast.counter, buf[..];
    fastStatus, inside := FastSeekThenWrite(fast, pos, buf);
    slowStatus := slow.Seek(pos);
    assert buf[..buf.Length] == data;
    var n := slow.Write(buf, buf.Length);
    if pos >= 0 {
      var lo := Target(pos, counter, fast.size);
      assert block[..pos - lo] == old(fast.cbuf[..pos - lo]);
      StaleHarmless(file, lo, pos, block[..pos - lo], data);
    }
  }

  /** What reading `count` characters from `pos` on should give: -1 at the end. */
  function CharsFrom(bytes: seq<byte>, pos: nat, count: nat): (r: seq<int>)
    ensures |r| == count
  {
    if count == 0 then [] else CharsFrom(bytes, pos, count - 1) + [ByteAt(bytes, pos + count - 1)]
  }

  /** Characters read one by one, past the end of the file too, for every
      pattern of short reads. */
  method RunCharReaders(fast: CachedHandle, slow: SlowHandle, count: nat)
      returns (fastChars: seq<int>, slowChars: seq<int>)
    requires fast.Reading(fast.memory) && fast.posTag <= fast.endTag && fast.file != slow.file
    requires slow.file.bytes == fast.file.bytes && slow.file.offset == fast.posTag
    modifies fast, fast.file, fast.memory, slow.file
    ensures fastChars == slowChars == CharsFrom(old(fast.file.bytes), old(fast.posTag), count)
  {
    fastChars, slowChars := [], [];
    ghost var bytes, pos := fast.file.bytes, fast.posTag;
    for i := 0 to count
      invariant fast.Reading(fast.memory) && fast.posTag <= fast.endTag
      invariant slow.file.bytes == fast.file.bytes == bytes && slow.file.offset == fast.posTag
      invariant fast.posTag == if pos + i <= |bytes| then pos + i else if pos <= |bytes| then |bytes| else pos
      invariant fastChars == slowChars == CharsFrom(bytes, pos, i)
    {
      var a := fast.Readc();
      var b := slow.Readc();
      fastChars, slowChars := fastChars + [a], slowChars + [b];
    }
  }

  // ------------------------------------- characters and seeks, exactly

  datatype CharOp = NextChar | SeekChar(pos: nat)

  /** What decides whether a character reader goes on like slow-io61; the
      character buffer `memory` is as long as a block. */
  datatype Place = Place(tag: nat, endTag: nat, pos: nat, counter: int, memory: seq<byte>) {
    function Sought(to: nat): (r: Place)
      requires |memory| > 0
      ensures |r.memory| == |memory|
    {
      if tag <= to <= endTag then Place(tag, endTag, to, ToInt(to), memory)
      else
        var lo := Target(to, counter, |memory|);
        Place(lo, lo, to, ToInt(to), memory)
    }

    /** After one `io61_readc` whose `read`, when there is one, delivers `m`
        bytes; it delivers none exactly at the end of the file. */
    function Next(bytes: seq<byte>, m: nat): (r: Place)
      ensures |r.memory| == |memory|
    {
      if pos < endTag then Place(tag, endTag, pos + 1, counter, memory)
      else if |bytes| <= endTag then Place(endTag, endTag, pos, counter, memory)
      else Place(endTag, endTag + m, pos + 1, counter, Front(memory, Slice(bytes, endTag, m)))
    }

    function Step(op: CharOp, bytes: seq<byte>, m: nat): (r: Place)
      requires |memory| > 0
      ensures |r.memory| == |memory|
    {
      match op
      case NextChar => Next(bytes, m)
      case SeekChar(to) => Sought(to)
    }

    /** What a full read delivers. */
    function Full(bytes: seq<byte>): nat {
      if pos < endTag then 0 else |Slice(bytes, endTag, |memory|)|
    }

    /** The `m` bytes end before the position, where the buffer keeps
        something else than the file has. */
    predicate Wrong(bytes: seq<byte>, m: nat) {
      endTag < |bytes| && endTag + m <= pos && ByteAt(memory, pos - endTag) != ByteAt(bytes, pos)
    }

    /** The position is at or past the end of the file, the descriptor is not. */
    predicate Stale(n: nat) { endTag < n <= pos }
  }

  /** The place after `ops` when the reads deliver `lens`, a number for each
      operation that has a read. */
  function Reached(ops: seq<CharOp>, lens: seq<nat>, place: Place, bytes: seq<byte>): (r: Place)
    requires |lens| == |ops| && |place.memory| > 0
    ensures |r.memory| == |place.memory|
  {
    if ops == [] then place else Reached(ops[1..], lens[1..], place.Step(ops[0], bytes, lens[0]), bytes)
  }

  /** What one of them should give from `pos` on, and where it ends. */
  function CharReply(op: CharOp, bytes: seq<byte>, pos: nat): int { if op.NextChar? then ByteAt(bytes, pos) else 0 }

  function CharPos(op: CharOp, bytes: seq<byte>, pos: nat): nat {
    match op
    case NextChar => if pos < |bytes| then pos + 1 else pos
    case SeekChar(to) => to
  }

  /** What characters and seeks should give. */
  function CharReplies(ops: seq<CharOp>, bytes: seq<byte>, pos: nat): (r: seq<int>)
    ensures |r| == |ops|
  {
    if ops == [] then []
    else [CharReply(ops[0], bytes, pos)] + CharReplies(ops[1..], bytes, CharPos(ops[0], bytes, pos))
  }

  /** No character is wrong. */
  predicate Clean(ops: seq<CharOp>, lens: seq<nat>, place: Place, bytes: seq<byte>)
    requires |lens| == |ops| && |place.memory| > 0
  {
    ops == []
    || ((ops[0].NextChar? ==> !place.Wrong(bytes, lens[0]))
        && Clean(ops[1..], lens[1..], place.Step(ops[0], bytes, lens[0]), bytes))
  }

  lemma {:induction false} CleanMore(ops: seq<CharOp>, lens: seq<nat>, op: CharOp, m: nat, place: Place,
                                     bytes: seq<byte>)
    requires |lens| == |ops| && |place.memory| > 0
    ensures
      var at := Reached(ops, lens, place, bytes);
      (Clean(ops, lens, place, bytes) && (op.NextChar? ==> !at.Wrong(bytes, m)) <==>
        Clean(ops + [op], lens + [m], place, bytes))
      && Reached(ops + [op], lens + [m], place, bytes) == at.Step(op, bytes, m)
  {
    hide Place.Step, Place.Wrong;
    if ops == [] {
      var at := place.Step(op, bytes, m);
      assert Clean([], [], at, bytes) && Reached([], [], at, bytes) == at;
    } else {
      assert (ops + [op])[1..] == ops[1..] + [op] && (lens + [m])[1..] == lens[1..] + [m];
      CleanMore(ops[1..], lens[1..], op, m, place.Step(ops[0], bytes, lens[0]), bytes);
    }
  }

  /** Every read being full, no character is asked for in a stale place. */
  predicate Fresh(ops: seq<CharOp>, place: Place, bytes: seq<byte>)
    requires |place.memory| > 0
  {
    ops == []
    || ((ops[0].NextChar? ==> !place.Stale(|bytes|))
        && Fresh(ops[1..], place.Step(ops[0], bytes, place.Full(bytes)), bytes))
  }

  /** Every seek goes to the position itself, not to the start of its block. */
  predicate Exact(ops: seq<CharOp>, counter: int, size: nat)
    requires size > 0
  {
    ops == []
    || (ops[0].NextChar? && Exact(ops[1..], counter, size))
    || (ops[0].SeekChar? && Target(ops[0].pos, counter, size) == ops[0].pos
        && Exact(ops[1..], ToInt(ops[0].pos), size))
  }

  /** With exact seeks no character is wrong, however short the reads are. */
  lemma {:induction false} ExactClean(ops: seq<CharOp>, lens: seq<nat>, place: Place, bytes: seq<byte>)
    requires |lens| == |ops| && |place.memory| > 0 && place.pos <= place.endTag
    requires forall m :: m in lens ==> m > 0
    requires Exact(ops, place.counter, |place.memory|)
    ensures Clean(ops, lens, place, bytes)
  {
    if ops != [] {
      assert lens[0] in lens;
      assert forall m :: m in lens[1..] ==> m in lens;
      hide Target, ToInt, Front, Slice;
      ExactClean(ops[1..], lens[1..], place.Step(ops[0], bytes, lens[0]), bytes);
    }
  }

  /** The library between two operations. */
  ghost predicate At(fast: CachedHandle, place: Place)
    reads fast, fast.file, fast.memory
  {
    Reads(fast) && place == Place(fast.tag, fast.endTag, fast.posTag, fast.counter, fast.memory[..])
  }

  ghost predicate Reads(fast: CachedHandle)
    reads fast, fast.file, fast.memory
  {
    fast.Reading(fast.memory) && fast.posTag < fast.endTag + fast.size
  }

  /** The library's side of a character, with the number `m` of bytes that
      it read for it, if it read any. */
  method FastChar(fast: CachedHandle, ghost place: Place) returns (a: int, ghost m: nat)
    requires At(fast, place)
    modifies fast, fast.file, fast.memory
    ensures fast.file.bytes == old(fast.file.bytes) && m > 0 && At(fast, place.Next(fast.file.bytes, m))
    ensures a ==
      if place.endTag < |fast.file.bytes| && place.endTag + m <= place.pos then
        ByteAt(place.memory, place.pos - place.endTag)
      else ByteAt(fast.file.bytes, place.pos)
    ensures place.endTag <= place.pos && place.endTag < |fast.file.bytes| ==> place.endTag + m <= |fast.file.bytes|
    ensures place.endTag <= place.pos && place.endTag < |fast.file.bytes| && fast.file.fullReads ==>
      m == |Slice(fast.file.bytes, place.endTag, |place.memory|)|
  {
    ghost var bytes := fast.file.bytes;
    hide Slice;
    a := fast.Readc();
    m := if place.pos < place.endTag || |bytes| <= place.endTag then 1 else fast.endTag - fast.tag;
    assert fast.memory[..] == place.Next(bytes, m).memory;
    hide *;
  }

  /** One character on both: they differ exactly when it is wrong. */
  method CharStep(fast: CachedHandle, slow: SlowHandle, ghost place: Place) returns (a: int, b: int, ghost m: nat)
    requires At(fast, place) && fast.file != slow.file && slow.file.bytes == fast.file.bytes
    modifies fast, fast.file, fast.memory, slow.file
    ensures fast.file.bytes == slow.file.bytes == old(fast.file.bytes)
    ensures m > 0 && At(fast, place.Next(fast.file.bytes, m))
    ensures old(slow.file.offset) == place.pos ==>
      (a == b <==> !place.Wrong(fast.file.bytes, m))
      && (a == b ==> slow.file.offset == place.Next(fast.file.bytes, m).pos)
    ensures fast.file.fullReads ==>
      place.Next(fast.file.bytes, m) == place.Next(fast.file.bytes, place.Full(fast.file.bytes))
      && (place.Wrong(fast.file.bytes, m) <==> place.Stale(|fast.file.bytes|))
    ensures b == CharReply(NextChar, fast.file.bytes, old(slow.file.offset))
    ensures slow.file.offset == CharPos(NextChar, fast.file.bytes, old(slow.file.offset))
  {
    ghost var bytes, off := fast.file.bytes, slow.file.offset;
    assert place.tag <= place.endTag && place.tag <= place.pos < place.endTag + |place.memory| && |place.memory| > 0;
    b := slow.Readc();
    assert b == ByteAt(bytes, off) && (place.tag < place.endTag ==> place.endTag <= |bytes|);
    hide At, Slice;
    a, m := FastChar(fast, place);
    Compared(place, bytes, m, a, off);
    hide *;
  }

  /** What the library gives against what the file has at `off`. */
  lemma Compared(place: Place, bytes: seq<byte>, m: nat, a: int, off: nat)
    requires place.tag <= place.endTag && place.tag <= place.pos < place.endTag + |place.memory| && m > 0
    requires place.tag < place.endTag ==> place.endTag <= |bytes|
    requires place.endTag <= place.pos && place.endTag < |bytes| ==> place.endTag + m <= |bytes|
    requires a ==
      if place.endTag < |bytes| && place.endTag + m <= place.pos then ByteAt(place.memory, place.pos - place.endTag)
      else ByteAt(bytes, place.pos)
    ensures off == place.pos ==>
      (a == ByteAt(bytes, off) <==> !place.Wrong(bytes, m))
      && (a == ByteAt(bytes, off) ==> CharPos(NextChar, bytes, off) == place.Next(bytes, m).pos)
    ensures
      (place.endTag <= place.pos && place.endTag < |bytes| ==> m == |Slice(bytes, place.endTag, |place.memory|)|) ==>
      place.Next(bytes, m) == place.Next(bytes, place.Full(bytes)) && (place.Wrong(bytes, m) <==> place.Stale(|bytes|))
  {
    if place.endTag < |bytes| { SliceSize(bytes, place.endTag, |place.memory|); }
    hide Slice, Front;
  }

  /** One seek on both. */
  method SeekStep(fast: CachedHandle, slow: SlowHandle, pos: nat, ghost place: Place) returns (a: int, b: int)
    requires At(fast, place) && fast.file != slow.file && slow.file.bytes == fast.file.bytes
    modifies fast, fast.file, slow.file
    ensures a == b == 0 && fast.file.bytes == slow.file.bytes == old(fast.file.bytes)
    ensures |place.memory| > 0 && slow.file.offset == pos && At(fast, place.Sought(pos))
  {
    ForwardSeek(fast.counter, fast.size, pos);
    ghost var lo := Target(pos, fast.counter, fast.size);
    hide SoundSeek, Adjacent, Aligned, ToInt, RoundsUp;
    a := fast.SeekRead(fast.memory, pos);
    b := slow.Seek(pos);
  }

  /** One operation on both. */
  method CharOpStep(fast: CachedHandle, slow: SlowHandle, op: CharOp, ghost place: Place)
      returns (a: int, b: int, ghost m: nat)
    requires At(fast, place) && fast.file != slow.file && slow.file.bytes == fast.file.bytes && |place.memory| > 0
    modifies fast, fast.file, fast.memory, slow.file
    ensures fast.file.bytes == slow.file.bytes == old(fast.file.bytes) && m > 0
    ensures var at := At(fast, place.Step(op, fast.file.bytes, m)); at
    ensures b == CharReply(op, fast.file.bytes, old(slow.file.offset))
    ensures slow.file.offset == CharPos(op, fast.file.bytes, old(slow.file.offset))
    ensures old(slow.file.offset) == place.pos ==>
      (a == b <==> op.SeekChar? || !place.Wrong(fast.file.bytes, m))
      && (a == b ==> slow.file.offset == place.Step(op, fast.file.bytes, m).pos)
    ensures fast.file.fullReads ==>
      place.Step(op, fast.file.bytes, m) == place.Step(op, fast.file.bytes, place.Full(fast.file.bytes))
      && (op.NextChar? ==> (place.Wrong(fast.file.bytes, m) <==> place.Stale(|fast.file.bytes|)))
  {
    hide At, Reads, CachedHandle.Reading, Place.Next, Place.Stale, Place.Full, Place.Wrong, Slice, Target, ToInt;
    m := 1;
    match op {
      case NextChar => a, b, m := CharStep(fast, slow, place);
      case SeekChar(pos) => a, b := SeekStep(fast, slow, pos, place);
    }
  }

  lemma BothMore(xs: seq<int>, ys: seq<int>, a: int, b: int)
    requires |xs| == |ys|
    ensures xs + [a] == ys + [b] <==> xs == ys && a == b
  {
    assert (xs + [a])[..|xs|] == xs && (ys + [b])[..|xs|] == ys;
    assert (xs + [a])[|xs|] == a && (ys + [b])[|xs|] == b;
  }

  /** Any sequence of `io61_readc` and seeks to positions from 0 up: slow-io61
      gives what the file has, and for the numbers of bytes `lens` that the
      reads delivered the library does so too if and only if no character is
      wrong.  On full reads that is so if and only if no character is asked
      for in a stale place. */
  method RunCharSeekers(fast: CachedHandle, slow: SlowHandle, ops: seq<CharOp>, ghost place: Place)
      returns (fastReplies: seq<int>, slowReplies: seq<int>, ghost lens: seq<nat>)
    requires At(fast, place) && fast.file != slow.file
    requires slow.file.bytes == fast.file.bytes && slow.file.offset == place.pos
    modifies fast, fast.file, fast.memory, slow.file
    ensures |lens| == |ops| && |place.memory| > 0 && forall m :: m in lens ==> m > 0
    ensures slowReplies == CharReplies(ops, old(fast.file.bytes), place.pos)
    ensures fastReplies == slowReplies <==> Clean(ops, lens, place, old(fast.file.bytes))
    ensures fast.file.fullReads ==> (fastReplies == slowReplies <==> Fresh(ops, place, old(fast.file.bytes)))
  {
    fastReplies, slowReplies, lens := [], [], [];
    ghost var bytes, at, full := fast.file.bytes, place, fast.file.fullReads;
    for i := 0 to |ops|
      invariant fast.file.bytes == slow.file.bytes == bytes && |at.memory| > 0 && |lens| == i
      invariant var ok := At(fast, at); ok
      invariant var ok := Chat(ops, fastReplies, slowReplies, lens, place, at, bytes, slow.file.offset, full); ok
    {
      hide *;
      ghost var pos := slow.file.offset;
      var a, b;
      ghost var m;
      a, b, m := CharOpStep(fast, slow, ops[i], at);
      ChatMore(ops, fastReplies, slowReplies, lens, place, at, bytes, pos, full, a, b, m, slow.file.offset);
      at := at.Step(ops[i], bytes, m);
      fastReplies, slowReplies, lens := fastReplies + [a], slowReplies + [b], lens + [m];
    }
    assert ops[..|ops|] == ops;
    hide At, Reached, Clean, Fresh;
  }

  /** A run of characters and seeks so far: slow-io61 stands at `pos`, the
      library at `at`. */
  ghost predicate Chat(ops: seq<CharOp>, fast: seq<int>, slow: seq<int>, lens: seq<nat>, place: Place, at: Place,
                       bytes: seq<byte>, pos: nat, full: bool) {
    |fast| == |slow| == |lens| <= |ops| && |at.memory| == |place.memory| > 0 && (forall m :: m in lens ==> m > 0)
    && slow + CharReplies(ops[|lens|..], bytes, pos) == CharReplies(ops, bytes, place.pos)
    && at == Reached(ops[..|lens|], lens, place, bytes)
    && (fast == slow <==> Clean(ops[..|lens|], lens, place, bytes))
    && (fast == slow ==> pos == at.pos)
    && (full ==> ((fast == slow && Fresh(ops[|lens|..], at, bytes)) <==> Fresh(ops, place, bytes)))
  }

  lemma ChatMore(ops: seq<CharOp>, fast: seq<int>, slow: seq<int>, lens: seq<nat>, place: Place, at: Place,
                 bytes: seq<byte>, pos: nat, full: bool, a: int, b: int, m: nat, pos': nat)
    requires Chat(ops, fast, slow, lens, place, at, bytes, pos, full) && |lens| < |ops| && m > 0
    requires var op := ops[|lens|];
      b == CharReply(op, bytes, pos) && pos' == CharPos(op, bytes, pos)
      && (pos == at.pos ==>
            (a == b <==> op.SeekChar? || !at.Wrong(bytes, m)) && (a == b ==> pos' == at.Step(op, bytes, m).pos))
      && (full ==>
            at.Step(op, bytes, m) == at.Step(op, bytes, at.Full(bytes))
            && (op.NextChar? ==> (at.Wrong(bytes, m) <==> at.Stale(|bytes|))))
    ensures Chat(ops, fast + [a], slow + [b], lens + [m], place, at.Step(ops[|lens|], bytes, m), bytes, pos', full)
  {
    var i := |lens|;
    assert ops[i..][1..] == ops[i + 1..] && ops[..i] + [ops[i]] == ops[..i + 1];
    CharsMore(ops[i..], bytes, pos, at);
    CleanMore(ops[..i], lens, ops[i], m, place, bytes);
    BothMore(fast, slow, a, b);
    OneReply(slow, b, CharReplies(ops[i + 1..], bytes, pos'));
    hide Reached, Clean, Fresh, CharReplies, CharReply, CharPos, Place.Step, Place.Wrong, Place.Stale, Place.Full;
  }

  lemma CharsMore(ops: seq<CharOp>, bytes: seq<byte>, pos: nat, at: Place)
    requires ops != [] && |at.memory| > 0
    ensures CharReplies(ops, bytes, pos) ==
      [CharReply(ops[0], bytes, pos)] + CharReplies(ops[1..], bytes, CharPos(ops[0], bytes, pos))
    ensures Fresh(ops, at, bytes) <==>
      (ops[0].NextChar? ==> !at.Stale(|bytes|)) && Fresh(ops[1..], at.Step(ops[0], bytes, at.Full(bytes)), bytes)
  {
  }

  lemma TargetBehind(n: nat, size: nat)
    requires size > 0 && n % size != 0 && (n + 1) % size != 0 && n < 0x7FFF_FFFF
    ensures n > 0 && Target(n + 1, ToInt(n), size) == n + 1 - (n + 1) % size < n
  {
    var m, r := (n + 1) / size, (n + 1) % size;
    assert n + 1 == m * size + r;
    assert Adjacent(n + 1, ToInt(n)) && ToInt(0) == 0;
    assert r >= 2 by {
      if r == 1 { ModUnique(size, m, 0, n); }
    }
    assert Aligned(n + 1, size) == n + 1 - r;
    hide *;
  }

  /** A stale place is reached from any first `counter`: by seeks to the end
      of the file and one further, when neither starts a block. */
  lemma StaleReached(bytes: seq<byte>, counter: int, memory: seq<byte>)
    requires |memory| > 0 && |bytes| % |memory| != 0 && (|bytes| + 1) % |memory| != 0 && |bytes| < 0x7FFF_FFFF
    ensures !Fresh([SeekChar(|bytes|), SeekChar(|bytes| + 1), NextChar], Place(0, 0, 0, counter, memory), bytes)
  {
    SoughtTwice(|bytes|, counter, memory);
    StaleThird(SeekChar(|bytes|), SeekChar(|bytes| + 1), [1, 1, 1], Place(0, 0, 0, counter, memory), bytes);
  }

  /** So is a wrong character inside the file, when the read that follows
      those seeks delivers too little. */
  lemma ShortWrong(n: nat, m: nat, bytes: seq<byte>, counter: int, memory: seq<byte>)
    requires |memory| > 0 && n % |memory| != 0 && (n + 1) % |memory| != 0 && n < 0x7FFF_FFFF && n + 1 < |bytes|
    ensures !Clean([SeekChar(n), SeekChar(n + 1), NextChar], [1, 1, m], Place(0, 0, 0, counter, memory), bytes)
      <==> m <= (n + 1) % |memory| && memory[(n + 1) % |memory|] != bytes[n + 1]
  {
    SoughtTwice(n, counter, memory);
    StaleThird(SeekChar(n), SeekChar(n + 1), [1, 1, m], Place(0, 0, 0, counter, memory), bytes);
  }

  lemma SoughtTwice(n: nat, counter: int, memory: seq<byte>)
    requires |memory| > 0 && n % |memory| != 0 && (n + 1) % |memory| != 0 && n < 0x7FFF_FFFF
    ensures
      var lo := n + 1 - (n + 1) % |memory|;
      lo < n
      && Place(0, 0, 0, counter, memory).Sought(n).Sought(n + 1) == Place(lo, lo, n + 1, ToInt(n + 1), memory)
  {
    TargetBehind(n, |memory|);
    hide Target, ToInt;
    var lo := Target(n, counter, |memory|);
    assert Place(0, 0, 0, counter, memory).Sought(n) == Place(lo, lo, n, ToInt(n), memory);
  }

  lemma StaleThird(first: CharOp, second: CharOp, lens: seq<nat>, place: Place, bytes: seq<byte>)
    requires |lens| == 3 && |place.memory| > 0 && first.SeekChar? && second.SeekChar?
    ensures
      var ops, at := [first, second, NextChar], place.Sought(first.pos).Sought(second.pos);
      (Fresh(ops, place, bytes) <==> !at.Stale(|bytes|))
        && (Clean(ops, lens, place, bytes) <==> !at.Wrong(bytes, lens[2]))
  {
    var ops, p := [first, second, NextChar], place.Sought(first.pos);
    var q := p.Sought(second.pos);
    assert ops[1..] == [second, NextChar] && ops[1..][1..] == [NextChar] && ops[1..][1..][1..] == [];
    hide Place.Sought, Place.Stale, Place.Next, Place.Full, Place.Wrong;
    assert Clean(ops[2..], lens[2..], q, bytes) <==> !q.Wrong(bytes, lens[2]);
    assert Clean(ops[1..], lens[1..], p, bytes) <==> !q.Wrong(bytes, lens[2]) by { assert lens[1..][1..] == lens[2..]; }
    assert Fresh([NextChar], q, bytes) <==> !q.Stale(|bytes|);
    assert Fresh([second, NextChar], p, bytes) <==> !q.Stale(|bytes|);
  }

  /** The byte that each character is written as. */
  function LowBytes(chars: seq<int>): (r: seq<byte>)
    ensures |r| == |chars|
  {
    if chars == [] then [] else LowBytes(chars[..|chars| - 1]) + [chars[|chars| - 1] % 256]
  }

  /** Characters written one by one and a close, whatever part of a full
      buffer each write takes: both files have their bytes at the position. */
  method RunCharWriters(fast: CachedHandle, slow: SlowHandle, chars: seq<int>)
    requires fast.Ring() && fast.file != slow.file
    requires slow.file.bytes == fast.Typed() && slow.file.offset == fast.file.offset + fast.cacheSize
    modifies fast, fast.file, fast.memory, slow.file
    ensures fast.file.bytes == WriteAt(old(fast.Typed()), old(slow.file.offset), LowBytes(chars))
    ensures slow.file.bytes == fast.file.bytes
  {
    ghost var base, pos := fast.Typed(), slow.file.offset;
    TypingStart(fast, slow);
    hide *;
    TypedNone(base, pos, chars);
    TypeAll(fast, slow, base, pos, chars);
    TypedAll(base, pos, chars);
    CloseTyped(fast, slow, TypedAt(base, pos, chars, |chars|), pos + |chars|);
  }

  /** The loop of a driver that writes characters. */
  method TypeAll(fast: CachedHandle, slow: SlowHandle, ghost base: seq<byte>, ghost pos: nat, chars: seq<int>)
    requires var ok := Typing(fast, slow, TypedAt(base, pos, chars, 0), pos); ok
    modifies fast, fast.file, fast.memory, slow.file
    ensures var ok := Typing(fast, slow, TypedAt(base, pos, chars, |chars|), pos + |chars|); ok
  {
    hide *;
    for i := 0 to |chars|
      invariant var ok := Typing(fast, slow, TypedAt(base, pos, chars, i), pos + i); ok
    {
      TypeBoth(fast, slow, TypedAt(base, pos, chars, i), pos + i, chars[i]);
      TypedMore(base, pos, chars, i);
    }
  }

  /** The file after `i` of the characters. */
  ghost function TypedAt(base: seq<byte>, pos: nat, chars: seq<int>, i: nat): seq<byte>
    requires i <= |chars|
  {
    WriteAt(base, pos, LowBytes(chars[..i]))
  }

  lemma TypedNone(base: seq<byte>, pos: nat, chars: seq<int>)
    ensures TypedAt(base, pos, chars, 0) == WriteAt(base, pos, LowBytes([]))
  {
    assert chars[..0] == [];
    hide WriteAt, LowBytes;
  }

  lemma TypedAll(base: seq<byte>, pos: nat, chars: seq<int>)
    ensures TypedAt(base, pos, chars, |chars|) == WriteAt(base, pos, LowBytes(chars))
  {
    assert chars[..|chars|] == chars;
    hide WriteAt, LowBytes;
  }

  lemma TypedMore(base: seq<byte>, pos: nat, chars: seq<int>, i: nat)
    requires i < |chars|
    ensures TypedAt(base, pos, chars, i + 1) == WriteAt(TypedAt(base, pos, chars, i), pos + i, [chars[i] % 256])
  {
    OneLowByte(chars, i);
    WriteAtTwice(base, pos, LowBytes(chars[..i]), [chars[i] % 256]);
    hide WriteAt, LowBytes;
  }

  lemma TypingStart(fast: CachedHandle, slow: SlowHandle)
    requires fast.Ring() && fast.file != slow.file
    requires slow.file.bytes == fast.Typed() && slow.file.offset == fast.file.offset + fast.cacheSize
    ensures var ok := Typing(fast, slow, WriteAt(fast.Typed(), slow.file.offset, LowBytes([])), slow.file.offset); ok
  {
    WriteNothing(fast.Typed(), slow.file.offset);
    assert LowBytes([]) == [];
    hide WriteAt, CachedHandle.Typed, CachedHandle.Pending, CachedHandle.Ring;
  }

  method CloseTyped(fast: CachedHandle, slow: SlowHandle, ghost bytes: seq<byte>, ghost pos: nat)
    requires Typing(fast, slow, bytes, pos)
    modifies fast, fast.file, fast.memory
    ensures fast.file.bytes == slow.file.bytes == bytes
  {
    hide WriteAt, CachedHandle.Typed, CachedHandle.Pending, CachedHandle.Ring;
    fast.FlushChars();
  }

  /** Both promise `bytes` and stand at `pos`. */
  ghost predicate Typing(fast: CachedHandle, slow: SlowHandle, bytes: seq<byte>, pos: nat)
    reads fast, fast.file, fast.memory, slow.file
  {
    fast.Ring() && fast.file != slow.file && slow.file.bytes == fast.Typed() == bytes
    && slow.file.offset == fast.file.offset + fast.cacheSize == pos
  }

  /** One character on both. */
  method TypeBoth(fast: CachedHandle, slow: SlowHandle, ghost bytes: seq<byte>, ghost pos: nat, ch: int)
    requires Typing(fast, slow, bytes, pos)
    modifies fast, fast.file, fast.memory, slow.file
    ensures var ok := Typing(fast, slow, WriteAt(bytes, pos, [ch % 256]), pos + 1); ok
  {
    hide WriteAt, CachedHandle.Typed, CachedHandle.Pending, CachedHandle.Ring;
    var r := fast.Writec(ch);
    slow.Writec(ch % 256);
  }

  lemma OneLowByte(chars: seq<int>, i: nat)
    requires i < |chars|
    ensures LowBytes(chars[..i + 1]) == LowBytes(chars[..i]) + [chars[i] % 256]
  {
    assert chars[..i + 1][..i] == chars[..i];
  }

  /** A writer that seeks to the neighbour of its last position, inside a
      block, writes a stale byte of its buffer where slow-io61 leaves a zero. */
  method UnsoundSeekExample() returns (fastBytes: seq<byte>, slowBytes: seq<byte>)
    ensures fastBytes == [7, 0, 0, 0, 7, 9] && slowBytes == [7, 0, 0, 0, 0, 9]
  {
    fastBytes := WriteApart(2);
    var file := new File([], true);
    var slow := new SlowHandle(file);
    var one := new byte[1];
    one[0] := 7;
    assert one[..1] == [7];
    var n := slow.Write(one, 1);
    var r := slow.Seek(4);
    r := slow.Seek(5);
    one[0] := 9;
    assert one[..1] == [9];
    n := slow.Write(one, 1);
    slowBytes := file.bytes;
  }

  lemma ApartWrites()
    ensures Aligned(5, 2) == 4 && !Adjacent(4, 0) && ToInt(4) == 4 && Adjacent(5, 4)
    ensures Target(5, 4, 2) == 4 && LastChunk(1, 2) == 0
    ensures WriteAt([], 0, []) == [] && WriteAt([], 0, [7]) == [7] && WriteAt([7], 4, []) == [7]
    ensures WriteAt([7], 4, [7]) == [7, 0, 0, 0, 7] && WriteAt([7, 0, 0, 0, 7], 5, [9]) == [7, 0, 0, 0, 7, 9]
  {
  }

  /** A byte at 0, then seeks to 4 and 5, then a byte. */
  method WriteApart(size: nat) returns (bytes: seq<byte>)
    requires size == 2
    ensures bytes == [7, 0, 0, 0, 7, 9]
  {
    ApartWrites();
    hide Aligned, ToInt, Adjacent, Slice, WriteAt, Target, LastChunk;
    var file := new File([], true);
    var fast := new CachedHandle(file, O_WRONLY, size, 0);
    var one := new byte[1];
    one[0] := 7;
    assert one[..1] == [7];
    assert fast.cbuf[..0] == [];
    var n := fast.Write(one, 1);
    assert fast.cbuf[..1] == [7] && fast.Written() == [7];
    hide SoundSeek, SlowSeekResult, RoundsUp;
    var r := fast.SeekWrite(4);
    one[0] := 9;
    assert one[..] == [9] && fast.cbuf[..1] == [7] && fast.cbuf[..0] == [] && fast.Flushed() == [7];
    hide CachedHandle.Cached;
    var inside;
    r, inside := FastSeekThenWrite(fast, 5, one);
    bytes := file.bytes;
  }
}

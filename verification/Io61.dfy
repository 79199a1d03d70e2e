/** pset3/io61.c: the caching library, with its two buffers, its tags and its
    adaptive seek.  A handle uses one of the two APIs, by blocks or by
    characters, as every driver program does. */
module Io61 {
  import opened Basics
  import opened Modular
  import opened OsFile

  datatype Mode = O_RDONLY | O_WRONLY

  /** `(int) pos` */
  function ToInt(pos: int): int {
    var m := pos % 0x1_0000_0000;
    if m < 0x8000_0000 then m else m - 0x1_0000_0000
  }

  /** `pos - pos % size` with C's truncating remainder. */
  function Aligned(pos: int, size: nat): int
    requires size > 0
  {
    if pos >= 0 then pos - pos % size else pos + (-pos) % size
  }

  /** The aligned block start; a negative position closer to 0 than a block
      is rounded up to 0. */
  lemma AlignedBelow(pos: int, size: nat)
    requires size > 0
    ensures pos >= 0 ==> 0 <= Aligned(pos, size) <= pos < Aligned(pos, size) + size
    ensures pos >= 0 ==> (Aligned(pos, size) == pos <==> pos % size == 0)
    ensures pos < 0 ==> pos <= Aligned(pos, size) <= 0 && (Aligned(pos, size) == 0 <==> pos + size > 0)
  {
    if pos >= 0 {
      ModBounds(pos, size);
    } else {
      ModBounds(-pos, size);
      if pos + size > 0 { SmallMod(-pos, size); }
      if Aligned(pos, size) == 0 { assert -pos == (-pos) % size; }
    }
  }

  /** The seek is to one of the two neighbours of the last seek. */
  predicate Adjacent(pos: int, counter: int) {
    ToInt(pos) == counter - 1 || ToInt(pos) == counter + 1
  }

  /** Where `io61_seek` puts the descriptor. */
  function Target(pos: nat, counter: int, size: nat): (lo: nat)
    requires size > 0
    ensures lo <= pos < lo + size
  {
    AlignedBelow(pos, size);
    if Adjacent(pos, counter) then Aligned(pos, size) else pos
  }

  /** `io61_seek` returns what slow-io61 returns and puts the tags and the
      descriptor where the position is. */
  predicate SoundSeek(mode: Mode, counter: int, size: nat, pos: int)
    requires size > 0
  {
    if pos >= 0 then mode == O_WRONLY && Adjacent(pos, counter) ==> pos % size == 0
    else pos < -1 && !RoundsUp(pos, counter, size)
  }

  /** A negative neighbour of the last position that the aligned branch
      rounds up to block 0. */
  predicate RoundsUp(pos: int, counter: int, size: nat) { pos < 0 < pos + size && Adjacent(pos, counter) }

  /** `p` is not 1 or -1 modulo 2^32. */
  predicate Far(p: nat) { p % 0x1_0000_0000 != 1 && p % 0x1_0000_0000 != 0xFFFF_FFFF }

  lemma NeighboursNear(p: nat, q: nat)
    requires p <= q && (p == q || Far(q - p))
    ensures !Adjacent(p, ToInt(q)) && !Adjacent(q, ToInt(p))
  {
  }

  lemma SoundTarget(pos: nat, counter: int, size: nat)
    requires size > 0
    ensures SoundSeek(O_WRONLY, counter, size, pos) <==> Target(pos, counter, size) == pos
    ensures !SoundSeek(O_WRONLY, counter, size, pos) ==> Target(pos, counter, size) == Aligned(pos, size) < pos
  {
  }

  class CachedHandle {
    const file: File
    const mode: Mode
    const size: nat           // BUFSZ
    const cbuf: array<byte>   // block buffer
    const memory: array<byte> // character buffer
    var counter: int
    var tag: int
    var prevTag: int
    var endTag: int
    var posTag: int
    var first: nat
    var last: nat
    var cacheSize: nat

    ghost predicate Valid()
      reads this
    {
      size > 0 && cbuf.Length == memory.Length == size && cbuf != memory
    }

    /** `io61_fdopen`.  The block buffer and `counter` start uninitialised. */
    constructor (file: File, mode: Mode, size: nat, counter: int)
      requires size > 0 && file.offset == 0
      ensures Valid() && fresh(cbuf) && fresh(memory)
      ensures this.file == file && this.mode == mode && this.size == size && this.counter == counter
      ensures tag == endTag == posTag == 0 && first == last == cacheSize == 0
    {
      this.file, this.mode, this.size, this.counter := file, mode, size, counter;
      cbuf := new byte[size];
      memory := new byte[size](_ => 0);
      tag, prevTag, endTag, posTag, first, last, cacheSize := 0, 0, 0, 0, 0, 0, 0;
    }

    // -------------------------------------------------------------- reading

    /** The cache `buf` holds the bytes of `[tag, endTag)`, the descriptor
        stands at `endTag`, and the next byte to deliver is not before it.
        The tags are short of the file's positions by `shift`, which only a
        seek to -1 makes other than 0. */
    ghost predicate Reading(buf: array<byte>, shift: int := 0)
      reads this, file, buf
    {
      Valid() && mode == O_RDONLY && buf.Length == size
      && 0 <= tag + shift && tag <= endTag <= tag + size && tag <= posTag && file.offset == endTag + shift
      && (tag < endTag ==> file.offset <= |file.bytes| && buf[..endTag - tag] == file.bytes[tag + shift..file.offset])
    }

    /** The copying branch of `io61_read`. */
    method CopyOut(buf: array<byte>, nread: nat, m: nat, ghost pos: nat, ghost shift: int := 0)
      requires Reading(cbuf, shift) && buf != cbuf && 0 < m && nread + m <= buf.Length
      requires posTag + shift == pos + nread && m <= endTag - posTag
      requires buf[..nread] == Slice(file.bytes, pos, nread)
      modifies this`posTag, buf
      ensures Reading(cbuf, shift) && posTag == old(posTag) + m
      ensures buf[..nread + m] == Slice(file.bytes, pos, nread + m)
    {
      ghost var before := buf[..nread];
      ghost var at: nat := posTag - tag;
      ghost var copied := cbuf[at..at + m];
      assert copied == cbuf[..endTag - tag][at..at + m];
      SliceWithin(file.bytes, tag + shift, file.offset, at, m);
      forall i | 0 <= i < m { buf[nread + i] := cbuf[posTag - tag + i]; }
      assert buf[..nread + m] == before + copied;
      CopyStep(before, copied, file.bytes, pos, nread, m);
      posTag := posTag + m;
    }

    /** The refilling branch of `io61_read`. */
    method Refill(ghost shift: int := 0) returns (m: nat)
      requires Reading(cbuf, shift) && posTag >= endTag
      modifies this`tag, this`endTag, file, cbuf
      ensures Reading(cbuf, shift) && file.bytes == old(file.bytes) && endTag == old(endTag) + m
      ensures m == 0 <==> old(endTag) + shift >= |file.bytes|
    {
      tag := endTag;
      m := file.Read(cbuf, size);
      endTag := endTag + m;
    }

    /** `io61_read`: any sequence of short reads delivers what slow-io61
        delivers from the same position. */
    method Read(buf: array<byte>, sz: nat, ghost shift: int := 0) returns (n: int)
      requires Reading(cbuf, shift) && sz <= buf.Length && buf != cbuf
      modifies this`tag, this`endTag, this`posTag, file, cbuf, buf
      ensures Reading(cbuf, shift) && file.bytes == old(file.bytes)
      ensures n == |Slice(file.bytes, old(posTag) + shift, sz)|
        && buf[..n] == Slice(file.bytes, old(posTag) + shift, sz)
      ensures posTag == old(posTag) + n
    {
      hide Slice;
      var nread: nat := 0;
      ghost var pos: nat := posTag + shift;
      SliceStart(file.bytes, pos);
      while nread != sz
        invariant Reading(cbuf, shift) && file.bytes == old(file.bytes)
        invariant nread <= sz && posTag + shift == pos + nread && (nread == 0 || posTag + shift <= |file.bytes|)
        invariant buf[..nread] == Slice(file.bytes, pos, nread)
        decreases if endTag + shift < |file.bytes| then |file.bytes| - endTag - shift else 0, sz - nread
      {
        if posTag < endTag {
          var m := sz - nread;
          if m > endTag - posTag { m := endTag - posTag; }
          CopyOut(buf, nread, m, pos, shift);
          nread := nread + m;
        } else {
          var m := Refill(shift);
          if m == 0 {
            SliceEnd(file.bytes, pos, nread, sz);
            return nread;
          }
        }
      }
      n := nread;
    }

    // -------------------------------------------------------------- writing

    /** The next byte goes into `cbuf`, which is not full, and the descriptor
        stands at `tag`; `shift` as for reading. */
    ghost predicate Cached(shift: int := 0)
      reads this, file
    {
      Valid() && mode == O_WRONLY && cacheSize == 0
      && tag <= posTag < tag + size && tag <= endTag <= posTag && file.offset == tag + shift
    }

    /** In addition `[tag, posTag)` is exactly what is waiting in `cbuf`. */
    ghost predicate Writing(shift: int := 0)
      reads this, file
    {
      Cached(shift) && posTag == endTag
    }

    /** The file with the part of `cbuf` before the next byte written out. */
    ghost function Written(shift: int := 0): seq<byte>
      requires Cached(shift)
      reads this, file, cbuf
    {
      WriteAt(file.bytes, tag + shift, cbuf[..posTag - tag])
    }

    /** The file with everything waiting in `cbuf` written out; it differs
        from `Written()` only after an aligned seek. */
    ghost function Flushed(): seq<byte>
      requires Cached()
      reads this, file, cbuf
    {
      WriteAt(file.bytes, tag, cbuf[..endTag - tag])
    }

    /** `io61_flush` of a block-writing handle. */
    method FlushBlocks(ghost shift: int := 0)
      requires Valid() && mode == O_WRONLY && cacheSize == 0
      requires tag <= endTag <= tag + size && file.offset == tag + shift
      modifies this`tag, this`posTag, file
      ensures tag == posTag == endTag && file.offset == tag + shift
      ensures file.bytes == WriteAt(old(file.bytes), old(tag) + shift, cbuf[..endTag - old(tag)])
    {
      var n := file.WriteFull(cbuf, 0, endTag - tag);
      assert cbuf[0..endTag - tag] == cbuf[..endTag - tag];
      posTag, tag := endTag, endTag;
    }

    /** `io61_write` after `n` bytes of `data`, on a handle that promised
        `base` with its position at `pos` and held `k` bytes, `head` first. */
    ghost predicate Stored(data: seq<byte>, n: nat, base: seq<byte>, pos: nat, k: nat, head: byte, shift: int)
      reads this, file, cbuf
    {
      Cached(shift) && n <= |data| && posTag + shift == pos + n && (n > 0 ==> posTag == endTag)
      && Written(shift) == WriteAt(base, pos, data[..n])
      && k < size && Over(k + n, size) == posTag - tag && cbuf[0] == HeadOf(data, n, k, head, size)
    }

    /** `io61_write` */
    method Write(buf: array<byte>, sz: nat, ghost shift: int := 0) returns (n: nat)
      requires Cached(shift) && sz <= buf.Length && buf != cbuf
      modifies this`tag, this`endTag, this`posTag, file, cbuf
      ensures n == sz && Cached(shift) && posTag == old(posTag) + sz
        && (old(Writing(shift)) || sz > 0 ==> Writing(shift))
      ensures Written(shift) == WriteAt(old(Written(shift)), old(posTag) + shift, buf[..sz])
      // what the buffer holds afterwards, and what it starts with
      ensures posTag - tag == Over(old(posTag - tag) + sz, size)
      ensures cbuf[0] == HeadOf(buf[..], sz, old(posTag - tag), old(cbuf[0]), size)
    {
      n := 0;
      ghost var base, pos: nat, data := Written(shift), posTag + shift, buf[..];
      ghost var k: nat, head := posTag - tag, cbuf[0];
      StoredStart(data, base, pos, k, head, shift);
      hide *;
      while n != sz
        invariant n <= sz && buf[..] == data && var ok := Stored(data, n, base, pos, k, head, shift); ok
        invariant n == 0 ==> posTag == old(posTag) && endTag == old(endTag)
      {
        var m := StoreRound(buf, n, sz, data, base, pos, k, head, shift);
        n := n + m;
      }
      StoredEnd(data, n, base, pos, k, head, shift);
      assert data[..n] == buf[..sz];
    }

    lemma StoredStart(data: seq<byte>, base: seq<byte>, pos: nat, k: nat, head: byte, shift: int)
      requires Cached(shift) && base == Written(shift) && pos == posTag + shift && k == posTag - tag && head == cbuf[0]
      ensures Stored(data, 0, base, pos, k, head, shift)
    {
      WriteNothing(base, pos);
      SmallMod(k, size);
      assert data[..0] == [];
    }

    lemma StoredEnd(data: seq<byte>, n: nat, base: seq<byte>, pos: nat, k: nat, head: byte, shift: int)
      requires var ok := Stored(data, n, base, pos, k, head, shift); ok
      ensures Cached(shift) && n <= |data| && posTag + shift == pos + n && (n > 0 ==> Writing(shift))
      ensures Written(shift) == WriteAt(base, pos, data[..n])
      ensures posTag - tag == Over(k + n, size) && cbuf[0] == HeadOf(data, n, k, head, size)
    {
    }

    /** One turn of the loop of `io61_write`. */
    method StoreRound(buf: array<byte>, n: nat, sz: nat, ghost data: seq<byte>, ghost base: seq<byte>, ghost pos: nat,
                      ghost k: nat, ghost head: byte, ghost shift: int)
        returns (m: nat)
      requires Stored(data, n, base, pos, k, head, shift) && n < sz <= buf.Length && buf != cbuf && data == buf[..]
      modifies this`tag, this`endTag, this`posTag, file, cbuf
      ensures 0 < m <= sz - n && buf[..] == data && Stored(data, n + m, base, pos, k, head, shift)
    {
      m := sz - n;
      if size - (posTag - tag) < m { m := size - (posTag - tag); }
      NextHead(data, n, m, k, head, size);
      NextData(base, data, n, m, pos);
      hide HeadOf, Over, WriteAt;
      assert buf[n..n + m] == data[n..n + m];
      StoreBlock(buf, n, m, shift);
    }

    /** One round of `io61_write`: fill the cache, flush when it is full. */
    method StoreBlock(buf: array<byte>, start: nat, m: nat, ghost shift: int := 0)
      requires Cached(shift) && buf != cbuf && 0 < m && start + m <= buf.Length && m <= size - (posTag - tag)
      modifies this`tag, this`endTag, this`posTag, file, cbuf
      ensures Writing(shift) && posTag == old(posTag) + m
      ensures Written(shift) == WriteAt(old(Written(shift)), old(posTag) + shift, buf[start..start + m])
      ensures cbuf[0] == old(if posTag == tag then buf[start] else cbuf[0])
      ensures posTag - tag == (if old(posTag - tag) + m == size then 0 else old(posTag - tag) + m)
    {
      hide WriteAt;
      ghost var t, pending, data := tag + shift, cbuf[..posTag - tag], buf[start..start + m];
      forall i | 0 <= i < m { cbuf[posTag - tag + i] := buf[start + i]; }
      posTag := posTag + m;
      if posTag > endTag { endTag := posTag; }
      assert buf[start..start + m] == data && cbuf[..posTag - tag] == pending + data;
      WriteAtTwice(file.bytes, t, pending, data);
      if posTag - tag == size {
        FlushBlocks(shift);
        WriteNothing(file.bytes, tag + shift);
        assert cbuf[..posTag - tag] == [];
      }
    }

    /** `io61_close` of a block-writing handle, up to closing the descriptor. */
    method CloseBlocks(ghost shift: int := 0)
      requires Writing(shift)
      modifies this`tag, this`posTag, file
      ensures file.bytes == old(Written(shift)) && Writing(shift) && posTag == tag == old(posTag)
    {
      FlushBlocks(shift);
    }

    // -------------------------------------------------------------- seeking

    /** `io61_seek` on a reading handle.  For a sound position it returns what
        slow-io61 returns and keeps the handle in order; the rest says where
        an unsound one, always negative, leaves it. */
    method SeekRead(buf: array<byte>, pos: int) returns (r: int)
      requires Reading(buf)
      modifies this`tag, this`prevTag, this`endTag, this`posTag, this`counter, file
      ensures file.bytes == old(file.bytes)
      ensures SoundSeek(mode, old(counter), size, pos) <==> Reading(buf) && r == SlowSeekResult(pos)
      ensures SoundSeek(mode, old(counter), size, pos) ==> posTag == (if pos >= 0 then pos else old(posTag))
      ensures SoundSeek(mode, old(counter), size, pos) ==> counter == (if pos >= 0 then ToInt(pos) else old(counter))
      // which bytes are cached afterwards
      ensures old(tag <= pos <= endTag) ==> tag == old(tag) && endTag == old(endTag)
      ensures pos >= 0 && !old(tag <= pos <= endTag) ==> tag == endTag == Target(pos, old(counter), size)
      ensures RoundsUp(pos, old(counter), size) ==> r == 0 && posTag == pos && tag == 0
      ensures pos == -1 && !RoundsUp(pos, old(counter), size) ==>
        r == 0 && posTag == pos && Reading(buf, old(endTag) + 1)
      ensures file.dataReads == old(file.dataReads)
    {
      AlignedBelow(pos, size);
      if pos < tag || pos > endTag {
        if Adjacent(pos, counter) {
          var p := file.Seek(Aligned(pos, size));
          if p != Aligned(pos, size) { return -1; }
          tag, endTag := Aligned(pos, size), Aligned(pos, size);
        } else {
          var p := file.Seek(pos);
          if p != pos { return -1; }
          tag, endTag := pos, pos;
        }
      }
      prevTag, posTag, counter := posTag, pos, ToInt(pos);
      r := 0;
    }

    /** The lseek part of `io61_seek` for a flushed handle. */
    method MoveDescriptor(pos: int) returns (r: int)
      requires Writing() && posTag == tag
      modifies this`tag, this`prevTag, this`endTag, this`posTag, this`counter, file
      ensures file.bytes == old(file.bytes)
      ensures SoundSeek(mode, old(counter), size, pos) <==> Writing() && r == SlowSeekResult(pos)
      ensures SoundSeek(mode, old(counter), size, pos) ==> posTag == tag == (if pos >= 0 then pos else old(posTag))
      ensures SoundSeek(mode, old(counter), size, pos) ==> counter == (if pos >= 0 then ToInt(pos) else old(counter))
      ensures pos >= 0 ==> r == 0 && Cached() && posTag == pos && counter == ToInt(pos)
      ensures pos >= 0 ==> tag == endTag == Target(pos, old(counter), size)
      ensures RoundsUp(pos, old(counter), size) ==> r == 0 && posTag == pos && tag == 0
      ensures pos == -1 && !RoundsUp(pos, old(counter), size) ==>
        r == 0 && posTag == tag == pos && Writing(old(posTag) + 1)
    {
      AlignedBelow(pos, size);
      if Adjacent(pos, counter) {
        var p := file.Seek(Aligned(pos, size));
        if p != Aligned(pos, size) { return -1; }
        tag, endTag := Aligned(pos, size), Aligned(pos, size);
      } else {
        var p := file.Seek(pos);
        if p != pos { return -1; }
        tag, endTag := pos, pos;
      }
      prevTag, posTag, counter := posTag, pos, ToInt(pos);
      r := 0;
    }

    /** `io61_seek` on a writing handle: always a flush and an lseek.  After
        the aligned branch the bytes of the block before `pos` will be
        overwritten by the ones that `cbuf` happens to hold. */
    method SeekWrite(pos: int) returns (r: int)
      requires Cached()
      modifies this`tag, this`prevTag, this`endTag, this`posTag, this`counter, file
      ensures file.bytes == old(Flushed())
      ensures old(Writing()) ==> old(Flushed() == Written())
      ensures SoundSeek(mode, old(counter), size, pos) <==> Writing() && r == SlowSeekResult(pos)
      ensures SoundSeek(mode, old(counter), size, pos) ==>
        Written() == old(Flushed()) && posTag == (if pos >= 0 then pos else old(endTag))
      ensures SoundSeek(mode, old(counter), size, pos) ==> counter == (if pos >= 0 then ToInt(pos) else old(counter))
      ensures pos >= 0 ==> r == 0 && Cached() && posTag == pos && counter == ToInt(pos)
      ensures pos >= 0 ==> tag == endTag == Target(pos, old(counter), size)
      ensures RoundsUp(pos, old(counter), size) ==> r == 0 && posTag == pos && tag == 0
      ensures pos == -1 && !RoundsUp(pos, old(counter), size) ==>
        r == 0 && posTag == tag == pos && Writing(old(endTag) + 1)
    {
      hide WriteAt, SoundSeek, Adjacent, Aligned, ToInt, RoundsUp;
      FlushBlocks();
      r := MoveDescriptor(pos);
      if tag >= 0 { WriteNothing(file.bytes, tag); }
      assert cbuf[..0] == [];
    }

    // --------------------------------------------------- reading characters

    /** The read of `io61_readc`: the buffer keeps what it held behind the
        `m` bytes. */
    method RefillChars() returns (m: nat)
      requires Reading(memory) && endTag <= posTag < endTag + size
      modifies this`tag, this`endTag, file, memory
      ensures file.bytes == old(file.bytes) && Reading(memory) && m <= size
      ensures tag == old(endTag) && endTag == tag + m && (m == 0 <==> tag >= |file.bytes|)
      ensures memory[..] == Front(old(memory[..]), Slice(file.bytes, tag, m))
      ensures file.fullReads ==> m == |Slice(file.bytes, tag, size)|
      ensures file.dataReads == old(file.dataReads) + (if m > 0 then 1 else 0)
    {
      tag := endTag;
      m := file.Read(memory, size);
      endTag := endTag + m;
    }

    /** `io61_readc`: the byte at the position when it is cached or is among
        the `m` bytes read now; `m` is 0 exactly at end of file, and the rest
        is a position that an aligned seek has put `m` or more bytes past the
        descriptor: then it returns a byte that the buffer held before. */
    method Readc() returns (ch: int)
      requires Reading(memory) && (posTag < endTag || posTag < endTag + size)
      modifies this`tag, this`endTag, this`posTag, file, memory
      ensures file.bytes == old(file.bytes) && Reading(memory) && posTag < endTag + size
      ensures old(posTag < endTag) ==>
        ch == file.bytes[old(posTag)] && posTag == old(posTag) + 1 && tag == old(tag) && endTag == old(endTag)
        && memory[..] == old(memory[..]) && file.dataReads == old(file.dataReads)
      ensures old(posTag >= endTag && endTag >= |file.bytes|) ==>
        ch == -1 && posTag == old(posTag) && tag == endTag == old(endTag)
        && memory[..] == old(memory[..]) && file.dataReads == old(file.dataReads)
      ensures old(posTag >= endTag && endTag < |file.bytes|) ==>
        posTag == old(posTag) + 1 && tag == old(endTag) < endTag
        && (ch == if posTag <= endTag then file.bytes[old(posTag)] else old(memory[..][posTag - endTag]))
        && memory[..] == Front(old(memory[..]), Slice(file.bytes, tag, endTag - tag))
        && (file.fullReads ==> endTag == tag + |Slice(file.bytes, tag, size)|)
        && file.dataReads == old(file.dataReads) + 1
    {
      if posTag < endTag {
        posTag := posTag + 1;
        ch := memory[posTag - tag - 1];
        assert ch == memory[..endTag - tag][posTag - tag - 1];
      } else {
        var m := RefillChars();
        if m > 0 {
          posTag := posTag + 1;
          ch := memory[posTag - tag - 1];
          assert posTag <= endTag ==>
            ch == memory[..endTag - tag][posTag - tag - 1] == file.bytes[tag..endTag][posTag - tag - 1];
        } else {
          ch := -1;
        }
      }
    }

    // --------------------------------------------------- writing characters

    /** The ring: with `first == 0` the pending characters are
        `memory[..last]`; otherwise they wrap around from `first` to `last`. */
    ghost predicate Ring()
      reads this, file
    {
      Valid() && mode == O_WRONLY && tag == endTag == posTag
      && (if first == 0 then last <= size && cacheSize == last
          else last <= first < size && cacheSize == size - first + last)
    }

    ghost function Pending(): seq<byte>
      requires Ring()
      reads this, file, memory
    {
      if first == 0 then memory[..last] else memory[first..] + memory[..last]
    }

    /** The file once every pending character is written. */
    ghost function Typed(): seq<byte>
      requires Ring()
      reads this, file, memory
    {
      WriteAt(file.bytes, file.offset, Pending())
    }

    /** The write of a full ring: short by any amount, but never empty. */
    method DrainSome()
      requires Ring() && cacheSize == size
      modifies this`first, this`last, this`cacheSize, file
      ensures Ring() && cacheSize < size && Typed() == old(Typed())
        && file.offset + cacheSize == old(file.offset) + old(cacheSize)
    {
      hide WriteAt;
      ghost var pending, rest := Pending(), if first == 0 then [] else memory[..last];
      ghost var bytes, at := file.bytes, file.offset;
      var start := first;
      var w := file.WriteShort(memory, first, size - first);
      first := first + w;
      cacheSize := cacheSize - w;
      first := if first == size then 0 else first;
      last := if last == size then 0 else last;
      assert pending == memory[start..start + w] + Pending();
      WriteAtTwice(bytes, at, memory[start..start + w], Pending());
    }

    /** The store of `io61_writec` into a ring with room. */
    method Append(ch: byte)
      requires Ring() && cacheSize < size
      modifies this`last, this`cacheSize, memory
      ensures Ring() && Pending() == old(Pending()) + [ch] && cacheSize == old(cacheSize) + 1
    {
      ghost var f, l, before := first, last, memory[..];
      memory[last] := ch;
      last, cacheSize := last + 1, cacheSize + 1;
      assert memory[..last] == before[..l] + [ch];
      assert f > 0 ==> memory[f..] == before[f..];
    }

    /** `io61_writec` */
    method Writec(ch: int) returns (r: int)
      requires Ring()
      modifies this`first, this`last, this`cacheSize, file, memory
      ensures Ring() && r == 0
      ensures Typed() == WriteAt(old(Typed()), old(file.offset + cacheSize), [ch % 256])
      ensures file.offset + cacheSize == old(file.offset + cacheSize) + 1
    {
      hide WriteAt;
      if size - cacheSize == 0 {
        DrainSome();
      }
      ghost var pending := Pending();
      PendingLength();
      Append(ch % 256);
      WriteAtTwice(file.bytes, file.offset, pending, [ch % 256]);
      r := 0;
    }

    lemma PendingLength()
      requires Ring()
      ensures |Pending()| == cacheSize
    {
    }

    /** A round of the flush loop: the ring, or what is left of it after its
        upper part has gone and `first` stands at the end of the buffer. */
    ghost predicate Draining(typed: seq<byte>)
      reads this, file, memory
    {
      Valid() && mode == O_WRONLY && tag == endTag == posTag
      && if cacheSize == 0 then file.bytes == typed
         else if first == size then 0 < last == cacheSize <= size
           && WriteAt(file.bytes, file.offset, memory[..last]) == typed
         else Ring() && Typed() == typed
    }

    method FlushRound(ghost typed: seq<byte>)
      requires Draining(typed) && cacheSize != 0
      modifies this`first, this`cacheSize, file
      ensures Draining(typed)
      ensures cacheSize < old(cacheSize) || (cacheSize == old(cacheSize) && first < old(first))
    {
      hide WriteAt;
      ghost var bytes, at, f := file.bytes, file.offset, first;
      var sz := if first != 0 then size - first else last;
      var cleared := file.WriteFull(memory, first, sz);
      assert f == 0 ==> memory[0..sz] == memory[..last];
      assert 0 < f ==> memory[f..f + sz] == memory[f..];
      WriteAtTwice(bytes, at, memory[f..f + sz], memory[..last]);
      WriteNothing(bytes, at);
      if cleared > 0 {
        first := first + cleared;
        cacheSize := cacheSize - cleared;
      } else {
        first := 0;
      }
      WriteNothing(file.bytes, file.offset);
      assert memory[..0] == [] && memory[size..size] == [];
    }

    /** `io61_flush` at close, with complete writes: the empty block write,
        then the ring.  The zero-length write that follows a wrapped ring
        resets `first` and makes no other progress. */
    method FlushChars()
      requires Ring()
      modifies this`first, this`cacheSize, file
      ensures file.bytes == old(Typed()) && cacheSize == 0
    {
      hide WriteAt;
      ghost var typed := Typed();
      WriteNothing(file.bytes, file.offset);
      PendingLength();
      assert cbuf[0..0] == [];
      var n := file.WriteFull(cbuf, 0, endTag - tag);
      while cacheSize != 0
        invariant Draining(typed)
        decreases cacheSize, first
      {
        FlushRound(typed);
      }
    }
  }

  /** Where the last chunk of `size` bytes starts in a block of `n`. */
  function LastChunk(n: nat, size: nat): (k: nat)
    requires n > 0 && size > 0
    ensures k < n
  {
    ModBounds(n - 1, size);
    n - 1 - (n - 1) % size
  }

  /** What is left over after whole chunks. */
  function Over(n: nat, size: nat): nat
    requires size > 0
  {
    n % size
  }

  /** The first byte of the buffer after `n` bytes of `data`, written behind
      `k` that started with `head`. */
  function HeadOf(data: seq<byte>, n: nat, k: nat, head: byte, size: nat): byte
    requires n <= |data| && k < size
  {
    if n == 0 then head
    else
      var l := LastChunk(k + n, size);
      ChunkBeyond(k + n, size);
      if l == 0 && k > 0 then head else data[l - k]
  }

  lemma ChunkBeyond(n: nat, size: nat)
    requires n > 0 && size > 0
    ensures LastChunk(n, size) == 0 || LastChunk(n, size) >= size
  {
    var q := (n - 1) / size;
    assert LastChunk(n, size) == q * size;
    if q > 0 { MulAtLeast(q, size); }
  }

  lemma NextData(base: seq<byte>, data: seq<byte>, n: nat, m: nat, pos: nat)
    requires n + m <= |data|
    ensures WriteAt(WriteAt(base, pos, data[..n]), pos + n, data[n..n + m]) == WriteAt(base, pos, data[..n + m])
  {
    WriteAtTwice(base, pos, data[..n], data[n..n + m]);
    assert data[..n] + data[n..n + m] == data[..n + m];
  }

  lemma NextHead(data: seq<byte>, n: nat, m: nat, k: nat, head: byte, size: nat)
    requires k < size && 0 < m && n + m <= |data| && Over(k + n, size) + m <= size
    ensures Over(k + n + m, size) == (if Over(k + n, size) + m == size then 0 else Over(k + n, size) + m)
    ensures HeadOf(data, n + m, k, head, size)
      == (if Over(k + n, size) == 0 then data[n] else HeadOf(data, n, k, head, size))
  {
    NextChunk(k + n, m, size);
    NextOver(k + n, m, size);
    if n == 0 {
      SmallMod(k, size);
      if k > 0 { ModUnique(size, 0, k - 1, k - 1); }
    }
    hide Over;
  }

  lemma NextChunk(n: nat, m: nat, size: nat)
    requires size > 0 && m > 0 && Over(n, size) + m <= size
    ensures Over(n, size) == 0 ==> LastChunk(n + m, size) == n
    ensures Over(n, size) > 0 ==> n > 0 && LastChunk(n + m, size) == LastChunk(n, size)
  {
    var q, r := n / size, n % size;
    assert n == q * size + r;
    ModUnique(size, q, r + m - 1, n + m - 1);
    if r > 0 { ModUnique(size, q, r - 1, n - 1); }
  }

  lemma NextOver(n: nat, m: nat, size: nat)
    requires size > 0 && m > 0 && Over(n, size) + m <= size
    ensures Over(n + m, size) == (if Over(n, size) + m == size then 0 else Over(n, size) + m)
  {
    var q, r := n / size, n % size;
    assert n == q * size + r;
    if r + m == size {
      assert (q + 1) * size == q * size + size;
      ModUnique(size, q + 1, 0, n + m);
    } else {
      ModUnique(size, q, r + m, n + m);
    }
  }

  /** What `io61_seek` of slow-io61 returns. */
  function SlowSeekResult(pos: int): int { if pos >= -1 then 0 else -1 }

  lemma WriteNothing(bytes: seq<byte>, pos: nat)
    ensures WriteAt(bytes, pos, []) == bytes
  {
  }

  lemma SliceStart(bytes: seq<byte>, pos: nat)
    ensures Slice(bytes, pos, 0) == []
  {
  }

  lemma SliceEnd(bytes: seq<byte>, pos: nat, m: nat, n: nat)
    requires pos + m >= |bytes| && m <= n
    ensures Slice(bytes, pos, n) == Slice(bytes, pos, m)
  {
  }

  lemma SliceWithin(bytes: seq<byte>, lo: nat, hi: nat, at: nat, m: nat)
    requires lo + at + m <= hi <= |bytes|
    ensures bytes[lo..hi][at..at + m] == bytes[lo + at..lo + at + m]
  {
    var a, b := bytes[lo..hi][at..at + m], bytes[lo + at..lo + at + m];
    forall k | 0 <= k < m ensures a[k] == b[k] {
      assert a[k] == bytes[lo..hi][at + k];
    }
  }

  lemma CopyStep(before: seq<byte>, copied: seq<byte>, bytes: seq<byte>, pos: nat, nread: nat, m: nat)
    requires before == Slice(bytes, pos, nread) && |before| == nread
    requires pos + nread + m <= |bytes| && copied == bytes[pos + nread..pos + nread + m]
    ensures before + copied == Slice(bytes, pos, nread + m)
  {
  }

  lemma ForwardSeek(counter: int, size: nat, pos: nat)
    requires size > 0
    ensures SoundSeek(O_RDONLY, counter, size, pos)
  {
  }

  /** `io61_seek` of a reader to a position that is not negative. */
  method SeekForward(inf: CachedHandle, pos: nat)
    requires inf.Reading(inf.cbuf)
    modifies inf, inf.file
    ensures inf.Reading(inf.cbuf) && inf.file.bytes == old(inf.file.bytes) && inf.posTag == pos
  {
    ForwardSeek(inf.counter, inf.size, pos);
    hide SoundSeek;
    var r := inf.SeekRead(inf.cbuf, pos);
    assert r >= 0;
  }

  /** A writer's seek and the write after it: first the bytes that `cbuf`
      holds for the block before `pos`, then the data. */
  method SeekAndWrite(outf: CachedHandle, pos: nat, buf: array<byte>, n: nat)
    requires outf.Writing() && 0 < n <= buf.Length && buf != outf.cbuf
    modifies outf, outf.file, outf.cbuf
    ensures outf.Writing() && outf.counter == ToInt(pos)
    ensures var lo := Target(pos, old(outf.counter), outf.size);
      outf.Written() == WriteAt(WriteAt(old(outf.Written()), lo, old(outf.cbuf[..pos - lo])), pos, buf[..n])
      && (lo == pos ==> outf.cbuf[0] == buf[LastChunk(n, outf.size)])
  {
    hide WriteAt, LastChunk, Target, Adjacent, Aligned, ToInt, RoundsUp, SoundSeek;
    var r := outf.SeekWrite(pos);
    var written := outf.Write(buf, n);
  }

  /** `io61_seek` of a writer to a sound position. */
  method SeekSound(outf: CachedHandle, pos: nat)
    requires outf.Writing() && SoundSeek(O_WRONLY, outf.counter, outf.size, pos)
    modifies outf, outf.file
    ensures outf.Writing() && outf.Written() == old(outf.Written()) && outf.posTag == pos && outf.counter == ToInt(pos)
  {
    hide SoundSeek;
    var r := outf.SeekWrite(pos);
    assert r >= 0;
  }
}

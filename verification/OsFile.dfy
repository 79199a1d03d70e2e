/** The kernel's side of a file descriptor: bytes and an offset, reads that
    may be short, writes that may be short or complete, and seeks. */
module OsFile {
  import opened Basics

  /** What a read of up to `n` bytes at `pos` can deliver at most. */
  function Slice(bytes: seq<byte>, pos: nat, n: nat): (s: seq<byte>)
    ensures |s| <= n
  {
    if pos >= |bytes| then [] else bytes[pos..Min(pos + n, |bytes|)]
  }

  lemma SliceSize(bytes: seq<byte>, pos: nat, n: nat)
    requires pos <= |bytes|
    ensures |Slice(bytes, pos, n)| == Min(n, |bytes| - pos)
    ensures forall i: nat :: i < |Slice(bytes, pos, n)| ==> Slice(bytes, pos, n)[i] == bytes[pos + i]
  {
  }

  /** The byte at `pos`, or -1 past the end. */
  function ByteAt(bytes: seq<byte>, pos: nat): int { if pos < |bytes| then bytes[pos] else -1 }

  /** A buffer with `data` read into its front. */
  function Front(memory: seq<byte>, data: seq<byte>): (r: seq<byte>)
    ensures |r| == |memory|
  {
    if |data| <= |memory| then data + memory[|data|..] else memory
  }

  /** The file after writing `data` at `pos`; a gap is filled with zeros. */
  function WriteAt(bytes: seq<byte>, pos: nat, data: seq<byte>): seq<byte> {
    if data == [] then bytes
    else
      var base := if pos > |bytes| then bytes + Zeros(pos - |bytes|) else bytes;
      base[..pos] + data + (if pos + |data| < |base| then base[pos + |data|..] else [])
  }

  lemma WriteAtByte(bytes: seq<byte>, pos: nat, data: seq<byte>, i: nat)
    requires data != []
    ensures |WriteAt(bytes, pos, data)| == if pos + |data| > |bytes| then pos + |data| else |bytes|
    ensures i < |WriteAt(bytes, pos, data)| ==>
      WriteAt(bytes, pos, data)[i]
        == (if pos <= i < pos + |data| then data[i - pos] else if i < |bytes| then bytes[i] else 0)
  {
  }

  lemma Append(bytes: seq<byte>, data: seq<byte>)
    ensures WriteAt(bytes, |bytes|, data) == bytes + data
  {
  }

  /** Two adjacent writes are one. */
  lemma WriteAtTwice(bytes: seq<byte>, pos: nat, d: seq<byte>, e: seq<byte>)
    ensures WriteAt(WriteAt(bytes, pos, d), pos + |d|, e) == WriteAt(bytes, pos, d + e)
  {
  }

  /** Two files agree at byte `i`. */
  predicate Same(orig: seq<byte>, out: seq<byte>, i: nat) { i < |out| && i < |orig| && out[i] == orig[i] }

  lemma AllSame(orig: seq<byte>, out: seq<byte>)
    requires |out| <= |orig| && forall i: nat :: i < |orig| ==> Same(orig, out, i)
    ensures out == orig
  {
    if |orig| > 0 { assert Same(orig, out, |orig| - 1); }
    forall i: nat | i < |orig| ensures out[i] == orig[i] { assert Same(orig, out, i); }
  }

  class File {
    var bytes: seq<byte>
    var offset: nat
    const fullReads: bool   // a regular file: reads are never short
    ghost var dataReads: nat   // reads that returned data

    constructor (bytes: seq<byte>, fullReads: bool)
      ensures this.bytes == bytes && offset == 0 && this.fullReads == fullReads && dataReads == 0
    {
      this.bytes, offset, this.fullReads, dataReads := bytes, 0, fullReads, 0;
    }

    method Read(buf: array<byte>, n: nat) returns (r: nat)
      requires 0 < n <= buf.Length
      modifies this, buf
      ensures bytes == old(bytes) && offset == old(offset) + r
      ensures r <= |Slice(bytes, old(offset), n)| && buf[..r] == Slice(bytes, old(offset), r)
      ensures r == 0 <==> old(offset) >= |bytes|
      ensures fullReads ==> r == |Slice(bytes, old(offset), n)|
      ensures forall i :: r <= i < buf.Length ==> buf[i] == old(buf[i])
      ensures dataReads == old(dataReads) + (if r > 0 then 1 else 0)
    {
      var available := |Slice(bytes, offset, n)|;
      if available == 0 { return 0; }
      r := available;
      if !fullReads {
        var short :| 1 <= short <= available;
        r := short;
      }
      forall i | 0 <= i < r { buf[i] := bytes[offset + i]; }
      assert buf[..r] == bytes[offset..offset + r] == Slice(bytes, offset, r);
      offset, dataReads := offset + r, dataReads + 1;
    }

    /** A write of `n` bytes from `buf[start..]` that takes at least one. */
    method WriteShort(buf: array<byte>, start: nat, n: nat) returns (w: nat)
      requires start + n <= buf.Length && n > 0
      modifies this
      ensures 1 <= w <= n
      ensures bytes == WriteAt(old(bytes), old(offset), buf[start..start + w]) && offset == old(offset) + w
      ensures dataReads == old(dataReads)
    {
      w :| 1 <= w <= n;
      bytes, offset := WriteAt(bytes, offset, buf[start..start + w]), offset + w;
    }

    method WriteFull(buf: array<byte>, start: nat, n: nat) returns (w: nat)
      requires start + n <= buf.Length
      modifies this
      ensures w == n
      ensures bytes == WriteAt(old(bytes), old(offset), buf[start..start + n]) && offset == old(offset) + n
      ensures dataReads == old(dataReads)
    {
      bytes, offset := WriteAt(bytes, offset, buf[start..start + n]), offset + n;
      w := n;
    }

    /** `lseek(fd, pos, SEEK_SET)` */
    method Seek(pos: int) returns (r: int)
      modifies this
      ensures bytes == old(bytes) && dataReads == old(dataReads)
      ensures pos >= 0 ==> r == pos && offset == pos
      ensures pos < 0 ==> r == -1 && offset == old(offset)
    {
      if pos < 0 { return -1; }
      offset := pos;
      r := pos;
    }
  }
}

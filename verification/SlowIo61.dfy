/** pset3/slow-io61.c: one system call per byte.  Its contracts are the
    semantics that the cached library must agree with. */
module SlowIo61 {
  import opened Basics
  import opened OsFile

  class SlowHandle {
    const file: File

    constructor (file: File)
      ensures this.file == file
    {
      this.file := file;
    }

    /** `io61_readc`; -1 at end of file. */
    method Readc() returns (ch: int)
      modifies file
      ensures file.bytes == old(file.bytes)
      ensures old(file.offset) < |file.bytes| ==>
        ch == file.bytes[old(file.offset)] && file.offset == old(file.offset) + 1
      ensures old(file.offset) >= |file.bytes| ==> ch == -1 && file.offset == old(file.offset)
    {
      var buf := new byte[1];
      var r := file.Read(buf, 1);
      assert r == 1 ==> buf[..1] == [buf[0]];
      ch := if r == 1 then buf[0] else -1;
    }

    /** `io61_read` */
    method Read(buf: array<byte>, sz: nat) returns (n: int)
      requires sz <= buf.Length
      modifies file, buf
      ensures n == |Slice(file.bytes, old(file.offset), sz)| && buf[..n] == Slice(file.bytes, old(file.offset), sz)
      ensures file.bytes == old(file.bytes) && file.offset == old(file.offset) + n
    {
      var nread := 0;
      while nread != sz
        invariant nread <= sz && file.bytes == old(file.bytes) && file.offset == old(file.offset) + nread
        invariant old(file.offset) + nread <= |file.bytes| || nread == 0
        invariant buf[..nread] == Slice(file.bytes, old(file.offset), nread)
      {
        var ch := Readc();
        if ch == -1 { break; }
        buf[nread] := ch;
        nread := nread + 1;
      }
      // io61_eof only runs when no byte was read, and then it is end of file
      n := nread;
    }

    /** `io61_writec` */
    method Writec(ch: byte)
      modifies file
      ensures file.bytes == WriteAt(old(file.bytes), old(file.offset), [ch]) && file.offset == old(file.offset) + 1
    {
      var buf := new byte[1];
      buf[0] := ch;
      assert buf[0..1] == [ch];
      var w := file.WriteFull(buf, 0, 1);
    }

    /** `io61_write` */
    method Write(buf: array<byte>, sz: nat) returns (n: nat)
      requires sz <= buf.Length
      modifies file
      ensures n == sz
      ensures file.bytes == WriteAt(old(file.bytes), old(file.offset), buf[..sz])
        && file.offset == old(file.offset) + sz
    {
      n := 0;
      while n != sz
        invariant n <= sz && file.offset == old(file.offset) + n
        invariant file.bytes == WriteAt(old(file.bytes), old(file.offset), buf[..n])
      {
        Writec(buf[n]);
        WriteAtTwice(old(file.bytes), old(file.offset), buf[..n], [buf[n]]);
        assert buf[..n + 1] == buf[..n] + [buf[n]];
        n := n + 1;
      }
    }

    /** `io61_seek`.  A failed lseek returns -1, so a seek to -1 counts as a
        success that moves nothing. */
    method Seek(pos: int) returns (r: int)
      modifies file
      ensures file.bytes == old(file.bytes)
      ensures r == if pos >= -1 then 0 else -1
      ensures file.offset == if pos >= 0 then pos else old(file.offset)
    {
      var p := file.Seek(pos);
      r := if p == pos then 0 else -1;
    }
  }
}

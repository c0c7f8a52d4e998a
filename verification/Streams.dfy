/**
 io.Reader, io.Writer and io.ReadFull. A Reader hands out its bytes in pieces whose sizes nobody controls,
 and may or may not report the end of the stream together with the last piece.
 */
module Streams {
  import opened Wrappers
  import opened ByteStrings

  datatype IoError = NoError | Eof | UnexpectedEof | Failed

  /** end: what the stream reports after its last byte; a pipe closed with an error reports Failed. */
  class Reader {
    const data: Bytes
    const end: IoError
    var pos: nat
    // What a countReader wrapped around this reader has counted.
    var counted: nat

    ghost predicate Valid()
      reads this
    {
      pos <= |data| && end in {Eof, Failed}
    }

    function Rest(): Bytes
      reads this
      requires Valid()
    {
      data[pos..]
    }

    constructor (data: Bytes, end: IoError)
      requires end in {Eof, Failed}
      ensures Valid() && Rest() == data && this.data == data && this.end == end && counted == 0
    {
      this.data, this.end, this.pos, this.counted := data, end, 0, 0;
    }

    method Fill(buf: array<byte>, from: nat, n: nat)
      requires pos + n <= |data| && from + n <= buf.Length
      modifies buf
      ensures buf[..] == old(buf[..from]) + data[pos..pos + n] + old(buf[from + n..])
    {
      for k := 0 to n
        invariant buf[..from] == old(buf[..from]) && buf[from + k..] == old(buf[from + k..])
        invariant buf[from..from + k] == data[pos..pos + k]
      {
        buf[from + k] := data[pos + k];
        assert data[pos..pos + k + 1] == data[pos..pos + k] + [data[pos + k]];
        assert buf[from..from + k + 1] == buf[from..from + k] + [data[pos + k]];
      }
    }

    /** Read(buf[from..]): any positive number of bytes up to what fits, or the end of the stream. */
    method Read(buf: array<byte>, from: nat) returns (n: nat, err: IoError)
      requires Valid() && from <= buf.Length
      modifies this, buf
      ensures Valid() && from + n <= buf.Length && n <= |old(Rest())|
      ensures buf[..] == old(buf[..from] + Rest()[..n] + buf[from + n..])
      ensures Rest() == old(Rest())[n..]
      ensures counted == old(counted) + n
      ensures n > 0 || err != NoError || from == buf.Length
      ensures err == NoError || (err == end && Rest() == [])
    {
      var room, left := buf.Length - from, |data| - pos;
      n := 0;
      if room > 0 && left > 0 {
        n :| 1 <= n <= room && n <= left;
      }
      Fill(buf, from, n);
      pos, counted := pos + n, counted + n;
      var atEnd: bool := *;
      err := if pos == |data| && (atEnd || (n == 0 && room > 0)) then end else NoError;
    }

    /** io.ReadFull: however the pieces fall, the buffer ends up filled or the stream is exhausted. */
    method ReadFull(buf: array<byte>) returns (n: nat, err: IoError)
      requires Valid()
      modifies this, buf
      ensures Valid() && n == Min(buf.Length, |old(Rest())|)
      ensures buf[..n] == old(Rest())[..n] && Rest() == old(Rest())[n..]
      ensures counted == old(counted) + n
      ensures err == if n == buf.Length then NoError else if end == Eof && n > 0 then UnexpectedEof else end
    {
      n, err := 0, NoError;
      ghost var all := Rest();
      while n < buf.Length && err == NoError
        invariant Valid() && n <= buf.Length && n <= |all|
        invariant buf[..n] == all[..n] && Rest() == all[n..]
        invariant counted == old(counted) + n
        invariant err == NoError || (err == end && Rest() == [])
        decreases buf.Length - n, if err == NoError then 1 else 0
      {
        var m;
        ghost var before := n;
        m, err := Read(buf, n);
        n := n + m;
        assert all[..n] == all[..before] + all[before..][..m];
        assert buf[..n] == buf[..before] + buf[before..n];
      }
      if n == buf.Length {
        err := NoError;
      } else if n > 0 && err == Eof {
        err := UnexpectedEof;
      }
    }
  }

  class Writer {
    var data: Bytes

    constructor ()
      ensures data == []
    {
      data := [];
    }

    method Write(p: Bytes)
      modifies this
      ensures data == old(data) + p
    {
      data := data + p;
    }
  }
}

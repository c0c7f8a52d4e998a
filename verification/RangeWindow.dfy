/** The arithmetic of Proxy.DownloadRange: which stretch of the remote object a plaintext range needs. */
module RangeWindows {
  import opened Wrappers
  import opened ByteStrings
  import opened Engines

  /** Object sizes for which the window arithmetic stays inside int64. */
  const MAX_SIZE := 0x4000_0000_0000_0000

  datatype Window = Window(startChunk: nat, endChunk: nat, encStart: nat, encLength: nat)

  /** First chunk, and the chunk after the last one, that a request for [offset, offset + length) covers. */
  ghost function FirstChunk(offset: nat): nat {
    offset / CHUNK_SIZE
  }

  ghost function AfterLastChunk(size: nat, offset: nat, length: int): nat {
    var lastByte := if length > 0 then Min(offset + length, size) - 1 else offset;
    Max(lastByte, 0) / CHUNK_SIZE + 1
  }

  /** End of the plaintext the window decrypts to. */
  ghost function WindowEnd(size: nat, offset: nat, length: int): nat {
    Min(AfterLastChunk(size, offset, length) * CHUNK_SIZE, size)
  }

  /** The window runs from the sealed chunk holding offset to the end of the sealed chunk holding the last byte,
      and lies inside the object. */
  ghost predicate WindowFits(w: Window, size: nat, offset: nat, length: int) {
    && offset < size
    && w.startChunk == FirstChunk(offset) && w.endChunk + 1 == AfterLastChunk(size, offset, length)
    && w.startChunk <= w.endChunk < TWO_TO_63 && w.endChunk * CHUNK_SIZE < size
    && w.encStart == w.startChunk * CIPHER_CHUNK_SIZE
    && w.encStart + w.encLength == CalculateEncryptedSize(WindowEnd(size, offset, length))
    && w.encStart + w.encLength <= CalculateEncryptedSize(size)
  }

  /** Every intermediate value is an int64 or uint64, so this method also shows that nothing overflows, except for
      the sum of offset and length. When that wraps around, endChunk is huge and the cap brings it back. */
  method RangeWindow(size: int64, offset: int64, length0: int64) returns (window: Window)
    requires 0 <= offset < size && size as int <= MAX_SIZE
    ensures WindowFits(window, size as int, offset as int, length0 as int)
  {
    var length := length0;
    if length > 0 && WrapInt64(offset as int + length as int) > size as int {
      length := size - offset;
    }
    var startChunk := (offset / 65536) as uint64;
    var endChunk := EndChunk(size, offset, length);
    var encStart := startChunk as int64 * 65552;
    var encLength := WindowLength(size, startChunk, endChunk);
    WindowSize(size as int, startChunk as int, endChunk as int);
    return Window(startChunk as int, endChunk as int, encStart as int, encLength as int);
  }

  /** The last chunk to fetch, once the length is cut to the file where the sum did not wrap around. */
  method EndChunk(size: int64, offset: int64, length: int64) returns (endChunk: uint64)
    requires 0 <= offset < size && size as int <= MAX_SIZE
    ensures endChunk as int + 1 == AfterLastChunk(size as int, offset as int, length as int)
  {
    if length > 0 {
      EndChunkCapped(size as int, offset as int, length as int);
      endChunk := ToUint64(TruncDiv(WrapInt64(offset as int + length as int - 1), 65536)) as uint64;
    } else {
      endChunk := (offset / 65536) as uint64;
    }
    var totalChunks := ((size + 65536 - 1) / 65536) as uint64;
    var lastChunk := totalChunks - 1;
    if endChunk >= totalChunks {
      endChunk := lastChunk;
    }
  }

  /** Past the end of the file, wrapped or not, the last chunk comes out at or beyond the number of chunks. */
  lemma EndChunkCapped(size: nat, offset: nat, length: nat)
    requires offset < size <= MAX_SIZE && 0 < length < TWO_TO_63
    ensures var end := ToUint64(TruncDiv(WrapInt64(offset + length - 1), 65536));
            if offset + length <= size then end == (offset + length - 1) / 65536
            else end >= (size - 1) / 65536
  {
    var s := offset + length - 1;
    if s >= TWO_TO_63 {
      assert WrapInt64(s) == s - TWO_TO_64;
      LastChunkNegative(TWO_TO_64 - s);
    } else {
      assert WrapInt64(s) == s;
    }
  }

  method WindowLength(size: int64, startChunk: uint64, endChunk: uint64) returns (encLength: int64)
    requires startChunk <= endChunk && endChunk as int * CHUNK_SIZE < size as int <= MAX_SIZE
    ensures encLength as int == (endChunk - startChunk) as int * CIPHER_CHUNK_SIZE
                              + Min(CHUNK_SIZE, size as int - endChunk as int * CHUNK_SIZE) + 16
  {
    if startChunk == endChunk {
      var chunkStart := startChunk as int64 * 65536;
      var chunkEnd := chunkStart + 65536;
      if chunkEnd > size {
        chunkEnd := size;
      }
      encLength := chunkEnd - chunkStart + 16;
    } else {
      var fullChunks := endChunk - startChunk - 1;
      encLength := fullChunks as int64 * 65552;
      var firstChunkEnd := (startChunk + 1) as int64 * 65536;
      if firstChunkEnd > size {
        firstChunkEnd := size;
      }
      encLength := encLength + (firstChunkEnd - startChunk as int64 * 65536 + 16);
      var lastChunkSize := size - endChunk as int64 * 65536;
      if lastChunkSize > 65536 {
        lastChunkSize := 65536;
      }
      encLength := encLength + (lastChunkSize + 16);
    }
  }

  /** Sum of the sealed sizes of chunks a..z, however the branches of the source add them up. */
  lemma WindowSize(size: nat, a: nat, z: nat)
    requires a <= z && z * CHUNK_SIZE < size
    ensures var lastSize := Min(CHUNK_SIZE, size - z * CHUNK_SIZE);
            CalculateEncryptedSize(Min((z + 1) * CHUNK_SIZE, size))
            == a * CIPHER_CHUNK_SIZE + (z - a) * CIPHER_CHUNK_SIZE + lastSize + 16
  {
  }
}

/** ProxyFile: the seekable file a WebDAV client reads, and the write-once file it uploads. */
module ProxyFiles {
  import opened Wrappers
  import opened ByteStrings
  import opened Streams
  import opened Engines
  import opened RangeWindows
  import opened PathMaps
  import opened Trees
  import Cache = PendingCaches
  import opened Vaults
  import opened Proxies

  datatype Whence = FromStart | FromCurrent | FromEnd

  // The reference: a byte sequence in memory with a read position, which may lie past the end.

  function Tail(data: Bytes, off: nat): Bytes {
    data[Min(off, |data|)..]
  }

  /** What a read into a buffer of the given room may return at position off. */
  ghost predicate ReadAllowed(data: Bytes, off: nat, room: nat, out: Bytes, err: IoError) {
    && |out| <= room && out <= Tail(data, off)
    && (err == NoError || (err == Eof && out == Tail(data, off)))
    && (out == [] && room > 0 ==> err == Eof)
  }

  /** Where a seek goes, or None when that is before the start; int64 sums wrap. */
  function SeekTarget(size: nat, off: nat, delta: int, whence: Whence): (r: Option<nat>)
    ensures r.Some? ==> r.value < TWO_TO_63
  {
    var target := WrapInt64(SeekFrom(size, off, whence) + delta);
    if target < 0 then None else Some(target)
  }

  function SeekFrom(size: nat, off: nat, whence: Whence): nat {
    match whence
    case FromStart => 0
    case FromCurrent => off
    case FromEnd => size
  }

  lemma WrapsOnce(x: int)
    ensures -TWO_TO_63 <= x < TWO_TO_63 ==> WrapInt64(x) == x
    ensures TWO_TO_63 <= x < TWO_TO_64 ==> WrapInt64(x) < 0
    ensures WrapInt64(x) < TWO_TO_63
  {
  }

  /** A seek in memory goes to the sum from the start, the position or the end, when that is a position. A negative sum
      is refused, and so is one beyond int64, because it wraps around to a negative value. */
  lemma SeekGoesTo(data: Bytes, off: nat, delta: int, whence: Whence, r: Outcome)
    requires OutcomeAllowed(data, off, Seek(delta, whence), r)
    ensures var sum := delta + match whence case FromStart => 0 case FromCurrent => off case FromEnd => |data|;
            && (0 <= sum < TWO_TO_63 ==>
                  r == Sought(Some(sum)) && OffsetAfter(data, off, Seek(delta, whence), r) == sum)
            && (-TWO_TO_63 <= sum < 0 || TWO_TO_63 <= sum < TWO_TO_64 ==>
                  r == Sought(None) && OffsetAfter(data, off, Seek(delta, whence), r) == off)
  {
  }

  datatype FileOp = Seek(delta: int, whence: Whence) | Read(room: nat)

  datatype Outcome = Sought(target: Option<nat>) | Got(out: Bytes, err: IoError)

  /** r is an outcome the in-memory file at position off could give for op. */
  ghost predicate OutcomeAllowed(data: Bytes, off: nat, op: FileOp, r: Outcome) {
    match op
    case Seek(delta, whence) => r == Sought(SeekTarget(|data|, off, delta, whence))
    case Read(room) => r.Got? && ReadAllowed(data, off, room, r.out, r.err)
  }

  ghost function OffsetAfter(data: Bytes, off: nat, op: FileOp, r: Outcome): nat
    requires OutcomeAllowed(data, off, op, r)
  {
    match op
    case Seek(_, _) => if r.target.Some? then r.target.value else off
    case Read(_) => off + |r.out|
  }

  /** The outcomes are ones the in-memory file could have given, step after step. */
  ghost predicate Faithful(data: Bytes, off: nat, ops: seq<FileOp>, outcomes: seq<Outcome>)
    decreases |ops|
  {
    |ops| == |outcomes| && (ops == [] ||
      (OutcomeAllowed(data, off, ops[0], outcomes[0])
       && Faithful(data, OffsetAfter(data, off, ops[0], outcomes[0]), ops[1..], outcomes[1..])))
  }

  /** A clock that never runs backwards from now on. */
  predicate Ascending(now: int, times: seq<int>)
    decreases times
  {
    times == [] || (now <= times[0] && Ascending(times[0], times[1..]))
  }

  lemma FaithfulStep(data: Bytes, off: nat, ops: seq<FileOp>, first: Outcome, rest: seq<Outcome>)
    requires ops != [] && OutcomeAllowed(data, off, ops[0], first)
    requires Faithful(data, OffsetAfter(data, off, ops[0], first), ops[1..], rest)
    ensures Faithful(data, off, ops, [first] + rest)
  {
    assert ([first] + rest)[1..] == rest;
  }

  /** io.CopyN(io.Discard, r, n). */
  method Discard(r: Reader, n: nat) returns (err: IoError)
    requires r.Valid()
    modifies r
    ensures r.Valid()
    ensures if n <= |old(r.Rest())| then err == NoError && r.Rest() == old(r.Rest())[n..] else err == r.end
  {
    ghost var all := r.Rest();
    var buf := new byte[32768];
    var left := n;
    while left > 0
      invariant r.Valid() && 0 <= left <= n && n - left <= |all| && r.Rest() == all[n - left..]
      decreases left
    {
      var from := if left < buf.Length then buf.Length - left else 0;
      var m, e := r.Read(buf, from);
      SliceOfSlice(all, n - left, |all|, m, |all| - (n - left));
      assert all[n - left..] == all[n - left..|all|];
      left := left - m;
      if e != NoError && left > 0 {
        return e;
      }
    }
    return NoError;
  }

  class ProxyFile {
    const fs: Proxy
    const name: Path
    const meta: Option<FileMeta>
    const isDir: bool
    const isNew: bool
    const size: int
    // Upload side: whether anything was written, how much, and what went into the pipe.
    var written: bool
    var writtenSize: nat
    var pipe: Bytes
    // Download side.
    var reader: Reader?
    var offset: nat

    /** An existing file opened for reading. */
    constructor Open(fs: Proxy, name: Path, meta: FileMeta)
      ensures this.fs == fs && this.name == name && this.meta == Some(meta) && !isDir && !isNew
      ensures reader == null && offset == 0
    {
      this.fs, this.name, this.meta, this.isDir, this.isNew, this.size := fs, name, Some(meta), false, false, 0;
      written, writtenSize, pipe, reader, offset := false, 0, [], null, 0;
    }

    /** A directory: nothing can be read or written. */
    constructor Directory(fs: Proxy, name: Path)
      ensures this.fs == fs && this.name == name && isDir && !isNew && reader == null
    {
      this.fs, this.name, this.meta, this.isDir, this.isNew, this.size := fs, name, None, true, false, 0;
      written, writtenSize, pipe, reader, offset := false, 0, [], null, 0;
    }

    /** A file opened with O_CREATE. */
    constructor Create(fs: Proxy, name: Path, size: int)
      ensures this.fs == fs && this.name == name && this.size == size && !isDir && isNew
      ensures !written && writtenSize == 0 && pipe == [] && reader == null
    {
      this.fs, this.name, this.meta, this.isDir, this.isNew, this.size := fs, name, None, false, true, size;
      written, writtenSize, pipe, reader, offset := false, 0, [], null, 0;
    }

    /** The file is open for reading, the proxy is in state s, and at time now nothing hides the content data. */
    ghost predicate Reads(s: State, data: Bytes, now: int)
      reads fs, fs.meta, fs.cache
    {
      && !isDir && !isNew && fs.Valid() && fs.Current() == s
      && GoodFile(fs.cipher, fs.master, s, name) && Plaintext(fs.cipher, fs.master, s, name) == data
      && meta == Some(s.tree[name].meta) && |data| <= MAX_SIZE
      && !Cache.Alive(fs.cache.data, name, now)
    }

    /** A live reader has exactly the rest of the file left. */
    ghost predicate Positioned(data: Bytes)
      reads this, reader
    {
      && offset < TWO_TO_63
      && (reader != null ==> reader.Valid() && reader.end == Eof && reader.Rest() == Tail(data, offset))
    }

    method Read(buf: array<byte>, now: int, ghost s: State, ghost data: Bytes) returns (n: nat, err: IoError)
      requires Reads(s, data, now) && Positioned(data)
      modifies this`reader, this`offset, reader, buf
      ensures Reads(s, data, now) && Positioned(data) && (reader == old(reader) || fresh(reader) || reader == null)
      ensures n <= buf.Length && ReadAllowed(data, old(offset), buf.Length, buf[..n], err)
      ensures offset == old(offset) + n
    {
      n, err := 0, Eof;
      if isDir {
        err := Failed;
        return;
      }
      if isNew {
        return;
      }
      err := EnsureReader(now, s, data);
      if err != NoError {
        return;
      }
      n, err := ReadOn(buf, data);
    }

    /** The part of Read before reading: without a reader, a download is started, unless nothing is left. */
    method EnsureReader(now: int, ghost s: State, ghost data: Bytes) returns (err: IoError)
      requires Reads(s, data, now) && Positioned(data)
      modifies this`reader
      ensures Reads(s, data, now) && Positioned(data) && (reader == old(reader) || fresh(reader) || reader == null)
      ensures if err == NoError then reader != null else err == Eof && Tail(data, offset) == []
    {
      if reader != null {
        return NoError;
      }
      var length := meta.value.size - offset;
      if length <= 0 && meta.value.size > 0 {
        return Eof;
      }
      err := OpenAt(length, now, s, data);
    }

    method ReadOn(buf: array<byte>, ghost data: Bytes) returns (n: nat, err: IoError)
      requires reader != null && Positioned(data) && |data| <= MAX_SIZE
      modifies this`offset, reader, buf
      ensures reader == old(reader) && Positioned(data)
      ensures n <= buf.Length && ReadAllowed(data, old(offset), buf.Length, buf[..n], err)
      ensures offset == old(offset) + n
    {
      ghost var tail := Tail(data, offset);
      n, err := reader.Read(buf, 0);
      assert buf[..n] == tail[..n];
      assert tail[n..] == Tail(data, offset + n);
      offset := offset + n;
    }

    /** Starts a download for the rest of the file and skips from the chunk boundary to offset. */
    method OpenAt(length: int, now: int, ghost s: State, ghost data: Bytes) returns (err: IoError)
      requires Reads(s, data, now) && offset < TWO_TO_63 && length == |data| - offset && (|data| > 0 ==> length > 0)
      modifies this`reader
      ensures Reads(s, data, now) && Positioned(data) && (reader == null || fresh(reader))
      ensures if err == NoError then reader != null else err == Eof && reader == null && data == []
    {
      var r := fs.DownloadRange(name, offset as int64, length as int64, now);
      RestOfFile(data, offset, length);
      var stream := r.value;
      assert stream.Rest() == RangeOf(data, offset, length) && stream.end == Eof;
      var skip := offset - offset / CHUNK_SIZE * CHUNK_SIZE;
      err := NoError;
      if skip > 0 {
        err := Discard(stream, skip);
      }
      assert err == NoError ==> stream.Valid() && stream.Rest() == Tail(data, offset);
      reader := if err == NoError then stream else null;
    }

    method Seek(delta: int, whence: Whence, ghost data: Bytes) returns (r: Option<nat>)
      requires !isDir && Positioned(data) && (meta.Some? ==> meta.value.size == |data|)
      modifies this`reader, this`offset
      ensures Positioned(data) && reader == if offset == old(offset) then old(reader) else null
      ensures meta.Some? || whence != FromEnd ==> r == SeekTarget(|data|, old(offset), delta, whence)
      ensures meta.None? && whence == FromEnd ==> r == None
      ensures offset == if r.Some? then r.value else old(offset)
      // The sum from the start, the position or the end is where it goes, unless it is negative or exceeds int64.
      ensures meta.Some? || whence != FromEnd ==>
        var sum := delta + match whence case FromStart => 0 case FromCurrent => old(offset) case FromEnd => |data|;
        && (0 <= sum < TWO_TO_63 ==> r == Some(sum) && offset == sum)
        && (-TWO_TO_63 <= sum < 0 || TWO_TO_63 <= sum < TWO_TO_64 ==> r == None && offset == old(offset))
    {
      if isDir {
        return None;
      }
      var sum: int;
      match whence {
        case FromStart => sum := delta;
        case FromCurrent => sum := offset + delta;
        case FromEnd =>
          if meta.None? {
            return None;
          }
          sum := meta.value.size + delta;
      }
      WrapsOnce(sum);
      var newOffset := WrapInt64(sum);
      if newOffset < 0 {
        return None;
      }
      if newOffset != offset {
        reader := null;
        offset := newOffset;
      }
      return Some(offset);
    }

    /** Any sequence of seeks and reads, at any times, behaves like the same sequence on the content held in memory. */
    method Session(ops: seq<FileOp>, times: seq<int>, ghost now: int, ghost s: State, ghost data: Bytes)
      returns (outcomes: seq<Outcome>)
      requires |times| == |ops| && Ascending(now, times) && Reads(s, data, now) && Positioned(data)
      modifies this`reader, this`offset, reader
      ensures Reads(s, data, now) && Positioned(data)
      ensures Faithful(data, old(offset), ops, outcomes)
      decreases |ops|
    {
      if ops == [] {
        return [];
      }
      ghost var off := offset;
      var first := Do(ops[0], times[0], s, data);
      var rest := Session(ops[1..], times[1..], times[0], s, data);
      FaithfulStep(data, off, ops, first, rest);
      outcomes := [first] + rest;
    }

    method Do(op: FileOp, now: int, ghost s: State, ghost data: Bytes) returns (r: Outcome)
      requires Reads(s, data, now) && Positioned(data)
      modifies this`reader, this`offset, reader
      ensures Reads(s, data, now) && Positioned(data) && (reader == old(reader) || fresh(reader) || reader == null)
      ensures OutcomeAllowed(data, old(offset), op, r) && offset == OffsetAfter(data, old(offset), op, r)
    {
      match op {
        case Seek(delta, whence) =>
          var target := Seek(delta, whence, data);
          r := Sought(target);
        case Read(room) =>
          var buf := new byte[room];
          var n, err := Read(buf, now, s, data);
          r := Got(buf[..n], err);
      }
    }

    method Write(p: Bytes) returns (n: nat, err: IoError)
      modifies this`written, this`writtenSize, this`pipe, this`offset
      ensures isNew && !isDir ==> n == |p| && err == NoError && written && writtenSize == old(writtenSize) + |p|
      ensures offset == old(offset) + n
      ensures isNew && !isDir ==> pipe == (if old(written) then old(pipe) else []) + p
      ensures !isNew || isDir ==> n == 0 && err == Failed && pipe == old(pipe) && written == old(written)
    {
      if isDir {
        return 0, Failed;
      }
      if isNew {
        if !written {
          pipe := [];
          written := true;
        }
        pipe := pipe + p;
        writtenSize := writtenSize + |p|;
        offset := offset + |p|;
        return |p|, NoError;
      }
      return 0, Failed;
    }

    /** Closing finishes the upload, or leaves a placeholder when nothing was written. */
    method CloseNew(fek: Bytes, salt: Bytes, remoteName: string, remoteFails: bool, now: int) returns (ok: bool)
      requires isNew && fs.Valid() && Placeable(fs.meta.Tree(), false, name) && |fek| == KEY_SIZE
      modifies fs`objects, fs.meta, fs.cache
      ensures fs.Valid()
      ensures written ==> (ok <==> |fs.master| == KEY_SIZE && !remoteFails)
      ensures !written ==> ok && fs.Current() == old(fs.Current()) && Cache.Alive(fs.cache.data, name, now)
      ensures written && ok ==>
        fs.Current() == Apply(fs.cipher, fs.master, old(fs.Current()), Upload(name, pipe, fek, salt, remoteName))
      ensures written && !ok ==> fs.Current() == old(fs.Current())
    {
      if !written {
        fs.SavePlaceholder(name, now);
        return true;
      }
      var r := new Reader(pipe, Eof);
      var announced;
      ok, announced := fs.UploadFile(name, r, size, fek, salt, remoteName, remoteFails, now);
    }
  }

  /** A stored file of manageable size that no placeholder hides. */
  ghost predicate Readable(fs: Proxy, name: Path, now: int)
    reads fs, fs.meta, fs.cache
    requires fs.Valid()
  {
    && GoodFile(fs.cipher, fs.master, fs.Current(), name) && fs.meta.Tree()[name].meta.size <= MAX_SIZE
    && !Cache.Alive(fs.cache.data, name, now)
  }

  /** FileSystem.OpenFile. create: O_CREATE is among the flags; pendingSize: the size announced for the upload. */
  method OpenFile(fs: Proxy, name: Path, create: bool, pendingSize: int, now: int) returns (f: ProxyFile?)
    requires fs.Valid()
    ensures f != null ==> fresh(f) && f.fs == fs && f.name == name && f.reader == null
    // Creating always works, except that the root stays a directory.
    ensures create || name == [] ==> f != null && f.isDir == (name == []) && f.isNew == (name != [])
    ensures create && name != [] ==> f.size == pendingSize && !f.written && f.pipe == []
    // Otherwise there is a file to open exactly when Stat finds one, of the same kind and size.
    ensures !create ==>
      var info := StatOf(fs.meta.Tree(), Cache.Alive(fs.cache.data, name, now), name);
      && (f == null <==> info == None)
      && (f != null ==> !f.isNew && f.isDir == info.value.isDir)
      && (f != null && !f.isDir ==> f.meta.Some? && f.meta.value.size == info.value.size)
    // A stored file is ready to be read from its start.
    ensures !create && name != [] && Readable(fs, name, now) ==>
      var data := Plaintext(fs.cipher, fs.master, fs.Current(), name);
      f != null && f.offset == 0 && f.Reads(fs.Current(), data, now) && f.Positioned(data)
  {
    if name == [] {
      f := new ProxyFile.Directory(fs, name);
      return;
    }
    if create {
      f := new ProxyFile.Create(fs, name, pendingSize);
      return;
    }
    var alive := fs.cache.Exists(name, now);
    if alive {
      f := new ProxyFile.Open(fs, name, FileMeta(Base(name), None, "", false, 0, [], []));
      return;
    }
    var found := fs.meta.Get(name);
    if found.Err? || found.value.None? {
      return null;
    }
    var meta := found.value.value;
    if meta.isDir {
      f := new ProxyFile.Directory(fs, name);
    } else {
      f := new ProxyFile.Open(fs, name, meta);
    }
  }

  /** A request for everything from offset on runs to the end of the file. */
  lemma RestOfFile(data: Bytes, offset: nat, length: int)
    requires length == |data| - offset && (|data| > 0 ==> length > 0)
    ensures var range, skip := RangeOf(data, offset, length), offset - offset / CHUNK_SIZE * CHUNK_SIZE;
            && (data == [] ==> range == [])
            && (data != [] ==> skip <= |range| && range[skip..] == Tail(data, offset))
  {
    if data != [] {
      assert WindowEnd(|data|, offset, length) == |data|;
    }
  }

  /** Reads without a seek in between hand out one contiguous stretch; an end of file means all of it was seen. */
  lemma {:induction false} ReadsAreContiguous(data: Bytes, off: nat, ops: seq<FileOp>, outcomes: seq<Outcome>)
    requires Faithful(data, off, ops, outcomes) && forall op :: op in ops ==> op.Read?
    ensures Collected(outcomes) <= Tail(data, off) && forall r :: r in outcomes ==> r.Got?
    ensures ops != [] && outcomes[|ops| - 1] == Got(outcomes[|ops| - 1].out, Eof) ==>
      Collected(outcomes) == Tail(data, off)
    decreases |ops|
  {
    if ops != [] {
      assert ops[0].Read?;
      var out, rest := outcomes[0].out, outcomes[1..];
      ReadsAreContiguous(data, off + |out|, ops[1..], rest);
      assert outcomes == [outcomes[0]] + rest;
      TailSplits(data, off, out, Collected(rest));
      assert ops[1..] != [] ==> rest[|ops[1..]| - 1] == outcomes[|ops| - 1];
    }
  }

  /** Reading on with room in the buffer gets to the end: every byte of the rest comes back, and then end of file. */
  lemma {:induction false} ReadsReachTheEnd(data: Bytes, off: nat, ops: seq<FileOp>, outcomes: seq<Outcome>)
    requires Faithful(data, off, ops, outcomes) && (forall op :: op in ops ==> op.Read? && op.room > 0)
    requires |ops| > |Tail(data, off)|
    ensures Collected(outcomes) == Tail(data, off)
    ensures SawTheEnd(outcomes)
    decreases |ops|
  {
    var out := FirstRead(data, off, ops, outcomes);
    var rest := outcomes[1..];
    ReadsAreContiguous(data, off + |out|, ops[1..], rest);
    TailSplits(data, off, out, Collected(rest));
    if outcomes[0].err != Eof {
      assert |Tail(data, off + |out|)| < |Tail(data, off)|;
      ReadsReachTheEnd(data, off + |out|, ops[1..], rest);
      SawItLater(outcomes);
    }
  }

  ghost predicate SawTheEnd(outcomes: seq<Outcome>) {
    exists i :: 0 <= i < |outcomes| && outcomes[i].Got? && outcomes[i].err == Eof
  }

  lemma SawItLater(outcomes: seq<Outcome>)
    requires outcomes != [] && SawTheEnd(outcomes[1..])
    ensures SawTheEnd(outcomes)
  {
    var i :| 0 <= i < |outcomes[1..]| && outcomes[1..][i].Got? && outcomes[1..][i].err == Eof;
    assert outcomes[i + 1] == outcomes[1..][i];
  }

  /** A first read with room makes progress, or is at the end. */
  lemma FirstRead(data: Bytes, off: nat, ops: seq<FileOp>, outcomes: seq<Outcome>) returns (out: Bytes)
    requires Faithful(data, off, ops, outcomes) && ops != [] && ops[0].Read? && ops[0].room > 0
    ensures outcomes != [] && outcomes[0].Got? && out == outcomes[0].out && out <= Tail(data, off)
    ensures Collected(outcomes) == out + Collected(outcomes[1..])
    ensures Faithful(data, off + |out|, ops[1..], outcomes[1..])
    ensures if outcomes[0].err == Eof then out == Tail(data, off) else out != []
  {
    out := outcomes[0].out;
  }

  lemma TailSplits(data: Bytes, off: nat, out: Bytes, more: Bytes)
    requires out <= Tail(data, off) && more <= Tail(data, off + |out|)
    ensures out + more <= Tail(data, off) == out + Tail(data, off + |out|)
  {
  }

  function Collected(outcomes: seq<Outcome>): Bytes {
    if outcomes == [] then []
    else (if outcomes[0].Got? then outcomes[0].out else []) + Collected(outcomes[1..])
  }
}

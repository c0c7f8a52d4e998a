/** The proxy: streaming upload and download, and the operations that keep metadata and remote objects together. */
module Proxies {
  import opened Wrappers
  import opened ByteStrings
  import opened Aead
  import opened Streams
  import opened Engines
  import opened EngineLaws
  import opened RangeWindows
  import opened PathMaps
  import opened Trees
  import opened LocalStorages
  import Cache = PendingCaches
  import opened Vaults

  datatype FileInfo = FileInfo(size: nat, isDir: bool)

  const PLACEHOLDER_TTL := 30

  /** FileSystem.Stat, as seen by a WebDAV client. */
  function StatOf(tree: Tree, placeholder: bool, p: Path): Option<FileInfo> {
    if p == [] then Some(FileInfo(0, true))
    else if placeholder then Some(FileInfo(0, false))
    else match MetaAt(tree, p)
      case None => None
      case Some(m) => Some(FileInfo(m.size, m.isDir))
  }

  /** The stream of a download, or None when the download fails before there is one. */
  function DownloadOf(cipher: Cipher, master: Bytes, s: State, placeholder: bool, p: Path): Option<Decrypted> {
    if placeholder then Some(Decrypted([], true))
    else match MetaAt(s.tree, p)
      case None => None
      case Some(m) => Content(cipher, master, s.objects, m)
  }

  /** On any path that is not a directory, Stat reports size k exactly when a download yields k bytes. */
  lemma StatMatchesDownload(cipher: Cipher, master: Bytes, s: State, placeholder: bool, p: Path, k: nat)
    requires Inv(cipher, master, s) && p != [] && (p in s.tree ==> placeholder || s.tree[p].File?)
    ensures StatOf(s.tree, placeholder, p) == Some(FileInfo(k, false))
       <==> exists d :: DownloadOf(cipher, master, s, placeholder, p) == Some(d) && d.ok && |d.out| == k
  {
    assert FileOk(cipher, master, s, p);
    var d := DownloadOf(cipher, master, s, placeholder, p);
    if StatOf(s.tree, placeholder, p) == Some(FileInfo(k, false)) {
      assert d == Some(d.value) && d.value.ok && |d.value.out| == k;
    }
  }

  /** p is a file whose metadata and object fit together. */
  ghost predicate GoodFile(cipher: Cipher, master: Bytes, s: State, p: Path) {
    p in s.tree && s.tree[p].File? && FileOk(cipher, master, s, p)
  }

  ghost function Plaintext(cipher: Cipher, master: Bytes, s: State, p: Path): (data: Bytes)
    requires GoodFile(cipher, master, s, p)
    ensures |data| == s.tree[p].meta.size
  {
    Content(cipher, master, s.objects, s.tree[p].meta).value.out
  }

  /** The bytes a range request gets: whole chunks from the one holding offset to the one holding the last byte. */
  ghost function RangeOf(data: Bytes, offset: nat, length: int): Bytes {
    if offset >= |data| then []
    else data[FirstChunk(offset) * CHUNK_SIZE..WindowEnd(|data|, offset, length)]
  }

  /** A range request is answered from the chunk boundary at or before offset to the first one, or the end of the file,
      at or after the last byte asked for. */
  lemma RangeCovers(data: Bytes, offset: nat, length: int)
    requires offset < |data|
    ensures var lo, last := offset - offset % 65536, if length > 0 then Min(offset + length, |data|) else offset + 1;
            var hi := lo + |RangeOf(data, offset, length)|;
            && hi <= |data| && RangeOf(data, offset, length) == data[lo..hi]
            && last <= hi < last + 65536 && (hi % 65536 == 0 || hi == |data|)
  {
  }

  class Proxy {
    const cipher: Cipher
    const master: Bytes
    const meta: LocalStorage
    const cache: Cache.PendingFileCache
    // The remote storage: object name to content. deleted records every Delete call that reached it.
    var objects: Objects
    ghost var deleted: seq<string>

    constructor (cipher: Cipher, master: Bytes)
      ensures Valid() && fresh(meta) && fresh(cache)
      ensures this.cipher == cipher && this.master == master && Current() == State(EMPTY, map[])
      ensures Inv(cipher, master, Current()) && cache.data == map[]
    {
      var m := new LocalStorage();
      var c := new Cache.PendingFileCache();
      this.cipher, this.master, this.meta, this.cache := cipher, master, m, c;
      this.objects, this.deleted := map[], [];
    }

    ghost predicate Valid()
      reads this, meta
    {
      meta.Valid()
    }

    ghost function Current(): State
      reads this, meta
      requires Valid()
    {
      State(meta.Tree(), objects)
    }

    method EncryptFEK(fek: Bytes) returns (r: Result<Bytes, EngineError>)
      ensures r == Wrap(cipher, master, fek)
    {
      match NewEngine(cipher, master)
      case Err(e) => return Err(e);
      case Ok(engine) =>
        var source := new Reader(fek, Eof);
        var buf := new Writer();
        var err := engine.EncryptStream(source, buf, ZERO_NONCE);
        assert [] + engine.Encrypt(ZERO_NONCE, 0, fek) == engine.Encrypt(ZERO_NONCE, 0, fek);
        return Ok(buf.data);
    }

    method DecryptFEK(wrapped: Bytes) returns (r: Result<Bytes, EngineError>)
      ensures r == Unwrap(cipher, master, wrapped)
    {
      match NewEngine(cipher, master)
      case Err(e) => return Err(e);
      case Ok(engine) =>
        var source := new Reader(wrapped, Eof);
        var buf := new Writer();
        var err := engine.DecryptStream(source, buf, ZERO_NONCE);
        assert [] + engine.Decrypt(ZERO_NONCE, 0, wrapped).out == engine.Decrypt(ZERO_NONCE, 0, wrapped).out;
        if err.Some? {
          return Err(err.value);
        }
        return Ok(buf.data);
    }

    method SavePlaceholder(p: Path, now: int)
      modifies cache
      ensures cache.data == Cache.Step(old(cache.data), Cache.Event(now, Cache.Add(p, PLACEHOLDER_TTL)))
      ensures cache.data == old(cache.data)[p := now + 30]
    {
      cache.Add(p, PLACEHOLDER_TTL, now);
    }

    /** fek, salt and remoteName are the random values; remoteFails is the remote refusing the upload. */
    method UploadFile(p: Path, r: Reader, size: int, fek: Bytes, salt: Bytes, remoteName: string,
                      remoteFails: bool, now: int)
      returns (ok: bool, announced: int)
      requires Valid() && r.Valid() && Placeable(meta.Tree(), false, p) && |fek| == KEY_SIZE
      modifies this`objects, meta, cache, r
      ensures Valid()
      ensures ok <==> |master| == KEY_SIZE && r.end == Eof && !remoteFails
      ensures ok ==>
        Current() == Apply(cipher, master, old(Current()), Upload(p, old(r.Rest()), fek, salt, remoteName))
      // The file is there with the size and wrapped key, above it directories, and its object holds the ciphertext.
      ensures ok ==>
        var data, wrapped := old(r.Rest()), Wrap(cipher, master, fek).value;
        && objects == old(objects)[remoteName := Engine(cipher, fek).Encrypt(salt, 0, data)]
        && forall q {:trigger Look(meta.Tree(), q)} ::
             Look(meta.Tree(), q)
             == if q == p then Some(File(FileMeta(Base(p), None, remoteName, false, |data|, wrapped, salt)))
                else if q in old(meta.Tree()) then Some(old(meta.Tree())[q])
                else if q <= p then Some(Dir)
                else None
      ensures !ok ==> Current() == old(Current())
      ensures cache.data == if Cache.Alive(old(cache.data), p, now) then old(cache.data) - {p} else old(cache.data)
      // The length announced to the remote is the length of what it receives, when the caller's size was right.
      ensures ok && size == |old(r.Rest())| > 0 ==> announced == |objects[remoteName]|
    {
      announced := -1;
      var hasPlaceholder := cache.Exists(p, now);
      if hasPlaceholder {
        cache.Remove(p);
      }
      var wrapped := EncryptFEK(fek);
      if wrapped.Err? {
        return false, announced;
      }
      var n;
      ok, announced, n := StoreObject(r, size, fek, salt, remoteName, remoteFails);
      if ok {
        EncryptedLength(Engine(cipher, fek), salt, 0, old(r.Rest()));
        ok := meta.Save(FileMeta(Base(p), None, remoteName, false, n, wrapped.value, salt), p);
      }
    }

    /** Encrypts the stream through the pipe into the remote object, counting what the reader hands out. */
    method StoreObject(r: Reader, size: int, fek: Bytes, salt: Bytes, remoteName: string, remoteFails: bool)
      returns (ok: bool, announced: int, n: nat)
      requires r.Valid()
      modifies this`objects, r
      ensures ok <==> r.end == Eof && !remoteFails
      ensures ok ==> n == |old(r.Rest())|
      ensures objects == if ok then old(objects)[remoteName := Engine(cipher, fek).Encrypt(salt, 0, old(r.Rest()))]
                         else old(objects)
      ensures announced == if size > 0 then CalculateEncryptedSize(size) else -1
    {
      var engine := Engine(cipher, fek);
      var before := r.counted;
      var pipe := new Writer();
      ghost var sealed := engine.Encrypt(salt, 0, r.Rest());
      var err := engine.EncryptStream(r, pipe, salt);
      assert [] + sealed == sealed;
      announced := if size > 0 then CalculateEncryptedSize(size) else -1;
      ok, n := !remoteFails && err.None?, r.counted - before;
      if ok {
        objects := objects[remoteName := pipe.data];
      }
    }

    method Stat(p: Path, now: int) returns (info: Option<FileInfo>)
      requires Valid()
      ensures info == StatOf(meta.Tree(), Cache.Alive(cache.data, p, now), p)
      // The root is a directory; elsewhere a live placeholder is an empty file, and otherwise metadata decides.
      ensures p == [] ==> info == Some(FileInfo(0, true))
      ensures p != [] && p in cache.data && now <= cache.data[p] ==> info == Some(FileInfo(0, false))
      ensures p != [] && !(p in cache.data && now <= cache.data[p]) ==>
        if p !in meta.Tree() then info == None
        else match meta.Tree()[p]
          case Dir => info == Some(FileInfo(0, true))
          case File(m) => info == Some(FileInfo(m.size, false))
    {
      if p == [] {
        return Some(FileInfo(0, true));
      }
      var alive := cache.Exists(p, now);
      if alive {
        return Some(FileInfo(0, false));
      }
      var found := meta.Get(p);
      if found.Err? || found.value.None? {
        return None;
      }
      return Some(FileInfo(found.value.value.size, found.value.value.isDir));
    }

    /** The engine and object behind a path, or None when there is no such file or its key does not unwrap. */
    method Locate(p: Path) returns (r: Option<(FileMeta, Engine, Bytes)>)
      requires Valid()
      ensures r.None? <==> p !in meta.Tree() || Content(cipher, master, objects, MetaOf(meta.Tree(), p)).None?
      ensures r.Some? ==> var (m, engine, stored) := r.value;
        && m == MetaOf(meta.Tree(), p) && FileEngine(cipher, master, m) == Ok(engine)
        && Content(cipher, master, objects, m) == Some(engine.Decrypt(m.salt, 0, stored))
    {
      var found := meta.Get(p);
      if found.Err? || found.value.None? {
        return None;
      }
      var m := found.value.value;
      var fek := DecryptFEK(m.fek);
      if fek.Err? || NewEngine(cipher, fek.value).Err? || m.remoteName !in objects {
        return None;
      }
      return Some((m, NewEngine(cipher, fek.value).value, objects[m.remoteName]));
    }

    method DownloadFile(p: Path, now: int) returns (r: Option<Reader>)
      requires Valid()
      ensures var d := DownloadOf(cipher, master, Current(), Cache.Alive(cache.data, p, now), p);
              if d.None? then r.None?
              else
                && r.Some? && fresh(r.value) && r.value.Valid() && r.value.Rest() == d.value.out
                && r.value.end == if d.value.ok then Eof else Failed
      // There is none when there is no such file, or its key does not unwrap to a file key, or its object is missing.
      ensures !Cache.Alive(cache.data, p, now) && p !in meta.Tree() ==> r.None?
      ensures !Cache.Alive(cache.data, p, now) && p in meta.Tree() ==>
        var m := MetaOf(meta.Tree(), p);
        var key := Unwrap(cipher, master, m.fek);
        (r.None? <==> key.Err? || |key.value| != 32 || m.remoteName !in objects)
      // A live placeholder is empty; a stored file hands out its plaintext.
      ensures Cache.Alive(cache.data, p, now) ==> r.Some? && r.value.Rest() == [] && r.value.end == Eof
      ensures !Cache.Alive(cache.data, p, now) && GoodFile(cipher, master, Current(), p) ==>
        r.Some? && r.value.end == Eof && r.value.Rest() == Plaintext(cipher, master, Current(), p)
    {
      var alive := cache.Exists(p, now);
      if alive {
        var empty := new Reader([], Eof);
        return Some(empty);
      }
      var found := Locate(p);
      if found.None? {
        return None;
      }
      var (m, engine, stored) := found.value;
      var stream := DecryptPipe(engine, m.salt, 0, stored);
      return Some(stream);
    }

    /** The stream starts at a chunk boundary, not at offset: skipping to offset is the caller's part. */
    method DownloadRange(p: Path, offset: int64, length: int64, now: int) returns (r: Option<Reader>)
      requires Valid() && 0 <= offset
      requires p in meta.Tree() ==> MetaOf(meta.Tree(), p).size <= MAX_SIZE
      ensures r.Some? ==> fresh(r.value) && r.value.Valid()
      ensures Cache.Alive(cache.data, p, now) ==> r.Some? && r.value.Rest() == [] && r.value.end == Eof
      // There is none when there is no such file, or its key does not unwrap or its object is missing while there is
      // something to send.
      ensures !Cache.Alive(cache.data, p, now) ==>
        (r.None? <==> p !in meta.Tree() || (offset as int < MetaOf(meta.Tree(), p).size
                                            && Content(cipher, master, objects, MetaOf(meta.Tree(), p)).None?))
      ensures var s := old(Current());
              !Cache.Alive(cache.data, p, now) && GoodFile(cipher, master, s, p) ==>
                && r.Some? && r.value.end == Eof
                && r.value.Rest() == RangeOf(Plaintext(cipher, master, s, p), offset as int, length as int)
    {
      ghost var s := Current();
      var alive := cache.Exists(p, now);
      assert alive == Cache.Alive(cache.data, p, now);
      if alive {
        var empty := new Reader([], Eof);
        r := Some(empty);
      } else {
        var found := meta.Get(p);
        if found.Err? || found.value.None? {
          r := None;
        } else {
          r := RangeOfFile(p, found.value.value, offset, length, s);
        }
      }
    }

    /** There is something to send, but the file's key does not unwrap or its object is missing. */
    ghost predicate Unservable(p: Path, offset: int)
      reads this, meta
      requires Valid() && p in meta.Tree()
    {
      offset < MetaOf(meta.Tree(), p).size && Content(cipher, master, objects, MetaOf(meta.Tree(), p)).None?
    }

    method RangeOfFile(p: Path, m: FileMeta, offset: int64, length: int64, ghost s: State) returns (r: Option<Reader>)
      requires Valid() && s == Current() && p in s.tree && m == MetaOf(s.tree, p) && m.size <= MAX_SIZE
      requires 0 <= offset
      ensures r.Some? ==> fresh(r.value) && r.value.Valid()
      ensures r.None? <==> Unservable(p, offset as int)
      ensures m.size <= offset as int ==> r.value.Rest() == [] && r.value.end == Eof
      ensures GoodFile(cipher, master, s, p) ==>
        && r.Some? && r.value.end == Eof
        && r.value.Rest() == RangeOf(Plaintext(cipher, master, s, p), offset as int, length as int)
    {
      if m.size == 0 || offset as int >= m.size {
        var empty := new Reader([], Eof);
        return Some(empty);
      }
      var located := Locate(p);
      if located.None? {
        return None;
      }
      var stream := ServeRange(located.value.1, m.salt, located.value.2, m.size as int64, offset, length);
      return Some(stream);
    }

    /** Fetches the window of the object and decrypts it from its first chunk on. */
    method ServeRange(engine: Engine, salt: Bytes, stored: Bytes, size: int64, offset: int64, length: int64)
      returns (stream: Reader)
      requires 0 <= offset < size && size as int <= MAX_SIZE
      ensures fresh(stream) && stream.Valid()
      // Of any object, damaged or not, the stream hands out what the window's chunks open to.
      ensures exists w: Window ::
        && WindowFits(w, size as int, offset as int, length as int)
        && HandsOut(stream, engine.Decrypt(salt, w.startChunk, RemoteRange(stored, w.encStart, w.encLength)))
      ensures var d := engine.Decrypt(salt, 0, stored);
              d.ok && |d.out| == size as int ==>
                stream.end == Eof && stream.Rest() == RangeOf(d.out, offset as int, length as int)
    {
      var w := RangeWindow(size, offset, length);
      var slice := RemoteRange(stored, w.encStart, w.encLength);
      stream := DecryptPipe(engine, salt, w.startChunk, slice);
      ghost var d := engine.Decrypt(salt, 0, stored);
      if d.ok && |d.out| == size as int {
        RangeServed(engine, salt, stored, w, offset as int, length as int);
      }
    }

    /** The decrypting goroutine and the pipe it closes with its error. */
    method DecryptPipe(engine: Engine, salt: Bytes, startChunk: nat, stored: Bytes) returns (stream: Reader)
      requires startChunk < TWO_TO_64
      ensures fresh(stream) && stream.Valid() && HandsOut(stream, engine.Decrypt(salt, startChunk, stored))
      // What could be decrypted comes first, and then an error if that was not everything.
      ensures var d := engine.Decrypt(salt, startChunk, stored);
              stream.Rest() == d.out && stream.end == if d.ok then Eof else Failed
    {
      var source := new Reader(stored, Eof);
      var pipe := new Writer();
      ghost var out := engine.Decrypt(salt, startChunk, stored).out;
      var err := engine.DecryptStreamFrom(source, pipe, salt, startChunk);
      assert [] + out == out;
      stream := new Reader(pipe.data, if err.None? then Eof else Failed);
    }

    method Mkdir(p: Path, remoteName: string) returns (ok: bool)
      requires Valid() && Placeable(meta.Tree(), true, p)
      modifies meta
      ensures ok && Valid()
      ensures Current() == AfterMkdir(old(Current()), p, remoteName)
      // Path by path: the directory is there, with those above it, and nothing else has changed.
      ensures objects == old(objects)
      ensures forall r {:trigger Look(meta.Tree(), r)} ::
        Look(meta.Tree(), r) == if r in old(meta.Tree()) then Some(old(meta.Tree())[r])
                                else if r <= p then Some(Dir)
                                else None
    {
      ok := meta.Save(MkdirMeta(p, remoteName), p);
    }

    method RenameFile(p: Path, q: Path, osFails: bool, now: int) returns (ok: bool)
      requires Valid() && MayRename(meta.Tree(), p, q)
      modifies meta, cache
      ensures Valid()
      ensures Current() == AfterRename(old(Current()), p, q)
      // Without metadata at p only a live placeholder can move.
      ensures p in old(meta.Tree()) ==> ok && cache.data == old(cache.data)
      ensures p !in old(meta.Tree()) ==>
        ok == Cache.Alive(old(cache.data), p, now) && cache.data == Cache.Moved(old(cache.data), p, q, now)
    {
      ghost var t := meta.Tree();
      ok := meta.Rename(p, q, osFails);
      assert ok <==> p in t;
      assert Current() == AfterRename(State(t, objects), p, q);
      if !ok {
        ok := cache.Move(p, q, now);
      }
    }

    method RemoveAll(p: Path, now: int) returns (ok: bool, ghost visited: seq<Path>)
      requires Valid()
      modifies this`objects, this`deleted, meta, cache
      ensures Valid()
      ensures Current() == AfterRemove(old(Current()), p)
      // Every file below p is visited once and its object deleted; nothing else is.
      ensures FilesBelow(old(meta.Tree()), p, visited)
      ensures deleted == old(deleted) + RemoteNamesOf(old(meta.Tree()), visited)
      // It succeeds when there is metadata, or a live placeholder that no file on the way hides.
      ensures ok == (p in old(meta.Tree()) || (!Blocked(old(meta.Tree()), old(meta.Marked()), p)
                                               && Cache.Alive(old(cache.data), p, now)))
      ensures cache.data == if ok && p !in old(meta.Tree()) then old(cache.data) - {p} else old(cache.data)
    {
      visited := [];
      ghost var t := meta.Tree();
      if p !in t {
        NoFilesBelow(t, p);
      }
      var found := meta.Get(p);
      if found.Err? {
        ok := false;
      } else if found.value.None? {
        ok := cache.Exists(p, now);
        if ok {
          cache.Remove(p);
        }
      } else {
        ok, visited := RemoveStored(p, found.value.value);
      }
    }

    /** What has metadata: first its objects go, then the metadata. */
    method RemoveStored(p: Path, m: FileMeta) returns (ok: bool, ghost visited: seq<Path>)
      requires Valid() && MetaAt(meta.Tree(), p) == Some(m)
      modifies this`objects, this`deleted, meta
      ensures ok && Valid()
      ensures Current() == AfterRemove(old(Current()), p)
      ensures FilesBelow(old(meta.Tree()), p, visited)
      ensures deleted == old(deleted) + RemoteNamesOf(old(meta.Tree()), visited)
    {
      visited := DeleteObjects(p, m);
      ok := meta.RemoveAll(p);
    }

    method DeleteObjects(p: Path, m: FileMeta) returns (ghost visited: seq<Path>)
      requires Valid() && MetaAt(meta.Tree(), p) == Some(m)
      modifies this`objects, this`deleted
      ensures FilesBelow(meta.Tree(), p, visited)
      ensures deleted == old(deleted) + RemoteNamesOf(meta.Tree(), visited)
      ensures objects == old(objects) - RemoteNames(meta.Tree(), p)
    {
      ghost var t := meta.Tree();
      if !m.isDir {
        OneFile(t, p);
        visited := [p];
        Delete(m.remoteName);
      } else {
        visited := RecursiveRemoteDelete(p);
      }
      ObjectsBelow(t, p, visited);
    }

    /** The remote's Delete; deleting what is not there is harmless. */
    method Delete(name: string)
      modifies this`objects, this`deleted
      ensures objects == old(objects) - {name} && deleted == old(deleted) + [name]
    {
      objects := objects - {name};
      deleted := deleted + [name];
    }

    method RecursiveRemoteDelete(p: Path) returns (ghost visited: seq<Path>)
      requires Valid() && p in meta.Tree() && meta.Tree()[p].Dir?
      modifies this`objects, this`deleted
      ensures FilesBelow(meta.Tree(), p, visited)
      ensures Erased(old(objects), old(deleted), objects, deleted, meta.Tree(), visited)
      decreases Subtree(meta.Tree(), p), 1
    {
      ghost var t := meta.Tree();
      visited := [];
      var children, names := meta.ReadDir(p);
      var i := 0;
      while i < |children.value|
        invariant 0 <= i <= |children.value| && meta.Tree() == t
        invariant FilesOfChildren(t, p, names[..i], visited)
        invariant Erased(old(objects), old(deleted), objects, deleted, t, visited)
      {
        assert names[i] in names;
        ghost var objects1, deleted1 := objects, deleted;
        ghost var more := DeleteChild(p, children.value[i], names[i]);
        AnotherChild(t, p, names, i, visited, more);
        ErasedMore(old(objects), old(deleted), objects1, deleted1, objects, deleted, t, visited, more);
        visited := visited + more;
        i := i + 1;
      }
      assert names[..i] == names;
      AllChildren(t, p, names, visited);
    }

    /** The body of the loop above; name is where the child stands. */
    method DeleteChild(p: Path, child: FileMeta, ghost name: string) returns (ghost visited: seq<Path>)
      requires Valid() && p + [name] in meta.Tree() && child == MetaOf(meta.Tree(), p + [name])
      modifies this`objects, this`deleted
      ensures FilesBelow(meta.Tree(), p + [name], visited)
      ensures Erased(old(objects), old(deleted), objects, deleted, meta.Tree(), visited)
      decreases Subtree(meta.Tree(), p), 0
    {
      ghost var t := meta.Tree();
      ghost var q := p + [name];
      if child.isDir {
        AncestorsAreDirs(t, q, p);
        assert p in Subtree(t, p) && p !in Subtree(t, q);
        visited := RecursiveRemoteDelete(p + [child.name]);
      } else {
        OneFile(t, q);
        visited := [q];
        Delete(child.remoteName);
      }
    }
  }

  /** The remote's DownloadRange: an exact slice, cut off at the end of the object. */
  function RemoteRange(stored: Bytes, start: nat, length: nat): Bytes {
    if start >= |stored| then [] else stored[start..Min(start + length, |stored|)]
  }

  /** r is about to hand out what d wrote, and then ends as d ended. */
  ghost predicate HandsOut(r: Reader, d: Decrypted)
    reads r
    requires r.Valid()
  {
    r.Rest() == d.out && r.end == if d.ok then Eof else Failed
  }

  lemma ExactRange(stored: Bytes, start: nat, length: nat)
    requires start + length <= |stored|
    ensures RemoteRange(stored, start, length) == stored[start..start + length]
  {
  }

  lemma RangeServed(e: Engine, salt: Bytes, stored: Bytes, w: Window, offset: nat, length: int)
    requires e.Decrypt(salt, 0, stored).ok && WindowFits(w, |e.Decrypt(salt, 0, stored).out|, offset, length)
    ensures e.Decrypt(salt, w.startChunk, RemoteRange(stored, w.encStart, w.encLength))
         == Decrypted(RangeOf(e.Decrypt(salt, 0, stored).out, offset, length), true)
  {
    var data := e.Decrypt(salt, 0, stored).out;
    var a, b := w.startChunk, w.endChunk + 1;
    assert Min(b * CHUNK_SIZE, |data|) == WindowEnd(|data|, offset, length);
    ChunksServed(e, salt, stored, a, b, w.encStart, w.encLength);
    assert RangeOf(data, offset, length) == data[a * CHUNK_SIZE..Min(b * CHUNK_SIZE, |data|)];
  }

  lemma ChunksServed(e: Engine, salt: Bytes, stored: Bytes, a: nat, b: nat, start: nat, length: nat)
    requires e.Decrypt(salt, 0, stored).ok && a <= b && a * CHUNK_SIZE <= |e.Decrypt(salt, 0, stored).out|
    requires start == a * CIPHER_CHUNK_SIZE
    requires start + length == CalculateEncryptedSize(Min(b * CHUNK_SIZE, |e.Decrypt(salt, 0, stored).out|))
    ensures var data := e.Decrypt(salt, 0, stored).out;
            e.Decrypt(salt, a, RemoteRange(stored, start, length))
            == Decrypted(data[a * CHUNK_SIZE..Min(b * CHUNK_SIZE, |data|)], true)
  {
    var data := e.Decrypt(salt, 0, stored).out;
    var lo, hi := a * CIPHER_CHUNK_SIZE, CalculateEncryptedSize(Min(b * CHUNK_SIZE, |data|));
    WindowDecrypts(e, salt, stored, a, b);
    assert start == lo && start + length == hi && hi <= |stored|;
    ExactRange(stored, start, length);
    assert RemoteRange(stored, start, length) == stored[lo..hi];
  }

  ghost function Subtree(t: Tree, p: Path): set<Path> {
    set q | q in t && p <= q
  }

  /** visited lists the files at or below p, each once. */
  ghost predicate FilesBelow(t: Tree, p: Path, visited: seq<Path>) {
    NoDup(visited) && forall q {:trigger q in visited} :: q in visited <==> q in t && p <= q && t[q].File?
  }

  ghost predicate FilesOfChildren(t: Tree, p: Path, names: seq<string>, visited: seq<Path>) {
    && NoDup(visited)
    && forall q {:trigger q in visited} ::
         q in visited <==> q in t && p <= q && |q| > |p| && q[|p|] in names && t[q].File?
  }

  ghost function RemoteNameOf(t: Tree, p: Path): string {
    if p in t && t[p].File? then t[p].meta.remoteName else ""
  }

  ghost function RemoteNamesOf(t: Tree, paths: seq<Path>): seq<string> {
    seq(|paths|, i requires 0 <= i < |paths| => RemoteNameOf(t, paths[i]))
  }

  ghost function ObjectsOf(t: Tree, paths: seq<Path>): set<string> {
    set p | p in paths :: RemoteNameOf(t, p)
  }

  /** The objects of the visited files were deleted, one Delete call each and in this order, and nothing else. */
  ghost predicate Erased(objects0: Objects, deleted0: seq<string>, objects1: Objects, deleted1: seq<string>,
                         t: Tree, visited: seq<Path>)
  {
    deleted1 == deleted0 + RemoteNamesOf(t, visited) && objects1 == objects0 - ObjectsOf(t, visited)
  }

  lemma ErasedMore(objects0: Objects, deleted0: seq<string>, objects1: Objects, deleted1: seq<string>,
                   objects2: Objects, deleted2: seq<string>, t: Tree, visited: seq<Path>, more: seq<Path>)
    requires Erased(objects0, deleted0, objects1, deleted1, t, visited)
    requires Erased(objects1, deleted1, objects2, deleted2, t, more)
    ensures Erased(objects0, deleted0, objects2, deleted2, t, visited + more)
  {
    NamesAppend(t, visited, more);
    Associative(deleted0, RemoteNamesOf(t, visited), RemoteNamesOf(t, more));
  }

  lemma NoFilesBelow(t: Tree, p: Path)
    requires ValidTree(t) && p !in t
    ensures FilesBelow(t, p, []) && RemoteNamesOf(t, []) == []
  {
    forall q | q in t && p <= q
      ensures false
    {
      AncestorsAreDirs(t, q, p);
    }
  }

  lemma OneFile(t: Tree, p: Path)
    requires ValidTree(t) && p in t && t[p].File?
    ensures FilesBelow(t, p, [p])
    ensures RemoteNamesOf(t, [p]) == [t[p].meta.remoteName] && ObjectsOf(t, [p]) == {t[p].meta.remoteName}
  {
    LeafInTree(t, p);
    assert p in [p];
  }

  lemma NamesAppend(t: Tree, visited: seq<Path>, more: seq<Path>)
    ensures RemoteNamesOf(t, visited + more) == RemoteNamesOf(t, visited) + RemoteNamesOf(t, more)
    ensures ObjectsOf(t, visited + more) == ObjectsOf(t, visited) + ObjectsOf(t, more)
  {
    var all := visited + more;
    forall i | 0 <= i < |all|
      ensures RemoteNamesOf(t, all)[i] == (RemoteNamesOf(t, visited) + RemoteNamesOf(t, more))[i]
    {
      assert all[i] == if i < |visited| then visited[i] else more[i - |visited|];
    }
    forall p
      ensures p in all <==> p in visited || p in more
    {
    }
  }

  lemma AnotherChild(t: Tree, p: Path, names: seq<string>, i: nat, visited: seq<Path>, more: seq<Path>)
    requires NoDup(names) && i < |names|
    requires FilesOfChildren(t, p, names[..i], visited) && FilesBelow(t, p + [names[i]], more)
    ensures FilesOfChildren(t, p, names[..i + 1], visited + more)
  {
    var name, seen := names[i], names[..i + 1];
    assert name !in names[..i] && seen == names[..i] + [name];
    forall q
      ensures p + [name] <= q <==> p <= q && |q| > |p| && q[|p|] == name
    {
      if p <= q && |q| > |p| && q[|p|] == name {
        assert q[..|p| + 1] == p + [name];
      }
    }
    forall q
      ensures q in visited + more <==> q in t && p <= q && |q| > |p| && q[|p|] in seen && t[q].File?
      ensures !(q in visited && q in more)
    {
      assert q in visited + more <==> q in visited || q in more;
      assert |q| > |p| ==> (q[|p|] in seen <==> q[|p|] in names[..i] || q[|p|] == name);
    }
    AppendDisjoint(visited, more);
  }

  lemma AllChildren(t: Tree, p: Path, names: seq<string>, visited: seq<Path>)
    requires ValidTree(t) && p in t && t[p].Dir? && Listing(t, p, names)
    requires FilesOfChildren(t, p, names, visited)
    ensures FilesBelow(t, p, visited)
  {
    forall q | q in t && p <= q && t[q].File?
      ensures |q| > |p| && q[|p|] in names
    {
      assert q != p;
      ChildOnTheWay(t, p, q);
    }
  }

  lemma ChildOnTheWay(t: Tree, p: Path, q: Path)
    requires ValidTree(t) && q in t && p <= q && p != q
    ensures p + [q[|p|]] in t
  {
    OneStepDown(p, q);
    if p + [q[|p|]] != q {
      AncestorsAreDirs(t, q, p + [q[|p|]]);
    }
  }

  lemma OneStepDown(p: Path, q: Path)
    requires p <= q && p != q
    ensures p + [q[|p|]] <= q
  {
  }

  lemma ObjectsBelow(t: Tree, p: Path, visited: seq<Path>)
    requires FilesBelow(t, p, visited)
    ensures ObjectsOf(t, visited) == RemoteNames(t, p)
  {
    forall q | q in t && p <= q && t[q].File?
      ensures q in visited
    {
    }
    assert forall q :: q in visited ==> q in t && p <= q && t[q].File?;
  }
}

/** The proxy behind the FUSE file system: what Fuse takes its uploads and renames to do is what the proxy does. */
module FuseProxies {
  import opened ByteStrings
  import opened Aead
  import opened Engines
  import opened PathMaps
  import opened Trees
  import opened Views
  import Cache = PendingCaches
  import opened Proxies
  import Vaults
  import Fuse

  /** The state fs with what the proxy in state s shows at time now. */
  ghost function Showing(fs: Fuse.FsState, cipher: Cipher, master: Bytes, s: Vaults.State, cache: Cache.Entries,
                         now: int)
    : Fuse.FsState
    requires Vaults.Inv(cipher, master, s)
  {
    fs.(nodes := Nodes(cipher, master, s), placeholders := Cache.Unexpired(cache, now).Keys)
  }

  /** What Proxy.UploadFile leaves in the cache. */
  function WithoutPlaceholder(cache: Cache.Entries, p: Path, now: int): Cache.Entries {
    if Cache.Alive(cache, p, now) then cache - {p} else cache
  }

  /** A finished or failed UploadFile is Stored, and it can succeed where Fuse says it can. */
  lemma UploadIsStored(fs: Fuse.FsState, cipher: Cipher, master: Bytes, s: Vaults.State, cache: Cache.Entries, now: int,
                       op: Vaults.Op)
    requires |master| == KEY_SIZE && Vaults.Inv(cipher, master, s) && op.Upload? && Vaults.Allowed(s, op)
    ensures var s', cache' := Vaults.Apply(cipher, master, s, op), WithoutPlaceholder(cache, op.p, now);
            && Vaults.Inv(cipher, master, s')
            && Fits(Nodes(cipher, master, s), false, op.p)
            && Showing(fs, cipher, master, s', cache', now)
               == Fuse.Stored(Showing(fs, cipher, master, s, cache, now), op.p, op.data, false)
            && Showing(fs, cipher, master, s, cache', now)
               == Fuse.Stored(Showing(fs, cipher, master, s, cache, now), op.p, op.data, true)
  {
    UploadNodes(cipher, master, s, op);
    SameFits(cipher, master, s, false, op.p);
    assert Cache.Unexpired(WithoutPlaceholder(cache, op.p, now), now).Keys == Cache.Unexpired(cache, now).Keys - {op.p};
  }

  /** Proxy.RenameFile, on files, folders and placeholders, is RenameInProxy. */
  lemma RenameIsRename(fs: Fuse.FsState, cipher: Cipher, master: Bytes, s: Vaults.State, cache: Cache.Entries, now: int,
                       p: Path, q: Path)
    requires |master| == KEY_SIZE && Vaults.Inv(cipher, master, s) && MayRename(s.tree, p, q)
    ensures var s' := Vaults.AfterRename(s, p, q);
            var cache' := if p in s.tree then cache else Cache.Moved(cache, p, q, now);
            var ok := p in s.tree || Cache.Alive(cache, p, now);
            && Vaults.Inv(cipher, master, s')
            && Fuse.RenameInProxy(Showing(fs, cipher, master, s, cache, now), p, q)
               == (Showing(fs, cipher, master, s', cache', now), Fuse.Code(if ok then 0 else Fuse.EIO))
  {
    NodesAt(cipher, master, s, p);
    if p in s.tree {
      RenameNodes(cipher, master, s, p, q);
    } else {
      MovedPlaceholder(cache, p, q, now);
    }
  }

  lemma MovedPlaceholder(cache: Cache.Entries, p: Path, q: Path, now: int)
    ensures Cache.Unexpired(Cache.Moved(cache, p, q, now), now).Keys
         == if Cache.Alive(cache, p, now) then Cache.Unexpired(cache, now).Keys + {q} - {p}
            else Cache.Unexpired(cache, now).Keys
  {
  }

  /** Fuse admits exactly the renames that the metadata store supports. */
  lemma RenamesAgree(cipher: Cipher, master: Bytes, s: Vaults.State, p: Path, q: Path)
    requires Vaults.Inv(cipher, master, s)
    ensures MayRename(s.tree, p, q)
       <==> CanRename(Nodes(cipher, master, s), p, q) || Absent(Nodes(cipher, master, s), p)
  {
    SameConditions(cipher, master, s, p, q);
  }

  /** The Release of an unwritten placeholder candidate is SavePlaceholder at its last acknowledged target. */
  lemma ReleaseSavesPlaceholder(fs: Fuse.FsState, cipher: Cipher, master: Bytes, s: Vaults.State,
                                cache: Cache.Entries, now: int, fh: nat)
    requires Vaults.Inv(cipher, master, s) && fh in fs.releasing
    requires var h := fs.releasing[fh].handle;
             !h.started && h.expected == 0 && Fuse.IsPlaceholderCandidate(h.path)
    ensures var target := Fuse.Deferred(fs.releasing[fh].handle);
            var cache' := Cache.Step(cache, Cache.Event(now, Cache.Add(target, PLACEHOLDER_TTL)));
            Fuse.Next(Showing(fs, cipher, master, s, cache, now), Fuse.Finish(fh, false))
            == (Showing(fs.(releasing := fs.releasing - {fh}), cipher, master, s, cache', now), Fuse.Code(0))
  {
    var target := Fuse.Deferred(fs.releasing[fh].handle);
    var cache' := Cache.Step(cache, Cache.Event(now, Cache.Add(target, PLACEHOLDER_TTL)));
    assert Cache.Unexpired(cache', now).Keys == Cache.Unexpired(cache, now).Keys + {target};
  }
}

/**
 Share packages: metadata leaves one vault under a package key and enters another under that vault's master key.
 An archive is the list of its entries; the manifest and the private-key file are entries of their own kinds.
 */
module Shares {
  import opened Wrappers
  import opened ByteStrings
  import opened Aead
  import opened Streams
  import opened Engines
  import opened EngineLaws
  import opened PathMaps
  import opened Trees
  import opened Vaults
  import opened Proxies
  import opened Codecs

  datatype Manifest = Manifest(encryptedAESKey: Bytes, metadataFiles: seq<string>, totalSize: nat)

  datatype TarEntry =
    | MetadataEntry(file: string, content: Bytes)
    | ManifestEntry(manifest: Manifest)
    | KeyEntry(content: Bytes)
  {
    function Sealed(): Bytes {
      if ManifestEntry? then [] else content
    }
  }

  /** A metadata record as it travels: its directory filled in and its key raw. */
  function ExportMeta(cipher: Cipher, master: Bytes, p: Path, m: FileMeta): Option<FileMeta> {
    var placed := m.(dir := Some(Parent(p)));
    if |m.fek| == 0 then Some(placed)
    else match Unwrap(cipher, master, m.fek)
      case Err(_) => None
      case Ok(raw) => Some(placed.(fek := raw))
  }

  function Seal1(cipher: Cipher, key: Bytes, data: Bytes): Bytes {
    Engine(cipher, key).Encrypt(ZERO_NONCE, 0, data)
  }

  /** Chunk by chunk, sealed data is sealed under its key, with twelve zero bytes for a base nonce. */
  lemma SealedFormat(cipher: Cipher, key: Bytes, data: Bytes, k: nat)
    requires k * 65536 < |data|
    ensures var c := Seal1(cipher, key, data);
            && k * 65552 <= Min((k + 1) * 65552, |c|)
            && IsSealed(Engine(cipher, key), seq(12, i => 0), k, data[k * 65536..Min((k + 1) * 65536, |data|)],
                        c[k * 65552..Min((k + 1) * 65552, |c|)])
  {
    ChunkFormat(Engine(cipher, key), ZERO_NONCE, data, k);
    assert ZERO_NONCE == seq(12, i => 0);
  }

  /** The record that arrives: at its path, without the directory, its key wrapped under the new master key. */
  function ImportMeta(cipher: Cipher, master: Bytes, m: FileMeta): FileMeta
    requires |master| == KEY_SIZE
  {
    m.(dir := None, fek := Wrap(cipher, master, m.fek).value)
  }

  function PathOf(m: FileMeta): Path {
    (if m.dir.Some? then m.dir.value else []) + [m.name]
  }

  /** What a file's record is after the journey from master key a to master key b. */
  lemma JourneyKeepsMeaning(cipher: Cipher, a: Bytes, b: Bytes, p: Path, m: FileMeta, objects: Objects)
    requires |a| == KEY_SIZE && |b| == KEY_SIZE && p != [] && m.name == Base(p)
    requires ExportMeta(cipher, a, p, m).Some?
    ensures var out := ExportMeta(cipher, a, p, m).value;
            var arrived := ImportMeta(cipher, b, out);
            && PathOf(out) == p
            && arrived.name == m.name && arrived.remoteName == m.remoteName && arrived.size == m.size
            && arrived.salt == m.salt && arrived.isDir == m.isDir && arrived.dir == None
            && Unwrap(cipher, b, arrived.fek) == Unwrap(cipher, a, m.fek)
            && Content(cipher, b, objects, arrived) == Content(cipher, a, objects, m)
  {
    var out := ExportMeta(cipher, a, p, m).value;
    UnwrapWrap(cipher, b, out.fek);
    assert p == Parent(p) + [Base(p)];
  }

  /** The exported records, one for each visited path. */
  ghost predicate Records(cipher: Cipher, master: Bytes, t: Tree, visited: seq<Path>, metas: seq<FileMeta>) {
    && |metas| == |visited|
    && forall i :: 0 <= i < |visited| ==>
         && visited[i] in t && t[visited[i]].File?
         && ExportMeta(cipher, master, visited[i], t[visited[i]].meta) == Some(metas[i])
  }

  function EntryOf(codec: Codec, cipher: Cipher, aesKey: Bytes, id: nat -> string, i: nat, m: FileMeta): TarEntry {
    MetadataEntry(id(i), Seal1(cipher, aesKey, codec.marshal(m)))
  }

  /** The entries are the records, each sealed under its own file name. */
  ghost predicate SealedRecords(codec: Codec, cipher: Cipher, aesKey: Bytes, id: nat -> string,
                                metas: seq<FileMeta>, entries: seq<TarEntry>)
  {
    && |entries| == |metas|
    && forall i :: 0 <= i < |metas| ==> entries[i] == EntryOf(codec, cipher, aesKey, id, i, metas[i])
  }

  ghost predicate Names(id: nat -> string, n: nat, files: seq<string>) {
    |files| == n && forall i :: 0 <= i < n ==> files[i] == id(i)
  }

  lemma OneMoreName(id: nat -> string, files: seq<string>)
    requires Names(id, |files|, files)
    ensures Names(id, |files| + 1, files + [id(|files|)])
  {
  }

  /** How many sealed bytes the entries hold. */
  function SealedBytes(entries: seq<TarEntry>): nat {
    if entries == [] then 0
    else SealedBytes(entries[..|entries| - 1]) + |entries[|entries| - 1].Sealed()|
  }

  lemma OneMoreRecord(codec: Codec, cipher: Cipher, aesKey: Bytes, id: nat -> string,
                      metas: seq<FileMeta>, entries: seq<TarEntry>, m: FileMeta)
    requires SealedRecords(codec, cipher, aesKey, id, metas, entries)
    ensures var e := EntryOf(codec, cipher, aesKey, id, |metas|, m);
            && SealedRecords(codec, cipher, aesKey, id, metas + [m], entries + [e])
            && SealedBytes(entries + [e]) == SealedBytes(entries) + |e.content|
  {
    var more := entries + [EntryOf(codec, cipher, aesKey, id, |metas|, m)];
    assert more[..|more| - 1] == entries;
  }

  ghost predicate Injective(id: nat -> string) {
    forall i, j {:trigger id(i), id(j)} :: id(i) == id(j) ==> i == j
  }

  /** tar.Writer together with the list and the total that the export fills in. id draws the random file names. */
  class TarWriter {
    const codec: Codec
    const cipher: Cipher
    const aesKey: Bytes
    const id: nat -> string
    var entries: seq<TarEntry>
    var metadataFiles: seq<string>
    var totalSize: nat
    // The records written so far, in the clear.
    ghost var metas: seq<FileMeta>

    ghost predicate Valid()
      reads this
    {
      && SealedRecords(codec, cipher, aesKey, id, metas, entries) && totalSize == SealedBytes(entries)
      && Names(id, |metas|, metadataFiles)
    }

    constructor (codec: Codec, cipher: Cipher, aesKey: Bytes, id: nat -> string)
      ensures Valid() && metas == []
      ensures this.codec == codec && this.cipher == cipher && this.aesKey == aesKey && this.id == id
    {
      this.codec, this.cipher, this.aesKey, this.id := codec, cipher, aesKey, id;
      entries, metadataFiles, totalSize, metas := [], [], 0, [];
    }

    method AddFileToTar(p: Proxy, path: Path, meta: FileMeta) returns (ok: bool)
      requires Valid() && p.cipher == cipher
      modifies this
      ensures Valid()
      ensures ok <==> |aesKey| == KEY_SIZE && ExportMeta(cipher, p.master, path, meta).Some?
      ensures ok ==> metas == old(metas) + [ExportMeta(cipher, p.master, path, meta).value]
      ensures !ok ==> metas == old(metas)
      // The record is the file's, with its directory and with its key in the clear, unless it has none.
      ensures ok <==> |aesKey| == 32 && (meta.fek == [] || Unwrap(cipher, p.master, meta.fek).Ok?)
      ensures ok ==>
        var raw := if meta.fek == [] then [] else Unwrap(cipher, p.master, meta.fek).value;
        metas == old(metas) + [meta.(dir := Some(Parent(path)), fek := raw)]
    {
      var metaCopy := meta.(dir := Some(Parent(path)));
      if |metaCopy.fek| > 0 {
        var raw := p.DecryptFEK(metaCopy.fek);
        if raw.Err? {
          return false;
        }
        metaCopy := metaCopy.(fek := raw.value);
      }
      if NewEngine(cipher, aesKey).Err? {
        return false;
      }
      Append(metaCopy);
      return true;
    }

    /** Seals one record and writes it as the next entry. */
    method Append(m: FileMeta)
      requires Valid()
      modifies this
      ensures Valid() && metas == old(metas) + [m]
    {
      var data := codec.marshal(m);
      var source := new Reader(data, Eof);
      var buf := new Writer();
      var err := Engine(cipher, aesKey).EncryptStream(source, buf, ZERO_NONCE);
      assert [] + Seal1(cipher, aesKey, data) == Seal1(cipher, aesKey, data);
      var file := id(|metadataFiles|);
      assert MetadataEntry(file, buf.data) == EntryOf(codec, cipher, aesKey, id, |metas|, m);
      OneMoreRecord(codec, cipher, aesKey, id, metas, entries, m);
      OneMoreName(id, metadataFiles);
      entries := entries + [MetadataEntry(file, buf.data)];
      metadataFiles := metadataFiles + [file];
      totalSize := totalSize + |buf.data|;
      metas := metas + [m];
    }

    /** One export path: a file, or a directory with all that is below. */
    method AddPath(p: Proxy, path: Path) returns (ok: bool, ghost visited: seq<Path>)
      requires Valid() && p.cipher == cipher && p.Valid() && Named(p.meta.Tree()) && path in p.meta.Tree()
      modifies this
      ensures Valid()
      ensures ok ==> Added(old(metas), metas, p.cipher, p.master, p.meta.Tree(), visited)
      ensures ok ==> FilesBelow(p.meta.Tree(), path, visited)
      ensures |aesKey| == KEY_SIZE && Exportable(cipher, p.master, p.meta.Tree()) ==> ok
    {
      var meta := p.meta.Get(path);
      if meta.value.value.isDir {
        ok, visited := AddDirectoryToTar(p, path);
      } else {
        assert ExportableAt(cipher, p.master, p.meta.Tree(), path) || !Exportable(cipher, p.master, p.meta.Tree());
        OneFile(p.meta.Tree(), path);
        visited := [path];
        ok := AddFileToTar(p, path, meta.value.value);
      }
    }

    method AddDirectoryToTar(p: Proxy, path: Path) returns (ok: bool, ghost visited: seq<Path>)
      requires Valid() && p.cipher == cipher && p.Valid() && Named(p.meta.Tree())
      requires path in p.meta.Tree() && p.meta.Tree()[path].Dir?
      modifies this
      ensures Valid()
      ensures ok ==> Added(old(metas), metas, p.cipher, p.master, p.meta.Tree(), visited)
      ensures ok ==> FilesBelow(p.meta.Tree(), path, visited)
      ensures |aesKey| == KEY_SIZE && Exportable(cipher, p.master, p.meta.Tree()) ==> ok
      decreases Subtree(p.meta.Tree(), path), 1
    {
      ghost var t := p.meta.Tree();
      visited := [];
      var children, names := p.meta.ReadDir(path);
      var i := 0;
      while i < |children.value|
        invariant 0 <= i <= |children.value| && Valid() && p.Valid() && p.meta.Tree() == t
        invariant FilesOfChildren(t, path, names[..i], visited)
        invariant Added(old(metas), metas, p.cipher, p.master, t, visited)
      {
        assert names[i] in names;
        ghost var more;
        ghost var before := metas;
        ok, more := AddChild(p, path, children.value[i], names[i]);
        if !ok {
          return;
        }
        AnotherChild(t, path, names, i, visited, more);
        AddedTwice(old(metas), before, metas, p.cipher, p.master, t, visited, more);
        visited := visited + more;
        i := i + 1;
      }
      assert names[..i] == names;
      AllChildren(t, path, names, visited);
      return true, visited;
    }

    method AddChild(p: Proxy, path: Path, child: FileMeta, ghost name: string)
      returns (ok: bool, ghost visited: seq<Path>)
      requires Valid() && p.cipher == cipher && p.Valid() && Named(p.meta.Tree())
      requires path + [name] in p.meta.Tree() && child == MetaOf(p.meta.Tree(), path + [name])
      modifies this
      ensures Valid()
      ensures ok ==> Added(old(metas), metas, p.cipher, p.master, p.meta.Tree(), visited)
      ensures ok ==> FilesBelow(p.meta.Tree(), path + [name], visited)
      ensures |aesKey| == KEY_SIZE && Exportable(cipher, p.master, p.meta.Tree()) ==> ok
      decreases Subtree(p.meta.Tree(), path), 0
    {
      ghost var t, q := p.meta.Tree(), path + [name];
      visited := [];
      assert child.name == name by {
        assert t[q].File? ==> NamedAt(t, q);
      }
      if child.isDir {
        AncestorsAreDirs(t, q, path);
        assert path in Subtree(t, path) && path !in Subtree(t, q);
        ok, visited := AddDirectoryToTar(p, path + [child.name]);
      } else {
        OneFile(t, q);
        assert ExportableAt(cipher, p.master, t, q) || !Exportable(cipher, p.master, t);
        visited := [q];
        ok := AddFileToTar(p, path + [child.name], child);
      }
    }
  }

  ghost predicate NamedAt(t: Tree, p: Path) {
    p in t && t[p].File? ==> t[p].meta.name == Base(p)
  }

  /** Every file's record carries the last component of its path. */
  ghost predicate Named(t: Tree) {
    forall p {:trigger NamedAt(t, p)} :: NamedAt(t, p)
  }

  ghost predicate ExportableAt(cipher: Cipher, master: Bytes, t: Tree, p: Path) {
    p in t && t[p].File? ==> ExportMeta(cipher, master, p, t[p].meta).Some?
  }

  ghost predicate Exportable(cipher: Cipher, master: Bytes, t: Tree) {
    forall p {:trigger ExportableAt(cipher, master, t, p)} :: ExportableAt(cipher, master, t, p)
  }

  /** Consistent vaults can be exported. */
  lemma InvExportable(cipher: Cipher, master: Bytes, s: State)
    requires Inv(cipher, master, s)
    ensures Named(s.tree) && Exportable(cipher, master, s.tree)
  {
    forall p
      ensures NamedAt(s.tree, p) && ExportableAt(cipher, master, s.tree, p)
    {
      assert FileOk(cipher, master, s, p);
    }
  }

  /** after is before followed by the records of the visited paths. */
  ghost predicate Added(before: seq<FileMeta>, after: seq<FileMeta>, cipher: Cipher, master: Bytes, t: Tree,
                        visited: seq<Path>)
  {
    && |before| <= |after| && after[..|before|] == before
    && Records(cipher, master, t, visited, after[|before|..])
  }

  lemma AddedTwice(m0: seq<FileMeta>, m1: seq<FileMeta>, m2: seq<FileMeta>, cipher: Cipher, master: Bytes, t: Tree,
                   visited: seq<Path>, more: seq<Path>)
    requires Added(m0, m1, cipher, master, t, visited) && Added(m1, m2, cipher, master, t, more)
    ensures Added(m0, m2, cipher, master, t, visited + more)
  {
    assert m2[..|m0|] == m1[..|m0|];
    assert m2[|m0|..] == m1[|m0|..] + m2[|m1|..];
  }

  /** visited lists exactly the files at or below some path of paths; a file may be listed once per path. */
  ghost predicate FilesBelowAny(t: Tree, paths: seq<Path>, visited: seq<Path>) {
    forall q {:trigger q in visited} ::
      q in visited <==> q in t && t[q].File? && BelowSome(paths, q)
  }

  ghost predicate BelowSome(paths: seq<Path>, q: Path) {
    exists i :: 0 <= i < |paths| && paths[i] <= q
  }

  method CreateTarPackage(p: Proxy, paths: seq<Path>, codec: Codec, keyPair: nat, aesKey: Bytes, id: nat -> string)
    returns (archive: Option<seq<TarEntry>>, ghost visited: seq<Path>, ghost metas: seq<FileMeta>)
    requires p.Valid() && Named(p.meta.Tree()) && forall path :: path in paths ==> path in p.meta.Tree()
    ensures archive.Some? ==>
      && FilesBelowAny(p.meta.Tree(), paths, visited)
      && Records(p.cipher, p.master, p.meta.Tree(), visited, metas)
      && IsPackage(codec, p.cipher, keyPair, aesKey, id, metas, archive.value) && |archive.value| == |metas| + 1
      && archive.value[|metas|].manifest.totalSize == SealedBytes(archive.value[..|metas|])
    ensures |aesKey| == KEY_SIZE && Exportable(p.cipher, p.master, p.meta.Tree()) ==> archive.Some?
  {
    ghost var t := p.meta.Tree();
    var w := new TarWriter(codec, p.cipher, aesKey, id);
    visited, metas := [], [];
    for i := 0 to |paths|
      invariant w.Valid() && fresh(w) && w.cipher == p.cipher && w.aesKey == aesKey && w.codec == codec && w.id == id
      invariant p.Valid() && p.meta.Tree() == t
      invariant FilesBelowAny(t, paths[..i], visited) && Added([], w.metas, p.cipher, p.master, t, visited)
    {
      assert paths[i] in paths;
      ghost var before := w.metas;
      var ok;
      ghost var more;
      ok, more := w.AddPath(p, paths[i]);
      if !ok {
        return None, visited, metas;
      }
      AddedTwice([], before, w.metas, p.cipher, p.master, t, visited, more);
      OneMorePath(t, paths, i, visited, more);
      visited := visited + more;
    }
    assert paths[..|paths|] == paths;
    metas := w.metas;
    assert metas[0..] == metas;
    var manifest := Manifest(codec.rsaEncrypt(keyPair, aesKey), w.metadataFiles, w.totalSize);
    archive := Some(w.entries + [ManifestEntry(manifest)]);
    assert archive.value[..|metas|] == w.entries;
  }

  lemma OneMorePath(t: Tree, paths: seq<Path>, i: nat, visited: seq<Path>, more: seq<Path>)
    requires i < |paths| && FilesBelowAny(t, paths[..i], visited) && FilesBelow(t, paths[i], more)
    ensures FilesBelowAny(t, paths[..i + 1], visited + more)
  {
    forall q
      ensures q in visited + more <==> q in t && t[q].File? && BelowSome(paths[..i + 1], q)
    {
      assert q in visited + more <==> q in visited || q in more;
      assert BelowSome(paths[..i + 1], q) <==> BelowSome(paths[..i], q) || paths[i] <= q by {
        assert paths[..i + 1][i] == paths[i];
        forall j | 0 <= j < i
          ensures paths[..i + 1][j] == paths[..i][j]
        {
        }
      }
    }
  }

  /** The records sealed under the package key, and a manifest that names them and carries the wrapped key. */
  ghost predicate IsPackage(codec: Codec, cipher: Cipher, keyPair: nat, aesKey: Bytes, id: nat -> string,
                            metas: seq<FileMeta>, archive: seq<TarEntry>)
  {
    && |archive| >= |metas| + 1
    && (forall i :: 0 <= i < |metas| ==> archive[i] == EntryOf(codec, cipher, aesKey, id, i, metas[i]))
    && archive[|metas|].ManifestEntry?
    && IsManifest(codec, keyPair, aesKey, id, |metas|, archive[|metas|].manifest)
    && (forall i :: |metas| < i < |archive| ==> archive[i].KeyEntry?)
  }

  ghost predicate IsManifest(codec: Codec, keyPair: nat, aesKey: Bytes, id: nat -> string, n: nat, manifest: Manifest) {
    && manifest.encryptedAESKey == codec.rsaEncrypt(keyPair, aesKey)
    && Names(id, n, manifest.metadataFiles)
  }

  // Importing.

  function ImportAll(cipher: Cipher, master: Bytes, t: Tree, metas: seq<FileMeta>): Tree
    requires |master| == KEY_SIZE
  {
    if metas == [] then t
    else
      var last := metas[|metas| - 1];
      SaveTree(ImportAll(cipher, master, t, metas[..|metas| - 1]), ImportMeta(cipher, master, last), PathOf(last))
  }

  lemma OneMoreImport(cipher: Cipher, master: Bytes, t: Tree, metas: seq<FileMeta>, i: nat)
    requires |master| == KEY_SIZE && i < |metas|
    ensures ImportAll(cipher, master, t, metas[..i + 1])
         == SaveTree(ImportAll(cipher, master, t, metas[..i]), ImportMeta(cipher, master, metas[i]), PathOf(metas[i]))
  {
    assert metas[..i + 1][..i] == metas[..i];
  }

  /** The records fit into the tree: none replaces a directory or goes below a file, there or among themselves. */
  ghost predicate Importable(t: Tree, metas: seq<FileMeta>) {
    && (forall i :: 0 <= i < |metas| ==> Placeable(t, false, PathOf(metas[i])) && !metas[i].isDir)
    && (forall i, j :: 0 <= i < |metas| && 0 <= j < |metas| && PathOf(metas[i]) <= PathOf(metas[j])
          ==> PathOf(metas[i]) == PathOf(metas[j]))
  }

  /** The last record for path r, if any. */
  function LastFor(metas: seq<FileMeta>, r: Path): Option<FileMeta> {
    if metas == [] then None
    else if PathOf(metas[|metas| - 1]) == r then Some(metas[|metas| - 1])
    else LastFor(metas[..|metas| - 1], r)
  }

  ghost predicate LeadsToSome(metas: seq<FileMeta>, r: Path) {
    exists i :: 0 <= i < |metas| && r <= PathOf(metas[i])
  }

  /** Path by path: imported records are there, everything else is as before, and missing parents were made. */
  lemma {:induction false} ImportLook(cipher: Cipher, master: Bytes, t: Tree, metas: seq<FileMeta>, r: Path)
    requires |master| == KEY_SIZE && forall i :: 0 <= i < |metas| ==> !metas[i].isDir
    ensures Look(ImportAll(cipher, master, t, metas), r)
         == if LastFor(metas, r).Some? then Some(File(ImportMeta(cipher, master, LastFor(metas, r).value)))
            else if r in t then Some(t[r])
            else if LeadsToSome(metas, r) then Some(Dir)
            else None
  {
    if metas != [] {
      var init, last := metas[..|metas| - 1], metas[|metas| - 1];
      assert metas == init + [last];
      ImportLook(cipher, master, t, init, r);
      SaveLook(ImportAll(cipher, master, t, init), ImportMeta(cipher, master, last), PathOf(last), r);
      LeadsLonger(init, last, r);
      if LastFor(init, r).Some? {
        LastIsAmong(init, r);
      }
    }
  }

  lemma LeadsLonger(init: seq<FileMeta>, last: FileMeta, r: Path)
    ensures LeadsToSome(init + [last], r) <==> LeadsToSome(init, r) || r <= PathOf(last)
  {
    var metas := init + [last];
    if LeadsToSome(init, r) {
      var i :| 0 <= i < |init| && r <= PathOf(init[i]);
      assert metas[i] == init[i];
    }
    assert metas[|init|] == last;
    if LeadsToSome(metas, r) {
      var i :| 0 <= i < |metas| && r <= PathOf(metas[i]);
      assert i < |init| ==> metas[i] == init[i];
    }
  }

  lemma {:induction false} LastIsAmong(metas: seq<FileMeta>, r: Path)
    ensures LastFor(metas, r).Some? ==>
      exists i :: 0 <= i < |metas| && metas[i] == LastFor(metas, r).value && PathOf(metas[i]) == r
    ensures LastFor(metas, r).None? ==> forall i :: 0 <= i < |metas| ==> PathOf(metas[i]) != r
  {
    if metas != [] && PathOf(metas[|metas| - 1]) != r {
      var init := metas[..|metas| - 1];
      LastIsAmong(init, r);
      assert forall i :: 0 <= i < |init| ==> metas[i] == init[i];
    }
  }

  /** ExtractTarPackage at proxy p, for a package made by CreateTarPackage. */
  method ExtractTarPackage(p: Proxy, archive: seq<TarEntry>, codec: Codec, privateKey: nat,
                           ghost aesKey: Bytes, ghost id: nat -> string, ghost metas: seq<FileMeta>)
    returns (ok: bool)
    requires p.Valid() && |p.master| == KEY_SIZE && |aesKey| == KEY_SIZE && Injective(id)
    requires IsPackage(codec, p.cipher, privateKey, aesKey, id, metas, archive)
    requires Importable(p.meta.Tree(), metas)
    modifies p.meta
    ensures ok && p.Valid() && p.meta.Tree() == ImportAll(p.cipher, p.master, old(p.meta.Tree()), metas)
  {
    var manifest, extracted := ReadArchive(archive, codec, p.cipher, privateKey, aesKey, id, metas);
    var key := codec.rsaDecrypt(privateKey, manifest.encryptedAESKey);
    if key.None? {
      return false;
    }
    ghost var t := p.meta.Tree();
    var i := 0;
    while i < |manifest.metadataFiles|
      invariant 0 <= i <= |manifest.metadataFiles| && p.Valid()
      invariant p.meta.Tree() == ImportAll(p.cipher, p.master, t, metas[..i])
    {
      var file := manifest.metadataFiles[i];
      if file in extracted {
        OneMoreImport(p.cipher, p.master, t, metas, i);
        ok := ImportOne(p, extracted[file], codec, key.value, t, metas, i);
        if !ok {
          return false;
        }
      }
      i := i + 1;
    }
    assert metas[..|metas|] == metas;
    return true;
  }

  /** The pass over the archive: the manifest, and the metadata entries by file name. */
  method ReadArchive(archive: seq<TarEntry>, ghost codec: Codec, ghost cipher: Cipher, ghost keyPair: nat,
                     ghost aesKey: Bytes, ghost id: nat -> string, ghost metas: seq<FileMeta>)
    returns (manifest: Manifest, extracted: map<string, Bytes>)
    requires Injective(id) && IsPackage(codec, cipher, keyPair, aesKey, id, metas, archive)
    ensures IsManifest(codec, keyPair, aesKey, id, |metas|, manifest)
    ensures forall i :: 0 <= i < |metas| ==>
      id(i) in extracted && extracted[id(i)] == Seal1(cipher, aesKey, codec.marshal(metas[i]))
  {
    manifest, extracted := Manifest([], [], 0), map[];
    for k := 0 to |archive|
      invariant k > |metas| ==> manifest == archive[|metas|].manifest
      invariant forall i :: 0 <= i < |metas| && i < k ==>
        id(i) in extracted && extracted[id(i)] == Seal1(cipher, aesKey, codec.marshal(metas[i]))
    {
      match archive[k] {
        case ManifestEntry(m) => manifest := m;
        case MetadataEntry(file, content) => extracted := extracted[file := content];
        case KeyEntry(_) =>
      }
    }
  }

  /** One turn of the import loop: open the record, wrap its key anew, save it at its path. */
  method ImportOne(p: Proxy, sealed: Bytes, codec: Codec, aesKey: Bytes, ghost t: Tree, ghost metas: seq<FileMeta>,
                   ghost i: nat)
    returns (ok: bool)
    requires p.Valid() && |p.master| == KEY_SIZE && |aesKey| == KEY_SIZE && i < |metas|
    requires sealed == Seal1(p.cipher, aesKey, codec.marshal(metas[i]))
    requires Importable(t, metas) && p.meta.Tree() == ImportAll(p.cipher, p.master, t, metas[..i])
    modifies p.meta
    ensures ok && p.Valid()
    ensures p.meta.Tree() == SaveTree(old(p.meta.Tree()), ImportMeta(p.cipher, p.master, metas[i]), PathOf(metas[i]))
  {
    RoundTrip(Engine(p.cipher, aesKey), ZERO_NONCE, 0, codec.marshal(metas[i]));
    var plain := Opened(p.cipher, aesKey, sealed);
    if plain.None? {
      return false;
    }
    var record := codec.unmarshal(plain.value);
    if record.None? {
      return false;
    }
    var m := record.value;
    var wrapped := p.EncryptFEK(m.fek);
    if wrapped.Err? {
      return false;
    }
    NextFits(p.cipher, p.master, t, metas, i);
    ok := p.meta.Save(m.(fek := wrapped.value, dir := None), PathOf(m));
  }

  method Opened(cipher: Cipher, key: Bytes, sealed: Bytes) returns (plain: Option<Bytes>)
    ensures var d := Engine(cipher, key).Decrypt(ZERO_NONCE, 0, sealed);
            plain == if |key| == KEY_SIZE && d.ok then Some(d.out) else None
  {
    if NewEngine(cipher, key).Err? {
      return None;
    }
    var source := new Reader(sealed, Eof);
    var buf := new Writer();
    var err := Engine(cipher, key).DecryptStream(source, buf, ZERO_NONCE);
    ghost var out := Engine(cipher, key).Decrypt(ZERO_NONCE, 0, sealed).out;
    assert [] + out == out;
    plain := if err.None? then Some(buf.data) else None;
  }

  /** After the records before it, the next record still fits. */
  lemma NextFits(cipher: Cipher, master: Bytes, t: Tree, metas: seq<FileMeta>, i: nat)
    requires |master| == KEY_SIZE && Importable(t, metas) && i < |metas|
    ensures Placeable(ImportAll(cipher, master, t, metas[..i]), false, PathOf(metas[i]))
  {
    var u, p := ImportAll(cipher, master, t, metas[..i]), PathOf(metas[i]);
    forall r | r in u && r <= p
      ensures if r == p then u[r].File? else u[r].Dir?
    {
      OnTheWay(cipher, master, t, metas, i, r);
    }
  }

  lemma OnTheWay(cipher: Cipher, master: Bytes, t: Tree, metas: seq<FileMeta>, i: nat, r: Path)
    requires |master| == KEY_SIZE && Importable(t, metas) && i < |metas| && r <= PathOf(metas[i])
    ensures var n := Look(ImportAll(cipher, master, t, metas[..i]), r);
            n.Some? ==> if r == PathOf(metas[i]) then n.value.File? else n.value.Dir?
  {
    var front := metas[..i];
    ImportLook(cipher, master, t, front, r);
    LastIsAmong(front, r);
    if LastFor(front, r).Some? {
      var j :| 0 <= j < |front| && front[j] == LastFor(front, r).value && PathOf(front[j]) == r;
      assert metas[j] == front[j];
    }
    forall j | 0 <= j < |front|
      ensures r == PathOf(metas[i]) && r <= PathOf(front[j]) ==> LastFor(front, r).Some?
    {
      assert metas[j] == front[j];
    }
  }

  /** CreateSharePackage's last steps: the private key, sealed under the password, becomes one more entry. */
  method AppendEncryptedKey(archive: seq<TarEntry>, codec: Codec, cipher: Cipher, password: string, privateKey: nat)
    returns (shared: seq<TarEntry>)
    ensures shared == archive + [KeyEntry(Seal1(cipher, codec.deriveKey(password), codec.toPem(privateKey)))]
  {
    var pem := codec.toPem(privateKey);
    var source := new Reader(pem, Eof);
    var buf := new Writer();
    var err := Engine(cipher, codec.deriveKey(password)).EncryptStream(source, buf, ZERO_NONCE);
    assert [] + Seal1(cipher, codec.deriveKey(password), pem) == Seal1(cipher, codec.deriveKey(password), pem);
    shared := archive + [KeyEntry(buf.data)];
  }

  // The same append on the bytes of the file: the entries in blocks, then the trailer of two zero blocks.

  const TRAILER_SIZE := 1024

  function Trailer(): (z: Bytes)
    ensures |z| == 2 * 512 && forall i :: 0 <= i < |z| ==> z[i] == 0
  {
    seq(TRAILER_SIZE, i => 0)
  }

  function Blocks(encode: TarEntry -> Bytes, entries: seq<TarEntry>): Bytes {
    if entries == [] then [] else Blocks(encode, entries[..|entries| - 1]) + encode(entries[|entries| - 1])
  }

  function TarFile(encode: TarEntry -> Bytes, entries: seq<TarEntry>): Bytes {
    Blocks(encode, entries) + Trailer()
  }

  /** Cuts the trailer off, writes the entry there, and closes the archive with a new trailer. */
  method AppendToTarFile(file: Bytes, encode: TarEntry -> Bytes, entry: TarEntry, ghost entries: seq<TarEntry>)
    returns (longer: Bytes)
    ensures file == TarFile(encode, entries) ==> longer == TarFile(encode, entries + [entry])
  {
    var newSize := |file| - TRAILER_SIZE;
    if newSize < 0 {
      newSize := 0;
    }
    longer := file[..newSize] + encode(entry) + Trailer();
    ghost var all := entries + [entry];
    assert all[..|all| - 1] == entries;
    assert file == TarFile(encode, entries) ==> file[..newSize] == Blocks(encode, entries);
  }

  ghost predicate FirstKeyAt(archive: seq<TarEntry>, i: nat) {
    i < |archive| && archive[i].KeyEntry? && forall j :: 0 <= j < i ==> !archive[j].KeyEntry?
  }

  method ExtractEncryptedKey(archive: seq<TarEntry>) returns (content: Option<Bytes>)
    ensures forall i: nat {:trigger FirstKeyAt(archive, i)} ::
      FirstKeyAt(archive, i) ==> content == Some(archive[i].content)
    ensures content.None? <==> forall i :: 0 <= i < |archive| ==> !archive[i].KeyEntry?
  {
    for k := 0 to |archive|
      invariant forall i :: 0 <= i < k ==> !archive[i].KeyEntry?
    {
      if archive[k].KeyEntry? {
        return Some(archive[k].content);
      }
    }
    return None;
  }

  /** The receiver's way back from the package and the password to the private key. */
  method RecoverKey(shared: seq<TarEntry>, codec: Codec, cipher: Cipher, password: string, ghost keyPair: nat,
                    ghost n: nat)
    returns (privateKey: Option<nat>)
    requires FirstKeyAt(shared, n)
    requires shared[n] == KeyEntry(Seal1(cipher, codec.deriveKey(password), codec.toPem(keyPair)))
    ensures privateKey == Some(keyPair)
  {
    var sealedKey := ExtractEncryptedKey(shared);
    if sealedKey.None? {
      return None;
    }
    RoundTrip(Engine(cipher, codec.deriveKey(password)), ZERO_NONCE, 0, codec.toPem(keyPair));
    var pem := Opened(cipher, codec.deriveKey(password), sealedKey.value);
    if pem.None? {
      return None;
    }
    return codec.fromPem(pem.value);
  }

  /** The whole way: share paths of proxy a with a password, receive the package at proxy b with the same one. */
  method ShareAndReceive(a: Proxy, b: Proxy, paths: seq<Path>, codec: Codec, password: string, keyPair: nat,
                         aesKey: Bytes, id: nat -> string)
    returns (ok: bool, ghost visited: seq<Path>)
    requires a.Valid() && b.Valid() && a.cipher == b.cipher && a.meta != b.meta
    requires |a.master| == KEY_SIZE && |b.master| == KEY_SIZE && |aesKey| == KEY_SIZE && Injective(id)
    requires Inv(a.cipher, a.master, a.Current()) && forall path :: path in paths ==> path in a.meta.Tree()
    requires forall q ::
      q in a.meta.Tree() && a.meta.Tree()[q].File? && BelowSome(paths, q) ==> Placeable(b.meta.Tree(), false, q)
    modifies b.meta
    ensures ok && a.Valid() && b.Valid() && a.meta.Tree() == old(a.meta.Tree())
    // Every file below the paths is there with its meaning, and every other path is as it was.
    ensures Arrived(a.cipher, a.master, b.master, a.Current(), old(b.Current()), b.meta.Tree(), paths, visited)
    ensures Inv(b.cipher, b.master, old(b.Current())) ==>
      (Inv(b.cipher, b.master, b.Current()) <==> Receivable(a.cipher, a.master, a.Current(), old(b.Current()), paths))
  {
    ghost var sA, sB := a.Current(), b.Current();
    ghost var tA, tB := a.meta.Tree(), b.meta.Tree();
    InvExportable(a.cipher, a.master, a.Current());
    ghost var metas;
    var archive;
    archive, visited, metas := CreateTarPackage(a, paths, codec, keyPair, aesKey, id);
    var shared := AppendEncryptedKey(archive.value, codec, a.cipher, password, keyPair);
    assert FirstKeyAt(shared, |archive.value|) by {
      KeysOnlyAppended(codec, a.cipher, keyPair, aesKey, id, metas, archive.value);
    }
    var privateKey := RecoverKey(shared, codec, b.cipher, password, keyPair, |archive.value|);
    RecordsImportable(a.cipher, a.master, tA, tB, paths, visited, metas);
    ok := ExtractTarPackage(b, shared, codec, privateKey.value, aesKey, id, metas);
    AllArrived(a.cipher, a.master, b.master, sA, sB, b.meta.Tree(), paths, visited, metas);
  }

  /** CreateTarPackage's own archive holds no key entry. */
  lemma KeysOnlyAppended(codec: Codec, cipher: Cipher, keyPair: nat, aesKey: Bytes, id: nat -> string,
                         metas: seq<FileMeta>, archive: seq<TarEntry>)
    requires IsPackage(codec, cipher, keyPair, aesKey, id, metas, archive) && |archive| == |metas| + 1
    ensures forall i :: 0 <= i < |archive| ==> !archive[i].KeyEntry?
  {
  }

  /** At path q of the receiving vault: a shared file has arrived with its meaning, any other path is as it was,
      unless it is a directory made to hold a shared file. */
  ghost predicate Delivered(cipher: Cipher, a: Bytes, b: Bytes, tA: Tree, tB: Tree, tB': Tree, visited: seq<Path>,
                            q: Path)
  {
    if q in visited then
      && q in tA && tA[q].File? && q in tB' && tB'[q].File?
      && SameMeaning(cipher, a, b, tA[q].meta, tB'[q].meta)
    else if q in tB then Look(tB', q) == Some(tB[q])
    else Look(tB', q) == (if exists i :: 0 <= i < |visited| && q <= visited[i] then Some(Dir) else None)
  }

  /** The same object, size and nonce, and a key that unwraps to the same file key. */
  ghost predicate SameMeaning(cipher: Cipher, a: Bytes, b: Bytes, m: FileMeta, n: FileMeta) {
    && n.name == m.name && n.remoteName == m.remoteName && n.size == m.size && n.salt == m.salt
    && Unwrap(cipher, b, n.fek) == Unwrap(cipher, a, m.fek)
  }

  /** Hence the shared file has the same content at both ends. */
  lemma SameMeaningSameContent(cipher: Cipher, a: Bytes, b: Bytes, m: FileMeta, n: FileMeta, objects: Objects)
    requires SameMeaning(cipher, a, b, m, n)
    ensures Content(cipher, b, objects, n) == Content(cipher, a, objects, m)
  {
  }

  lemma RecordAt(cipher: Cipher, a: Bytes, tA: Tree, visited: seq<Path>, metas: seq<FileMeta>, i: nat)
    requires |a| == KEY_SIZE && ValidTree(tA) && Named(tA) && Records(cipher, a, tA, visited, metas) && i < |metas|
    ensures visited[i] != [] && PathOf(metas[i]) == visited[i] && !metas[i].isDir
  {
    var q := visited[i];
    assert NamedAt(tA, q);
    assert q == Parent(q) + [Base(q)];
  }

  lemma RecordsImportable(cipher: Cipher, a: Bytes, tA: Tree, tB: Tree, paths: seq<Path>, visited: seq<Path>,
                          metas: seq<FileMeta>)
    requires |a| == KEY_SIZE && ValidTree(tA) && Named(tA)
    requires FilesBelowAny(tA, paths, visited) && Records(cipher, a, tA, visited, metas)
    requires forall q :: q in tA && tA[q].File? && BelowSome(paths, q) ==> Placeable(tB, false, q)
    ensures Importable(tB, metas)
  {
    forall i | 0 <= i < |metas|
      ensures Placeable(tB, false, PathOf(metas[i])) && !metas[i].isDir && PathOf(metas[i]) == visited[i]
    {
      RecordAt(cipher, a, tA, visited, metas, i);
      assert visited[i] in visited;
    }
    forall i, j | 0 <= i < |metas| && 0 <= j < |metas| && PathOf(metas[i]) <= PathOf(metas[j])
      ensures PathOf(metas[i]) == PathOf(metas[j])
    {
      if visited[i] != visited[j] {
        AncestorsAreDirs(tA, visited[j], visited[i]);
      }
    }
  }

  lemma DeliveredAt(cipher: Cipher, a: Bytes, b: Bytes, tA: Tree, tB: Tree, visited: seq<Path>, metas: seq<FileMeta>,
                    q: Path)
    requires |a| == KEY_SIZE && |b| == KEY_SIZE && ValidTree(tA) && Named(tA) && Records(cipher, a, tA, visited, metas)
    ensures Delivered(cipher, a, b, tA, tB, ImportAll(cipher, b, tB, metas), visited, q)
  {
    forall i | 0 <= i < |metas|
      ensures !metas[i].isDir && PathOf(metas[i]) == visited[i]
    {
      RecordAt(cipher, a, tA, visited, metas, i);
    }
    ImportLook(cipher, b, tB, metas, q);
    LastIsAmong(metas, q);
    if LastFor(metas, q).Some? {
      var i :| 0 <= i < |metas| && metas[i] == LastFor(metas, q).value && PathOf(metas[i]) == q;
      assert visited[i] == q;
      RecordAt(cipher, a, tA, visited, metas, i);
      assert NamedAt(tA, q);
      JourneyKeepsMeaning(cipher, a, b, q, tA[q].meta, map[]);
    }
    forall i | 0 <= i < |visited|
      ensures visited[i] == q ==> LastFor(metas, q).Some?
    {
      assert PathOf(metas[i]) == visited[i];
    }
  }

  // Whether the receiving vault is still consistent.

  ghost predicate IsShared(tA: Tree, paths: seq<Path>, q: Path) {
    q in tA && tA[q].File? && BelowSome(paths, q)
  }

  /** The receiver's remote holds the object of a shared file, and it decrypts to the recorded size. */
  ghost predicate Reachable(cipher: Cipher, a: Bytes, sA: State, objects: Objects, paths: seq<Path>, q: Path) {
    IsShared(sA.tree, paths, q) ==> FileOk(cipher, a, State(sA.tree, objects), q)
  }

  /** A file the receiver keeps does not name the object of a file it receives. */
  ghost predicate Unclaimed(tA: Tree, tB: Tree, paths: seq<Path>, q: Path, r: Path) {
    IsShared(tA, paths, q) && r in tB && tB[r].File? && !IsShared(tA, paths, r) ==>
      tA[q].meta.remoteName != tB[r].meta.remoteName
  }

  /** What a receiver can look at before: the shared objects are within reach, and its own files name others. */
  ghost predicate Receivable(cipher: Cipher, a: Bytes, sA: State, sB: State, paths: seq<Path>) {
    && (forall q {:trigger Reachable(cipher, a, sA, sB.objects, paths, q)} ::
          Reachable(cipher, a, sA, sB.objects, paths, q))
    && (forall q, r {:trigger Unclaimed(sA.tree, sB.tree, paths, q, r)} :: Unclaimed(sA.tree, sB.tree, paths, q, r))
  }

  /** The files below the shared paths have been delivered, and nothing else at the receiver has changed. */
  ghost predicate Arrived(cipher: Cipher, a: Bytes, b: Bytes, sA: State, sB: State, t: Tree, paths: seq<Path>,
                          visited: seq<Path>)
  {
    && ValidTree(t) && FilesBelowAny(sA.tree, paths, visited)
    && forall q {:trigger Delivered(cipher, a, b, sA.tree, sB.tree, t, visited, q)} ::
         Delivered(cipher, a, b, sA.tree, sB.tree, t, visited, q)
  }

  lemma ArrivedFile(cipher: Cipher, a: Bytes, b: Bytes, sA: State, sB: State, t: Tree, paths: seq<Path>,
                    visited: seq<Path>, q: Path)
    requires Arrived(cipher, a, b, sA, sB, t, paths, visited)
    ensures q in visited <==> IsShared(sA.tree, paths, q)
    ensures IsShared(sA.tree, paths, q) ==>
      q in t && t[q].File? && SameMeaning(cipher, a, b, sA.tree[q].meta, t[q].meta)
    ensures !IsShared(sA.tree, paths, q) ==>
      (q in t && t[q].File? <==> q in sB.tree && sB.tree[q].File?)
      && (q in sB.tree && sB.tree[q].File? ==> q in t && t[q] == sB.tree[q])
  {
    assert Delivered(cipher, a, b, sA.tree, sB.tree, t, visited, q);
  }

  lemma ArrivedFileOk(cipher: Cipher, a: Bytes, b: Bytes, sA: State, sB: State, t: Tree, paths: seq<Path>,
                      visited: seq<Path>, q: Path)
    requires Arrived(cipher, a, b, sA, sB, t, paths, visited) && FileOk(cipher, a, sA, q) && FileOk(cipher, b, sB, q)
    ensures FileOk(cipher, b, State(t, sB.objects), q) <==> Reachable(cipher, a, sA, sB.objects, paths, q)
  {
    ArrivedFile(cipher, a, b, sA, sB, t, paths, visited, q);
    if IsShared(sA.tree, paths, q) {
      SameMeaningSameContent(cipher, a, b, sA.tree[q].meta, t[q].meta, sB.objects);
    }
  }

  lemma ArrivedSeparate(cipher: Cipher, a: Bytes, b: Bytes, sA: State, sB: State, t: Tree, paths: seq<Path>,
                        visited: seq<Path>, q: Path, r: Path)
    requires Arrived(cipher, a, b, sA, sB, t, paths, visited) && Separate(sA.tree, q, r) && Separate(sB.tree, q, r)
    ensures Separate(t, q, r) <==> Unclaimed(sA.tree, sB.tree, paths, q, r) && Unclaimed(sA.tree, sB.tree, paths, r, q)
  {
    ArrivedFile(cipher, a, b, sA, sB, t, paths, visited, q);
    ArrivedFile(cipher, a, b, sA, sB, t, paths, visited, r);
  }

  /** What importing the records of a package has done to the receiver as a whole. */
  lemma AllArrived(cipher: Cipher, a: Bytes, b: Bytes, sA: State, sB: State, t: Tree, paths: seq<Path>,
                   visited: seq<Path>, metas: seq<FileMeta>)
    requires |a| == KEY_SIZE && |b| == KEY_SIZE && Inv(cipher, a, sA) && FilesBelowAny(sA.tree, paths, visited)
    requires Records(cipher, a, sA.tree, visited, metas) && t == ImportAll(cipher, b, sB.tree, metas) && ValidTree(t)
    ensures Arrived(cipher, a, b, sA, sB, t, paths, visited)
    ensures Inv(cipher, b, sB) ==> (Inv(cipher, b, State(t, sB.objects)) <==> Receivable(cipher, a, sA, sB, paths))
  {
    InvExportable(cipher, a, sA);
    forall q
      ensures Delivered(cipher, a, b, sA.tree, sB.tree, t, visited, q)
    {
      DeliveredAt(cipher, a, b, sA.tree, sB.tree, visited, metas, q);
    }
    if Inv(cipher, b, sB) {
      ReceivingKeepsInv(cipher, a, b, sA, sB, t, paths, visited);
    }
  }

  /** Receiving keeps the receiver's vault consistent exactly when the package was receivable. */
  lemma ReceivingKeepsInv(cipher: Cipher, a: Bytes, b: Bytes, sA: State, sB: State, t: Tree, paths: seq<Path>,
                          visited: seq<Path>)
    requires Inv(cipher, a, sA) && Inv(cipher, b, sB) && Arrived(cipher, a, b, sA, sB, t, paths, visited)
    ensures Inv(cipher, b, State(t, sB.objects)) <==> Receivable(cipher, a, sA, sB, paths)
  {
    var s := State(t, sB.objects);
    forall q
      ensures FileOk(cipher, b, s, q) <==> Reachable(cipher, a, sA, sB.objects, paths, q)
    {
      assert FileOk(cipher, a, sA, q) && FileOk(cipher, b, sB, q);
      ArrivedFileOk(cipher, a, b, sA, sB, t, paths, visited, q);
    }
    forall q, r
      ensures Separate(t, q, r)
         <==> Unclaimed(sA.tree, sB.tree, paths, q, r) && Unclaimed(sA.tree, sB.tree, paths, r, q)
    {
      assert Separate(sA.tree, q, r) && Separate(sB.tree, q, r);
      ArrivedSeparate(cipher, a, b, sA, sB, t, paths, visited, q, r);
    }
    if Inv(cipher, b, s) {
      forall q
        ensures Reachable(cipher, a, sA, sB.objects, paths, q)
      {
        assert FileOk(cipher, b, s, q);
      }
      forall q, r
        ensures Unclaimed(sA.tree, sB.tree, paths, q, r)
      {
        assert Separate(s.tree, q, r);
      }
    }
    if Receivable(cipher, a, sA, sB, paths) {
      forall q
        ensures FileOk(cipher, b, s, q)
      {
        assert Reachable(cipher, a, sA, sB.objects, paths, q);
      }
      forall q, r
        ensures Separate(s.tree, q, r)
      {
        assert Unclaimed(sA.tree, sB.tree, paths, q, r) && Unclaimed(sA.tree, sB.tree, paths, r, q);
      }
    }
  }

  /** Where a shared file and one that the receiver keeps name the same object, removing either destroys the other. */
  lemma ClaimedIsLost(cipher: Cipher, a: Bytes, b: Bytes, sA: State, sB: State, t: Tree, paths: seq<Path>,
                      visited: seq<Path>, q: Path, r: Path)
    requires Arrived(cipher, a, b, sA, sB, t, paths, visited) && !Unclaimed(sA.tree, sB.tree, paths, q, r)
    ensures q in t && t[q].File? && r in t && t[r].File?
    ensures Content(cipher, b, AfterRemove(State(t, sB.objects), r).objects, t[q].meta) == None
    ensures Content(cipher, b, AfterRemove(State(t, sB.objects), q).objects, t[r].meta) == None
  {
    ArrivedFile(cipher, a, b, sA, sB, t, paths, visited, q);
    ArrivedFile(cipher, a, b, sA, sB, t, paths, visited, r);
    if r <= q {
      AncestorsAreDirs(t, q, r);
    }
    if q <= r {
      AncestorsAreDirs(t, r, q);
    }
    RemovalDestroys(cipher, b, State(t, sB.objects), r, r, q);
    RemovalDestroys(cipher, b, State(t, sB.objects), q, q, r);
  }

  /** A vault into which one file has been uploaded. */
  function Stored(cipher: Cipher, master: Bytes, upload: Op): State
    requires |master| == KEY_SIZE
  {
    Apply(cipher, master, State(EMPTY, map[]), upload)
  }

  /** The same with that file renamed. */
  function Moved(cipher: Cipher, master: Bytes, upload: Op): State
    requires |master| == KEY_SIZE
  {
    AfterRename(Stored(cipher, master, upload), ["x"], ["y"])
  }

  /** A receiver that has the shared file already, under another path: both vaults are consistent and the record can
      be saved, but it is not receivable. */
  lemma KnownElsewhere(cipher: Cipher, a: Bytes, b: Bytes, upload: Op)
    requires |a| == KEY_SIZE && |b| == KEY_SIZE && upload.Upload? && upload.p == ["x"] && |upload.fek| == KEY_SIZE
    ensures var sA, sB := Stored(cipher, a, upload), Moved(cipher, b, upload);
            && Inv(cipher, a, sA) && Inv(cipher, b, sB) && sA.objects == sB.objects
            && IsShared(sA.tree, [["x"]], ["x"]) && Placeable(sB.tree, false, ["x"])
            && !Receivable(cipher, a, sA, sB, [["x"]])
  {
    StoredFile(cipher, a, upload);
    MovedFile(cipher, b, upload);
    assert BelowSome([["x"]], ["x"]) by {
      assert [["x"]][0] <= ["x"];
    }
    assert !Unclaimed(Stored(cipher, a, upload).tree, Moved(cipher, b, upload).tree, [["x"]], ["x"], ["y"]);
  }

  lemma StoredFile(cipher: Cipher, master: Bytes, upload: Op)
    requires |master| == KEY_SIZE && upload.Upload? && upload.p == ["x"] && |upload.fek| == KEY_SIZE
    ensures var s := Stored(cipher, master, upload);
            && Inv(cipher, master, s) && s.objects.Keys == {upload.remoteName}
            && s.tree == map[[] := Dir, ["x"] := File(UploadMeta(cipher, master, upload))]
  {
    EmptyInv(cipher, master);
    UploadKeepsInv(cipher, master, State(EMPTY, map[]), upload);
    assert Parent(["x"]) == [];
  }

  lemma MovedFile(cipher: Cipher, master: Bytes, upload: Op)
    requires |master| == KEY_SIZE && upload.Upload? && upload.p == ["x"] && |upload.fek| == KEY_SIZE
    ensures var s := Moved(cipher, master, upload);
            && Inv(cipher, master, s) && s.objects == Stored(cipher, master, upload).objects
            && ["y"] in s.tree && s.tree[["y"]].File? && s.tree[["y"]].meta.remoteName == upload.remoteName
            && Placeable(s.tree, false, ["x"])
  {
    var s, p, q: Path := Stored(cipher, master, upload), ["x"], ["y"];
    StoredFile(cipher, master, upload);
    assert Parent(q) == [];
    RenameKeepsInv(cipher, master, s, Rename(p, q));
    RenameLook(s.tree, p, q, q);
    RenameLook(s.tree, p, q, p);
  }
}

/**
 The state the proxy keeps consistent: the metadata tree and the remote objects it points to.
 Apply says what each operation does to that state; the lemmas show that no run of operations breaks it.
 */
module Vaults {
  import opened Wrappers
  import opened ByteStrings
  import opened Aead
  import opened Engines
  import opened EngineLaws
  import opened PathMaps
  import opened Trees

  const ZERO_NONCE: Bytes := [0, 0, 0, 0, 0, 0, 0, 0, 0, 0, 0, 0]

  type Objects = map<string, Bytes>

  datatype State = State(tree: Tree, objects: Objects)

  /** encryptFEK and decryptFEK: file keys are wrapped under the master key with an all-zero nonce. */
  function Wrap(cipher: Cipher, master: Bytes, fek: Bytes): Result<Bytes, EngineError> {
    match NewEngine(cipher, master)
    case Err(e) => Err(e)
    case Ok(engine) => Ok(engine.Encrypt(ZERO_NONCE, 0, fek))
  }

  function Unwrap(cipher: Cipher, master: Bytes, wrapped: Bytes): Result<Bytes, EngineError> {
    match NewEngine(cipher, master)
    case Err(e) => Err(e)
    case Ok(engine) =>
      var d := engine.Decrypt(ZERO_NONCE, 0, wrapped);
      if d.ok then Ok(d.out) else Err(DecryptFail)
  }

  lemma UnwrapWrap(cipher: Cipher, master: Bytes, fek: Bytes)
    requires |master| == KEY_SIZE
    ensures Wrap(cipher, master, fek).Ok? && Unwrap(cipher, master, Wrap(cipher, master, fek).value) == Ok(fek)
  {
    RoundTrip(Engine(cipher, master), ZERO_NONCE, 0, fek);
  }

  /** A wrapped key is the key sealed once under the master key, with twelve zero bytes for a nonce. */
  lemma WrappedKey(cipher: Cipher, master: Bytes, fek: Bytes)
    requires 0 < |fek| <= 65536
    ensures Wrap(cipher, master, fek)
         == if |master| == 32 then Ok(cipher.seal(master, seq(12, i => 0), fek)) else Err(InvalidKey)
  {
    if |master| == 32 {
      OneChunk(Engine(cipher, master), ZERO_NONCE, fek);
      assert ZERO_NONCE == seq(12, i => 0);
    }
  }

  /** It is unwrapped by opening it once, and refused when the cipher refuses it. */
  lemma UnwrappedKey(cipher: Cipher, master: Bytes, wrapped: Bytes)
    requires 0 < |wrapped| <= 65552
    ensures Unwrap(cipher, master, wrapped)
         == if |master| != 32 then Err(InvalidKey)
            else match cipher.open(master, seq(12, i => 0), wrapped)
              case None => Err(DecryptFail)
              case Some(fek) => Ok(fek)
  {
    if |master| == 32 {
      OneChunkOpens(Engine(cipher, master), ZERO_NONCE, wrapped);
      assert ZERO_NONCE == seq(12, i => 0);
    }
  }

  /** The engine that opens the content of a file. */
  function FileEngine(cipher: Cipher, master: Bytes, m: FileMeta): Result<Engine, EngineError> {
    match Unwrap(cipher, master, m.fek)
    case Err(e) => Err(e)
    case Ok(fek) => NewEngine(cipher, fek)
  }

  /** The stream a download of m produces, unless it fails before the stream starts. */
  function Content(cipher: Cipher, master: Bytes, objects: Objects, m: FileMeta): Option<Decrypted> {
    match FileEngine(cipher, master, m)
    case Err(_) => None
    case Ok(engine) =>
      if m.remoteName in objects then Some(engine.Decrypt(m.salt, 0, objects[m.remoteName])) else None
  }

  /** A file whose metadata is right: named after its path, and its object decrypts to exactly size bytes. */
  ghost predicate FileOk(cipher: Cipher, master: Bytes, s: State, p: Path) {
    p in s.tree && s.tree[p].File? ==>
      var m := s.tree[p].meta;
      var c := Content(cipher, master, s.objects, m);
      m.name == Base(p) && c.Some? && c.value.ok && |c.value.out| == m.size
  }

  /** No two files share a remote object. */
  ghost predicate Separate(t: Tree, p: Path, q: Path) {
    p in t && q in t && p != q && t[p].File? && t[q].File? ==> t[p].meta.remoteName != t[q].meta.remoteName
  }

  ghost predicate Inv(cipher: Cipher, master: Bytes, s: State) {
    && ValidTree(s.tree)
    && (forall p {:trigger FileOk(cipher, master, s, p)} :: FileOk(cipher, master, s, p))
    && (forall p, q {:trigger Separate(s.tree, p, q)} :: Separate(s.tree, p, q))
  }

  datatype Op =
    | Upload(p: Path, data: Bytes, fek: Bytes, salt: Bytes, remoteName: string)
    | Mkdir(p: Path, remoteName: string)
    | Rename(p: Path, q: Path)
    | Remove(p: Path)

  function UploadMeta(cipher: Cipher, master: Bytes, op: Op): FileMeta
    requires op.Upload? && |master| == KEY_SIZE
  {
    FileMeta(Base(op.p), None, op.remoteName, false, |op.data|, Wrap(cipher, master, op.fek).value, op.salt)
  }

  function MkdirMeta(p: Path, remoteName: string): FileMeta {
    FileMeta(Base(p), None, remoteName, true, 0, [], [])
  }

  /** The remote objects of the files at or below p. */
  function RemoteNames(t: Tree, p: Path): set<string> {
    set q | q in t && p <= q && t[q].File? :: t[q].meta.remoteName
  }

  function Apply(cipher: Cipher, master: Bytes, s: State, op: Op): State
    requires |master| == KEY_SIZE
  {
    match op
    case Upload(p, data, fek, salt, name) =>
      State(SaveTree(s.tree, UploadMeta(cipher, master, op), p),
            s.objects[name := Engine(cipher, fek).Encrypt(salt, 0, data)])
    case Mkdir(p, name) => AfterMkdir(s, p, name)
    case Rename(p, q) => AfterRename(s, p, q)
    case Remove(p) => AfterRemove(s, p)
  }

  function AfterMkdir(s: State, p: Path, remoteName: string): State {
    s.(tree := SaveTree(s.tree, MkdirMeta(p, remoteName), p))
  }

  function AfterRename(s: State, p: Path, q: Path): State {
    if p in s.tree then s.(tree := RenameTree(s.tree, p, q)) else s
  }

  function AfterRemove(s: State, p: Path): State {
    if p in s.tree then State(RemoveFrom(s.tree, p), s.objects - RemoteNames(s.tree, p)) else s
  }

  /** What an operation needs: random keys of the right size, a fresh remote name, and a fitting place. */
  ghost predicate Allowed(s: State, op: Op) {
    match op
    case Upload(p, _, fek, _, name) => Placeable(s.tree, false, p) && |fek| == KEY_SIZE && name !in s.objects
    case Mkdir(p, _) => Placeable(s.tree, true, p)
    case Rename(p, q) => MayRename(s.tree, p, q)
    case Remove(_) => true
  }

  /** Upload stores the object before the metadata; the state in between is consistent too. */
  lemma ObjectFirst(cipher: Cipher, master: Bytes, s: State, name: string, stored: Bytes)
    requires Inv(cipher, master, s) && name !in s.objects
    ensures Inv(cipher, master, s.(objects := s.objects[name := stored]))
  {
    var s' := s.(objects := s.objects[name := stored]);
    forall p
      ensures FileOk(cipher, master, s', p)
    {
      assert FileOk(cipher, master, s, p);
    }
  }

  /** The uploaded file reads back as what was uploaded. */
  lemma UploadedContent(cipher: Cipher, master: Bytes, s: State, op: Op)
    requires op.Upload? && |master| == KEY_SIZE && |op.fek| == KEY_SIZE
    ensures var s' := Apply(cipher, master, s, op);
            && op.p in s'.tree && s'.tree[op.p] == File(UploadMeta(cipher, master, op))
            && Content(cipher, master, s'.objects, s'.tree[op.p].meta) == Some(Decrypted(op.data, true))
  {
    UnwrapWrap(cipher, master, op.fek);
    RoundTrip(Engine(cipher, op.fek), op.salt, 0, op.data);
  }

  lemma UploadKeepsInv(cipher: Cipher, master: Bytes, s: State, op: Op)
    requires Inv(cipher, master, s) && op.Upload? && Allowed(s, op) && |master| == KEY_SIZE
    ensures Inv(cipher, master, Apply(cipher, master, s, op))
  {
    var s' := Apply(cipher, master, s, op);
    SaveKeepsValid(s.tree, UploadMeta(cipher, master, op), op.p);
    UploadedContent(cipher, master, s, op);
    forall p
      ensures FileOk(cipher, master, s', p)
    {
      assert FileOk(cipher, master, s, p);
      if p != op.p && p in s'.tree && s'.tree[p].File? {
        assert p in s.tree && s.tree[p] == s'.tree[p];
        assert s.tree[p].meta.remoteName != op.remoteName;
      }
    }
    forall p, q
      ensures Separate(s'.tree, p, q)
    {
      UploadSeparate(cipher, master, s, op, p, q);
    }
  }

  lemma UploadSeparate(cipher: Cipher, master: Bytes, s: State, op: Op, p: Path, q: Path)
    requires Inv(cipher, master, s) && op.Upload? && Allowed(s, op) && |master| == KEY_SIZE
    ensures Separate(Apply(cipher, master, s, op).tree, p, q)
  {
    assert Separate(s.tree, p, q) && FileOk(cipher, master, s, p) && FileOk(cipher, master, s, q);
  }

  lemma MkdirKeepsInv(cipher: Cipher, master: Bytes, s: State, op: Op)
    requires Inv(cipher, master, s) && op.Mkdir? && Allowed(s, op) && |master| == KEY_SIZE
    ensures Inv(cipher, master, Apply(cipher, master, s, op))
  {
    var s' := Apply(cipher, master, s, op);
    MkdirKeepsValid(s.tree, op.p);
    forall p
      ensures FileOk(cipher, master, s', p)
    {
      assert FileOk(cipher, master, s, p);
    }
    forall p, q
      ensures Separate(s'.tree, p, q)
    {
      assert Separate(s.tree, p, q);
    }
  }

  lemma KeepsItsObject(cipher: Cipher, master: Bytes, s: State, r: Path, p: Path)
    requires Inv(cipher, master, s) && p in s.tree && s.tree[p].File? && !(r <= p)
    ensures s.tree[p].meta.remoteName !in RemoteNames(s.tree, r)
  {
    forall q | q in s.tree && r <= q && s.tree[q].File?
      ensures s.tree[q].meta.remoteName != s.tree[p].meta.remoteName
    {
      assert Separate(s.tree, p, q);
    }
  }

  /** Path by path and object by object: what exists goes with all that is below it, except the root itself, and so do
      the objects of the files among that. Removing an absent path changes nothing. */
  lemma RemovedAt(s: State, p: Path, r: Path, name: string)
    requires ValidTree(s.tree)
    ensures var s' := AfterRemove(s, p);
            && Look(s'.tree, r) == (if p in s.tree && p <= r && r != [] then None else Look(s.tree, r))
            && (name in s'.objects <==> name in s.objects && forall q ::
                  q in s.tree && p <= q && s.tree[q].File? ==> s.tree[q].meta.remoteName != name)
            && (name in s'.objects ==> s'.objects[name] == s.objects[name])
  {
    if p !in s.tree {
      forall q | q in s.tree && p <= q
        ensures false
      {
        AncestorsAreDirs(s.tree, q, p);
      }
    }
  }

  /** When two files name one object, removing the first, or a directory above it, leaves the second without content. */
  lemma RemovalDestroys(cipher: Cipher, master: Bytes, s: State, r: Path, p: Path, q: Path)
    requires ValidTree(s.tree) && p in s.tree && q in s.tree && s.tree[p].File? && s.tree[q].File?
    requires s.tree[p].meta.remoteName == s.tree[q].meta.remoteName && r <= p && !(r <= q)
    ensures var s' := AfterRemove(s, r);
            q in s'.tree && s'.tree[q] == s.tree[q] && Content(cipher, master, s'.objects, s'.tree[q].meta) == None
  {
    if r != p {
      AncestorsAreDirs(s.tree, p, r);
    }
    assert s.tree[p].meta.remoteName in RemoteNames(s.tree, r);
  }

  lemma RemoveKeepsInv(cipher: Cipher, master: Bytes, s: State, op: Op)
    requires Inv(cipher, master, s) && op.Remove? && |master| == KEY_SIZE
    ensures Inv(cipher, master, Apply(cipher, master, s, op))
  {
    var s' := Apply(cipher, master, s, op);
    RemoveKeepsValid(s.tree, op.p);
    forall p
      ensures FileOk(cipher, master, s', p)
    {
      assert FileOk(cipher, master, s, p);
      if op.p in s.tree && p in s'.tree && s'.tree[p].File? {
        KeepsItsObject(cipher, master, s, op.p, p);
      }
    }
    forall p, q
      ensures Separate(s'.tree, p, q)
    {
      assert Separate(s.tree, p, q);
    }
  }

  lemma RenamedFile(t: Tree, p: Path, q: Path, k: Path)
    requires ValidTree(t) && Renamable(t, p, q) && k in RenameTree(t, p, q) && RenameTree(t, p, q)[k].File?
    ensures var o, m := Before(p, q, k), RenameTree(t, p, q)[k].meta;
            && o in t && t[o].File? && !(p <= k)
            && m == t[o].meta.(name := if k == q then Base(q) else t[o].meta.name)
            && (k == q || Base(o) == Base(k))
  {
    RenamedNode(t, p, q, k);
    if k == q {
      assert p + k[|q|..] == p;
    }
  }

  lemma RenamedFileOk(cipher: Cipher, master: Bytes, s: State, p: Path, q: Path, k: Path)
    requires ValidTree(s.tree) && Renamable(s.tree, p, q) && FileOk(cipher, master, s, Before(p, q, k))
    ensures FileOk(cipher, master, s.(tree := RenameTree(s.tree, p, q)), k)
  {
    var t' := RenameTree(s.tree, p, q);
    if k in t' && t'[k].File? {
      RenamedFile(s.tree, p, q, k);
      var m, m' := s.tree[Before(p, q, k)].meta, t'[k].meta;
      assert Content(cipher, master, s.objects, m') == Content(cipher, master, s.objects, m);
    }
  }

  lemma RenamedSeparate(t: Tree, p: Path, q: Path, j: Path, k: Path)
    requires ValidTree(t) && Renamable(t, p, q) && Separate(t, Before(p, q, j), Before(p, q, k))
    ensures Separate(RenameTree(t, p, q), j, k)
  {
    var t' := RenameTree(t, p, q);
    if j in t' && k in t' && t'[j].File? && t'[k].File? && j != k {
      RenamedFile(t, p, q, j);
      RenamedFile(t, p, q, k);
      if Before(p, q, j) == Before(p, q, k) {
        BeforeInjective(p, q, j, k);
      }
    }
  }

  lemma RenameKeepsInv(cipher: Cipher, master: Bytes, s: State, op: Op)
    requires Inv(cipher, master, s) && op.Rename? && Allowed(s, op) && |master| == KEY_SIZE
    ensures Inv(cipher, master, Apply(cipher, master, s, op))
  {
    var Rename(p, q) := op;
    if p in s.tree {
      RenameKeepsValid(s.tree, p, q);
      var s' := s.(tree := RenameTree(s.tree, p, q));
      forall k
        ensures FileOk(cipher, master, s', k)
      {
        assert FileOk(cipher, master, s, Before(p, q, k));
        RenamedFileOk(cipher, master, s, p, q, k);
      }
      forall j, k
        ensures Separate(s'.tree, j, k)
      {
        assert Separate(s.tree, Before(p, q, j), Before(p, q, k));
        RenamedSeparate(s.tree, p, q, j, k);
      }
    }
  }

  lemma ApplyKeepsInv(cipher: Cipher, master: Bytes, s: State, op: Op)
    requires Inv(cipher, master, s) && Allowed(s, op) && |master| == KEY_SIZE
    ensures Inv(cipher, master, Apply(cipher, master, s, op))
  {
    match op {
      case Upload(_, _, _, _, _) => UploadKeepsInv(cipher, master, s, op);
      case Mkdir(_, _) => MkdirKeepsInv(cipher, master, s, op);
      case Rename(_, _) => RenameKeepsInv(cipher, master, s, op);
      case Remove(_) => RemoveKeepsInv(cipher, master, s, op);
    }
  }

  ghost predicate Legal(cipher: Cipher, master: Bytes, s: State, ops: seq<Op>)
    requires |master| == KEY_SIZE
    decreases |ops|
  {
    ops == [] || (Allowed(s, ops[0]) && Legal(cipher, master, Apply(cipher, master, s, ops[0]), ops[1..]))
  }

  function Run(cipher: Cipher, master: Bytes, s: State, ops: seq<Op>): State
    requires |master| == KEY_SIZE
    decreases |ops|
  {
    if ops == [] then s else Run(cipher, master, Apply(cipher, master, s, ops[0]), ops[1..])
  }

  lemma EmptyInv(cipher: Cipher, master: Bytes)
    ensures Inv(cipher, master, State(EMPTY, map[]))
  {
  }

  lemma {:induction false} RunsKeepInv(cipher: Cipher, master: Bytes, s: State, ops: seq<Op>)
    requires |master| == KEY_SIZE && Inv(cipher, master, s) && Legal(cipher, master, s, ops)
    ensures Inv(cipher, master, Run(cipher, master, s, ops))
    decreases |ops|
  {
    if ops != [] {
      ApplyKeepsInv(cipher, master, s, ops[0]);
      RunsKeepInv(cipher, master, Apply(cipher, master, s, ops[0]), ops[1..]);
    }
  }
}

/** What the operations of the proxy mean to someone who only sees plaintext: paths and their content. */
module Views {
  import opened Wrappers
  import opened ByteStrings
  import opened Aead
  import opened Engines
  import opened PathMaps
  import opened Trees
  import opened Vaults

  /** The content of every file. */
  ghost function View(cipher: Cipher, master: Bytes, s: State): map<Path, Bytes>
    requires Inv(cipher, master, s)
  {
    map p | p in s.tree && s.tree[p].File? :: ContentOf(cipher, master, s, p)
  }

  ghost function ContentOf(cipher: Cipher, master: Bytes, s: State, p: Path): Bytes
    requires Inv(cipher, master, s) && p in s.tree && s.tree[p].File?
  {
    assert FileOk(cipher, master, s, p);
    Content(cipher, master, s.objects, s.tree[p].meta).value.out
  }

  /** An upload sets the content of its path and of no other. */
  lemma UploadView(cipher: Cipher, master: Bytes, s: State, op: Op)
    requires |master| == KEY_SIZE && Inv(cipher, master, s) && op.Upload? && Allowed(s, op)
    ensures Inv(cipher, master, Apply(cipher, master, s, op))
    ensures View(cipher, master, Apply(cipher, master, s, op)) == View(cipher, master, s)[op.p := op.data]
  {
    UploadKeepsInv(cipher, master, s, op);
    var s' := Apply(cipher, master, s, op);
    forall p
      ensures Look(View(cipher, master, s'), p) == Look(View(cipher, master, s)[op.p := op.data], p)
    {
      UploadViewAt(cipher, master, s, s', op, p);
    }
    SameLooks(View(cipher, master, s'), View(cipher, master, s)[op.p := op.data]);
  }

  lemma UploadViewAt(cipher: Cipher, master: Bytes, s: State, s': State, op: Op, p: Path)
    requires |master| == KEY_SIZE && Inv(cipher, master, s) && op.Upload? && Allowed(s, op)
    requires s' == Apply(cipher, master, s, op) && Inv(cipher, master, s')
    ensures Look(View(cipher, master, s'), p) == Look(View(cipher, master, s)[op.p := op.data], p)
  {
    ViewAt(cipher, master, s, p);
    ViewAt(cipher, master, s', p);
    if p == op.p {
      UploadedContent(cipher, master, s, op);
    } else {
      SavedElsewhere(s.tree, UploadMeta(cipher, master, op), op.p, p);
      if p in s.tree && s.tree[p].File? {
        assert FileOk(cipher, master, s, p);
        OtherContent(cipher, master, s.objects, op.remoteName, s'.objects[op.remoteName], s.tree[p].meta);
      }
    }
  }

  lemma SavedElsewhere(t: Tree, m: FileMeta, p: Path, q: Path)
    requires !m.isDir && q != p
    ensures Look(SaveTree(t, m, p), q) == Look(t, q) || (q !in t && Look(SaveTree(t, m, p), q) == Some(Dir))
  {
  }

  /** A new object does not change what the old ones hold. */
  lemma OtherContent(cipher: Cipher, master: Bytes, objects: Objects, name: string, stored: Bytes, m: FileMeta)
    requires m.remoteName in objects && name !in objects
    ensures Content(cipher, master, objects[name := stored], m) == Content(cipher, master, objects, m)
  {
  }

  lemma ViewAt(cipher: Cipher, master: Bytes, s: State, p: Path)
    requires Inv(cipher, master, s)
    ensures Look(View(cipher, master, s), p)
         == if p in s.tree && s.tree[p].File? then Some(ContentOf(cipher, master, s, p)) else None
  {
  }

  /** A removal drops the files at and below its path. */
  lemma RemoveView(cipher: Cipher, master: Bytes, s: State, p: Path)
    requires |master| == KEY_SIZE && Inv(cipher, master, s)
    ensures Inv(cipher, master, AfterRemove(s, p))
    ensures View(cipher, master, AfterRemove(s, p)) == RemoveTree(View(cipher, master, s), p)
  {
    RemoveKeepsInv(cipher, master, s, Remove(p));
    assert Inv(cipher, master, AfterRemove(s, p));
    forall q
      ensures Look(View(cipher, master, AfterRemove(s, p)), q) == Look(RemoveTree(View(cipher, master, s), p), q)
    {
      RemovedContent(cipher, master, s, p, q);
    }
    SameLooks(View(cipher, master, AfterRemove(s, p)), RemoveTree(View(cipher, master, s), p));
  }

  lemma RemovedContent(cipher: Cipher, master: Bytes, s: State, p: Path, q: Path)
    requires |master| == KEY_SIZE && Inv(cipher, master, s) && Inv(cipher, master, AfterRemove(s, p))
    ensures Look(View(cipher, master, AfterRemove(s, p)), q) == Look(RemoveTree(View(cipher, master, s), p), q)
  {
    var s' := AfterRemove(s, p);
    ViewAt(cipher, master, s, q);
    ViewAt(cipher, master, s', q);
    RemoveLook(View(cipher, master, s), p, q);
    if q in s'.tree && q in s.tree && s.tree[q].File? {
      assert FileOk(cipher, master, s', q) && FileOk(cipher, master, s, q);
    }
    if p !in s.tree && p <= q && q in s.tree {
      AncestorsAreDirs(s.tree, q, p);
    }
  }

  /** A rename moves content with its path: whatever was at or below p is now at the same place below q. */
  lemma RenameView(cipher: Cipher, master: Bytes, s: State, p: Path, q: Path)
    requires |master| == KEY_SIZE && Inv(cipher, master, s) && Renamable(s.tree, p, q)
    ensures Inv(cipher, master, AfterRename(s, p, q))
    ensures View(cipher, master, AfterRename(s, p, q)) == MoveTree(View(cipher, master, s), p, q)
  {
    RenameKeepsInv(cipher, master, s, Rename(p, q));
    var v, v' := View(cipher, master, s), View(cipher, master, AfterRename(s, p, q));
    forall k
      ensures Look(v', k) == Look(MoveTree(v, p, q), k)
    {
      RenamedContent(cipher, master, s, p, q, k);
    }
    SameLooks(v', MoveTree(v, p, q));
  }

  lemma RenamedContent(cipher: Cipher, master: Bytes, s: State, p: Path, q: Path, k: Path)
    requires |master| == KEY_SIZE && Inv(cipher, master, s) && Renamable(s.tree, p, q)
    requires Inv(cipher, master, AfterRename(s, p, q))
    ensures Look(View(cipher, master, AfterRename(s, p, q)), k) == Look(MoveTree(View(cipher, master, s), p, q), k)
  {
    var s', o, v := AfterRename(s, p, q), Before(p, q, k), View(cipher, master, s);
    RenameLook(s.tree, p, q, k);
    ViewAt(cipher, master, s', k);
    ViewAt(cipher, master, s, o);
    ViewAt(cipher, master, s, k);
    MoveLook(v, p, q, k);
    if k in s'.tree && s'.tree[k].File? {
      RenamedFile(s.tree, p, q, k);
      assert FileOk(cipher, master, s, o);
    } else if k == q {
      assert o == p;
    } else if q <= k {
      NothingBelowLeaf(s.tree, p, q, k);
    }
  }

  // Directories included: what a file system shows.

  datatype FsNode = Folder | Plain(data: Bytes)

  type FsTree = map<Path, FsNode>

  ghost function Nodes(cipher: Cipher, master: Bytes, s: State): FsTree
    requires Inv(cipher, master, s)
  {
    map p | p in s.tree :: if s.tree[p].File? then Plain(ContentOf(cipher, master, s, p)) else Folder
  }

  function StoreNode(n: FsTree, p: Path, data: Bytes): FsTree {
    MkdirAll(n, Parent(p), Folder)[p := Plain(data)]
  }

  function RenameNode(n: FsTree, p: Path, q: Path): FsTree {
    MoveTree(MkdirAll(n, Parent(q), Folder), p, q)
  }

  /** The namespace conditions of Placeable, Renamable and Missing, on what a file system shows. */
  ghost predicate Fits(n: FsTree, isDir: bool, p: Path) {
    && Nameable(p)
    && (forall q :: q in n && q <= p && q != p ==> n[q].Folder?)
    && (if isDir then (p != [] ==> DirName(Base(p))) && (p in n ==> n[p].Folder?)
        else p != [] && (p in n ==> n[p].Plain?))
  }

  ghost predicate CanRename(n: FsTree, p: Path, q: Path) {
    && p in n && p != [] && Apart(p, q)
    && Fits(n, n[p].Folder?, q)
    && (n[p].Folder? ==> q !in n)
  }

  ghost predicate Absent(n: FsTree, p: Path) {
    && p !in n && p != [MARKER]
    && !(p != [] && HasSuffix(Base(p)) && Virtual(p) in n && n[Virtual(p)].Plain?)
  }

  lemma NodesAt(cipher: Cipher, master: Bytes, s: State, p: Path)
    requires Inv(cipher, master, s)
    ensures Look(Nodes(cipher, master, s), p)
         == if p !in s.tree then None
            else if s.tree[p].File? then Some(Plain(ContentOf(cipher, master, s, p)))
            else Some(Folder)
    ensures p in s.tree && s.tree[p].File? ==>
      Look(View(cipher, master, s), p) == Some(ContentOf(cipher, master, s, p))
  {
  }

  lemma SameFits(cipher: Cipher, master: Bytes, s: State, isDir: bool, p: Path)
    requires Inv(cipher, master, s)
    ensures Fits(Nodes(cipher, master, s), isDir, p) <==> Placeable(s.tree, isDir, p)
  {
    var n := Nodes(cipher, master, s);
    assert forall q :: q in n <==> q in s.tree;
    assert forall q :: q in n ==> (n[q].Folder? <==> s.tree[q].Dir?);
  }

  lemma SameConditions(cipher: Cipher, master: Bytes, s: State, p: Path, q: Path)
    requires Inv(cipher, master, s)
    ensures CanRename(Nodes(cipher, master, s), p, q) <==> Renamable(s.tree, p, q)
    ensures Absent(Nodes(cipher, master, s), p) <==> Missing(s.tree, p)
  {
    NodesAt(cipher, master, s, p);
    NodesAt(cipher, master, s, q);
    NodesAt(cipher, master, s, Virtual(p));
    SameFits(cipher, master, s, p in s.tree && s.tree[p].Dir?, q);
  }

  /** An upload stores a plain file and makes missing folders above it. */
  lemma UploadNodes(cipher: Cipher, master: Bytes, s: State, op: Op)
    requires |master| == KEY_SIZE && Inv(cipher, master, s) && op.Upload? && Allowed(s, op)
    ensures Inv(cipher, master, Apply(cipher, master, s, op))
    ensures Nodes(cipher, master, Apply(cipher, master, s, op)) == StoreNode(Nodes(cipher, master, s), op.p, op.data)
  {
    UploadView(cipher, master, s, op);
    forall k
      ensures Look(Nodes(cipher, master, Apply(cipher, master, s, op)), k)
           == Look(StoreNode(Nodes(cipher, master, s), op.p, op.data), k)
    {
      UploadNodesAt(cipher, master, s, op, k);
    }
    SameLooks(Nodes(cipher, master, Apply(cipher, master, s, op)), StoreNode(Nodes(cipher, master, s), op.p, op.data));
  }

  lemma StoreLook(n: FsTree, p: Path, data: Bytes, k: Path)
    ensures Look(StoreNode(n, p, data), k)
         == if k == p then Some(Plain(data)) else if k in n then Some(n[k])
            else if k <= Parent(p) then Some(Folder) else None
  {
  }

  lemma UploadNodesAt(cipher: Cipher, master: Bytes, s: State, op: Op, k: Path)
    requires |master| == KEY_SIZE && Inv(cipher, master, s) && op.Upload? && Allowed(s, op)
    requires var s' := Apply(cipher, master, s, op);
             Inv(cipher, master, s') && View(cipher, master, s') == View(cipher, master, s)[op.p := op.data]
    ensures Look(Nodes(cipher, master, Apply(cipher, master, s, op)), k)
         == Look(StoreNode(Nodes(cipher, master, s), op.p, op.data), k)
  {
    var s' := Apply(cipher, master, s, op);
    NodesAt(cipher, master, s, k);
    NodesAt(cipher, master, s', k);
    StoreLook(Nodes(cipher, master, s), op.p, op.data, k);
    SaveLook(s.tree, UploadMeta(cipher, master, op), op.p, k);
    assert k != op.p ==> (k <= op.p <==> k <= Parent(op.p));
    assert Look(View(cipher, master, s'), k) == if k == op.p then Some(op.data) else Look(View(cipher, master, s), k);
  }

  /** A rename moves the whole subtree and makes missing folders above its target. */
  lemma RenameNodes(cipher: Cipher, master: Bytes, s: State, p: Path, q: Path)
    requires |master| == KEY_SIZE && Inv(cipher, master, s) && Renamable(s.tree, p, q)
    ensures Inv(cipher, master, AfterRename(s, p, q))
    ensures Nodes(cipher, master, AfterRename(s, p, q)) == RenameNode(Nodes(cipher, master, s), p, q)
  {
    RenameView(cipher, master, s, p, q);
    forall k
      ensures Look(Nodes(cipher, master, AfterRename(s, p, q)), k)
           == Look(RenameNode(Nodes(cipher, master, s), p, q), k)
    {
      RenameNodesAt(cipher, master, s, p, q, k);
    }
    SameLooks(Nodes(cipher, master, AfterRename(s, p, q)), RenameNode(Nodes(cipher, master, s), p, q));
  }

  /** The same rule as RenameLook, for nodes: where what stands at k came from. */
  lemma RenameNodeLook(n: FsTree, p: Path, q: Path, k: Path)
    ensures Look(RenameNode(n, p, q), k)
         == if q <= k && Before(p, q, k) in MkdirAll(n, Parent(q), Folder) then
              Look(MkdirAll(n, Parent(q), Folder), Before(p, q, k))
            else if p <= k then None
            else Look(MkdirAll(n, Parent(q), Folder), k)
  {
    MoveLook(MkdirAll(n, Parent(q), Folder), p, q, k);
  }

  /** Missing folders show up wherever missing directories are made. */
  lemma MkdirNodes(cipher: Cipher, master: Bytes, s: State, p: Path, k: Path)
    requires Inv(cipher, master, s)
    ensures Look(MkdirAll(Nodes(cipher, master, s), p, Folder), k)
         == if k in s.tree then Look(Nodes(cipher, master, s), k) else if k <= p then Some(Folder) else None
    ensures Look(MkdirAll(s.tree, p, Dir), k)
         == if k in s.tree then Some(s.tree[k]) else if k <= p then Some(Dir) else None
  {
  }

  lemma RenameNodesAt(cipher: Cipher, master: Bytes, s: State, p: Path, q: Path, k: Path)
    requires |master| == KEY_SIZE && Inv(cipher, master, s) && Renamable(s.tree, p, q)
    requires var s' := AfterRename(s, p, q);
             Inv(cipher, master, s') && View(cipher, master, s') == MoveTree(View(cipher, master, s), p, q)
    ensures Look(Nodes(cipher, master, AfterRename(s, p, q)), k) == Look(RenameNode(Nodes(cipher, master, s), p, q), k)
  {
    var s', o := AfterRename(s, p, q), Before(p, q, k);
    NodesAt(cipher, master, s, k);
    NodesAt(cipher, master, s, o);
    NodesAt(cipher, master, s', k);
    RenameLook(s.tree, p, q, k);
    RenameNodeLook(Nodes(cipher, master, s), p, q, k);
    MkdirNodes(cipher, master, s, Parent(q), k);
    MkdirNodes(cipher, master, s, Parent(q), o);
    MoveLook(View(cipher, master, s), p, q, k);
    ViewAt(cipher, master, s, o);
    ViewAt(cipher, master, s, k);
    if k == q {
      assert o == p;
    } else if q <= k {
      NothingBelowLeaf(s.tree, p, q, k);
    }
  }
}

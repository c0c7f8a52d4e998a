/** The virtual tree that users see, and what each metadata operation does to it. */
module Trees {
  import opened Wrappers
  import opened ByteStrings
  import opened PathMaps

  /** dir is the Path field: set only inside share packages, absent in stored metadata. */
  datatype FileMeta = FileMeta(
    name: string, dir: Option<Path>, remoteName: string, isDir: bool, size: nat, fek: Bytes, salt: Bytes)

  datatype Node = Dir | File(meta: FileMeta)

  type Tree = map<Path, Node>

  const EMPTY: Tree := map[[] := Dir]
  const JSON := ".json"
  const MARKER := ".clearvault"

  predicate HasSuffix(s: string) {
    |s| >= |JSON| && s[|s| - |JSON|..] == JSON
  }

  /** strings.TrimSuffix(s, ".json"). */
  function TrimSuffix(s: string): string {
    if HasSuffix(s) then s[..|s| - |JSON|] else s
  }

  /** The virtual path a metadata file belongs to. */
  function Virtual(q: Path): Path {
    if q == [] then [] else Parent(q) + [TrimSuffix(Base(q))]
  }

  /** A directory component that the on-disk encoding cannot confuse with a metadata file or the marker. */
  predicate DirName(s: string) {
    !HasSuffix(s) && s != MARKER
  }

  /** Every component of p above its last one is a proper directory name. */
  predicate Nameable(p: Path) {
    forall i :: 0 <= i < |p| - 1 ==> DirName(p[i])
  }

  ghost predicate ValidTree(t: Tree) {
    && [] in t && t[[]].Dir?
    && (forall p :: p in t && p != [] ==> Parent(p) in t && t[Parent(p)].Dir?)
    && (forall p :: p in t && p != [] && t[p].Dir? ==> DirName(Base(p)))
    && (forall p :: p in t && t[p].File? ==> !t[p].meta.isDir)
  }

  /** The namespace conditions under which a directory or a file may be put at p. */
  ghost predicate Placeable(t: Tree, isDir: bool, p: Path) {
    && Nameable(p)
    && (forall q :: q in t && q <= p && q != p ==> t[q].Dir?)
    && (if isDir then (p != [] ==> DirName(Base(p))) && (p in t ==> t[p].Dir?)
        else p != [] && (p in t ==> t[p].File?))
  }

  function DirMeta(p: Path): FileMeta {
    FileMeta(Base(p), None, "", true, 0, [], [])
  }

  function MetaOf(t: Tree, p: Path): FileMeta
    requires p in t
  {
    match t[p]
    case Dir => DirMeta(p)
    case File(m) => m
  }

  function MetaAt(t: Tree, p: Path): Option<FileMeta> {
    if p in t then Some(MetaOf(t, p)) else None
  }

  function SaveTree(t: Tree, m: FileMeta, p: Path): Tree {
    if m.isDir then MkdirAll(t, p, Dir) else MkdirAll(t, Parent(p), Dir)[p := File(m)]
  }

  /** What LocalStorage.RemoveAll leaves for a path that exists. */
  function RemoveFrom(t: Tree, p: Path): Tree {
    if p == [] then EMPTY else RemoveTree(t, p)
  }

  function Renamed(n: Node, q: Path): Node {
    if n.File? then File(n.meta.(name := Base(q))) else n
  }

  function RenameTree(t: Tree, p: Path, q: Path): Tree
    requires p in t
  {
    MoveTree(MkdirAll(t, Parent(q), Dir), p, q)[q := Renamed(t[p], q)]
  }

  /** The renames for which moving in place and copying agree: a free target, or one file over another. */
  ghost predicate Renamable(t: Tree, p: Path, q: Path) {
    && p in t && p != [] && Apart(p, q)
    && Placeable(t, t[p].Dir?, q)
    && (t[p].Dir? ==> q !in t)
  }

  /** "x.json" spelled as a directory is the metadata file of "x". */
  ghost predicate AliasesFile(t: Tree, p: Path) {
    p != [] && HasSuffix(Base(p)) && Virtual(p) in t && t[Virtual(p)].File?
  }

  /** A path that names nothing in the tree, and whose directory spelling hits no file on disk either. */
  ghost predicate Missing(t: Tree, p: Path) {
    && p !in t && p != [MARKER]
    && !AliasesFile(t, p)
  }

  ghost predicate MayRename(t: Tree, p: Path, q: Path) {
    Renamable(t, p, q) || Missing(t, p)
  }

  lemma {:induction false} AncestorsAreDirs(t: Tree, p: Path, q: Path)
    requires ValidTree(t) && p in t && q <= p && q != p
    ensures q in t && t[q].Dir?
    decreases |p|
  {
    if q == Parent(p) {
    } else {
      assert q <= Parent(p);
      AncestorsAreDirs(t, Parent(p), q);
    }
  }

  lemma MkdirKeepsValid(t: Tree, p: Path)
    requires ValidTree(t) && Placeable(t, true, p)
    ensures ValidTree(MkdirAll(t, p, Dir))
  {
    var u := MkdirAll(t, p, Dir);
    forall q | q in u && q != []
      ensures Parent(q) in u && u[Parent(q)].Dir? && (u[q].Dir? ==> DirName(Base(q)))
    {
      if q !in t {
        assert Parent(q) <= p;
        assert q[|q| - 1] == p[|q| - 1];
      }
    }
  }

  lemma SaveKeepsValid(t: Tree, m: FileMeta, p: Path)
    requires ValidTree(t) && Placeable(t, m.isDir, p)
    ensures ValidTree(SaveTree(t, m, p))
  {
    if m.isDir {
      MkdirKeepsValid(t, p);
    } else {
      ParentPlaceable(t, p);
      MkdirKeepsValid(t, Parent(p));
    }
  }

  /** Saving a file changes its own path and makes missing parents; saving a directory makes it and them. */
  lemma SaveLook(t: Tree, m: FileMeta, p: Path, r: Path)
    requires !m.isDir ==> p != []
    ensures Look(SaveTree(t, m, p), r)
         == if r == p && !m.isDir then Some(File(m))
            else if r in t then Some(t[r])
            else if r <= p then Some(Dir)
            else None
  {
    assert r != p ==> (r <= p <==> r <= Parent(p));
  }

  lemma ParentPlaceable(t: Tree, p: Path)
    requires ValidTree(t) && Nameable(p) && (forall q :: q in t && q <= p && q != p ==> t[q].Dir?)
    ensures Placeable(t, true, Parent(p))
  {
    var r := Parent(p);
    forall q | q in t && q <= r && q != r
      ensures t[q].Dir?
    {
      assert q <= p;
    }
    if p != [] && r in t {
      assert r <= p;
    }
  }

  lemma RemoveKeepsValid(t: Tree, p: Path)
    requires ValidTree(t)
    ensures ValidTree(RemoveFrom(t, p))
  {
    var u := RemoveFrom(t, p);
    forall q | q in u && q != []
      ensures Parent(q) in u
    {
      assert p <= Parent(q) ==> p <= q;
    }
  }

  lemma LeafInTree(t: Tree, p: Path)
    requires ValidTree(t) && (p in t ==> t[p].File?)
    ensures Leaf(t, p)
  {
    forall k | k in t && p <= k
      ensures k == p
    {
      if k != p {
        AncestorsAreDirs(t, k, p);
      }
    }
  }

  /** Renaming a file writes it under its new name and deletes the old one. */
  lemma RenameFileTree(t: Tree, p: Path, q: Path)
    requires ValidTree(t) && Renamable(t, p, q) && t[p].File?
    ensures Placeable(t, true, Parent(q)) && q != []
    ensures var u := MkdirAll(t, Parent(q), Dir);
            && p in u && u[p] == t[p] && (q in u ==> u[q].File?)
            && RenameTree(t, p, q) == RemoveTree(u[q := Renamed(t[p], q)], p)
  {
    ParentPlaceable(t, q);
    MkdirKeepsValid(t, Parent(q));
    var u := MkdirAll(t, Parent(q), Dir);
    assert q !in t ==> q !in u;
    LeafInTree(u, p);
    LeafInTree(u, q);
    MoveLeaf(u, p, q);
    RemoveThenUpdate(u, p, q, u[p], Renamed(t[p], q));
  }

  lemma RenameDirTree(t: Tree, p: Path, q: Path)
    requires ValidTree(t) && Renamable(t, p, q) && t[p].Dir?
    ensures Placeable(t, true, Parent(q))
    ensures var u := MkdirAll(t, Parent(q), Dir);
            && p in u && u[p].Dir? && q !in u && q != [] && DirName(Base(q))
            && RenameTree(t, p, q) == MoveTree(u, p, q)
  {
    ParentPlaceable(t, q);
    var u := MkdirAll(t, Parent(q), Dir);
    assert p + q[|q|..] == p;
    assert MoveTree(u, p, q)[q := Dir] == MoveTree(u, p, q);
  }

  /** Where the node at k of a renamed tree stood before. */
  function Before(p: Path, q: Path, k: Path): Path {
    if q <= k then p + k[|q|..] else k
  }

  lemma NothingBelowLeaf(t: Tree, p: Path, q: Path, k: Path)
    requires ValidTree(t) && Renamable(t, p, q) && q <= k && q != k
    ensures k !in MkdirAll(t, Parent(q), Dir)
  {
    if k in t {
      AncestorsAreDirs(t, k, q);
    }
  }

  /** Every node of a renamed tree comes from one place, and nothing is left below p. */
  lemma RenameLook(t: Tree, p: Path, q: Path, k: Path)
    requires ValidTree(t) && Renamable(t, p, q)
    ensures Look(RenameTree(t, p, q), k)
         == if k == q then Some(Renamed(t[p], q))
            else if p <= k then None
            else Look(MkdirAll(t, Parent(q), Dir), Before(p, q, k))
  {
    ApartShareNothing(p, q, k);
    if q <= k && q != k {
      NothingBelowLeaf(t, p, q, k);
    }
  }

  lemma MkdirAddsDirs(t: Tree, p: Path, o: Path)
    requires o in MkdirAll(t, p, Dir)
    ensures o in t || MkdirAll(t, p, Dir)[o].Dir?
  {
  }

  lemma BeforeBelow(p: Path, q: Path, k: Path)
    requires k != q && k != []
    ensures var o := Before(p, q, k);
            q <= k || !(p <= k) ==> (o == [] || Base(o) == Base(k)) && Parent(o) == Before(p, q, Parent(k))
  {
    if q <= k {
      assert Parent(p + k[|q|..]) == p + Parent(k)[|q|..];
    }
  }

  lemma RenamedNode(t: Tree, p: Path, q: Path, k: Path)
    requires ValidTree(t) && Renamable(t, p, q) && k in RenameTree(t, p, q)
    ensures var u, o := MkdirAll(t, Parent(q), Dir), Before(p, q, k);
            && o in u && !(p <= k) && (o in t || u[o].Dir?)
            && RenameTree(t, p, q)[k] == (if k == q then Renamed(t[p], q) else u[o])
            && (k != q && k != [] ==> Base(o) == Base(k) && Parent(o) == Before(p, q, Parent(k)))
  {
    var u, t', o := MkdirAll(t, Parent(q), Dir), RenameTree(t, p, q), Before(p, q, k);
    RenameLook(t, p, q, k);
    assert Look(t', k) == Some(t'[k]);
    if k == q {
      assert o == p && p in u;
    } else {
      assert Look(u, o) == Some(t'[k]);
      if k != [] {
        BeforeBelow(p, q, k);
      }
    }
    MkdirAddsDirs(t, Parent(q), o);
  }

  lemma RenameKeepsValid(t: Tree, p: Path, q: Path)
    requires ValidTree(t) && Renamable(t, p, q)
    ensures ValidTree(RenameTree(t, p, q))
  {
    ParentPlaceable(t, q);
    MkdirKeepsValid(t, Parent(q));
    var t' := RenameTree(t, p, q);
    RenameLook(t, p, q, []);
    forall k | k in t'
      ensures t'[k].File? ==> !t'[k].meta.isDir
      ensures k != [] ==> Parent(k) in t' && t'[Parent(k)].Dir? && (t'[k].Dir? ==> DirName(Base(k)))
    {
      RenamedNode(t, p, q, k);
      if k != [] {
        ParentSurvives(t, MkdirAll(t, Parent(q), Dir), t', p, q, k);
      }
    }
  }

  lemma ParentSurvives(t: Tree, u: Tree, t': Tree, p: Path, q: Path, k: Path)
    requires ValidTree(t) && ValidTree(u) && Renamable(t, p, q) && k != []
    requires u == MkdirAll(t, Parent(q), Dir) && t' == RenameTree(t, p, q) && k in t'
    ensures Look(t', Parent(k)) == Some(Dir)
  {
    var r, o := Parent(k), Before(p, q, k);
    RenameLook(t, p, q, k);
    RenameLook(t, p, q, r);
    RenamedNode(t, p, q, k);
    assert p <= r ==> p <= k;
    if k == q {
      assert !(q <= r);
    } else {
      assert Parent(o) == Before(p, q, r) && Look(u, Parent(o)) == Some(Dir);
      if r == q {
        assert Before(p, q, r) == p;
      }
    }
  }

  lemma BeforeInjective(p: Path, q: Path, j: Path, k: Path)
    requires Before(p, q, j) == Before(p, q, k) && Apart(p, q)
    requires !(q <= j) ==> !(p <= j)
    requires !(q <= k) ==> !(p <= k)
    ensures j == k
  {
    assert q <= j ==> p <= Before(p, q, j);
    assert q <= k ==> p <= Before(p, q, k);
    if q <= j && q <= k {
      assert j == q + j[|q|..] && k == q + k[|q|..];
      assert Before(p, q, j)[|p|..] == j[|q|..] && Before(p, q, k)[|p|..] == k[|q|..];
    }
  }
}

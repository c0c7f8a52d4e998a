/** LocalStorage: the metadata store over the encoded directory tree. */
module LocalStorages {
  import opened Wrappers
  import opened PathMaps
  import opened Trees
  import opened Disks
  import opened DiskCopies

  datatype StatResult = IsDir | IsFile | NotExist | StatFailed

  datatype FsError = IoFailed

  /** os.Stat: looking through a file fails differently from looking for something absent. */
  function Stat(d: Disk, p: Path): StatResult {
    if p in d then if d[p].Directory? then IsDir else IsFile
    else if exists i :: 0 <= i < |p| && p[..i] in d && !d[p[..i]].Directory? then StatFailed
    else NotExist
  }

  function ChildNames<X>(m: map<Path, X>, p: Path): set<string> {
    set q | q in m && q != [] && Parent(q) == p :: Base(q)
  }

  /** The directory spelling of p is a file on disk: the marker, or the metadata of another file. */
  ghost predicate SpelledAsFile(t: Tree, marked: bool, p: Path) {
    (marked && p == [MARKER]) || AliasesFile(t, p)
  }

  /** The way to p leads through a file on disk. */
  ghost predicate Blocked(t: Tree, marked: bool, p: Path) {
    exists i {:trigger p[..i]} :: 0 < i < |p| && SpelledAsFile(t, marked, p[..i])
  }

  /** When os.Rename can succeed: a plain file may be replaced, a directory may not, nor moved into itself. */
  predicate OsRenamable(d: Disk, a: Path, b: Path) {
    && a in d && IsDirectory(d, Parent(b)) && !IsDirectory(d, b)
    && (IsDirectory(d, a) ==> b !in d && !(a <= b))
  }

  /** Nothing but directories stands on the way to p. */
  predicate WayIsFree(d: Disk, p: Path) {
    forall i :: 0 <= i <= |p| ==> p[..i] in d ==> d[p[..i]].Directory?
  }

  lemma PlaceableIsFree(d: Disk, p: Path)
    requires Good(d) && Placeable(Abs(d), true, p)
    ensures WayIsFree(d, p) && IsDirectory(MkdirAll(d, p, Directory), p)
  {
    forall i | 0 <= i <= |p| && p[..i] in d
      ensures d[p[..i]].Directory?
    {
      PrefixesOnDisk(d, p, p[..i]);
    }
    assert p[..|p|] == p;
  }

  /** The virtual names of a set of directory entries. */
  ghost function Decoded(entries: set<string>): set<string> {
    set e | e in entries && e != MARKER :: TrimSuffix(e)
  }

  ghost predicate ClosedAt(d: Disk, q: Path) {
    q == [] || IsDirectory(d, Parent(q))
  }

  ghost predicate Closed(d: Disk) {
    IsDirectory(d, []) && forall q {:trigger ClosedAt(d, q)} :: q in d ==> ClosedAt(d, q)
  }

  ghost function Below(d: Disk, p: Path): set<Path> {
    set q | q in d && p <= q
  }

  ghost predicate Free(d: Disk, p: Path) {
    forall k {:trigger Look(d, k)} :: p <= k ==> Look(d, k) == None
  }

  /** c is d with the directory src and those of its children named in done copied to dst. */
  ghost predicate PartCopy(d: Disk, c: Disk, src: Path, dst: Path, done: set<string>) {
    forall k {:trigger Look(c, k)} ::
      Look(c, k) == Look(d, Origin(src, dst, done, k))
  }

  class LocalStorage {
    var disk: Disk

    ghost predicate Valid()
      reads this
    {
      Good(disk)
    }

    ghost function Tree(): (t: Tree)
      reads this
      requires Valid()
      ensures ValidTree(t)
    {
      AbsValid(disk);
      Abs(disk)
    }

    /** The marker file is there, as NewLocalStorage leaves it. */
    ghost predicate Marked()
      reads this
    {
      [MARKER] in disk
    }

    /** A base directory that is still empty. */
    constructor ()
      ensures Valid() && Marked() && Tree() == EMPTY
    {
      disk := map[[] := Directory, [MARKER] := Raw];
      new;
      assert forall q {:trigger GoodAt(disk, q)} :: q in disk ==> GoodAt(disk, q);
      forall p
        ensures NodeAt(disk, p) == Look(EMPTY, p)
      {
        LocalRoundTrip(p);
      }
      AbsIs(disk, EMPTY);
    }

    /** A base directory with content: only a missing marker is added. */
    constructor Reopen(base: Disk)
      requires Good(base)
      ensures Valid() && Marked() && Tree() == Abs(base)
    {
      disk := if [MARKER] in base then base else base[[MARKER] := Raw];
      new;
      MarkerOnDisk(base);
    }

    method Get(p: Path) returns (r: Result<Option<FileMeta>, FsError>)
      requires Valid()
      ensures r.Ok? ==> r == Ok(MetaAt(Tree(), p))
      ensures r.Ok? ==> (r.value.Some? <==> p in Tree())
      ensures r.Ok? && p in Tree() ==>
        match Tree()[p]
        case File(m) => r.value == Some(m)
        case Dir => r.value == Some(FileMeta(Base(p), None, "", true, 0, [], []))
      // It fails exactly when the way to p leads through a file on disk. Stored and nameable paths do not.
      ensures r.Err? <==> exists i :: 0 < i < |p| && FileOnDisk(disk, p[..i])
      ensures r.Err? <==> Blocked(Tree(), Marked(), p)
      ensures p in Tree() || Nameable(p) ==> r.Ok?
    {
      var local := LocalPath(p);
      assert GoodAt(disk, []);
      if p != [] {
        SpotsOf(p);
        WayTo(p);
      }
      if Stat(disk, p) == IsDir {
        return Ok(Some(DirMeta(p)));
      }
      match Stat(disk, local)
      case NotExist =>
        return Ok(None);
      case StatFailed =>
        return Err(IoFailed);
      case IsDir =>
        return Ok(Some(DirMeta(p)));
      case IsFile =>
        match disk[local] {
          case Json(m) => return Ok(Some(m));
          case Raw => return Ok(None);
        }
    }

    /** What stands at the two spellings of p. */
    lemma SpotsOf(p: Path)
      requires Valid() && p != []
      ensures IsDirectory(disk, p) <==> p in Tree() && Tree()[p].Dir?
      ensures var l := LocalPath(p);
              && (l in disk <==> p in Tree() && Tree()[p].File?)
              && (l in disk ==> disk[l] == Json(Tree()[p].meta) && Stat(disk, l) == IsFile && !IsDirectory(disk, p))
    {
      AbsAt(disk, p);
      LocalRoundTrip(p);
      assert LocalPath(p) in disk ==> GoodAt(disk, LocalPath(p));
    }

    /** A blocked path is not there under either spelling, and looking for it fails. */
    lemma WayTo(p: Path)
      requires Valid() && p != []
      ensures var l, blocked := LocalPath(p), Blocked(Tree(), Marked(), p);
              && (blocked ==> p !in disk && l !in disk && Stat(disk, l) == StatFailed)
              && (!blocked && l !in disk ==> Stat(disk, l) == NotExist)
              && (blocked ==> !Nameable(p))
      ensures Blocked(Tree(), Marked(), p) <==> exists i :: 0 < i < |p| && FileOnDisk(disk, p[..i])
    {
      var l := LocalPath(p);
      LocalRoundTrip(p);
      assert Parent(l) == Parent(p);
      forall i | 0 < i < |p|
        ensures l[..i] == p[..i]
        ensures SpelledAsFile(Tree(), Marked(), p[..i]) <==> FileOnDisk(disk, p[..i])
        ensures FileOnDisk(disk, p[..i]) ==> p !in disk && l !in disk && !DirName(p[i - 1])
      {
        OnTheWay(disk, p, l, i);
      }
      assert GoodAt(disk, []) && l[..0] == [];
    }

    method OsMkdirAll(p: Path) returns (ok: bool)
      requires Valid()
      modifies this
      ensures Placeable(old(Tree()), true, p) ==>
                && ok && disk == MkdirAll(old(disk), p, Directory)
                && Valid() && Tree() == MkdirAll(old(Tree()), p, Dir)
                && IsDirectory(disk, p)
      ensures ok == WayIsFree(old(disk), p)
      ensures disk == if ok then MkdirAll(old(disk), p, Directory) else old(disk)
    {
      ok := WayIsFree(disk, p);
      if Placeable(Tree(), true, p) {
        MkdirOnDisk(disk, p);
        PlaceableIsFree(disk, p);
      }
      if ok {
        disk := MkdirAll(disk, p, Directory);
      }
    }

    /** os.WriteFile of a metadata file. */
    method WriteMeta(local: Path, m: FileMeta) returns (ok: bool)
      modifies this
      ensures ok == (local != [] && IsDirectory(old(disk), Parent(local)) && !IsDirectory(old(disk), local))
      ensures disk == if ok then old(disk)[local := Json(m)] else old(disk)
    {
      ok := local != [] && IsDirectory(disk, Parent(local)) && !IsDirectory(disk, local);
      if ok {
        disk := disk[local := Json(m)];
      }
    }

    method Save(m: FileMeta, p: Path) returns (ok: bool)
      requires Valid() && Placeable(Tree(), m.isDir, p)
      modifies this
      ensures ok && Valid() && Tree() == SaveTree(old(Tree()), m, p)
      // Path by path: the file or directory is there, with the directories above it, and nothing else has changed.
      ensures forall r {:trigger Look(Tree(), r)} ::
        Look(Tree(), r) == if r == p && !m.isDir then Some(File(m))
                           else if r in old(Tree()) then Some(old(Tree())[r])
                           else if r <= p then Some(Dir)
                           else None
    {
      ghost var t := Tree();
      forall r
        ensures Look(SaveTree(t, m, p), r) == if r == p && !m.isDir then Some(File(m))
                                              else if r in t then Some(t[r])
                                              else if r <= p then Some(Dir)
                                              else None
      {
        SaveLook(t, m, p, r);
      }
      if m.isDir {
        ok := OsMkdirAll(p);
        return;
      }
      ParentPlaceable(t, p);
      LocalRoundTrip(p);
      ok := OsMkdirAll(Parent(p));
      WritableAt(p);
      WriteOnDisk(disk, p, m);
      ok := WriteMeta(LocalPath(p), m);
    }

    /** With its parent in place, a path that is no directory in the tree takes a metadata file. */
    lemma WritableAt(p: Path)
      requires Valid() && p != [] && IsDirectory(disk, Parent(p)) && (p in Tree() ==> Tree()[p].File?)
      ensures !IsDirectory(disk, p) && !IsDirectory(disk, LocalPath(p))
    {
      LocalRoundTrip(p);
      AbsAt(disk, p);
      if LocalPath(p) in disk {
        assert GoodAt(disk, LocalPath(p));
      }
    }

    method RemoveAll(p: Path) returns (ok: bool)
      modifies this
      ensures ok && disk == AfterRemoveAll(old(disk), p)
      ensures old(Valid()) ==> Valid() && RemovedAsTold(old(Tree()), old(Marked()), p, Tree(), Marked())
      // An absent path hits the file whose metadata it spells, or the marker, or else clears the root.
      ensures old(Valid()) && p !in old(Tree()) ==>
        && (AliasesFile(old(Tree()), p) ==> Tree() == RemoveTree(old(Tree()), Virtual(p)))
        && (p == [MARKER] && old(Marked()) ==> Tree() == old(Tree()) && !Marked())
        && (!AliasesFile(old(Tree()), p) && !(p == [MARKER] && old(Marked())) ==> Tree() == map[[] := Dir])
      // Path by path: what exists goes with all that is below it, and nothing else.
      ensures old(Valid()) && p in old(Tree()) ==> forall r {:trigger Look(Tree(), r)} ::
        Look(Tree(), r) == if r == [] then Some(Dir) else if p <= r then None else Look(old(Tree()), r)
    {
      var local := LocalPath(p);
      if Valid() {
        RemoveAllOnDisk(disk, p);
      }
      var target: Option<Path> := None;
      if Stat(disk, local) in {IsDir, IsFile} {
        target := Some(local);
      } else if Stat(disk, p) in {IsDir, IsFile} {
        target := Some(p);
      }
      if target == None || target == Some([]) {
        disk := map q | q in disk && (q == [] || q == [MARKER]) :: disk[q];
      } else {
        disk := RemoveTree(disk, target.value);
      }
      return true;
    }

    method ReadDir(p: Path) returns (r: Result<seq<FileMeta>, FsError>, ghost names: seq<string>)
      requires Valid()
      ensures r.Ok? <==> p in Tree() && Tree()[p].Dir?
      ensures r.Ok? ==>
        Listing(Tree(), p, names) && MetasOf(Tree(), p, names, r.value)
    {
      names := [];
      AbsAt(disk, p);
      if Stat(disk, p) != IsDir {
        return Err(IoFailed), names;
      }
      var results: seq<FileMeta> := [];
      var todo := ChildNames(disk, p);
      ghost var done: set<string> := {};
      while todo != {}
        invariant todo + done == ChildNames(disk, p) && todo !! done
        invariant ReadSoFar(p, done, names, results)
        decreases todo
      {
        var entry :| entry in todo;
        todo, done := todo - {entry}, done + {entry};
        if entry == MARKER {
          continue;
        }
        var child := p + [TrimSuffix(entry)];
        EntryIsChild(p, entry);
        var meta := Get(child);
        ReadOne(p, done, entry, names, results);
        names, results := names + [TrimSuffix(entry)], results + [meta.value.value];
      }
      ChildrenAreEntries(p, names);
      return Ok(results), names;
    }

    lemma EntryFacts(p: Path, entry: string)
      requires Valid() && IsDirectory(disk, p) && entry in ChildNames(disk, p) && entry != MARKER
      ensures p + [entry] in disk && GoodAt(disk, p + [entry]) && !disk[p + [entry]].Raw?
      ensures HasSuffix(entry) <==> disk[p + [entry]].Json?
      ensures Virtual(p + [entry]) == p + [TrimSuffix(entry)]
    {
      var q :| q in disk && q != [] && Parent(q) == p && Base(q) == entry;
      assert q == p + [entry];
      assert GoodAt(disk, q);
    }

    lemma EntryIsChild(p: Path, entry: string)
      requires Valid() && IsDirectory(disk, p) && entry in ChildNames(disk, p) && entry != MARKER
      ensures p + [TrimSuffix(entry)] in Tree() && Nameable(p + [TrimSuffix(entry)])
    {
      EntryFacts(p, entry);
      var child := p + [TrimSuffix(entry)];
      AbsAt(disk, child);
      LocalRoundTrip(p + [entry]);
      forall i | 0 <= i < |p|
        ensures DirName(p[i])
      {
        DirComponent(p, i);
      }
    }

    lemma DirComponent(p: Path, i: nat)
      requires Valid() && IsDirectory(disk, p) && i < |p|
      ensures DirName(p[i])
    {
      var q := p[..i + 1];
      if q != p {
        AncestorsOnDisk(disk, p, q);
      }
      assert GoodAt(disk, q) && Base(q) == p[i];
    }

    /** A directory x and a metadata file x.json never stand side by side. */
    lemma EntriesDiffer(p: Path, a: string, b: string)
      requires Valid() && IsDirectory(disk, p) && a != b && MARKER !in {a, b}
      requires a in ChildNames(disk, p) && b in ChildNames(disk, p)
      ensures TrimSuffix(a) != TrimSuffix(b)
    {
      EntryFacts(p, a);
      EntryFacts(p, b);
      SuffixRoundTrip(a);
      SuffixRoundTrip(b);
    }

    lemma NewName(p: Path, done: set<string>, entry: string)
      requires Valid() && IsDirectory(disk, p) && done <= ChildNames(disk, p)
      requires entry in done && entry != MARKER
      ensures TrimSuffix(entry) !in Decoded(done - {entry})
      ensures Decoded(done) == Decoded(done - {entry}) + {TrimSuffix(entry)}
    {
      forall e | e in done && e != entry && e != MARKER
        ensures TrimSuffix(e) != TrimSuffix(entry)
      {
        EntriesDiffer(p, e, entry);
      }
    }

    lemma EntryOfChild(p: Path, n: string) returns (e: string)
      requires Valid() && IsDirectory(disk, p) && p + [n] in Tree()
      ensures e in ChildNames(disk, p) && TrimSuffix(e) == n && e != MARKER
    {
      var q := p + [n];
      AbsAt(disk, q);
      Extended(p, n);
      Extended(p, n + JSON);
      SuffixRoundTrip(n);
      if Tree()[q].Dir? {
        assert GoodAt(disk, q);
        e := n;
      } else {
        e := n + JSON;
      }
      assert p + [e] in disk && p + [e] != [] && Parent(p + [e]) == p && Base(p + [e]) == e;
    }

    /** The entries in done have been read: their decoded names, each once, with their metadata. */
    ghost predicate ReadSoFar(p: Path, done: set<string>, names: seq<string>, metas: seq<FileMeta>)
      reads this
      requires Valid()
    {
      NoDup(names) && (set n | n in names) == Decoded(done) && MetasOf(Tree(), p, names, metas)
    }

    lemma ReadOne(p: Path, done: set<string>, entry: string, names: seq<string>, metas: seq<FileMeta>)
      requires Valid() && IsDirectory(disk, p) && done <= ChildNames(disk, p) && entry in done && entry != MARKER
      requires ReadSoFar(p, done - {entry}, names, metas)
      ensures var n := TrimSuffix(entry);
              && p + [n] in Tree()
              && ReadSoFar(p, done, names + [n], metas + [MetaOf(Tree(), p + [n])])
    {
      EntryIsChild(p, entry);
      NewName(p, done, entry);
      assert TrimSuffix(entry) !in (set n | n in names);
      AppendNew(names, TrimSuffix(entry));
    }

    lemma ChildIsEntry(p: Path, n: string)
      requires Valid() && IsDirectory(disk, p)
      ensures n in Decoded(ChildNames(disk, p)) <==> p + [n] in Tree()
    {
      if p + [n] in Tree() {
        var e := EntryOfChild(p, n);
        assert e in ChildNames(disk, p) && e != MARKER;
      }
      if n in Decoded(ChildNames(disk, p)) {
        var e :| e in ChildNames(disk, p) && e != MARKER && TrimSuffix(e) == n;
        EntryIsChild(p, e);
      }
    }

    lemma ChildrenAreEntries(p: Path, names: seq<string>)
      requires Valid() && IsDirectory(disk, p) && NoDup(names)
      requires (set n | n in names) == Decoded(ChildNames(disk, p))
      ensures Listing(Tree(), p, names)
    {
      forall n
        ensures n in names <==> p + [n] in Tree()
      {
        ChildIsEntry(p, n);
        assert n in names <==> n in (set m | m in names);
      }
    }

    /** copyDir. It ends because dst lies outside src: what is left to visit below src keeps shrinking. A single file
        is copied over whatever is at dst, unless that is a directory. */
    method CopyDir(src: Path, dst: Path) returns (ok: bool)
      requires Closed(disk) && src in disk && IsDirectory(disk, Parent(dst))
      requires IsDirectory(disk, src) ==> Apart(src, dst) && Free(disk, dst)
      modifies this
      ensures ok == !IsDirectory(old(disk), dst)
      ensures Free(old(disk), dst) ==> CopyOf(old(disk), disk, src, dst)
      ensures !IsDirectory(old(disk), src) ==> disk == if ok then old(disk)[dst := old(disk)[src]] else old(disk)
      decreases Below(disk, src)
    {
      assert Free(disk, dst) ==> Look(disk, dst) == None;
      if Stat(disk, src) != IsDir {
        CopyOfLeaf(disk, src, dst);
        if IsDirectory(disk, dst) {
          return false;
        }
        disk := disk[dst := disk[src]];
        return true;
      }
      var d := disk;
      disk := MkdirAll(disk, dst, Directory);
      StartCopy(d, src, dst);
      var todo := ChildNames(d, src);
      ghost var done: set<string> := {};
      while todo != {}
        invariant todo + done == ChildNames(d, src) && todo !! done
        invariant Closed(disk) && PartCopy(d, disk, src, dst, done)
        decreases todo
      {
        var name :| name in todo;
        ghost var before := disk;
        ChildCopy(d, disk, src, dst, done, name);
        ok := CopyDir(src + [name], dst + [name]);
        CopyKeepsClosed(before, disk, src + [name], dst + [name]);
        NextCopy(d, before, disk, src, dst, done, name);
        todo, done := todo - {name}, done + {name};
      }
      EndCopy(d, disk, src, dst);
      return true;
    }

    /** updateMetadataName. */
    method UpdateMetadataName(local: Path, q: Path) returns (ok: bool)
      modifies this
      ensures var d := old(disk);
              if IsMetadata(d, local) && local != [] && IsDirectory(d, Parent(local))
              then ok && disk == d[local := Json(d[local].meta.(name := Base(q)))]
              else !ok && disk == d
    {
      if !IsMetadata(disk, local) {
        return false;
      }
      ok := WriteMeta(local, disk[local].meta.(name := Base(q)));
    }

    /** osFails: os.Rename refuses for reasons of its own, and the copy-then-delete fallback runs instead. */
    method Rename(p: Path, q: Path, osFails: bool) returns (ok: bool)
      requires Valid() && (MayRename(Tree(), p, q) || (Spells(p) && p != q))
      modifies this
      ensures old(MayRename(Tree(), p, q)) ==>
        && Valid() && (ok <==> p in old(Tree()))
        && Tree() == if ok then RenameTree(old(Tree()), p, q) else old(Tree())
      // A missing path that spells a file on disk: that file is what gets moved, to q itself.
      ensures old(Spells(p)) ==> ok == CanDisplace(old(disk), q) && disk == Displaced(old(disk), p, q, osFails)
    {
      ghost var t := Tree();
      RenameSource(p, q);
      if Stat(disk, LocalPath(p)) in {IsDir, IsFile} {
        RenameFileTree(t, p, q);
        ok := OsMkdirAll(Parent(q));
        ok := RenameFile(p, q, osFails);
      } else if Stat(disk, p) == IsFile {
        ok := RenameSpelled(p, q, osFails);
      } else if Stat(disk, p) == IsDir {
        RenameDirTree(t, p, q);
        ok := OsMkdirAll(Parent(q));
        ok := RenameDir(p, q, osFails);
      } else {
        return false;
      }
    }

    /** The path is not there, but its directory spelling is a file on disk. */
    ghost predicate Spells(p: Path)
      reads this
      requires Valid()
    {
      p !in Tree() && SpelledAsFile(Tree(), Marked(), p)
    }

    method RenameSpelled(p: Path, q: Path, osFails: bool) returns (ok: bool)
      requires Valid() && Spells(p) && p != q
      modifies this
      ensures ok == CanDisplace(old(disk), q) && disk == Displaced(old(disk), p, q, osFails)
    {
      ghost var d := disk;
      SpelledOnDisk(d, p);
      ok := OsMkdirAll(Parent(q));
      if !ok {
        return false;
      }
      SpelledSpots(d, p, q);
      if !osFails && OsRenamable(disk, p, q) {
        disk := MoveTree(disk, p, q);
        return true;
      }
      ok := CopyDir(p, q);
      if !ok {
        return false;
      }
      ok := RemoveAll(p);
    }

    /** A file is found under its metadata spelling, a directory under its own, and a missing path under neither. */
    lemma RenameSource(p: Path, q: Path)
      requires Valid() && (MayRename(Tree(), p, q) || Spells(p))
      ensures p != [] && (p in Tree() ==> Renamable(Tree(), p, q))
      ensures LocalPath(p) in disk <==> p in Tree() && Tree()[p].File?
      ensures LocalPath(p) !in disk && p in disk && !IsDirectory(disk, p) <==> Spells(p)
      ensures IsDirectory(disk, p) <==> p in Tree() && Tree()[p].Dir?
    {
      AbsAt(disk, []);
      assert GoodAt(disk, []);
      AbsAt(disk, p);
      FileSpelling(disk, p);
      SpelledOnDisk(disk, p);
    }

    method RenameFile(p: Path, q: Path, osFails: bool) returns (ok: bool)
      requires Valid() && p in Tree() && Tree()[p].File? && q != [] && Apart(p, q)
      requires IsDirectory(disk, Parent(q)) && (q in Tree() ==> Tree()[q].File?)
      modifies this
      ensures ok && Valid()
      ensures Tree() == RemoveTree(old(Tree())[q := Renamed(old(Tree())[p], q)], p)
    {
      var a, b := LocalPath(p), LocalPath(q);
      ghost var d, m := disk, Tree()[p].meta;
      FileSpots(p, q);
      MoveFileOnDisk(d, p, q, m, m.(name := Base(q)));
      if !osFails && OsRenamable(disk, a, b) {
        disk := MoveTree(disk, a, b);
        ok := UpdateMetadataName(b, q);
        return;
      }
      ok := CopyDir(a, b);
      ok := UpdateMetadataName(b, q);
      UpdateTwice(d, b, Json(m), Json(m.(name := Base(q))));
      ok := RemoveAll(p);
    }

    /** The two metadata files of a rename, and what moving one to the other does to the disk. */
    lemma FileSpots(p: Path, q: Path)
      requires Valid() && p in Tree() && Tree()[p].File? && q != [] && Apart(p, q)
      requires IsDirectory(disk, Parent(q)) && (q in Tree() ==> Tree()[q].File?)
      ensures p != [] && !Tree()[p].meta.isDir
      ensures var a, b := LocalPath(p), LocalPath(q);
              && a in disk && disk[a] == Json(Tree()[p].meta) && Parent(b) == Parent(q) && b != []
              && !IsDirectory(disk, b) && !IsDirectory(disk, q) && Apart(a, b)
              && Closed(disk) && OsRenamable(disk, a, b)
              && MoveTree(disk, a, b) == RemoveTree(disk[b := disk[a]], a)
    {
      AbsAt(disk, p);
      AbsAt(disk, q);
      AbsAt(disk, []);
      assert GoodAt(disk, []);
      FileSpot(disk, p);
      FileSpot(disk, q);
      LocalInjective(p, q);
      GoodIsClosed(disk);
      ApartLeaves(disk, LocalPath(p), LocalPath(q));
    }

    method RenameDir(p: Path, q: Path, osFails: bool) returns (ok: bool)
      requires Valid() && Copyable(disk, p, q)
      modifies this
      ensures ok && Valid()
      ensures Tree() == MoveTree(old(Tree()), p, q)
    {
      ghost var d := disk;
      MoveDirOnDisk(disk, p, q);
      CopyOnDisk(disk, p, q);
      GoodIsClosed(disk);
      forall k | q <= k
        ensures Look(disk, k) == None
      {
        NothingBelowTarget(disk, p, q, k);
      }
      if !osFails && OsRenamable(disk, p, q) {
        disk := MoveTree(disk, p, q);
        return true;
      }
      ok := CopyDir(p, q);
      CopyOfIsCopyTree(d, disk, p, q);
      AbsAt(disk, p);
      assert Look(disk, p) == Look(d, p);
      ok := RemoveAll(p);
      MoveIsCopyThenRemove(Abs(d), p, q);
    }
  }

  /** Rename looks for its source under two spellings. It finds one when the path exists, when the path ends in ".json"
      and the file without that ending exists (then it is that other file's metadata), or when it is the marker. */
  lemma RenameFindsSource(d: Disk, p: Path)
    requires Good(d)
    ensures LocalPath(p) in d || p in d <==> p in Abs(d) || SpelledAsFile(Abs(d), [MARKER] in d, p)
  {
    AbsAt(d, p);
    if p == [] {
      assert GoodAt(d, []);
    } else {
      FileSpelling(d, p);
      SpelledOnDisk(d, p);
    }
  }

  // What a rename of such a path does.

  predicate FileIn(t: Tree, p: Path) {
    p in t && t[p].File?
  }

  predicate CanDisplace(d: Disk, q: Path) {
    WayIsFree(d, Parent(q)) && !IsDirectory(MkdirAll(d, Parent(q), Directory), q)
  }

  /** The disk afterwards. The fallback copies and then has RemoveAll look for p under both spellings again. */
  function Displaced(d: Disk, p: Path, q: Path, osFails: bool): Disk {
    if p !in d || !WayIsFree(d, Parent(q)) then d
    else
      var d1 := MkdirAll(d, Parent(q), Directory);
      if IsDirectory(d1, q) then d1
      else if osFails then AfterRemoveAll(d1[q := d1[p]], p)
      else RemoveTree(d1[q := d1[p]], p)
  }

  /** The metadata file is gone from where it belongs. */
  predicate Loses(d: Disk, p: Path, q: Path, osFails: bool) {
    CanDisplace(d, q) && !(osFails && LocalPath(p) <= q)
  }

  lemma SpelledSpots(d: Disk, p: Path, q: Path)
    requires Good(d) && p != [] && p != q && FileOnDisk(d, p) && WayIsFree(d, Parent(q))
    ensures var d1 := MkdirAll(d, Parent(q), Directory);
            && Closed(d1) && p in d1 && d1[p] == d[p] && IsDirectory(d1, Parent(q)) && (q == [] ==> IsDirectory(d1, q))
            && (!IsDirectory(d1, q) ==>
                  OsRenamable(d1, p, q) && MoveTree(d1, p, q) == RemoveTree(d1[q := d1[p]], p))
  {
    var d1 := MkdirAll(d, Parent(q), Directory);
    GoodIsClosed(d);
    MkdirKeepsClosed(d, Parent(q));
    assert Parent(q)[..|Parent(q)|] == Parent(q);
    if !IsDirectory(d1, q) {
      ApartLeaves(d1, p, q);
    }
  }

  lemma MkdirKeepsClosed(d: Disk, p: Path)
    requires Closed(d) && WayIsFree(d, p)
    ensures Closed(MkdirAll(d, p, Directory))
  {
    var d1 := MkdirAll(d, p, Directory);
    forall k | k in d1
      ensures ClosedAt(d1, k)
    {
      if k in d {
        assert ClosedAt(d, k);
      } else if k != [] {
        assert Parent(k) == p[..|k| - 1];
      }
    }
  }

  /** A directory that the making of Parent(q) leaves at q was there before, and then nothing was made. */
  lemma NothingMade(d: Disk, q: Path)
    requires Good(d) && WayIsFree(d, Parent(q)) && IsDirectory(MkdirAll(d, Parent(q), Directory), q)
    ensures MkdirAll(d, Parent(q), Directory) == d
  {
    assert GoodAt(d, []);
    assert q != [] ==> !(q <= Parent(q));
    forall k | k <= Parent(q)
      ensures k in d
    {
      if q != [] {
        AncestorsOnDisk(d, q, k);
      }
    }
  }

  /** Renaming a missing path that spells the metadata of another file makes that file disappear exactly when the way
      to the target is free and the target is no directory, unless the fallback runs and the target lies at or below
      p's own metadata spelling, which it then deletes. Otherwise the disk is as it was. */
  lemma AliasedRenameLosesFile(d: Disk, p: Path, q: Path, osFails: bool)
    requires Good(d) && AliasesFile(Abs(d), p) && p !in Abs(d) && p != q
    ensures FileOnDisk(d, p)
    ensures FileIn(Abs(d), Virtual(p))
    ensures FileIn(Abs(Displaced(d, p, q, osFails)), Virtual(p)) <==> !Loses(d, p, q, osFails)
    ensures !Loses(d, p, q, osFails) ==> Displaced(d, p, q, osFails) == d
  {
    SpelledOnDisk(d, p);
    if !WayIsFree(d, Parent(q)) {
    } else if IsDirectory(MkdirAll(d, Parent(q), Directory), q) {
      NothingMade(d, q);
    } else if osFails && LocalPath(p) <= q {
      CopyDeletedAgain(d, p, q);
    } else {
      SourceGone(d, p, q, osFails);
    }
  }

  lemma CopyDeletedAgain(d: Disk, p: Path, q: Path)
    requires Good(d) && p != [] && FileOnDisk(d, p) && p !in Abs(d) && LocalPath(p) <= q && WayIsFree(d, Parent(q))
    ensures var d1 := MkdirAll(d, Parent(q), Directory);
            AfterRemoveAll(d1[q := d1[p]], p) == d
  {
    var l := LocalPath(p);
    var d1 := MkdirAll(d, Parent(q), Directory);
    var d2 := d1[q := d1[p]];
    FileSpelling(d, p);
    LocalRoundTrip(p);
    assert l != [] && l in d2 by {
      assert l != q ==> l <= Parent(q);
    }
    forall k
      ensures Look(RemoveTree(d2, l), k) == Look(d, k)
    {
      NothingElseMade(d, p, q, d1[p], k);
    }
    SameLooks(RemoveTree(d2, l), d);
  }

  /** Whatever is put at or below the place for p's metadata, the directories on the way there are those above p. */
  lemma NothingElseMade(d: Disk, p: Path, q: Path, e: Entry, k: Path)
    requires Good(d) && p != [] && p in d && LocalPath(p) !in d && LocalPath(p) <= q
    ensures Look(RemoveTree(MkdirAll(d, Parent(q), Directory)[q := e], LocalPath(p)), k) == Look(d, k)
  {
    var l := LocalPath(p);
    RemoveLook(MkdirAll(d, Parent(q), Directory)[q := e], l, k);
    if l <= k {
      GoodIsClosed(d);
      LeafOf(d, l);
    } else if k <= Parent(q) {
      LocalRoundTrip(p);
      assert k <= q && k <= Parent(p);
      AncestorsOnDisk(d, p, k);
    }
  }

  lemma SourceGone(d: Disk, p: Path, q: Path, osFails: bool)
    requires Good(d) && AliasesFile(Abs(d), p) && p !in Abs(d) && p != q && FileOnDisk(d, p)
    requires Loses(d, p, q, osFails)
    ensures !FileIn(Abs(Displaced(d, p, q, osFails)), Virtual(p))
  {
    var d2 := MkdirAll(d, Parent(q), Directory)[q := MkdirAll(d, Parent(q), Directory)[p]];
    FileSpelling(d, p);
    assert osFails ==> LocalPath(p) !in d2;
    assert Displaced(d, p, q, osFails) == RemoveTree(d2, p);
    NothingSpelled(d2, p);
  }

  /** What it loses then stands at the target itself; apart from directories on the way, nothing else has changed. */
  lemma DisplacedLook(d: Disk, p: Path, q: Path, osFails: bool, k: Path)
    requires Good(d) && AliasesFile(Abs(d), p) && p !in Abs(d) && p != q && Loses(d, p, q, osFails)
    ensures FileOnDisk(d, p)
    ensures Look(Displaced(d, p, q, osFails), k)
         == if k == q then Some(d[p])
            else if k == p then None
            else if k in d then Some(d[k])
            else if k <= Parent(q) then Some(Directory)
            else None
  {
    var d1 := MkdirAll(d, Parent(q), Directory);
    SpelledOnDisk(d, p);
    FileSpelling(d, p);
    assert Displaced(d, p, q, osFails) == RemoveTree(d1[q := d[p]], p);
    RemoveLook(d1[q := d[p]], p, k);
    MkdirLook(d, Parent(q), Directory, k);
    if p <= k && p != k {
      GoodIsClosed(d);
      LeafOf(d, p);
      NotOnFreeWay(d, Parent(q), p);
    }
  }

  lemma NotOnFreeWay(d: Disk, r: Path, p: Path)
    requires WayIsFree(d, r) && FileOnDisk(d, p)
    ensures !(p <= r)
  {
    if |p| <= |r| {
      var s := r[..|p|];
      assert s in d ==> d[s].Directory?;
      assert p <= r ==> s == p;
    }
  }

  lemma NothingSpelled(d: Disk, p: Path)
    requires p != [] && HasSuffix(Base(p))
    ensures !FileIn(Abs(RemoveTree(d, p)), Virtual(p))
  {
    LocalRoundTrip(p);
    RemoveLook(d, p, p);
    AbsAt(RemoveTree(d, p), Virtual(p));
  }

  function LoneFile(m: FileMeta): Disk {
    map[[] := Directory, [MARKER] := Raw, ["x.json"] := Json(m)]
  }

  /** With one file x on disk, renaming the missing "x.json" to "y" leaves nothing. */
  lemma LoneFileLost(m: FileMeta)
    requires !m.isDir
    ensures var d := LoneFile(m);
            && Good(d) && FileIn(Abs(d), ["x"]) && ["x.json"] !in Abs(d)
            && !FileIn(Abs(Displaced(d, ["x.json"], ["y"], false)), ["x"])
  {
    var d := LoneFile(m);
    LoneFileHeld(m);
    assert Virtual(["x.json"]) == ["x"] by {
      SuffixRoundTrip("x");
      assert "x" + JSON == "x.json";
    }
    assert Parent(["y"]) == [] && MkdirAll(d, [], Directory) == d;
    AliasedRenameLosesFile(d, ["x.json"], ["y"], false);
  }

  lemma LoneFileHeld(m: FileMeta)
    requires !m.isDir
    ensures var d := LoneFile(m);
            Good(d) && FileIn(Abs(d), ["x"]) && ["x.json"] !in Abs(d)
  {
    var d := LoneFile(m);
    LoneSpelling();
    assert Parent(["x.json"]) == [] && Parent([MARKER]) == [];
    assert GoodAt(d, []) && GoodAt(d, [MARKER]) && GoodAt(d, ["x.json"]);
    AbsAt(d, ["x"]);
    AbsAt(d, ["x.json"]);
  }

  lemma LoneSpelling()
    ensures HasSuffix("x.json") && Virtual(["x.json"]) == ["x"] && LocalPath(["x"]) == ["x.json"]
    ensures LocalPath(["x.json"]) !in {[MARKER], ["x.json"]}
  {
    SuffixRoundTrip("x");
    SuffixRoundTrip("x.json");
    assert "x" + JSON == "x.json" && Parent(["x"]) == [] && Parent(["x.json"]) == [];
    assert Base(LocalPath(["x.json"])) == "x.json" + JSON;
  }

  /** Only files are spelled with the suffix added. */
  lemma FileSpelling(d: Disk, p: Path)
    requires Good(d) && p != []
    ensures LocalPath(p) in d <==> p in Abs(d) && Abs(d)[p].File?
  {
    LocalRoundTrip(p);
    AbsAt(d, p);
    assert LocalPath(p) in d ==> GoodAt(d, LocalPath(p));
  }

  lemma DirSpelling(d: Disk, p: Path)
    requires Good(d) && p != [] && p != [MARKER]
    ensures p in d <==> (p in Abs(d) && Abs(d)[p].Dir?) || AliasesFile(Abs(d), p)
  {
    AbsAt(d, p);
    if HasSuffix(Base(p)) {
      LocalRoundTrip(p);
      FileSpelling(d, Virtual(p));
    }
    assert p in d ==> GoodAt(d, p);
  }

  predicate FileOnDisk(d: Disk, p: Path) {
    p in d && !d[p].Directory?
  }

  /** What stands on the way to p and to its metadata l, which share all but their last component. */
  lemma OnTheWay(d: Disk, p: Path, l: Path, i: nat)
    requires Good(d) && 0 < i < |p| && |l| == |p| && Parent(l) == Parent(p)
    ensures l[..i] == p[..i]
    ensures SpelledAsFile(Abs(d), [MARKER] in d, p[..i]) <==> FileOnDisk(d, p[..i])
    ensures FileOnDisk(d, p[..i]) ==> p !in d && l !in d && !DirName(p[i - 1])
  {
    assert l[..i] == Parent(l)[..i] && p[..i] == Parent(p)[..i];
    SpelledOnDisk(d, p[..i]);
    if p in d {
      AncestorsOnDisk(d, p, p[..i]);
    }
    if l in d {
      AncestorsOnDisk(d, l, p[..i]);
    }
    assert p[..i] in d ==> GoodAt(d, p[..i]);
    assert Base(p[..i]) == p[i - 1];
  }

  lemma SpelledOnDisk(d: Disk, p: Path)
    requires Good(d) && p != []
    ensures p in d && !d[p].Directory? <==> SpelledAsFile(Abs(d), [MARKER] in d, p)
  {
    AbsAt(d, p);
    assert p in d ==> GoodAt(d, p);
    if p != [MARKER] {
      DirSpelling(d, p);
    }
  }

  /** Deleting a file on disk by its directory spelling deletes the file it belongs to; the marker belongs to none. */
  lemma RemoveSpelledOnDisk(d: Disk, p: Path)
    requires Good(d) && p != [] && p in d && !d[p].Directory?
    ensures var d' := RemoveTree(d, p);
            && Good(d') && (AliasesFile(Abs(d), p) ==> Abs(d') == RemoveTree(Abs(d), Virtual(p)) && p != [MARKER])
            && (p == [MARKER] ==> Abs(d') == Abs(d))
  {
    SpelledOnDisk(d, p);
    RemoveKeepsGood(d, p);
    if AliasesFile(Abs(d), p) {
      LocalRoundTrip(p);
      Extended(Parent(p), TrimSuffix(Base(p)));
      FileSpelling(d, Virtual(p));
      assert GoodAt(d, p);
      RemoveFileOnDisk(d, Virtual(p));
    }
    if p == [MARKER] {
      GoodIsClosed(d);
      LeafOf(d, p);
      forall k | k != p
        ensures Look(RemoveTree(d, p), k) == Look(d, k)
      {
        RemoveLeaf(d, p, k);
      }
      MarkerAlone(d, RemoveTree(d, p));
    }
  }

  lemma MarkerOnDisk(d: Disk)
    requires Good(d)
    ensures var d' := if [MARKER] in d then d else d[[MARKER] := Raw];
            Good(d') && Abs(d') == Abs(d)
  {
    var d' := if [MARKER] in d then d else d[[MARKER] := Raw];
    assert GoodAt(d, []) && Parent([MARKER]) == [];
    forall q | q in d'
      ensures GoodAt(d', q)
    {
      assert q in d ==> GoodAt(d, q);
    }
    if [MARKER] !in d {
      MarkerAlone(d, d');
    }
  }

  /** Disks that differ in nothing but the marker hold the same tree. */
  lemma MarkerAlone(d: Disk, d': Disk)
    requires forall k {:trigger Look(d', k)} :: k != [MARKER] ==> Look(d', k) == Look(d, k)
    requires !IsDirectory(d, [MARKER]) && !IsDirectory(d', [MARKER])
    ensures Abs(d') == Abs(d)
  {
    forall r
      ensures NodeAt(d', r) == Look(Abs(d), r)
    {
      AbsAt(d, r);
      NotTheMarker(r);
      assert Look(d', r) == Look(d, r) || r == [MARKER];
      assert Look(d', LocalPath(r)) == Look(d, LocalPath(r));
      SameNode(d, d', r);
    }
    AbsIs(d', Abs(d));
  }

  lemma NotTheMarker(r: Path)
    ensures LocalPath(r) != [MARKER]
  {
    if r != [] {
      SuffixRoundTrip(Base(r));
      Extended(Parent(r), Base(r) + JSON);
    }
  }

  lemma SameNode(d: Disk, d': Disk, r: Path)
    requires Look(d', r) == Look(d, r) || (!IsDirectory(d, r) && !IsDirectory(d', r))
    requires Look(d', LocalPath(r)) == Look(d, LocalPath(r))
    ensures NodeAt(d', r) == NodeAt(d, r)
  {
  }

  /** What RemoveAll finds to remove: the metadata file first. */
  function RemovalTarget(d: Disk, p: Path): Option<Path> {
    if LocalPath(p) in d then Some(LocalPath(p)) else if p in d then Some(p) else None
  }

  function AfterRemoveAll(d: Disk, p: Path): Disk {
    var target := RemovalTarget(d, p);
    if target == None || target == Some([]) then map q | q in d && (q == [] || q == [MARKER]) :: d[q]
    else RemoveTree(d, target.value)
  }

  /** An existing path goes with its subtree. A path that is not there hits the file whose metadata it spells, or the
      marker, or else clears the root. */
  ghost predicate RemovedAsTold(t: Tree, marked: bool, p: Path, t': Tree, marked': bool) {
    && (p in t ==> t' == RemoveFrom(t, p))
    && (p !in t && AliasesFile(t, p) ==> t' == RemoveTree(t, Virtual(p)))
    && (p !in t && p == [MARKER] && marked ==> t' == t)
    && (p !in t && !SpelledAsFile(t, marked, p) ==> t' == EMPTY)
    && marked' == (marked && (p == [MARKER] ==> p in t))
  }

  lemma RemoveAllOnDisk(d: Disk, p: Path)
    requires Good(d)
    ensures Good(AfterRemoveAll(d, p))
    ensures RemovedAsTold(Abs(d), [MARKER] in d, p, Abs(AfterRemoveAll(d, p)), [MARKER] in AfterRemoveAll(d, p))
  {
    assert GoodAt(d, []);
    AbsAt(d, p);
    if p == [] {
      ClearedRoot(d);
    } else {
      TargetOf(d, p);
      if LocalPath(p) in d {
        RemoveFileOnDisk(d, p);
      } else if IsDirectory(d, p) {
        RemoveDirOnDisk(d, p);
      } else if p in d {
        RemoveSpelledOnDisk(d, p);
      } else {
        ClearedRoot(d);
      }
    }
  }

  /** What stands on disk at the two spellings of p. */
  lemma TargetOf(d: Disk, p: Path)
    requires Good(d) && p != []
    ensures LocalPath(p) in d ==> IsMetadata(d, LocalPath(p)) && p in Abs(d) && Abs(d)[p].File?
    ensures LocalPath(p) !in d && p in Abs(d) ==> IsDirectory(d, p) && Abs(d)[p].Dir?
    ensures p in Abs(d) ==> LocalPath(p) in d || IsDirectory(d, p)
    ensures LocalPath(p) !in d && p !in Abs(d) ==> (p in d <==> SpelledAsFile(Abs(d), [MARKER] in d, p))
    ensures !(LocalPath(p) <= [MARKER]) && (IsDirectory(d, p) ==> !(p <= [MARKER]))
  {
    AbsAt(d, p);
    FileSpot(d, p);
    assert LocalPath(p) in d ==> GoodAt(d, LocalPath(p));
    SpelledOnDisk(d, p);
    NotTheMarker(p);
    assert p in d ==> GoodAt(d, p);
  }

  lemma GoodIsClosed(d: Disk)
    requires Good(d)
    ensures Closed(d)
  {
    assert GoodAt(d, []);
    forall q | q in d
      ensures ClosedAt(d, q)
    {
      assert GoodAt(d, q);
    }
  }

  lemma {:induction false} ClosedAncestors(d: Disk, p: Path, q: Path)
    requires Closed(d) && p in d && q <= p && q != p
    ensures IsDirectory(d, q)
    decreases |p|
  {
    assert ClosedAt(d, p);
    if q != Parent(p) {
      assert q <= Parent(p);
      ClosedAncestors(d, Parent(p), q);
    }
  }

  lemma LeafOf(d: Disk, a: Path)
    requires Closed(d) && !IsDirectory(d, a)
    ensures Leaf(d, a)
  {
    forall k | k in d && a <= k
      ensures k == a
    {
      if k != a {
        ClosedAncestors(d, k, a);
      }
    }
  }

  /** Two places without a directory do not lie inside each other. */
  lemma ApartLeaves(d: Disk, a: Path, b: Path)
    requires Closed(d) && a in d && a != b && a != [] && b != []
    requires !IsDirectory(d, a) && !IsDirectory(d, b) && IsDirectory(d, Parent(b))
    ensures Apart(a, b) && MoveTree(d, a, b) == RemoveTree(d[b := d[a]], a)
  {
    LeafOf(d, a);
    LeafOf(d, b);
    assert ClosedAt(d, a);
    assert a <= b ==> a <= Parent(b);
    assert b <= a ==> b <= Parent(a);
    MoveLeaf(d, a, b);
  }

  /** Looked at path by path, a copy to a free place is CopyTree. */
  lemma CopyOfIsCopyTree(d: Disk, c: Disk, a: Path, b: Path)
    requires Free(d, b) && CopyOf(d, c, a, b)
    ensures c == CopyTree(d, a, b)
  {
    forall k
      ensures Look(c, k) == Look(CopyTree(d, a, b), k)
    {
      assert Look(c, k) == Look(d, if b <= k then Source(a, b, k) else k);
      assert b <= k ==> Look(d, k) == None;
    }
    SameLooks(c, CopyTree(d, a, b));
  }

  lemma CopyOfLeaf(d: Disk, a: Path, b: Path)
    requires Closed(d) && a in d && !IsDirectory(d, a)
    ensures Free(d, b) ==> CopyOf(d, d[b := d[a]], a, b)
  {
    if Free(d, b) {
      forall k
        ensures Look(d[b := d[a]], k) == Look(d, if b <= k then Source(a, b, k) else k)
      {
        assert b <= k ==> Look(d, k) == None;
        if k == b {
          assert Source(a, b, k) == a;
        } else if b <= k && Source(a, b, k) in d {
          ClosedAncestors(d, Source(a, b, k), a);
        }
      }
    }
  }

  lemma CopyKeepsClosed(d: Disk, c: Disk, a: Path, b: Path)
    requires Closed(d) && a in d && Apart(a, b) && IsDirectory(d, Parent(b)) && Free(d, b) && CopyOf(d, c, a, b)
    ensures Closed(c)
  {
    assert Look(c, []) == Look(d, []);
    forall k | k in c
      ensures ClosedAt(c, k)
    {
      if k != [] {
        var o, parent := if b <= k then Source(a, b, k) else k, Parent(k);
        assert Look(c, k) == Look(d, o) && ClosedAt(d, o);
        assert Look(c, parent) == Look(d, if b <= parent then Source(a, b, parent) else parent);
        if b <= k && k != b {
          SourceFacts(a, b, k);
        }
      }
    }
  }

  lemma StartCopy(d: Disk, src: Path, dst: Path)
    requires Closed(d) && IsDirectory(d, src) && Apart(src, dst) && IsDirectory(d, Parent(dst)) && Free(d, dst)
    ensures var c := MkdirAll(d, dst, Directory);
            Closed(c) && PartCopy(d, c, src, dst, {})
  {
    var c := MkdirAll(d, dst, Directory);
    forall q | q <= dst && q != dst
      ensures q in d
    {
      assert q <= Parent(dst);
      if q != Parent(dst) {
        ClosedAncestors(d, Parent(dst), q);
      }
    }
    assert c == d[dst := Directory] by {
      assert Look(d, dst) == None;
    }
    assert Source(src, dst, dst) == src;
    forall k | k in c
      ensures ClosedAt(c, k)
    {
      assert k in d ==> ClosedAt(d, k);
    }
  }

  /** Where a path of the half-made copy got its entry from. */
  ghost function Origin(src: Path, dst: Path, done: set<string>, k: Path): Path {
    if dst <= k && (k == dst || k[|dst|] in done) then Source(src, dst, k) else k
  }

  lemma ApartChildren(src: Path, dst: Path, name: string)
    requires Apart(src, dst)
    ensures Apart(src + [name], dst + [name])
  {
    var s, t := src + [name], dst + [name];
    assert s[..|src|] == src && t[..|dst|] == dst;
    assert s <= t ==> src <= t;
    assert t <= s ==> dst <= s;
    ApartShareNothing(src, dst, t);
    ApartShareNothing(src, dst, s);
  }

  /** The next child can be copied: its source is still untouched and its target still free. */
  lemma ChildCopy(d: Disk, c: Disk, src: Path, dst: Path, done: set<string>, name: string)
    requires Closed(d) && Closed(c) && PartCopy(d, c, src, dst, done)
    requires IsDirectory(d, src) && Apart(src, dst) && Free(d, dst)
    requires name in ChildNames(d, src) && name !in done
    ensures var s, t := src + [name], dst + [name];
            && s in c && Apart(s, t) && Parent(t) == dst && IsDirectory(c, dst) && Free(c, t) && t !in c
            && Below(c, s) < Below(d, src)
  {
    var s, t := src + [name], dst + [name];
    var q :| q in d && q != [] && Parent(q) == src && Base(q) == name;
    assert q == s;
    ApartChildren(src, dst, name);
    Untouched(d, c, src, dst, done, s);
    assert Look(c, dst) == Look(d, Source(src, dst, dst)) && Source(src, dst, dst) == src;
    forall k | t <= k
      ensures Look(c, k) == None
    {
      assert k[|dst|] == name && dst <= k;
      assert Look(c, k) == Look(d, k);
    }
    forall k | k in Below(c, s)
      ensures k in Below(d, src)
    {
      Untouched(d, c, src, dst, done, k);
    }
    assert src in Below(d, src) && src !in Below(c, s);
    assert Look(c, t) == None;
  }

  lemma Untouched(d: Disk, c: Disk, src: Path, dst: Path, done: set<string>, k: Path)
    requires PartCopy(d, c, src, dst, done) && Apart(src, dst) && src <= k
    ensures Look(c, k) == Look(d, k)
  {
    ApartShareNothing(src, dst, k);
    assert Look(c, k) == Look(d, Origin(src, dst, done, k));
  }

  lemma OriginGrows(src: Path, dst: Path, done: set<string>, name: string, k: Path)
    ensures Origin(src, dst, done + {name}, k)
         == if dst + [name] <= k then Source(src + [name], dst + [name], k) else Origin(src, dst, done, k)
  {
    var t := dst + [name];
    assert dst <= k && k != dst && k[|dst|] == name ==> t == k[..|t|];
    if t <= k {
      assert dst <= k && k[|dst|] == name;
      assert Source(src + [name], t, k) == Source(src, dst, k);
    }
  }

  lemma NextCopy(d: Disk, c: Disk, c': Disk, src: Path, dst: Path, done: set<string>, name: string)
    requires PartCopy(d, c, src, dst, done) && Apart(src, dst) && Free(d, dst) && name !in done
    requires CopyOf(c, c', src + [name], dst + [name])
    ensures PartCopy(d, c', src, dst, done + {name})
  {
    var s, t := src + [name], dst + [name];
    forall k
      ensures Look(c', k) == Look(d, Origin(src, dst, done + {name}, k))
    {
      OriginGrows(src, dst, done, name, k);
      var o := if t <= k then Source(s, t, k) else k;
      assert Look(c', k) == Look(c, o);
      if t <= k {
        assert src <= o;
        Untouched(d, c, src, dst, done, o);
      } else {
        assert Look(c, k) == Look(d, Origin(src, dst, done, k));
      }
    }
  }

  lemma EndCopy(d: Disk, c: Disk, src: Path, dst: Path)
    requires Closed(d) && PartCopy(d, c, src, dst, ChildNames(d, src))
    requires Free(d, dst)
    ensures CopyOf(d, c, src, dst)
  {
    forall k
      ensures Look(c, k) == Look(d, if dst <= k then Source(src, dst, k) else k)
    {
      assert Look(c, k) == Look(d, Origin(src, dst, ChildNames(d, src), k));
      if dst <= k && k != dst {
        assert Look(d, k) == None;
        var o := Source(src, dst, k);
        var child := src + [k[|dst|]];
        if o in d {
          assert child <= o;
          if child != o {
            ClosedAncestors(d, o, child);
          }
          assert Parent(child) == src && Base(child) == k[|dst|];
        }
      }
    }
  }

  /** names lists the children of p in t, each once. */
  ghost predicate Listing(t: Tree, p: Path, names: seq<string>) {
    NoDup(names) && forall n {:trigger n in names} :: n in names <==> p + [n] in t
  }

  ghost predicate MetasOf(t: Tree, p: Path, names: seq<string>, metas: seq<FileMeta>) {
    && |metas| == |names|
    && forall i :: 0 <= i < |names| ==> p + [names[i]] in t && metas[i] == MetaOf(t, p + [names[i]])
  }

  lemma ClearedRoot(d: Disk)
    requires Good(d)
    ensures var d' := map q | q in d && (q == [] || q == [MARKER]) :: d[q];
            Good(d') && Abs(d') == EMPTY
  {
    var d' := map q | q in d && (q == [] || q == [MARKER]) :: d[q];
    assert GoodAt(d, []);
    assert !DirName(MARKER) && !HasSuffix(MARKER);
    forall q | q in d'
      ensures GoodAt(d', q) && (q != [] ==> d'[q].Raw?)
    {
      assert GoodAt(d, q);
      assert q != [] ==> Base(q) == MARKER && Parent(q) == [];
    }
    forall p
      ensures NodeAt(d', p) == Look(EMPTY, p)
    {
      LocalRoundTrip(p);
    }
    AbsIs(d', EMPTY);
  }
}

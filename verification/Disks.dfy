/**
 The metadata directory on disk: a file at p is stored as p.json and a directory as p.
 Abs decodes a disk into the virtual tree; the lemmas show each disk operation doing to Abs what the
 tree operation of the same name does.
 */
module Disks {
  import opened Wrappers
  import opened PathMaps
  import opened Trees

  datatype Entry = Directory | Json(meta: FileMeta) | Raw

  type Disk = map<Path, Entry>

  /** getLocalPath. */
  function LocalPath(p: Path): (q: Path)
    ensures |q| == |p|
  {
    if p == [] then [] else Parent(p) + [Base(p) + JSON]
  }

  lemma SuffixRoundTrip(s: string)
    ensures HasSuffix(s + JSON) && TrimSuffix(s + JSON) == s
    ensures HasSuffix(s) ==> TrimSuffix(s) + JSON == s
    ensures s + JSON != MARKER
  {
    assert (s + JSON)[|s|..] == JSON;
    assert MARKER[|MARKER| - 1] == 't' && (s + JSON)[|s| + 4] == 'n';
  }

  lemma LocalRoundTrip(p: Path)
    ensures Virtual(LocalPath(p)) == p
    ensures p != [] ==> Parent(LocalPath(p)) == Parent(p) && HasSuffix(Base(LocalPath(p)))
    ensures p != [] && HasSuffix(Base(p)) ==> LocalPath(Virtual(p)) == p
  {
    if p != [] {
      SuffixRoundTrip(Base(p));
      Unextended(p);
      Extended(Parent(p), Base(p) + JSON);
      Extended(Parent(p), TrimSuffix(Base(p)));
    }
  }

  lemma LocalInjective(p: Path, q: Path)
    ensures LocalPath(p) == LocalPath(q) <==> p == q
  {
    LocalRoundTrip(p);
    LocalRoundTrip(q);
  }

  ghost predicate GoodAt(d: Disk, q: Path)
    requires q in d
  {
    if q == [] then d[q].Directory?
    else
      && IsDirectory(d, Parent(q))
      && match d[q] {
        case Directory => DirName(Base(q))
        case Json(m) => HasSuffix(Base(q)) && !IsDirectory(d, Virtual(q)) && !m.isDir
        case Raw => q == [MARKER]
      }
  }

  /** Whether an entry is good depends on itself, its directory and, for a metadata file, the path it encodes. */
  lemma GoodAtLocally(d: Disk, c: Disk, k: Path)
    requires k in d && GoodAt(d, k) && k in c && c[k] == d[k]
    requires k != [] ==> IsDirectory(c, Parent(k)) == IsDirectory(d, Parent(k))
    requires k != [] && d[k].Json? ==> IsDirectory(c, Virtual(k)) == IsDirectory(d, Virtual(k))
    ensures GoodAt(c, k)
  {
  }

  ghost predicate Good(d: Disk) {
    [] in d && forall q {:trigger GoodAt(d, q)} :: q in d ==> GoodAt(d, q)
  }

  predicate IsDirectory(d: Disk, p: Path) {
    p in d && d[p].Directory?
  }

  predicate IsMetadata(d: Disk, p: Path) {
    p in d && d[p].Json?
  }

  function NodeAt(d: Disk, p: Path): Option<Node> {
    if IsDirectory(d, p) then Some(Dir)
    else if p != [] && IsMetadata(d, LocalPath(p)) then Some(File(d[LocalPath(p)].meta))
    else None
  }

  function Abs(d: Disk): Tree {
    var candidates := d.Keys + set q | q in d :: Virtual(q);
    map p | p in candidates && NodeAt(d, p).Some? :: NodeAt(d, p).value
  }

  lemma AbsAt(d: Disk, p: Path)
    ensures Look(Abs(d), p) == NodeAt(d, p)
  {
    LocalRoundTrip(p);
    if NodeAt(d, p).Some? {
      assert p in d || LocalPath(p) in d;
    }
  }

  lemma AbsIs(d: Disk, t: Tree)
    requires forall p {:trigger NodeAt(d, p)} :: NodeAt(d, p) == Look(t, p)
    ensures Abs(d) == t
  {
    forall p
      ensures Look(Abs(d), p) == Look(t, p)
    {
      AbsAt(d, p);
    }
    SameLooks(Abs(d), t);
  }

  lemma AbsValid(d: Disk)
    requires Good(d)
    ensures ValidTree(Abs(d))
  {
    var t := Abs(d);
    AbsAt(d, []);
    assert GoodAt(d, []);
    forall p | p in t
      ensures t[p].File? ==> !t[p].meta.isDir
      ensures p != [] ==> Parent(p) in t && t[Parent(p)].Dir? && (t[p].Dir? ==> DirName(Base(p)))
    {
      LocalRoundTrip(p);
      AbsAt(d, p);
      AbsAt(d, Parent(p));
      assert GoodAt(d, if t[p].Dir? then p else LocalPath(p));
    }
  }

  lemma {:induction false} AncestorsOnDisk(d: Disk, p: Path, q: Path)
    requires Good(d) && p in d && q <= p && q != p
    ensures IsDirectory(d, q)
    decreases |p|
  {
    assert GoodAt(d, p);
    if q != Parent(p) {
      assert q <= Parent(p);
      AncestorsOnDisk(d, Parent(p), q);
    }
  }

  /** Under a nameable path, whatever is on disk is a directory. */
  lemma PrefixesOnDisk(d: Disk, p: Path, q: Path)
    requires Good(d) && Nameable(p) && q <= p && q in d
    requires q != p || p == [] || DirName(Base(p))
    ensures d[q].Directory?
  {
    assert GoodAt(d, q);
    if q != [] {
      assert Base(q) == p[|q| - 1];
    }
  }

  /** A directory name on the way to p that is still missing. */
  lemma MissingPrefix(d: Disk, p: Path, q: Path)
    requires Good(d) && Placeable(Abs(d), true, p) && q <= p && q !in d
    ensures q != [] && DirName(Base(q)) && NodeAt(d, q) == None && Parent(q) <= p
  {
    assert Base(q) == p[|q| - 1];
    AbsAt(d, q);
    assert q in Abs(d) ==> Look(Abs(d), q) == Some(Dir);
  }

  lemma MkdirAt(d: Disk, p: Path, r: Path)
    requires Good(d) && Placeable(Abs(d), true, p)
    ensures NodeAt(MkdirAll(d, p, Directory), r) == Look(MkdirAll(Abs(d), p, Dir), r)
  {
    LocalRoundTrip(r);
    AbsAt(d, r);
    if r <= p && r in d {
      PrefixesOnDisk(d, p, r);
    }
    if r != [] {
      NotOnTheWay(p, LocalPath(r));
    }
  }

  /** No directory on the way to p is spelled like a metadata file. */
  lemma NotOnTheWay(p: Path, l: Path)
    requires Nameable(p) && (p != [] ==> DirName(Base(p))) && l != [] && HasSuffix(Base(l))
    ensures !(l <= p)
  {
    if |l| <= |p| {
      assert DirName(p[|l| - 1]) && l[|l| - 1] != p[|l| - 1];
    }
  }

  lemma MkdirGoodAt(d: Disk, p: Path, q: Path)
    requires Good(d) && Placeable(Abs(d), true, p) && (q in d || q <= p)
    ensures q in MkdirAll(d, p, Directory) && GoodAt(MkdirAll(d, p, Directory), q)
  {
    if q in d {
      assert GoodAt(d, q);
      var v := Virtual(q);
      if d[q].Json? && v <= p && v !in d {
        LocalRoundTrip(q);
        MissingPrefix(d, p, v);
        assert false;
      }
    } else {
      MissingPrefix(d, p, q);
      if Parent(q) in d {
        PrefixesOnDisk(d, p, Parent(q));
      }
    }
  }

  lemma MkdirKeepsGood(d: Disk, p: Path)
    requires Good(d) && Placeable(Abs(d), true, p)
    ensures Good(MkdirAll(d, p, Directory))
  {
    assert GoodAt(d, []);
    forall q | q in MkdirAll(d, p, Directory)
      ensures GoodAt(MkdirAll(d, p, Directory), q)
    {
      MkdirGoodAt(d, p, q);
    }
  }

  lemma MkdirOnDisk(d: Disk, p: Path)
    requires Good(d) && Placeable(Abs(d), true, p)
    ensures var d' := MkdirAll(d, p, Directory);
            Good(d') && Abs(d') == MkdirAll(Abs(d), p, Dir)
  {
    MkdirKeepsGood(d, p);
    forall r
      ensures NodeAt(MkdirAll(d, p, Directory), r) == Look(MkdirAll(Abs(d), p, Dir), r)
    {
      MkdirAt(d, p, r);
    }
    AbsIs(MkdirAll(d, p, Directory), MkdirAll(Abs(d), p, Dir));
  }

  lemma WriteOnDisk(d: Disk, p: Path, m: FileMeta)
    requires Good(d) && p != [] && !m.isDir && IsDirectory(d, Parent(p)) && !IsDirectory(d, p)
    ensures var d' := d[LocalPath(p) := Json(m)];
            Good(d') && Abs(d') == Abs(d)[p := File(m)]
  {
    var d', t' := d[LocalPath(p) := Json(m)], Abs(d)[p := File(m)];
    forall q | q in d'
      ensures GoodAt(d', q)
    {
      WriteGoodAt(d, p, m, q);
    }
    forall r
      ensures NodeAt(d', r) == Look(t', r)
    {
      WriteAt(d, p, m, r);
    }
    AbsIs(d', t');
  }

  lemma WriteGoodAt(d: Disk, p: Path, m: FileMeta, q: Path)
    requires Good(d) && p != [] && !m.isDir && IsDirectory(d, Parent(p)) && !IsDirectory(d, p)
    requires q in d || q == LocalPath(p)
    ensures GoodAt(d[LocalPath(p) := Json(m)], q)
  {
    FileSpot(d, p);
    assert q in d ==> GoodAt(d, q);
  }

  /** The place of p's metadata file is never a directory. */
  lemma FileSpot(d: Disk, p: Path)
    requires Good(d) && p != []
    ensures var l := LocalPath(p);
            l != [] && Parent(l) == Parent(p) && HasSuffix(Base(l)) && Virtual(l) == p && !IsDirectory(d, l)
  {
    LocalRoundTrip(p);
    assert LocalPath(p) in d ==> GoodAt(d, LocalPath(p));
  }

  lemma WriteAt(d: Disk, p: Path, m: FileMeta, r: Path)
    requires Good(d) && p != [] && IsDirectory(d, Parent(p)) && !IsDirectory(d, p)
    ensures NodeAt(d[LocalPath(p) := Json(m)], r) == Look(Abs(d)[p := File(m)], r)
  {
    var l := LocalPath(p);
    FileSpot(d, p);
    LocalInjective(p, r);
    AbsAt(d, r);
    assert Look(d[l := Json(m)], r) == if r == l then Some(Json(m)) else Look(d, r);
    assert r != p ==> Look(d[l := Json(m)], LocalPath(r)) == Look(d, LocalPath(r));
  }

  /** Below a directory p, a path and its encoding are under p together. */
  lemma LocalUnder(p: Path, r: Path)
    requires p != [] && r != [] && DirName(Base(p))
    ensures p <= LocalPath(r) <==> p <= r && p != r
  {
    LocalRoundTrip(r);
    assert |p| == |r| && p <= LocalPath(r) ==> p == LocalPath(r);
    if |p| < |r| {
      assert p <= r <==> p <= Parent(r);
      assert p <= LocalPath(r) <==> p <= Parent(LocalPath(r));
    }
  }

  lemma RemoveKeepsGood(d: Disk, p: Path)
    requires Good(d) && p != []
    ensures Good(RemoveTree(d, p))
  {
    var d' := RemoveTree(d, p);
    forall q | q in d'
      ensures GoodAt(d', q)
    {
      assert GoodAt(d, q);
      assert p <= Parent(q) ==> p <= q;
    }
  }

  lemma RemoveDirAt(d: Disk, p: Path, r: Path)
    requires Good(d) && p != [] && IsDirectory(d, p)
    ensures NodeAt(RemoveTree(d, p), r) == Look(RemoveTree(Abs(d), p), r)
  {
    assert GoodAt(d, p);
    LocalRoundTrip(p);
    assert LocalPath(p) in d ==> GoodAt(d, LocalPath(p));
    RemoveLook(d, p, r);
    RemoveLook(d, p, LocalPath(r));
    RemoveLook(Abs(d), p, r);
    AbsAt(d, r);
    if r != [] {
      LocalUnder(p, r);
    }
  }

  lemma RemoveDirOnDisk(d: Disk, p: Path)
    requires Good(d) && p != [] && IsDirectory(d, p)
    ensures var d' := RemoveTree(d, p);
            Good(d') && Abs(d') == RemoveTree(Abs(d), p)
  {
    forall r
      ensures NodeAt(RemoveTree(d, p), r) == Look(RemoveTree(Abs(d), p), r)
    {
      RemoveDirAt(d, p, r);
    }
    AbsIs(RemoveTree(d, p), RemoveTree(Abs(d), p));
    RemoveKeepsGood(d, p);
  }

  lemma RemoveFileAt(d: Disk, p: Path, r: Path)
    requires Good(d) && p != [] && IsMetadata(d, LocalPath(p))
    ensures NodeAt(RemoveTree(d, LocalPath(p)), r) == Look(RemoveTree(Abs(d), p), r)
  {
    var l, t := LocalPath(p), Abs(d);
    FileIsLeaf(d, p);
    RemoveLeaf(d, l, r);
    RemoveLeaf(d, l, LocalPath(r));
    RemoveLeaf(t, p, r);
    LocalInjective(p, r);
    AbsAt(d, r);
  }

  lemma FileIsLeaf(d: Disk, p: Path)
    requires Good(d) && p != [] && IsMetadata(d, LocalPath(p))
    ensures Leaf(d, LocalPath(p)) && Leaf(Abs(d), p) && !IsDirectory(d, p)
  {
    var l := LocalPath(p);
    LocalRoundTrip(p);
    assert GoodAt(d, l);
    AbsAt(d, p);
    AbsValid(d);
    LeafInTree(Abs(d), p);
    forall k | k in d && l <= k
      ensures k == l
    {
      if k != l {
        AncestorsOnDisk(d, k, l);
      }
    }
  }

  lemma RemoveFileOnDisk(d: Disk, p: Path)
    requires Good(d) && p != [] && IsMetadata(d, LocalPath(p))
    ensures var d' := RemoveTree(d, LocalPath(p));
            Good(d') && Abs(d') == RemoveTree(Abs(d), p)
  {
    forall r
      ensures NodeAt(RemoveTree(d, LocalPath(p)), r) == Look(RemoveTree(Abs(d), p), r)
    {
      RemoveFileAt(d, p, r);
    }
    AbsIs(RemoveTree(d, LocalPath(p)), RemoveTree(Abs(d), p));
    RemoveKeepsGood(d, LocalPath(p));
  }
}

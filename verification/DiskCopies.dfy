/** Copying a directory on disk copies the virtual subtree. */
module DiskCopies {
  import opened PathMaps
  import opened Trees
  import opened Disks

  /** The copies that Rename falls back to: a directory to a free place elsewhere. */
  ghost predicate Copyable(d: Disk, p: Path, q: Path) {
    && Good(d) && p != [] && q != [] && Apart(p, q)
    && IsDirectory(d, p) && IsDirectory(d, Parent(q)) && DirName(Base(q))
    && q !in Abs(d)
  }

  lemma NothingBelowTarget(d: Disk, p: Path, q: Path, k: Path)
    requires Copyable(d, p, q) && q <= k
    ensures k !in d && k !in Abs(d)
  {
    AbsAt(d, q);
    AbsAt(d, k);
    AbsValid(d);
    assert q in d ==> GoodAt(d, q);
    if k in d && k != q {
      AncestorsOnDisk(d, k, q);
    }
    if k in Abs(d) && k != q {
      AncestorsAreDirs(Abs(d), k, q);
    }
  }

  function Source(p: Path, q: Path, k: Path): Path
    requires q <= k
  {
    p + k[|q|..]
  }

  lemma SourceFacts(p: Path, q: Path, k: Path)
    requires q <= k && q != k
    ensures var s := Source(p, q, k);
            && s != [] && Base(s) == Base(k)
            && q <= Parent(k) && Parent(s) == Source(p, q, Parent(k))
            && q <= Virtual(k) && Virtual(s) == Source(p, q, Virtual(k))
            && q <= LocalPath(k) && LocalPath(s) == Source(p, q, LocalPath(k))
  {
    var s := Source(p, q, k);
    assert Parent(s) == p + Parent(k)[|q|..];
  }

  /** c is d with the subtree at p also at q, where d has nothing. */
  ghost predicate CopyOf(d: Disk, c: Disk, p: Path, q: Path) {
    forall k {:trigger Look(c, k)} :: Look(c, k) == Look(d, if q <= k then Source(p, q, k) else k)
  }

  lemma CopyIsCopy(d: Disk, p: Path, q: Path)
    requires Copyable(d, p, q)
    ensures CopyOf(d, CopyTree(d, p, q), p, q)
  {
    forall k
      ensures Look(CopyTree(d, p, q), k) == Look(d, if q <= k then Source(p, q, k) else k)
    {
      if q <= k {
        NothingBelowTarget(d, p, q, k);
      }
    }
  }

  lemma NodeOfCopy(d: Disk, c: Disk, p: Path, q: Path, r: Path)
    requires Copyable(d, p, q) && CopyOf(d, c, p, q)
    ensures NodeAt(c, r) == NodeAt(d, if q <= r then Source(p, q, r) else r)
  {
    assert Look(c, r) == Look(d, if q <= r then Source(p, q, r) else r);
    if r != [] {
      LocalUnder(q, r);
      var l := LocalPath(r);
      assert Look(c, l) == Look(d, if q <= l then Source(p, q, l) else l);
      if q <= r && q != r {
        SourceFacts(p, q, r);
      } else if r == q {
        assert Source(p, q, r) == p;
      }
    }
  }

  lemma CopyAt(d: Disk, p: Path, q: Path, r: Path)
    requires Copyable(d, p, q)
    ensures NodeAt(CopyTree(d, p, q), r) == Look(CopyTree(Abs(d), p, q), r)
  {
    CopyIsCopy(d, p, q);
    NodeOfCopy(d, CopyTree(d, p, q), p, q, r);
    AbsAt(d, r);
    if q <= r {
      AbsAt(d, Source(p, q, r));
      NothingBelowTarget(d, p, q, r);
    }
  }

  lemma CopyGoodUnder(d: Disk, c: Disk, p: Path, q: Path, k: Path)
    requires Copyable(d, p, q) && CopyOf(d, c, p, q) && k in c && q <= k
    ensures GoodAt(c, k)
  {
    var s := Source(p, q, k);
    assert Look(c, k) == Look(d, s);
    assert GoodAt(d, s);
    if k == q {
      assert s == p && !(q <= Parent(q));
      assert Look(c, Parent(q)) == Look(d, Parent(q));
    } else {
      SourceFacts(p, q, k);
      assert Look(c, Parent(k)) == Look(d, Parent(s));
      assert Look(c, Virtual(k)) == Look(d, Virtual(s));
      assert |s| >= 2;
    }
  }

  lemma VirtualElsewhere(d: Disk, p: Path, q: Path, k: Path)
    requires Copyable(d, p, q) && k in d && k != [] && d[k].Json? && !(q <= k)
    ensures !(q <= Virtual(k))
  {
    var v := Virtual(k);
    LocalRoundTrip(k);
    assert GoodAt(d, k);
    AbsAt(d, v);
    assert v in Abs(d);
    assert q <= Parent(k) ==> q <= k;
    assert q <= v && q != v ==> q <= Parent(k);
  }

  lemma CopyGoodElsewhere(d: Disk, c: Disk, p: Path, q: Path, k: Path)
    requires Copyable(d, p, q) && CopyOf(d, c, p, q) && k in c && !(q <= k)
    ensures GoodAt(c, k)
  {
    assert Look(c, k) == Look(d, k);
    assert GoodAt(d, k);
    if k != [] {
      var v := Virtual(k);
      assert !(q <= Parent(k));
      assert Look(c, Parent(k)) == Look(d, Parent(k));
      if d[k].Json? {
        VirtualElsewhere(d, p, q, k);
        assert Look(c, v) == Look(d, v);
      }
    }
    GoodAtLocally(d, c, k);
  }

  lemma CopyOnDisk(d: Disk, p: Path, q: Path)
    requires Copyable(d, p, q)
    ensures var d' := CopyTree(d, p, q);
            Good(d') && Abs(d') == CopyTree(Abs(d), p, q)
  {
    var d', t' := CopyTree(d, p, q), CopyTree(Abs(d), p, q);
    CopyIsCopy(d, p, q);
    assert GoodAt(d, []) && Look(d', []) == Look(d, []);
    forall k | k in d'
      ensures GoodAt(d', k)
    {
      if q <= k {
        CopyGoodUnder(d, d', p, q, k);
      } else {
        CopyGoodElsewhere(d, d', p, q, k);
      }
    }
    forall r
      ensures NodeAt(d', r) == Look(t', r)
    {
      CopyAt(d, p, q, r);
    }
    AbsIs(d', t');
  }

  /** os.Rename in place and copy-then-delete end on the same disk, and both move the virtual subtree. */
  lemma MoveDirOnDisk(d: Disk, p: Path, q: Path)
    requires Copyable(d, p, q)
    ensures var d' := MoveTree(d, p, q);
            && d' == RemoveTree(CopyTree(d, p, q), p)
            && Good(d') && Abs(d') == MoveTree(Abs(d), p, q)
  {
    MoveIsCopyThenRemove(d, p, q);
    MoveIsCopyThenRemove(Abs(d), p, q);
    CopyOnDisk(d, p, q);
    RemoveDirOnDisk(CopyTree(d, p, q), p);
  }

  /** One metadata file over a free or occupied spot: in place and by copying, with the name brought up to date. */
  lemma MoveFileOnDisk(d: Disk, p: Path, q: Path, m: FileMeta, m': FileMeta)
    requires Good(d) && p != [] && q != [] && !(p <= q) && !m.isDir && !m'.isDir
    requires LocalPath(p) in d && d[LocalPath(p)] == Json(m) && LocalPath(p) != LocalPath(q)
    requires IsDirectory(d, Parent(q)) && !IsDirectory(d, q)
    ensures var a, b, t' := LocalPath(p), LocalPath(q), Abs(d)[q := File(m')];
            var moved := RemoveTree(d[b := Json(m)], a);
            && b in moved && moved[b] == Json(m) && IsDirectory(moved, Parent(b)) && b != []
            && Good(moved[b := Json(m')]) && Abs(moved[b := Json(m')]) == RemoveTree(t', p)
            && Good(d[b := Json(m')]) && Abs(d[b := Json(m')]) == t'
  {
    var a, b := LocalPath(p), LocalPath(q);
    LocalRoundTrip(q);
    WriteOnDisk(d, q, m);
    WriteOnDisk(d, q, m');
    var moved := RemoveTree(d[b := Json(m)], a);
    NotUnderFile(d, a, Parent(q));
    NotUnderFile(d, a, b);
    RemoveFileOnDisk(d[b := Json(m)], p);
    WriteOnDisk(moved, q, m');
    RemoveThenUpdate(Abs(d), p, q, File(m), File(m'));
  }

  lemma NotUnderFile(d: Disk, a: Path, k: Path)
    requires Good(d) && a in d && d[a].Json? && a != k && (k in d || IsDirectory(d, Parent(k)))
    ensures !(a <= k)
  {
    if a <= k {
      if k in d {
        AncestorsOnDisk(d, k, a);
      } else {
        assert a <= Parent(k);
        if a != Parent(k) {
          AncestorsOnDisk(d, Parent(k), a);
        }
      }
    }
  }
}

/**
 Trees kept as maps from paths to entries. The metadata directory on disk and the virtual tree it stands for
 are both such maps, so the tree operations are defined here once, for entries of any type.
 */
module PathMaps {
  import opened Wrappers

  /** A cleaned absolute path as the list of its components; the root is []. */
  type Path = seq<string>

  function Parent(p: Path): Path {
    if p == [] then [] else p[..|p| - 1]
  }

  /** path.Base of a cleaned path. */
  function Base(p: Path): string {
    if p == [] then "/" else p[|p| - 1]
  }

  lemma Extended(p: Path, x: string)
    ensures p + [x] != [] && Parent(p + [x]) == p && Base(p + [x]) == x
  {
  }

  lemma Unextended(p: Path)
    ensures p != [] ==> p == Parent(p) + [Base(p)]
  {
  }

  function Look<X>(m: map<Path, X>, p: Path): Option<X> {
    if p in m then Some(m[p]) else None
  }

  function Prefixes(p: Path): (s: set<Path>)
    ensures forall q :: q in s <==> q <= p
  {
    var s := set i | 0 <= i <= |p| :: p[..i];
    assert forall q :: q <= p ==> q == p[..|q|];
    s
  }

  /** os.MkdirAll: the missing directories on the way to p, p included. */
  function MkdirAll<X>(m: map<Path, X>, p: Path, dir: X): map<Path, X> {
    m + map q | q in Prefixes(p) && q !in m :: dir
  }

  lemma MkdirLook<X>(m: map<Path, X>, p: Path, dir: X, k: Path)
    ensures Look(MkdirAll(m, p, dir), k) == if k in m then Some(m[k]) else if k <= p then Some(dir) else None
  {
  }

  /** os.RemoveAll: p and everything below it. */
  function RemoveTree<X>(m: map<Path, X>, p: Path): map<Path, X> {
    map q | q in m && !(p <= q) :: m[q]
  }

  lemma RemoveLook<X>(m: map<Path, X>, p: Path, k: Path)
    ensures Look(RemoveTree(m, p), k) == if p <= k then None else Look(m, k)
  {
  }

  function Grafted<X>(m: map<Path, X>, a: Path, b: Path): (s: set<Path>)
    ensures forall k :: k in s <==> b <= k && a + k[|b|..] in m
  {
    var s := set r | r in m && a <= r :: b + r[|a|..];
    forall k
      ensures k in s <==> b <= k && a + k[|b|..] in m
    {
      if k in s {
        var r :| r in m && a <= r && k == b + r[|a|..];
        assert a + k[|b|..] == r;
      }
      if b <= k && a + k[|b|..] in m {
        var r := a + k[|b|..];
        assert b + r[|a|..] == k;
      }
    }
    s
  }

  /** A copy of the subtree at a appears at b, over whatever was there. */
  function CopyTree<X>(m: map<Path, X>, a: Path, b: Path): map<Path, X> {
    m + map k | k in Grafted(m, a, b) :: m[a + k[|b|..]]
  }

  /** The subtree at a moves to b: every path below a gets the prefix b instead. */
  function MoveTree<X>(m: map<Path, X>, a: Path, b: Path): map<Path, X> {
    map k | k in m.Keys + Grafted(m, a, b) && (k in Grafted(m, a, b) || !(a <= k)) ::
      if k in Grafted(m, a, b) then m[a + k[|b|..]] else m[k]
  }

  lemma MoveLook<X>(m: map<Path, X>, a: Path, b: Path, k: Path)
    ensures Look(MoveTree(m, a, b), k)
         == if b <= k && a + k[|b|..] in m then Look(m, a + k[|b|..]) else if a <= k then None else Look(m, k)
  {
  }

  /** Neither path lies inside the other. */
  predicate Apart(a: Path, b: Path) {
    !(a <= b) && !(b <= a)
  }

  lemma ApartShareNothing(a: Path, b: Path, k: Path)
    requires Apart(a, b)
    ensures !(a <= k && b <= k)
  {
    assert a <= k ==> a == k[..|a|];
    assert b <= k ==> b == k[..|b|];
  }

  /** Moving is copying and then deleting the original. */
  lemma MoveIsCopyThenRemove<X>(m: map<Path, X>, a: Path, b: Path)
    requires Apart(a, b)
    ensures MoveTree(m, a, b) == RemoveTree(CopyTree(m, a, b), a)
  {
    forall k
      ensures Look(MoveTree(m, a, b), k) == Look(RemoveTree(CopyTree(m, a, b), a), k)
    {
      ApartShareNothing(a, b, k);
    }
    SameLooks(MoveTree(m, a, b), RemoveTree(CopyTree(m, a, b), a));
  }

  lemma SameLooks<X>(m: map<Path, X>, n: map<Path, X>)
    requires forall k :: Look(m, k) == Look(n, k)
    ensures m == n
  {
    forall k
      ensures k in m <==> k in n
      ensures k in m ==> m[k] == n[k]
    {
      assert Look(m, k) == Look(n, k);
    }
  }

  /** There is nothing below a. */
  ghost predicate Leaf<X>(m: map<Path, X>, a: Path) {
    forall k :: k in m && a <= k ==> k == a
  }

  lemma RemoveLeaf<X>(m: map<Path, X>, a: Path, k: Path)
    requires Leaf(m, a)
    ensures Look(RemoveTree(m, a), k) == if k == a then None else Look(m, k)
  {
  }

  lemma MoveLeaf<X>(m: map<Path, X>, a: Path, b: Path)
    requires a in m && Leaf(m, a) && Leaf(m, b) && Apart(a, b)
    ensures MoveTree(m, a, b) == RemoveTree(m[b := m[a]], a)
  {
    forall k
      ensures Look(MoveTree(m, a, b), k) == Look(RemoveTree(m[b := m[a]], a), k)
    {
      if b <= k && a + k[|b|..] in m {
        assert a + k[|b|..] == a && k == b;
      }
      if k == b {
        assert a + k[|b|..] == a;
      }
    }
    SameLooks(MoveTree(m, a, b), RemoveTree(m[b := m[a]], a));
  }

  lemma RemoveThenUpdate<X>(m: map<Path, X>, p: Path, q: Path, x: X, y: X)
    requires !(p <= q)
    ensures RemoveTree(m[q := x], p)[q := y] == RemoveTree(m[q := y], p)
  {
  }

  lemma UpdateTwice<X>(m: map<Path, X>, p: Path, x: X, y: X)
    ensures m[p := x][p := y] == m[p := y]
  {
  }
}

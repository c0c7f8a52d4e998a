/** JSON, RSA, PEM and PBKDF2 as far as share packages rely on them: inverse pairs, and keys of the right length. */
module Codecs {
  import opened Wrappers
  import opened ByteStrings
  import opened PathMaps
  import opened Trees
  import opened Engines

  /** Key pairs are numbered; a number stands for both halves of the pair. */
  datatype Ops = Ops(
    marshal: FileMeta -> Bytes, unmarshal: Bytes -> Option<FileMeta>,
    rsaEncrypt: (nat, Bytes) -> Bytes, rsaDecrypt: (nat, Bytes) -> Option<Bytes>,
    toPem: nat -> Bytes, fromPem: Bytes -> Option<nat>,
    deriveKey: string -> Bytes)

  ghost predicate Lawful(c: Ops) {
    && (forall m :: c.unmarshal(c.marshal(m)) == Some(m))
    && (forall k: nat, b :: c.rsaDecrypt(k, c.rsaEncrypt(k, b)) == Some(b))
    && (forall k: nat :: c.fromPem(c.toPem(k)) == Some(k))
    && (forall s :: |c.deriveKey(s)| == KEY_SIZE)
  }

  type Codec = c: Ops | Lawful(c) ghost witness Toy()

  // An instance, so that the laws are known to be consistent: a self-delimiting encoding in unary.

  ghost function Nat(n: nat): Bytes {
    if n == 0 then [0] else [1] + Nat(n - 1)
  }

  ghost function List<T>(encode: T -> Bytes, xs: seq<T>): Bytes {
    if xs == [] then [0] else [1] + (encode(xs[0]) + List(encode, xs[1..]))
  }

  ghost function Text(s: string): Bytes {
    List((c: char) => Nat(c as int), s)
  }

  ghost function Raw(b: Bytes): Bytes {
    List((x: byte) => Nat(x), b)
  }

  ghost function PathText(p: Path): Bytes {
    List((s: string) => Text(s), p)
  }

  ghost function Meta(m: FileMeta): Bytes {
    Text(m.name) + (PathText(if m.dir.Some? then m.dir.value else []) + (Text(m.remoteName)
    + (Nat(m.size) + (Raw(m.fek) + (Raw(m.salt) + [if m.isDir then 1 else 0, if m.dir.Some? then 1 else 0])))))
  }

  /** An encoding that shows where it ends. */
  ghost predicate PrefixFree<T(!new)>(encode: T -> Bytes) {
    forall x, y, r: Bytes, s: Bytes {:trigger encode(x) + r, encode(y) + s} ::
      encode(x) + r == encode(y) + s ==> x == y && r == s
  }

  lemma {:induction false} NatPrefix(m: nat, n: nat, r: Bytes, s: Bytes)
    requires Nat(m) + r == Nat(n) + s
    ensures m == n && r == s
  {
    var a, b := Nat(m) + r, Nat(n) + s;
    assert a[0] == Nat(m)[0] && b[0] == Nat(n)[0];
    if m == 0 {
      assert a[1..] == r && b[1..] == s;
    } else {
      assert a[1..] == Nat(m - 1) + r && b[1..] == Nat(n - 1) + s;
      NatPrefix(m - 1, n - 1, r, s);
    }
  }

  lemma {:induction false} ListPrefix<T(!new)>(encode: T -> Bytes, xs: seq<T>, ys: seq<T>, r: Bytes, s: Bytes)
    requires PrefixFree(encode) && List(encode, xs) + r == List(encode, ys) + s
    ensures xs == ys && r == s
  {
    var a, b := List(encode, xs) + r, List(encode, ys) + s;
    assert a[0] == List(encode, xs)[0] && b[0] == List(encode, ys)[0];
    if xs == [] {
      assert a[1..] == r && b[1..] == s;
    } else {
      var r', s' := List(encode, xs[1..]) + r, List(encode, ys[1..]) + s;
      assert a[1..] == encode(xs[0]) + r' && b[1..] == encode(ys[0]) + s';
      ListPrefix(encode, xs[1..], ys[1..], r, s);
      assert xs == [xs[0]] + xs[1..] && ys == [ys[0]] + ys[1..];
    }
  }

  lemma TextPrefix(m: string, n: string, r: Bytes, s: Bytes)
    requires Text(m) + r == Text(n) + s
    ensures m == n && r == s
  {
    var encode := (c: char) => Nat(c as int);
    forall x, y, r: Bytes, s: Bytes | encode(x) + r == encode(y) + s
      ensures x == y && r == s
    {
      NatPrefix(x as int, y as int, r, s);
    }
    ListPrefix(encode, m, n, r, s);
  }

  lemma RawPrefix(m: Bytes, n: Bytes, r: Bytes, s: Bytes)
    requires Raw(m) + r == Raw(n) + s
    ensures m == n && r == s
  {
    var encode := (x: byte) => Nat(x);
    forall x: byte, y: byte, r: Bytes, s: Bytes | encode(x) + r == encode(y) + s
      ensures x == y && r == s
    {
      NatPrefix(x, y, r, s);
    }
    ListPrefix(encode, m, n, r, s);
  }

  lemma PathPrefix(m: Path, n: Path, r: Bytes, s: Bytes)
    requires PathText(m) + r == PathText(n) + s
    ensures m == n && r == s
  {
    var encode := (t: string) => Text(t);
    forall x, y, r: Bytes, s: Bytes | encode(x) + r == encode(y) + s
      ensures x == y && r == s
    {
      TextPrefix(x, y, r, s);
    }
    ListPrefix(encode, m, n, r, s);
  }

  lemma MetaInjective(m: FileMeta, n: FileMeta)
    requires Meta(m) == Meta(n)
    ensures m == n
  {
    var flags := (x: FileMeta) => [if x.isDir then 1 else 0, if x.dir.Some? then 1 else 0];
    var path := (x: FileMeta) => if x.dir.Some? then x.dir.value else [];
    var s5 := (x: FileMeta) => Raw(x.salt) + flags(x);
    var s4 := (x: FileMeta) => Raw(x.fek) + s5(x);
    var s3 := (x: FileMeta) => Nat(x.size) + s4(x);
    var s2 := (x: FileMeta) => Text(x.remoteName) + s3(x);
    var s1 := (x: FileMeta) => PathText(path(x)) + s2(x);
    TextPrefix(m.name, n.name, s1(m), s1(n));
    PathPrefix(path(m), path(n), s2(m), s2(n));
    TextPrefix(m.remoteName, n.remoteName, s3(m), s3(n));
    NatPrefix(m.size, n.size, s4(m), s4(n));
    RawPrefix(m.fek, n.fek, s5(m), s5(n));
    RawPrefix(m.salt, n.salt, flags(m), flags(n));
    assert flags(m)[0] == flags(n)[0] && flags(m)[1] == flags(n)[1];
  }

  ghost function Unmeta(b: Bytes): Option<FileMeta> {
    if exists m :: Meta(m) == b then
      var m :| Meta(m) == b;
      Some(m)
    else None
  }

  ghost function Unnat(b: Bytes): Option<nat> {
    if exists n: nat :: Nat(n) == b then
      var n: nat :| Nat(n) == b;
      Some(n)
    else None
  }

  const ZERO_KEY: Bytes :=
    [0, 0, 0, 0, 0, 0, 0, 0, 0, 0, 0, 0, 0, 0, 0, 0, 0, 0, 0, 0, 0, 0, 0, 0, 0, 0, 0, 0, 0, 0, 0, 0]

  ghost function Toy(): (c: Ops)
    ensures Lawful(c)
  {
    var c := Ops(
      m => Meta(m), b => Unmeta(b), (k, b) => b, (k, b) => Some(b), k => Nat(k), b => Unnat(b), s => ZERO_KEY);
    assert forall m :: c.unmarshal(c.marshal(m)) == Some(m) by {
      forall m
        ensures Unmeta(Meta(m)) == Some(m)
      {
        MetaInjective(m, Unmeta(Meta(m)).value);
      }
    }
    assert forall k: nat :: c.fromPem(c.toPem(k)) == Some(k) by {
      forall k: nat
        ensures Unnat(Nat(k)) == Some(k)
      {
        var n := Unnat(Nat(k)).value;
        assert Nat(k) + [] == Nat(n) + [];
        NatPrefix(k, n, [], []);
      }
    }
    c
  }
}

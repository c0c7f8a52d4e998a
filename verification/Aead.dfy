/**
 Authenticated encryption as NIST SP 800-38D sections 7.1 and 7.2 present it, seen from outside:
 every theorem of this project holds for each pair of functions obeying the three laws of Lawful.
 */
module Aead {
  import opened Wrappers
  import opened ByteStrings

  const TAG_SIZE := 16

  datatype Ops = Ops(
    seal: (Bytes, Bytes, Bytes) -> Bytes,
    open: (Bytes, Bytes, Bytes) -> Option<Bytes>)

  ghost predicate Lawful(a: Ops) {
    && (forall k, n, p :: |a.seal(k, n, p)| == |p| + TAG_SIZE)
    && (forall k, n, p :: a.open(k, n, a.seal(k, n, p)) == Some(p))
    && (forall k, n, c :: a.open(k, n, c).Some? ==> c == a.seal(k, n, a.open(k, n, c).value))
  }

  type Cipher = a: Ops | Lawful(a) ghost witness Toy()

  function Seal(a: Cipher, key: Bytes, nonce: Bytes, p: Bytes): (c: Bytes)
    ensures |c| == |p| + TAG_SIZE
    ensures Open(a, key, nonce, c) == Some(p)
  {
    a.seal(key, nonce, p)
  }

  function Open(a: Cipher, key: Bytes, nonce: Bytes, c: Bytes): (r: Option<Bytes>)
    ensures r.Some? ==> c == a.seal(key, nonce, r.value) && |c| == |r.value| + TAG_SIZE
  {
    a.open(key, nonce, c)
  }

  // An instance, so that the laws are known to be consistent: the tag is the key-independent zero tag.
  const ZERO_TAG: Bytes := [0, 0, 0, 0, 0, 0, 0, 0, 0, 0, 0, 0, 0, 0, 0, 0]

  function ToyOpen(c: Bytes): Option<Bytes> {
    if |c| >= TAG_SIZE && c[|c| - TAG_SIZE..] == ZERO_TAG then Some(c[..|c| - TAG_SIZE]) else None
  }

  ghost function Toy(): (a: Ops)
    ensures Lawful(a)
  {
    var a := Ops((k, n, p) => p + ZERO_TAG, (k, n, c) => ToyOpen(c));
    assert forall k, n, p :: a.open(k, n, a.seal(k, n, p)) == Some(p) by {
      forall p: Bytes ensures ToyOpen(p + ZERO_TAG) == Some(p) {
        assert (p + ZERO_TAG)[|p|..] == ZERO_TAG && (p + ZERO_TAG)[..|p|] == p;
      }
    }
    a
  }
}

/** The per-chunk nonce of the stream codec: base nonce XOR big-endian chunk index. */
module Nonces {
  import opened Wrappers
  import opened ByteStrings

  const NONCE_SIZE := 12

  /** Bitwise exclusive or. */
  function Xor(a: nat, b: nat): nat {
    if a == 0 && b == 0 then 0
    else (a + b) % 2 + 2 * Xor(a / 2, b / 2)
  }

  /** Big-endian base-256 digits of i, least significant last. */
  function BigEndian(i: nat, width: nat): (s: Bytes)
    ensures |s| == width
  {
    if width == 0 then [] else BigEndian(i / 256, width - 1) + [i % 256]
  }

  function Power256(width: nat): (n: nat)
    ensures n > 0
  {
    if width == 0 then 1 else 256 * Power256(width - 1)
  }

  /** The twelve bytes that copy(nonce, base) leaves in a zeroed buffer. */
  function Padded(base: Bytes): (s: Bytes)
    ensures |s| == NONCE_SIZE
  {
    seq(NONCE_SIZE, i requires 0 <= i < NONCE_SIZE => if i < |base| then base[i] else 0)
  }

  function ByteXor(a: byte, b: byte): byte {
    XorBound(a, b, 8);
    Xor(a, b)
  }

  /** The nonce of chunk i; the index is a uint64 counter, so it wraps. */
  function Nonce(base: Bytes, i: nat): (s: Bytes)
    ensures |s| == NONCE_SIZE
  {
    var pad := Padded(base);
    var index := BigEndian(i % TWO_TO_64, 8);
    seq(NONCE_SIZE, j requires 0 <= j < NONCE_SIZE => if j < 4 then pad[j] else ByteXor(pad[j], index[j - 4]))
  }

  method DeriveNonce(base: Bytes, chunkIndex: nat) returns (nonce: array<byte>)
    requires chunkIndex < TWO_TO_64
    ensures fresh(nonce)
    ensures nonce[..] == Nonce(base, chunkIndex)
  {
    nonce := new byte[NONCE_SIZE](i => 0);
    for k := 0 to Min(NONCE_SIZE, |base|)
      invariant forall j :: 0 <= j < NONCE_SIZE ==> nonce[j] == if j < k then base[j] else 0
    {
      nonce[k] := base[k];
    }
    var indexBytes := BigEndian(chunkIndex, 8);
    for i := 0 to 8
      invariant forall j :: 0 <= j < NONCE_SIZE ==>
        nonce[j] == if 4 <= j < 4 + i then ByteXor(Padded(base)[j], indexBytes[j - 4]) else Padded(base)[j]
    {
      nonce[4 + i] := ByteXor(nonce[4 + i], indexBytes[i]);
    }
    assert chunkIndex % TWO_TO_64 == chunkIndex;
    assert forall j :: 0 <= j < NONCE_SIZE ==> nonce[j] == Nonce(base, chunkIndex)[j];
  }

  /** The uint64 chunk counter: its successor, and the nonce it stands for. */
  function NextIndex(i: nat): nat {
    (i + 1) % TWO_TO_64
  }

  lemma CounterWraps(base: Bytes, i: nat)
    ensures NextIndex(i % TWO_TO_64) == (i + 1) % TWO_TO_64 < TWO_TO_64
    ensures Nonce(base, i % TWO_TO_64) == Nonce(base, i)
  {
    assert i % TWO_TO_64 % TWO_TO_64 == i % TWO_TO_64;
  }

  function Pow2(k: nat): nat {
    if k == 0 then 1 else 2 * Pow2(k - 1)
  }

  lemma {:induction false} XorBound(a: nat, b: nat, k: nat)
    ensures a < Pow2(k) && b < Pow2(k) ==> Xor(a, b) < Pow2(k)
    ensures Pow2(8) == 256
  {
    if k > 0 && (a > 0 || b > 0) && a < Pow2(k) && b < Pow2(k) {
      XorBound(a / 2, b / 2, k - 1);
    }
    assert Pow2(4) == 16 && Pow2(8) == 16 * Pow2(4);
  }

  lemma ParityCancels(a: nat, b: nat, c: nat, x: nat, y: nat)
    requires (a + b) % 2 + 2 * x == (a + c) % 2 + 2 * y
    ensures x == y && b % 2 == c % 2
  {
  }

  lemma {:induction false} XorCancels(a: nat, b: nat, c: nat)
    requires Xor(a, b) == Xor(a, c)
    ensures b == c
    decreases a + b + c
  {
    if a > 0 || b > 0 || c > 0 {
      var x, y := Xor(a / 2, b / 2), Xor(a / 2, c / 2);
      assert Xor(a, b) == (a + b) % 2 + 2 * x by { assert a > 0 || b > 0 || (x == 0 && Xor(0, 0) == 0); }
      assert Xor(a, c) == (a + c) % 2 + 2 * y by { assert a > 0 || c > 0 || (y == 0 && Xor(0, 0) == 0); }
      ParityCancels(a, b, c, x, y);
      XorCancels(a / 2, b / 2, c / 2);
    }
  }

  lemma {:induction false} BigEndianInjective(i: nat, j: nat, width: nat)
    requires i < Power256(width) && j < Power256(width)
    requires BigEndian(i, width) == BigEndian(j, width)
    ensures i == j
  {
    if width > 0 {
      var s, t := BigEndian(i, width), BigEndian(j, width);
      assert s[..width - 1] == BigEndian(i / 256, width - 1) && t[..width - 1] == BigEndian(j / 256, width - 1);
      assert s[width - 1] == i % 256 && t[width - 1] == j % 256;
      BigEndianInjective(i / 256, j / 256, width - 1);
    }
  }

  /** Section 8 of NIST SP 800-38D: under one key no nonce repeats, here for up to 2^64 chunks of one stream. */
  lemma NoncesDistinct(base: Bytes, i: nat, j: nat)
    requires i < TWO_TO_64 && j < TWO_TO_64
    ensures Nonce(base, i) == Nonce(base, j) <==> i == j
  {
    if Nonce(base, i) == Nonce(base, j) {
      var s, t := BigEndian(i, 8), BigEndian(j, 8);
      assert i % TWO_TO_64 == i && j % TWO_TO_64 == j;
      forall k | 0 <= k < 8
        ensures s[k] == t[k]
      {
        assert Nonce(base, i)[k + 4] == Nonce(base, j)[k + 4];
        XorCancels(Padded(base)[k + 4], s[k], t[k]);
      }
      assert Power256(4) == 0x1_0000_0000 && Power256(8) == Power256(4) * 0x1_0000_0000;
      BigEndianInjective(i, j, 8);
    }
  }

  // The nonce byte by byte and bit by bit, for readers who have neither Nonce nor Xor.

  function Bit(a: nat, b: nat): nat {
    if b == 0 then a % 2 else Bit(a / 2, b - 1)
  }

  /** n is the nonce of chunk k: the base, with the big-endian uint64 k combined into its last eight bytes so that each
      bit is the sum modulo two. */
  ghost predicate IsNonce(n: Bytes, base: Bytes, k: nat) {
    && |n| == 12
    && (forall j :: 0 <= j < 4 ==> n[j] == if j < |base| then base[j] else 0)
    && (forall j, b: nat :: 4 <= j < 12 && b < 8 ==>
          Bit(n[j], b)
          == (Bit(if j < |base| then base[j] else 0, b) + Bit(k % TWO_TO_64 / Power256(11 - j) % 256, b)) % 2)
  }

  lemma {:induction false} XorBit(x: nat, y: nat, b: nat)
    ensures Bit(Xor(x, y), b) == (Bit(x, b) + Bit(y, b)) % 2
    decreases b
  {
    if b > 0 {
      XorBit(x / 2, y / 2, b - 1);
      assert x > 0 || y > 0 ==> Xor(x, y) / 2 == Xor(x / 2, y / 2);
    }
  }

  lemma {:induction false} SameBits(x: nat, y: nat, k: nat)
    requires x < Pow2(k) && y < Pow2(k) && forall b: nat :: b < k ==> Bit(x, b) == Bit(y, b)
    ensures x == y
  {
    if k > 0 {
      assert Bit(x, 0) == Bit(y, 0);
      forall b: nat | b < k - 1
        ensures Bit(x / 2, b) == Bit(y / 2, b)
      {
        assert Bit(x, b + 1) == Bit(y, b + 1);
      }
      SameBits(x / 2, y / 2, k - 1);
    }
  }

  lemma DivDiv(x: nat, b: nat)
    requires b > 0
    ensures x / 256 / b == x / (256 * b)
  {
    var q := x / 256 / b;
    assert q * b <= x / 256 < (q + 1) * b;
    assert 256 * (q * b) <= x < 256 * ((q + 1) * b);
    QuotientIs(x, 256 * b, q);
  }

  lemma QuotientIs(x: nat, d: nat, q: nat)
    requires d > 0 && q * d <= x < (q + 1) * d
    ensures x / d == q
  {
    var r := x / d;
    assert r * d <= x < (r + 1) * d;
    assert r < q ==> (r + 1) * d <= q * d;
    assert q < r ==> (q + 1) * d <= r * d;
  }

  lemma {:induction false} DigitAt(i: nat, width: nat, j: nat)
    requires j < width
    ensures BigEndian(i, width)[j] == i / Power256(width - 1 - j) % 256
  {
    if j < width - 1 {
      DigitAt(i / 256, width - 1, j);
      DivDiv(i, Power256(width - 2 - j));
    }
  }

  /** Exactly one string of bytes is the nonce of a chunk. */
  lemma NonceIs(n: Bytes, base: Bytes, k: nat)
    ensures IsNonce(n, base, k) <==> n == Nonce(base, k)
  {
    var m := Nonce(base, k);
    forall j, b: nat | 4 <= j < 12 && b < 8
      ensures Bit(m[j], b)
           == (Bit(if j < |base| then base[j] else 0, b) + Bit(k % TWO_TO_64 / Power256(11 - j) % 256, b)) % 2
    {
      DigitAt(k % TWO_TO_64, 8, j - 4);
      XorBit(Padded(base)[j], BigEndian(k % TWO_TO_64, 8)[j - 4], b);
    }
    if IsNonce(n, base, k) {
      forall j | 0 <= j < 12
        ensures n[j] == m[j]
      {
        XorBound(0, 0, 8);
        if j >= 4 {
          SameBits(n[j], m[j], 8);
        }
      }
    }
  }
}

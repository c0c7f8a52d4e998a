/** What the stream codec is for: round trips, exact acceptance, and where each chunk lies in the ciphertext. */
module EngineLaws {
  import opened Wrappers
  import opened ByteStrings
  import opened Nonces
  import opened Engines

  lemma {:induction false} EncryptedLength(e: Engine, base: Bytes, i: nat, p: Bytes)
    ensures |e.Encrypt(base, i, p)| == CalculateEncryptedSize(|p|)
    decreases |p|
  {
    if |p| > CHUNK_SIZE {
      EncryptedLength(e, base, i + 1, p[CHUNK_SIZE..]);
    }
  }

  lemma {:induction false} RoundTrip(e: Engine, base: Bytes, i: nat, p: Bytes)
    ensures e.Decrypt(base, i, e.Encrypt(base, i, p)) == Decrypted(p, true)
    decreases |p|
  {
    if p != [] {
      var n := Min(|p|, CHUNK_SIZE);
      var head, tail := e.SealChunk(base, i, p[..n]), e.Encrypt(base, i + 1, p[n..]);
      RoundTrip(e, base, i + 1, p[n..]);
      DecryptHead(e, base, i, p[..n], tail);
      assert p == p[..n] + p[n..];
    }
  }

  /** Decryption of a sealed chunk followed by more: only a chunk of full size can be followed. */
  lemma DecryptHead(e: Engine, base: Bytes, i: nat, p: Bytes, tail: Bytes)
    requires |p| == CHUNK_SIZE || (|p| < CHUNK_SIZE && tail == [])
    ensures var rest := e.Decrypt(base, i + 1, tail);
            e.Decrypt(base, i, e.SealChunk(base, i, p) + tail) == Decrypted(p + rest.out, rest.ok)
  {
    var head := e.SealChunk(base, i, p);
    var c := head + tail;
    assert c[..|head|] == head && c[|head|..] == tail;
    assert Min(|c|, CIPHER_CHUNK_SIZE) == |head|;
  }

  lemma SealedBy(e: Engine, base: Bytes, i: nat, c: Bytes)
    requires e.OpenChunk(base, i, c).Some?
    ensures c == e.SealChunk(base, i, e.OpenChunk(base, i, c).value)
  {
  }

  /** The only ciphertext besides Encrypt(p) that decrypts to p: one sealed empty chunk more, on a chunk boundary. */
  ghost predicate TrailingEmptyChunk(e: Engine, base: Bytes, i: nat, p: Bytes, c: Bytes) {
    && |p| % CHUNK_SIZE == 0
    && c == e.Encrypt(base, i, p) + e.SealChunk(base, i + |p| / CHUNK_SIZE, [])
  }

  lemma {:induction false} AcceptedOnly(e: Engine, base: Bytes, i: nat, c: Bytes)
    requires e.Decrypt(base, i, c).ok
    ensures var p := e.Decrypt(base, i, c).out;
            c == e.Encrypt(base, i, p) || TrailingEmptyChunk(e, base, i, p, c)
    decreases |c|
  {
    if c != [] {
      var n := Min(|c|, CIPHER_CHUNK_SIZE);
      var head := e.OpenChunk(base, i, c[..n]).value;
      var rest := e.Decrypt(base, i + 1, c[n..]).out;
      SealedBy(e, base, i, c[..n]);
      AcceptedOnly(e, base, i + 1, c[n..]);
      assert c == c[..n] + c[n..];
      if head == [] {
        assert c[n..] == [] && rest == [];
      } else {
        EncryptHead(e, base, i, head, rest);
        if |head| == CHUNK_SIZE && TrailingEmptyChunk(e, base, i + 1, rest, c[n..]) {
          TrailingLonger(e, base, i, head, rest, c[..n], c[n..]);
        }
      }
    }
  }

  lemma TrailingLonger(e: Engine, base: Bytes, i: nat, head: Bytes, rest: Bytes, first: Bytes, more: Bytes)
    requires |head| == CHUNK_SIZE && first == e.SealChunk(base, i, head)
    requires TrailingEmptyChunk(e, base, i + 1, rest, more)
    ensures TrailingEmptyChunk(e, base, i, head + rest, first + more)
  {
    EncryptHead(e, base, i, head, rest);
    MoreChunks(|rest|);
    Associative(first, e.Encrypt(base, i + 1, rest), e.SealChunk(base, i + 1 + |rest| / CHUNK_SIZE, []));
  }

  lemma MoreChunks(n: nat)
    ensures (CHUNK_SIZE + n) / CHUNK_SIZE == 1 + n / CHUNK_SIZE && (CHUNK_SIZE + n) % CHUNK_SIZE == n % CHUNK_SIZE
  {
  }

  lemma EncryptHead(e: Engine, base: Bytes, i: nat, head: Bytes, rest: Bytes)
    requires |head| == CHUNK_SIZE || (0 < |head| < CHUNK_SIZE && rest == [])
    ensures e.Encrypt(base, i, head + rest) == e.SealChunk(base, i, head) + e.Encrypt(base, i + 1, rest)
  {
    var p := head + rest;
    assert p[..|head|] == head && p[|head|..] == rest;
  }

  lemma {:induction false} TrailingAccepted(e: Engine, base: Bytes, i: nat, p: Bytes)
    requires |p| % CHUNK_SIZE == 0
    ensures var last := e.SealChunk(base, i + |p| / CHUNK_SIZE, []);
            e.Decrypt(base, i, e.Encrypt(base, i, p) + last) == Decrypted(p, true)
    decreases |p|
  {
    var last := e.SealChunk(base, i + |p| / CHUNK_SIZE, []);
    if p == [] {
      DecryptHead(e, base, i, [], []);
      assert last + [] == last == [] + last;
    } else {
      MoreChunks(|p| - CHUNK_SIZE);
      var head, tail := p[..CHUNK_SIZE], p[CHUNK_SIZE..];
      TrailingAccepted(e, base, i + 1, tail);
      Associative(e.SealChunk(base, i, head), e.Encrypt(base, i + 1, tail), last);
      DecryptHead(e, base, i, head, e.Encrypt(base, i + 1, tail) + last);
      assert p == head + tail;
    }
  }

  /** DecryptStream accepts c with output p exactly when c encrypts p, up to one trailing empty chunk. */
  lemma AcceptsExactly(e: Engine, base: Bytes, i: nat, c: Bytes, p: Bytes)
    ensures e.Decrypt(base, i, c) == Decrypted(p, true)
       <==> c == e.Encrypt(base, i, p) || TrailingEmptyChunk(e, base, i, p, c)
  {
    if e.Decrypt(base, i, c) == Decrypted(p, true) {
      AcceptedOnly(e, base, i, c);
    }
    RoundTrip(e, base, i, p);
    if TrailingEmptyChunk(e, base, i, p, c) {
      TrailingAccepted(e, base, i, p);
    }
  }

  lemma CutTwice(p: Bytes, n: nat, m: nat)
    requires n + m <= |p|
    ensures p == p[..n] + p[n..] && p[..n + m] == p[..n] + p[n..][..m] && p[n..][m..] == p[n + m..]
  {
  }

  /** Cutting the plaintext at a chunk boundary cuts the ciphertext at the matching boundary. */
  lemma {:induction false} EncryptSplit(e: Engine, base: Bytes, i: nat, p: Bytes, k: nat)
    requires k * CHUNK_SIZE <= |p|
    ensures e.Encrypt(base, i, p)
         == e.Encrypt(base, i, p[..k * CHUNK_SIZE]) + e.Encrypt(base, i + k, p[k * CHUNK_SIZE..])
    decreases k
  {
    if k == 0 {
      assert p[..0] == [] && p[0..] == p;
    } else {
      EncryptSplit(e, base, i + 1, p[CHUNK_SIZE..], k - 1);
      SplitFurther(e, base, i, p, k);
    }
  }

  lemma SplitFurther(e: Engine, base: Bytes, i: nat, p: Bytes, k: nat)
    requires k > 0 && k * CHUNK_SIZE <= |p|
    requires var tail, m := p[CHUNK_SIZE..], (k - 1) * CHUNK_SIZE;
             e.Encrypt(base, i + 1, tail) == e.Encrypt(base, i + 1, tail[..m]) + e.Encrypt(base, i + k, tail[m..])
    ensures e.Encrypt(base, i, p)
         == e.Encrypt(base, i, p[..k * CHUNK_SIZE]) + e.Encrypt(base, i + k, p[k * CHUNK_SIZE..])
  {
    var head, tail, m := p[..CHUNK_SIZE], p[CHUNK_SIZE..], (k - 1) * CHUNK_SIZE;
    CutTwice(p, CHUNK_SIZE, m);
    EncryptHead(e, base, i, head, tail);
    EncryptHead(e, base, i, head, tail[..m]);
    Associative(e.SealChunk(base, i, head), e.Encrypt(base, i + 1, tail[..m]), e.Encrypt(base, i + k, tail[m..]));
  }

  lemma SizeOfFullChunks(k: nat, n: nat)
    requires k * CHUNK_SIZE <= n
    ensures CalculateEncryptedSize(k * CHUNK_SIZE) == k * CIPHER_CHUNK_SIZE <= CalculateEncryptedSize(n)
  {
  }

  /** The encryption of the first b chunks is a prefix of the ciphertext. */
  lemma PrefixWindow(e: Engine, base: Bytes, p: Bytes, b: nat, end: nat)
    requires end == Min(b * CHUNK_SIZE, |p|)
    ensures var c, front := e.Encrypt(base, 0, p), e.Encrypt(base, 0, p[..end]);
            |front| == CalculateEncryptedSize(end) <= |c| && c[..|front|] == front
  {
    EncryptedLength(e, base, 0, p[..end]);
    if end < |p| {
      EncryptSplit(e, base, 0, p, b);
    } else {
      assert p[..end] == p;
    }
  }

  /** The encryption of everything from chunk a on is a suffix of the ciphertext. */
  lemma SuffixWindow(e: Engine, base: Bytes, p: Bytes, a: nat)
    requires a * CHUNK_SIZE <= |p|
    ensures var c := e.Encrypt(base, 0, p);
            && a * CIPHER_CHUNK_SIZE <= |c|
            && c[a * CIPHER_CHUNK_SIZE..] == e.Encrypt(base, a, p[a * CHUNK_SIZE..])
  {
    EncryptSplit(e, base, 0, p, a);
    EncryptedLength(e, base, 0, p[..a * CHUNK_SIZE]);
    SizeOfFullChunks(a, |p|);
  }

  /** Ciphertext bytes from chunk a up to the end of chunk b - 1 encrypt exactly those chunks, counted from a. */
  lemma CipherWindow(e: Engine, base: Bytes, p: Bytes, a: nat, b: nat)
    requires a <= b && a * CHUNK_SIZE <= |p|
    ensures var end := Min(b * CHUNK_SIZE, |p|);
            var lo, hi := a * CIPHER_CHUNK_SIZE, CalculateEncryptedSize(end);
            && lo <= hi <= |e.Encrypt(base, 0, p)| == CalculateEncryptedSize(|p|)
            && e.Encrypt(base, 0, p)[lo..hi] == e.Encrypt(base, a, p[a * CHUNK_SIZE..end])
  {
    var end := Min(b * CHUNK_SIZE, |p|);
    var lo, hi := a * CIPHER_CHUNK_SIZE, CalculateEncryptedSize(end);
    var c, q := e.Encrypt(base, 0, p), p[..end];
    EncryptedLength(e, base, 0, p);
    PrefixWindow(e, base, p, b, end);
    SizeOfFullChunks(a, end);
    SuffixWindow(e, base, q, a);
    assert q[a * CHUNK_SIZE..] == p[a * CHUNK_SIZE..end];
    assert c[lo..hi] == c[..hi][lo..];
  }

  /** A window of any accepted ciphertext decrypts, counting from its first chunk, to that stretch of the plaintext. */
  lemma WindowDecrypts(e: Engine, base: Bytes, c: Bytes, a: nat, b: nat)
    requires e.Decrypt(base, 0, c).ok && a <= b && a * CHUNK_SIZE <= |e.Decrypt(base, 0, c).out|
    ensures var p := e.Decrypt(base, 0, c).out;
            var end := Min(b * CHUNK_SIZE, |p|);
            var lo, hi := a * CIPHER_CHUNK_SIZE, CalculateEncryptedSize(end);
            && lo <= hi <= CalculateEncryptedSize(|p|) <= |c|
            && e.Decrypt(base, a, c[lo..hi]) == Decrypted(p[a * CHUNK_SIZE..end], true)
  {
    var p := e.Decrypt(base, 0, c).out;
    var end := Min(b * CHUNK_SIZE, |p|);
    var lo, hi := a * CIPHER_CHUNK_SIZE, CalculateEncryptedSize(end);
    var sealed := e.Encrypt(base, 0, p);
    AcceptedOnly(e, base, 0, c);
    CipherWindow(e, base, p, a, b);
    assert sealed <= c;
    PrefixSlice(c, sealed, lo, hi);
    RoundTrip(e, base, a, p[a * CHUNK_SIZE..end]);
  }

  // The format of a ciphertext, in terms of the cipher alone.

  /** c is p sealed under the key and the nonce of chunk k. */
  ghost predicate IsSealed(e: Engine, base: Bytes, k: nat, p: Bytes, c: Bytes) {
    exists n :: IsNonce(n, base, k) && c == e.cipher.seal(e.key, n, p)
  }

  /** c does not open under the key and the nonce of chunk k. */
  ghost predicate IsRefused(e: Engine, base: Bytes, k: nat, c: Bytes) {
    exists n :: IsNonce(n, base, k) && e.cipher.open(e.key, n, c) == None
  }

  /** Chunk k of the ciphertext is the k-th 64 KiB of the plaintext, sealed under the key and the nonce of chunk k. */
  lemma ChunkFormat(e: Engine, base: Bytes, p: Bytes, k: nat)
    requires k * 65536 < |p|
    ensures var c := e.Encrypt(base, 0, p);
            && k * 65552 <= Min((k + 1) * 65552, |c|)
            && IsSealed(e, base, k, p[k * 65536..Min((k + 1) * 65536, |p|)], c[k * 65552..Min((k + 1) * 65552, |c|)])
  {
    var c, end := e.Encrypt(base, 0, p), Min((k + 1) * CHUNK_SIZE, |p|);
    var chunk := p[k * CHUNK_SIZE..end];
    CipherWindow(e, base, p, k, k + 1);
    LastOfFull(|p|, k);
    SealedAlone(e, base, k, chunk);
  }

  lemma SealedAlone(e: Engine, base: Bytes, k: nat, p: Bytes)
    requires 0 < |p| <= CHUNK_SIZE
    ensures IsSealed(e, base, k, p, e.Encrypt(base, k, p))
  {
    assert p[..|p|] == p && p[|p|..] == [];
    assert e.Encrypt(base, k, p) == e.SealChunk(base, k, p) + [];
    NonceIs(Nonce(base, k), base, k);
  }

  /** Where the sealed chunk k ends. */
  lemma LastOfFull(n: nat, k: nat)
    requires k * CHUNK_SIZE < n
    ensures CalculateEncryptedSize(Min((k + 1) * CHUNK_SIZE, n))
         == Min((k + 1) * CIPHER_CHUNK_SIZE, CalculateEncryptedSize(n))
  {
  }

  /** Under one key no two chunks of a stream are sealed with the same nonce. */
  lemma ChunkNoncesDiffer(base: Bytes, k: nat, l: nat, n: Bytes, m: Bytes)
    requires k < TWO_TO_64 && l < TWO_TO_64 && IsNonce(n, base, k) && IsNonce(m, base, l)
    ensures n == m <==> k == l
  {
    assert n == Nonce(base, k) by {
      NonceIs(n, base, k);
    }
    assert m == Nonce(base, l) by {
      NonceIs(m, base, l);
    }
    NoncesDistinct(base, k, l);
  }

  /** A ciphertext is refused at the first chunk that the cipher does not open under the nonce of that chunk; what was
      written is what the chunks before it encrypt. */
  lemma {:induction false} RefusedAt(e: Engine, base: Bytes, i: nat, c: Bytes)
    requires !e.Decrypt(base, i, c).ok
    ensures RefusedAfter(e, base, i, c, e.Decrypt(base, i, c).out)
    decreases |c|
  {
    var n := Min(|c|, CIPHER_CHUNK_SIZE);
    var head := e.OpenChunk(base, i, c[..n]);
    if head.Some? {
      RefusedAt(e, base, i + 1, c[n..]);
      SealedBy(e, base, i, c[..n]);
      RefusedLater(e, base, i, c, head.value, e.Decrypt(base, i + 1, c[n..]).out);
    } else {
      NonceIs(Nonce(base, i), base, i);
      assert c[..0] == [] && c[0..n] == c[..n];
    }
  }

  /** The output out is all that came before the refusal. */
  ghost predicate RefusedAfter(e: Engine, base: Bytes, i: nat, c: Bytes, out: Bytes) {
    var k := |out| / 65536;
    && |out| == k * 65536 && k * 65552 < |c| && c[..k * 65552] == e.Encrypt(base, i, out)
    && IsRefused(e, base, i + k, c[k * 65552..Min((k + 1) * 65552, |c|)])
  }

  lemma RefusedLater(e: Engine, base: Bytes, i: nat, c: Bytes, head: Bytes, rest: Bytes)
    requires |c| > CIPHER_CHUNK_SIZE && |head| == CHUNK_SIZE
    requires c[..CIPHER_CHUNK_SIZE] == e.SealChunk(base, i, head)
    requires RefusedAfter(e, base, i + 1, c[CIPHER_CHUNK_SIZE..], rest)
    ensures RefusedAfter(e, base, i, c, head + rest)
  {
    EncryptHead(e, base, i, head, rest);
    MoreChunks(|rest|);
    OneChunkOn(c, |rest| / CHUNK_SIZE);
  }

  lemma OneChunkOn(c: Bytes, k: nat)
    requires CIPHER_CHUNK_SIZE + k * CIPHER_CHUNK_SIZE < |c|
    ensures var t := c[CIPHER_CHUNK_SIZE..];
            && c[..CIPHER_CHUNK_SIZE] + t[..k * CIPHER_CHUNK_SIZE] == c[..(1 + k) * CIPHER_CHUNK_SIZE]
            && t[k * CIPHER_CHUNK_SIZE..Min((k + 1) * CIPHER_CHUNK_SIZE, |t|)]
               == c[(1 + k) * CIPHER_CHUNK_SIZE..Min((k + 2) * CIPHER_CHUNK_SIZE, |c|)]
  {
  }

  /** Up to 64 KiB are sealed as one chunk, under the base nonce. */
  lemma OneChunk(e: Engine, base: Bytes, p: Bytes)
    requires |base| == 12 && 0 < |p| <= 65536
    ensures e.Encrypt(base, 0, p) == e.cipher.seal(e.key, base, p)
  {
    ChunkFormat(e, base, p, 0);
    EncryptedLength(e, base, 0, p);
    var c := e.Encrypt(base, 0, p);
    assert c[0..|c|] == c && p[0..|p|] == p;
    NonceIs(base, base, 0);
    NonceIs(Nonce(base, 0), base, 0);
    ZeroIndex(base);
  }

  /** And are opened as one chunk. */
  lemma OneChunkOpens(e: Engine, base: Bytes, c: Bytes)
    requires |base| == 12 && 0 < |c| <= 65552
    ensures e.Decrypt(base, 0, c)
         == match e.cipher.open(e.key, base, c)
            case None => Decrypted([], false)
            case Some(p) => Decrypted(p, true)
  {
    ZeroIndex(base);
    assert c[..|c|] == c && c[|c|..] == [];
    if e.OpenChunk(base, 0, c).Some? {
      assert e.OpenChunk(base, 0, c).value + [] == e.OpenChunk(base, 0, c).value;
    }
  }

  lemma ZeroIndex(base: Bytes)
    requires |base| == 12
    ensures Nonce(base, 0) == base
  {
    forall j, b: nat | 4 <= j < 12 && b < 8
      ensures Bit(base[j], b) == (Bit(base[j], b) + Bit(0 / Power256(11 - j) % 256, b)) % 2
    {
      NoBits(b);
      BitOfBit(base[j], b);
    }
    NonceIs(base, base, 0);
  }

  lemma {:induction false} NoBits(b: nat)
    ensures Bit(0, b) == 0
  {
    if b > 0 {
      NoBits(b - 1);
    }
  }

  lemma {:induction false} BitOfBit(a: nat, b: nat)
    ensures Bit(a, b) < 2
    decreases b
  {
    if b > 0 {
      BitOfBit(a / 2, b - 1);
    }
  }
}

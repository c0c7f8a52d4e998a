/** The chunked stream codec of the crypto engine. */
module Engines {
  import opened Wrappers
  import opened ByteStrings
  import opened Aead
  import opened Nonces
  import opened Streams

  const CHUNK_SIZE := 65536         // 64 KiB
  const CIPHER_CHUNK_SIZE := 65552  // CHUNK_SIZE + TAG_SIZE
  const KEY_SIZE := 32

  datatype EngineError = InvalidKey | DecryptFail | ReadFailed

  datatype Ending = Returned(err: Option<EngineError>) | Panicked

  function CalculateEncryptedSize(n: nat): nat {
    if n == 0 then 0 else n + (n + CHUNK_SIZE - 1) / CHUNK_SIZE * TAG_SIZE
  }

  /** What a decryption wrote before it ended, and whether it ended well. */
  datatype Decrypted = Decrypted(out: Bytes, ok: bool)

  datatype Engine = Engine(cipher: Cipher, key: Bytes)
  {
    function SealChunk(base: Bytes, i: nat, p: Bytes): (c: Bytes)
      ensures |c| == |p| + TAG_SIZE && OpenChunk(base, i, c) == Some(p)
    {
      Seal(cipher, key, Nonce(base, i), p)
    }

    function OpenChunk(base: Bytes, i: nat, c: Bytes): (r: Option<Bytes>)
      ensures r.Some? ==> |c| == |r.value| + TAG_SIZE
    {
      Open(cipher, key, Nonce(base, i), c)
    }

    /** The ciphertext of p when its first chunk has index i. */
    function Encrypt(base: Bytes, i: nat, p: Bytes): Bytes
      decreases |p|
    {
      if p == [] then [] else
        var n := Min(|p|, CHUNK_SIZE);
        SealChunk(base, i, p[..n]) + Encrypt(base, i + 1, p[n..])
    }

    /** The chunks of c opened in order, up to the first that does not open. */
    function Decrypt(base: Bytes, i: nat, c: Bytes): Decrypted
      decreases |c|
    {
      if c == [] then Decrypted([], true) else
        var n := Min(|c|, CIPHER_CHUNK_SIZE);
        match OpenChunk(base, i, c[..n])
        case None => Decrypted([], false)
        case Some(p) =>
          var rest := Decrypt(base, i + 1, c[n..]);
          Decrypted(p + rest.out, rest.ok)
    }

    lemma EncryptStep(written: Bytes, base: Bytes, i: nat, p: Bytes, c: Bytes, n: nat)
      requires p != [] && n == Min(|p|, CHUNK_SIZE) && c == SealChunk(base, i, p[..n])
      ensures written + c + Encrypt(base, i + 1, p[n..]) == written + Encrypt(base, i, p)
    {
    }

    method EncryptStream(r: Reader, w: Writer, base: Bytes) returns (err: Option<EngineError>)
      requires r.Valid()
      modifies r, w
      ensures r.Valid() && r.Rest() == [] && r.counted == old(r.counted) + |old(r.Rest())|
      ensures w.data == old(w.data) + Encrypt(base, 0, old(r.Rest()))
      ensures err == if r.end == Eof then None else Some(ReadFailed)
    {
      var buf := new byte[CHUNK_SIZE];
      var chunkIndex: nat := 0;
      ghost var i: nat := 0;
      ghost var total := w.data + Encrypt(base, 0, r.Rest());
      ghost var goal := r.counted + |r.Rest()|;
      while true
        invariant r.Valid() && chunkIndex == i % TWO_TO_64 < TWO_TO_64
        invariant w.data + Encrypt(base, i, r.Rest()) == total
        invariant r.counted + |r.Rest()| == goal
        decreases |r.Rest()|
      {
        ghost var rest := r.Rest();
        var n, e := r.ReadFull(buf);
        if n > 0 {
          var nonce := DeriveNonce(base, chunkIndex);
          var ciphertext := Seal(cipher, key, nonce[..], buf[..n]);
          CounterWraps(base, i);
          assert ciphertext == SealChunk(base, i, rest[..n]);
          EncryptStep(w.data, base, i, rest, ciphertext, n);
          w.Write(ciphertext);
          chunkIndex, i := NextIndex(chunkIndex), i + 1;
        }
        if e == Eof || e == UnexpectedEof {
          return None;
        }
        if e != NoError {
          return Some(ReadFailed);
        }
      }
    }

    lemma DecryptStep(written: Bytes, base: Bytes, i: nat, c: Bytes, n: nat)
      requires c != [] && n == Min(|c|, CIPHER_CHUNK_SIZE) && OpenChunk(base, i, c[..n]).Some?
      ensures var p, rest := OpenChunk(base, i, c[..n]).value, Decrypt(base, i + 1, c[n..]);
              && Decrypt(base, i, c).ok == rest.ok
              && written + p + rest.out == written + Decrypt(base, i, c).out
    {
    }

    method DecryptStreamFrom(r: Reader, w: Writer, base: Bytes, startChunkIndex: nat)
      returns (err: Option<EngineError>)
      requires r.Valid() && startChunkIndex < TWO_TO_64
      modifies r, w
      ensures r.Valid()
      ensures var d := Decrypt(base, startChunkIndex, old(r.Rest()));
              && w.data == old(w.data) + d.out
              && err == if !d.ok then Some(DecryptFail) else if r.end == Eof then None else Some(ReadFailed)
    {
      var buf := new byte[CIPHER_CHUNK_SIZE];
      var chunkIndex := startChunkIndex;
      ghost var i: nat := startChunkIndex;
      ghost var d := Decrypt(base, startChunkIndex, r.Rest());
      ghost var w0 := w.data;
      while true
        invariant r.Valid() && chunkIndex == i % TWO_TO_64 < TWO_TO_64
        invariant var rest := Decrypt(base, i, r.Rest());
                  w.data + rest.out == w0 + d.out && rest.ok == d.ok
        decreases |r.Rest()|
      {
        ghost var rest := r.Rest();
        var n, e := r.ReadFull(buf);
        if n > 0 {
          var nonce := DeriveNonce(base, chunkIndex);
          var plaintext := Open(cipher, key, nonce[..], buf[..n]);
          CounterWraps(base, i);
          assert plaintext == OpenChunk(base, i, rest[..n]);
          if plaintext.None? {
            return Some(DecryptFail);
          }
          DecryptStep(w.data, base, i, rest, n);
          w.Write(plaintext.value);
          chunkIndex, i := NextIndex(chunkIndex), i + 1;
        }
        if e == Eof || e == UnexpectedEof {
          return None;
        }
        if e != NoError {
          return Some(ReadFailed);
        }
      }
    }

    method DecryptStream(r: Reader, w: Writer, base: Bytes) returns (err: Option<EngineError>)
      requires r.Valid()
      modifies r, w
      ensures r.Valid()
      ensures var d := Decrypt(base, 0, old(r.Rest()));
              && w.data == old(w.data) + d.out
              && err == if !d.ok then Some(DecryptFail) else if r.end == Eof then None else Some(ReadFailed)
    {
      err := DecryptStreamFrom(r, w, base, 0);
    }

    /** What the range loop writes from chunk i on, and how it ends. */
    function RangeFrom(base: Bytes, r: Bytes, i: nat, start: nat, length: nat): (Bytes, Ending)
      decreases LastChunk(start, length) + 1 - i
    {
      if i > LastChunk(start, length) then ([], Returned(None)) else
        var (c, e) := ReadAt(r, CIPHER_CHUNK_SIZE, WrapInt64(i * CIPHER_CHUNK_SIZE));
        if c == [] && e != NoError then ([], Returned(if e == Eof then None else Some(ReadFailed))) else
          match OpenChunk(base, i, c)
          case None => ([], Returned(Some(DecryptFail)))
          case Some(p) =>
            match Share(p, i, start, length)
            case None => ([], Panicked)
            case Some(share) =>
              var (out, end) := RangeFrom(base, r, i + 1, start, length);
              (share + out, end)
    }

    method DecryptRange(r: Bytes, w: Writer, base: Bytes, start: nat, length: nat) returns (end: Ending)
      requires start < TWO_TO_63 && length < TWO_TO_63
      modifies w
      ensures var (out, e) := RangeFrom(base, r, start / CHUNK_SIZE, start, length);
              w.data == old(w.data) + out && end == e
    {
      var startChunk := start / CHUNK_SIZE;
      var endChunk := startChunk;
      if length > 0 {
        endChunk := ToUint64(TruncDiv(WrapInt64(start + length - 1), CHUNK_SIZE));
      }
      ghost var all := RangeFrom(base, r, startChunk, start, length);
      ghost var rest := all;
      var i := startChunk;
      while i <= endChunk
        invariant startChunk <= i && (i <= endChunk + 1 || i == startChunk)
        invariant rest == RangeFrom(base, r, i, start, length)
        invariant w.data + rest.0 == old(w.data) + all.0
        invariant rest.1 == all.1
        decreases endChunk + 1 - i
      {
        var (cipherBuf, e) := ReadAt(r, CIPHER_CHUNK_SIZE, WrapInt64(i * CIPHER_CHUNK_SIZE));
        if cipherBuf == [] && e != NoError {
          if e == Eof {
            break;
          }
          return Returned(Some(ReadFailed));
        }
        var nonce := DeriveNonce(base, i);
        var plaintext := Open(cipher, key, nonce[..], cipherBuf);
        if plaintext.None? {
          return Returned(Some(DecryptFail));
        }
        ghost var next := RangeFrom(base, r, i + 1, start, length);
        ghost var share := Share(plaintext.value, i, start, length);
        assert rest.0 == if share.Some? then share.value + next.0 else [];
        assert rest.1 == if share.Some? then next.1 else Panicked;
        ghost var before := w.data;
        var ok := WriteShare(w, plaintext.value, i, start, length);
        if !ok {
          return Panicked;
        }
        Associative(before, share.value, next.0);
        assert w.data + next.0 == before + rest.0;
        i, rest := i + 1, next;
      }
      return Returned(None);
    }

    /** Without overflow of its offsets, the loop stops past its last chunk or at the end of r, and otherwise opens
        chunk i and takes what is due of it, unless the upper bound of the slice has wrapped around. */
    lemma RangeUnfolds(base: Bytes, r: Bytes, i: nat, start: nat, length: nat)
      requires Arrives(r, i, start, length)
      ensures var all := RangeFrom(base, r, i, start, length);
              if i > LastChunk(start, length) || i * CIPHER_CHUNK_SIZE >= |r| then all == ([], Returned(None))
              else
                && (i * CHUNK_SIZE < start + length || i == start / CHUNK_SIZE)
                && match OpenChunk(base, i, CipherPiece(r, i))
                   case None => all == ([], Returned(Some(DecryptFail)))
                   case Some(p) =>
                     var next := RangeFrom(base, r, i + 1, start, length);
                     all == if CutsBackwards(p, i, start, length) then ([], Panicked)
                            else (Due(p, i, start, length) + next.0, next.1)
    {
      ArriveNext(r, i, start, length);
      if i <= LastChunk(start, length) && i * CIPHER_CHUNK_SIZE < |r| {
        var chunk := OpenChunk(base, i, CipherPiece(r, i));
        if chunk.Some? {
          ShareIsDue(chunk.value, i, start, length);
        }
      }
    }

    /** What the loop has written up to chunk i and what it writes from there on make up the requested slice. */
    ghost predicate Completes(base: Bytes, r: Bytes, i: nat, start: nat, length: nat) {
      var out, rest := Decrypt(base, 0, r).out, RangeFrom(base, r, i, start, length);
      rest.1 == Returned(None) && RangeSoFar(out, i, start, length) + rest.0 == Wanted(out, start, length)
    }

    lemma {:induction false} RangeCompletes(base: Bytes, r: Bytes, i: nat, start: nat, length: nat)
      requires Decrypt(base, 0, r).ok && Arrives(r, i, start, length)
      requires i == start / CHUNK_SIZE ==> !Overruns(start, length) || start >= |Decrypt(base, 0, r).out|
      ensures Completes(base, r, i, start, length)
      decreases LastChunk(start, length) + 1 - i
    {
      ArriveNext(r, i, start, length);
      if i > LastChunk(start, length) || i * CIPHER_CHUNK_SIZE >= |r| {
        RangeUnfolds(base, r, i, start, length);
        RangeEnds(base, r, i, start, length);
        assert Wanted(Decrypt(base, 0, r).out, start, length) + [] == Wanted(Decrypt(base, 0, r).out, start, length);
      } else {
        RangeCompletes(base, r, i + 1, start, length);
        ChunkCompletes(base, r, i, start, length);
      }
    }

    lemma ChunkCompletes(base: Bytes, r: Bytes, i: nat, start: nat, length: nat)
      requires Decrypt(base, 0, r).ok && Arrives(r, i, start, length)
      requires i == start / CHUNK_SIZE ==> !Overruns(start, length) || start >= |Decrypt(base, 0, r).out|
      requires i <= LastChunk(start, length) && i * CIPHER_CHUNK_SIZE < |r|
      requires Completes(base, r, i + 1, start, length)
      ensures Completes(base, r, i, start, length)
    {
      RangeUnfolds(base, r, i, start, length);
      RangeTurn(base, r, i, start, length);
      Associative(RangeSoFar(Decrypt(base, 0, r).out, i, start, length),
                  Due(OpenChunk(base, i, CipherPiece(r, i)).value, i, start, length),
                  RangeFrom(base, r, i + 1, start, length).0);
    }

    /** When the offset of the first chunk stays inside int64, an accepted ciphertext makes the call panic exactly
        when the slice bound wraps around and there is a byte at start; otherwise the slice is written in full. */
    lemma RangeServes(base: Bytes, r: Bytes, start: nat, length: nat)
      requires Decrypt(base, 0, r).ok && Arrives(r, start / CHUNK_SIZE, start, length)
      ensures var out := Decrypt(base, 0, r).out;
              RangeFrom(base, r, start / CHUNK_SIZE, start, length)
              == if Overruns(start, length) && start < |out| then ([], Panicked)
                 else (Wanted(out, start, length), Returned(None))
    {
      var out, k := Decrypt(base, 0, r).out, start / CHUNK_SIZE;
      if Overruns(start, length) && start < |out| {
        if k * CIPHER_CHUNK_SIZE >= |r| {
          NothingBeyond(base, 0, r, k);
        }
        ArriveNext(r, k, start, length);
        RangeUnfolds(base, r, k, start, length);
        RangeTurn(base, r, k, start, length);
      } else {
        RangeCompletes(base, r, k, start, length);
        RangeStarts(out, start, length);
        var rest := RangeFrom(base, r, k, start, length);
        assert [] + rest.0 == rest.0;
        assert rest == (rest.0, rest.1);
      }
    }

    /** DecryptRange against decrypting everything and slicing, for all start and length. */
    lemma RangeIsSlice(base: Bytes, r: Bytes, start: nat, length: nat)
      requires Decrypt(base, 0, r).ok && |r| + CIPHER_CHUNK_SIZE < TWO_TO_63
      requires start < TWO_TO_63 && length < TWO_TO_63
      ensures var out := Decrypt(base, 0, r).out;
              RangeFrom(base, r, start / CHUNK_SIZE, start, length)
              == if OffsetOverflows(start, length) then ([], Returned(Some(ReadFailed)))
                 else if Overruns(start, length) && start < |out| then ([], Panicked)
                 else (Wanted(out, start, length), Returned(None))
    {
      var out, k := Decrypt(base, 0, r).out, start / CHUNK_SIZE;
      if k * CIPHER_CHUNK_SIZE < TWO_TO_63 {
        LastChunkEnds(k, start, length);
        RangeServes(base, r, start, length);
      } else {
        NothingBeyond(base, 0, r, k);
        FirstChunkOverflows(base, r, start, length);
        assert Wanted(out, start, length) == [];
      }
    }

    lemma FirstChunkOverflows(base: Bytes, r: Bytes, start: nat, length: nat)
      requires start < TWO_TO_63 && length < TWO_TO_63 && start / CHUNK_SIZE * CIPHER_CHUNK_SIZE >= TWO_TO_63
      ensures RangeFrom(base, r, start / CHUNK_SIZE, start, length)
           == ([], Returned(if OffsetOverflows(start, length) then Some(ReadFailed) else None))
    {
      LastChunkWraps(start, length);
      assert WrapInt64(start / CHUNK_SIZE * CIPHER_CHUNK_SIZE) < 0;
    }

    /** Asking for everything from byte 1 on, with the largest length there is, panics on any longer file. */
    lemma OneToTheEnd(base: Bytes, r: Bytes)
      requires Decrypt(base, 0, r).ok && |r| + CIPHER_CHUNK_SIZE < TWO_TO_63 && |Decrypt(base, 0, r).out| > 1
      ensures RangeFrom(base, r, 0, 1, TWO_TO_63 - 1) == ([], Panicked)
    {
      RangeIsSlice(base, r, 1, TWO_TO_63 - 1);
    }

    /** The offset of the last byte that int64 can name is out of reach: asking for that byte is a read error. */
    lemma LastByteFails(base: Bytes, r: Bytes)
      ensures RangeFrom(base, r, (TWO_TO_63 - 1) / CHUNK_SIZE, TWO_TO_63 - 1, 1) == ([], Returned(Some(ReadFailed)))
    {
      FirstChunkOverflows(base, r, TWO_TO_63 - 1, 1);
    }

    ghost predicate ChunkFails(base: Bytes, r: Bytes, k: nat) {
      k * CIPHER_CHUNK_SIZE < |r| && OpenChunk(base, k, CipherPiece(r, k)).None?
    }

    /** The first chunk opens, and its slice bound has wrapped around. */
    ghost predicate Panics(base: Bytes, r: Bytes, start: nat, length: nat) {
      var k := start / CHUNK_SIZE;
      k * CIPHER_CHUNK_SIZE < |r| &&
      match OpenChunk(base, k, CipherPiece(r, k))
      case None => false
      case Some(p) => CutsBackwards(p, k, start, length)
    }

    /** On any ciphertext, a range is refused exactly when one of the chunks it reaches does not open. */
    lemma {:induction false} RangeFails(base: Bytes, r: Bytes, i: nat, start: nat, length: nat)
      requires Arrives(r, i, start, length)
      ensures RangeFrom(base, r, i, start, length).1
           == if i == start / CHUNK_SIZE && Panics(base, r, start, length) then Panicked
              else if exists k {:trigger ChunkFails(base, r, k)} ::
                i <= k <= LastChunk(start, length) && ChunkFails(base, r, k) then Returned(Some(DecryptFail))
              else Returned(None)
      decreases LastChunk(start, length) + 1 - i
    {
      ArriveNext(r, i, start, length);
      RangeUnfolds(base, r, i, start, length);
      if i <= LastChunk(start, length) && i * CIPHER_CHUNK_SIZE < |r| {
        assert ChunkFails(base, r, i) <==> OpenChunk(base, i, CipherPiece(r, i)).None?;
        if !ChunkFails(base, r, i) {
          RangeFails(base, r, i + 1, start, length);
        }
      }
    }

    /** On any ciphertext, reading itself fails exactly when the offset of the first sealed chunk leaves int64. */
    lemma RangeOverflows(base: Bytes, r: Bytes, start: nat, length: nat)
      requires |r| + CIPHER_CHUNK_SIZE < TWO_TO_63 && start < TWO_TO_63 && length < TWO_TO_63
      ensures OffsetOverflows(start, length)
         <==> RangeFrom(base, r, start / CHUNK_SIZE, start, length).1 == Returned(Some(ReadFailed))
    {
      var k := start / CHUNK_SIZE;
      if k * CIPHER_CHUNK_SIZE < TWO_TO_63 {
        LastChunkEnds(k, start, length);
        RangeFails(base, r, k, start, length);
      } else {
        FirstChunkOverflows(base, r, start, length);
      }
    }

    /** The chunk the loop is at opens, and writing what is due of it keeps RangeSoFar. */
    lemma RangeTurn(base: Bytes, r: Bytes, i: nat, start: nat, length: nat)
      requires Decrypt(base, 0, r).ok
      requires start / CHUNK_SIZE <= i && (i * CHUNK_SIZE < start + length || i == start / CHUNK_SIZE)
      requires i * CIPHER_CHUNK_SIZE < |r|
      ensures var out, plaintext := Decrypt(base, 0, r).out, OpenChunk(base, i, CipherPiece(r, i));
              && plaintext.Some?
              && RangeSoFar(out, i, start, length) + Due(plaintext.value, i, start, length)
                 == RangeSoFar(out, i + 1, start, length)
              && (i == start / CHUNK_SIZE ==> (start % CHUNK_SIZE < |plaintext.value| <==> start < |out|))
    {
      var out := Decrypt(base, 0, r).out;
      ChunkOpens(base, 0, r, i);
      assert OpenChunk(base, i, CipherPiece(r, i)) == Some(PlainPiece(out, i));
      RangeStep(out, i, start, length);
      PieceReaches(out, start);
    }

    /** Past the last wanted chunk, or past the end of the ciphertext, the whole range has been written. */
    lemma RangeEnds(base: Bytes, r: Bytes, i: nat, start: nat, length: nat)
      requires Decrypt(base, 0, r).ok
      requires i * CHUNK_SIZE >= start + length || i * CIPHER_CHUNK_SIZE >= |r|
      ensures var out := Decrypt(base, 0, r).out;
              RangeSoFar(out, i, start, length) == Wanted(out, start, length)
    {
      if i * CIPHER_CHUNK_SIZE >= |r| {
        NothingBeyond(base, 0, r, i);
      }
      CoveredEnds(i, start, length, |Decrypt(base, 0, r).out|);
    }

    /** Chunk k of an accepted ciphertext is the sealing of chunk k of its plaintext. */
    lemma {:induction false} ChunkOpens(base: Bytes, i: nat, c: Bytes, k: nat)
      requires Decrypt(base, i, c).ok && k * CIPHER_CHUNK_SIZE < |c|
      ensures var out := Decrypt(base, i, c).out;
              && k * CHUNK_SIZE <= |out|
              && OpenChunk(base, i + k, CipherPiece(c, k)) == Some(PlainPiece(out, k))
      decreases k
    {
      var n := Min(|c|, CIPHER_CHUNK_SIZE);
      var p, rest := OpenChunk(base, i, c[..n]).value, Decrypt(base, i + 1, c[n..]);
      if k == 0 {
        assert n < CIPHER_CHUNK_SIZE ==> c[n..] == [];
        assert PlainPiece(p + rest.out, 0) == p;
      } else {
        ChunkOpens(base, i + 1, c[n..], k - 1);
        TailPieces(c, p, rest.out, k);
      }
    }

    lemma {:induction false} NothingBeyond(base: Bytes, i: nat, c: Bytes, k: nat)
      requires Decrypt(base, i, c).ok && k * CIPHER_CHUNK_SIZE >= |c|
      ensures |Decrypt(base, i, c).out| <= k * CHUNK_SIZE
      decreases k
    {
      if c != [] {
        var n := Min(|c|, CIPHER_CHUNK_SIZE);
        NothingBeyond(base, i + 1, c[n..], k - 1);
      }
    }
  }

  /** endChunk: the sum of start and length may wrap around, and a negative quotient becomes a huge uint64. */
  function LastChunk(start: nat, length: nat): nat {
    if length > 0 then ToUint64(TruncDiv(WrapInt64(start + length - 1), CHUNK_SIZE)) else start / CHUNK_SIZE
  }

  /** The upper bound of the first slice, length bytes past start % CHUNK_SIZE, is no int64. */
  predicate Overruns(start: nat, length: nat) {
    length + start % CHUNK_SIZE >= TWO_TO_63
  }

  /** The offset of the first sealed chunk is no int64, and endChunk has not wrapped all the way round to 0. */
  predicate OffsetOverflows(start: nat, length: nat) {
    start / CHUNK_SIZE * CIPHER_CHUNK_SIZE >= TWO_TO_63 && start + length <= TWO_TO_64 - CHUNK_SIZE + 1
  }

  /** As long as offsets stay inside int64, the wrapped endChunk bounds the loop as the exact one would. */
  lemma LastChunkEnds(i: nat, start: nat, length: nat)
    requires start < TWO_TO_63 && length < TWO_TO_63 && start / CHUNK_SIZE <= i
    requires start / CHUNK_SIZE * CIPHER_CHUNK_SIZE < TWO_TO_63 && i * CIPHER_CHUNK_SIZE < TWO_TO_63 + CIPHER_CHUNK_SIZE
    ensures start / CHUNK_SIZE <= LastChunk(start, length)
    ensures i > LastChunk(start, length) ==> i * CHUNK_SIZE >= start + length
    ensures i <= LastChunk(start, length) ==> i * CHUNK_SIZE < start + length || i == start / CHUNK_SIZE
  {
    var s := start + length - 1;
    if length > 0 && s >= TWO_TO_63 {
      assert WrapInt64(s) == s - TWO_TO_64;
      LastChunkNegative(TWO_TO_64 - s);
    } else if length > 0 {
      assert WrapInt64(s) == s && ToUint64(s / CHUNK_SIZE) == s / CHUNK_SIZE;
    }
  }

  lemma LastChunkNegative(m: int)
    requires 0 < m <= TWO_TO_63
    ensures ToUint64(TruncDiv(-m, CHUNK_SIZE)) == if m < CHUNK_SIZE then 0 else TWO_TO_64 - m / CHUNK_SIZE
  {
  }

  lemma LastChunkWraps(start: nat, length: nat)
    requires start < TWO_TO_63 && length < TWO_TO_63 && start / CHUNK_SIZE * CIPHER_CHUNK_SIZE >= TWO_TO_63
    ensures start / CHUNK_SIZE <= LastChunk(start, length) <==> start + length <= TWO_TO_64 - CHUNK_SIZE + 1
  {
    var s := start + length - 1;
    if length > 0 && s >= TWO_TO_63 {
      assert WrapInt64(s) == s - TWO_TO_64;
      LastChunkNegative(TWO_TO_64 - s);
    } else if length > 0 {
      assert WrapInt64(s) == s && ToUint64(s / CHUNK_SIZE) == s / CHUNK_SIZE;
    }
  }

  /** io.ReaderAt over c: how much of an m-byte buffer one ReadAt fills, and what it reports. */
  function ReadAt(c: Bytes, m: nat, off: int): (Bytes, IoError) {
    if off < 0 then ([], Failed)
    else if off + m <= |c| then (c[off..off + m], NoError)
    else if off <= |c| then (c[off..], Eof)
    else ([], Eof)
  }

  function PlainPiece(s: Bytes, k: nat): Bytes
    requires k * CHUNK_SIZE <= |s|
  {
    s[k * CHUNK_SIZE..Min((k + 1) * CHUNK_SIZE, |s|)]
  }

  function CipherPiece(c: Bytes, k: nat): Bytes
    requires k * CIPHER_CHUNK_SIZE <= |c|
  {
    c[k * CIPHER_CHUNK_SIZE..Min((k + 1) * CIPHER_CHUNK_SIZE, |c|)]
  }

  lemma TailPieces(c: Bytes, p: Bytes, out: Bytes, k: nat)
    requires 0 < k && k * CIPHER_CHUNK_SIZE <= |c| && |p| == CHUNK_SIZE && (k - 1) * CHUNK_SIZE <= |out|
    ensures CipherPiece(c[CIPHER_CHUNK_SIZE..], k - 1) == CipherPiece(c, k)
    ensures PlainPiece(p + out, k) == PlainPiece(out, k - 1)
  {
    var t, s := c[CIPHER_CHUNK_SIZE..], p + out;
    SliceOfSlice(c, CIPHER_CHUNK_SIZE, |c|, (k - 1) * CIPHER_CHUNK_SIZE, Min(k * CIPHER_CHUNK_SIZE, |t|));
    assert s[CHUNK_SIZE..] == out;
    SliceOfSlice(s, CHUNK_SIZE, |s|, (k - 1) * CHUNK_SIZE, Min(k * CHUNK_SIZE, |out|));
  }

  /** How far into n bytes of output the chunks before i reach, clipped to the requested range. */
  ghost function Covered(i: nat, start: nat, length: nat, n: nat): (e: nat)
    ensures Min(start, n) <= e <= n
  {
    Min(Max(start, Min(i * CHUNK_SIZE, start + length)), n)
  }

  /** The requested slice of the plaintext, cut off at its end. */
  function Wanted(out: Bytes, start: nat, length: nat): Bytes {
    out[Min(start, |out|)..Min(start + length, |out|)]
  }

  /** What the range loop has written when it arrives at chunk i. */
  ghost function RangeSoFar(out: Bytes, i: nat, start: nat, length: nat): Bytes {
    out[Min(start, |out|)..Covered(i, start, length, |out|)]
  }

  lemma CoveredEnds(i: nat, start: nat, length: nat, n: nat)
    ensures i == start / CHUNK_SIZE ==> Covered(i, start, length, n) == Min(start, n)
    ensures i * CHUNK_SIZE >= Min(start + length, n) ==> Covered(i, start, length, n) == Min(start + length, n)
  {
  }

  lemma RangeStarts(out: Bytes, start: nat, length: nat)
    ensures RangeSoFar(out, start / CHUNK_SIZE, start, length) == []
  {
    CoveredEnds(start / CHUNK_SIZE, start, length, |out|);
  }

  /** The range loop gets to chunk i: at once, without an overflow, or after reading chunk i - 1. */
  predicate Arrives(r: Bytes, i: nat, start: nat, length: nat) {
    && |r| + CIPHER_CHUNK_SIZE < TWO_TO_63 && start < TWO_TO_63 && length < TWO_TO_63
    && start / CHUNK_SIZE <= i <= LastChunk(start, length) + 1
    && if i == start / CHUNK_SIZE then i * CIPHER_CHUNK_SIZE < TWO_TO_63 else (i - 1) * CIPHER_CHUNK_SIZE < |r|
  }

  lemma ArriveNext(r: Bytes, i: nat, start: nat, length: nat)
    requires Arrives(r, i, start, length)
    ensures var read := ReadAt(r, CIPHER_CHUNK_SIZE, WrapInt64(i * CIPHER_CHUNK_SIZE));
            if i > LastChunk(start, length) then i * CHUNK_SIZE >= start + length
            else
              && (i * CHUNK_SIZE < start + length || i == start / CHUNK_SIZE)
              && if i * CIPHER_CHUNK_SIZE >= |r| then read == ([], Eof)
                 else read.0 == CipherPiece(r, i) != [] && Arrives(r, i + 1, start, length)
  {
    LastChunkEnds(i, start, length);
    if i <= LastChunk(start, length) {
      ReadAtChunk(r, i, start / CHUNK_SIZE);
    }
  }

  /** What the loop takes of chunk i's plaintext p, in int64 arithmetic; None where the slice expression panics. */
  function Share(p: Bytes, i: nat, start: nat, length: nat): Option<Bytes> {
    var chunkStart := WrapInt64(i * CHUNK_SIZE);
    var writeStart := Max(WrapInt64(start - chunkStart), 0);
    var writeEnd := Min(WrapInt64(WrapInt64(start + length) - chunkStart), |p|);
    if writeStart >= |p| then Some([])
    else if writeStart <= writeEnd then Some(p[writeStart..writeEnd])
    else None
  }

  /** Returns false where the slice expression panics; nothing is written then. */
  method WriteShare(w: Writer, p: Bytes, i: nat, start: nat, length: nat) returns (ok: bool)
    modifies w
    ensures var share := Share(p, i, start, length);
            ok == share.Some? && w.data == if ok then old(w.data) + share.value else old(w.data)
  {
    var chunkStart := WrapInt64(i * CHUNK_SIZE);
    var writeStart := WrapInt64(start - chunkStart);
    if writeStart < 0 {
      writeStart := 0;
    }
    var writeEnd := WrapInt64(WrapInt64(start + length) - chunkStart);
    if writeEnd > |p| {
      writeEnd := |p|;
    }
    if writeStart < |p| {
      if writeEnd < writeStart {
        return false;
      }
      w.Write(p[writeStart..writeEnd]);
    } else {
      assert w.data + [] == w.data;
    }
    return true;
  }

  /** The part of chunk i's plaintext p that the range asks for. */
  ghost function Due(p: Bytes, i: nat, start: nat, length: nat): Bytes
    requires start / CHUNK_SIZE <= i && (i * CHUNK_SIZE < start + length || i == start / CHUNK_SIZE)
  {
    var ws, we := Max(start - i * CHUNK_SIZE, 0), Min(start + length - i * CHUNK_SIZE, |p|);
    if ws < |p| then p[ws..we] else []
  }

  /** The upper bound of the slice of p lies before its lower bound, because it has wrapped around. */
  predicate CutsBackwards(p: Bytes, i: nat, start: nat, length: nat) {
    i == start / CHUNK_SIZE && Overruns(start, length) && start % CHUNK_SIZE < |p|
  }

  lemma ShareBounds(i: nat, start: nat, length: nat)
    requires start < TWO_TO_63 && length < TWO_TO_63 && i * CHUNK_SIZE < TWO_TO_63
    requires start / CHUNK_SIZE <= i && (i * CHUNK_SIZE < start + length || i == start / CHUNK_SIZE)
    ensures var at := i * CHUNK_SIZE;
            && WrapInt64(at) == at && WrapInt64(start - at) == start - at
            && 0 <= start + length - at
            && (i == start / CHUNK_SIZE ==> start - at == start % CHUNK_SIZE)
            && (i > start / CHUNK_SIZE ==> start - at < 0)
            && var end := WrapInt64(WrapInt64(start + length) - at);
               if i == start / CHUNK_SIZE && Overruns(start, length) then end < 0 else end == start + length - at
  {
    var sum, at := start + length, i * CHUNK_SIZE;
    assert WrapInt64(sum) == if sum < TWO_TO_63 then sum else sum - TWO_TO_64;
    assert sum - at >= TWO_TO_63 ==> WrapInt64(sum - TWO_TO_64 - at) == sum - TWO_TO_64 - at;
  }

  lemma ShareIsDue(p: Bytes, i: nat, start: nat, length: nat)
    requires start < TWO_TO_63 && length < TWO_TO_63 && i * CHUNK_SIZE < TWO_TO_63
    requires start / CHUNK_SIZE <= i && (i * CHUNK_SIZE < start + length || i == start / CHUNK_SIZE)
    ensures Share(p, i, start, length)
         == if CutsBackwards(p, i, start, length) then None else Some(Due(p, i, start, length))
  {
    ShareBounds(i, start, length);
    var ws := Max(start - i * CHUNK_SIZE, 0);
    if CutsBackwards(p, i, start, length) {
      assert ws < |p| && WrapInt64(WrapInt64(start + length) - i * CHUNK_SIZE) < 0;
    } else if ws < |p| {
      assert WrapInt64(WrapInt64(start + length) - i * CHUNK_SIZE) == start + length - i * CHUNK_SIZE;
      assert ws <= Min(start + length - i * CHUNK_SIZE, |p|);
    }
  }

  lemma PieceReaches(out: Bytes, start: nat)
    requires start / CHUNK_SIZE * CHUNK_SIZE <= |out|
    ensures start % CHUNK_SIZE < |PlainPiece(out, start / CHUNK_SIZE)| <==> start < |out|
  {
  }

  /** One turn of the range loop moves the written prefix from Covered(i) to Covered(i + 1). */
  lemma RangeStep(out: Bytes, i: nat, start: nat, length: nat)
    requires start / CHUNK_SIZE <= i && (i * CHUNK_SIZE < start + length || i == start / CHUNK_SIZE)
    requires i * CHUNK_SIZE <= |out|
    ensures RangeSoFar(out, i, start, length) + Due(PlainPiece(out, i), i, start, length)
         == RangeSoFar(out, i + 1, start, length)
  {
    DueIsNext(out, i, start, length);
    SlicesMeet(out, Min(start, |out|), Covered(i, start, length, |out|), Covered(i + 1, start, length, |out|));
  }

  lemma DueIsNext(out: Bytes, i: nat, start: nat, length: nat)
    requires start / CHUNK_SIZE <= i && (i * CHUNK_SIZE < start + length || i == start / CHUNK_SIZE)
    requires i * CHUNK_SIZE <= |out|
    ensures var here, next := Covered(i, start, length, |out|), Covered(i + 1, start, length, |out|);
            here <= next && Due(PlainPiece(out, i), i, start, length) == out[here..next]
  {
    var n, at, p := |out|, i * CHUNK_SIZE, PlainPiece(out, i);
    var ws, we := Max(start - at, 0), Min(start + length - at, |p|);
    CoveredStep(n, i, start, length);
    if ws < |p| {
      SliceOfSlice(out, at, Min((i + 1) * CHUNK_SIZE, n), ws, we);
    }
  }

  /** The share's bounds inside its chunk, moved to the chunk's place, are where the written prefix ends. */
  lemma CoveredStep(n: nat, i: nat, start: nat, length: nat)
    requires start / CHUNK_SIZE <= i && (i * CHUNK_SIZE < start + length || i == start / CHUNK_SIZE)
    requires i * CHUNK_SIZE <= n
    ensures var at := i * CHUNK_SIZE;
            var size := Min((i + 1) * CHUNK_SIZE, n) - at;
            var ws, we := Max(start - at, 0), Min(start + length - at, size);
            var here, next := Covered(i, start, length, n), Covered(i + 1, start, length, n);
            if ws < size then ws <= we && here == at + ws && next == at + we else here == next
  {
  }

  /** Reading chunk i either wraps around, hits the end, or returns the chunk. */
  lemma ReadAtChunk(r: Bytes, i: nat, startChunk: nat)
    requires startChunk <= i <= TWO_TO_63 / CHUNK_SIZE && |r| + CIPHER_CHUNK_SIZE < TWO_TO_63
    requires i > startChunk ==> (i - 1) * CIPHER_CHUNK_SIZE < |r|
    ensures var off := i * CIPHER_CHUNK_SIZE;
            var read := ReadAt(r, CIPHER_CHUNK_SIZE, WrapInt64(off));
            if off >= TWO_TO_63 then i == startChunk && read == ([], Failed)
            else if off >= |r| then read == ([], Eof)
            else read.0 == CipherPiece(r, i) != []
  {
    var off := i * CIPHER_CHUNK_SIZE;
    assert WrapInt64(off) == if off < TWO_TO_63 then off else off - TWO_TO_64;
    assert off <= |r| ==> r[off..] == r[off..|r|];
  }

  function NewEngine(cipher: Cipher, key: Bytes): Result<Engine, EngineError> {
    if |key| != KEY_SIZE then Err(InvalidKey) else Ok(Engine(cipher, key))
  }
}

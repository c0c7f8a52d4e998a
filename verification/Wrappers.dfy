/** Result types and small sequence helpers shared by every module. */
module Wrappers {
  datatype Option<+T> = None | Some(value: T)

  datatype Result<+T, +E> = Ok(value: T) | Err(error: E)

  function Min(a: int, b: int): int {
    if a < b then a else b
  }

  function Max(a: int, b: int): int {
    if a < b then b else a
  }

  ghost predicate NoDup<T(!new)>(s: seq<T>) {
    forall i, j :: 0 <= i < j < |s| ==> s[i] != s[j]
  }

  lemma AppendNew<T(!new)>(s: seq<T>, x: T)
    requires NoDup(s) && x !in s
    ensures NoDup(s + [x]) && (set y | y in s + [x]) == (set y | y in s) + {x}
  {
  }

  lemma AppendDisjoint<T(!new)>(s: seq<T>, t: seq<T>)
    requires NoDup(s) && NoDup(t) && forall x :: !(x in s && x in t)
    ensures NoDup(s + t)
  {
    forall i, j | 0 <= i < j < |s + t|
      ensures (s + t)[i] != (s + t)[j]
    {
      if i < |s| <= j {
        assert (s + t)[i] in s && (s + t)[j] in t;
      }
    }
  }

  lemma SliceOfSlice<T>(s: seq<T>, a: nat, b: nat, x: nat, y: nat)
    requires a <= b <= |s| && x <= y <= b - a
    ensures s[a..b][x..y] == s[a + x..a + y]
  {
    var t := s[a..b];
    assert forall i | 0 <= i < y - x :: t[x..y][i] == s[a + x..a + y][i];
  }

  lemma PrefixSlice<T>(s: seq<T>, prefix: seq<T>, a: nat, b: nat)
    requires prefix <= s && a <= b <= |prefix|
    ensures s[a..b] == prefix[a..b]
  {
  }

  lemma SlicesMeet<T>(s: seq<T>, a: nat, b: nat, c: nat)
    requires a <= b <= c <= |s|
    ensures s[a..b] + s[b..c] == s[a..c]
  {
  }

  lemma Associative<T>(a: seq<T>, b: seq<T>, c: seq<T>)
    ensures (a + b) + c == a + (b + c)
  {
  }
}

module ByteStrings {
  type byte = x: int | 0 <= x < 256

  type Bytes = seq<byte>

  // int64 and uint64 of the source; arithmetic on them is checked for overflow.
  newtype int64 = x: int | -0x8000_0000_0000_0000 <= x <= 0x7fff_ffff_ffff_ffff
  newtype uint64 = x: int | 0 <= x <= 0xffff_ffff_ffff_ffff

  const TWO_TO_63 := 0x8000_0000_0000_0000
  const TWO_TO_64 := 0x1_0000_0000_0000_0000

  /** The value an int64 expression takes when its exact value is x. */
  function WrapInt64(x: int): int {
    (x + TWO_TO_63) % TWO_TO_64 - TWO_TO_63
  }

  /** Division as int64 does it, rounding towards zero. */
  function TruncDiv(x: int, d: int): int
    requires d > 0
  {
    if x >= 0 then x / d else -(-x / d)
  }

  /** The conversion uint64(x). */
  function ToUint64(x: int): (r: nat)
    ensures r < TWO_TO_64
  {
    x % TWO_TO_64
  }
}

/** Fixed-size chunks of a byte string: the arithmetic every transfer and every checksum shares. */
module Chunks {

  type Byte = bv8

  function Min(a: int, b: int): int { if a <= b then a else b }

  function Max(a: int, b: int): int { if a >= b then a else b }

  /** The number of chunks of `c` bytes that cover `size` bytes; the last one may be short. */
  function ChunkCount(size: nat, c: int): (n: nat)
    requires c > 0
    ensures size <= n * c && (size == 0 <==> n == 0)
    ensures n > 0 ==> (n - 1) * c < size
  {
    size / c + (if size % c != 0 then 1 else 0)
  }

  /** The size as the checksum code computes it: -1 for a size or chunk size that is none. */
  function ChunkCountForSize(size: int, c: int): int {
    if size < 0 || c <= 0 then -1 else ChunkCount(size, c)
  }

  function Lo(c: int, i: nat): nat
    requires c > 0
  {
    i * c
  }

  function Hi(size: nat, c: int, i: nat): int
    requires c > 0
  {
    Min(i * c + c, size)
  }

  lemma {:induction false} ChunkBounds(size: nat, c: int, i: nat)
    requires c > 0 && i < ChunkCount(size, c)
    ensures Lo(c, i) < Hi(size, c, i) <= size
  {
    assert i * c <= (ChunkCount(size, c) - 1) * c;
  }

  function Chunk(s: seq<Byte>, c: int, i: nat): (r: seq<Byte>)
    requires c > 0 && i < ChunkCount(|s|, c)
    ensures |r| == Hi(|s|, c, i) - Lo(c, i) && 0 < |r| <= c
  {
    ChunkBounds(|s|, c, i);
    s[Lo(c, i)..Hi(|s|, c, i)]
  }

  lemma DivBounds(k: nat, c: int)
    requires c > 0
    ensures k / c * c <= k < k / c * c + c
  {}

  lemma MulMono(a: int, b: int, c: int)
    requires c > 0 && a <= b
    ensures a * c <= b * c
  {}

  /** Position `k` lies in chunk `k / c` and in no other. */
  lemma ChunkOf(size: nat, c: int, k: nat)
    requires c > 0 && k < size
    ensures k / c < ChunkCount(size, c)
    ensures Lo(c, k / c) <= k < Hi(size, c, k / c)
    ensures forall i: nat | Lo(c, i) <= k < Lo(c, i) + c :: i == k / c
  {
    DivBounds(k, c);
    var n := ChunkCount(size, c);
    if k / c >= n { MulMono(n, k / c, c); }
    forall i: nat | Lo(c, i) <= k < Lo(c, i) + c ensures i == k / c { OnlyChunk(c, i, k); }
  }

  lemma OnlyChunk(c: int, i: nat, k: nat)
    requires c > 0 && Lo(c, i) <= k < Lo(c, i) + c
    ensures i == k / c
  {
    var q := k / c;
    DivBounds(k, c);
    if i < q { MulMono(i + 1, q, c); Distribute(i + 1, c); }
    if i > q { MulMono(q + 1, i, c); Distribute(q + 1, c); }
  }

  lemma NotLastChunkIsFull(size: nat, c: int, n: nat)
    requires c > 0 && 0 < n < ChunkCount(size, c)
    ensures Hi(size, c, n - 1) == Lo(c, n)
  {
    ChunkBounds(size, c, n);
    Distribute(n, c);
  }

  lemma LastChunkEnds(size: nat, c: int)
    requires c > 0 && size > 0
    ensures Hi(size, c, ChunkCount(size, c) - 1) == size
  {
    Distribute(ChunkCount(size, c), c);
  }

  /** Bytes in the first `n` chunks. */
  function Covered(size: nat, c: int, n: nat): int
    requires c > 0
  {
    if n == 0 then 0 else Hi(size, c, n - 1)
  }

  lemma CoveredIsLo(size: nat, c: int, n: nat)
    requires c > 0 && n < ChunkCount(size, c)
    ensures Covered(size, c, n) == Lo(c, n)
  {
    if n > 0 { NotLastChunkIsFull(size, c, n); }
  }

  lemma CoveredStep(size: nat, c: int, n: nat)
    requires c > 0 && n < ChunkCount(size, c)
    ensures Covered(size, c, n + 1) == Covered(size, c, n) + Hi(size, c, n) - Lo(c, n)
  {
    CoveredIsLo(size, c, n);
  }

  lemma CoveredAll(size: nat, c: int)
    requires c > 0
    ensures Covered(size, c, ChunkCount(size, c)) == size
  {
    if size > 0 { LastChunkEnds(size, c); }
  }

  /** Two byte strings with the same chunks are the same byte string. */
  lemma {:induction false} EqualByChunks(a: seq<Byte>, b: seq<Byte>, c: int)
    requires c > 0 && ChunkCount(|a|, c) == ChunkCount(|b|, c)
    requires forall i: nat | i < ChunkCount(|a|, c) :: Chunk(a, c, i) == Chunk(b, c, i)
    ensures a == b
  {
    var n := ChunkCount(|a|, c);
    if n > 0 {
      assert Chunk(a, c, n - 1) == Chunk(b, c, n - 1);
      ChunkBounds(|a|, c, n - 1);
      ChunkBounds(|b|, c, n - 1);
      assert |a| == |b|;
    }
    forall k | 0 <= k < |a| ensures a[k] == b[k] {
      ChunkOf(|a|, c, k);
      assert a[k] == Chunk(a, c, k / c)[k - Lo(c, k / c)];
      assert b[k] == Chunk(b, c, k / c)[k - Lo(c, k / c)];
    }
  }

  /** Bytes covered by the chunks flagged in `have`, counting the first `|have|` chunks of `size`. */
  function Credit(size: nat, c: int, have: seq<bool>): nat
    requires c > 0 && |have| <= ChunkCount(size, c)
  {
    if have == [] then 0
    else
      var i := |have| - 1;
      ChunkBounds(size, c, i);
      Credit(size, c, have[..i]) + if have[i] then Hi(size, c, i) - Lo(c, i) else 0
  }

  lemma {:induction false} CreditSet(size: nat, c: int, have: seq<bool>, i: nat)
    requires c > 0 && |have| <= ChunkCount(size, c) && i < |have| && !have[i]
    ensures Credit(size, c, have[i := true]) == Credit(size, c, have) + Hi(size, c, i) - Lo(c, i)
  {
    var last := |have| - 1;
    if i == last {
      assert have[i := true][..last] == have[..last];
    } else {
      assert have[i := true][..last] == have[..last][i := true];
      CreditSet(size, c, have[..last], i);
    }
  }

  lemma {:induction false} CreditAll(size: nat, c: int, have: seq<bool>)
    requires c > 0 && |have| <= ChunkCount(size, c)
    requires forall i | 0 <= i < |have| :: have[i]
    ensures Credit(size, c, have) == Min(|have| * c, size)
  {
    if have != [] {
      var n := |have|;
      ChunkBounds(size, c, n - 1);
      CreditAll(size, c, have[..n - 1]);
      Distribute(n, c);
    }
  }

  lemma Distribute(n: int, c: int)
    ensures (n - 1) * c + c == n * c
  {}
}

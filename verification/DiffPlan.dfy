/** Which chunks a differential transfer can keep: position-by-position comparison of the two
    checksum lists, shared by both directions. */
module DiffPlan {
  import opened Chunks

  /** The checksum of every chunk, in order. */
  function Sums<R>(sum: seq<Byte> -> R, data: seq<Byte>, c: int): (r: seq<R>)
    requires c > 0
    ensures |r| == ChunkCount(|data|, c)
    ensures forall i: nat | i < |r| :: r[i] == sum(Chunk(data, c, i))
  {
    seq(ChunkCount(|data|, c), i requires 0 <= i < ChunkCount(|data|, c) => sum(Chunk(data, c, i)))
  }

  /** The hypothesis under which equal checksums mean equal bytes, for the chunks compared. */
  ghost predicate NoCollision<R(!new)>(sum: seq<Byte> -> R, a: seq<Byte>, b: seq<Byte>, c: int)
    requires c > 0
  {
    forall i: nat | i < ChunkCount(|a|, c) && i < ChunkCount(|b|, c) ::
      sum(Chunk(a, c, i)) == sum(Chunk(b, c, i)) ==> Chunk(a, c, i) == Chunk(b, c, i)
  }

  /** Both sides have a chunk there, with the same checksum. */
  predicate Agree<R(==)>(target: seq<R>, other: seq<R>, i: nat) {
    i < |target| && i < |other| && target[i] == other[i]
  }

  /** Every chunk of the target is where the other side has it and as it has it. */
  ghost predicate AllAgree<R>(target: seq<R>, other: seq<R>) {
    forall i: nat | i < |target| :: Agree(target, other, i)
  }

  ghost predicate SomeAgree<R>(target: seq<R>, other: seq<R>) {
    exists i: nat :: Agree(target, other, i)
  }

  /** Per chunk of the target: the other side has a chunk there with the same checksum. */
  function SameFlags<R(==)>(target: seq<R>, other: seq<R>): (flags: seq<bool>)
    ensures |flags| == |target| && forall i: nat | i < |flags| :: flags[i] <==> Agree(target, other, i)
  {
    seq(|target|, i requires 0 <= i < |target| => i < |other| && target[i] == other[i])
  }

  /** The indices not flagged, in increasing order. */
  function WorkOf(flags: seq<bool>): (work: seq<nat>)
    ensures forall x | 0 <= x < |work| :: work[x] < |flags| && !flags[work[x]]
    ensures forall x, y | 0 <= x < y < |work| :: work[x] < work[y]
    ensures forall i: nat | i < |flags| && !flags[i] :: i in work
  {
    if flags == [] then []
    else
      var n := |flags| - 1;
      var rest := WorkOf(flags[..n]);
      assert forall i: nat | i < n && !flags[i] :: !flags[..n][i];
      if flags[n] then rest else rest + [n]
  }

  lemma FlagsTakeOne(flags: seq<bool>, i: nat)
    requires i < |flags|
    ensures flags[..i + 1][..i] == flags[..i]
  {}

  predicate AllOf(flags: seq<bool>, value: bool) {
    forall i | 0 <= i < |flags| :: flags[i] == value
  }

  /** The marking loop: compare the checksums both sides have and count the agreements. */
  method MarkUnchanged<R(==)>(target: seq<R>, other: seq<R>) returns (flags: seq<bool>, kept: nat)
    ensures flags == SameFlags(target, other)
    ensures kept == |target| <==> AllOf(flags, true)
    ensures kept == 0 <==> AllOf(flags, false)
    ensures target != [] ==> (kept == |target| <==> AllAgree(target, other))
    ensures kept > 0 <==> SomeAgree(target, other)
  {
    flags := seq(|target|, _ => false);
    kept := 0;
    var common := if |target| <= |other| then |target| else |other|;
    for i := 0 to common
      invariant |flags| == |target| && kept <= i
      invariant forall j | 0 <= j < i :: flags[j] == (target[j] == other[j])
      invariant forall j | i <= j < |target| :: !flags[j]
      invariant kept == i <==> forall j | 0 <= j < i :: flags[j]
      invariant kept == 0 <==> forall j | 0 <= j < i :: !flags[j]
    {
      if target[i] == other[i] {
        flags := flags[i := true];
        kept := kept + 1;
      }
    }
    assert common < |target| ==> !flags[common];
    assert flags == SameFlags(target, other);
    if kept > 0 {
      var i :| 0 <= i < |flags| && flags[i];
      assert Agree(target, other, i);
    }
  }

  /** The collecting loop: list the chunks to move and add up the bytes that need not move. */
  method CollectWork(flags: seq<bool>, size: nat, c: int) returns (work: seq<nat>, saved: nat)
    requires c > 0 && |flags| == ChunkCount(size, c)
    ensures work == WorkOf(flags)
    ensures saved == Credit(size, c, flags)
  {
    work, saved := [], 0;
    for i := 0 to |flags|
      invariant work == WorkOf(flags[..i])
      invariant saved == Credit(size, c, flags[..i])
    {
      FlagsTakeOne(flags, i);
      ChunkBounds(size, c, i);
      if flags[i] {
        saved := saved + (Min(i * c + c, size) - i * c);
      } else {
        work := work + [i];
      }
    }
    assert flags[..|flags|] == flags;
  }

  /** Flagged chunks are equal chunks, when checksums do not collide. */
  lemma FlagsAreSound<R(!new)>(sum: seq<Byte> -> R, target: seq<Byte>, other: seq<Byte>, c: int)
    requires c > 0 && NoCollision(sum, target, other, c)
    ensures var flags := SameFlags(Sums(sum, target, c), Sums(sum, other, c));
            forall i: nat | i < |flags| && flags[i] ::
              i < ChunkCount(|other|, c) && Chunk(target, c, i) == Chunk(other, c, i)
  {}

  /** When every chunk is flagged and the sizes agree, the two sides are equal. */
  lemma AllFlaggedMeansEqual<R(!new)>(sum: seq<Byte> -> R, target: seq<Byte>, other: seq<Byte>, c: int)
    requires c > 0 && NoCollision(sum, target, other, c) && |target| == |other|
    requires var flags := SameFlags(Sums(sum, target, c), Sums(sum, other, c));
             forall i | 0 <= i < |flags| :: flags[i]
    ensures target == other
  {
    FlagsAreSound(sum, target, other, c);
    EqualByChunks(target, other, c);
  }
}

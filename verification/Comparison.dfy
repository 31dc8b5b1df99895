/** Comparing two files chunk by chunk, and two chunks block by block. */
module Comparison {
  import opened Chunks
  import opened DiffPlan
  import opened Checksums

  // ---- Chunk lists ----

  /** The positions of a sequence that satisfy a test, in order. */
  function Positions(n: nat, test: nat -> bool): seq<nat> {
    if n == 0 then [] else Positions(n - 1, test) + if test(n - 1) then [n - 1] else []
  }

  lemma {:induction false} PositionsMember(n: nat, test: nat -> bool)
    ensures forall i: nat :: i in Positions(n, test) <==> i < n && test(i)
    ensures forall i, j | 0 <= i < j < |Positions(n, test)| :: Positions(n, test)[i] < Positions(n, test)[j]
  {
    if n > 0 {
      PositionsMember(n - 1, test);
      var front := Positions(n - 1, test);
      assert forall i :: i in Positions(n, test) <==> i in front || (i == n - 1 && test(n - 1));
      assert forall k | 0 <= k < |front| :: front[k] in front;
    }
  }

  predicate Increasing(s: seq<nat>) {
    forall i, j | 0 <= i < j < |s| :: s[i] < s[j]
  }

  function Range(lo: nat, hi: nat): seq<nat> {
    if hi <= lo then [] else Range(lo, hi - 1) + [hi - 1]
  }

  datatype Verdict = Verdict(allMatch: bool, mismatched: seq<nat>, extraA: seq<nat>, extraB: seq<nat>)

  function Differs<R(==)>(a: seq<R>, b: seq<R>): nat -> bool {
    (i: nat) => i < |a| && i < |b| && a[i] != b[i]
  }

  /** The three loops over two checksum lists. */
  method CompareSums<R(==)>(a: seq<R>, b: seq<R>) returns (v: Verdict)
    ensures v.mismatched == Positions(Min(|a|, |b|), Differs(a, b))
    ensures v.extraA == Range(|b|, |a|) && v.extraB == Range(|a|, |b|)
    ensures Increasing(v.mismatched) && Increasing(v.extraA) && Increasing(v.extraB)
    ensures v.allMatch <==> a == b
  {
    PositionsMember(Min(|a|, |b|), Differs(a, b));
    RangeMember(|b|, |a|);
    RangeMember(|a|, |b|);
    var allMatch, mismatched, extraA, extraB := true, [], [], [];
    var common := Min(|a|, |b|);
    for i := 0 to common
      invariant mismatched == Positions(i, Differs(a, b))
      invariant allMatch <==> forall k | 0 <= k < i :: a[k] == b[k]
    {
      if a[i] != b[i] {
        allMatch := false;
        mismatched := mismatched + [i];
      }
    }
    if |a| > |b| {
      allMatch := false;
      for i := |b| to |a|
        invariant extraA == Range(|b|, i)
      {
        extraA := extraA + [i];
      }
    } else if |b| > |a| {
      allMatch := false;
      for i := |a| to |b|
        invariant extraB == Range(|a|, i)
      {
        extraB := extraB + [i];
      }
    }
    v := Verdict(allMatch, mismatched, extraA, extraB);
  }

  lemma {:induction false} RangeMember(lo: nat, hi: nat)
    ensures forall i: nat :: i in Range(lo, hi) <==> lo <= i < hi
    ensures Increasing(Range(lo, hi))
  {
    if lo < hi {
      RangeMember(lo, hi - 1);
      var front := Range(lo, hi - 1);
      assert forall k | 0 <= k < |front| :: front[k] in front;
    }
  }

  /** The two files have different bytes at chunk `i`, or only one of them reaches it. */
  predicate ChunkDiffers(a: seq<Byte>, b: seq<Byte>, c: int, i: nat)
    requires c > 0
  {
    if i < ChunkCount(|a|, c) && i < ChunkCount(|b|, c) then Chunk(a, c, i) != Chunk(b, c, i)
    else i < ChunkCount(|a|, c) || i < ChunkCount(|b|, c)
  }

  datatype Compared = Cancelled | FailedA | FailedB | Compared(v: Verdict)

  /** What a checksum service hands back: the sums of the requested chunks, or nothing. */
  predicate Answered<R(==)>(sum: seq<Byte> -> R, data: seq<Byte>, c: int, ids: seq<int>, sums: seq<R>)
    requires c > 0
  {
    sums == [] || (ValidIds(|data|, c, ids) && sums == SumsFor(sum, data, c, ids))
  }

  /** The chunks an accepted answer is about; none for an empty file. */
  function Covers(data: seq<Byte>, c: int, ids: seq<int>): seq<int>
    requires c > 0
  {
    if data == [] then [] else Requested(|data|, c, ids)
  }

  /** Position `i` of the request: the two sides have different chunks there, or only one has any. */
  predicate PositionDiffers(a: seq<Byte>, b: seq<Byte>, c: int, ids: seq<int>, i: nat)
    requires c > 0
  {
    var inA, inB := Covers(a, c, ids), Covers(b, c, ids);
    if i < |inA| && i < |inB| then inA[i] >= 0 && ChunkDiffers(a, b, c, inA[i]) else i < |inA| || i < |inB|
  }

  /** One comparison, of all chunks or of selected ones. An empty answer is a failure unless the file is empty.
      The verdict lists positions of the request; for all chunks these are the chunks themselves. */
  method RunComparison<R(==, !new)>(sum: seq<Byte> -> R, a: seq<Byte>, b: seq<Byte>, c: int, ids: seq<int>,
                                    sumsA: seq<R>, sumsB: seq<R>, cancelled: bool)
    returns (r: Compared)
    requires c > 0 && Answered(sum, a, c, ids, sumsA) && Answered(sum, b, c, ids, sumsB)
    ensures r.Compared? <==> !cancelled && (sumsA != [] || a == []) && (sumsB != [] || b == [])
    ensures r.Compared? ==> (r.v.allMatch <==> sumsA == sumsB)
    ensures r.Compared? ==> Increasing(r.v.mismatched) && Increasing(r.v.extraA) && Increasing(r.v.extraB)
    ensures r.Compared? && NoCollision(sum, a, b, c) ==>
              && (r.v.allMatch <==> forall i: nat :: !PositionDiffers(a, b, c, ids, i))
              && (forall i: nat :: i in r.v.mismatched || i in r.v.extraA || i in r.v.extraB <==>
                  PositionDiffers(a, b, c, ids, i))
              && (forall i: nat :: i in r.v.extraA <==> |Covers(b, c, ids)| <= i < |Covers(a, c, ids)|)
              && (forall i: nat :: i in r.v.extraB <==> |Covers(a, c, ids)| <= i < |Covers(b, c, ids)|)
              && (ids == [] ==> (r.v.allMatch <==> a == b))
    ensures ids == [] ==> forall i: nat :: PositionDiffers(a, b, c, ids, i) <==> ChunkDiffers(a, b, c, i)
  {
    WholeRequest(a, b, c);
    if cancelled { return Cancelled; }
    if sumsA == [] && |a| > 0 { return FailedA; }
    if sumsB == [] && |b| > 0 { return FailedB; }
    var v := CompareSums(sumsA, sumsB);
    r := Compared(v);
    if NoCollision(sum, a, b, c) {
      VerdictIsExact(sum, a, b, c, ids, sumsA, sumsB, v);
      if ids == [] { NoChunkDiffers(a, b, c); }
    }
  }

  lemma WholeRequest(a: seq<Byte>, b: seq<Byte>, c: int)
    requires c > 0
    ensures forall i: nat :: PositionDiffers(a, b, c, [], i) <==> ChunkDiffers(a, b, c, i)
  {
    assert |Covers(a, c, [])| == ChunkCount(|a|, c) && |Covers(b, c, [])| == ChunkCount(|b|, c);
  }

  lemma NoChunkDiffers(a: seq<Byte>, b: seq<Byte>, c: int)
    requires c > 0
    ensures (forall i: nat :: !PositionDiffers(a, b, c, [], i)) <==> a == b
  {
    WholeRequest(a, b, c);
    if forall i: nat :: !PositionDiffers(a, b, c, [], i) {
      var m, n := ChunkCount(|a|, c), ChunkCount(|b|, c);
      if m != n { assert ChunkDiffers(a, b, c, if m < n then m else n); }
      forall i: nat | i < m ensures Chunk(a, c, i) == Chunk(b, c, i) { assert !ChunkDiffers(a, b, c, i); }
      EqualByChunks(a, b, c);
    }
  }

  /** An accepted answer has one sum for each chunk it covers. */
  lemma AnswerCovers<R>(sum: seq<Byte> -> R, data: seq<Byte>, c: int, ids: seq<int>, sums: seq<R>)
    requires c > 0 && Answered(sum, data, c, ids, sums) && (sums != [] || data == [])
    ensures |sums| == |Covers(data, c, ids)|
    ensures forall i | 0 <= i < |sums| ::
              0 <= Covers(data, c, ids)[i] < ChunkCount(|data|, c)
                  && sums[i] == sum(Chunk(data, c, Covers(data, c, ids)[i]))
  {
    if data == [] && ids != [] { EmptyHasNoChunk(c, ids); }
  }

  lemma EmptyHasNoChunk(c: int, ids: seq<int>)
    requires c > 0 && ids != []
    ensures !ValidIds(0, c, ids)
  {
    assert !(0 <= ids[0] < ChunkCount(0, c));
  }

  predicate SumDiffers<R(==)>(sa: seq<R>, sb: seq<R>, i: nat) {
    if i < |sa| && i < |sb| then sa[i] != sb[i] else i < |sa| || i < |sb|
  }

  lemma VerdictIsExact<R(!new)>(sum: seq<Byte> -> R, a: seq<Byte>, b: seq<Byte>, c: int, ids: seq<int>, sa: seq<R>,
                                sb: seq<R>, v: Verdict)
    requires c > 0 && NoCollision(sum, a, b, c)
    requires Answered(sum, a, c, ids, sa) && Answered(sum, b, c, ids, sb) && (sa != [] || a == [])
    requires (sb != [] || b == [])
    requires v.mismatched == Positions(Min(|sa|, |sb|), Differs(sa, sb))
    requires v.extraA == Range(|sb|, |sa|) && v.extraB == Range(|sa|, |sb|) && (v.allMatch <==> sa == sb)
    ensures v.allMatch <==> forall i: nat :: !PositionDiffers(a, b, c, ids, i)
    ensures forall i: nat :: i in v.mismatched || i in v.extraA || i in v.extraB <==> PositionDiffers(a, b, c, ids, i)
    ensures forall i: nat :: i in v.extraA <==> |Covers(b, c, ids)| <= i < |Covers(a, c, ids)|
    ensures forall i: nat :: i in v.extraB <==> |Covers(a, c, ids)| <= i < |Covers(b, c, ids)|
  {
    AnswerCovers(sum, a, c, ids, sa);
    AnswerCovers(sum, b, c, ids, sb);
    PositionsMember(Min(|sa|, |sb|), Differs(sa, sb));
    RangeMember(|sb|, |sa|);
    RangeMember(|sa|, |sb|);
    forall i: nat ensures PositionDiffers(a, b, c, ids, i) <==> SumDiffers(sa, sb, i) {
      SumsTell(sum, a, b, c, ids, sa, sb, i);
    }
    if sa != sb { DifferSomewhere(sa, sb); }
  }

  lemma SumsTell<R(!new)>(sum: seq<Byte> -> R, a: seq<Byte>, b: seq<Byte>, c: int, ids: seq<int>, sa: seq<R>,
                          sb: seq<R>, i: nat)
    requires c > 0 && NoCollision(sum, a, b, c)
    requires Answered(sum, a, c, ids, sa) && Answered(sum, b, c, ids, sb) && (sa != [] || a == [])
    requires (sb != [] || b == [])
    ensures PositionDiffers(a, b, c, ids, i) <==> SumDiffers(sa, sb, i)
  {
    AnswerCovers(sum, a, c, ids, sa);
    AnswerCovers(sum, b, c, ids, sb);
    if i < |sa| && i < |sb| { assert Covers(a, c, ids)[i] == Covers(b, c, ids)[i]; }
  }

  lemma DifferSomewhere<R>(sa: seq<R>, sb: seq<R>)
    requires sa != sb
    ensures exists i: nat :: SumDiffers(sa, sb, i)
  {
    if |sa| != |sb| {
      assert SumDiffers(sa, sb, Min(|sa|, |sb|));
    } else {
      var i: nat :| i < |sa| && sa[i] != sb[i];
      assert SumDiffers(sa, sb, i);
    }
  }

  // ---- Blocks of a chunk ----

  datatype BlockAnalysis = BlockAnalysis(matches: seq<bool>, blocksDifferent: nat, bytesDifferent: nat, firstDiff: int,
      lastDiff: int)

  /** Differing bytes among the first `n`. */
  function Hamming(a: seq<Byte>, b: seq<Byte>, n: nat): nat
    requires n <= |a| && n <= |b|
  {
    if n == 0 then 0 else Hamming(a, b, n - 1) + if a[n - 1] != b[n - 1] then 1 else 0
  }

  function Falses(flags: seq<bool>): nat {
    if flags == [] then 0 else Falses(flags[..|flags| - 1]) + if flags[|flags| - 1] then 0 else 1
  }

  /** First and last differing positions below `n`, or -1 twice. */
  ghost predicate Ends(a: seq<Byte>, b: seq<Byte>, n: nat, first: int, last: int)
    requires n <= |a| && n <= |b|
  {
    if first < 0 then first == -1 && last == -1 && forall i | 0 <= i < n :: a[i] == b[i]
    else
      && first <= last < n && a[first] != b[first] && a[last] != b[last]
      && (forall i | 0 <= i < first :: a[i] == b[i]) && (forall i | last < i < n :: a[i] == b[i])
  }

  /** The running totals when the first `n` bytes have been compared. */
  ghost predicate Tallied(a: seq<Byte>, b: seq<Byte>, n: nat, bytes: nat, first: int, last: int) {
    n <= |a| && n <= |b| && bytes == Hamming(a, b, n) && Ends(a, b, n, first, last)
  }

  ghost predicate Equal(a: seq<Byte>, b: seq<Byte>, lo: int, hi: int) {
    forall i | lo <= i < hi && 0 <= i < |a| && i < |b| :: a[i] == b[i]
  }

  /** The inner loop: one block. */
  method CompareBlock(a: seq<Byte>, b: seq<Byte>, lo: nat, hi: nat, bytes0: nat, first0: int, last0: int)
    returns (same: bool, bytes: nat, first: int, last: int)
    requires |a| == |b| && lo <= hi <= |a| && Tallied(a, b, lo, bytes0, first0, last0)
    ensures Tallied(a, b, hi, bytes, first, last)
    ensures same <==> Equal(a, b, lo, hi)
  {
    same, bytes, first, last := true, bytes0, first0, last0;
    for i := lo to hi
      invariant Tallied(a, b, i, bytes, first, last)
      invariant same <==> Equal(a, b, lo, i)
    {
      if a[i] != b[i] {
        same := false;
        bytes := bytes + 1;
        if first < 0 { first := i; }
        last := i;
      }
    }
  }

  /** Block by block over two buffers. The totals are those of the flat byte comparison, and each flag
      tells whether its block is equal. */
  method AnalyzeBuffers(a: seq<Byte>, b: seq<Byte>, blockSize: int) returns (ok: bool, r: BlockAnalysis)
    requires blockSize > 0
    ensures ok <==> |a| == |b|
    ensures ok ==> |r.matches| == ChunkCount(|a|, blockSize)
    ensures ok ==> forall k: nat | k < |r.matches| :: r.matches[k] <==> Chunk(a, blockSize, k) == Chunk(b, blockSize, k)
    ensures ok ==> r.blocksDifferent == Falses(r.matches)
    ensures ok ==> r.bytesDifferent == Hamming(a, b, |a|) && Ends(a, b, |a|, r.firstDiff, r.lastDiff)
    ensures ok ==> r.bytesDifferent == |set i | 0 <= i < |a| && a[i] != b[i]|
    ensures ok ==> r.blocksDifferent == |set k | 0 <= k < |r.matches| && !r.matches[k]|
    ensures ok ==>
      (r.bytesDifferent == 0 <==> a == b) && (r.blocksDifferent == 0 <==> a == b) && (r.firstDiff == -1 <==> a == b)
  {
    r := BlockAnalysis([], 0, 0, -1, -1);
    if |a| != |b| { return false, r; }
    var blocks := ChunkCount(|a|, blockSize);
    var matches, different, bytes, first, last := seq(blocks, _ => true), 0, 0, -1, -1;
    ghost var done: nat := 0;
    for block := 0 to blocks
      invariant |matches| == blocks && done == Covered(|a|, blockSize, block)
      invariant Tallied(a, b, done, bytes, first, last)
      invariant forall k: nat | k < block :: matches[k] <==> Chunk(a, blockSize, k) == Chunk(b, blockSize, k)
      invariant forall k | block <= k < blocks :: matches[k]
      invariant different == Falses(matches[..block])
    {
      ChunkBounds(|a|, blockSize, block);
      CoveredIsLo(|a|, blockSize, block);
      var lo := block * blockSize;
      var hi := Min(lo + blockSize, |a|);
      var same;
      same, bytes, first, last := CompareBlock(a, b, lo, hi, bytes, first, last);
      EqualIsChunk(a, b, blockSize, block);
      matches := matches[block := same];
      assert matches[..block + 1][..block] == matches[..block];
      if !same { different := different + 1; }
      done := hi;
    }
    assert matches[..blocks] == matches;
    CoveredAll(|a|, blockSize);
    ok, r := true, BlockAnalysis(matches, different, bytes, first, last);
    HammingCounts(a, b, |a|);
    FalsesCount(matches);
    EndsMeanEqual(a, b, first, last);
    HammingMeansEqual(a, b);
    FlagsMeanEqual(a, b, blockSize, matches);
  }

  lemma EndsMeanEqual(a: seq<Byte>, b: seq<Byte>, first: int, last: int)
    requires |a| == |b| && Ends(a, b, |a|, first, last)
    ensures first == -1 <==> a == b
  {}

  lemma HammingMeansEqual(a: seq<Byte>, b: seq<Byte>)
    requires |a| == |b|
    ensures Hamming(a, b, |a|) == 0 <==> a == b
  {
    HammingZero(a, b, |a|);
    assert a[..|a|] == a && b[..|a|] == b;
  }

  lemma FlagsMeanEqual(a: seq<Byte>, b: seq<Byte>, c: int, matches: seq<bool>)
    requires c > 0 && |a| == |b| && |matches| == ChunkCount(|a|, c)
    requires forall k: nat | k < |matches| :: matches[k] <==> Chunk(a, c, k) == Chunk(b, c, k)
    ensures Falses(matches) == 0 <==> a == b
  {
    FalsesZero(matches);
    if forall k | 0 <= k < |matches| :: matches[k] { EqualByChunks(a, b, c); }
  }

  lemma EqualIsChunk(a: seq<Byte>, b: seq<Byte>, c: int, block: nat)
    requires c > 0 && |a| == |b| && block < ChunkCount(|a|, c)
    ensures Equal(a, b, Lo(c, block), Hi(|a|, c, block)) <==> Chunk(a, c, block) == Chunk(b, c, block)
  {
    ChunkBounds(|a|, c, block);
    var lo, hi := Lo(c, block), Hi(|a|, c, block);
    if Chunk(a, c, block) == Chunk(b, c, block) {
      forall i | lo <= i < hi ensures a[i] == b[i] {
        assert a[i] == Chunk(a, c, block)[i - lo] && b[i] == Chunk(b, c, block)[i - lo];
      }
    }
  }

  lemma {:induction false} HammingZero(a: seq<Byte>, b: seq<Byte>, n: nat)
    requires n <= |a| && n <= |b|
    ensures Hamming(a, b, n) == 0 <==> a[..n] == b[..n]
    ensures Hamming(a, b, n) <= n
  {
    if n > 0 {
      HammingZero(a, b, n - 1);
      assert a[..n] == a[..n - 1] + [a[n - 1]] && b[..n] == b[..n - 1] + [b[n - 1]];
    }
  }

  function DifferingUpTo(a: seq<Byte>, b: seq<Byte>, n: nat): set<int>
    requires n <= |a| && n <= |b|
  {
    set i | 0 <= i < n && a[i] != b[i]
  }

  /** The running total is the number of differing positions. */
  lemma {:induction false} HammingCounts(a: seq<Byte>, b: seq<Byte>, n: nat)
    requires n <= |a| && n <= |b|
    ensures Hamming(a, b, n) == |set i | 0 <= i < n && a[i] != b[i]|
  {
    if n > 0 {
      HammingCounts(a, b, n - 1);
      assert (set i | 0 <= i < n && a[i] != b[i])
          == DifferingUpTo(a, b, n - 1) + if a[n - 1] != b[n - 1] then {n - 1} else {};
    }
  }

  function FalseUpTo(flags: seq<bool>, n: nat): set<int>
    requires n <= |flags|
  {
    set k | 0 <= k < n && !flags[k]
  }

  lemma {:induction false} FalsesCountUpTo(flags: seq<bool>, n: nat)
    requires n <= |flags|
    ensures Falses(flags[..n]) == |FalseUpTo(flags, n)|
  {
    if n > 0 {
      FalsesCountUpTo(flags, n - 1);
      assert flags[..n][..n - 1] == flags[..n - 1];
      assert FalseUpTo(flags, n) == FalseUpTo(flags, n - 1) + if flags[n - 1] then {} else {n - 1};
    }
  }

  lemma FalsesCount(flags: seq<bool>)
    ensures Falses(flags) == |set k | 0 <= k < |flags| && !flags[k]|
  {
    FalsesCountUpTo(flags, |flags|);
    assert flags[..|flags|] == flags;
    assert FalseUpTo(flags, |flags|) == set k | 0 <= k < |flags| && !flags[k];
  }

  lemma {:induction false} FalsesZero(flags: seq<bool>)
    ensures Falses(flags) == 0 <==> forall k | 0 <= k < |flags| :: flags[k]
  {
    if flags != [] {
      FalsesZero(flags[..|flags| - 1]);
      assert forall k | 0 <= k < |flags| - 1 :: flags[..|flags| - 1][k] == flags[k];
    }
  }

  // ---- Blocks of a small file ----

  datatype SmallFile = SmallFile(mismatched: seq<nat>, extraA: seq<nat>, extraB: seq<nat>)

  ghost predicate BlockDiffers(a: seq<Byte>, b: seq<Byte>, size: nat, i: nat)
    requires size > 0
  {
    exists j :: Lo(size, i) <= j < Lo(size, i) + size && j < |a| && j < |b| && a[j] != b[j]
  }

  lemma BlockDiffersBelow(a: seq<Byte>, b: seq<Byte>, size: nat, i: nat)
    requires size > 0 && BlockDiffers(a, b, size, i)
    ensures i < ChunkCount(Min(|a|, |b|), size)
  {
    var j :| Lo(size, i) <= j < Lo(size, i) + size && j < |a| && j < |b| && a[j] != b[j];
    ChunkOf(Min(|a|, |b|), size, j);
  }

  lemma BlockDiffersIff(a: seq<Byte>, b: seq<Byte>, size: nat, i: nat)
    requires size > 0
    ensures BlockDiffers(a, b, size, i) <==> !Equal(a, b, Lo(size, i), Min(Lo(size, i) + size, Min(|a|, |b|)))
  {
    var lo := Lo(size, i);
    if j :| lo <= j < lo + size && j < |a| && j < |b| && a[j] != b[j] {
      assert lo <= j < Min(lo + size, Min(|a|, |b|));
    }
  }

  /** The common blocks, each as far as both files go. */
  method MismatchedBlocks(a: seq<Byte>, b: seq<Byte>, blockSize: nat) returns (mismatched: seq<nat>)
    requires blockSize > 0
    ensures forall i: nat :: i in mismatched <==> BlockDiffers(a, b, blockSize, i)
  {
    mismatched := [];
    var common := Min(|a|, |b|);
    var blocks := ChunkCount(common, blockSize);
    for i := 0 to blocks
      invariant forall k: nat :: k in mismatched <==> k < i && BlockDiffers(a, b, blockSize, k)
    {
      ChunkBounds(common, blockSize, i);
      BlockDiffersIff(a, b, blockSize, i);
      var same := SameBlock(a, b, i * blockSize, Min(i * blockSize + blockSize, common));
      if !same { mismatched := mismatched + [i]; }
    }
    forall k: nat | BlockDiffers(a, b, blockSize, k) ensures k < blocks { BlockDiffersBelow(a, b, blockSize, k); }
  }

  /** Two whole files, whose sizes may differ. */
  method AnalyzeSmallFile(a: seq<Byte>, b: seq<Byte>, blockSize: nat) returns (r: SmallFile)
    requires blockSize > 0
    ensures forall i: nat :: i in r.mismatched <==> BlockDiffers(a, b, blockSize, i)
    ensures r.extraA == Range(ChunkCount(Min(|a|, |b|), blockSize), ChunkCount(|a|, blockSize))
    ensures r.extraB == Range(ChunkCount(Min(|a|, |b|), blockSize), ChunkCount(|b|, blockSize))
  {
    var common := Min(|a|, |b|);
    var blocksA, blocksB, blocks := ChunkCount(|a|, blockSize), ChunkCount(|b|, blockSize),
        ChunkCount(common, blockSize);
    CountGrows(common, |a|, blockSize);
    CountGrows(common, |b|, blockSize);
    var mismatched := MismatchedBlocks(a, b, blockSize);
    var extraA: seq<nat>, extraB: seq<nat> := [], [];
    for i := blocks to blocksA
      invariant extraA == Range(blocks, i)
    {
      extraA := extraA + [i];
    }
    for i := blocks to blocksB
      invariant extraB == Range(blocks, i)
    {
      extraB := extraB + [i];
    }
    r := SmallFile(mismatched, extraA, extraB);
  }

  /** The inner loop, which stops at the first difference. */
  method SameBlock(a: seq<Byte>, b: seq<Byte>, start: nat, end: nat) returns (same: bool)
    requires start <= end <= |a| && end <= |b|
    ensures same <==> Equal(a, b, start, end)
  {
    same := true;
    var j := start;
    while j < end && same
      invariant start <= j <= end
      invariant same ==> Equal(a, b, start, j)
      invariant !same ==> start <= j - 1 < end && a[j - 1] != b[j - 1]
    {
      if a[j] != b[j] { same := false; }
      j := j + 1;
    }
  }

  lemma CountGrows(m: nat, n: nat, c: int)
    requires c > 0 && m <= n
    ensures ChunkCount(m, c) <= ChunkCount(n, c)
  {
    var x, y := ChunkCount(m, c), ChunkCount(n, c);
    if y < x { MulMono(y, x - 1, c); }
  }

  /** When the block report of two files shows nothing: the shorter is a prefix of the longer, and the
      longer ends in the same block. Equal files are only one case of that. */
  lemma NothingShownIff(a: seq<Byte>, b: seq<Byte>, size: nat)
    requires size > 0
    ensures (forall i: nat :: !BlockDiffers(a, b, size, i)) && ChunkCount(|a|, size) == ChunkCount(|b|, size) <==>
            (a <= b || b <= a) && ChunkCount(|a|, size) == ChunkCount(|b|, size)
  {
    if forall i: nat :: !BlockDiffers(a, b, size, i) {
      forall j | 0 <= j < Min(|a|, |b|) ensures a[j] == b[j] {
        ChunkOf(|a|, size, j);
        assert !BlockDiffers(a, b, size, j / size);
      }
    }
  }

  /** A tail within the last block is such a difference that is not shown. */
  lemma TailNotShown(a: seq<Byte>, x: Byte, size: nat)
    requires size > 0 && |a| % size != 0
    ensures var b := a + [x];
            && a != b && (forall i: nat :: !BlockDiffers(a, b, size, i))
            && ChunkCount(|a|, size) == ChunkCount(|b|, size)
  {
    var b := a + [x];
    DivBounds(|a|, size);
    NextByteSameBlock(|a|, size);
    NothingShownIff(a, b, size);
  }

  lemma NextByteSameBlock(n: nat, size: nat)
    requires size > 0 && n % size != 0
    ensures ChunkCount(n + 1, size) == ChunkCount(n, size)
  {
    var q := n / size;
    CountIs(n, q + 1, size);
    CountIs(n + 1, q + 1, size);
  }

  lemma CountIs(n: nat, k: nat, c: int)
    requires c > 0 && k > 0 && (k - 1) * c < n <= k * c
    ensures ChunkCount(n, c) == k
  {
    var m := ChunkCount(n, c);
    if m < k { MulMono(m, k - 1, c); }
    if m > k { MulMono(k, m - 1, c); }
  }
}

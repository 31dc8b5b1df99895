/** The contract every chunk-checksum implementation shares, and the implementations that answer
    it without a multipart upload: the local file, the mock store and the small S3 object. */
module Checksums {
  import opened Chunks
  import opened Crc32
  import opened Sequences
  import opened DiffPlan

  const Block: nat := 256 * 1024
  const DefaultChunkSize: nat := 8 * 1024 * 1024

  // ---- The contract ----

  /** The chunks a request asks for: all of them, or the listed ones as listed. */
  function Requested(size: nat, c: int, ids: seq<int>): seq<int>
    requires c > 0
  {
    if ids == [] then seq(ChunkCount(size, c), i => i) else ids
  }

  predicate ValidIds(size: nat, c: int, ids: seq<int>)
    requires c > 0
  {
    forall k | 0 <= k < |ids| :: 0 <= ids[k] < ChunkCount(size, c)
  }

  /** `v` is the checksum of chunk `id` of the first `size` bytes of `data`. */
  predicate IsSum<R(==)>(g: Register<R>, data: seq<Byte>, size: nat, c: int, id: int, v: R)
    requires c > 0
  {
    && 0 <= id < ChunkCount(size, c)
    && Lo(c, id) <= Hi(size, c, id) <= |data|
    && v == Crc(g, data[Lo(c, id)..Hi(size, c, id)])
  }

  /** One checksum per requested chunk, in request order, duplicates included. */
  predicate Exact<R(==)>(g: Register<R>, data: seq<Byte>, size: nat, c: int, ids: seq<int>, r: seq<R>)
    requires c > 0
  {
    && ValidIds(size, c, ids)
    && |r| == |Requested(size, c, ids)|
    && forall k | 0 <= k < |r| :: IsSum(g, data, size, c, Requested(size, c, ids)[k], r[k])
  }

  /** Exact, or nothing: never a part of an answer, never a neighbour's checksum. */
  predicate Honoured<R(==)>(g: Register<R>, data: seq<Byte>, size: nat, c: int, ids: seq<int>, r: seq<R>)
    requires c > 0
  {
    r == [] || Exact(g, data, size, c, ids, r)
  }

  /** The checksums of the requested chunks, under any checksum function. */
  function SumsFor<R>(sum: seq<Byte> -> R, data: seq<Byte>, c: int, ids: seq<int>): (r: seq<R>)
    requires c > 0 && ValidIds(|data|, c, ids)
    ensures |r| == |Requested(|data|, c, ids)|
    ensures forall k | 0 <= k < |r| :: r[k] == sum(Chunk(data, c, Requested(|data|, c, ids)[k]))
  {
    var asked := Requested(|data|, c, ids);
    seq(|asked|, k requires 0 <= k < |asked| => sum(Chunk(data, c, asked[k])))
  }

  /** The contract fixes the answer: an exact one is the checksums of the requested chunks. Everything said
      of `SumsFor` and `Sums` so holds of what the implementations return. */
  lemma ExactIsSums<R>(g: Register<R>, data: seq<Byte>, c: int, ids: seq<int>, r: seq<R>)
    requires c > 0
    ensures Exact(g, data, |data|, c, ids, r) <==>
            ValidIds(|data|, c, ids) && r == SumsFor(SumOf(g), data, c, ids)
    ensures ids == [] ==> SumsFor(SumOf(g), data, c, ids) == Sums(SumOf(g), data, c)
  {
    var asked := Requested(|data|, c, ids);
    if ValidIds(|data|, c, ids) {
      forall k, v | 0 <= k < |asked|
        ensures IsSum(g, data, |data|, c, asked[k], v) <==> v == Crc(g, Chunk(data, c, asked[k]))
      {
        ChunkBounds(|data|, c, asked[k]);
      }
    }
  }

  /** Two implementations that both answer a request agree position by position. */
  lemma {:induction false} AnswersAgree<R>(g: Register<R>, data: seq<Byte>, size: nat, c: int, ids: seq<int>, r: seq<R>,
                                           r': seq<R>)
    requires c > 0 && Honoured(g, data, size, c, ids, r) && Honoured(g, data, size, c, ids, r')
    requires r != [] && r' != []
    ensures r == r'
  {
    forall k | 0 <= k < |r| ensures r[k] == r'[k] {
      assert IsSum(g, data, size, c, Requested(size, c, ids)[k], r[k]);
      assert IsSum(g, data, size, c, Requested(size, c, ids)[k], r'[k]);
    }
  }

  /** Answers about two byte strings agree at a position exactly when the chunks there have one
      checksum; if checksums of these chunks do not collide, exactly when the chunks are equal. */
  lemma {:induction false} PositionsCompare<R>(g: Register<R>, a: seq<Byte>, b: seq<Byte>, c: int, ids: seq<int>,
                                               ra: seq<R>, rb: seq<R>)
    requires c > 0 && ChunkCount(|a|, c) == ChunkCount(|b|, c)
    requires Exact(g, a, |a|, c, ids, ra) && Exact(g, b, |b|, c, ids, rb)
    requires forall i: nat | i < ChunkCount(|a|, c) && Crc(g, Chunk(a, c, i)) == Crc(g, Chunk(b, c, i)) ::
               Chunk(a, c, i) == Chunk(b, c, i)
    ensures |ra| == |rb|
    ensures ids == [] ==> (ra == rb <==> a == b)
  {
    if ids == [] && ra == rb {
      forall i: nat | i < ChunkCount(|a|, c) ensures Chunk(a, c, i) == Chunk(b, c, i) {
        assert Requested(|a|, c, ids)[i] == i && Requested(|b|, c, ids)[i] == i;
        assert IsSum(g, a, |a|, c, i, ra[i]) && IsSum(g, b, |b|, c, i, rb[i]);
      }
      EqualByChunks(a, b, c);
    }
    if ids == [] && a == b && ra != [] {
      AnswersAgree(g, a, |a|, c, ids, ra, rb);
    }
  }

  /** The two ways the code counts chunks agree. */
  lemma CountsAgree(size: nat, c: int)
    requires c > 0
    ensures (size + c - 1) / c == ChunkCount(size, c)
  {
    var q := size / c;
    DivBounds(size, c);
    if size % c == 0 {
      QuotientIs(size + c - 1, q, c);
    } else {
      Distribute(q + 1, c);
      QuotientIs(size + c - 1, q + 1, c);
    }
  }

  lemma QuotientIs(n: nat, q: int, c: int)
    requires c > 0 && q * c <= n < q * c + c
    ensures n / c == q
  {
    DivBounds(n, c);
    if n / c < q { MulMono(n / c + 1, q, c); }
    if n / c > q { MulMono(q + 1, n / c, c); }
  }

  // ---- A local file ----

  /** `pread`: an error, the end of the file, or some of the bytes. A `sound` file gives at least one
      byte wherever it has one. */
  method Pread(data: seq<Byte>, sound: bool, buffer: array<Byte>, at: nat, count: nat, offset: nat) returns (n: int)
    requires at + count <= buffer.Length && count > 0
    modifies buffer
    ensures n <= count
    ensures n > 0 ==> offset + n <= |data| && buffer[at..at + n] == data[offset..offset + n]
    ensures forall j | 0 <= j < at :: buffer[j] == old(buffer[j])
    ensures sound && offset < |data| ==> n > 0
  {
    n := *;
    var room := |data| - offset;
    if n > count || n > room { n := Min(count, room); }
    if sound && room > 0 && n <= 0 { n := 1; }
    if n > 0 {
      forall j | 0 <= j < n { buffer[at + j] := data[offset + j]; }
    }
  }

  /** `n` bytes at an offset, wherever the offset is if there are none. */
  function Piece(data: seq<Byte>, offset: nat, n: nat): seq<Byte>
    requires n > 0 ==> offset + n <= |data|
  {
    if n == 0 then [] else data[offset..offset + n]
  }

  lemma PieceGrows(data: seq<Byte>, offset: nat, n: nat, more: nat)
    requires more > 0 && offset + n + more <= |data|
    ensures Piece(data, offset, n) + data[offset + n..offset + n + more] == Piece(data, offset, n + more)
  {
    Adjoin(data, offset, offset + n, offset + n + more);
  }

  /** Fill the front of the buffer with `want` bytes of the file, however the reads are cut. */
  method ReadBlock(data: seq<Byte>, sound: bool, buffer: array<Byte>, want: nat, offset: nat) returns (ok: bool)
    requires want <= buffer.Length
    modifies buffer
    ensures ok && want > 0 ==> offset + want <= |data|
    ensures ok ==> buffer[..want] == Piece(data, offset, want)
    ensures sound && offset + want <= |data| ==> ok
  {
    var got: nat := 0;
    while got < want
      invariant got <= want && (got > 0 ==> offset + got <= |data|)
      invariant buffer[..got] == Piece(data, offset, got)
    {
      ghost var had := buffer[..got];
      var n := Pread(data, sound, buffer, got, want - got, offset + got);
      if n <= 0 { return false; }
      assert buffer[..got] == had;
      FilledGrows(buffer[..], data, offset, got, n);
      got := got + n;
    }
    ok := true;
  }

  lemma SumGrows<R(!new)>(g: Register<R>, data: seq<Byte>, offset: nat, done: nat, want: nat)
    requires Valid(g) && want > 0 && offset + done + want <= |data|
    ensures Update(g, Crc(g, Piece(data, offset, done)), Piece(data, offset + done, want)) == Crc(g,
        Piece(data, offset, done + want))
  {
    Chaining(g, g.start, Piece(data, offset, done), Piece(data, offset + done, want));
    PieceGrows(data, offset, done, want);
  }

  lemma FilledGrows(filled: seq<Byte>, data: seq<Byte>, offset: nat, got: nat, n: nat)
    requires n > 0 && got + n <= |filled| && offset + got + n <= |data|
    requires filled[..got] == Piece(data, offset, got) && filled[got..got + n] == data[offset + got..offset + got + n]
    ensures filled[..got + n] == Piece(data, offset, got + n)
  {
    Adjoin(filled, 0, got, got + n);
    PieceGrows(data, offset, got, n);
  }

  /** One block more: read it and continue the checksum with it. */
  method AddBlock<R(!new)>(g: Register<R>, data: seq<Byte>, sound: bool, buffer: array<Byte>, crc0: R, offset: nat,
                           done: nat, want: nat)
    returns (ok: bool, crc: R)
    requires Valid(g) && 0 < want <= buffer.Length && (done > 0 ==> offset + done <= |data|)
    requires crc0 == Crc(g, Piece(data, offset, done))
    modifies buffer
    ensures ok ==> offset + done + want <= |data| && crc == Crc(g, Piece(data, offset, done + want))
    ensures sound && offset + done + want <= |data| ==> ok
  {
    crc := crc0;
    ok := ReadBlock(data, sound, buffer, want, offset + done);
    if ok {
      SumGrows(g, data, offset, done, want);
      crc := Update(g, crc, buffer[..want]);
    }
  }

  /** One task: read chunk `id` in blocks of 256 KiB and chain the checksum through them. */
  method ComputeChunk<R(!new)>(g: Register<R>, data: seq<Byte>, sound: bool, size: nat, c: int, id: int,
                               buffer: array<Byte>)
    returns (ok: bool, crc: R)
    requires Valid(g) && c > 0 && buffer.Length >= Block
    modifies buffer
    ensures ok ==> IsSum(g, data, size, c, id, crc)
    ensures sound && size <= |data| && 0 <= id < ChunkCount(size, c) ==> ok
  {
    ok, crc := false, g.start;
    if id < 0 || id >= ChunkCount(size, c) { return; }
    ChunkBounds(size, c, id);
    var offset := id * c;
    var length := if offset + c <= size then c else size - offset;
    var done: nat := 0;
    while done < length
      invariant done <= length && (done > 0 ==> offset + done <= |data|)
      invariant crc == Crc(g, Piece(data, offset, done))
    {
      var want := Min(Block, length - done);
      ok, crc := AddBlock(g, data, sound, buffer, crc, offset, done, want);
      if !ok { return; }
      done := done + want;
    }
    ok := true;
  }

  function Below(n: nat): (s: set<nat>)
    ensures forall k: nat :: k in s <==> k < n
  {
    if n == 0 then {} else Below(n - 1) + {n - 1}
  }

  /** The local implementation. Each task owns one slot; they may run in any order. */
  method ComputeChunks<R(!new)>(g: Register<R>, data: seq<Byte>, sound: bool, size: int, chunkSize: int, ids: seq<int>)
    returns (r: seq<R>)
    requires Valid(g)
    ensures var c := if chunkSize <= 0 then DefaultChunkSize else chunkSize;
            && (size < 0 ==> r == [])
            && (size >= 0 ==> Honoured(g, data, size, c, ids, r))
            && (sound && 0 < size <= |data| && ValidIds(size, c, ids) ==> r != [])
  {
    var c: int := if chunkSize <= 0 then DefaultChunkSize else chunkSize;
    if size <= 0 { return []; }
    var todo := Requested(size, c, ids);
    var results := new R[|todo|](_ => g.start);
    var buffer := new Byte[Block];
    var failed := false;
    var waiting: set<nat> := Below(|todo|);
    while waiting != {}
      invariant forall k | k in waiting :: k < |todo|
      invariant !failed ==> forall k | 0 <= k < |todo| && k !in waiting :: IsSum(g, data, size, c, todo[k], results[k])
      invariant sound && size <= |data| && ValidIds(size, c, ids) ==> !failed
      invariant fresh(results) && fresh(buffer)
    {
      var k :| k in waiting;
      waiting := waiting - {k};
      var ok, crc := ComputeChunk(g, data, sound, size, c, todo[k], buffer);
      if ok { results[k] := crc; } else { failed := true; }
    }
    if failed { return []; }
    assert forall k | 0 <= k < |todo| :: IsSum(g, data, size, c, todo[k], results[k]);
    r := results[..];
  }

  // ---- The mock store ----

  method MockChunkCrcs<R>(g: Register<R>, data: seq<Byte>, size: int, chunkSize: int, ids: seq<int>) returns (r: seq<R>)
    ensures var c := if chunkSize <= 0 then DefaultChunkSize else chunkSize;
            && Honoured(g, data, |data|, c, ids, r)
            && (r != [] <==> size == |data| && size > 0 && ValidIds(|data|, c, ids))
  {
    if size != |data| { return []; }
    var c: int := if chunkSize <= 0 then DefaultChunkSize else chunkSize;
    var n := ChunkCount(|data|, c);
    for k := 0 to |ids|
      invariant forall j | 0 <= j < k :: ids[j] >= 0
    {
      if ids[k] < 0 { return []; }
    }
    var todo := Requested(|data|, c, ids);
    for k := 0 to |todo|
      invariant forall j | 0 <= j < k :: todo[j] < n
    {
      if todo[k] >= n { return []; }
    }
    r := [];
    for k := 0 to |todo|
      invariant |r| == k
      invariant forall j | 0 <= j < k :: IsSum(g, data, |data|, c, todo[j], r[j])
    {
      ChunkBounds(|data|, c, todo[k]);
      var start := todo[k] * c;
      var end := Min(start + c, |data|);
      r := r + [Crc(g, data[start..end])];
    }
  }

  // ---- The S3 object of at most one chunk ----

  /** What a ranged read may return for the first `size` bytes: nothing, or the bytes the object has there. */
  predicate RangeReply(data: seq<Byte>, size: nat, body: seq<Byte>) {
    |body| <= size && body <= data
  }

  /** An object of at most one chunk is downloaded and summed here; any other valid request is the fan-out's.
      `body` is whatever the ranged read returned. */
  method SmallObjectCrcs<R>(g: Register<R>, data: seq<Byte>, size: int, chunkSize: int, ids: seq<int>, body: seq<Byte>)
    returns (answered: bool, r: seq<R>)
    requires size > 0 ==> RangeReply(data, size, body)
    ensures var c := if chunkSize <= 0 then DefaultChunkSize else chunkSize;
            && (size < 0 ==> answered && r == [])
            && (size >= 0 ==> Honoured(g, data, size, c, ids, r))
            && (answered <==> size <= c || exists k :: 0 <= k < |ids| && !(0 <= ids[k] < ChunkCountForSize(size, c)))
            && (answered && r == [] && size > 0 && ValidIds(size, c, ids) ==> |body| != size)
  {
    var c: int := if chunkSize <= 0 then DefaultChunkSize else chunkSize;
    var n := if size > 0 then ChunkCount(size, c) else 0;
    for k := 0 to |ids|
      invariant forall j | 0 <= j < k :: 0 <= ids[j] < n
    {
      if ids[k] < 0 || ids[k] >= n { return true, []; }
    }
    if size > c { return false, []; }
    if size <= 0 || body == [] || |body| != size { return true, []; }
    var crc := Crc(g, body);
    QuotientIs(size + c - 1, 1, c);
    CountsAgree(size, c);
    assert data[0..size] == body;
    r := seq(if ids == [] then 1 else |ids|, _ => crc);
    answered := true;
  }
}

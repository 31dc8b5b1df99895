/** The checksum contract and the transfers that rest on it, for the register of the standard. */
module StandardCrc {
  import opened Chunks
  import opened Crc32
  import opened DiffPlan
  import opened Checksums
  import DiffDownload
  import Comparison

  /** The local implementation with the standard's CRC-32. */
  method LocalCrc32s(data: seq<Byte>, sound: bool, size: int, chunkSize: int, ids: seq<int>) returns (r: seq<bv32>)
    ensures var c := if chunkSize <= 0 then DefaultChunkSize else chunkSize;
            && (size < 0 ==> r == [])
            && (size >= 0 ==> Honoured(Spec, data, size, c, ids, r))
            && (sound && 0 < size <= |data| && ValidIds(size, c, ids) ==> r != [])
  {
    SpecIsValid();
    r := ComputeChunks(Spec, data, sound, size, chunkSize, ids);
  }

  /** What any honoured answer hands to a transfer or a comparison: the sums of all chunks, or nothing. */
  lemma AnswerIsSums(data: seq<Byte>, c: int, r: seq<bv32>)
    requires c > 0 && Honoured(Spec, data, |data|, c, [], r)
    ensures r == [] || r == Sums(SumOf(Spec), data, c)
    ensures Comparison.Answered(SumOf(Spec), data, c, [], r)
  {
    ExactIsSums(Spec, data, c, [], r);
  }

  /** The differential download over answers that honour the contract, whichever implementations gave them:
      true means the local file equals the object. */
  lemma DownloadOverContract(remote: seq<Byte>, local: seq<Byte>, remoteCrcs: seq<bv32>, localCrcs: seq<bv32>,
                             c: int, workers: nat, end: DiffDownload.State, reported: nat)
    requires c > 0 && workers > 0 && NoCollision(SumOf(Spec), remote, local, c)
    requires Honoured(Spec, remote, |remote|, c, [], remoteCrcs) && Honoured(Spec, local, |local|, c, [], localCrcs)
    requires remoteCrcs == [] || |remoteCrcs| == ChunkCount(|remote|, c)
    requires DiffDownload.MayReturn(remote, local, remoteCrcs, localCrcs, c, workers, end, reported)
    ensures end.outcome == DiffDownload.Returned(true) ==> end.file == remote
    ensures end.outcome == DiffDownload.Returned(false) ==>
              DiffDownload.Untouched(local, end) || end.mtime.Epoch? || end.markFailed
  {
    AnswerIsSums(remote, c, remoteCrcs);
    AnswerIsSums(local, c, localCrcs);
    DiffDownload.DownloadIsCorrect(SumOf(Spec), remote, local, remoteCrcs, localCrcs, c, workers, end, reported);
  }
}

/** Differential upload: a multipart upload whose unchanged chunks are copied from the object it
    replaces and whose other chunks are sent. */
module DiffUpload {
  import opened Chunks
  import opened DiffPlan
  import opened ObjectStore
  import opened Limits

  const MaxSinglePut: int := 5 * 1024 * 1024 * 1024

  /** How a call ended: nothing to do, one PutObject, a multipart upload, or no attempt at all. */
  datatype Path = Refused | Current | SinglePut | Multipart

  /** The first `n` chunks, put end to end. */
  lemma ChunksPrefix(s: seq<Byte>, c: int, n: nat)
    requires c > 0 && n < ChunkCount(|s|, c)
    ensures Lo(c, n) <= Hi(|s|, c, n) <= |s|
    ensures s[..Lo(c, n)] + Chunk(s, c, n) == s[..Hi(|s|, c, n)]
  {
    ChunkBounds(|s|, c, n);
  }

  /** The list names parts 1..n, which hold the first n chunks of `s`. */
  ghost predicate HoldsChunks<R>(s: seq<Byte>, c: int, parts: map<nat, seq<Byte>>, list: seq<(nat, R)>)
    requires c > 0
  {
    && |list| <= ChunkCount(|s|, c)
    && forall i: nat | i < |list| :: list[i].0 == i + 1 && i + 1 in parts && parts[i + 1] == Chunk(s, c, i)
  }

  /** Such a list assembles to the prefix its chunks make up. */
  lemma {:induction false} AssemblesPrefix<R>(s: seq<Byte>, c: int, parts: map<nat, seq<Byte>>, list: seq<(nat, R)>)
    requires c > 0 && HoldsChunks(s, c, parts, list)
    ensures 0 <= Covered(|s|, c, |list|) <= |s|
    ensures Assemble(parts, list) == s[..Covered(|s|, c, |list|)]
  {
    if list != [] {
      var n := |list| - 1;
      AssemblesPrefix(s, c, parts, list[..n]);
      assert parts[list[n].0] == Chunk(s, c, n);
      ChunksPrefix(s, c, n);
      CoveredIsLo(|s|, c, n);
    }
  }

  /** All chunks together are the whole. */
  lemma AssemblesAll<R>(s: seq<Byte>, c: int, parts: map<nat, seq<Byte>>, list: seq<(nat, R)>)
    requires c > 0 && |list| == ChunkCount(|s|, c) && HoldsChunks(s, c, parts, list)
    ensures Assemble(parts, list) == s
  {
    AssemblesPrefix(s, c, parts, list);
    CoveredAll(|s|, c);
    assert s[..|s|] == s;
  }

  method UploadPartWithRetry<R(==)>(store: Store<R>, key: Key, id: nat, number: nat, data: seq<Byte>,
                                    wasCancelled: bool)
    returns (r: PartResult<R>, cancelled: bool)
    requires store.Valid()
    modifies store`uploads, store`sent, store`failures
    ensures store.Valid() && (wasCancelled ==> cancelled)
    ensures OnePart(old(store.uploads), store.uploads, id, number)
    ensures old(store.sent) <= store.sent <= old(store.sent) + {(id, number)}
    ensures r.Part? ==> (id, number) in store.sent
    ensures r.Part? ==> id in store.uploads && number in store.uploads[id].parts
                        && store.uploads[id].parts[number] == data && r.checksum == store.sum(data)
    // Without a value and uncancelled, an open upload was tried as often as allowed.
    ensures r.NoPart? && !cancelled && id in old(store.uploads) && old(store.uploads)[id].key == key ==>
              store.failures == old(store.failures) + MaxRetries + 1
    ensures store.calm && !wasCancelled ==> !cancelled
    ensures store.calm && !wasCancelled && id in old(store.uploads) && old(store.uploads)[id].key == key ==> r.Part?
  {
    cancelled := wasCancelled;
    for attempt := 0 to MaxRetries + 1
      invariant store.Valid() && (wasCancelled ==> cancelled)
      invariant store.calm && !wasCancelled ==> !cancelled
      invariant store.calm && !wasCancelled && id in old(store.uploads) && old(store.uploads)[id].key == key ==>
        attempt == 0
      invariant OnePart(old(store.uploads), store.uploads, id, number)
      invariant id in old(store.uploads) && old(store.uploads)[id].key == key ==>
        store.failures == old(store.failures) + attempt
      invariant old(store.sent) <= store.sent <= old(store.sent) + {(id, number)}
    {
      var interrupted: bool := *;
      cancelled := cancelled || (interrupted && !store.calm);
      if cancelled {
        return NoPart, cancelled;
      }
      r := store.UploadPart(key, id, number, data);
      if r.Part? {
        return;
      }
    }
    r := NoPart;
  }

  method UploadPartCopyWithRetry<R(==)>(store: Store<R>, key: Key, id: nat, number: nat, source: Key,
                                         first: int, last: int, wasCancelled: bool)
    returns (r: PartResult<R>, cancelled: bool)
    requires store.Valid()
    modifies store`uploads, store`copied, store`failures
    ensures store.Valid() && (wasCancelled ==> cancelled)
    ensures OnePart(old(store.uploads), store.uploads, id, number)
    ensures old(store.copied) <= store.copied <= old(store.copied) + {(id, number)}
    ensures r.Part? ==> (id, number) in store.copied
    ensures r.Part? ==> source in store.objects && 0 <= first <= last < |store.objects[source]|
                        && id in store.uploads && number in store.uploads[id].parts
                        && store.uploads[id].parts[number] == store.objects[source][first..last + 1]
                        && r.checksum == store.sum(store.objects[source][first..last + 1])
    // Without a value and uncancelled, a copy that can be made was tried as often as allowed.
    ensures (r.NoPart? && !cancelled && id in old(store.uploads) && old(store.uploads)[id].key == key
             && source in store.objects && 0 <= first <= last < |store.objects[source]|) ==>
              store.failures == old(store.failures) + MaxRetries + 1
    ensures store.calm && !wasCancelled ==> !cancelled
    ensures (store.calm && !wasCancelled && id in old(store.uploads) && old(store.uploads)[id].key == key
             && source in store.objects && 0 <= first <= last < |store.objects[source]|) ==> r.Part?
  {
    cancelled := wasCancelled;
    for attempt := 0 to MaxRetries + 1
      invariant store.Valid() && (wasCancelled ==> cancelled)
      invariant store.calm && !wasCancelled ==> !cancelled
      invariant (store.calm && !wasCancelled && id in old(store.uploads) && old(store.uploads)[id].key == key
                 && source in store.objects && 0 <= first <= last < |store.objects[source]|) ==> attempt == 0
      invariant OnePart(old(store.uploads), store.uploads, id, number)
      invariant (id in old(store.uploads) && old(store.uploads)[id].key == key
                 && source in store.objects && 0 <= first <= last < |store.objects[source]|) ==>
        store.failures == old(store.failures) + attempt
      invariant old(store.copied) <= store.copied <= old(store.copied) + {(id, number)}
    {
      var interrupted: bool := *;
      cancelled := cancelled || (interrupted && !store.calm);
      if cancelled {
        return NoPart, cancelled;
      }
      r := store.UploadPartCopy(key, id, number, source, first, last);
      if r.Part? {
        return;
      }
    }
    r := NoPart;
  }

  /** Only part `number` of upload `id` may differ, and the upload stays open for its key. */
  ghost predicate OnePart(before: map<nat, Upload>, after: map<nat, Upload>, id: nat, number: nat) {
    && after.Keys == before.Keys
    && (forall i | i in before && i != id :: after[i] == before[i])
    && (id in before ==> after[id].key == before[id].key)
    && forall n | id in before && n != number && n in before[id].parts ::
         n in after[id].parts && after[id].parts[n] == before[id].parts[n]
  }

  /** The whole-file fallback: PutObject with retries. */
  method PutWithRetry<R(==)>(store: Store<R>, key: Key, data: seq<Byte>, wasCancelled: bool)
    returns (ok: bool, ghost cancelled: bool)
    requires store.Valid()
    modifies store`objects, store`failures
    ensures store.Valid()
    ensures store.objects == old(store.objects)[key := data] || (!ok && store.objects == old(store.objects))
    ensures !ok && !cancelled ==> store.failures == old(store.failures) + MaxRetries + 1
    ensures store.calm && !wasCancelled ==> ok
  {
    var stop := wasCancelled;
    cancelled := stop;
    for attempt := 0 to MaxRetries + 1
      invariant store.Valid()
      invariant store.objects == old(store.objects)[key := data] || store.objects == old(store.objects)
      invariant store.failures == old(store.failures) + attempt && cancelled == stop
      invariant store.calm && !wasCancelled ==> attempt == 0 && !stop
    {
      var interrupted: bool := *;
      stop := stop || (interrupted && !store.calm);
      cancelled := stop;
      if stop {
        return false, true;
      }
      ok := store.PutObject(key, data);
      if ok {
        return;
      }
    }
    ok := false;
  }

  /** Entry `i` of a list names part i + 1, which holds chunk `i`, with its checksum. */
  ghost predicate EntryFor<R>(parts: map<nat, seq<Byte>>, sum: seq<Byte> -> R, local: seq<Byte>, c: int,
                              entry: (nat, R), i: nat)
    requires c > 0 && i < ChunkCount(|local|, c)
  {
    && entry.0 == i + 1 && entry.0 in parts
    && parts[entry.0] == Chunk(local, c, i) && entry.1 == sum(Chunk(local, c, i))
  }

  /** Parts 1..n of upload `id` hold the first n chunks of `local`, and the list says so. */
  ghost predicate Listed<R>(uploads: map<nat, Upload>, sum: seq<Byte> -> R, key: Key, id: nat, local: seq<Byte>, c: int,
                            list: seq<(nat, R)>)
    requires c > 0
  {
    && id in uploads && uploads[id].key == key && |list| <= ChunkCount(|local|, c)
    && forall i: nat | i < |list| :: EntryFor(uploads[id].parts, sum, local, c, list[i], i)
  }

  ghost predicate Collected<R>(store: Store<R>, key: Key, id: nat, local: seq<Byte>, c: int, list: seq<(nat, R)>)
    requires c > 0
    reads store
  {
    Listed(store.uploads, store.sum, key, id, local, c, list)
  }

  /** Part `number` is the only one that may have been asked for in between, and was if the call `succeeded`. */
  ghost predicate Asked(before: set<(nat, nat)>, after: set<(nat, nat)>, id: nat, number: nat, succeeded: bool) {
    before <= after <= before + {(id, number)} && (succeeded ==> (id, number) in after)
  }

  /** The parts of upload `id` that chunks 0..n-1 with this flag go to. */
  ghost function PartsFor(id: nat, same: seq<bool>, n: nat, flag: bool): set<(nat, nat)>
    requires n <= |same|
  {
    set i | 0 <= i < n && same[i] == flag :: (id, i + 1)
  }

  lemma PartsForNext(id: nat, same: seq<bool>, n: nat, flag: bool)
    requires n < |same|
    ensures PartsFor(id, same, n + 1, flag) ==
              PartsFor(id, same, n, flag) + if same[n] == flag then {(id, n + 1)} else {}
  {
    assert forall p | p in PartsFor(id, same, n, flag) :: p in PartsFor(id, same, n + 1, flag);
    if same[n] == flag { assert (id, n + 1) in PartsFor(id, same, n + 1, flag); }
  }

  /** Of upload `id`, exactly the parts of the first `n` chunks were asked for since: copies of the flagged ones, the
      bytes of the others. */
  ghost predicate Routed(copied: set<(nat, nat)>, sent: set<(nat, nat)>, copied0: set<(nat, nat)>,
                         sent0: set<(nat, nat)>, id: nat, same: seq<bool>, n: nat)
  {
    n <= |same| && copied == copied0 + PartsFor(id, same, n, true) && sent == sent0 + PartsFor(id, same, n, false)
  }

  lemma RoutedNext(copied: set<(nat, nat)>, sent: set<(nat, nat)>, copied': set<(nat, nat)>, sent': set<(nat, nat)>,
                   copied0: set<(nat, nat)>, sent0: set<(nat, nat)>, id: nat, same: seq<bool>, n: nat)
    requires n < |same| && Routed(copied, sent, copied0, sent0, id, same, n)
    requires if same[n] then sent' == sent && Asked(copied, copied', id, n + 1, true)
             else copied' == copied && Asked(sent, sent', id, n + 1, true)
    ensures Routed(copied', sent', copied0, sent0, id, same, n + 1)
  {
    PartsForNext(id, same, n, true);
    PartsForNext(id, same, n, false);
  }

  lemma CreditNext(size: nat, c: int, same: seq<bool>, n: nat)
    requires c > 0 && n < |same| == ChunkCount(size, c)
    ensures Credit(size, c, same[..n + 1]) ==
              Credit(size, c, same[..n]) + if same[n] then Hi(size, c, n) - Lo(c, n) else 0
  {
    FlagsTakeOne(same, n);
  }

  /** Put chunk `i` of `local` into part `i + 1`: by copy if the old object has it, else by upload. */
  method SendChunk<R(==)>(store: Store<R>, key: Key, id: nat, local: seq<Byte>, c: int, i: nat, copy: bool,
                          wasCancelled: bool)
    returns (r: PartResult<R>, cancelled: bool)
    requires store.Valid() && c > 0 && i < ChunkCount(|local|, c)
    requires copy ==> key in store.objects && i < ChunkCount(|store.objects[key]|, c)
                      && Chunk(store.objects[key], c, i) == Chunk(local, c, i)
    modifies store`uploads, store`copied, store`sent, store`failures
    ensures store.Valid()
    ensures OnePart(old(store.uploads), store.uploads, id, i + 1)
    ensures if copy then store.sent == old(store.sent) && Asked(old(store.copied), store.copied, id, i + 1, r.Part?)
            else store.copied == old(store.copied) && Asked(old(store.sent), store.sent, id, i + 1, r.Part?)
    ensures r.Part? ==> id in store.uploads && i + 1 in store.uploads[id].parts
                        && store.uploads[id].parts[i + 1] == Chunk(local, c, i)
                        && r.checksum == store.sum(Chunk(local, c, i))
    ensures store.calm && !wasCancelled ==> !cancelled
    ensures store.calm && !wasCancelled && id in old(store.uploads) && old(store.uploads)[id].key == key ==> r.Part?
  {
    ChunkBounds(|local|, c, i);
    cancelled := wasCancelled;
    if copy {
      ChunkBounds(|store.objects[key]|, c, i);
      var end := Min(i * c + c, |local|);
      assert |Chunk(store.objects[key], c, i)| == |Chunk(local, c, i)|;
      r, cancelled := UploadPartCopyWithRetry(store, key, id, i + 1, key, i * c, end - 1, cancelled);
      assert store.objects[key][i * c..end - 1 + 1] == Chunk(store.objects[key], c, i);
    } else {
      var readable: bool := *;
      readable := readable || store.calm;
      if !readable {
        return NoPart, cancelled;
      }
      r, cancelled := UploadPartWithRetry(store, key, id, i + 1, Chunk(local, c, i), cancelled);
    }
  }

  lemma ListedGrows<R>(before: map<nat, Upload>, after: map<nat, Upload>, sum: seq<Byte> -> R, key: Key, id: nat,
                       local: seq<Byte>, c: int, list: seq<(nat, R)>, checksum: R)
    requires c > 0 && |list| < ChunkCount(|local|, c) && Listed(before, sum, key, id, local, c, list)
    requires OnePart(before, after, id, |list| + 1) && |list| + 1 in after[id].parts
    requires after[id].parts[|list| + 1] == Chunk(local, c, |list|) && checksum == sum(Chunk(local, c, |list|))
    ensures Listed(after, sum, key, id, local, c, list + [(|list| + 1, checksum)])
  {
    var longer := list + [(|list| + 1, checksum)];
    forall i: nat | i < |longer| ensures EntryFor(after[id].parts, sum, local, c, longer[i], i) {
      if i < |list| {
        assert longer[i] == list[i] && EntryFor(before[id].parts, sum, local, c, list[i], i);
      }
    }
  }

  /** The part loop: copy what is the same, send what is not, stop at the first failure. */
  method TransferParts<R(==)>(store: Store<R>, key: Key, id: nat, local: seq<Byte>, c: int, same: seq<bool>,
                              wasCancelled: bool)
    returns (ok: bool, list: seq<(nat, R)>, transferred: nat, saved: nat)
    requires store.Valid() && c > 0 && |same| == ChunkCount(|local|, c)
    requires id in store.uploads && store.uploads[id].key == key
    requires forall i: nat | i < |same| && same[i] ::
      key in store.objects && i < ChunkCount(|store.objects[key]|, c)
          && Chunk(store.objects[key], c, i) == Chunk(local, c, i)
    modifies store`uploads, store`copied, store`sent, store`failures
    ensures store.Valid()
    ensures ok ==> |list| == |same| && Collected(store, key, id, local, c, list)
    ensures ok ==> transferred + saved == |local| && saved == Credit(|local|, c, same)
    ensures ok ==> Routed(store.copied, store.sent, old(store.copied), old(store.sent), id, same, |same|)
    ensures store.calm && !wasCancelled ==> ok
  {
    var cancelled := wasCancelled;
    list, transferred, saved := [], 0, 0;
    for i := 0 to |same|
      invariant store.Valid() && |list| == i && Collected(store, key, id, local, c, list)
      invariant transferred + saved == Covered(|local|, c, i) && saved == Credit(|local|, c, same[..i])
      invariant Routed(store.copied, store.sent, old(store.copied), old(store.sent), id, same, i)
      invariant store.calm && !wasCancelled ==> !cancelled
    {
      ghost var before, copied, sent := store.uploads, store.copied, store.sent;
      var r;
      r, cancelled := SendChunk(store, key, id, local, c, i, same[i], cancelled);
      if r.NoPart? {
        return false, list, transferred, saved;
      }
      CoveredStep(|local|, c, i);
      CreditNext(|local|, c, same, i);
      RoutedNext(copied, sent, store.copied, store.sent, old(store.copied), old(store.sent), id, same, i);
      if same[i] {
        saved := saved + |Chunk(local, c, i)|;
      } else {
        transferred := transferred + |Chunk(local, c, i)|;
      }
      ListedGrows(before, store.uploads, store.sum, key, id, local, c, list, r.checksum);
      list := list + [(i + 1, r.checksum)];
    }
    CoveredAll(|local|, c);
    assert same[..|same|] == same;
    ok := true;
  }

  /** A full collection is one the store has no ground to refuse, and it assembles to the file. */
  lemma CollectedIsAcceptable<R>(store: Store<R>, key: Key, id: nat, local: seq<Byte>, c: int, list: seq<(nat, R)>)
    requires c > 0 && Collected(store, key, id, local, c, list) && 0 < |list| == ChunkCount(|local|, c) <= MaxParts
    ensures store.Acceptable(key, id, list)
    ensures forall i | 0 <= i < |list| :: list[i].0 in store.uploads[id].parts
    ensures Assemble(store.uploads[id].parts, list) == local
  {
    ListHoldsChunks(store.uploads[id].parts, store.sum, local, c, list);
    AssemblesAll(local, c, store.uploads[id].parts, list);
  }

  lemma ListHoldsChunks<R>(parts: map<nat, seq<Byte>>, sum: seq<Byte> -> R, local: seq<Byte>, c: int,
                           list: seq<(nat, R)>)
    requires c > 0 && |list| <= ChunkCount(|local|, c)
    requires forall i: nat | i < |list| :: EntryFor(parts, sum, local, c, list[i], i)
    ensures HoldsChunks(local, c, parts, list)
    ensures forall i | 0 <= i < |list| :: list[i].0 == i + 1 && list[i].0 in parts && list[i].1 == sum(parts[list[i].0])
  {
    forall i: nat | i < |list|
      ensures list[i].0 == i + 1 && list[i].0 in parts && parts[list[i].0] == Chunk(local, c, i)
      ensures list[i].1 == sum(parts[list[i].0])
    {
      assert EntryFor(parts, sum, local, c, list[i], i);
    }
  }

  /** The multipart path: create, transfer the parts, complete; abort on any failure in between. */
  method UploadAsParts<R(==)>(store: Store<R>, key: Key, local: seq<Byte>, c: int, same: seq<bool>, wasCancelled: bool)
    returns (ok: bool, transferred: nat, saved: nat, parts: nat, ghost id: nat)
    requires store.Valid() && c > 0 && 0 < |same| == ChunkCount(|local|, c) <= MaxParts
    requires forall i: nat | i < |same| && same[i] ::
      key in store.objects && i < ChunkCount(|store.objects[key]|, c)
          && Chunk(store.objects[key], c, i) == Chunk(local, c, i)
    modifies store`objects, store`uploads, store`copied, store`sent, store`nextId, store`created, store`aborted
    modifies store`rejected, store`failures
    ensures store.Valid()
    ensures ok ==> transferred + saved == |local| && parts == |same| && saved == Credit(|local|, c, same)
    ensures ok ==> id !in old(store.created)
                   && store.copied == old(store.copied) + PartsFor(id, same, |same|, true)
                   && store.sent == old(store.sent) + PartsFor(id, same, |same|, false)
    ensures store.objects == old(store.objects)[key := local] || (!ok && store.objects == old(store.objects))
    ensures !ok ==> store.created - old(store.created) <= store.aborted
    ensures store.rejected == old(store.rejected)
    ensures store.calm && !wasCancelled ==> ok
  {
    transferred, saved, parts := 0, 0, 0;
    var created, upload := store.CreateMultipartUpload(key);
    id := upload;
    if !created {
      return false, 0, 0, 0, id;
    }
    var list := [];
    ok := *;   // opening the local file
    ok := ok || store.calm;
    if ok {
      ok, list, transferred, saved := TransferParts(store, key, upload, local, c, same, wasCancelled);
    }
    if ok {
      CollectedIsAcceptable(store, key, id, local, c, list);
      ok := store.CompleteMultipartUpload(key, upload, list);
      parts := |list|;
    }
    if !ok {
      var _ := store.AbortMultipartUpload(upload);
    }
  }

  /** What can be taken from the object there is: its checksums are known and agree. */
  ghost predicate Reuses<R>(localSums: seq<R>, remoteSize: int, remoteSums: seq<R>) {
    remoteSize > 0 && SomeAgree(localSums, remoteSums)
  }

  /** The chunks to copy. */
  ghost function Kept<R>(localSums: seq<R>, remoteSize: int, remoteSums: seq<R>): (same: seq<bool>)
    ensures |same| == |localSums|
    ensures forall i: nat | i < |same| :: same[i] <==> remoteSize > 0 && Agree(localSums, remoteSums, i)
  {
    seq(|localSums|, i requires 0 <= i < |localSums| => remoteSize > 0 && Agree(localSums, remoteSums, i))
  }

  /** Which way an upload goes: none without a file or its checksums; nothing to do when everything agrees; one
      request when nothing can be reused and the file is at most 5 GiB; parts otherwise, if 10000 are enough. */
  method ChoosePath<R(==)>(size: nat, localSums: seq<R>, remoteSize: int, remoteSums: seq<R>)
    returns (path: Path, same: seq<bool>)
    requires remoteSums == [] || remoteSize > 0
    ensures path.Current? <==>
              size > 0 && localSums != [] && AllAgree(localSums, remoteSums) && size == remoteSize
    ensures path.SinglePut? <==>
              size > 0 && localSums != [] && !Reuses(localSums, remoteSize, remoteSums) && size <= 5368709120
    ensures path.Multipart? <==>
              && size > 0 && 0 < |localSums| <= 10000
              && !(AllAgree(localSums, remoteSums) && size == remoteSize)
              && (Reuses(localSums, remoteSize, remoteSums) || size > 5368709120)
    ensures path.Multipart? ==> same == Kept(localSums, remoteSize, remoteSums)
  {
    path, same := Refused, [];
    if size == 0 || localSums == [] {
      return;
    }
    var kept := 0;
    same := seq(|localSums|, _ => false);
    if remoteSize > 0 && remoteSums != [] {
      same, kept := MarkUnchanged(localSums, remoteSums);
    }
    assert same == Kept(localSums, remoteSize, remoteSums);
    if kept == |localSums| && size == remoteSize {
      return Current, same;
    }
    if AllAgree(localSums, remoteSums) { assert Agree(localSums, remoteSums, 0); }
    var nothingToReuse := remoteSize <= 0 || remoteSums == [] || kept == 0;
    if nothingToReuse && size <= MaxSinglePut {
      return SinglePut, same;
    }
    if |localSums| > MaxParts {
      return;
    }
    path := Multipart;
  }

  lemma KeptIsSound<R(!new)>(sum: seq<Byte> -> R, local: seq<Byte>, remote: seq<Byte>, c: int, remoteSums: seq<R>)
    requires c > 0 && NoCollision(sum, local, remote, c)
    requires remoteSums == [] || remoteSums == Sums(sum, remote, c)
    ensures var same := Kept(Sums(sum, local, c), |remote|, remoteSums);
            forall i: nat | i < |same| && same[i] ::
              i < ChunkCount(|remote|, c) && Chunk(remote, c, i) == Chunk(local, c, i)
    ensures local != [] && AllAgree(Sums(sum, local, c), remoteSums) && |local| == |remote| ==> local == remote
  {
    FlagsAreSound(sum, local, remote, c);
    var same := Kept(Sums(sum, local, c), |remote|, remoteSums);
    forall i: nat | i < |same| && same[i]
      ensures i < ChunkCount(|remote|, c) && Chunk(remote, c, i) == Chunk(local, c, i)
    {
      assert Agree(Sums(sum, local, c), remoteSums, i);
    }
    if local != [] && AllAgree(Sums(sum, local, c), remoteSums) && |local| == |remote| {
      assert Agree(Sums(sum, local, c), remoteSums, 0);
      AllFlaggedMeansEqual(sum, local, remote, c);
    }
  }

  /** The function. `remoteSize` is -1 when the size lookup failed; a checksum list is exact or,
      on failure, empty. */
  method DiffUploadFile<R(==, !new)>(store: Store<R>, key: Key, local: seq<Byte>, c: int,
                                     localSums: seq<R>, remoteSize: int, remoteSums: seq<R>, wasCancelled: bool)
    returns (ok: bool, path: Path, transferred: nat, saved: nat, parts: nat, ghost id: nat)
    requires store.Valid() && c > 0
    requires localSums == [] || localSums == Sums(store.sum, local, c)
    requires remoteSize == -1 || (key in store.objects && remoteSize == |store.objects[key]|)
    requires remoteSums == [] || (remoteSize > 0 && remoteSums == Sums(store.sum, store.objects[key], c))
    requires key in store.objects ==> NoCollision(store.sum, local, store.objects[key], c)
    modifies store`objects, store`uploads, store`copied, store`sent, store`nextId, store`created, store`aborted
    modifies store`rejected, store`failures
    ensures store.Valid()
    // Success: the object is the local file, and nothing else changed.
    ensures ok ==> store.objects == old(store.objects)[key := local]
    ensures ok && path.Multipart? ==> transferred + saved == |local| && 0 < parts == ChunkCount(|local|, c) <= MaxParts
    ensures ok && path.SinglePut? ==> transferred == |local| && saved == 0
    // Which way it goes, and for a multipart upload what is copied, what is sent and what that saves.
    ensures path.Current? <==>
              local != [] && localSums != [] && AllAgree(localSums, remoteSums) && |local| == remoteSize
    ensures path.SinglePut? <==>
              local != [] && localSums != [] && !Reuses(localSums, remoteSize, remoteSums) && |local| <= 5368709120
    ensures path.Multipart? <==>
              && local != [] && 0 < |localSums| <= 10000
              && !(AllAgree(localSums, remoteSums) && |local| == remoteSize)
              && (Reuses(localSums, remoteSize, remoteSums) || |local| > 5368709120)
    ensures ok && path.Multipart? ==>
              var same := Kept(localSums, remoteSize, remoteSums);
              && id !in old(store.created) && |same| == ChunkCount(|local|, c) && saved == Credit(|local|, c, same)
              && store.copied == old(store.copied) + PartsFor(id, same, |same|, true)
              && store.sent == old(store.sent) + PartsFor(id, same, |same|, false)
    // Failure: either the last call was applied although it reported failure, or nothing changed.
    ensures !ok ==> store.objects == old(store.objects)
                    || (path in {SinglePut, Multipart} && store.objects == old(store.objects)[key := local])
    ensures !ok ==> store.created - old(store.created) <= store.aborted
    // Where nothing fails and nobody cancels, every attempt succeeds.
    ensures store.calm && !wasCancelled ==> (ok <==> !path.Refused?)
    // A completion is never refused for what it lists.
    ensures store.rejected == old(store.rejected)
  {
    ok, transferred, saved, parts, id := false, 0, 0, 0, 0;
    var same;
    path, same := ChoosePath(|local|, localSums, remoteSize, remoteSums);
    if remoteSize > 0 && localSums != [] { KeptIsSound(store.sum, local, store.objects[key], c, remoteSums); }
    match path {
      case Refused =>
      case Current =>
        assert Agree(localSums, remoteSums, 0);
        assert store.objects[key := local] == store.objects;
        ok := true;
      case SinglePut =>
        ghost var cancelled;
        ok, cancelled := PutWithRetry(store, key, local, wasCancelled);
        transferred := if ok then |local| else 0;
      case Multipart =>
        ok, transferred, saved, parts, id := UploadAsParts(store, key, local, c, same, wasCancelled);
    }
  }
}

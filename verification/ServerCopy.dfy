/** The server-side copy of an object too large for one request, part by part. */
module ServerCopy {
  import opened Cancel
  import opened Chunks
  import opened ObjectStore
  import opened DiffUpload
  import ChecksumFanout

  const PartSize: nat := 500 * 1024 * 1024

  /** One part with its retries; cancellation is looked at before each of them. */
  method CopyPart<R(==)>(store: Store<R>, cancel: Cancellation, source: Key, dest: Key, id: nat, number: nat,
                         first: int, last: int, maxRetries: int)
    returns (r: PartResult<R>)
    requires store.Valid()
    modifies store`uploads, store`copied, store`failures, cancel
    ensures store.Valid() && (old(cancel.raised) ==> cancel.raised)
    ensures OnePart(old(store.uploads), store.uploads, id, number)
    ensures r.Part? ==> source in store.objects && 0 <= first <= last < |store.objects[source]|
                        && id in store.uploads && number in store.uploads[id].parts
                        && store.uploads[id].parts[number] == store.objects[source][first..last + 1]
                        && r.checksum == store.sum(store.objects[source][first..last + 1])
    // Without a value and uncancelled, a copy that can be made was tried as often as allowed.
    ensures (r.NoPart? && !cancel.raised && maxRetries >= 0 && id in old(store.uploads)
             && old(store.uploads)[id].key == dest
             && source in store.objects && 0 <= first <= last < |store.objects[source]|) ==>
      store.failures == old(store.failures) + maxRetries + 1
    ensures (store.calm && !cancel.raised && maxRetries >= 0 && id in old(store.uploads)
        && old(store.uploads)[id].key == dest
             && source in store.objects && 0 <= first <= last < |store.objects[source]|) ==> r.Part?
  {
    r := NoPart;
    var attempt := 0;
    while attempt <= maxRetries
      invariant store.Valid() && (old(cancel.raised) ==> cancel.raised) && r.NoPart?
      invariant OnePart(old(store.uploads), store.uploads, id, number)
      invariant (store.calm && !cancel.raised && id in old(store.uploads) && old(store.uploads)[id].key == dest
                 && source in store.objects && 0 <= first <= last < |store.objects[source]|) ==> attempt == 0
      invariant 0 <= attempt && (maxRetries >= 0 ==> attempt <= maxRetries + 1)
      invariant (id in old(store.uploads) && old(store.uploads)[id].key == dest
                 && source in store.objects && 0 <= first <= last < |store.objects[source]|) ==>
        store.failures == old(store.failures) + attempt
      decreases maxRetries - attempt
    {
      var stop := cancel.Look();
      if stop { break; }
      r := store.UploadPartCopy(dest, id, number, source, first, last);
      if r.Part? { return; }
      attempt := attempt + 1;
    }
  }

  /** Entry `i` of a list names part i + 1, which holds range `i` of the source, with its checksum. */
  ghost predicate RangeEntry<R>(parts: map<nat, seq<Byte>>, sum: seq<Byte> -> R, from: seq<Byte>, size: nat, c: int,
                                entry: (nat, R), i: nat)
    requires c > 0
  {
    && Lo(c, i) <= Hi(size, c, i) <= |from| && entry.0 == i + 1 && entry.0 in parts
    && parts[entry.0] == from[Lo(c, i)..Hi(size, c, i)] && entry.1 == sum(from[Lo(c, i)..Hi(size, c, i)])
  }

  /** The list names the first ranges of the source, in order. */
  ghost predicate CopiedSoFar<R>(uploads: map<nat, Upload>, sum: seq<Byte> -> R, dest: Key, id: nat,
                                 from: seq<Byte>, size: nat, c: int, list: seq<(nat, R)>)
    requires c > 0
  {
    && id in uploads && uploads[id].key == dest && |list| <= ChunkCount(size, c)
    && forall i: nat | i < |list| :: RangeEntry(uploads[id].parts, sum, from, size, c, list[i], i)
  }

  lemma EntryKept<R>(before: map<nat, Upload>, after: map<nat, Upload>, sum: seq<Byte> -> R, id: nat, number: nat,
                     from: seq<Byte>, size: nat, c: int, entry: (nat, R), i: nat)
    requires c > 0 && id in before && OnePart(before, after, id, number) && i + 1 != number
    requires RangeEntry(before[id].parts, sum, from, size, c, entry, i)
    ensures id in after && RangeEntry(after[id].parts, sum, from, size, c, entry, i)
  {}

  lemma CopiedGrows<R>(before: map<nat, Upload>, after: map<nat, Upload>, sum: seq<Byte> -> R, dest: Key, id: nat,
                       from: seq<Byte>, size: nat, c: int, list: seq<(nat, R)>, entry: (nat, R))
    requires c > 0 && |list| < ChunkCount(size, c) && CopiedSoFar(before, sum, dest, id, from, size, c, list)
    requires OnePart(before, after, id, |list| + 1) && RangeEntry(after[id].parts, sum, from, size, c, entry, |list|)
    ensures CopiedSoFar(after, sum, dest, id, from, size, c, list + [entry])
  {
    var longer := list + [entry];
    forall i: nat | i < |longer| ensures RangeEntry(after[id].parts, sum, from, size, c, longer[i], i) {
      if i < |list| {
        assert longer[i] == list[i];
        EntryKept(before, after, sum, id, |list| + 1, from, size, c, list[i], i);
      } else {
        assert longer[i] == entry;
      }
    }
  }

  /** What the part loop keeps. Before the first part nothing is known of the source. */
  ghost predicate Copying<R>(store: Store<R>, source: Key, dest: Key, id: nat, size: nat, c: int, list: seq<(nat, R)>)
    requires c > 0
    reads store
  {
    && id in store.uploads && store.uploads[id].key == dest
    && (list != [] ==> source in store.objects && Hi(size, c, |list| - 1) <= |store.objects[source]|
                       && CopiedSoFar(store.uploads, store.sum, dest, id, store.objects[source], size, c, list))
  }

  /** One round of the part loop. */
  method CopyNext<R(==)>(store: Store<R>, cancel: Cancellation, source: Key, dest: Key, id: nat, size: nat,
                         partSize: int, maxRetries: int,
                         list: seq<(nat, R)>)
    returns (ok: bool, longer: seq<(nat, R)>)
    requires store.Valid() && partSize > 0 && |list| < ChunkCount(size, partSize)
    requires Copying(store, source, dest, id, size, partSize, list)
    modifies store`uploads, store`copied, store`failures, cancel
    ensures store.Valid() && (old(cancel.raised) ==> cancel.raised)
    ensures Copying(store, source, dest, id, size, partSize, longer)
    ensures ok ==> |longer| == |list| + 1
    ensures (store.calm && !cancel.raised && maxRetries >= 0 && source in store.objects
             && size <= |store.objects[source]|) ==> ok
  {
    ok, longer := false, list;
    var i := |list|;
    var stop := cancel.Look();
    if stop { return; }
    ChunkBounds(size, partSize, i);
    var first := i * partSize;
    var last := Min(first + partSize - 1, size - 1);
    ghost var before := store.uploads;
    var r := CopyPart(store, cancel, source, dest, id, i + 1, first, last, maxRetries);
    if r.NoPart? {
      PartsKept(before, store, source, dest, id, size, partSize, list);
      return;
    }
    assert RangeEntry(store.uploads[id].parts, store.sum, store.objects[source], size, partSize, (i + 1, r.checksum),
        i);
    assert CopiedSoFar(before, store.sum, dest, id, store.objects[source], size, partSize, list);
    CopiedGrows(before, store.uploads, store.sum, dest, id, store.objects[source], size, partSize, list,
        (i + 1, r.checksum));
    ok, longer := true, list + [(i + 1, r.checksum)];
  }

  lemma PartsKept<R>(before: map<nat, Upload>, store: Store<R>, source: Key, dest: Key, id: nat, size: nat, c: int,
                     list: seq<(nat, R)>)
    requires c > 0 && |list| <= ChunkCount(size, c) && id in before && before[id].key == dest
    requires OnePart(before, store.uploads, id, |list| + 1)
    requires list != [] ==> source in store.objects && Hi(size, c, |list| - 1) <= |store.objects[source]|
                            && CopiedSoFar(before, store.sum, dest, id, store.objects[source], size, c, list)
    ensures Copying(store, source, dest, id, size, c, list)
  {
    if list != [] {
      forall i: nat | i < |list|
        ensures RangeEntry(store.uploads[id].parts, store.sum, store.objects[source], size, c, list[i], i)
      {
        EntryKept(before, store.uploads, store.sum, id, |list| + 1, store.objects[source], size, c, list[i], i);
      }
    }
  }

  /** The part loop. What it collects are the chunks of the first `size` bytes of the source. */
  method CopyParts<R(==)>(store: Store<R>, cancel: Cancellation, source: Key, dest: Key, id: nat, size: nat,
                          partSize: int, maxRetries: int)
    returns (ok: bool, list: seq<(nat, R)>)
    requires store.Valid() && partSize > 0 && id in store.uploads && store.uploads[id].key == dest
    modifies store`uploads, store`copied, store`failures, cancel
    ensures store.Valid() && (old(cancel.raised) ==> cancel.raised)
    ensures ok ==> |list| == ChunkCount(size, partSize)
    ensures (store.calm && !cancel.raised && maxRetries >= 0 && source in store.objects
             && size <= |store.objects[source]|) ==> ok
    ensures ok && size > 0 ==> source in store.objects && size <= |store.objects[source]|
                               && Collected(store, dest, id, store.objects[source][..size], partSize, list)
  {
    ok, list := true, [];
    var parts := ChunkCount(size, partSize);
    while ok && |list| < parts
      invariant store.Valid() && (old(cancel.raised) ==> cancel.raised)
      invariant |list| <= parts && Copying(store, source, dest, id, size, partSize, list)
      invariant (store.calm && !cancel.raised && maxRetries >= 0 && source in store.objects
             && size <= |store.objects[source]|) ==> ok
      decreases ok, parts - |list|
    {
      ok, list := CopyNext(store, cancel, source, dest, id, size, partSize, maxRetries, list);
    }
    if ok && size > 0 {
      LastChunkEnds(size, partSize);
      CopiedIsCollected(store, dest, id, store.objects[source], size, partSize, list);
    }
  }

  lemma CopiedIsCollected<R>(store: Store<R>, dest: Key, id: nat, from: seq<Byte>, size: nat, c: int,
                             list: seq<(nat, R)>)
    requires c > 0 && size <= |from| && CopiedSoFar(store.uploads, store.sum, dest, id, from, size, c, list)
    ensures Collected(store, dest, id, from[..size], c, list)
  {
    var s := from[..size];
    forall i: nat | i < |list| ensures EntryFor(store.uploads[id].parts, store.sum, s, c, list[i], i) {
      ChunkBounds(size, c, i);
      assert RangeEntry(store.uploads[id].parts, store.sum, from, size, c, list[i], i);
      assert from[Lo(c, i)..Hi(size, c, i)] == s[Lo(c, i)..Hi(size, c, i)];
    }
  }

  /** The copy. Success means the destination holds the first `size` bytes of the source, where `size` is
      what a listing said earlier; failure leaves it alone unless the completion was applied after
      all. The upload is closed, aborted or left with the registry. */
  method CopyObjectMultipart<R(==)>(store: Store<R>, cancel: Cancellation, registry: ChecksumFanout.UploadRegistry,
                                    source: Key, dest: Key, size: nat, partSize: int, maxRetries: int)
    returns (ok: bool)
    requires store.Valid() && partSize > 0
    modifies store`objects, store`uploads, store`copied, store`failures, store`nextId, store`created, store`aborted
    modifies store`rejected, registry, cancel
    ensures store.Valid()
    ensures ok ==> source in old(store.objects) && 0 < size <= |old(store.objects)[source]|
                   && store.objects == old(store.objects)[dest := old(store.objects)[source][..size]]
                   && ChunkCount(size, partSize) <= MaxParts
    ensures (store.calm && !cancel.raised && maxRetries >= 0 && source in old(store.objects)
        && 0 < size <= |old(store.objects)[source]|
             && ChunkCount(size, partSize) <= MaxParts) ==> ok
    ensures !ok ==> store.objects == old(store.objects)
                    || (source in old(store.objects) && size <= |old(store.objects)[source]|
                        && store.objects == old(store.objects)[dest := old(store.objects)[source][..size]])
    ensures forall id | id in store.created && id !in old(store.created) ::
      id !in store.uploads || id in registry.uploads
    ensures forall id | id in store.created && id !in old(store.created) && !ok :: id in store.aborted
    ensures ok || store.calm ==> registry.uploads <= old(registry.uploads)
  {
    var created, id := store.CreateMultipartUpload(dest);
    if !created { return false; }
    registry.Register(id);
    var list;
    ok, list := CopyParts(store, cancel, source, dest, id, size, partSize, maxRetries);
    if ok {
      if 0 < |list| <= MaxParts {
        CollectedIsAcceptable(store, dest, id, store.objects[source][..size], partSize, list);
      }
      ok := store.CompleteMultipartUpload(dest, id, list);
    }
    if !ok {
      var aborted := store.AbortMultipartUpload(id);
      if aborted { registry.Unregister(id); }
      return;
    }
    registry.Unregister(id);
  }
}

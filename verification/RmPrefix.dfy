/** A recursive deletion from the listing to the verdict. */
module RmPrefix {
  import opened Sequences
  import opened S3Listing
  import RmRun

  /** What a run does after its target was resolved to a prefix. */
  datatype Decision =
    | Cancelled | Incomplete | NothingFound | EmptyBucket
    | DryRun(bytes: nat) | DeleteAll(listing: seq<Key>)

  /** Exactly the keys under the prefix, folder markers included. */
  function Under(keys: set<Key>, prefix: Key): set<Key> {
    set k | k in keys && prefix <= k
  }

  function Absolute(prefix: Key, found: seq<Key>): seq<Key> {
    seq(|found|, i requires 0 <= i < |found| => prefix + found[i])
  }

  ghost predicate ListsUnder(listing: seq<Key>, keys: set<Key>, prefix: Key) {
    Enumerates(listing, Under(keys, prefix))
  }

  lemma AbsoluteListsUnder(keys: set<Key>, prefix: Key, found: seq<Key>)
    requires Exact(keys, prefix, true, found)
    ensures ListsUnder(Absolute(prefix, found), keys, prefix)
  {
    var listing := Absolute(prefix, found);
    MarkersMeansEverything(keys, prefix, found);
    forall i, j | 0 <= i < j < |listing| ensures listing[i] != listing[j] {
      assert listing[i][|prefix|..] == found[i] && listing[j][|prefix|..] == found[j];
    }
    forall k | k in Under(keys, prefix) ensures k in listing {
      var i :| 0 <= i < |found| && found[i] == k[|prefix|..];
      assert listing[i] == k;
    }
    forall i | 0 <= i < |listing| ensures listing[i] in Under(keys, prefix) {
      assert found[i] in found;
    }
  }

  /** The listing and the gates before the first delete. Deletion starts only from a complete listing, and
      then covers every key under the prefix. `size` gives the sizes the listing reports. */
  method ListForDelete(service: Service, ghost keys: set<Key>, prefix: Key, force: bool, size: Key -> nat, calm: bool,
                       wasCancelled: bool)
    returns (d: Decision)
    requires Serves(service, keys) && (prefix == [] || IsMarker(prefix))
    ensures d.DeleteAll? ==> force && d.listing != [] && ListsUnder(d.listing, keys, prefix)
    ensures d.DryRun? ==>
      !force && exists listing :: ListsUnder(listing, keys, prefix) && d.bytes == SizeOf(listing, size)
    ensures d.NothingFound? || d.EmptyBucket? ==> Under(keys, prefix) == {} && (d.EmptyBucket? <==> prefix == [])
    ensures d.Incomplete? ==> exists p :: prefix <= p && Broken(service.delimited(p))
    ensures calm && !wasCancelled ==> !d.Cancelled?
  {
    var found, complete, cancelled := EnumerateLevels(service, keys, prefix, true, calm, wasCancelled);
    if cancelled { return Cancelled; }
    if !complete { return Incomplete; }
    var listing := Absolute(prefix, found);
    AbsoluteListsUnder(keys, prefix, found);
    if listing == [] {
      assert forall k :: k in Under(keys, prefix) <==> k in listing;
      return if prefix != [] then NothingFound else EmptyBucket;
    }
    if !force {
      var bytes := 0;
      for i := 0 to |listing|
        invariant bytes == SizeOf(listing[..i], size)
      {
        assert listing[..i + 1][..i] == listing[..i];
        bytes := bytes + size(listing[i]);
      }
      assert listing[..|listing|] == listing;
      return DryRun(bytes);
    }
    d := DeleteAll(listing);
  }

  function SizeOf(listing: seq<Key>, size: Key -> nat): nat {
    if listing == [] then 0 else SizeOf(listing[..|listing| - 1], size) + size(listing[|listing| - 1])
  }

  /** The size of a listing is that of its parts, down to single keys. */
  lemma {:induction false} SizesAdd(a: seq<Key>, b: seq<Key>, size: Key -> nat)
    ensures SizeOf(a + b, size) == SizeOf(a, size) + SizeOf(b, size)
    ensures forall k :: SizeOf([k], size) == size(k)
  {
    if b == [] {
      assert a + b == a;
    } else {
      var n := |b| - 1;
      SizesAdd(a, b[..n], size);
      assert (a + b)[..|a + b| - 1] == a + b[..n];
    }
  }

  /** From end to end: a run that reports success leaves no key under the prefix that was there when it
      was listed, and has counted each of them once. */
  lemma DeletedPrefixIsEmpty(keys: set<Key>, prefix: Key, j: RmRun.Job, schedule: seq<RmRun.Action>)
    requires RmRun.ValidJob(j) && ListsUnder(j.listing, keys, prefix)
    ensures var s := RmRun.Run(j, keys, schedule);
            RmRun.Joined(s) && RmRun.Succeeds(j, s) ==>
              s.deleted == |Under(keys, prefix)| && Under(keys, prefix) !! s.present
  {
    RmRun.SuccessMeansGone(j, keys, schedule);
    EnumeratedLength(j.listing, Under(keys, prefix));
    assert forall k | k in Under(keys, prefix) :: k in j.listing;
  }
}

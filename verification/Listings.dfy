/** What a walk hands on: paths with sizes and times, and the lookup maps built from them. */
module Listings {

  type Path = string

  /** A listed file. Modification times are whole seconds; zero and below mean unknown. */
  datatype Listed = Listed(path: Path, size: int, mtime: int)

  datatype Stat = Absent | Stat(size: int, mtime: int)

  ghost predicate DistinctPaths(listing: seq<Listed>) {
    forall i, j | 0 <= i < j < |listing| :: listing[i].path != listing[j].path
  }

  predicate InListing(listing: seq<Listed>, p: Path) {
    exists j :: 0 <= j < |listing| && listing[j].path == p
  }

  /** The last entry of a listing for a path, as a map built front to back holds it. */
  function Find(listing: seq<Listed>, p: Path): Stat {
    if listing == [] then Absent
    else
      var e := listing[|listing| - 1];
      if e.path == p then Stat(e.size, e.mtime) else Find(listing[..|listing| - 1], p)
  }

  lemma {:induction false} FindAbsent(listing: seq<Listed>, p: Path)
    ensures Find(listing, p) == Absent <==> forall i | 0 <= i < |listing| :: listing[i].path != p
  {
    if listing != [] {
      FindAbsent(listing[..|listing| - 1], p);
      assert forall i | 0 <= i < |listing| - 1 :: listing[..|listing| - 1][i] == listing[i];
    }
  }

  lemma {:induction false} FindAt(listing: seq<Listed>, i: nat)
    requires DistinctPaths(listing) && i < |listing|
    ensures Find(listing, listing[i].path) == Stat(listing[i].size, listing[i].mtime)
  {
    if i < |listing| - 1 {
      assert listing[..|listing| - 1][i] == listing[i];
      FindAt(listing[..|listing| - 1], i);
    }
  }

  method BuildMap(listing: seq<Listed>) returns (m: map<Path, (int, int)>)
    ensures forall p :: Find(listing, p) == if p in m then Stat(m[p].0, m[p].1) else Absent
  {
    m := map[];
    for i := 0 to |listing|
      invariant forall p :: Find(listing[..i], p) == if p in m then Stat(m[p].0, m[p].1) else Absent
    {
      assert listing[..i + 1][..i] == listing[..i];
      m := m[listing[i].path := (listing[i].size, listing[i].mtime)];
    }
    assert listing[..|listing|] == listing;
  }

  lemma ListedIsFound(listing: seq<Listed>, i: nat)
    requires i < |listing|
    ensures Find(listing, listing[i].path) != Absent
  {
    FindAbsent(listing, listing[i].path);
  }
}

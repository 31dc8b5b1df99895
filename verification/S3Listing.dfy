/** Listing every object under a prefix: one flat listing, or level by level with the delimiter. */
module S3Listing {
  import opened Sequences

  type Key = string

  /** The first '/' of `k` at or after `from`, or -1. */
  function FindSlash(k: Key, from: nat): (j: int)
    requires from <= |k|
    ensures j == -1 ==> forall i | from <= i < |k| :: k[i] != '/'
    ensures j != -1 ==> from <= j < |k| && k[j] == '/' && forall i | from <= i < j :: k[i] != '/'
    decreases |k| - from
  {
    if from == |k| then -1 else if k[from] == '/' then from else FindSlash(k, from + 1)
  }

  /** `k` lies directly under `p`: no delimiter after the prefix. */
  predicate IsDirect(p: Key, k: Key) {
    p <= k && FindSlash(k, |p|) == -1
  }

  /** `c` is the common prefix that groups `k` in a listing of `p` by "/". */
  predicate Groups(p: Key, c: Key, k: Key) {
    p <= k && FindSlash(k, |p|) != -1 && c == k[..FindSlash(k, |p|) + 1]
  }

  ghost predicate IsGroup(keys: set<Key>, p: Key, c: Key) {
    exists k :: k in keys && Groups(p, c, k)
  }

  /** One answer of the service. All pages but the last of a listing hand out a continuation
      token; `truncated` on the last one means more exists and no token was given. */
  datatype Page = Page(success: bool, objects: seq<Key>, groups: seq<Key>, truncated: bool)

  function Objects(pages: seq<Page>): seq<Key> {
    if pages == [] then [] else Objects(pages[..|pages| - 1]) + pages[|pages| - 1].objects
  }

  function GroupsOf(pages: seq<Page>): seq<Key> {
    if pages == [] then [] else GroupsOf(pages[..|pages| - 1]) + pages[|pages| - 1].groups
  }

  predicate AllSucceed(pages: seq<Page>) {
    forall i | 0 <= i < |pages| :: pages[i].success
  }

  /** Whatever a page says is so. */
  ghost predicate Truthful(keys: set<Key>, p: Key, delimited: bool, page: Page) {
    && (forall k | k in page.objects :: k in keys && InListing(p, delimited, k))
    && (forall c | c in page.groups :: delimited && IsGroup(keys, p, c))
  }

  predicate InListing(p: Key, delimited: bool, k: Key) {
    if delimited then IsDirect(p, k) else p <= k
  }

  /** Everything there is has been said. */
  ghost predicate Exhaustive(keys: set<Key>, p: Key, delimited: bool, pages: seq<Page>) {
    && (forall k | k in keys && InListing(p, delimited, k) :: k in Objects(pages))
    && (forall c | delimited && IsGroup(keys, p, c) :: c in GroupsOf(pages))
  }

  /** A service that tells the truth about a fixed set of keys and says nothing twice; a listing whose pages all
      succeed and whose end is the end says everything. */
  ghost predicate Faithful(keys: set<Key>, p: Key, delimited: bool, pages: seq<Page>) {
    && |pages| > 0
    && (forall i | 0 <= i < |pages| :: Truthful(keys, p, delimited, pages[i]))
    && Distinct(Objects(pages)) && Distinct(GroupsOf(pages))
    && (AllSucceed(pages) && !pages[|pages| - 1].truncated ==> Exhaustive(keys, p, delimited, pages))
  }

  datatype Service = Service(delimited: Key -> seq<Page>, flat: Key -> seq<Page>)

  ghost predicate Serves(service: Service, keys: set<Key>) {
    forall p: Key :: Faithful(keys, p, true, service.delimited(p)) && Faithful(keys, p, false, service.flat(p))
  }

  // ---- What a listing is for ----

  predicate IsMarker(k: Key) { k != [] && k[|k| - 1] == '/' }

  /** The keys a listing of `root` should report; folder markers only when asked for. */
  predicate Wanted(root: Key, markers: bool, k: Key) {
    root <= k && (markers || (|k| > |root| && !IsMarker(k)))
  }

  /** `found` names every wanted key exactly once, by its path relative to `root`. */
  ghost predicate Exact(keys: set<Key>, root: Key, markers: bool, found: seq<Key>) {
    && Distinct(found)
    && forall r :: r in found <==> (root + r in keys && Wanted(root, markers, root + r))
  }

  predicate AllUnder(p: Key, objects: seq<Key>) {
    forall i | 0 <= i < |objects| :: p <= objects[i]
  }

  /** The wanted ones among `objects`, by relative path. */
  function Relative(objects: seq<Key>, root: Key, markers: bool): seq<Key>
    requires AllUnder(root, objects)
  {
    if objects == [] then []
    else
      var n := |objects| - 1;
      Relative(objects[..n], root, markers)
      + if Wanted(root, markers, objects[n]) then [objects[n][|root|..]] else []
  }

  lemma {:induction false} RelativeMember(objects: seq<Key>, root: Key, markers: bool, r: Key)
    requires AllUnder(root, objects)
    ensures r in Relative(objects, root, markers) <==> root + r in objects && Wanted(root, markers, root + r)
  {
    if objects != [] {
      var n := |objects| - 1;
      RelativeMember(objects[..n], root, markers, r);
      assert objects == objects[..n] + [objects[n]];
      assert objects[n] == root + objects[n][|root|..];
      assert (root + r)[|root|..] == r;
    }
  }

  lemma {:induction false} RelativeConcat(a: seq<Key>, b: seq<Key>, root: Key, markers: bool)
    requires AllUnder(root, a) && AllUnder(root, b)
    ensures AllUnder(root, a + b)
    ensures Relative(a + b, root, markers) == Relative(a, root, markers) + Relative(b, root, markers)
  {
    if b == [] {
      assert a + b == a;
    } else {
      var n := |b| - 1;
      RelativeConcat(a, b[..n], root, markers);
      assert (a + b)[..|a + b| - 1] == a + b[..n];
    }
  }

  lemma {:induction false} RelativeDistinct(objects: seq<Key>, root: Key, markers: bool)
    requires AllUnder(root, objects) && Distinct(objects)
    ensures Distinct(Relative(objects, root, markers))
  {
    if objects != [] {
      var n := |objects| - 1;
      RelativeDistinct(objects[..n], root, markers);
      var last := objects[n][|root|..];
      RelativeMember(objects[..n], root, markers, last);
      assert root + last == objects[n];
    }
  }

  /** What the page loop accumulates over the pages of a listing. */
  function Found(pages: seq<Page>, root: Key, markers: bool): seq<Key>
    requires forall i | 0 <= i < |pages| :: AllUnder(root, pages[i].objects)
  {
    if pages == [] then []
    else Found(pages[..|pages| - 1], root, markers) + Relative(pages[|pages| - 1].objects, root, markers)
  }

  lemma {:induction false} FoundIsRelative(pages: seq<Page>, root: Key, markers: bool)
    requires forall i | 0 <= i < |pages| :: AllUnder(root, pages[i].objects)
    ensures AllUnder(root, Objects(pages)) && Found(pages, root, markers) == Relative(Objects(pages), root, markers)
  {
    if pages != [] {
      var n := |pages| - 1;
      FoundIsRelative(pages[..n], root, markers);
      RelativeConcat(Objects(pages[..n]), pages[n].objects, root, markers);
    }
  }

  // ---- The two walks; in a `calm` run nobody interrupts ----

  /** Keep the wanted objects of one page, by relative path. An interrupt may cut it short. */
  method KeepWanted(objects: seq<Key>, current: Key, root: Key, markers: bool, calm: bool, wasCancelled: bool)
    returns (found: seq<Key>, cancelled: bool)
    requires root <= current && (current == [] || IsMarker(current)) && AllUnder(current, objects)
    ensures AllUnder(root, objects)
    ensures wasCancelled ==> cancelled
    ensures calm && !wasCancelled ==> !cancelled
    ensures !cancelled ==> found == Relative(objects, root, markers)
  {
    found, cancelled := [], wasCancelled;
    for i := 0 to |objects|
      invariant AllUnder(root, objects)
      invariant (wasCancelled ==> cancelled) && (calm && !wasCancelled ==> !cancelled)
      invariant !cancelled ==> found == Relative(objects[..i], root, markers)
    {
      var interrupted: bool := *;
      cancelled := cancelled || (interrupted && !calm);
      if cancelled {
        return;
      }
      var k := objects[i];
      assert objects[..i + 1][..i] == objects[..i];
      if markers {
        if |k| >= |root| { found := found + [k[|root|..]]; }
      } else {
        if k != current && !IsMarker(k) && |k| > |root| { found := found + [k[|root|..]]; }
      }
    }
    assert objects[..|objects|] == objects;
  }

  /** A listing that failed on some page, or broke off without a token. */
  predicate Broken(pages: seq<Page>) {
    !AllSucceed(pages) || (pages != [] && pages[|pages| - 1].truncated)
  }

  predicate GroupOfSome(pages: seq<Page>, c: Key) {
    exists i :: 0 <= i < |pages| && c in pages[i].groups
  }

  /** What one page adds to the pages before it. */
  lemma OnePageMore(pages: seq<Page>, i: nat, root: Key, markers: bool)
    requires i < |pages| && forall x | 0 <= x < |pages| :: AllUnder(root, pages[x].objects)
    ensures Found(pages[..i + 1], root, markers) == Found(pages[..i], root, markers)
        + Relative(pages[i].objects, root, markers)
    ensures GroupsOf(pages[..i + 1]) == GroupsOf(pages[..i]) + pages[i].groups
    ensures AllSucceed(pages[..i]) && pages[i].success ==> AllSucceed(pages[..i + 1])
    ensures forall c | c in pages[i].groups :: GroupOfSome(pages, c)
  {
    assert pages[..i + 1][..i] == pages[..i];
    forall c | c in pages[i].groups ensures GroupOfSome(pages, c) {}
  }

  /** The pages read before the first that failed. */
  predicate UpToFailure(pages: seq<Page>, n: nat) {
    n <= |pages| && AllSucceed(pages[..n]) && (n < |pages| ==> !pages[n].success)
  }

  /** Follow the continuation tokens of one listing to its end, a failure, or an interrupt. What was read
      before a failure is kept. */
  method ListAll(pages: seq<Page>, current: Key, root: Key, markers: bool, calm: bool, wasCancelled: bool)
    returns (found: seq<Key>, groups: seq<Key>, complete: bool, cancelled: bool, ghost n: nat)
    requires pages != [] && root <= current && (current == [] || IsMarker(current))
    requires forall i | 0 <= i < |pages| :: AllUnder(current, pages[i].objects)
    ensures forall i | 0 <= i < |pages| :: AllUnder(root, pages[i].objects)
    ensures wasCancelled ==> cancelled
    ensures calm && !wasCancelled ==> !cancelled
    ensures forall c | c in groups :: GroupOfSome(pages, c)
    ensures !complete ==> Broken(pages)
    ensures !cancelled ==>
              && complete == !Broken(pages) && UpToFailure(pages, n)
              && found == Found(pages[..n], root, markers) && groups == GroupsOf(pages[..n])
  {
    found, groups, complete, cancelled, n := [], [], true, wasCancelled, 0;
    forall i | 0 <= i < |pages| ensures AllUnder(root, pages[i].objects) {
      assert AllUnder(current, pages[i].objects);
    }
    for i := 0 to |pages|
      invariant (wasCancelled ==> cancelled) && (calm && !wasCancelled ==> !cancelled)
      invariant complete && n == i && forall c | c in groups :: GroupOfSome(pages, c)
      invariant !cancelled ==>
        && AllSucceed(pages[..i]) && (i == |pages| ==> !pages[i - 1].truncated)
        && found == Found(pages[..i], root, markers) && groups == GroupsOf(pages[..i])
    {
      var interrupted: bool := *;
      cancelled := cancelled || (interrupted && !calm);
      if cancelled {
        return;
      }
      if !pages[i].success {
        complete := false;
        return;
      }
      var kept;
      kept, cancelled := KeepWanted(pages[i].objects, current, root, markers, calm, cancelled);
      OnePageMore(pages, i, root, markers);
      found, groups, n := found + kept, groups + pages[i].groups, i + 1;
      if i == |pages| - 1 && pages[i].truncated {
        complete := false;
        return;
      }
    }
    assert pages[..|pages|] == pages;
  }

  // ---- The frontier of a level-by-level walk ----

  predicate Antichain(f: seq<Key>) {
    forall i, j | 0 <= i < |f| && 0 <= j < |f| && i != j :: !(f[i] <= f[j])
  }

  predicate Prefixes(root: Key, f: seq<Key>) {
    forall i | 0 <= i < |f| :: root <= f[i] && (f[i] == [] || IsMarker(f[i]))
  }

  /** `k` is still to come: it lies under a prefix of the frontier. */
  predicate Ahead(f: seq<Key>, k: Key) {
    exists i :: 0 <= i < |f| && f[i] <= k
  }

  /** `k` lies under a prefix whose listing failed. */
  predicate Lost(lost: set<Key>, k: Key) {
    exists p :: p in lost && p <= k
  }

  /** Whatever is found is a wanted key, found once and not to come again. */
  ghost predicate Sound(keys: set<Key>, root: Key, markers: bool, found: seq<Key>, f: seq<Key>) {
    && Distinct(found)
    && (forall r | r in found :: root + r in keys && Wanted(root, markers, root + r) && !Ahead(f, root + r))
  }

  /** Every wanted key is found, or under a prefix still to be listed, or under one whose listing failed. */
  ghost predicate Covers(keys: set<Key>, root: Key, markers: bool, found: seq<Key>, f: seq<Key>, lost: set<Key>) {
    forall k | k in keys && Wanted(root, markers, k) :: k[|root|..] in found || Ahead(f, k) || Lost(lost, k)
  }

  ghost predicate Split(keys: set<Key>, root: Key, markers: bool, found: seq<Key>, f: seq<Key>, lost: set<Key>) {
    && Antichain(f) && Prefixes(root, f)
    && Sound(keys, root, markers, found, f) && Covers(keys, root, markers, found, f, lost)
  }

  /** A listing of prefix `p`: true, without repetition, and `whole` when it says everything. */
  ghost predicate Listed(keys: set<Key>, p: Key, objects: seq<Key>, groups: seq<Key>, whole: bool) {
    && Distinct(objects) && Distinct(groups)
    && (forall k | k in objects :: k in keys && IsDirect(p, k))
    && (forall c | c in groups :: IsGroup(keys, p, c))
    && (whole ==> forall k | k in keys && IsDirect(p, k) :: k in objects)
    && (whole ==> forall c | IsGroup(keys, p, c) :: c in groups)
  }

  /** A common prefix properly extends the prefix listed and ends at its first delimiter. */
  lemma GroupShape(keys: set<Key>, p: Key, c: Key)
    requires IsGroup(keys, p, c)
    ensures p <= c && |c| > |p| && IsMarker(c) && FindSlash(c, |p|) == |c| - 1
    ensures exists k :: k in keys && c <= k
  {
    var k :| k in keys && Groups(p, c, k);
    var j := FindSlash(k, |p|);
    assert c[j] == '/' && forall i | |p| <= i < j :: c[i] != '/';
    assert c <= k;
  }

  lemma GroupsApart(keys: set<Key>, p: Key, c: Key, d: Key)
    requires IsGroup(keys, p, c) && IsGroup(keys, p, d) && c <= d
    ensures c == d
  {
    GroupShape(keys, p, c);
    GroupShape(keys, p, d);
    assert d[|c| - 1] == '/';
  }

  /** A prefix unrelated to `p` is unrelated to what is below `p`. */
  lemma GroupApartFrom(keys: set<Key>, p: Key, c: Key, q: Key)
    requires IsGroup(keys, p, c) && !(p <= q) && !(q <= p)
    ensures !(q <= c) && !(c <= q)
  {
    GroupShape(keys, p, c);
  }

  lemma AntichainStep(keys: set<Key>, f: seq<Key>, i: nat, groups: seq<Key>)
    requires i < |f| && Antichain(f) && Distinct(groups)
    requires forall c | c in groups :: IsGroup(keys, f[i], c)
    ensures Antichain(Without(f, i) + groups)
  {
    var n := |f| - 1;
    var g := Without(f, i) + groups;
    assert forall x | 0 <= x < n :: g[x] == f[if x < i then x else x + 1];
    assert forall x | n <= x < |g| :: g[x] == groups[x - n];
    forall x, y | 0 <= x < |g| && 0 <= y < |g| && x != y ensures !(g[x] <= g[y]) {
      if x < n && y >= n {
        GroupApartFrom(keys, f[i], g[y], g[x]);
      } else if x >= n && y < n {
        GroupApartFrom(keys, f[i], g[x], g[y]);
      } else if x >= n && y >= n && g[x] <= g[y] {
        GroupsApart(keys, f[i], g[x], g[y]);
      }
    }
  }

  lemma DirectUnderNoGroup(keys: set<Key>, p: Key, c: Key, k: Key)
    requires IsGroup(keys, p, c) && IsDirect(p, k)
    ensures !(c <= k)
  {
    GroupShape(keys, p, c);
    if c <= k {
      assert false;
    }
  }

  /** Under `p`, a key is listed directly or lies under exactly one of the groups. */
  lemma UnderPrefix(keys: set<Key>, p: Key, objects: seq<Key>, groups: seq<Key>, whole: bool, k: Key)
    requires k in keys && p <= k && Listed(keys, p, objects, groups, whole)
    ensures k in objects ==> !Ahead(groups, k)
    ensures whole ==> k in objects || Ahead(groups, k)
  {
    if k in objects {
      forall i | 0 <= i < |groups| ensures !(groups[i] <= k) { DirectUnderNoGroup(keys, p, groups[i], k); }
    } else if whole {
      var c := k[..FindSlash(k, |p|) + 1];
      assert Groups(p, c, k) && c in groups;
    }
  }

  /** Listing one prefix of the frontier keeps the split exact. */
  lemma SplitStep(keys: set<Key>, root: Key, markers: bool, found: seq<Key>, f: seq<Key>, lost: set<Key>, i: nat,
                  objects: seq<Key>, groups: seq<Key>, whole: bool)
    requires i < |f| && Split(keys, root, markers, found, f, lost) && Listed(keys, f[i], objects, groups, whole)
    ensures AllUnder(root, objects)
    ensures Split(keys, root, markers, found + Relative(objects, root, markers), Without(f, i) + groups,
                  if whole then lost else lost + {f[i]})
  {
    forall x | 0 <= x < |objects| ensures root <= objects[x] { assert objects[x] in objects; }
    var more := Relative(objects, root, markers);
    AntichainStep(keys, f, i, groups);
    PrefixesStep(keys, root, f, i, groups);
    SoundStep(keys, root, markers, found, f, i, objects, groups, whole);
    forall k | k in keys && Wanted(root, markers, k)
      ensures var now := if whole then lost else lost + {f[i]};
              k[|root|..] in found + more || Ahead(Without(f, i) + groups, k) || Lost(now, k)
    {
      if k[|root|..] !in found && Ahead(f, k) {
        CoverStays(keys, root, markers, f, i, objects, groups, whole, k);
        if !whole && f[i] <= k { assert f[i] in lost + {f[i]}; }
      } else if Lost(lost, k) {
        var p :| p in lost && p <= k;
        assert p in lost + {f[i]};
      }
    }
  }

  lemma SoundStep(keys: set<Key>, root: Key, markers: bool, found: seq<Key>, f: seq<Key>, i: nat,
                  objects: seq<Key>, groups: seq<Key>, whole: bool)
    requires i < |f| && Antichain(f) && Sound(keys, root, markers, found, f)
    requires Listed(keys, f[i], objects, groups, whole) && AllUnder(root, objects)
    ensures Sound(keys, root, markers, found + Relative(objects, root, markers), Without(f, i) + groups)
  {
    var more := Relative(objects, root, markers);
    var g := Without(f, i) + groups;
    RelativeDistinct(objects, root, markers);
    forall r
      ensures r in more ==>
        root + r in keys && Wanted(root, markers, root + r) && r !in found && !Ahead(g, root + r)
    {
      RelativeMember(objects, root, markers, r);
      if r in more {
        UnderPrefix(keys, f[i], objects, groups, whole, root + r);
        OnlyUnder(f, i, groups, root + r);
      }
    }
    forall r | r in found ensures !Ahead(g, root + r) {
      NotAheadStays(keys, f, i, groups, root + r);
    }
    DistinctConcat(found, more);
  }

  lemma DistinctConcat(a: seq<Key>, b: seq<Key>)
    requires Distinct(a) && Distinct(b) && forall r | r in b :: r !in a
    ensures Distinct(a + b)
  {
    var s := a + b;
    forall i, j | 0 <= i < j < |s| ensures s[i] != s[j] {
      if i < |a| <= j { assert s[j] == b[j - |a|] && s[j] in b; }
    }
  }

  lemma PrefixesStep(keys: set<Key>, root: Key, f: seq<Key>, i: nat, groups: seq<Key>)
    requires i < |f| && Prefixes(root, f) && forall c | c in groups :: IsGroup(keys, f[i], c)
    ensures Prefixes(root, Without(f, i) + groups)
  {
    var g := Without(f, i) + groups;
    var n := |f| - 1;
    forall x | 0 <= x < |g| ensures root <= g[x] && (g[x] == [] || IsMarker(g[x])) {
      if x < n { assert g[x] == f[if x < i then x else x + 1]; } else { GroupShape(keys, f[i], groups[x - n]); }
    }
  }

  /** A key under `f[i]` and under none of its groups is under nothing else. */
  lemma OnlyUnder(f: seq<Key>, i: nat, groups: seq<Key>, k: Key)
    requires i < |f| && Antichain(f) && f[i] <= k && !Ahead(groups, k)
    ensures !Ahead(Without(f, i) + groups, k)
  {
    var g := Without(f, i) + groups;
    var n := |f| - 1;
    forall x | 0 <= x < |g| ensures !(g[x] <= k) {
      if x < n {
        var y := if x < i then x else x + 1;
        assert g[x] == f[y] && !(f[y] <= f[i]) && !(f[i] <= f[y]);
      } else {
        assert g[x] == groups[x - n];
      }
    }
  }

  lemma NotAheadStays(keys: set<Key>, f: seq<Key>, i: nat, groups: seq<Key>, k: Key)
    requires i < |f| && !Ahead(f, k) && forall c | c in groups :: IsGroup(keys, f[i], c)
    ensures !Ahead(Without(f, i) + groups, k)
  {
    var g := Without(f, i) + groups;
    var n := |f| - 1;
    forall x | 0 <= x < |g| ensures !(g[x] <= k) {
      if x < n {
        assert g[x] == f[if x < i then x else x + 1];
      } else {
        GroupShape(keys, f[i], groups[x - n]);
        assert !(f[i] <= k);
      }
    }
  }

  lemma CoverStays(keys: set<Key>, root: Key, markers: bool, f: seq<Key>, i: nat, objects: seq<Key>, groups: seq<Key>,
                   whole: bool, k: Key)
    requires i < |f| && k in keys && Wanted(root, markers, k) && Ahead(f, k)
    requires AllUnder(root, objects) && Listed(keys, f[i], objects, groups, whole)
    ensures k[|root|..] in Relative(objects, root, markers) || Ahead(Without(f, i) + groups, k) || (!whole && f[i] <= k)
  {
    var g := Without(f, i) + groups;
    var n := |f| - 1;
    var x :| 0 <= x < |f| && f[x] <= k;
    if x != i {
      var y := if x < i then x else x - 1;
      assert g[y] == f[x];
    } else if whole {
      UnderPrefix(keys, f[i], objects, groups, whole, k);
      if k in objects {
        assert root + k[|root|..] == k;
        RelativeMember(objects, root, markers, k[|root|..]);
      } else {
        var z :| 0 <= z < |groups| && groups[z] <= k;
        assert g[n + z] == groups[z];
      }
    }
  }

  /** What holds of every page's words holds of all of them together. */
  lemma {:induction false} AllTruthful(keys: set<Key>, p: Key, delimited: bool, pages: seq<Page>)
    requires forall i | 0 <= i < |pages| :: Truthful(keys, p, delimited, pages[i])
    ensures forall k | k in Objects(pages) :: k in keys && InListing(p, delimited, k)
    ensures forall c | c in GroupsOf(pages) :: delimited && IsGroup(keys, p, c)
  {
    if pages != [] {
      AllTruthful(keys, p, delimited, pages[..|pages| - 1]);
    }
  }

  lemma TruthfulUnder(keys: set<Key>, p: Key, delimited: bool, pages: seq<Page>)
    requires forall i | 0 <= i < |pages| :: Truthful(keys, p, delimited, pages[i])
    ensures forall i | 0 <= i < |pages| :: AllUnder(p, pages[i].objects)
  {
    forall i | 0 <= i < |pages| ensures AllUnder(p, pages[i].objects) {
      var page := pages[i];
      forall j | 0 <= j < |page.objects| ensures p <= page.objects[j] { assert page.objects[j] in page.objects; }
    }
  }

  lemma WantedIs(root: Key, markers: bool)
    ensures forall r :: Wanted(root, markers, root + r) <==> markers || (r != [] && r[|r| - 1] != '/')
  {
    forall r ensures Wanted(root, markers, root + r) <==> markers || (r != [] && r[|r| - 1] != '/') {
      if r != [] { assert (root + r)[|root + r| - 1] == r[|r| - 1]; }
    }
  }

  function Normalize(prefix: Key): (root: Key)
    ensures root == [] || IsMarker(root)
  {
    if prefix != [] && !IsMarker(prefix) then prefix + "/" else prefix
  }

  /** The first pages say a part of what all say. */
  lemma {:induction false} PagesPrefix(pages: seq<Page>, n: nat)
    requires n <= |pages|
    ensures Objects(pages[..n]) <= Objects(pages) && GroupsOf(pages[..n]) <= GroupsOf(pages)
    decreases |pages|
  {
    if n < |pages| {
      assert pages[..|pages| - 1][..n] == pages[..n];
      PagesPrefix(pages[..|pages| - 1], n);
    } else {
      assert pages[..n] == pages;
    }
  }

  /** What the pages up to a failure make a listing of `p` into. */
  lemma ReadIsListed(keys: set<Key>, p: Key, pages: seq<Page>, n: nat)
    requires Faithful(keys, p, true, pages) && UpToFailure(pages, n)
    ensures Listed(keys, p, Objects(pages[..n]), GroupsOf(pages[..n]), !Broken(pages))
  {
    AllTruthful(keys, p, true, pages[..n]);
    PagesPrefix(pages, n);
    if !Broken(pages) { assert pages[..n] == pages; }
  }

  /** What a flat listing of `root` reports: the wanted keys on the pages before the first failure, each once,
      and so every wanted key when no page fails and the end is the end. */
  ghost predicate ReportsFlat(keys: set<Key>, root: Key, pages: seq<Page>, found: seq<Key>, complete: bool) {
    && complete == !Broken(pages) && (complete ==> Exact(keys, root, false, found))
    && Distinct(found) && exists n: nat :: UpToFailure(pages, n) && NamesWanted(Objects(pages[..n]), root, found)
  }

  ghost predicate NamesWanted(objects: seq<Key>, root: Key, found: seq<Key>) {
    forall r :: r in found <==> root + r in objects && Wanted(root, false, root + r)
  }

  /** The flat listing: one delimiter-free listing, folder markers left out. A prefix that does not end in a
      slash means what lies under it as a folder. In plain terms, when nothing failed: the keys below
      the folder by what follows it. */
  method EnumerateFlat(service: Service, ghost keys: set<Key>, prefix: Key, calm: bool, wasCancelled: bool)
    returns (found: seq<Key>, complete: bool, cancelled: bool)
    requires Serves(service, keys)
    ensures wasCancelled ==> cancelled
    ensures calm && !wasCancelled ==> !cancelled
    ensures !cancelled ==>
              var root := if prefix == [] || prefix[|prefix| - 1] == '/' then prefix else prefix + "/";
              && ReportsFlat(keys, root, service.flat(root), found, complete)
              && (complete ==> forall r :: r in found <==> root + r in keys && r != [] && r[|r| - 1] != '/')
  {
    var root := Normalize(prefix);
    var pages := service.flat(root);
    assert Faithful(keys, root, false, pages);
    TruthfulUnder(keys, root, false, pages);
    var groups;
    ghost var n;
    found, groups, complete, cancelled, n := ListAll(pages, root, root, false, calm, wasCancelled);
    if !cancelled {
      FlatReports(keys, root, pages, n);
      if complete { PlainTerms(keys, root, false, found); }
    }
  }

  lemma FlatReports(keys: set<Key>, root: Key, pages: seq<Page>, n: nat)
    requires Faithful(keys, root, false, pages) && UpToFailure(pages, n)
    requires forall i | 0 <= i < |pages| :: AllUnder(root, pages[i].objects)
    ensures ReportsFlat(keys, root, pages, Found(pages[..n], root, false), !Broken(pages))
  {
    var objects := Objects(pages[..n]);
    FoundIsRelative(pages[..n], root, false);
    PagesPrefix(pages, n);
    RelativeDistinct(objects, root, false);
    forall r ensures r in Relative(objects, root, false) <==> root + r in objects && Wanted(root, false, root + r) {
      RelativeMember(objects, root, false, r);
    }
    assert NamesWanted(objects, root, Relative(objects, root, false));
    AllTruthful(keys, root, false, pages);
    if !Broken(pages) { assert pages[..n] == pages; }
  }

  ghost function MaxLength(keys: set<Key>): (m: nat)
    ensures forall k | k in keys :: |k| <= m
  {
    if keys == {} then 0
    else
      var k :| k in keys;
      var m := MaxLength(keys - {k});
      if |k| <= m then m else |k|
  }

  /** Every prefix at depth `d` is that many characters long at least, and is a prefix of some key. */
  ghost predicate Deep(keys: set<Key>, root: Key, d: nat, level: seq<Key>) {
    && Prefixes(root, level)
    && forall i | 0 <= i < |level| :: |level[i]| >= d && (d == 0 || exists k :: k in keys && level[i] <= k)
  }

  lemma ListingSplits(keys: set<Key>, root: Key, markers: bool, found: seq<Key>, f: seq<Key>, lost: set<Key>, i: nat,
                      pages: seq<Page>, n: nat)
    requires i < |f| && Split(keys, root, markers, found, f, lost)
    requires Faithful(keys, f[i], true, pages) && UpToFailure(pages, n)
    requires forall x | 0 <= x < |pages| :: AllUnder(root, pages[x].objects)
    ensures Split(keys, root, markers, found + Found(pages[..n], root, markers), Without(f, i) + GroupsOf(pages[..n]),
                  if Broken(pages) then lost + {f[i]} else lost)
  {
    ReadIsListed(keys, f[i], pages, n);
    FoundIsRelative(pages[..n], root, markers);
    SplitStep(keys, root, markers, found, f, lost, i, Objects(pages[..n]), GroupsOf(pages[..n]), !Broken(pages));
  }

  /** One worker: list one prefix of the frontier `f` and bring back what is under it. */
  method ProcessPrefix(service: Service, ghost keys: set<Key>, root: Key, markers: bool, p: Key, ghost d: nat,
                       ghost found: seq<Key>, ghost f: seq<Key>, ghost lost: set<Key>, ghost i: nat, calm: bool,
                       wasCancelled: bool)
    returns (more: seq<Key>, groups: seq<Key>, listed: bool, cancelled: bool)
    requires Serves(service, keys) && root <= p && (p == [] || IsMarker(p)) && |p| >= d
    requires i < |f| && f[i] == p
    ensures wasCancelled ==> cancelled
    ensures calm && !wasCancelled ==> !cancelled
    ensures Deep(keys, root, d + 1, groups)
    ensures !listed ==> Broken(service.delimited(p))
    ensures !cancelled ==> listed == !Broken(service.delimited(p))
    ensures !cancelled && Split(keys, root, markers, found, f, lost) ==>
              Split(keys, root, markers, found + more, Without(f, i) + groups, if listed then lost else lost + {p})
  {
    var pages := service.delimited(p);
    assert Faithful(keys, p, true, pages);
    TruthfulUnder(keys, p, true, pages);
    ghost var n;
    more, groups, listed, cancelled, n := ListAll(pages, p, root, markers, calm, wasCancelled);
    DeepStep(keys, root, d, p, pages, groups);
    if !cancelled && Split(keys, root, markers, found, f, lost) {
      ListingSplits(keys, root, markers, found, f, lost, i, pages, n);
    }
  }

  /** The prefixes under `root` whose listing failed; there are some exactly when the walk is incomplete. */
  ghost predicate Failures(service: Service, root: Key, lost: set<Key>, complete: bool) {
    (forall p | p in lost :: root <= p && Broken(service.delimited(p))) && (complete <==> lost == {})
  }

  lemma FailuresStep(service: Service, root: Key, lost: set<Key>, complete: bool, p: Key, listed: bool)
    requires Failures(service, root, lost, complete) && root <= p && (!listed ==> Broken(service.delimited(p)))
    ensures Failures(service, root, if listed then lost else lost + {p}, complete && listed)
  {}

  /** Taking a prefix from the pending ones and queueing its groups behind the next level. */
  lemma Requeue(pending: seq<Key>, next: seq<Key>, i: nat, groups: seq<Key>)
    requires i < |pending|
    ensures (pending + next)[i] == pending[i]
    ensures Without(pending + next, i) + groups == Without(pending, i) + (next + groups)
  {}

  /** List the prefixes of one level, in any order, merging what each worker brings back. */
  method WalkLevel(service: Service, ghost keys: set<Key>, root: Key, markers: bool, level: seq<Key>, ghost d: nat,
                   before: seq<Key>, ghost wasLost: set<Key>, wasComplete: bool, calm: bool, wasCancelled: bool)
    returns (found: seq<Key>, next: seq<Key>, ghost lost: set<Key>, complete: bool, cancelled: bool)
    requires Serves(service, keys) && Deep(keys, root, d, level) && Failures(service, root, wasLost, wasComplete)
    requires !wasCancelled ==> Split(keys, root, markers, before, level, wasLost)
    ensures (!wasComplete ==> !complete) && (wasCancelled ==> cancelled) && (calm && !wasCancelled ==> !cancelled)
    ensures Deep(keys, root, d + 1, next) && Failures(service, root, lost, complete)
    ensures !cancelled ==> Split(keys, root, markers, found, next, lost)
  {
    found, next, lost, complete, cancelled := before, [], wasLost, wasComplete, wasCancelled;
    var pending := level;
    assert pending + next == level;
    while pending != []
      invariant (!wasComplete ==> !complete) && (wasCancelled ==> cancelled) && (calm && !wasCancelled ==> !cancelled)
      invariant Deep(keys, root, d, pending) && Deep(keys, root, d + 1, next) && Failures(service, root, lost, complete)
      invariant !cancelled ==> Split(keys, root, markers, found, pending + next, lost)
      decreases |pending|
    {
      var i: nat :| i < |pending|;
      var more, groups, listed;
      more, groups, listed, cancelled :=
        ProcessPrefix(service, keys, root, markers, pending[i], d, found, pending + next, lost, i, calm, cancelled);
      Requeue(pending, next, i, groups);
      FailuresStep(service, root, lost, complete, pending[i], listed);
      complete := complete && listed;
      lost := if listed then lost else lost + {pending[i]};
      DeepWithout(keys, root, d, pending, i);
      DeepConcat(keys, root, d + 1, next, groups);
      found, next, pending := found + more, next + groups, Without(pending, i);
    }
    assert pending + next == next;
  }

  lemma DeepStep(keys: set<Key>, root: Key, d: nat, p: Key, pages: seq<Page>, groups: seq<Key>)
    requires root <= p && |p| >= d && Faithful(keys, p, true, pages)
    requires forall c | c in groups :: GroupOfSome(pages, c)
    ensures Deep(keys, root, d + 1, groups)
  {
    forall i | 0 <= i < |groups|
      ensures root <= groups[i] && IsMarker(groups[i]) && |groups[i]| >= d + 1
      ensures exists k :: k in keys && groups[i] <= k
    {
      assert groups[i] in groups;
      var x :| 0 <= x < |pages| && groups[i] in pages[x].groups;
      GroupShape(keys, p, groups[i]);
    }
  }

  lemma DeepWithout(keys: set<Key>, root: Key, d: nat, level: seq<Key>, i: nat)
    requires i < |level| && Deep(keys, root, d, level)
    ensures Deep(keys, root, d, Without(level, i))
  {
    var g := Without(level, i);
    assert forall x | 0 <= x < |g| :: g[x] == level[if x < i then x else x + 1];
  }

  lemma DeepConcat(keys: set<Key>, root: Key, d: nat, a: seq<Key>, b: seq<Key>)
    requires Deep(keys, root, d, a) && Deep(keys, root, d, b)
    ensures Deep(keys, root, d, a + b)
  {}

  lemma WalkStarts(service: Service, keys: set<Key>, root: Key, markers: bool)
    requires root == [] || IsMarker(root)
    ensures Split(keys, root, markers, [], [root], {}) && Deep(keys, root, 0, [root])
    ensures Failures(service, root, {}, true)
  {
    forall k | k in keys && Wanted(root, markers, k) ensures Ahead([root], k) { assert [root][0] <= k; }
  }

  lemma DeepBounded(keys: set<Key>, root: Key, d: nat, level: seq<Key>)
    requires level != [] && Deep(keys, root, d, level)
    ensures d <= MaxLength(keys)
  {
    assert |level[0]| >= d;
  }

  /** What a walk of `root` reports: wanted keys only, each once; every wanted key that is under no prefix whose
      listing failed; and so every one when no listing fails. */
  ghost predicate Reports(service: Service, keys: set<Key>, root: Key, markers: bool, found: seq<Key>, complete: bool) {
    && (complete ==> Exact(keys, root, markers, found))
    && (!complete ==> exists p :: root <= p && Broken(service.delimited(p)))
    && Distinct(found) && (forall r | r in found :: root + r in keys && Wanted(root, markers, root + r))
    && (forall k | k in keys && Wanted(root, markers, k) :: k[|root|..] in found || UnderFailure(service, root, k))
  }

  ghost predicate UnderFailure(service: Service, root: Key, k: Key) {
    exists p :: root <= p <= k && Broken(service.delimited(p))
  }

  lemma WalkEnds(service: Service, keys: set<Key>, root: Key, markers: bool, found: seq<Key>, lost: set<Key>,
                 complete: bool)
    requires Split(keys, root, markers, found, [], lost) && Failures(service, root, lost, complete)
    ensures Reports(service, keys, root, markers, found, complete)
  {
    forall k | k in keys && Wanted(root, markers, k) ensures k[|root|..] in found || UnderFailure(service, root, k) {
      if k[|root|..] !in found { var p :| p in lost && p <= k; }
    }
    if complete {
      forall r | root + r in keys && Wanted(root, markers, root + r) ensures r in found {
        assert (root + r)[|root|..] == r;
      }
    } else {
      var p :| p in lost;
    }
  }

  /** The walk from a normal prefix, level by level. It terminates for every service, whatever fails, because each
      level is longer than the last and no prefix is longer than the longest key. */
  method WalkFrom(service: Service, ghost keys: set<Key>, root: Key, markers: bool, calm: bool, wasCancelled: bool)
    returns (found: seq<Key>, complete: bool, cancelled: bool)
    requires Serves(service, keys) && (root == [] || IsMarker(root))
    ensures wasCancelled ==> cancelled
    ensures calm && !wasCancelled ==> !cancelled
    ensures !cancelled ==> Reports(service, keys, root, markers, found, complete)
  {
    found, complete, cancelled := [], true, wasCancelled;
    var level := [root];
    ghost var d, lost := 0, {};
    WalkStarts(service, keys, root, markers);
    while level != [] && !cancelled
      invariant (wasCancelled ==> cancelled) && (calm && !wasCancelled ==> !cancelled)
      invariant Deep(keys, root, d, level) && Failures(service, root, lost, complete)
      invariant !cancelled ==> Split(keys, root, markers, found, level, lost)
      decreases MaxLength(keys) + 1 - d
    {
      DeepBounded(keys, root, d, level);
      found, level, lost, complete, cancelled :=
          WalkLevel(service, keys, root, markers, level, d, found, lost, complete, calm, cancelled);
      d := d + 1;
      var interrupted: bool := *;
      cancelled := cancelled || (interrupted && !calm);
    }
    if !cancelled { WalkEnds(service, keys, root, markers, found, lost, complete); }
  }

  lemma PlainTerms(keys: set<Key>, root: Key, markers: bool, found: seq<Key>)
    requires Exact(keys, root, markers, found)
    ensures forall r :: r in found <==> root + r in keys && (markers || (r != [] && r[|r| - 1] != '/'))
  {
    WantedIs(root, markers);
  }

  /** The recursive listing. A prefix that does not end in a slash means what lies under it as a folder. In plain
      terms, when nothing failed: the keys below the folder by what follows it, markers on request only. */
  method EnumerateLevels(service: Service, ghost keys: set<Key>, prefix: Key, markers: bool, calm: bool,
                         wasCancelled: bool)
    returns (found: seq<Key>, complete: bool, cancelled: bool)
    requires Serves(service, keys)
    ensures wasCancelled ==> cancelled
    ensures calm && !wasCancelled ==> !cancelled
    ensures !cancelled ==>
              var root := if prefix == [] || prefix[|prefix| - 1] == '/' then prefix else prefix + "/";
              && Reports(service, keys, root, markers, found, complete)
              && (complete ==>
                    forall r :: r in found <==> root + r in keys && (markers || (r != [] && r[|r| - 1] != '/')))
  {
    var root := Normalize(prefix);
    found, complete, cancelled := WalkFrom(service, keys, root, markers, calm, wasCancelled);
    if !cancelled && complete { PlainTerms(keys, root, markers, found); }
  }

  lemma {:induction false} DistinctMultiset(s: seq<Key>, k: Key)
    requires Distinct(s)
    ensures multiset(s)[k] == if k in s then 1 else 0
  {
    if s != [] {
      var n := |s| - 1;
      assert s == s[..n] + [s[n]];
      DistinctMultiset(s[..n], k);
    }
  }

  /** Two exact listings report the same paths, each once: the level-by-level walk agrees with
      the flat one. */
  lemma WalksAgree(keys: set<Key>, root: Key, a: seq<Key>, b: seq<Key>)
    requires Exact(keys, root, false, a) && Exact(keys, root, false, b)
    ensures multiset(a) == multiset(b)
  {
    forall k ensures multiset(a)[k] == multiset(b)[k] {
      DistinctMultiset(a, k);
      DistinctMultiset(b, k);
    }
  }

  /** With folder markers, the walk reports every key under the prefix. */
  lemma MarkersMeansEverything(keys: set<Key>, root: Key, found: seq<Key>)
    requires Exact(keys, root, true, found)
    ensures forall k | k in keys && root <= k :: k[|root|..] in found
    ensures forall r | r in found :: root + r in keys
  {
    forall k | k in keys && root <= k ensures k[|root|..] in found {
      assert root + k[|root|..] == k;
    }
  }
}

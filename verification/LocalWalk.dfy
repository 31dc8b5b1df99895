/** The walk of a local directory tree that follows each symbolic link target once. */
module LocalWalk {
  import opened Sequences
  import opened Options

  type Dir = nat
  type Path = seq<string>

  /** One directory entry, as `status` reports it. Broken covers whatever exists but cannot be
      read or resolved; Other is everything that is not there or is no file and no directory. */
  datatype Entry =
    | File(name: string)
    | Sub(name: string, dir: Dir)       // a real directory
    | Link(name: string, dir: Dir)      // a symbolic link to a directory
    | Broken(name: string)
    | Other(name: string)

  datatype Listing = Unreadable | Entries(entries: seq<Entry>)

  /** A fixed file system. Real directories form a hierarchy, which `rank` witnesses; links may
      point anywhere, up and around included. */
  datatype Graph = Graph(dirs: map<Dir, Listing>, rank: Dir -> nat)

  function Content(g: Graph, d: Dir): seq<Entry> {
    if d in g.dirs && g.dirs[d].Entries? then g.dirs[d].entries else []
  }

  ghost predicate WellFormed(g: Graph) {
    forall d | d in g.dirs ::
      && (forall i | 0 <= i < |Content(g, d)| ::
            match Content(g, d)[i]
            case Sub(_, e) => e in g.dirs && g.rank(e) < g.rank(d)
            case Link(_, e) => e in g.dirs
            case _ => true)
      && (forall i, j | 0 <= i < j < |Content(g, d)| :: Content(g, d)[i].name != Content(g, d)[j].name)
  }

  // ---- What an unrestricted walk would report ----

  /** The position of a name in a directory, or -1. */
  function IndexOf(entries: seq<Entry>, name: string): (i: int)
    ensures i == -1 ==> forall j | 0 <= j < |entries| :: entries[j].name != name
    ensures i != -1 ==> 0 <= i < |entries| && entries[i].name == name
  {
    if entries == [] then -1
    else if entries[|entries| - 1].name == name then |entries| - 1
    else IndexOf(entries[..|entries| - 1], name)
  }

  /** The directory an entry of `d` leads to. */
  function Enter(g: Graph, d: Dir, name: string): Option<Dir> {
    var i := IndexOf(Content(g, d), name);
    if i == -1 then None
    else match Content(g, d)[i]
         case Sub(_, e) => Some(e)
         case Link(_, e) => Some(e)
         case _ => None
  }

  /** The directory a path leads to, following every link it crosses. */
  function Resolve(g: Graph, root: Dir, p: Path): Option<Dir> {
    if p == [] then Some(root)
    else
      match Resolve(g, root, p[..|p| - 1])
      case None => None
      case Some(d) => Enter(g, d, p[|p| - 1])
  }

  predicate HasFile(g: Graph, d: Dir, name: string) {
    var i := IndexOf(Content(g, d), name);
    i != -1 && Content(g, d)[i].File?
  }

  /** `q` names a file, through any number of links. */
  predicate IsFile(g: Graph, root: Dir, q: Path) {
    && q != []
    && Resolve(g, root, q[..|q| - 1]).Some?
    && HasFile(g, Resolve(g, root, q[..|q| - 1]).value, q[|q| - 1])
  }

  /** The entry a path names, or none. */
  function EntryOf(g: Graph, root: Dir, q: Path): Option<Entry> {
    if q == [] then None
    else
      match Resolve(g, root, q[..|q| - 1])
      case None => None
      case Some(d) =>
        var i := IndexOf(Content(g, d), q[|q| - 1]);
        if i == -1 then None else Some(Content(g, d)[i])
  }

  /** `q` names something that is there and cannot be read. */
  predicate IsBroken(g: Graph, root: Dir, q: Path) {
    EntryOf(g, root, q).Some? && EntryOf(g, root, q).value.Broken?
  }

  predicate IsUnreadable(g: Graph, root: Dir, p: Path) {
    && Resolve(g, root, p).Some?
    && Resolve(g, root, p).value in g.dirs && g.dirs[Resolve(g, root, p).value].Unreadable?
  }

  /** Two paths of one file: the same name in the same directory. */
  predicate SameFile(g: Graph, root: Dir, p: Path, q: Path) {
    && p != [] && q != [] && p[|p| - 1] == q[|q| - 1]
    && Resolve(g, root, p[..|p| - 1]).Some? && Resolve(g, root, p[..|p| - 1]) == Resolve(g, root, q[..|q| - 1])
  }

  /** Every file path, and each once. */
  ghost predicate Exact(g: Graph, root: Dir, found: seq<Path>) {
    Distinct(found) && forall q :: q in found <==> IsFile(g, root, q)
  }

  lemma ResolveSnoc(g: Graph, root: Dir, p: Path, name: string)
    ensures Resolve(g, root, p + [name]) ==
              (if Resolve(g, root, p).None? then None else Enter(g, Resolve(g, root, p).value, name))
    ensures IsFile(g, root, p + [name]) <==> Resolve(g, root, p).Some? && HasFile(g, Resolve(g, root, p).value, name)
  {
    assert (p + [name])[..|p + [name]| - 1] == p;
  }

  /** Every prefix of a path to a directory leads to a directory. */
  lemma {:induction false} ResolvePrefix(g: Graph, root: Dir, p: Path, r: Path)
    requires p <= r && Resolve(g, root, r).Some?
    ensures Resolve(g, root, p).Some?
    decreases |r|
  {
    if p != r {
      ResolvePrefix(g, root, p, r[..|r| - 1]);
    }
  }

  // ---- The frontier ----

  /** A directory being read: entries before position `k` are done. */
  datatype Item = Item(path: Path, dir: Dir, k: nat)

  /** What is still to come from an item: anything below it whose first name is at `k` or later. */
  predicate Covers(g: Graph, it: Item, q: Path) {
    && |it.path| < |q| && it.path <= q
    && IndexOf(Content(g, it.dir), q[|it.path|]) >= it.k
    && IndexOf(Content(g, it.dir), q[|it.path|]) != -1
  }

  ghost predicate Ahead(g: Graph, f: seq<Item>, q: Path) {
    exists i :: 0 <= i < |f| && Covers(g, f[i], q)
  }

  /** No two items will ever report the same path. */
  ghost predicate Apart(g: Graph, f: seq<Item>) {
    forall i, j | 0 <= i < |f| && 0 <= j < |f| && i != j :: f[i].path != f[j].path && !Covers(g, f[i], f[j].path)
  }

  ghost predicate Grounded(g: Graph, root: Dir, f: seq<Item>) {
    forall i | 0 <= i < |f| ::
      f[i].dir in g.dirs && f[i].k <= |Content(g, f[i].dir)| && Resolve(g, root, f[i].path) == Some(f[i].dir)
  }

  predicate OnFrontier(f: seq<Item>, p: Path) {
    exists i :: 0 <= i < |f| && f[i].path == p
  }

  /** `q` lies at or below a link that was not followed. */
  predicate Under(skipped: set<Path>, q: Path) {
    exists s :: s in skipped && s <= q
  }

  /** What the workers share besides the two levels. `skipped` are the links not followed, each logged; that there
      are any is all the source hands on. */
  datatype Walked = Walked(found: seq<Path>, visited: set<Dir>, complete: bool, skipped: set<Path>)

  /** What is found is a file, found once and not to come again. */
  ghost predicate Reported(g: Graph, root: Dir, found: seq<Path>, f: seq<Item>) {
    Distinct(found) && forall q | q in found :: IsFile(g, root, q) && !Ahead(g, f, q)
  }

  /** Nothing is lost: a file is found, an unreadable thing reported, or it is still ahead or below a link
      that was not followed. */
  ghost predicate Seen(g: Graph, root: Dir, f: seq<Item>, w: Walked) {
    && (forall q | IsFile(g, root, q) :: q in w.found || Ahead(g, f, q) || Under(w.skipped, q))
    && (forall q | IsBroken(g, root, q) :: !w.complete || Ahead(g, f, q) || Under(w.skipped, q))
    && (forall p | IsUnreadable(g, root, p) ::
          !w.complete || Ahead(g, f, p) || OnFrontier(f, p) || Under(w.skipped, p))
  }

  /** The items after the entry at `k` of item `i` has been handled. */
  function Advance(f: seq<Item>, i: nat): seq<Item>
    requires i < |f|
  {
    f[i := f[i].(k := f[i].k + 1)]
  }

  function EntryAt(g: Graph, it: Item): Entry
    requires it.k < |Content(g, it.dir)|
  {
    Content(g, it.dir)[it.k]
  }

  lemma {:induction false} IndexOfName(entries: seq<Entry>, k: nat)
    requires k < |entries| && forall i, j | 0 <= i < j < |entries| :: entries[i].name != entries[j].name
    ensures IndexOf(entries, entries[k].name) == k
  {}

  /** Two items that cover one path are one item. */
  lemma CoverOnce(g: Graph, f: seq<Item>, i: nat, j: nat, q: Path)
    requires i < |f| && j < |f| && i != j && Apart(g, f) && Covers(g, f[i], q)
    ensures !Covers(g, f[j], q)
  {}

  /** Passing an entry uncovers exactly the paths that begin with its name. */
  lemma AdvanceCovers(g: Graph, it: Item, q: Path)
    requires WellFormed(g) && it.dir in g.dirs && it.k < |Content(g, it.dir)|
    ensures Covers(g, it, q) <==>
              Covers(g, it.(k := it.k + 1), q)
                  || (|it.path| < |q| && it.path <= q && q[|it.path|] == EntryAt(g, it).name)
    ensures Covers(g, it.(k := it.k + 1), q) ==> q[|it.path|] != EntryAt(g, it).name
  {
    IndexOfName(Content(g, it.dir), it.k);
  }

  /** The item a subdirectory or link entry opens. */
  function Child(g: Graph, it: Item): Item
    requires it.k < |Content(g, it.dir)| && (EntryAt(g, it).Sub? || EntryAt(g, it).Link?)
  {
    Item(it.path + [EntryAt(g, it).name], EntryAt(g, it).dir, 0)
  }

  lemma ApartAdvance(g: Graph, f: seq<Item>, i: nat)
    requires WellFormed(g) && i < |f| && Apart(g, f) && f[i].dir in g.dirs && f[i].k < |Content(g, f[i].dir)|
    ensures Apart(g, Advance(f, i))
  {
    var h := Advance(f, i);
    forall x, y | 0 <= x < |h| && 0 <= y < |h| && x != y ensures h[x].path != h[y].path && !Covers(g, h[x], h[y].path) {
      assert f[x].path != f[y].path && !Covers(g, f[x], f[y].path);
      if x == i { AdvanceCovers(g, f[i], f[y].path); }
    }
  }

  lemma ApartChild(g: Graph, f: seq<Item>, i: nat)
    requires WellFormed(g) && i < |f| && Apart(g, f) && f[i].dir in g.dirs && f[i].k < |Content(g, f[i].dir)|
    requires EntryAt(g, f[i]).Sub? || EntryAt(g, f[i]).Link?
    ensures Apart(g, Advance(f, i) + [Child(g, f[i])])
  {
    ApartAdvance(g, f, i);
    var a := Advance(f, i);
    var c := Child(g, f[i]);
    var h := a + [c];
    forall x | 0 <= x < |a| ensures a[x].path != c.path && !Covers(g, a[x], c.path) && !Covers(g, c, a[x].path) {
      ChildApartFrom(g, f, i, x);
    }
    forall x, y | 0 <= x < |h| && 0 <= y < |h| && x != y ensures h[x].path != h[y].path && !Covers(g, h[x], h[y].path) {
      if x < |a| && y < |a| { assert a[x].path != a[y].path && !Covers(g, a[x], a[y].path); }
    }
  }

  lemma ChildApartFrom(g: Graph, f: seq<Item>, i: nat, x: nat)
    requires WellFormed(g) && i < |f| && x < |f| && Apart(g, f) && f[i].dir in g.dirs && f[i].k < |Content(g, f[i].dir)|
    requires EntryAt(g, f[i]).Sub? || EntryAt(g, f[i]).Link?
    ensures var a := Advance(f, i); var c := Child(g, f[i]);
            a[x].path != c.path && !Covers(g, a[x], c.path) && !Covers(g, c, a[x].path)
  {
    var c := Child(g, f[i]);
    IndexOfName(Content(g, f[i].dir), f[i].k);
    if x != i {
      var p := f[i].path;
      assert f[x].path != p && !Covers(g, f[i], f[x].path) && !Covers(g, f[x], p);
      assert c.path[..|p|] == p;
    }
  }

  /** A path that goes on below a directory passes through one of its directories. */
  lemma EntryBelow(g: Graph, root: Dir, it: Item, q: Path)
    requires EntryOf(g, root, q).Some? && it.path <= q && |it.path| + 1 < |q|
    requires Resolve(g, root, it.path) == Some(it.dir)
    ensures it.path + [q[|it.path|]] <= q
    ensures Enter(g, it.dir, q[|it.path|]).Some?
    ensures Resolve(g, root, it.path + [q[|it.path|]]) == Enter(g, it.dir, q[|it.path|])
  {
    var p := it.path + [q[|it.path|]];
    ResolvePrefix(g, root, p, q[..|q| - 1]);
    ResolveSnoc(g, root, it.path, q[|it.path|]);
  }

  /** The path of an entry below a directory begins with one of its names. */
  lemma EntryThrough(g: Graph, root: Dir, it: Item, q: Path)
    requires EntryOf(g, root, q).Some? && it.path <= q && |it.path| < |q|
    requires Resolve(g, root, it.path) == Some(it.dir)
    ensures IndexOf(Content(g, it.dir), q[|it.path|]) != -1
    ensures |q| > |it.path| + 1 ==> Enter(g, it.dir, q[|it.path|]).Some?
  {
    if |q| == |it.path| + 1 {
      assert q[..|q| - 1] == it.path;
    } else {
      EntryBelow(g, root, it, q);
    }
  }

  /** What a child covers: every entry strictly below it. */
  lemma ChildCovers(g: Graph, root: Dir, it: Item, q: Path)
    requires WellFormed(g) && it.dir in g.dirs && it.k < |Content(g, it.dir)|
    requires EntryAt(g, it).Sub? || EntryAt(g, it).Link?
    requires Resolve(g, root, it.path) == Some(it.dir)
    requires EntryOf(g, root, q).Some? && it.path <= q && |it.path| + 1 < |q| && q[|it.path|] == EntryAt(g, it).name
    ensures Covers(g, Child(g, it), q)
  {
    IndexOfName(Content(g, it.dir), it.k);
    EntryBelow(g, root, it, q);
    EntryThrough(g, root, Child(g, it), q);
  }

  lemma ChildGrounded(g: Graph, root: Dir, it: Item)
    requires WellFormed(g) && it.dir in g.dirs && it.k < |Content(g, it.dir)|
    requires EntryAt(g, it).Sub? || EntryAt(g, it).Link?
    requires Resolve(g, root, it.path) == Some(it.dir)
    ensures Child(g, it).dir in g.dirs && Resolve(g, root, Child(g, it).path) == Some(Child(g, it).dir)
  {
    IndexOfName(Content(g, it.dir), it.k);
    ResolveSnoc(g, root, it.path, EntryAt(g, it).name);
  }

  /** What passing entry `k` of item `i` takes off the frontier. */
  predicate Passed(g: Graph, it: Item, q: Path)
    requires it.k < |Content(g, it.dir)|
  {
    |it.path| < |q| && it.path <= q && q[|it.path|] == EntryAt(g, it).name
  }

  lemma AheadAdvance(g: Graph, f: seq<Item>, i: nat, q: Path)
    requires WellFormed(g) && i < |f| && Apart(g, f) && f[i].dir in g.dirs && f[i].k < |Content(g, f[i].dir)|
    ensures Ahead(g, f, q) <==> Ahead(g, Advance(f, i), q) || Passed(g, f[i], q)
    ensures Passed(g, f[i], q) ==> !Ahead(g, Advance(f, i), q)
  {
    var h := Advance(f, i);
    AdvanceCovers(g, f[i], q);
    if Passed(g, f[i], q) {
      assert Covers(g, f[i], q);
      forall x | 0 <= x < |h| ensures !Covers(g, h[x], q) {
        if x != i { CoverOnce(g, f, i, x, q); }
      }
    } else {
      assert forall x | 0 <= x < |h| :: Covers(g, h[x], q) <==> Covers(g, f[x], q);
    }
  }

  lemma AheadSnoc(g: Graph, a: seq<Item>, c: Item, q: Path)
    ensures Ahead(g, a + [c], q) <==> Ahead(g, a, q) || Covers(g, c, q)
  {
    var h := a + [c];
    if Covers(g, c, q) { assert Covers(g, h[|a|], q); }
    if Ahead(g, a, q) {
      var x :| 0 <= x < |a| && Covers(g, a[x], q);
      assert Covers(g, h[x], q);
    }
  }

  lemma ChildPasses(g: Graph, it: Item, q: Path)
    requires it.k < |Content(g, it.dir)| && (EntryAt(g, it).Sub? || EntryAt(g, it).Link?)
    ensures Child(g, it).path <= q <==> Passed(g, it, q)
  {
    var c := Child(g, it).path;
    if c <= q { assert q[|it.path|] == c[|it.path|] && q[..|it.path|] == c[..|it.path|]; }
    if Passed(g, it, q) { assert q[..|c|] == c; }
  }

  /** The name at the position an item has reached. */
  function Here(g: Graph, it: Item): Path
    requires it.k < |Content(g, it.dir)|
  {
    it.path + [EntryAt(g, it).name]
  }

  lemma HereIs(g: Graph, root: Dir, it: Item)
    requires WellFormed(g) && it.dir in g.dirs && it.k < |Content(g, it.dir)|
    requires Resolve(g, root, it.path) == Some(it.dir)
    ensures EntryOf(g, root, Here(g, it)) == Some(EntryAt(g, it))
    ensures Resolve(g, root, Here(g, it)) == Enter(g, it.dir, EntryAt(g, it).name)
  {
    IndexOfName(Content(g, it.dir), it.k);
    assert Here(g, it)[..|it.path|] == it.path;
  }

  lemma EnterHere(g: Graph, it: Item)
    requires WellFormed(g) && it.dir in g.dirs && it.k < |Content(g, it.dir)|
    ensures Enter(g, it.dir, EntryAt(g, it).name).Some? <==> EntryAt(g, it).Sub? || EntryAt(g, it).Link?
  {
    IndexOfName(Content(g, it.dir), it.k);
  }

  lemma PassedHere(g: Graph, it: Item, q: Path)
    requires it.k < |Content(g, it.dir)| && Passed(g, it, q) && |q| == |it.path| + 1
    ensures q == Here(g, it)
  {
    assert q == q[..|it.path|] + [q[|it.path|]];
  }

  /** An entry whose path is passed is the one passed, or below the directory it is. */
  lemma PassedEntry(g: Graph, root: Dir, it: Item, q: Path)
    requires WellFormed(g) && it.dir in g.dirs && it.k < |Content(g, it.dir)|
    requires Resolve(g, root, it.path) == Some(it.dir)
    requires EntryOf(g, root, q).Some? && Passed(g, it, q)
    ensures q == Here(g, it) || ((EntryAt(g, it).Sub? || EntryAt(g, it).Link?) && Covers(g, Child(g, it), q))
  {
    if |q| == |it.path| + 1 {
      PassedHere(g, it, q);
    } else {
      EntryThrough(g, root, it, q);
      EnterHere(g, it);
      ChildCovers(g, root, it, q);
    }
  }

  lemma FileIsEntry(g: Graph, root: Dir, q: Path)
    ensures IsFile(g, root, q) <==> EntryOf(g, root, q).Some? && EntryOf(g, root, q).value.File?
    ensures q != [] && Resolve(g, root, q).Some? ==>
              EntryOf(g, root, q).Some? && (EntryOf(g, root, q).value.Sub? || EntryOf(g, root, q).value.Link?)
  {}

  // ---- Why the walk ends on every graph ----

  /** The work left in an item: its entries and all of its real subdirectories. Links weigh nothing. */
  ghost function Weight(g: Graph, d: Dir, k: nat): (w: nat)
    requires WellFormed(g)
    ensures w > 0
    decreases g.rank(d), |Content(g, d)| - k
  {
    if k >= |Content(g, d)| then 1
    else 1 + (if Content(g, d)[k].Sub? then Weight(g, Content(g, d)[k].dir, 0) else 0) + Weight(g, d, k + 1)
  }

  function Sum(ws: seq<nat>): nat {
    if ws == [] then 0 else Sum(ws[..|ws| - 1]) + ws[|ws| - 1]
  }

  lemma {:induction false} SumUpdate(ws: seq<nat>, i: nat, w: nat)
    requires i < |ws|
    ensures Sum(ws[i := w]) + ws[i] == Sum(ws) + w
  {
    var h := ws[i := w];
    if i == |ws| - 1 {
      assert h[..i] == ws[..i];
    } else {
      assert h[..|h| - 1] == ws[..|ws| - 1][i := w];
      SumUpdate(ws[..|ws| - 1], i, w);
    }
  }

  lemma {:induction false} SumWithout(ws: seq<nat>, i: nat)
    requires i < |ws|
    ensures Sum(ws[..i] + ws[i + 1..]) + ws[i] == Sum(ws)
  {
    var h := ws[..i] + ws[i + 1..];
    if i == |ws| - 1 {
      assert h == ws[..i];
    } else {
      var front := ws[..|ws| - 1];
      assert h[..|h| - 1] == front[..i] + front[i + 1..];
      SumWithout(front, i);
    }
  }

  ghost function Weights(g: Graph, f: seq<Item>): (ws: seq<nat>)
    requires WellFormed(g)
    ensures |ws| == |f| && forall i | 0 <= i < |f| :: ws[i] == Weight(g, f[i].dir, f[i].k)
  {
    seq(|f|, i requires 0 <= i < |f| => Weight(g, f[i].dir, f[i].k))
  }

  ghost function Load(g: Graph, f: seq<Item>): nat
    requires WellFormed(g)
  {
    Sum(Weights(g, f))
  }

  lemma LoadUpdate(g: Graph, f: seq<Item>, i: nat, it: Item)
    requires WellFormed(g) && i < |f|
    ensures Load(g, f[i := it]) + Weight(g, f[i].dir, f[i].k) == Load(g, f) + Weight(g, it.dir, it.k)
  {
    var ws := Weights(g, f);
    SumUpdate(ws, i, Weight(g, it.dir, it.k));
    assert Weights(g, f[i := it]) == ws[i := Weight(g, it.dir, it.k)];
  }

  lemma LoadSnoc(g: Graph, f: seq<Item>, it: Item)
    requires WellFormed(g)
    ensures Load(g, f + [it]) == Load(g, f) + Weight(g, it.dir, it.k)
  {
    assert Weights(g, f + [it])[..|f|] == Weights(g, f);
  }

  lemma LoadWithout(g: Graph, f: seq<Item>, i: nat)
    requires WellFormed(g) && i < |f|
    ensures Load(g, Without(f, i)) + Weight(g, f[i].dir, f[i].k) == Load(g, f)
  {
    var ws := Weights(g, f);
    SumWithout(ws, i);
    assert Weights(g, Without(f, i)) == ws[..i] + ws[i + 1..];
  }

  ghost predicate Outweighs(g: Graph, b: nat)
    requires WellFormed(g)
  {
    forall d | d in g.dirs :: Weight(g, d, 0) <= b
  }

  lemma {:induction false} Heaviest(g: Graph, ds: set<Dir>) returns (b: nat)
    requires WellFormed(g) && ds <= g.dirs.Keys
    ensures forall d | d in ds :: Weight(g, d, 0) <= b
  {
    if ds == {} {
      b := 0;
    } else {
      var d :| d in ds;
      b := Heaviest(g, ds - {d});
      b := b + Weight(g, d, 0);
    }
  }

  /** The measure: the load of the frontier, and room for every link target not yet followed. */
  ghost function Measure(g: Graph, b: nat, f: seq<Item>, visited: set<Dir>): nat
    requires WellFormed(g)
  {
    Load(g, f) + (b + 1) * |g.dirs.Keys - visited|
  }

  lemma FewerUnvisited(g: Graph, b: nat, visited: set<Dir>, d: Dir)
    requires d in g.dirs && d !in visited
    ensures (b + 1) * |g.dirs.Keys - visited| == (b + 1) * |g.dirs.Keys - (visited + {d})| + b + 1
  {
    assert g.dirs.Keys - visited == g.dirs.Keys - (visited + {d}) + {d};
  }

  // ---- The walk ----

  /** One worker handles one entry. The frontier it leaves, and what it adds to the shared state. */
  function Handle(g: Graph, f: seq<Item>, i: nat, w: Walked): (seq<Item>, Walked)
    requires i < |f| && f[i].k < |Content(g, f[i].dir)|
  {
    var a := Advance(f, i);
    match EntryAt(g, f[i])
    case File(name) => (a, w.(found := w.found + [f[i].path + [name]]))
    case Sub(_, _) => (a + [Child(g, f[i])], w)
    case Link(name, d) =>
      if d in w.visited then (a, w.(skipped := w.skipped + {f[i].path + [name]}))
      else (a + [Child(g, f[i])], w.(visited := w.visited + {d}))
    case Broken(_) => (a, w.(complete := false))
    case Other(_) => (a, w)
  }

  ghost predicate Sound(g: Graph, root: Dir, f: seq<Item>, w: Walked) {
    && Grounded(g, root, f) && Honest(g, root, f, w)
    && Reported(g, root, w.found, f) && Seen(g, root, f, w)
  }

  lemma AdvanceGrounded(g: Graph, root: Dir, f: seq<Item>, i: nat)
    requires i < |f| && f[i].k < |Content(g, f[i].dir)| && Grounded(g, root, f)
    ensures Grounded(g, root, Advance(f, i))
  {}

  lemma GroundedSnoc(g: Graph, root: Dir, f: seq<Item>, it: Item)
    requires Grounded(g, root, f) && it.dir in g.dirs && it.k == 0 && Resolve(g, root, it.path) == Some(it.dir)
    ensures Grounded(g, root, f + [it])
  {}

  lemma HandleGrounded(g: Graph, root: Dir, f: seq<Item>, i: nat, w: Walked)
    requires WellFormed(g) && i < |f| && f[i].k < |Content(g, f[i].dir)| && Grounded(g, root, f)
    ensures Grounded(g, root, Handle(g, f, i, w).0)
  {
    AdvanceGrounded(g, root, f, i);
    if EntryAt(g, f[i]).Sub? || EntryAt(g, f[i]).Link? {
      ChildGrounded(g, root, f[i]);
      GroundedSnoc(g, root, Advance(f, i), Child(g, f[i]));
    }
  }

  lemma CoversHere(g: Graph, it: Item, q: Path)
    requires WellFormed(g) && it.dir in g.dirs && it.k < |Content(g, it.dir)| && Passed(g, it, q)
    ensures Covers(g, it, q)
  {
    IndexOfName(Content(g, it.dir), it.k);
  }

  predicate Opens(g: Graph, f: seq<Item>, i: nat, w: Walked)
    requires i < |f| && f[i].k < |Content(g, f[i].dir)|
  {
    EntryAt(g, f[i]).Sub? || (EntryAt(g, f[i]).Link? && EntryAt(g, f[i]).dir !in w.visited)
  }

  lemma HandleFrontier(g: Graph, f: seq<Item>, i: nat, w: Walked)
    requires i < |f| && f[i].k < |Content(g, f[i].dir)|
    ensures Handle(g, f, i, w).0 == Advance(f, i) + if Opens(g, f, i, w) then [Child(g, f[i])] else []
  {}

  /** What one step leaves ahead was ahead before; what it takes off it passed. */
  lemma AheadHandle(g: Graph, f: seq<Item>, i: nat, w: Walked, q: Path)
    requires WellFormed(g) && i < |f| && Apart(g, f) && f[i].dir in g.dirs && f[i].k < |Content(g, f[i].dir)|
    ensures var h := Handle(g, f, i, w).0;
            && (Ahead(g, h, q) ==> Ahead(g, f, q))
            && (Ahead(g, f, q) ==> Ahead(g, h, q) || Passed(g, f[i], q))
            && (Passed(g, f[i], q) ==> (Ahead(g, h, q) <==> Opens(g, f, i, w) && Covers(g, Child(g, f[i]), q)))
  {
    HandleFrontier(g, f, i, w);
    AheadAdvance(g, f, i, q);
    if Opens(g, f, i, w) {
      AheadSnoc(g, Advance(f, i), Child(g, f[i]), q);
      ChildPasses(g, f[i], q);
    }
  }

  lemma FrontierKept(g: Graph, f: seq<Item>, i: nat, w: Walked, q: Path)
    requires i < |f| && f[i].k < |Content(g, f[i].dir)| && OnFrontier(f, q)
    ensures OnFrontier(Handle(g, f, i, w).0, q)
  {
    HandleFrontier(g, f, i, w);
    var x :| 0 <= x < |f| && f[x].path == q;
    assert Handle(g, f, i, w).0[x].path == q;
  }

  lemma FoundSnoc(found: seq<Path>, q0: Path)
    requires Distinct(found) && q0 !in found
    ensures Distinct(found + [q0])
    ensures forall q :: q in found + [q0] <==> q in found || q == q0
  {}

  lemma HandleReported(g: Graph, root: Dir, f: seq<Item>, i: nat, w: Walked)
    requires WellFormed(g) && i < |f| && f[i].k < |Content(g, f[i].dir)| && Grounded(g, root, f) && Apart(g, f)
    requires Reported(g, root, w.found, f)
    ensures Reported(g, root, Handle(g, f, i, w).1.found, Handle(g, f, i, w).0)
  {
    var h := Handle(g, f, i, w).0;
    forall q ensures Ahead(g, h, q) ==> Ahead(g, f, q) { AheadHandle(g, f, i, w, q); }
    if EntryAt(g, f[i]).File? {
      FileHandled(g, root, f, i, w);
      FoundSnoc(w.found, Here(g, f[i]));
    }
  }

  lemma FileHandled(g: Graph, root: Dir, f: seq<Item>, i: nat, w: Walked)
    requires WellFormed(g) && i < |f| && f[i].k < |Content(g, f[i].dir)| && Grounded(g, root, f) && Apart(g, f)
    requires EntryAt(g, f[i]).File?
    ensures var q0 := Here(g, f[i]);
            IsFile(g, root, q0) && Ahead(g, f, q0) && !Ahead(g, Handle(g, f, i, w).0, q0)
  {
    var q0 := Here(g, f[i]);
    CoversHere(g, f[i], q0);
    AheadHandle(g, f, i, w, q0);
    HereIs(g, root, f[i]);
    FileIsEntry(g, root, q0);
  }

  /** What happens to an entry that is ahead: it stays ahead, is the one handled, or is below a link not followed. */
  lemma AheadGoes(g: Graph, root: Dir, f: seq<Item>, i: nat, w: Walked, q: Path)
    requires WellFormed(g) && i < |f| && f[i].k < |Content(g, f[i].dir)| && Grounded(g, root, f) && Apart(g, f)
    requires EntryOf(g, root, q).Some? && Ahead(g, f, q)
    ensures var (h, v) := Handle(g, f, i, w);
            || Ahead(g, h, q) || Under(v.skipped, q)
            || (q == Here(g, f[i]) && EntryOf(g, root, q) == Some(EntryAt(g, f[i])))
  {
    AheadHandle(g, f, i, w, q);
    HereIs(g, root, f[i]);
    if Passed(g, f[i], q) && q != Here(g, f[i]) {
      PassedEntry(g, root, f[i], q);
      ChildPasses(g, f[i], q);
      UnderMore(w.skipped, Here(g, f[i]), q);
    }
  }

  lemma UnderMore(skipped: set<Path>, s: Path, q: Path)
    ensures Under(skipped, q) ==> Under(skipped + {s}, q)
    ensures s <= q ==> Under(skipped + {s}, q)
  {
    if s <= q { assert s in skipped + {s}; }
    if x :| x in skipped && x <= q { assert x in skipped + {s}; }
  }

  lemma UnderOnly(skipped: set<Path>, s: Path, q: Path)
    ensures Under(skipped + {s}, q) ==> Under(skipped, q) || s <= q
  {
    if Under(skipped + {s}, q) {
      var x :| x in skipped + {s} && x <= q;
      if x != s { assert x in skipped; }
    }
  }

  lemma UnderKept(g: Graph, f: seq<Item>, i: nat, w: Walked, q: Path)
    requires i < |f| && f[i].k < |Content(g, f[i].dir)| && Under(w.skipped, q)
    ensures Under(Handle(g, f, i, w).1.skipped, q)
  {
    UnderMore(w.skipped, Here(g, f[i]), q);
  }

  /** A directory that is the entry handled is opened, or its link is not followed. */
  lemma OpenedOrSkipped(g: Graph, f: seq<Item>, i: nat, w: Walked)
    requires i < |f| && f[i].k < |Content(g, f[i].dir)| && (EntryAt(g, f[i]).Sub? || EntryAt(g, f[i]).Link?)
    ensures var (h, v) := Handle(g, f, i, w); OnFrontier(h, Here(g, f[i])) || Under(v.skipped, Here(g, f[i]))
  {
    var (h, v) := Handle(g, f, i, w);
    UnderMore(w.skipped, Here(g, f[i]), Here(g, f[i]));
    if |h| > |f| { assert h[|f|].path == Here(g, f[i]); }
  }

  /** A file is reported where it stands; what is broken is noticed. */
  lemma HandledHere(g: Graph, f: seq<Item>, i: nat, w: Walked)
    requires i < |f| && f[i].k < |Content(g, f[i].dir)|
    ensures var v := Handle(g, f, i, w).1;
            && (EntryAt(g, f[i]).File? ==> Here(g, f[i]) in v.found) && (EntryAt(g, f[i]).Broken? ==> !v.complete)
            && (v.complete ==> w.complete) && w.found <= v.found
  {}

  lemma FileSeen(g: Graph, root: Dir, f: seq<Item>, i: nat, w: Walked, q: Path)
    requires WellFormed(g) && i < |f| && f[i].k < |Content(g, f[i].dir)| && Grounded(g, root, f) && Apart(g, f)
    requires IsFile(g, root, q) && (q in w.found || Ahead(g, f, q) || Under(w.skipped, q))
    ensures var (h, v) := Handle(g, f, i, w); q in v.found || Ahead(g, h, q) || Under(v.skipped, q)
  {
    HandledHere(g, f, i, w);
    FileIsEntry(g, root, q);
    if Under(w.skipped, q) { UnderKept(g, f, i, w, q); } else if Ahead(g, f, q) { AheadGoes(g, root, f, i, w, q); }
  }

  lemma BrokenSeen(g: Graph, root: Dir, f: seq<Item>, i: nat, w: Walked, q: Path)
    requires WellFormed(g) && i < |f| && f[i].k < |Content(g, f[i].dir)| && Grounded(g, root, f) && Apart(g, f)
    requires IsBroken(g, root, q) && (!w.complete || Ahead(g, f, q) || Under(w.skipped, q))
    ensures var (h, v) := Handle(g, f, i, w); !v.complete || Ahead(g, h, q) || Under(v.skipped, q)
  {
    HandledHere(g, f, i, w);
    if Under(w.skipped, q) {
      UnderKept(g, f, i, w, q);
    } else if Ahead(g, f, q) {
      var e := EntryOf(g, root, q).value;
      AheadGoes(g, root, f, i, w, q);
      assert e.Broken?;
    }
  }

  lemma UnreadableSeen(g: Graph, root: Dir, f: seq<Item>, i: nat, w: Walked, q: Path)
    requires WellFormed(g) && i < |f| && f[i].k < |Content(g, f[i].dir)| && Grounded(g, root, f) && Apart(g, f)
    requires IsUnreadable(g, root, q)
    requires !w.complete || Ahead(g, f, q) || OnFrontier(f, q) || Under(w.skipped, q)
    ensures var (h, v) := Handle(g, f, i, w);
            !v.complete || Ahead(g, h, q) || OnFrontier(h, q) || Under(v.skipped, q)
  {
    FileIsEntry(g, root, q);
    if Under(w.skipped, q) {
      UnderKept(g, f, i, w, q);
    } else if Ahead(g, f, q) {
      AheadGoes(g, root, f, i, w, q);
      if EntryAt(g, f[i]).Sub? || EntryAt(g, f[i]).Link? { OpenedOrSkipped(g, f, i, w); }
    } else if OnFrontier(f, q) {
      FrontierKept(g, f, i, w, q);
    }
  }

  lemma HandleSeen(g: Graph, root: Dir, f: seq<Item>, i: nat, w: Walked)
    requires WellFormed(g) && i < |f| && f[i].k < |Content(g, f[i].dir)| && Grounded(g, root, f) && Apart(g, f)
    requires Seen(g, root, f, w)
    ensures Seen(g, root, Handle(g, f, i, w).0, Handle(g, f, i, w).1)
  {
    var (h, v) := Handle(g, f, i, w);
    forall q | IsFile(g, root, q) ensures q in v.found || Ahead(g, h, q) || Under(v.skipped, q) {
      FileSeen(g, root, f, i, w, q);
    }
    forall q | IsBroken(g, root, q) ensures !v.complete || Ahead(g, h, q) || Under(v.skipped, q) {
      BrokenSeen(g, root, f, i, w, q);
    }
    forall q | IsUnreadable(g, root, q)
      ensures !v.complete || Ahead(g, h, q) || OnFrontier(h, q) || Under(v.skipped, q)
    {
      UnreadableSeen(g, root, f, i, w, q);
    }
  }

  lemma HandleSound(g: Graph, root: Dir, f: seq<Item>, i: nat, w: Walked)
    requires WellFormed(g) && i < |f| && f[i].k < |Content(g, f[i].dir)| && Sound(g, root, f, w)
    ensures Sound(g, root, Handle(g, f, i, w).0, Handle(g, f, i, w).1)
  {
    HandleGrounded(g, root, f, i, w);
    HandleHonest(g, root, f, i, w);
    HandleReported(g, root, f, i, w);
    HandleSeen(g, root, f, i, w);
  }

  lemma AdvanceDescends(g: Graph, f: seq<Item>, i: nat)
    requires WellFormed(g) && i < |f| && f[i].k < |Content(g, f[i].dir)|
    ensures Load(g, Advance(f, i)) + 1 <= Load(g, f)
    ensures EntryAt(g, f[i]).Sub? ==> Load(g, Advance(f, i)) + 1 + Weight(g, EntryAt(g, f[i]).dir, 0) == Load(g, f)
  {
    LoadUpdate(g, f, i, f[i].(k := f[i].k + 1));
  }

  lemma OpenDescends(g: Graph, f: seq<Item>, i: nat, b: nat)
    requires WellFormed(g) && i < |f| && f[i].k < |Content(g, f[i].dir)|
    requires EntryAt(g, f[i]).Sub? || EntryAt(g, f[i]).Link?
    requires Weight(g, EntryAt(g, f[i]).dir, 0) <= b
    ensures Load(g, Advance(f, i) + [Child(g, f[i])]) < Load(g, f) + (if EntryAt(g, f[i]).Sub? then 0 else b + 1)
  {
    AdvanceDescends(g, f, i);
    LoadSnoc(g, Advance(f, i), Child(g, f[i]));
  }

  lemma HandleDescends(g: Graph, root: Dir, f: seq<Item>, i: nat, w: Walked, b: nat)
    requires WellFormed(g) && i < |f| && f[i].k < |Content(g, f[i].dir)|
    requires Outweighs(g, b)
    ensures Measure(g, b, Handle(g, f, i, w).0, Handle(g, f, i, w).1.visited) < Measure(g, b, f, w.visited)
  {
    AdvanceDescends(g, f, i);
    match EntryAt(g, f[i])
    case Sub(_, d) => OpenDescends(g, f, i, b);
    case Link(_, d) =>
      if d !in w.visited {
        OpenDescends(g, f, i, b);
        FewerUnvisited(g, b, w.visited, d);
      }
    case _ =>
  }

  /** Some directory under the root can be reached by two paths. */
  ghost predicate TwoNames(g: Graph, root: Dir) {
    exists p, q :: p != q && Resolve(g, root, p).Some? && Resolve(g, root, p) == Resolve(g, root, q)
  }

  /** Some directory a path reaches, or something in one, cannot be read. */
  ghost predicate Unread(g: Graph, root: Dir) {
    exists p :: IsUnreadable(g, root, p) || IsBroken(g, root, p)
  }

  /** A path of `d` the walk went: it is neither still to come nor below a link not followed. */
  ghost predicate NameOf(g: Graph, root: Dir, f: seq<Item>, skipped: set<Path>, p: Path, d: Dir) {
    Resolve(g, root, p) == Some(d) && !Ahead(g, f, p) && !Under(skipped, p)
  }

  ghost predicate Named(g: Graph, root: Dir, f: seq<Item>, skipped: set<Path>, d: Dir) {
    exists p :: NameOf(g, root, f, skipped, p, d)
  }

  /** Each link not followed leads to a visited target; nothing below it is still to come. */
  ghost predicate Skips(g: Graph, root: Dir, f: seq<Item>, w: Walked) {
    && (forall s | s in w.skipped :: s != [] && Resolve(g, root, s).Some? && Resolve(g, root, s).value in w.visited)
    && (forall q | Under(w.skipped, q) :: !Ahead(g, f, q))
  }

  /** Each visited target has a path the walk went; a flag is raised only for a reason. */
  ghost predicate Honest(g: Graph, root: Dir, f: seq<Item>, w: Walked) {
    && Apart(g, f) && Skips(g, root, f, w)
    && (forall d | d in w.visited :: Named(g, root, f, w.skipped, d))
    && (w.skipped != {} ==> TwoNames(g, root))
    && (!w.complete ==> Unread(g, root))
  }

  lemma HandleApart(g: Graph, f: seq<Item>, i: nat, w: Walked)
    requires WellFormed(g) && i < |f| && Apart(g, f) && f[i].dir in g.dirs && f[i].k < |Content(g, f[i].dir)|
    ensures Apart(g, Handle(g, f, i, w).0)
  {
    ApartAdvance(g, f, i);
    if EntryAt(g, f[i]).Sub? || EntryAt(g, f[i]).Link? { ApartChild(g, f, i); }
  }

  /** A step makes nothing a path below a link not followed that was not ahead. */
  lemma UnderHandle(g: Graph, f: seq<Item>, i: nat, w: Walked, q: Path)
    requires WellFormed(g) && i < |f| && f[i].k < |Content(g, f[i].dir)| && f[i].dir in g.dirs && Apart(g, f)
    requires Under(Handle(g, f, i, w).1.skipped, q)
    ensures Under(w.skipped, q) || (EntryAt(g, f[i]).Link? && !Opens(g, f, i, w) && Passed(g, f[i], q))
  {
    UnderOnly(w.skipped, Here(g, f[i]), q);
    if !Under(w.skipped, q) { ChildPasses(g, f[i], q); }
  }

  /** A path the walk went stays one. */
  lemma NameKept(g: Graph, root: Dir, f: seq<Item>, i: nat, w: Walked, d: Dir)
    requires WellFormed(g) && i < |f| && f[i].k < |Content(g, f[i].dir)| && f[i].dir in g.dirs && Apart(g, f)
    requires Named(g, root, f, w.skipped, d)
    ensures Named(g, root, Handle(g, f, i, w).0, Handle(g, f, i, w).1.skipped, d)
  {
    var p :| NameOf(g, root, f, w.skipped, p, d);
    AheadHandle(g, f, i, w, p);
    AheadAdvance(g, f, i, p);
    if Under(Handle(g, f, i, w).1.skipped, p) { UnderHandle(g, f, i, w, p); }
    assert NameOf(g, root, Handle(g, f, i, w).0, Handle(g, f, i, w).1.skipped, p, d);
  }

  /** A link that is followed names its target by the path of the child it opens. */
  lemma NameOpened(g: Graph, root: Dir, f: seq<Item>, i: nat, w: Walked)
    requires WellFormed(g) && i < |f| && f[i].k < |Content(g, f[i].dir)| && Grounded(g, root, f) && Apart(g, f)
    requires EntryAt(g, f[i]).Link? && EntryAt(g, f[i]).dir !in w.visited && Skips(g, root, f, w)
    ensures Named(g, root, Handle(g, f, i, w).0, w.skipped, EntryAt(g, f[i]).dir)
  {
    var c := Child(g, f[i]);
    ChildGrounded(g, root, f[i]);
    ChildPasses(g, f[i], c.path);
    AheadHandle(g, f, i, w, c.path);
    AdvanceCovers(g, f[i], c.path);
    assert Covers(g, f[i], c.path);
    assert NameOf(g, root, Handle(g, f, i, w).0, w.skipped, c.path, c.dir);
  }

  /** A link to a visited target is a second name of that directory. */
  lemma SecondName(g: Graph, root: Dir, f: seq<Item>, i: nat, w: Walked)
    requires WellFormed(g) && i < |f| && f[i].k < |Content(g, f[i].dir)| && Grounded(g, root, f) && Apart(g, f)
    requires EntryAt(g, f[i]).Link? && Named(g, root, f, w.skipped, EntryAt(g, f[i]).dir)
    ensures TwoNames(g, root)
  {
    var p :| NameOf(g, root, f, w.skipped, p, EntryAt(g, f[i]).dir);
    ChildGrounded(g, root, f[i]);
    ChildPasses(g, f[i], Child(g, f[i]).path);
    AdvanceCovers(g, f[i], Child(g, f[i]).path);
    assert Covers(g, f[i], Child(g, f[i]).path);
    assert p != Child(g, f[i]).path;
  }

  /** What one step leaves below a link not followed is not ahead. */
  lemma SkippedStays(g: Graph, root: Dir, f: seq<Item>, i: nat, w: Walked, q: Path)
    requires WellFormed(g) && i < |f| && f[i].k < |Content(g, f[i].dir)| && f[i].dir in g.dirs && Apart(g, f)
    requires Under(w.skipped, q) ==> !Ahead(g, f, q)
    requires Under(Handle(g, f, i, w).1.skipped, q)
    ensures !Ahead(g, Handle(g, f, i, w).0, q)
  {
    AheadHandle(g, f, i, w, q);
    UnderHandle(g, f, i, w, q);
  }

  lemma SkippedLeads(g: Graph, root: Dir, f: seq<Item>, i: nat, w: Walked, s: Path)
    requires WellFormed(g) && i < |f| && f[i].k < |Content(g, f[i].dir)| && Grounded(g, root, f)
    requires s in w.skipped ==> s != [] && Resolve(g, root, s).Some? && Resolve(g, root, s).value in w.visited
    requires s in Handle(g, f, i, w).1.skipped
    ensures s != [] && Resolve(g, root, s).Some? && Resolve(g, root, s).value in Handle(g, f, i, w).1.visited
  {
    if s !in w.skipped { ChildGrounded(g, root, f[i]); }
  }

  lemma HandleSkips(g: Graph, root: Dir, f: seq<Item>, i: nat, w: Walked)
    requires WellFormed(g) && i < |f| && f[i].k < |Content(g, f[i].dir)| && Grounded(g, root, f) && Apart(g, f)
    requires Skips(g, root, f, w)
    ensures Skips(g, root, Handle(g, f, i, w).0, Handle(g, f, i, w).1)
  {
    var (h, v) := Handle(g, f, i, w);
    forall q | Under(v.skipped, q) ensures !Ahead(g, h, q) { SkippedStays(g, root, f, i, w, q); }
    forall s | s in v.skipped
      ensures s != [] && Resolve(g, root, s).Some? && Resolve(g, root, s).value in v.visited
    {
      SkippedLeads(g, root, f, i, w, s);
    }
  }

  lemma HandleHonest(g: Graph, root: Dir, f: seq<Item>, i: nat, w: Walked)
    requires WellFormed(g) && i < |f| && f[i].k < |Content(g, f[i].dir)| && Grounded(g, root, f)
    requires Honest(g, root, f, w)
    ensures Honest(g, root, Handle(g, f, i, w).0, Handle(g, f, i, w).1)
  {
    HandleApart(g, f, i, w);
    HandleSkips(g, root, f, i, w);
    var (h, v) := Handle(g, f, i, w);
    forall d | d in v.visited ensures Named(g, root, h, v.skipped, d) {
      if d in w.visited { NameKept(g, root, f, i, w, d); } else { NameOpened(g, root, f, i, w); }
    }
    if v.skipped != w.skipped { SecondName(g, root, f, i, w); }
    if EntryAt(g, f[i]).Broken? {
      HereIs(g, root, f[i]);
      assert IsBroken(g, root, Here(g, f[i]));
    }
  }

  /** The start: nothing found, everything below the root ahead. */
  lemma Start(g: Graph, root: Dir, visited: set<Dir>)
    requires WellFormed(g) && root in g.dirs && visited <= {root}
    ensures Sound(g, root, [Item([], root, 0)], Walked([], visited, true, {}))
  {
    var f := [Item([], root, 0)];
    forall q
      ensures IsFile(g, root, q) || IsBroken(g, root, q) ==> Ahead(g, f, q)
      ensures IsUnreadable(g, root, q) ==> Ahead(g, f, q) || OnFrontier(f, q)
    {
      FileIsEntry(g, root, q);
      if q == [] {
        assert f[0].path == q;
      } else if EntryOf(g, root, q).Some? {
        EntryThrough(g, root, f[0], q);
        assert Covers(g, f[0], q);
      }
    }
    assert NameOf(g, root, f, {}, [], root);
  }

  lemma WithoutCovers(g: Graph, f: seq<Item>, i: nat, q: Path)
    requires i < |f| && f[i].k >= |Content(g, f[i].dir)|
    ensures Ahead(g, Without(f, i), q) <==> Ahead(g, f, q)
  {
    var h := Without(f, i);
    if x :| 0 <= x < |h| && Covers(g, h[x], q) {
      assert Covers(g, f[if x < i then x else x + 1], q);
    }
    if x :| 0 <= x < |f| && Covers(g, f[x], q) {
      assert Covers(g, h[if x < i then x else x - 1], q);
    }
  }

  lemma WithoutAhead(g: Graph, f: seq<Item>, i: nat)
    requires i < |f| && f[i].k >= |Content(g, f[i].dir)|
    ensures forall q :: Ahead(g, Without(f, i), q) <==> Ahead(g, f, q)
    ensures Apart(g, f) ==> Apart(g, Without(f, i))
  {
    forall q ensures Ahead(g, Without(f, i), q) <==> Ahead(g, f, q) { WithoutCovers(g, f, i, q); }
    var h := Without(f, i);
    assert forall x | 0 <= x < |h| :: h[x] == f[if x < i then x else x + 1];
  }

  lemma HonestWithout(g: Graph, root: Dir, f: seq<Item>, i: nat, w: Walked)
    requires i < |f| && f[i].k >= |Content(g, f[i].dir)| && Honest(g, root, f, w)
    ensures Honest(g, root, Without(f, i), w)
  {
    WithoutAhead(g, f, i);
    forall d | d in w.visited ensures Named(g, root, Without(f, i), w.skipped, d) {
      var p :| NameOf(g, root, f, w.skipped, p, d);
      assert NameOf(g, root, Without(f, i), w.skipped, p, d);
    }
  }

  predicate CannotRead(g: Graph, d: Dir) {
    d in g.dirs && g.dirs[d].Unreadable?
  }

  /** The state after an item left the frontier. */
  function Finished(g: Graph, it: Item, w: Walked): Walked {
    if CannotRead(g, it.dir) then w.(complete := false) else w
  }

  lemma FrontierWithout(f: seq<Item>, i: nat, p: Path)
    requires i < |f| && OnFrontier(f, p) && f[i].path != p
    ensures OnFrontier(Without(f, i), p)
  {
    var x :| 0 <= x < |f| && f[x].path == p;
    assert Without(f, i)[if x < i then x else x - 1] == f[x];
  }

  lemma UnreadableFinished(g: Graph, root: Dir, f: seq<Item>, i: nat, w: Walked, p: Path)
    requires i < |f| && Grounded(g, root, f) && IsUnreadable(g, root, p) && OnFrontier(f, p)
    ensures !Finished(g, f[i], w).complete || OnFrontier(Without(f, i), p)
  {
    if f[i].path != p { FrontierWithout(f, i, p); }
  }

  lemma SeenWithout(g: Graph, root: Dir, f: seq<Item>, i: nat, w: Walked)
    requires i < |f| && f[i].k >= |Content(g, f[i].dir)| && Grounded(g, root, f) && Seen(g, root, f, w)
    ensures Seen(g, root, Without(f, i), Finished(g, f[i], w))
  {
    var h, v := Without(f, i), Finished(g, f[i], w);
    forall q
      ensures IsFile(g, root, q) ==> q in v.found || Ahead(g, h, q) || Under(v.skipped, q)
      ensures IsBroken(g, root, q) ==> !v.complete || Ahead(g, h, q) || Under(v.skipped, q)
      ensures IsUnreadable(g, root, q) ==> !v.complete || Ahead(g, h, q) || OnFrontier(h, q) || Under(v.skipped, q)
    {
      WithoutCovers(g, f, i, q);
      if IsUnreadable(g, root, q) && OnFrontier(f, q) { UnreadableFinished(g, root, f, i, w, q); }
    }
  }

  lemma FinishedHonest(g: Graph, root: Dir, f: seq<Item>, h: seq<Item>, i: nat, w: Walked)
    requires i < |f| && Grounded(g, root, f) && Honest(g, root, h, w)
    ensures Honest(g, root, h, Finished(g, f[i], w))
  {
    if CannotRead(g, f[i].dir) { assert IsUnreadable(g, root, f[i].path); }
  }

  /** An item whose entries are all handled, or whose directory cannot be read, leaves the frontier. */
  lemma Finish(g: Graph, root: Dir, f: seq<Item>, i: nat, w: Walked, b: nat)
    requires WellFormed(g) && i < |f| && f[i].k >= |Content(g, f[i].dir)| && Sound(g, root, f, w)
    ensures Sound(g, root, Without(f, i), Finished(g, f[i], w))
    ensures Measure(g, b, Without(f, i), w.visited) < Measure(g, b, f, w.visited)
  {
    GroundedWithout(g, root, f, i);
    LoadWithout(g, f, i);
    HonestWithout(g, root, f, i, w);
    FinishedHonest(g, root, f, Without(f, i), i, w);
    WithoutAhead(g, f, i);
    SeenWithout(g, root, f, i, w);
  }

  /** Handling an entry of the level grows only the next one. */
  lemma HandleLevel(g: Graph, level: seq<Item>, next: seq<Item>, i: nat, w: Walked)
    requires i < |level| && level[i].k < |Content(g, level[i].dir)|
    ensures var (a, v) := Handle(g, level, i, w);
            |a| >= |level| && Handle(g, level + next, i, w).1 == v
            && Handle(g, level + next, i, w).0 == a[..|level|] + (next + a[|level|..])
  {
    assert Advance(level + next, i) == Advance(level, i) + next;
  }

  lemma GroundedWithout(g: Graph, root: Dir, f: seq<Item>, i: nat)
    requires i < |f| && Grounded(g, root, f)
    ensures Grounded(g, root, Without(f, i))
  {
    var h := Without(f, i);
    assert forall x | 0 <= x < |h| :: h[x] == f[if x < i then x else x + 1];
  }

  lemma Worked(g: Graph, root: Dir, level: seq<Item>, next: seq<Item>, i: nat, w: Walked, b: nat)
    requires WellFormed(g) && i < |level| && level[i].k < |Content(g, level[i].dir)|
    requires Sound(g, root, level + next, w) && Outweighs(g, b)
    ensures var (a, v) := Handle(g, level, i, w);
            && |a| >= |level|
            && Sound(g, root, a[..|level|] + (next + a[|level|..]), v)
            && Measure(g, b, a[..|level|] + (next + a[|level|..]), v.visited) < Measure(g, b, level + next, w.visited)
  {
    assert (level + next)[i] == level[i];
    HandleSound(g, root, level + next, i, w);
    HandleDescends(g, root, level + next, i, w, b);
    HandleLevel(g, level, next, i, w);
  }

  lemma WithoutLevel(level: seq<Item>, next: seq<Item>, i: nat)
    requires i < |level|
    ensures Without(level + next, i) == Without(level, i) + next
  {}

  /** One step of any worker of the level: it finds its directory unreadable, finishes, or handles
      its next entry. What it opens goes to the next level. */
  method Step(g: Graph, root: Dir, level: seq<Item>, next: seq<Item>, w: Walked, ghost b: nat)
    returns (level': seq<Item>, next': seq<Item>, w': Walked)
    requires WellFormed(g) && level != [] && Sound(g, root, level + next, w) && Outweighs(g, b)
    ensures Sound(g, root, level' + next', w')
    ensures Measure(g, b, level' + next', w'.visited) < Measure(g, b, level + next, w.visited)
  {
    var i :| 0 <= i < |level|;
    next', w' := next, w;
    if level[i].k >= |Content(g, level[i].dir)| {
      Finish(g, root, level + next, i, w, b);
      WithoutLevel(level, next, i);
      level' := Without(level, i);
      if CannotRead(g, level[i].dir) {
        w' := w.(complete := false);
      }
    } else {
      Worked(g, root, level, next, i, w, b);
      var (a, v) := Handle(g, level, i, w);
      level', next', w' := a[..|level|], next + a[|level|..], v;
    }
  }

  /** One level: its workers take steps in any order until all have finished or the user cancels. */
  method WalkLevel(g: Graph, root: Dir, level0: seq<Item>, w0: Walked, calm: bool, ghost b: nat)
    returns (next: seq<Item>, w: Walked, cancelled: bool)
    requires WellFormed(g) && level0 != [] && Sound(g, root, level0, w0) && Outweighs(g, b)
    ensures Sound(g, root, next, w)
    ensures cancelled || Measure(g, b, next, w.visited) < Measure(g, b, level0, w0.visited)
    ensures (calm ==> !cancelled)
  {
    var level := level0;
    next, w, cancelled := [], w0, false;
    assert level + next == level0;
    ghost var m := Measure(g, b, level0, w0.visited);
    while level != [] && !cancelled
      invariant Sound(g, root, level + next, w) && (calm ==> !cancelled)
      invariant cancelled || Measure(g, b, level + next, w.visited) < m
          || (level != [] && Measure(g, b, level + next, w.visited) == m)
      decreases Measure(g, b, level + next, w.visited), !cancelled
    {
      cancelled := *;
      cancelled := cancelled && !calm;
      if !cancelled {
        level, next, w := Step(g, root, level, next, w, b);
      }
    }
    next := level + next;
  }

  // ---- What a finished walk says ----

  lemma ResolveStep(g: Graph, root: Dir, p: Path, p': Path, name: string)
    requires Resolve(g, root, p) == Resolve(g, root, p')
    ensures Resolve(g, root, p + [name]) == Resolve(g, root, p' + [name])
  {
    ResolveSnoc(g, root, p, name);
    ResolveSnoc(g, root, p', name);
  }

  lemma AppendInSteps(p: Path, r: Path)
    requires r != []
    ensures p + r == p + r[..|r| - 1] + [r[|r| - 1]]
  {}

  lemma {:induction false} ResolveThrough(g: Graph, root: Dir, p: Path, p': Path, r: Path)
    requires Resolve(g, root, p) == Resolve(g, root, p')
    ensures Resolve(g, root, p + r) == Resolve(g, root, p' + r)
  {
    if r == [] {
      assert p + r == p && p' + r == p';
    } else {
      var n := |r| - 1;
      ResolveThrough(g, root, p, p', r[..n]);
      AppendInSteps(p, r);
      AppendInSteps(p', r);
      ResolveStep(g, root, p + r[..n], p' + r[..n], r[n]);
    }
  }

  /** A prefix of a concatenation that is no prefix of the first part reaches into the second. */
  lemma ReachesInto(s: Path, p: Path, r: Path)
    requires s <= p + r && !(s <= p)
    ensures |s| > |p| && p + r == s + r[|s| - |p|..]
  {}

  /** A path that goes below a link not followed: the rest of it, from the path the walk went to the target. */
  lemma Detour(g: Graph, root: Dir, w: Walked, p: Path, r: Path) returns (p': Path, r': Path)
    requires Honest(g, root, [], w) && !Under(w.skipped, p) && Resolve(g, root, p + r).Some? && Under(w.skipped, p + r)
    ensures !Under(w.skipped, p') && Resolve(g, root, p' + r') == Resolve(g, root, p + r) && |r'| < |r|
  {
    var s :| s in w.skipped && s <= p + r;
    ReachesInto(s, p, r);
    var d := Resolve(g, root, s).value;
    assert Named(g, root, [], w.skipped, d);
    p' :| NameOf(g, root, [], w.skipped, p', d);
    r' := r[|s| - |p|..];
    ResolveThrough(g, root, s, p', r');
  }

  /** Where a path goes below a link that was not followed, the path the walk went to the link's target goes too.
      The part still in doubt gets shorter each time. */
  lemma {:induction false} WentThere(g: Graph, root: Dir, w: Walked, p: Path, r: Path) returns (q: Path)
    requires Honest(g, root, [], w) && !Under(w.skipped, p) && Resolve(g, root, p + r).Some?
    ensures Resolve(g, root, q) == Resolve(g, root, p + r) && !Under(w.skipped, q)
    decreases |r|
  {
    q := p + r;
    if Under(w.skipped, p + r) {
      var p', r' := Detour(g, root, w, p, r);
      q := WentThere(g, root, w, p', r');
    }
  }

  /** Every directory some path reaches was gone to by some path. */
  lemma Went(g: Graph, root: Dir, w: Walked, p: Path) returns (q: Path)
    requires Honest(g, root, [], w) && Resolve(g, root, p).Some?
    ensures Resolve(g, root, q) == Resolve(g, root, p) && !Under(w.skipped, q)
  {
    assert [] + p == p;
    q := WentThere(g, root, w, [], p);
  }

  lemma UnderParent(skipped: set<Path>, d: Path, name: string)
    requires Under(skipped, d + [name]) && !Under(skipped, d)
    ensures d + [name] in skipped
  {
    var s :| s in skipped && s <= d + [name];
    ReachesInto(s, d, [name]);
    assert s == d + [name];
  }

  /** So every entry of every directory some path reaches was handled by some path. */
  lemma WentTo(g: Graph, root: Dir, w: Walked, p: Path) returns (q: Path)
    requires Honest(g, root, [], w) && EntryOf(g, root, p).Some?
    requires !EntryOf(g, root, p).value.Sub? && !EntryOf(g, root, p).value.Link?
    ensures q != [] && !Under(w.skipped, q) && SameFile(g, root, q, p) && EntryOf(g, root, q) == EntryOf(g, root, p)
  {
    var d := Went(g, root, w, p[..|p| - 1]);
    q := d + [p[|p| - 1]];
    assert q[..|q| - 1] == d;
    FileIsEntry(g, root, q);
    if Under(w.skipped, q) { UnderParent(w.skipped, d, p[|p| - 1]); }
  }

  ghost predicate FoundAs(g: Graph, root: Dir, found: seq<Path>, q: Path) {
    exists p :: p in found && SameFile(g, root, p, q)
  }

  /** No file is lost to aliases: each is found under one of its paths. */
  ghost predicate FoundBySomePath(g: Graph, root: Dir, found: seq<Path>) {
    forall q | IsFile(g, root, q) :: FoundAs(g, root, found, q)
  }

  lemma EndFound(g: Graph, root: Dir, w: Walked, q: Path)
    requires Sound(g, root, [], w) && IsFile(g, root, q)
    ensures FoundAs(g, root, w.found, q)
  {
    FileIsEntry(g, root, q);
    var p := WentTo(g, root, w, q);
    FileIsEntry(g, root, p);
    assert p in w.found;
  }

  lemma EndUnread(g: Graph, root: Dir, w: Walked, p: Path)
    requires Sound(g, root, [], w) && (IsUnreadable(g, root, p) || IsBroken(g, root, p))
    ensures !w.complete
  {
    if IsUnreadable(g, root, p) {
      var q := Went(g, root, w, p);
      assert IsUnreadable(g, root, q);
    } else {
      var q := WentTo(g, root, w, p);
      assert IsBroken(g, root, q);
    }
  }

  lemma EndExact(g: Graph, root: Dir, w: Walked)
    requires Reported(g, root, w.found, []) && Seen(g, root, [], w) && w.skipped == {}
    ensures Exact(g, root, w.found)
  {
    forall q | IsFile(g, root, q) ensures q in w.found {}
  }

  /** Nothing left ahead. */
  lemma End(g: Graph, root: Dir, w: Walked)
    requires Sound(g, root, [], w)
    ensures w.skipped == {} ==> Exact(g, root, w.found)
    ensures FoundBySomePath(g, root, w.found)
    ensures w.complete <==> !Unread(g, root)
  {
    if w.skipped == {} { EndExact(g, root, w); }
    forall q | IsFile(g, root, q) ensures FoundAs(g, root, w.found, q) { EndFound(g, root, w, q); }
    if p :| IsUnreadable(g, root, p) || IsBroken(g, root, p) { EndUnread(g, root, w, p); }
  }

  /** The level-by-level walk. It ends on every graph, and whatever it reports are files, each path once. Unless
      cancelled it finds every file by some path; it finds every path of every file unless it says that it left
      out an alias, which some directory of two names explains; and it says that it is complete exactly when
      everything it can reach can be read. In a `calm` run nobody cancels. */
  method Walk(g: Graph, root: Dir, rootResolves: bool, calm: bool)
      returns (found: seq<Path>, complete: bool, omitted: bool, cancelled: bool)
    requires WellFormed(g) && root in g.dirs
    ensures Distinct(found) && forall q | q in found :: IsFile(g, root, q)
    ensures !cancelled ==> FoundBySomePath(g, root, found)
    ensures !omitted && !cancelled ==> Exact(g, root, found)
    ensures !cancelled ==> (complete <==> !Unread(g, root))
    ensures !complete ==> Unread(g, root)
    ensures omitted ==> TwoNames(g, root)
    ensures calm ==> !cancelled
  {
    var w := Walked([], if rootResolves then {root} else {}, true, {});
    var level := [Item([], root, 0)];
    ghost var b := Heaviest(g, g.dirs.Keys);
    Start(g, root, w.visited);
    cancelled := false;
    while level != [] && !cancelled
      invariant Sound(g, root, level, w) && (calm ==> !cancelled)
      decreases !cancelled, Measure(g, b, level, w.visited)
    {
      level, w, cancelled := WalkLevel(g, root, level, w, calm, b);
    }
    if level == [] { End(g, root, w); }
    found, complete, omitted := w.found, w.complete, w.skipped != {};
  }
}

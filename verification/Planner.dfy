/** Planning a synchronisation: the four classifiers, one plan behind them, and what executing it
    leads to. */
module Planner {
  import opened Chunks
  import opened Listings

  datatype Direction = Up | Down | BetweenBuckets | BetweenDirectories

  datatype Action = Upload | UploadDiff | Download | DownloadDiff | Copy | Delete | Skip

  /** A planned entry; a size of -1 means the side has no such file. */
  datatype Entry = Entry(path: Path, sourceSize: int, destSize: int, action: Action)

  const DiffThreshold: int := 8 * 1024 * 1024

  /** The destination is provably newer than the source. */
  predicate DestinationIsCurrent(sourceMtime: int, destMtime: int) {
    if sourceMtime <= 0 || destMtime <= 0 then false else destMtime > sourceMtime
  }

  // ---- The plan all four classifiers compute ----

  function Transfer(dir: Direction, size: int): Action {
    match dir
    case Up => if size >= DiffThreshold then UploadDiff else Upload
    case Down => if size >= DiffThreshold then DownloadDiff else Download
    case BetweenBuckets => Copy
    case BetweenDirectories => Upload
  }

  function Decide(dir: Direction, size: int, mtime: int, dest: Stat): Action {
    match dest
    case Absent => if dir == Down then Download else Transfer(dir, size)
    case Stat(destSize, destMtime) =>
      if size == destSize && DestinationIsCurrent(mtime, destMtime) then Skip else Transfer(dir, size)
  }

  function EntryFor(dir: Direction, e: Listed, dest: Stat): Entry {
    Entry(e.path, e.size, if dest.Stat? then dest.size else -1, Decide(dir, e.size, e.mtime, dest))
  }

  function Transfers(dir: Direction, source: seq<Listed>, dest: seq<Listed>): seq<Entry> {
    seq(|source|, i requires 0 <= i < |source| => EntryFor(dir, source[i], Find(dest, source[i].path)))
  }

  function Deletes(source: seq<Listed>, dest: seq<Listed>): seq<Entry> {
    if dest == [] then []
    else
      var e := dest[|dest| - 1];
      Deletes(source, dest[..|dest| - 1])
          + if Find(source, e.path) == Absent then [Entry(e.path, -1, e.size, Delete)] else []
  }

  function Plan(dir: Direction, source: seq<Listed>, dest: seq<Listed>, deleteOrphans: bool): seq<Entry> {
    Transfers(dir, source, dest) + if deleteOrphans then Deletes(source, dest) else []
  }

  // ---- The loops ----

  /** The orphan loop, which the four classifiers share. */
  method AppendDeletes(plan: seq<Entry>, source: seq<Listed>, dest: seq<Listed>) returns (r: seq<Entry>)
    ensures r == plan + Deletes(source, dest)
  {
    var sourceMap := BuildMap(source);
    r := plan;
    for i := 0 to |dest|
      invariant r == plan + Deletes(source, dest[..i])
    {
      assert dest[..i + 1][..i] == dest[..i];
      if dest[i].path !in sourceMap {
        r := r + [Entry(dest[i].path, -1, dest[i].size, Delete)];
      }
    }
    assert dest[..|dest|] == dest;
  }

  method ClassifyUpload(local: seq<Listed>, s3: seq<Listed>, deleteOrphans: bool) returns (plan: seq<Entry>)
    ensures plan == Plan(Up, local, s3, deleteOrphans)
  {
    var s3Map := BuildMap(s3);
    plan := [];
    for i := 0 to |local|
      invariant plan == Transfers(Up, local, s3)[..i]
    {
      var e := local[i];
      var s3Size, action := -1, Upload;
      if e.path !in s3Map {
        action := if e.size >= DiffThreshold then UploadDiff else Upload;
      } else {
        s3Size := s3Map[e.path].0;
        if e.size != s3Size {
          action := if e.size >= DiffThreshold then UploadDiff else Upload;
        } else if DestinationIsCurrent(e.mtime, s3Map[e.path].1) {
          action := Skip;
        } else {
          action := if e.size >= DiffThreshold then UploadDiff else Upload;
        }
      }
      plan := plan + [Entry(e.path, e.size, s3Size, action)];
    }
    if deleteOrphans { plan := AppendDeletes(plan, local, s3); }
  }

  method ClassifyDownload(s3: seq<Listed>, local: seq<Listed>, deleteOrphans: bool) returns (plan: seq<Entry>)
    ensures plan == Plan(Down, s3, local, deleteOrphans)
  {
    var localMap := BuildMap(local);
    plan := [];
    for i := 0 to |s3|
      invariant plan == Transfers(Down, s3, local)[..i]
    {
      var e := s3[i];
      var localSize, action := -1, Download;
      if e.path in localMap {
        localSize := localMap[e.path].0;
        if localSize != e.size {
          action := if e.size >= DiffThreshold then DownloadDiff else Download;
        } else if DestinationIsCurrent(e.mtime, localMap[e.path].1) {
          action := Skip;
        } else {
          action := if e.size >= DiffThreshold then DownloadDiff else Download;
        }
      }
      plan := plan + [Entry(e.path, e.size, localSize, action)];
    }
    if deleteOrphans { plan := AppendDeletes(plan, s3, local); }
  }

  method ClassifyBetweenBuckets(source: seq<Listed>, dest: seq<Listed>, deleteOrphans: bool) returns (plan: seq<Entry>)
    ensures plan == Plan(BetweenBuckets, source, dest, deleteOrphans)
  {
    var destMap := BuildMap(dest);
    plan := [];
    for i := 0 to |source|
      invariant plan == Transfers(BetweenBuckets, source, dest)[..i]
    {
      var e := source[i];
      var destSize, action := -1, Copy;
      if e.path in destMap {
        destSize := destMap[e.path].0;
        if destSize != e.size {
          action := Copy;
        } else if DestinationIsCurrent(e.mtime, destMap[e.path].1) {
          action := Skip;
        }
      }
      plan := plan + [Entry(e.path, e.size, destSize, action)];
    }
    if deleteOrphans { plan := AppendDeletes(plan, source, dest); }
  }

  method ClassifyBetweenDirectories(source: seq<Listed>, dest: seq<Listed>, deleteOrphans: bool)
      returns (plan: seq<Entry>)
    ensures plan == Plan(BetweenDirectories, source, dest, deleteOrphans)
  {
    var destMap := BuildMap(dest);
    plan := [];
    for i := 0 to |source|
      invariant plan == Transfers(BetweenDirectories, source, dest)[..i]
    {
      var e := source[i];
      var destSize, action := -1, Upload;
      if e.path in destMap {
        destSize := destMap[e.path].0;
        if destSize == e.size && DestinationIsCurrent(e.mtime, destMap[e.path].1) {
          action := Skip;
        }
      }
      plan := plan + [Entry(e.path, e.size, destSize, action)];
    }
    if deleteOrphans { plan := AppendDeletes(plan, source, dest); }
  }

  datatype Outcome = Cancelled | Refused | Planned(plan: seq<Entry>)

  /** The front of a run. A source that could not be listed whole, or one with an omitted symlink
      alias, refuses the run; an incomplete destination does not. */
  method PlanRun(dir: Direction, source: seq<Listed>, dest: seq<Listed>, deleteOrphans: bool,
                 sourceComplete: bool, aliasOmitted: bool, cancelled: bool) returns (o: Outcome)
    ensures o.Planned? <==> !cancelled && sourceComplete && !((dir == Up || dir == BetweenDirectories) && aliasOmitted)
    ensures o.Planned? ==> o.plan == Plan(dir, source, dest, deleteOrphans)
    ensures cancelled <==> o == Cancelled
  {
    var ok := sourceComplete;
    if (dir == Up || dir == BetweenDirectories) && aliasOmitted { ok := false; }
    if cancelled { return Cancelled; }
    var plan;
    match dir {
      case Up => plan := ClassifyUpload(source, dest, deleteOrphans);
      case Down => plan := ClassifyDownload(source, dest, deleteOrphans);
      case BetweenBuckets => plan := ClassifyBetweenBuckets(source, dest, deleteOrphans);
      case BetweenDirectories => plan := ClassifyBetweenDirectories(source, dest, deleteOrphans);
    }
    if !ok { return Refused; }
    o := Planned(plan);
  }

  // ---- What a plan is ----

  predicate Planning(plan: seq<Entry>, p: Path) {
    exists i :: 0 <= i < |plan| && plan[i].path == p
  }

  ghost predicate OncePerPath(plan: seq<Entry>) {
    forall i, j | 0 <= i < j < |plan| :: plan[i].path != plan[j].path
  }

  /** A delete shows no source size and the size the destination lists. */
  predicate SizedAs(dest: seq<Listed>, e: Entry) {
    e.sourceSize == -1 && exists j :: 0 <= j < |dest| && dest[j].path == e.path && dest[j].size == e.destSize
  }

  lemma {:induction false} DeletesSound(source: seq<Listed>, dest: seq<Listed>)
    ensures forall i | 0 <= i < |Deletes(source, dest)| ::
              var e := Deletes(source, dest)[i];
              e.action == Delete && Find(source, e.path) == Absent && InListing(dest, e.path) && SizedAs(dest, e)
  {
    if dest != [] {
      var front, last := dest[..|dest| - 1], dest[|dest| - 1];
      DeletesSound(source, front);
      assert InListing(dest, last.path) && SizedAs(dest, Entry(last.path, -1, last.size, Delete));
      forall e: Entry | SizedAs(front, e) ensures SizedAs(dest, e) && InListing(dest, e.path) {
        var j :| 0 <= j < |front| && front[j].path == e.path && front[j].size == e.destSize;
        assert dest[j].path == e.path && dest[j].size == e.destSize;
      }
    }
  }

  lemma {:induction false} DeletesComplete(source: seq<Listed>, dest: seq<Listed>, j: nat)
    requires j < |dest| && Find(source, dest[j].path) == Absent
    ensures Planning(Deletes(source, dest), dest[j].path)
  {
    var front, before := dest[..|dest| - 1], Deletes(source, dest[..|dest| - 1]);
    if j < |front| {
      DeletesComplete(source, front, j);
      var i :| 0 <= i < |before| && before[i].path == dest[j].path;
      assert Deletes(source, dest)[i].path == dest[j].path;
    } else {
      assert Deletes(source, dest)[|before|].path == dest[j].path;
    }
  }

  lemma {:induction false} DeletesOnce(source: seq<Listed>, dest: seq<Listed>)
    requires DistinctPaths(dest)
    ensures OncePerPath(Deletes(source, dest))
  {
    if dest != [] {
      var front, last := dest[..|dest| - 1], dest[|dest| - 1];
      DeletesOnce(source, front);
      DeletesSound(source, front);
      assert !InListing(front, last.path);
    }
  }

  lemma DeletesAre(source: seq<Listed>, dest: seq<Listed>)
    requires DistinctPaths(dest)
    ensures OncePerPath(Deletes(source, dest))
    ensures forall i | 0 <= i < |Deletes(source, dest)| ::
              var e := Deletes(source, dest)[i];
              e.action == Delete && Find(source, e.path) == Absent && InListing(dest, e.path)
    ensures forall j | 0 <= j < |dest| && Find(source, dest[j].path) == Absent ::
      Planning(Deletes(source, dest), dest[j].path)
  {
    DeletesOnce(source, dest);
    DeletesSound(source, dest);
    forall j | 0 <= j < |dest| && Find(source, dest[j].path) == Absent
      ensures Planning(Deletes(source, dest), dest[j].path)
    {
      DeletesComplete(source, dest, j);
    }
  }

  /** The two halves of a plan. */
  lemma PlanParts(dir: Direction, source: seq<Listed>, dest: seq<Listed>, deleteOrphans: bool)
    requires DistinctPaths(dest)
    ensures var plan := Plan(dir, source, dest, deleteOrphans);
            && |plan| >= |source|
            && (forall i | 0 <= i < |source| :: plan[i] == EntryFor(dir, source[i], Find(dest, source[i].path)))
            && (forall i | |source| <= i < |plan| ::
                  deleteOrphans && plan[i] == Deletes(source, dest)[i - |source|] && plan[i].action == Delete
                  && Find(source, plan[i].path) == Absent && Find(dest, plan[i].path) != Absent)
  {
    var plan, ds := Plan(dir, source, dest, deleteOrphans), Deletes(source, dest);
    DeletesAre(source, dest);
    forall i | |source| <= i < |plan|
      ensures plan[i] == ds[i - |source|] && plan[i].action == Delete && Find(source, plan[i].path) == Absent
      ensures Find(dest, plan[i].path) != Absent
    {
      assert plan[i] == ds[i - |source|];
      FindAbsent(dest, plan[i].path);
    }
  }

  lemma PlanOnce(dir: Direction, source: seq<Listed>, dest: seq<Listed>, deleteOrphans: bool)
    requires DistinctPaths(source) && DistinctPaths(dest)
    ensures OncePerPath(Plan(dir, source, dest, deleteOrphans))
  {
    var plan, ds := Plan(dir, source, dest, deleteOrphans), Deletes(source, dest);
    PlanParts(dir, source, dest, deleteOrphans);
    DeletesAre(source, dest);
    forall i, j | 0 <= i < j < |plan| ensures plan[i].path != plan[j].path {
      if j < |source| {
        assert source[i].path != source[j].path;
      } else if i < |source| {
        ListedIsFound(source, i);
      } else {
        assert ds[i - |source|].path != ds[j - |source|].path;
      }
    }
  }

  /** One entry for every source path, exactly the orphans as deletes, and nothing else: no path of a
      complete source listing is ever deleted. */
  lemma PlanIsExact(dir: Direction, source: seq<Listed>, dest: seq<Listed>, deleteOrphans: bool)
    requires DistinctPaths(source) && DistinctPaths(dest)
    ensures OncePerPath(Plan(dir, source, dest, deleteOrphans))
    ensures forall i | 0 <= i < |source| ::
              var e := Plan(dir, source, dest, deleteOrphans)[i];
              e == EntryFor(dir, source[i], Find(dest, source[i].path)) && e.action != Delete
    ensures forall i | |source| <= i < |Plan(dir, source, dest, deleteOrphans)| ::
              var e := Plan(dir, source, dest, deleteOrphans)[i];
              deleteOrphans && e.action == Delete && Find(source, e.path) == Absent && Find(dest, e.path) != Absent
    ensures forall p :: Planning(Plan(dir, source, dest, deleteOrphans), p) <==>
              Find(source, p) != Absent || (deleteOrphans && Find(dest, p) != Absent)
  {
    PlanOnce(dir, source, dest, deleteOrphans);
    PlanParts(dir, source, dest, deleteOrphans);
    forall p ensures Planning(Plan(dir, source, dest, deleteOrphans), p) <==>
                       Find(source, p) != Absent || (deleteOrphans && Find(dest, p) != Absent) {
      PlannedPath(dir, source, dest, deleteOrphans, p);
    }
  }

  lemma PlannedPath(dir: Direction, source: seq<Listed>, dest: seq<Listed>, deleteOrphans: bool, p: Path)
    requires DistinctPaths(dest)
    ensures Planning(Plan(dir, source, dest, deleteOrphans), p) <==>
              Find(source, p) != Absent || (deleteOrphans && Find(dest, p) != Absent)
  {
    var plan := Plan(dir, source, dest, deleteOrphans);
    PlanParts(dir, source, dest, deleteOrphans);
    if Find(source, p) != Absent || (deleteOrphans && Find(dest, p) != Absent) {
      FoundIsPlanned(dir, source, dest, deleteOrphans, p);
    }
    forall i | 0 <= i < |plan|
      ensures Find(source, plan[i].path) != Absent || (deleteOrphans && Find(dest, plan[i].path) != Absent)
    {
      if i < |source| { ListedIsFound(source, i); }
    }
  }

  lemma DeleteIsPlanned(dir: Direction, source: seq<Listed>, dest: seq<Listed>, p: Path)
    requires Planning(Deletes(source, dest), p)
    ensures Planning(Plan(dir, source, dest, true), p)
  {
    var ds := Deletes(source, dest);
    var i :| 0 <= i < |ds| && ds[i].path == p;
    DeleteAt(dir, source, dest, i);
  }

  lemma FoundIsPlanned(dir: Direction, source: seq<Listed>, dest: seq<Listed>, deleteOrphans: bool, p: Path)
    requires DistinctPaths(dest) && (Find(source, p) != Absent || (deleteOrphans && Find(dest, p) != Absent))
    ensures Planning(Plan(dir, source, dest, deleteOrphans), p)
  {
    if Find(source, p) != Absent {
      FindAbsent(source, p);
      var i :| 0 <= i < |source| && source[i].path == p;
      assert Plan(dir, source, dest, deleteOrphans)[i].path == p;
    } else {
      FindAbsent(dest, p);
      var j :| 0 <= j < |dest| && dest[j].path == p;
      DeletesComplete(source, dest, j);
      DeleteIsPlanned(dir, source, dest, p);
    }
  }

  /** Entry by entry, what is planned for a listed source file: it is skipped exactly for an equal size and a strictly
      later known time; otherwise it goes to the other side by the action of the direction, in parts
      from 8 MiB on, a download only when there is a local file to start from. */
  lemma EntryIsPlanned(dir: Direction, source: seq<Listed>, dest: seq<Listed>, deleteOrphans: bool, i: nat)
    requires DistinctPaths(source) && DistinctPaths(dest) && i < |source|
    ensures var e, listed := Plan(dir, source, dest, deleteOrphans)[i], source[i];
            var there := exists j :: 0 <= j < |dest| && dest[j].path == listed.path;
            var parts := listed.size >= 8388608;
            && e.path == listed.path && e.sourceSize == listed.size
            && (!there ==> e.destSize == -1 && e.action != Skip)
            && (forall j | 0 <= j < |dest| && dest[j].path == listed.path ::
                  && e.destSize == dest[j].size
                  && (e.action == Skip <==> listed.size == dest[j].size && 0 < listed.mtime < dest[j].mtime))
            && (e.action != Skip ==>
                  match dir
                  case Up => e.action == if parts then UploadDiff else Upload
                  case Down => e.action == if parts && there then DownloadDiff else Download
                  case BetweenBuckets => e.action == Copy
                  case BetweenDirectories => e.action == Upload)
  {
    PlanParts(dir, source, dest, deleteOrphans);
    FindAbsent(dest, source[i].path);
    forall j | 0 <= j < |dest| && dest[j].path == source[i].path
      ensures Find(dest, source[i].path) == Stat(dest[j].size, dest[j].mtime)
    {
      FindAt(dest, j);
    }
  }

  /** Every other entry is the delete of a destination file, shown with its listed size. */
  lemma DeleteIsSized(dir: Direction, source: seq<Listed>, dest: seq<Listed>, deleteOrphans: bool, i: nat)
    requires DistinctPaths(dest) && |source| <= i < |Plan(dir, source, dest, deleteOrphans)|
    ensures var e := Plan(dir, source, dest, deleteOrphans)[i];
            e.action == Delete && e.sourceSize == -1
            && exists j :: 0 <= j < |dest| && dest[j].path == e.path && dest[j].size == e.destSize
  {
    PlanParts(dir, source, dest, deleteOrphans);
    DeletesSound(source, dest);
  }

  /** Why the gate is there: a plan made from a partial listing deletes every path the listing lost,
      whether or not the source still has it. */
  lemma LostPathsWouldBeDeleted(dir: Direction, part: seq<Listed>, dest: seq<Listed>, p: Path)
    requires DistinctPaths(dest) && Find(part, p) == Absent && Find(dest, p) != Absent
    ensures exists i :: 0 <= i < |Plan(dir, part, dest, true)| && Plan(dir, part, dest, true)[i].path == p
                        && Plan(dir, part, dest, true)[i].action == Delete
  {
    FindAbsent(dest, p);
    var j :| 0 <= j < |dest| && dest[j].path == p;
    DeletesComplete(part, dest, j);
    DeletesSound(part, dest);
    var ds := Deletes(part, dest);
    var k :| 0 <= k < |ds| && ds[k].path == p;
    DeleteAt(dir, part, dest, k);
  }

  lemma DeleteAt(dir: Direction, source: seq<Listed>, dest: seq<Listed>, k: nat)
    requires k < |Deletes(source, dest)|
    ensures |source| + k < |Plan(dir, source, dest, true)|
    ensures Plan(dir, source, dest, true)[|source| + k] == Deletes(source, dest)[k]
  {}

  /** A destination without a known time is never skipped: a cleared stamp forces a transfer. */
  lemma UnknownTimeIsTransferred(dir: Direction, size: int, mtime: int, dest: Stat)
    requires dest.Stat? && (dest.mtime <= 0 || mtime <= 0)
    ensures Decide(dir, size, mtime, dest) == Transfer(dir, size) && Transfer(dir, size) != Skip
  {}

  // ---- Executing a plan ----

  datatype File = File(data: seq<Byte>, mtime: int)

  type Tree = map<Path, File>

  /** A complete listing of a tree: what the walks promise when they report themselves whole. */
  ghost predicate Lists(listing: seq<Listed>, tree: Tree) {
    && DistinctPaths(listing)
    && forall p :: Find(listing, p) == if p in tree then Stat(|tree[p].data|, tree[p].mtime) else Absent
  }

  /** Where files are: two local trees and two buckets. A run names one of them its source and one its destination. */
  datatype World = World(local: Tree, otherLocal: Tree, sourceBucket: Tree, destBucket: Tree)

  /** The world with a run's two sides in their places. */
  function Placed(dir: Direction, source: Tree, dest: Tree, rest: World): World {
    match dir
    case Up => rest.(local := source, destBucket := dest)
    case Down => rest.(sourceBucket := source, local := dest)
    case BetweenBuckets => rest.(sourceBucket := source, destBucket := dest)
    case BetweenDirectories => rest.(local := source, otherLocal := dest)
  }

  function DestOf(dir: Direction, w: World): Tree {
    match dir
    case Up => w.destBucket
    case Down => w.local
    case BetweenBuckets => w.destBucket
    case BetweenDirectories => w.otherLocal
  }

  /** `to` with the file `p` as it is in `from`; a file that is not there transfers nothing. `stamp` is the time a
      destination gets when it is written. */
  function Transferred(p: Path, from: Tree, stamp: Path -> int, to: Tree): Tree {
    if p in from then to[p := File(from[p].data, stamp(p))] else to
  }

  /** One entry carried out: the action names the side it reads and the side it writes. */
  function Effect(dir: Direction, e: Entry, stamp: Path -> int, w: World): World {
    match e.action
    case Upload =>
      if dir == BetweenDirectories then w.(otherLocal := Transferred(e.path, w.local, stamp, w.otherLocal))
      else w.(destBucket := Transferred(e.path, w.local, stamp, w.destBucket))
    case UploadDiff => w.(destBucket := Transferred(e.path, w.local, stamp, w.destBucket))
    case Download => w.(local := Transferred(e.path, w.sourceBucket, stamp, w.local))
    case DownloadDiff => w.(local := Transferred(e.path, w.sourceBucket, stamp, w.local))
    case Copy => w.(destBucket := Transferred(e.path, w.sourceBucket, stamp, w.destBucket))
    case Delete =>
      (match dir
       case BetweenBuckets => w.(destBucket := w.destBucket - {e.path})
       case Down => w.(local := w.local - {e.path})
       case BetweenDirectories => w.(otherLocal := w.otherLocal - {e.path})
       case Up => w.(destBucket := w.destBucket - {e.path}))
    case Skip => w
  }

  function Execute(dir: Direction, order: seq<Entry>, stamp: Path -> int, w: World): World {
    if order == [] then w
    else Effect(dir, order[|order| - 1], stamp, Execute(dir, order[..|order| - 1], stamp, w))
  }

  // ---- What that makes of the two sides ----

  /** What the entry means for the destination of its run. */
  function Changed(e: Entry, source: Tree, stamp: Path -> int, dest: Tree): Tree {
    if e.action == Skip then dest
    else if e.action == Delete then dest - {e.path}
    else Transferred(e.path, source, stamp, dest)
  }

  function Changes(order: seq<Entry>, source: Tree, stamp: Path -> int, dest: Tree): Tree {
    if order == [] then dest
    else Changed(order[|order| - 1], source, stamp, Changes(order[..|order| - 1], source, stamp, dest))
  }

  /** The actions whose sides are those of the direction. */
  predicate Fits(dir: Direction, a: Action) {
    match dir
    case Up => a == Upload || a == UploadDiff || a == Delete || a == Skip
    case Down => a == Download || a == DownloadDiff || a == Delete || a == Skip
    case BetweenBuckets => a == Copy || a == Delete || a == Skip
    case BetweenDirectories => a == Upload || a == Delete || a == Skip
  }

  lemma PlannedFits(dir: Direction, source: seq<Listed>, dest: seq<Listed>, deleteOrphans: bool, e: Entry)
    requires DistinctPaths(source) && DistinctPaths(dest) && e in Plan(dir, source, dest, deleteOrphans)
    ensures Fits(dir, e.action)
  {
    var plan := Plan(dir, source, dest, deleteOrphans);
    var i :| 0 <= i < |plan| && plan[i] == e;
    if i < |source| {
      EntryIsPlanned(dir, source, dest, deleteOrphans, i);
    } else {
      DeleteIsSized(dir, source, dest, deleteOrphans, i);
    }
  }

  /** Such an action reads its run's source and writes its run's destination, and touches nothing else. */
  lemma EffectIsChange(dir: Direction, e: Entry, stamp: Path -> int, s: Tree, d: Tree, rest: World)
    requires Fits(dir, e.action)
    ensures Effect(dir, e, stamp, Placed(dir, s, d, rest)) == Placed(dir, s, Changed(e, s, stamp, d), rest)
  {}

  lemma {:induction false} ExecuteIsChanges(dir: Direction, source: seq<Listed>, dest: seq<Listed>, deleteOrphans: bool,
                                            order: seq<Entry>, stamp: Path -> int, s: Tree, d: Tree, rest: World)
    requires DistinctPaths(source) && DistinctPaths(dest)
    requires forall e | e in order :: e in Plan(dir, source, dest, deleteOrphans)
    ensures Execute(dir, order, stamp, Placed(dir, s, d, rest)) == Placed(dir, s, Changes(order, s, stamp, d), rest)
  {
    if order != [] {
      var n := |order| - 1;
      ExecuteIsChanges(dir, source, dest, deleteOrphans, order[..n], stamp, s, d, rest);
      PlannedFits(dir, source, dest, deleteOrphans, order[n]);
      EffectIsChange(dir, order[n], stamp, s, Changes(order[..n], s, stamp, d), rest);
    }
  }

  /** What a path holds afterwards depends on its own entry only, so the order does not matter. */
  lemma {:induction false} ChangesAt(order: seq<Entry>, source: Tree, stamp: Path -> int, dest: Tree, i: nat)
    requires OncePerPath(order) && i < |order|
    ensures var p, r := order[i].path, Changes(order, source, stamp, dest);
            var one := Changed(order[i], source, stamp, dest);
            (p in r <==> p in one) && (p in r ==> r[p] == one[p])
  {
    var last := |order| - 1;
    if i == last {
      ChangesElsewhere(order[..last], source, stamp, dest, order[i].path);
    } else {
      assert order[last].path != order[i].path;
      assert order[..last][i] == order[i];
      ChangesAt(order[..last], source, stamp, dest, i);
    }
  }

  lemma {:induction false} ChangesElsewhere(order: seq<Entry>, source: Tree, stamp: Path -> int, dest: Tree, p: Path)
    requires forall i | 0 <= i < |order| :: order[i].path != p
    ensures var r := Changes(order, source, stamp, dest); (p in r <==> p in dest) && (p in r ==> r[p] == dest[p])
  {
    if order != [] {
      ChangesElsewhere(order[..|order| - 1], source, stamp, dest, p);
    }
  }

  /** The entries of the plan, in whatever order the tasks happen to finish. */
  ghost predicate OrderOf(order: seq<Entry>, plan: seq<Entry>) {
    OncePerPath(order) && forall e :: e in order <==> e in plan
  }

  function SideOf(tree: Tree, p: Path): Stat {
    if p in tree then Stat(|tree[p].data|, tree[p].mtime) else Absent
  }

  function DecisionFor(dir: Direction, source: Tree, dest: Tree, p: Path): Action
    requires p in source
  {
    Decide(dir, |source[p].data|, source[p].mtime, SideOf(dest, p))
  }

  /** A listing of two trees, and the order in which their plan is carried out. */
  datatype Job = Job(dir: Direction, source: Tree, dest: Tree, deleteOrphans: bool, sourceList: seq<Listed>,
      destList: seq<Listed>,
                     order: seq<Entry>, stamp: Path -> int, rest: World)

  ghost predicate ValidJob(j: Job) {
    && Lists(j.sourceList, j.source) && Lists(j.destList, j.dest)
    && OrderOf(j.order, Plan(j.dir, j.sourceList, j.destList, j.deleteOrphans))
  }

  /** The whole world after the run, and its destination. */
  function WorldAfter(j: Job): World {
    Execute(j.dir, j.order, j.stamp, Placed(j.dir, j.source, j.dest, j.rest))
  }

  function After(j: Job): Tree {
    DestOf(j.dir, WorldAfter(j))
  }

  /** A run changes its destination and nothing else: the source and whatever else there is stay as they were. */
  lemma OnlyTheDestination(j: Job)
    requires ValidJob(j)
    ensures WorldAfter(j) == Placed(j.dir, j.source, After(j), j.rest)
    ensures After(j) == Changes(j.order, j.source, j.stamp, j.dest)
  {
    ExecuteIsChanges(j.dir, j.sourceList, j.destList, j.deleteOrphans, j.order, j.stamp, j.source, j.dest, j.rest);
  }

  lemma SourcePath(j: Job, p: Path)
    requires ValidJob(j) && p in j.source
    ensures exists i ::
      0 <= i < |j.order| && j.order[i].path == p && j.order[i].action == DecisionFor(j.dir, j.source, j.dest, p)
  {
    var plan := Plan(j.dir, j.sourceList, j.destList, j.deleteOrphans);
    FindAbsent(j.sourceList, p);
    var i :| 0 <= i < |j.sourceList| && j.sourceList[i].path == p;
    FindAt(j.sourceList, i);
    PlanIsExact(j.dir, j.sourceList, j.destList, j.deleteOrphans);
    assert plan[i] == EntryFor(j.dir, j.sourceList[i], Find(j.destList, p));
    assert plan[i] in plan;
    var k :| 0 <= k < |j.order| && j.order[k] == plan[i];
  }

  lemma OrphanPath(j: Job, p: Path)
    requires ValidJob(j) && p !in j.source && j.deleteOrphans && p in j.dest
    ensures exists i :: 0 <= i < |j.order| && j.order[i].path == p && j.order[i].action == Delete
  {
    var plan := Plan(j.dir, j.sourceList, j.destList, j.deleteOrphans);
    PlanIsExact(j.dir, j.sourceList, j.destList, j.deleteOrphans);
    FoundIsPlanned(j.dir, j.sourceList, j.destList, j.deleteOrphans, p);
    var i :| 0 <= i < |plan| && plan[i].path == p;
    forall n | 0 <= n < |j.sourceList| ensures plan[n].path != p { ListedIsFound(j.sourceList, n); }
    assert plan[i] in plan;
    var k :| 0 <= k < |j.order| && j.order[k] == plan[i];
  }

  lemma ForeignPath(j: Job, p: Path)
    requires ValidJob(j) && p !in j.source && !(j.deleteOrphans && p in j.dest)
    ensures forall i | 0 <= i < |j.order| :: j.order[i].path != p
  {
    var plan := Plan(j.dir, j.sourceList, j.destList, j.deleteOrphans);
    PlannedPath(j.dir, j.sourceList, j.destList, j.deleteOrphans, p);
    forall i | 0 <= i < |j.order| ensures j.order[i].path != p {
      assert j.order[i] in j.order;
      var k :| 0 <= k < |plan| && plan[k] == j.order[i];
      assert Planning(plan, plan[k].path);
    }
  }

  /** A source path that was not skipped holds the source's bytes afterwards; a skipped one is as it was. */
  lemma SourceAfter(j: Job, p: Path)
    requires ValidJob(j) && p in j.source
    ensures p in After(j)
    ensures After(j)[p] ==
              if DecisionFor(j.dir, j.source, j.dest, p) == Skip then j.dest[p] else File(j.source[p].data, j.stamp(p))
  {
    SourcePath(j, p);
    var i :| 0 <= i < |j.order| && j.order[i].path == p && j.order[i].action == DecisionFor(j.dir, j.source, j.dest, p);
    OnlyTheDestination(j);
    ChangesAt(j.order, j.source, j.stamp, j.dest, i);
  }

  /** An orphan goes if and only if deletion was asked for; otherwise it is untouched. */
  lemma OrphanAfter(j: Job, p: Path)
    requires ValidJob(j) && p !in j.source
    ensures p in After(j) <==> p in j.dest && !j.deleteOrphans
    ensures p in After(j) ==> After(j)[p] == j.dest[p]
  {
    if j.deleteOrphans && p in j.dest {
      OrphanPath(j, p);
      var i :| 0 <= i < |j.order| && j.order[i].path == p && j.order[i].action == Delete;
      OnlyTheDestination(j);
      ChangesAt(j.order, j.source, j.stamp, j.dest, i);
    } else {
      ForeignPath(j, p);
      OnlyTheDestination(j);
      ChangesElsewhere(j.order, j.source, j.stamp, j.dest, p);
    }
  }

  /** A fully executed plan with deletion makes the path sets equal; without it, it adds the source's. */
  lemma PathSetsAfter(j: Job)
    requires ValidJob(j)
    ensures After(j).Keys == if j.deleteOrphans then j.source.Keys else j.source.Keys + j.dest.Keys
  {
    forall p ensures p in After(j) <==> p in j.source || (!j.deleteOrphans && p in j.dest) {
      if p in j.source { SourceAfter(j, p); } else { OrphanAfter(j, p); }
    }
  }

  ghost predicate Faithful(j: Job) {
    forall p | p in j.source :: p in After(j) && After(j)[p].data == j.source[p].data
  }

  /** The destination holds the source's bytes afterwards exactly when what was skipped already did: a
      skip trusts equal sizes and a later time. */
  lemma FaithfulIff(j: Job)
    requires ValidJob(j)
    ensures Faithful(j) <==>
            (forall p | p in j.source && DecisionFor(j.dir, j.source, j.dest, p) == Skip ::
               j.dest[p].data == j.source[p].data)
  {
    forall p | p in j.source
      ensures p in After(j)
      ensures After(j)[p].data == j.source[p].data <==>
              (DecisionFor(j.dir, j.source, j.dest, p) == Skip ==> j.dest[p].data == j.source[p].data)
    {
      SourceAfter(j, p);
    }
  }

  /** The two trees a listing cannot tell apart. */
  ghost predicate LooksLike(a: Tree, b: Tree) {
    a.Keys == b.Keys && forall p | p in a :: |a[p].data| == |b[p].data| && a[p].mtime == b[p].mtime
  }

  /** What a listing shows of a path the planner may skip: bytes to lose, equal sizes, a later known time. */
  predicate Unproven(j: Job, p: Path) {
    && p in j.source && p in j.dest
    && |j.dest[p].data| == |j.source[p].data| > 0 && 0 < j.source[p].mtime < j.dest[p].mtime
  }

  lemma LooksLikeIsListed(j: Job, dest: Tree)
    requires ValidJob(j) && LooksLike(j.dest, dest)
    ensures ValidJob(j.(dest := dest))
    ensures forall p | p in j.source :: DecisionFor(j.dir, j.source, dest, p) == DecisionFor(j.dir, j.source, j.dest, p)
  {
    assert forall p :: SideOf(j.dest, p) == SideOf(dest, p);
  }

  /** The exact condition in terms of sizes and stamps, which a caller can see before the run: the destination
      equals the source afterwards, whatever the destination holds, exactly when no path shows equal
      sizes, not zero, and a strictly later known time at the destination. */
  lemma FaithfulWhateverItHoldsIff(j: Job)
    requires ValidJob(j)
    ensures (forall dest | LooksLike(j.dest, dest) :: Faithful(j.(dest := dest))) <==> forall p :: !Unproven(j, p)
  {
    if forall p :: !Unproven(j, p) {
      forall dest | LooksLike(j.dest, dest) ensures Faithful(j.(dest := dest)) {
        NothingUnproven(j, dest);
      }
    } else {
      var p :| Unproven(j, p);
      var dest := Spoiled(j, p);
      SpoiledIsKept(j, p);
      assert !Faithful(j.(dest := dest));
    }
  }

  lemma NothingUnproven(j: Job, dest: Tree)
    requires ValidJob(j) && LooksLike(j.dest, dest) && forall p :: !Unproven(j, p)
    ensures Faithful(j.(dest := dest))
  {
    LooksLikeIsListed(j, dest);
    forall p | p in j.source
      ensures p in After(j.(dest := dest)) && After(j.(dest := dest))[p].data == j.source[p].data
    {
      SourceAfter(j.(dest := dest), p);
      assert !Unproven(j, p);
    }
  }

  /** The destination with one byte of `p` not the source's. */
  function Spoiled(j: Job, p: Path): Tree
    requires Unproven(j, p)
  {
    var data := j.source[p].data;
    j.dest[p := File(data[0 := if data[0] == 0 then 1 else 0], j.dest[p].mtime)]
  }

  lemma SpoiledIsKept(j: Job, p: Path)
    requires ValidJob(j) && Unproven(j, p)
    ensures LooksLike(j.dest, Spoiled(j, p)) && ValidJob(j.(dest := Spoiled(j, p)))
    ensures p in After(j.(dest := Spoiled(j, p))) && After(j.(dest := Spoiled(j, p)))[p].data != j.source[p].data
  {
    LooksLikeIsListed(j, Spoiled(j, p));
    SourceAfter(j.(dest := Spoiled(j, p)), p);
  }

  /** The next run plans a skip for a path exactly when it was skipped now, or was written with a stamp
      strictly later than a known source time. */
  lemma RerunSkipsIff(j: Job, p: Path)
    requires ValidJob(j) && p in j.source
    ensures DecisionFor(j.dir, j.source, After(j), p) == Skip <==>
            DecisionFor(j.dir, j.source, j.dest, p) == Skip || (0 < j.source[p].mtime < j.stamp(p))
  {
    SourceAfter(j, p);
  }

  /** So a run with deletion settles: if every write got a later stamp, the next one has nothing to do. */
  lemma Settles(j: Job, k: Job)
    requires ValidJob(j) && ValidJob(k) && j.deleteOrphans && k.dir == j.dir && k.source == j.source
    requires k.dest == After(j)
    requires forall p | p in j.source :: 0 < j.source[p].mtime < j.stamp(p)
    ensures forall i | 0 <= i < |k.order| :: k.order[i].action == Skip
  {
    PathSetsAfter(j);
    forall i | 0 <= i < |k.order| ensures k.order[i].action == Skip {
      var p := k.order[i].path;
      if p in k.source {
        SourcePath(k, p);
        RerunSkipsIff(j, p);
      } else {
        ForeignPath(k, p);
        assert false;
      }
    }
  }
}

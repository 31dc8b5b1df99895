/** Comparing two directories: who is where, the tasks that compare the common files in any order, and
    the totals the report is made of. */
module DirectoryTotals {
  import opened Sequences
  import Comparison
  import opened Cancel
  import opened Chunks
  import opened DiffPlan
  import opened Checksums
  import opened Listings

  datatype Status = Match | Mismatch | Error

  datatype FileResult = FileResult(path: Path, status: Status)

  datatype Totals = Totals(matching: nat, mismatched: nat, onlyA: nat, onlyB: nat, errors: nat, files: seq<FileResult>)

  datatype Result = Refused | Cancelled(partial: Totals) | Done(totals: Totals)

  function PathsOf(listing: seq<Listed>): set<Path> {
    set i | 0 <= i < |listing| :: listing[i].path
  }

  function Paths(files: seq<FileResult>): seq<Path> {
    seq(|files|, i requires 0 <= i < |files| => files[i].path)
  }

  lemma MapHasPaths(listing: seq<Listed>, m: map<Path, (int, int)>)
    requires forall p :: Find(listing, p) == if p in m then Stat(m[p].0, m[p].1) else Absent
    ensures m.Keys == PathsOf(listing)
  {
    forall p ensures p in m <==> p in PathsOf(listing) { FindAbsent(listing, p); }
  }

  /** One pass over a map, splitting its paths by whether the other map has them. */
  method SplitPaths(m: map<Path, (int, int)>, other: map<Path, (int, int)>)
      returns (common: seq<Path>, alone: seq<Path>)
    ensures Enumerates(common, m.Keys * other.Keys) && Enumerates(alone, m.Keys - other.Keys)
  {
    common, alone := [], [];
    var todo, seen := m.Keys, {};
    while todo != {}
      invariant todo !! seen && todo + seen == m.Keys
      invariant Enumerates(common, seen * other.Keys) && Enumerates(alone, seen - other.Keys)
    {
      var p :| p in todo;
      if p in other {
        EnumeratesMore(common, seen * other.Keys, p);
        common := common + [p];
        assert (seen + {p}) * other.Keys == seen * other.Keys + {p} && (seen + {p}) - other.Keys == seen - other.Keys;
      } else {
        EnumeratesMore(alone, seen - other.Keys, p);
        alone := alone + [p];
        assert (seen + {p}) - other.Keys == seen - other.Keys + {p} && (seen + {p}) * other.Keys == seen * other.Keys;
      }
      todo, seen := todo - {p}, seen + {p};
    }
    assert seen == m.Keys;
  }

  // ---- What the totals mean ----

  /** The status a path deserves; `verdict` is what comparing the two files says. */
  function StatusOf(a: set<Path>, b: set<Path>, verdict: Path -> Status, p: Path): Status {
    if p in a && p in b then verdict(p) else Mismatch
  }

  function Tally(files: seq<FileResult>, s: Status): nat {
    if files == [] then 0 else Tally(files[..|files| - 1], s) + if files[|files| - 1].status == s then 1 else 0
  }

  lemma TallySnoc(files: seq<FileResult>, f: FileResult)
    ensures forall s :: Tally(files + [f], s) == Tally(files, s) + if f.status == s then 1 else 0
  {
    assert (files + [f])[..|files|] == files;
  }

  lemma {:induction false} TallyAll(files: seq<FileResult>)
    ensures Tally(files, Match) + Tally(files, Mismatch) + Tally(files, Error) == |files|
  {
    if files != [] {
      TallyAll(files[..|files| - 1]);
      var s := files[|files| - 1].status;
      assert s == Match || s == Mismatch || s == Error;
    }
  }

  lemma {:induction false} TallyNone(files: seq<FileResult>, s: Status)
    ensures Tally(files, s) == 0 <==> forall i | 0 <= i < |files| :: files[i].status != s
  {
    if files != [] {
      TallyNone(files[..|files| - 1], s);
      assert forall i | 0 <= i < |files| - 1 :: files[..|files| - 1][i] == files[i];
    }
  }

  /** `t` reports exactly the paths `all`, each once and with the status it deserves, and counts them. */
  ghost predicate Reports(t: Totals, a: set<Path>, b: set<Path>, verdict: Path -> Status, all: set<Path>) {
    && Enumerates(Paths(t.files), all)
    && (forall i | 0 <= i < |t.files| :: t.files[i].status == StatusOf(a, b, verdict, t.files[i].path))
    && t.matching == Tally(t.files, Match) && t.mismatched == Tally(t.files, Mismatch)
    && t.errors == Tally(t.files, Error)
  }

  function Counted(t: Totals, p: Path, s: Status): Totals {
    var u := t.(files := t.files + [FileResult(p, s)]);
    match s
    case Match => u.(matching := t.matching + 1)
    case Mismatch => u.(mismatched := t.mismatched + 1)
    case Error => u.(errors := t.errors + 1)
  }

  lemma ReportOne(t: Totals, a: set<Path>, b: set<Path>, verdict: Path -> Status, all: set<Path>, p: Path)
    requires Reports(t, a, b, verdict, all) && p !in all
    ensures Reports(Counted(t, p, StatusOf(a, b, verdict, p)), a, b, verdict, all + {p})
  {
    var f := FileResult(p, StatusOf(a, b, verdict, p));
    TallySnoc(t.files, f);
    EnumeratesMore(Paths(t.files), all, p);
    assert Paths(t.files + [f]) == Paths(t.files) + [p];
  }

  /** The genuine content mismatches: the raw figure also counts what only one side has. */
  function ContentDifferences(t: Totals): nat {
    if t.mismatched > t.onlyA + t.onlyB then t.mismatched - (t.onlyA + t.onlyB) else 0
  }

  // ---- The comparison of two files ----

  /** Two trees, and what is learned of each common file: whether both sizes could be read, and what the
      checksum services hand back. */
  datatype Sides<!R> = Sides(
    a: map<Path, seq<Byte>>,
    b: map<Path, seq<Byte>>,
    sum: seq<Byte> -> R,
    chunk: int,
    sized: Path -> bool,
    sumsA: Path -> seq<R>,
    sumsB: Path -> seq<R>)

  ghost predicate ValidSides<R>(x: Sides<R>) {
    && x.chunk > 0
    && forall p | p in x.a && p in x.b ::
         Comparison.Answered(x.sum, x.a[p], x.chunk, [], x.sumsA(p))
             && Comparison.Answered(x.sum, x.b[p], x.chunk, [], x.sumsB(p))
  }

  /** Both sides of a common file could be sized and summed. */
  predicate Known<R(==)>(x: Sides<R>, p: Path)
    requires p in x.a && p in x.b
  {
    x.sized(p) && (x.sumsA(p) != [] || x.a[p] == []) && (x.sumsB(p) != [] || x.b[p] == [])
  }

  function VerdictOn<R(==)>(x: Sides<R>, p: Path): Status {
    if p in x.a && p in x.b then
      if !Known(x, p) then Error else if x.sumsA(p) == x.sumsB(p) then Match else Mismatch
    else Mismatch
  }

  ghost function Verdicts<R>(x: Sides<R>): Path -> Status {
    p => VerdictOn(x, p)
  }

  /** One task's comparison, through the comparison of two files. */
  method CompareFile<R(==, !new)>(x: Sides<R>, p: Path) returns (status: Status)
    requires ValidSides(x) && p in x.a && p in x.b
    ensures status == VerdictOn(x, p)
  {
    if !x.sized(p) { return Error; }
    var r := Comparison.RunComparison(x.sum, x.a[p], x.b[p], x.chunk, [], x.sumsA(p), x.sumsB(p), false);
    match r {
      case Compared(v) => status := if v.allMatch then Match else Mismatch;
      case _ => status := Error;
    }
  }

  /** A match means equal contents, and equal contents are never a mismatch. */
  lemma VerdictMeans<R(!new)>(x: Sides<R>, p: Path)
    requires ValidSides(x) && p in x.a && p in x.b && NoCollision(x.sum, x.a[p], x.b[p], x.chunk)
    ensures VerdictOn(x, p) == Error <==> !Known(x, p)
    ensures VerdictOn(x, p) != Error ==> (VerdictOn(x, p) == Match <==> x.a[p] == x.b[p])
  {
    if Known(x, p) {
      WholeSums(x.sum, x.a[p], x.chunk, x.sumsA(p));
      WholeSums(x.sum, x.b[p], x.chunk, x.sumsB(p));
      if x.sumsA(p) == x.sumsB(p) { SameSums(x.sum, x.a[p], x.b[p], x.chunk); }
    }
  }

  lemma WholeSums<R>(sum: seq<Byte> -> R, data: seq<Byte>, c: int, sums: seq<R>)
    requires c > 0 && Comparison.Answered(sum, data, c, [], sums) && (sums != [] || data == [])
    ensures sums == Sums(sum, data, c)
  {}

  lemma SameSums<R(!new)>(sum: seq<Byte> -> R, a: seq<Byte>, b: seq<Byte>, c: int)
    requires c > 0 && NoCollision(sum, a, b, c) && Sums(sum, a, c) == Sums(sum, b, c)
    ensures a == b
  {
    forall i: nat | i < ChunkCount(|a|, c) ensures Chunk(a, c, i) == Chunk(b, c, i) {
      assert Sums(sum, a, c)[i] == Sums(sum, b, c)[i];
    }
    EqualByChunks(a, b, c);
  }

  // ---- The run ----

  /** The sequential loops over the files of one side only. */
  method RecordAlone(t0: Totals, alone: seq<Path>, fromA: bool, ghost a: set<Path>, ghost b: set<Path>,
                     ghost verdict: Path -> Status, ghost all: set<Path>)
    returns (t: Totals)
    requires Reports(t0, a, b, verdict, all) && Enumerates(alone, if fromA then a - b else b - a)
    requires all !! (if fromA then a - b else b - a)
    ensures Reports(t, a, b, verdict, all + (if fromA then a - b else b - a))
    ensures t.onlyA == t0.onlyA + (if fromA then |alone| else 0) && t.onlyB == t0.onlyB + (if fromA then 0 else |alone|)
  {
    t := t0;
    ghost var seen: set<Path> := {};
    assert all + seen == all;
    for i := 0 to |alone|
      invariant forall p :: p in seen <==> p in alone[..i]
      invariant Reports(t, a, b, verdict, all + seen)
      invariant t.onlyA == t0.onlyA + (if fromA then i else 0) && t.onlyB == t0.onlyB + (if fromA then 0 else i)
    {
      assert alone[..i + 1] == alone[..i] + [alone[i]];
      assert alone[i] in alone && alone[i] !in alone[..i];
      ReportOne(t, a, b, verdict, all + seen, alone[i]);
      t := Counted(t, alone[i], Mismatch);
      if fromA { t := t.(onlyA := t.onlyA + 1); } else { t := t.(onlyB := t.onlyB + 1); }
      seen := seen + {alone[i]};
      assert all + seen == all + (seen - {alone[i]}) + {alone[i]};
    }
    assert alone[..|alone|] == alone;
    assert seen == if fromA then a - b else b - a;
  }

  /** The tasks, one common file each, finishing in any order; a cancelled one reports nothing. */
  method CompareCommon<R(==, !new)>(t0: Totals, common: seq<Path>, cancel: Cancellation, a: set<Path>, b: set<Path>,
                                    x: Sides<R>, ghost all: set<Path>)
    returns (t: Totals)
    requires ValidSides(x) && a <= x.a.Keys && b <= x.b.Keys
    requires Reports(t0, a, b, Verdicts(x), all) && Enumerates(common, a * b) && all !! a * b
    modifies cancel
    ensures old(cancel.raised) ==> cancel.raised
    ensures t.onlyA == t0.onlyA && t.onlyB == t0.onlyB
    ensures !cancel.raised ==> Reports(t, a, b, Verdicts(x), all + a * b)
  {
    t := t0;
    var waiting := a * b;
    ghost var done: set<Path> := {};
    assert all + done == all;
    while waiting != {}
      invariant waiting !! done && waiting + done <= a * b && (!cancel.raised ==> waiting + done == a * b)
      invariant old(cancel.raised) ==> cancel.raised
      invariant Reports(t, a, b, Verdicts(x), all + done)
      invariant t.onlyA == t0.onlyA && t.onlyB == t0.onlyB
    {
      var p :| p in waiting;
      waiting := waiting - {p};
      var stop := cancel.Look();
      if !stop {
        var status := CompareFile(x, p);
        stop := cancel.Look();
        if !stop {
          ReportOne(t, a, b, Verdicts(x), all + done, p);
          t := Counted(t, p, status);
          done := done + {p};
          assert all + done == all + (done - {p}) + {p};
        }
      }
    }
    if !cancel.raised { assert done == a * b; }
  }

  /** The files of one side only, A's before B's. */
  method RecordOneSided(onlyA: seq<Path>, onlyB: seq<Path>, ghost a: set<Path>, ghost b: set<Path>,
                        ghost verdict: Path -> Status)
    returns (t: Totals)
    requires Enumerates(onlyA, a - b) && Enumerates(onlyB, b - a)
    ensures Reports(t, a, b, verdict, (a - b) + (b - a)) && t.onlyA == |a - b| && t.onlyB == |b - a|
  {
    t := Totals(0, 0, 0, 0, 0, []);
    assert Reports(t, a, b, verdict, {});
    t := RecordAlone(t, onlyA, true, a, b, verdict, {});
    assert {} + (a - b) == a - b;
    t := RecordAlone(t, onlyB, false, a, b, verdict, a - b);
    EnumeratedLength(onlyA, a - b);
    EnumeratedLength(onlyB, b - a);
  }

  lemma UnionInParts(a: set<Path>, b: set<Path>)
    ensures (a - b) + (b - a) + a * b == a + b && ((a - b) + (b - a)) !! a * b && b * a == a * b
  {}

  /** Who is where, then the one-sided files, then the common ones. */
  method CompareMaps<R(==, !new)>(mapA: map<Path, (int, int)>, mapB: map<Path, (int, int)>, x: Sides<R>,
                                  cancel: Cancellation) returns (t: Totals)
    requires ValidSides(x) && mapA.Keys <= x.a.Keys && mapB.Keys <= x.b.Keys
    modifies cancel
    ensures old(cancel.raised) ==> cancel.raised
    ensures t.onlyA == |mapA.Keys - mapB.Keys| && t.onlyB == |mapB.Keys - mapA.Keys|
    ensures !cancel.raised ==> Reports(t, mapA.Keys, mapB.Keys, Verdicts(x), mapA.Keys + mapB.Keys)
  {
    var common, onlyA := SplitPaths(mapA, mapB);
    var _, onlyB := SplitPaths(mapB, mapA);
    t := RecordOneSided(onlyA, onlyB, mapA.Keys, mapB.Keys, Verdicts(x));
    UnionInParts(mapA.Keys, mapB.Keys);
    t := CompareCommon(t, common, cancel, mapA.Keys, mapB.Keys, x, (mapA.Keys - mapB.Keys) + (mapB.Keys - mapA.Keys));
  }

  /** A comparison of two listings. An incomplete one is refused; a finished one has counted the union
      of the paths, once each, a common one with the verdict on its two files. */
  method CompareDirectories<R(==, !new)>(listA: seq<Listed>, listB: seq<Listed>, completeA: bool, completeB: bool,
                                         x: Sides<R>, cancel: Cancellation)
    returns (r: Result)
    requires ValidSides(x) && (completeA ==> PathsOf(listA) == x.a.Keys) && (completeB ==> PathsOf(listB) == x.b.Keys)
    modifies cancel
    ensures r == Refused <==> !completeA || !completeB
    ensures r.Done? ==>
      !cancel.raised && Reports(r.totals, PathsOf(listA), PathsOf(listB), Verdicts(x), PathsOf(listA) + PathsOf(listB))
    ensures r.Done? ==>
      r.totals.onlyA == |PathsOf(listA) - PathsOf(listB)| && r.totals.onlyB == |PathsOf(listB) - PathsOf(listA)|
    ensures r.Cancelled? ==> cancel.raised
  {
    if !completeA || !completeB { return Refused; }
    var stop := cancel.Look();
    if stop { return Cancelled(Totals(0, 0, 0, 0, 0, [])); }
    var mapA := BuildMap(listA);
    var mapB := BuildMap(listB);
    MapHasPaths(listA, mapA);
    MapHasPaths(listB, mapB);
    var t := CompareMaps(mapA, mapB, x, cancel);
    stop := cancel.Look();
    r := if stop then Cancelled(t) else Done(t);
  }

  /** Every path of the union is counted in exactly one of the five figures of the report. */
  lemma FiguresAddUp(t: Totals, a: set<Path>, b: set<Path>, verdict: Path -> Status)
    requires Reports(t, a, b, verdict, a + b) && t.onlyA == |a - b| && t.onlyB == |b - a|
    ensures t.matching + ContentDifferences(t) + t.onlyA + t.onlyB + t.errors == |a + b|
  {
    EnumeratedLength(Paths(t.files), a + b);
    TallyAll(t.files);
    AloneAreMismatches(t, a, b, verdict);
  }

  lemma AloneAreMismatches(t: Totals, a: set<Path>, b: set<Path>, verdict: Path -> Status)
    requires Reports(t, a, b, verdict, a + b)
    ensures |a - b| + |b - a| <= Tally(t.files, Mismatch)
  {
    var alone := (a - b) + (b - a);
    SubsetTally(t.files, alone);
    assert |alone| == |a - b| + |b - a|;
  }

  lemma {:induction false} SubsetTally(files: seq<FileResult>, some: set<Path>)
    requires forall p | p in some :: exists i :: 0 <= i < |files| && files[i].path == p
    requires forall i | 0 <= i < |files| && files[i].path in some :: files[i].status == Mismatch
    ensures |some| <= Tally(files, Mismatch)
  {
    if files == [] {
      assert some == {};
    } else {
      var front, f := files[..|files| - 1], files[|files| - 1];
      forall p | p in some - {f.path} ensures exists i :: 0 <= i < |front| && front[i].path == p {
        var i :| 0 <= i < |files| && files[i].path == p;
        assert front[i].path == p;
      }
      assert forall i | 0 <= i < |front| :: front[i] == files[i];
      SubsetTally(front, some - {f.path});
    }
  }

  /** The test behind the exit status: nothing mismatched and nothing failed means the same paths, all
      of them judged to match, and only that does. */
  lemma AllMatchIff(t: Totals, a: set<Path>, b: set<Path>, verdict: Path -> Status)
    requires Reports(t, a, b, verdict, a + b)
    ensures t.mismatched == 0 && t.errors == 0 <==> a == b && forall p | p in a :: verdict(p) == Match
  {
    TallyNone(t.files, Mismatch);
    TallyNone(t.files, Error);
    forall p | p in a + b
      ensures exists i :: 0 <= i < |t.files| && t.files[i] == FileResult(p, StatusOf(a, b, verdict, p))
    {
      assert p in Paths(t.files);
      var i :| 0 <= i < |t.files| && Paths(t.files)[i] == p;
      assert t.files[i].path == p;
    }
    forall i | 0 <= i < |t.files| ensures t.files[i].path in a + b { assert Paths(t.files)[i] in Paths(t.files); }
  }

  /** And with the comparison of files behind the verdicts, and no collision between chunks compared: the two
      trees are equal, and every common file could be summed. Equal trees never show a mismatch. */
  lemma AllMatchMeansEqual<R(!new)>(t: Totals, x: Sides<R>)
    requires ValidSides(x) && Reports(t, x.a.Keys, x.b.Keys, Verdicts(x), x.a.Keys + x.b.Keys)
    requires forall p | p in x.a && p in x.b :: NoCollision(x.sum, x.a[p], x.b[p], x.chunk)
    ensures t.mismatched == 0 && t.errors == 0 <==> x.a == x.b && forall p | p in x.a && p in x.b :: Known(x, p)
    ensures x.a == x.b ==> t.mismatched == 0
  {
    AllMatchIff(t, x.a.Keys, x.b.Keys, Verdicts(x));
    forall p | p in x.a && p in x.b
      ensures (Verdicts(x)(p) == Match <==> Known(x, p) && x.a[p] == x.b[p])
      ensures (Verdicts(x)(p) == Mismatch ==> x.a[p] != x.b[p])
    {
      VerdictMeans(x, p);
    }
    if x.a == x.b {
      TallyNone(t.files, Mismatch);
      forall i | 0 <= i < |t.files| ensures t.files[i].status != Mismatch {
        assert Paths(t.files)[i] in Paths(t.files);
      }
    }
  }
}

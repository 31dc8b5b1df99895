/** What a failed differential download leaves, and what the following runs make of it. */
module NextRun {
  import opened Chunks
  import opened DiffPlan
  import DiffDownload
  import DiffDownloadProgress
  import Listings
  import Planner

  /** A local file as the next listing sees it. */
  datatype File = File(data: seq<Byte>, stamp: int)

  /** One run over the path: the object and its time, the checksum answers, the threads, how the download
      ended, the bytes it reported as saved and the time of its last write. */
  datatype Attempt<!R> = Attempt(
    remote: seq<Byte>,
    sourceMtime: int,
    remoteSums: seq<R>,
    localSums: seq<R>,
    workers: nat,
    end: DiffDownload.State,
    saved: nat,
    written: int)

  /** The stamp a listing shows. A cleared one is zero; `written` is the time of the last write. */
  function Shown(m: DiffDownload.Mtime, before: int, written: int): int {
    match m
    case Original => before
    case Now => written
    case Epoch => 0
  }

  function ActionFor<R>(file: File, r: Attempt<R>): Planner.Action {
    Planner.Decide(Planner.Down, |r.remote|, r.sourceMtime, Listings.Stat(|file.data|, file.stamp))
  }

  /** The run carries out its plan: nothing, a full download, which replaces the file or leaves it, or a
      differential one. Clearing a stamp works. */
  ghost predicate Ran<R(!new)>(sum: seq<Byte> -> R, c: int, file: File, r: Attempt<R>)
    requires c > 0
  {
    match ActionFor(file, r)
    case Skip => true
    case DownloadDiff =>
      && r.workers > 0 && !r.end.markFailed && NoCollision(sum, r.remote, file.data, c)
      && (r.remoteSums == [] || r.remoteSums == Sums(sum, r.remote, c))
      && (r.localSums == [] || r.localSums == Sums(sum, file.data, c))
      && DiffDownload.MayReturn(r.remote, file.data, r.remoteSums, r.localSums, c, r.workers, r.end, r.saved)
    case _ =>
      || (r.end.outcome == DiffDownload.Returned(true) && r.end.file == r.remote && r.end.mtime.Now?)
      || (r.end.outcome == DiffDownload.Returned(false) && r.end.file == file.data && r.end.mtime.Original?)
  }

  function Left<R>(file: File, r: Attempt<R>): File {
    if ActionFor(file, r) == Planner.Skip then file
    else File(r.end.file, Shown(r.end.mtime, file.stamp, r.written))
  }

  predicate Succeeded<R>(file: File, r: Attempt<R>) {
    ActionFor(file, r) != Planner.Skip && r.end.outcome == DiffDownload.Returned(true)
  }

  /** A file whose time is unknown to the planner. */
  predicate Marked(file: File) {
    file.stamp <= 0
  }

  /** What one planned and executed transfer leaves: the object, or the file as it was, or a marked file. */
  lemma TransferLeaves<R(!new)>(sum: seq<Byte> -> R, c: int, file: File, r: Attempt<R>)
    requires c > 0 && Ran(sum, c, file, r) && ActionFor(file, r) != Planner.Skip
    ensures r.end.outcome == DiffDownload.Returned(true) ==> Left(file, r).data == r.remote
    ensures r.end.outcome == DiffDownload.Returned(false) ==> Left(file, r) == file || Marked(Left(file, r))
  {
    if ActionFor(file, r) == Planner.DownloadDiff {
      DiffDownload.DownloadIsCorrect(sum, r.remote, file.data, r.remoteSums, r.localSums, c, r.workers, r.end, r.saved);
    }
  }

  /** A damaged file cannot pass for current: the run after a failed one that changed it plans a transfer,
      whatever the object's size and time are by then. */
  lemma DamageIsPlanned<R(!new)>(sum: seq<Byte> -> R, c: int, file: File, first: Attempt<R>, next: Attempt<R>)
    requires c > 0 && Ran(sum, c, file, first) && ActionFor(file, first) != Planner.Skip
    requires first.end.outcome == DiffDownload.Returned(false) && first.end.file != file.data
    ensures Marked(Left(file, first))
    ensures ActionFor(Left(file, first), next) == Planner.Transfer(Planner.Down, |next.remote|)
    ensures ActionFor(Left(file, first), next) != Planner.Skip
  {
    TransferLeaves(sum, c, file, first);
    MarkedIsTransferred(Left(file, first), next);
  }

  lemma MarkedIsTransferred<R>(file: File, r: Attempt<R>)
    requires Marked(file)
    ensures ActionFor(file, r) == Planner.Transfer(Planner.Down, |r.remote|) != Planner.Skip
  {
    Planner.UnknownTimeIsTransferred(Planner.Down, |r.remote|, r.sourceMtime, Listings.Stat(|file.data|, file.stamp));
  }

  // ---- Any number of runs ----

  ghost function FileAfter<R>(file: File, runs: seq<Attempt<R>>): File {
    if runs == [] then file else Left(FileAfter(file, runs[..|runs| - 1]), runs[|runs| - 1])
  }

  ghost predicate AllRan<R(!new)>(sum: seq<Byte> -> R, c: int, file: File, runs: seq<Attempt<R>>)
    requires c > 0
  {
    forall i | 0 <= i < |runs| :: Ran(sum, c, FileAfter(file, runs[..i]), runs[i])
  }

  /** Until a run succeeds, a marked file stays marked, so that every run transfers it. */
  lemma {:induction false} MarkedUntilRepaired<R(!new)>(sum: seq<Byte> -> R, c: int, file: File, runs: seq<Attempt<R>>)
    requires c > 0 && Marked(file) && AllRan(sum, c, file, runs)
    requires forall i | 0 <= i < |runs| :: runs[i].end.outcome == DiffDownload.Returned(false)
    ensures Marked(FileAfter(file, runs))
  {
    if runs != [] {
      var n := |runs| - 1;
      forall i | 0 <= i < n ensures Ran(sum, c, FileAfter(file, runs[..n][..i]), runs[..n][i]) {
        assert runs[..n][..i] == runs[..i];
      }
      MarkedUntilRepaired(sum, c, file, runs[..n]);
      MarkedIsTransferred(FileAfter(file, runs[..n]), runs[n]);
      TransferLeaves(sum, c, FileAfter(file, runs[..n]), runs[n]);
    }
  }

  /** Damage is repaired: after a failed run that changed the file, and any number of further failures, the
      next run transfers the path again, and if it returns true the file is its object. */
  lemma DamageIsRepaired<R(!new)>(sum: seq<Byte> -> R, c: int, file: File, first: Attempt<R>, failures: seq<Attempt<R>>,
                                  last: Attempt<R>)
    requires c > 0 && Ran(sum, c, file, first) && ActionFor(file, first) != Planner.Skip
    requires first.end.outcome == DiffDownload.Returned(false) && first.end.file != file.data
    requires AllRan(sum, c, Left(file, first), failures)
    requires forall i | 0 <= i < |failures| :: failures[i].end.outcome == DiffDownload.Returned(false)
    requires Ran(sum, c, FileAfter(Left(file, first), failures), last)
    ensures var before := FileAfter(Left(file, first), failures);
            && ActionFor(before, last) == Planner.Transfer(Planner.Down, |last.remote|) != Planner.Skip
            && (Succeeded(before, last) ==> Left(before, last).data == last.remote)
            && (!Succeeded(before, last) && last.end.outcome.Returned? ==> Marked(Left(before, last)))
  {
    DamageIsPlanned(sum, c, file, first, last);
    MarkedUntilRepaired(sum, c, Left(file, first), failures);
    var before := FileAfter(Left(file, first), failures);
    MarkedIsTransferred(before, last);
    TransferLeaves(sum, c, before, last);
  }

  /** And a successful end exists from whatever state the earlier runs left: the differential download of a
      marked file can always return true, over the object's bytes. */
  lemma RepairIsPossible<R(!new)>(sum: seq<Byte> -> R, c: int, file: File, remote: seq<Byte>, remoteSums: seq<R>,
                                  localSums: seq<R>, workers: nat)
    returns (end: DiffDownload.State, saved: nat)
    requires c > 0 && workers > 0 && NoCollision(sum, remote, file.data, c)
    requires remoteSums == [] || remoteSums == Sums(sum, remote, c)
    requires localSums == [] || localSums == Sums(sum, file.data, c)
    ensures DiffDownload.MayReturn(remote, file.data, remoteSums, localSums, c, workers, end, saved)
    ensures end.outcome == DiffDownload.Returned(true) && end.file == remote
  {
    var idle := DiffDownload.State(remote, DiffDownload.Original, false, false, false, false, 0, [], [], 0,
        DiffDownload.Returned(true));
    saved := 0;
    if remoteSums != [] && localSums == [] {
      assert !SameFlags(remoteSums, localSums)[0];
    }
    match DiffDownload.PlanOf(remoteSums, localSums, |remote|, |file.data|, c)
    case FullDownload => end := idle.(transferred := |remote|);
    case AlreadyCurrent =>
      if localSums != [] { AllFlaggedMeansEqual(sum, remote, file.data, c); }
      end := idle;
    case Patch(same, work, kept) =>
      DiffDownload.PlanIsSound(sum, remote, file.data, c, workers);
      var run := DiffDownloadProgress.SuccessIsPossible(DiffDownload.Config(remote, file.data, c, same, work, workers));
      end, saved := run[|run| - 1], kept;
  }
}

/** Differential download: workers claim changed chunks and patch the local file in place. */
module DiffDownload {
  import opened Runs
  import opened Chunks
  import opened DiffPlan
  import opened Limits

  datatype Mtime = Original | Now | Epoch

  datatype Config = Config(
    remote: seq<Byte>,       // the remote object, stable during the run
    local: seq<Byte>,        // the local file before the run
    chunk: int,
    same: seq<bool>,         // per chunk of the object: the checksums agreed
    work: seq<nat>,          // the other chunks, in order
    workers: nat)

  /** Where a worker is. `attempt` counts fetches of the claimed chunk; `at` counts bytes of it
      that have reached the file. Flagging is between a `pwrite` and the store to `wrote_any`. */
  datatype Worker =
    | Head | Claiming | Exited
    | Fetching(idx: nat, attempt: nat)
    | Writing(idx: nat, attempt: nat, at: nat)
    | Flagging(idx: nat, attempt: nat, at: nat)
    | Failing(idx: nat)

  datatype Outcome = Running | Returned(ok: bool)

  datatype State = State(
    file: seq<Byte>,
    mtime: Mtime,
    markFailed: bool,
    wroteAny: bool,
    failed: bool,            // download_failed
    cancelled: bool,
    next: nat,               // next_chunk_idx
    workers: seq<Worker>,
    have: seq<bool>,         // per chunk: known to be in place
    transferred: nat,
    outcome: Outcome)

  ghost predicate InPlace(c: Config, file: seq<Byte>, i: nat)
    requires c.chunk > 0
  {
    forall k | Lo(c.chunk, i) <= k < Hi(|c.remote|, c.chunk, i) :: k < |file| && file[k] == c.remote[k]
  }

  /** What planning establishes: `same` is exactly the set of chunks already in place, and
      `work` lists the others once each. */
  ghost predicate Planned(c: Config) {
    && c.chunk > 0
    && |c.same| == ChunkCount(|c.remote|, c.chunk)
    && (forall i: nat | i < |c.same| && c.same[i] :: InPlace(c, c.local, i))
    && (forall x | 0 <= x < |c.work| :: c.work[x] < |c.same| && !c.same[c.work[x]])
    && (forall x, y | 0 <= x < y < |c.work| :: c.work[x] < c.work[y])
    && (forall i | 0 <= i < |c.same| && !c.same[i] :: i in c.work)
  }

  function Saved(c: Config): nat
    requires Planned(c)
  {
    Credit(|c.remote|, c.chunk, c.same)
  }

  ghost predicate Init(c: Config, s: State) {
    && Planned(c)
    && s == State(c.local, Original, false, false, false, false, 0, seq(c.workers, _ => Head), c.same, 0, Running)
  }

  function Length(c: Config, idx: nat): nat
    requires Planned(c) && idx < |c.work|
  {
    |Chunk(c.remote, c.chunk, c.work[idx])|
  }

  /** `pwrite` at an offset: overwrite, extend, and fill any hole with zeros. */
  function Splice(file: seq<Byte>, p: nat, data: seq<Byte>): (r: seq<Byte>)
    ensures |r| == Max(|file|, p + |data|)
    ensures forall k | p <= k < p + |data| :: r[k] == data[k - p]
    ensures forall k | 0 <= k < |file| && !(p <= k < p + |data|) :: r[k] == file[k]
  {
    seq(Max(|file|, p + |data|), k requires 0 <= k =>
      if p <= k < p + |data| then data[k - p] else if k < |file| then file[k] else 0)
  }

  datatype Action =
    | Enter(w: nat) | Leave(w: nat) | Claim(w: nat)
    | Fetch(w: nat) | FetchFails(w: nat) | Throw(w: nat) | GiveUp(w: nat)
    | Pwrite(w: nat, n: nat) | PwriteFails(w: nat) | SetFlag(w: nat) | Complete(w: nat) | Fail(w: nat)
    | Cancel
    | ReturnUntouched | ReturnPatched(marked: bool) | Truncate(truncated: bool, marked: bool) | ReturnDone

  predicate IsWorkerAction(a: Action) {
    !a.Cancel? && !a.ReturnUntouched? && !a.ReturnPatched? && !a.Truncate? && !a.ReturnDone?
  }

  predicate Stopping(s: State) { s.cancelled || s.failed }

  predicate Joined(s: State) {
    s.outcome.Running? && forall w | 0 <= w < |s.workers| :: s.workers[w].Exited?
  }

  ghost predicate WorkerEnabled(c: Config, s: State, k: Worker, a: Action)
    requires Planned(c)
  {
    match a
    case Enter(_) => k.Head? && !Stopping(s)
    case Leave(_) => k.Head? && Stopping(s)
    case Claim(_) => k.Claiming?
    case Fetch(_) => k.Fetching? && k.attempt <= MaxRetries && !Stopping(s)
    case FetchFails(_) => k.Fetching? && k.attempt <= MaxRetries && !Stopping(s)
    case Throw(_) => k.Fetching? && k.attempt <= MaxRetries && !Stopping(s)
    case GiveUp(_) => k.Fetching? && (k.attempt > MaxRetries || Stopping(s))
    case Pwrite(_, n) => k.Writing? && k.idx < |c.work| && 0 < n && k.at + n <= Length(c, k.idx)
    case PwriteFails(_) => k.Writing? && k.idx < |c.work| && k.at < Length(c, k.idx)
    case SetFlag(_) => k.Flagging?
    case Complete(_) => k.Writing? && k.idx < |c.work| && k.at == Length(c, k.idx)
    case Fail(_) => k.Failing?
    case _ => false
  }

  function WorkerAfter(c: Config, s: State, k: Worker, a: Action): Worker
    requires Planned(c) && WorkerEnabled(c, s, k, a)
  {
    match a
    case Enter(_) => Claiming
    case Leave(_) => Exited
    case Claim(_) => if s.next < |c.work| then Fetching(s.next, 0) else Exited
    case Fetch(_) => Writing(k.idx, k.attempt, 0)
    case FetchFails(_) => Fetching(k.idx, k.attempt + 1)
    case Throw(_) => Exited
    case GiveUp(_) => Failing(k.idx)
    case Pwrite(_, n) => Flagging(k.idx, k.attempt, k.at + n)
    case PwriteFails(_) => Fetching(k.idx, k.attempt + 1)
    case SetFlag(_) => Writing(k.idx, k.attempt, k.at)
    case Complete(_) => Head
    case Fail(_) => Head
  }

  /** What one step of worker `a.w` makes of the state. The bytes a fetch delivers are the chunk's, so a
      `pwrite` puts bytes of the object where the object has them. */
  ghost function WorkerNext(c: Config, s: State, a: Action): State
    requires Planned(c) && IsWorkerAction(a) && a.w < |s.workers| && WorkerEnabled(c, s, s.workers[a.w], a)
  {
    var k := s.workers[a.w];
    s.(workers := s.workers[a.w := WorkerAfter(c, s, k, a)],
       next := if a.Claim? then s.next + 1 else s.next,
       failed := s.failed || a.Throw? || (a.Fail? && !s.cancelled),
       wroteAny := s.wroteAny || a.SetFlag?,
       mtime := if a.Pwrite? then Now else s.mtime,
       file := if a.Pwrite? then Patched(c, s.file, k, a.n) else s.file,
       have := if a.Complete? && c.work[k.idx] < |s.have| then s.have[c.work[k.idx] := true] else s.have,
       transferred := if a.Complete? then s.transferred + Length(c, k.idx) else s.transferred)
  }

  ghost predicate WorkerStep(c: Config, s: State, t: State, a: Action)
    requires Planned(c)
  {
    && IsWorkerAction(a) && s.outcome.Running? && a.w < |s.workers|
    && WorkerEnabled(c, s, s.workers[a.w], a)
    && t == WorkerNext(c, s, a)
  }

  function Patched(c: Config, file: seq<Byte>, k: Worker, n: nat): seq<Byte>
    requires Planned(c) && k.Writing? && k.idx < |c.work| && k.at + n <= Length(c, k.idx)
  {
    var chunk := Chunk(c.remote, c.chunk, c.work[k.idx]);
    Splice(file, Lo(c.chunk, c.work[k.idx]) + k.at, chunk[k.at..k.at + n])
  }

  /** A failure return: an untouched file keeps its stamp, a patched one has it cleared if that works. */
  ghost predicate FailReturn(s: State, t: State, marked: bool) {
    t == s.(outcome := Returned(false),
            mtime := if s.wroteAny && marked then Epoch else s.mtime,
            markFailed := s.wroteAny && !marked)
  }

  ghost predicate Step(c: Config, s: State, t: State, a: Action)
    requires Planned(c)
  {
    match a
    case Cancel => s.outcome.Running? && !s.cancelled && t == s.(cancelled := true)
    case ReturnUntouched => Joined(s) && Stopping(s) && !s.wroteAny && FailReturn(s, t, false)
    case ReturnPatched(marked) => Joined(s) && Stopping(s) && s.wroteAny && FailReturn(s, t, marked)
    case Truncate(truncated, marked) =>
      && Joined(s) && !Stopping(s) && |c.remote| < |c.local|
      && if truncated
         then t == s.(file := s.file[..Min(|c.remote|, |s.file|)], mtime := Now, outcome := Returned(true))
         else FailReturn(s, t, marked)
    case ReturnDone => Joined(s) && !Stopping(s) && |c.remote| >= |c.local| && t == s.(outcome := Returned(true))
    case _ => WorkerStep(c, s, t, a)
  }

  ghost predicate Next(c: Config, s: State, t: State) {
    Planned(c) && exists a :: Step(c, s, t, a)
  }

  // ---- What every step keeps ----

  /** The chunk a worker holds, or none. */
  predicate Holds(k: Worker, idx: nat) {
    (k.Fetching? || k.Writing? || k.Flagging? || k.Failing?) && k.idx == idx
  }

  ghost predicate Shape(c: Config, s: State) {
    && Planned(c)
    && |s.have| == |c.same| && |s.workers| == c.workers
    && (forall w, idx: nat | 0 <= w < |s.workers| && Holds(s.workers[w], idx) :: idx < |c.work| && idx < s.next)
    && (s.outcome.Running? ==> |c.local| <= |s.file| <= Max(|c.local|, |c.remote|))
  }

  /** Bytes on record as in place are in place. */
  ghost predicate HaveInPlace(c: Config, s: State) {
    Shape(c, s) && s.outcome.Running? ==> forall i: nat | i < |s.have| && s.have[i] :: InPlace(c, s.file, i)
  }

  /** What a worker has written so far is in place. */
  ghost predicate WrittenInPlace(c: Config, s: State) {
    Shape(c, s) && s.outcome.Running? ==>
      forall w | 0 <= w < |s.workers| && (s.workers[w].Writing? || s.workers[w].Flagging?) ::
        PartInPlace(c, s.file, s.workers[w])
  }

  ghost predicate PartInPlace(c: Config, file: seq<Byte>, k: Worker)
    requires Planned(c) && (k.Writing? || k.Flagging?)
  {
    && k.idx < |c.work| && k.at <= Length(c, k.idx)
    && forall p | Lo(c.chunk, c.work[k.idx]) <= p < Lo(c.chunk, c.work[k.idx]) + k.at ::
         p < |file| && p < |c.remote| && file[p] == c.remote[p]
  }

  /** A claimed chunk has one owner. */
  ghost predicate OneOwner(c: Config, s: State) {
    forall v, w, idx: nat | 0 <= v < |s.workers| && 0 <= w < |s.workers| && Holds(s.workers[v], idx)
        && Holds(s.workers[w], idx) :: v == w
  }

  /** A chunk with an owner, or not yet claimed, is not on record as in place. */
  ghost predicate Pending(c: Config, s: State) {
    && Shape(c, s)
    && (forall w, idx: nat | 0 <= w < |s.workers| && Holds(s.workers[w], idx) :: !s.have[c.work[idx]])
    && (forall idx: nat | s.next <= idx < |c.work| :: !s.have[c.work[idx]])
  }

  /** Unless the run is stopping, every claimed chunk is in place or has an owner. */
  ghost predicate Accounted(c: Config, s: State) {
    && Shape(c, s)
    && (forall i | 0 <= i < |s.have| && c.same[i] :: s.have[i])
    && (!Stopping(s) ==>
          && (forall idx: nat | 0 <= idx < |c.work| && idx < s.next ::
                s.have[c.work[idx]] || exists w :: 0 <= w < |s.workers| && Holds(s.workers[w], idx))
          && (forall w | 0 <= w < |s.workers| && s.workers[w].Exited? :: s.next >= |c.work|))
  }

  /** Only a worker about to raise `wrote_any` can have touched the file without it being up. */
  ghost predicate Admitted(c: Config, s: State) {
    (s.file == c.local && s.mtime.Original?) || s.wroteAny || exists w :: 0 <= w < |s.workers| && s.workers[w].Flagging?
  }

  ghost predicate Balanced(c: Config, s: State) {
    Shape(c, s) && s.transferred + Saved(c) == Credit(|c.remote|, c.chunk, s.have)
  }

  // ---- Step lemmas ----

  /** A patch puts bytes of the object in their places and leaves the others alone. */
  lemma PatchedBytes(c: Config, file: seq<Byte>, k: Worker, n: nat)
    requires Planned(c) && k.Writing? && k.idx < |c.work| && k.at + n <= Length(c, k.idx)
    ensures var r := Patched(c, file, k, n); var p0 := Lo(c.chunk, c.work[k.idx]) + k.at;
            && p0 + n <= |c.remote| && |r| == Max(|file|, p0 + n)
            && (forall p | p0 <= p < p0 + n :: r[p] == c.remote[p])
            && (forall p | 0 <= p < |file| && !(p0 <= p < p0 + n) :: r[p] == file[p])
  {
    ChunkBounds(|c.remote|, c.chunk, c.work[k.idx]);
    var lo := Lo(c.chunk, c.work[k.idx]);
    var chunk := Chunk(c.remote, c.chunk, c.work[k.idx]);
    var r := Patched(c, file, k, n);
    forall p | lo + k.at <= p < lo + k.at + n ensures r[p] == c.remote[p] {
      assert r[p] == chunk[k.at..k.at + n][p - (lo + k.at)];
    }
  }

  /** What is in place stays in place under a patch. */
  lemma PatchKeeps(c: Config, file: seq<Byte>, k: Worker, n: nat)
    requires Planned(c) && k.Writing? && k.idx < |c.work| && k.at + n <= Length(c, k.idx)
    ensures forall p | 0 <= p < |file| && p < |c.remote| && file[p] == c.remote[p] ::
              p < |Patched(c, file, k, n)| && Patched(c, file, k, n)[p] == c.remote[p]
  {
    PatchedBytes(c, file, k, n);
  }

  lemma ShapeStep(c: Config, s: State, t: State, a: Action)
    requires Shape(c, s) && Step(c, s, t, a)
    ensures Shape(c, t)
  {
    if IsWorkerAction(a) {
      if a.Pwrite? { PatchedBytes(c, s.file, s.workers[a.w], a.n); }
      forall w, idx: nat | 0 <= w < |t.workers| && Holds(t.workers[w], idx) ensures idx < |c.work| && idx < t.next {
        HoldsAfterStep(c, s, t, a, w, idx);
      }
    }
  }

  lemma PatchInPlace(c: Config, file: seq<Byte>, k: Worker, n: nat, i: nat)
    requires Planned(c) && k.Writing? && k.idx < |c.work| && k.at + n <= Length(c, k.idx) && i < |c.same|
    requires InPlace(c, file, i)
    ensures InPlace(c, Patched(c, file, k, n), i)
  {
    ChunkBounds(|c.remote|, c.chunk, i);
    PatchKeeps(c, file, k, n);
  }

  lemma HavePwrite(c: Config, s: State, t: State, a: Action)
    requires Shape(c, s) && HaveInPlace(c, s) && WorkerStep(c, s, t, a) && a.Pwrite? && Shape(c, t)
    ensures HaveInPlace(c, t)
  {
    forall i: nat | i < |t.have| && t.have[i] ensures InPlace(c, t.file, i) {
      assert s.have[i] && InPlace(c, s.file, i);
      PatchInPlace(c, s.file, s.workers[a.w], a.n, i);
    }
  }

  lemma HaveComplete(c: Config, s: State, t: State, a: Action)
    requires Shape(c, s) && HaveInPlace(c, s) && WrittenInPlace(c, s) && WorkerStep(c, s, t, a) && a.Complete?
    requires Shape(c, t)
    ensures HaveInPlace(c, t)
  {
    var k := s.workers[a.w];
    assert PartInPlace(c, s.file, k);
    ChunkBounds(|c.remote|, c.chunk, c.work[k.idx]);
    assert InPlace(c, t.file, c.work[k.idx]);
    forall i: nat | i < |t.have| && t.have[i] ensures InPlace(c, t.file, i) {
      if i != c.work[k.idx] { assert s.have[i]; }
    }
  }

  lemma HaveStep(c: Config, s: State, t: State, a: Action)
    requires Shape(c, s) && HaveInPlace(c, s) && WrittenInPlace(c, s) && Step(c, s, t, a)
    ensures HaveInPlace(c, t)
  {
    ShapeStep(c, s, t, a);
    if a.Pwrite? {
      HavePwrite(c, s, t, a);
    } else if a.Complete? {
      HaveComplete(c, s, t, a);
    } else if t.outcome.Running? {
      assert t.file == s.file && t.have == s.have;
    }
  }

  lemma PartKept(c: Config, s: State, t: State, a: Action, v: nat)
    requires Shape(c, s) && WorkerStep(c, s, t, a) && v < |s.workers|
    requires s.workers[v].Writing? || s.workers[v].Flagging?
    requires PartInPlace(c, s.file, s.workers[v])
    ensures PartInPlace(c, t.file, s.workers[v])
  {
    if a.Pwrite? { PatchKeeps(c, s.file, s.workers[a.w], a.n); }
  }

  lemma PartAfter(c: Config, s: State, t: State, a: Action)
    requires Shape(c, s) && WrittenInPlace(c, s) && WorkerStep(c, s, t, a)
    requires t.workers[a.w].Writing? || t.workers[a.w].Flagging?
    ensures PartInPlace(c, t.file, t.workers[a.w])
  {
    var k := s.workers[a.w];
    if a.Fetch? {
      assert Holds(k, k.idx);
    } else {
      assert PartInPlace(c, s.file, k);
      PartKept(c, s, t, a, a.w);
      if a.Pwrite? { PatchedBytes(c, s.file, k, a.n); }
    }
  }

  lemma WrittenStep(c: Config, s: State, t: State, a: Action)
    requires Shape(c, s) && WrittenInPlace(c, s) && Step(c, s, t, a)
    ensures WrittenInPlace(c, t)
  {
    if IsWorkerAction(a) {
      forall v | 0 <= v < |t.workers| && (t.workers[v].Writing? || t.workers[v].Flagging?)
        ensures PartInPlace(c, t.file, t.workers[v])
      {
        if v == a.w { PartAfter(c, s, t, a); } else { PartKept(c, s, t, a, v); }
      }
    }
  }

  /** A worker step changes what it holds only by claiming the next index or letting go. */
  lemma HoldsAfter(c: Config, s: State, k: Worker, a: Action, idx: nat)
    requires Planned(c) && WorkerEnabled(c, s, k, a) && Holds(WorkerAfter(c, s, k, a), idx)
    ensures Holds(k, idx) || (a.Claim? && idx == s.next)
  {}

  lemma OneOwnerStep(c: Config, s: State, t: State, a: Action)
    requires Shape(c, s) && OneOwner(c, s) && Step(c, s, t, a)
    ensures OneOwner(c, t)
  {
    if IsWorkerAction(a) {
      forall v, w, idx: nat | 0 <= v < |t.workers| && 0 <= w < |t.workers| && Holds(t.workers[v], idx)
          && Holds(t.workers[w], idx)
        ensures v == w
      {
        HoldsAfterStep(c, s, t, a, v, idx);
        HoldsAfterStep(c, s, t, a, w, idx);
      }
    }
  }

  lemma HoldsAfterStep(c: Config, s: State, t: State, a: Action, w: nat, idx: nat)
    requires Planned(c) && WorkerStep(c, s, t, a) && w < |t.workers| && Holds(t.workers[w], idx)
    ensures Holds(s.workers[w], idx) || (w == a.w && a.Claim? && idx == s.next)
  {
    if w == a.w { HoldsAfter(c, s, s.workers[w], a, idx); }
  }

  lemma WorkDistinct(c: Config, x: nat, y: nat)
    requires Planned(c) && x < |c.work| && y < |c.work| && x != y
    ensures c.work[x] != c.work[y]
  {
    if x < y { assert c.work[x] < c.work[y]; } else { assert c.work[y] < c.work[x]; }
  }

  lemma StaysPending(c: Config, s: State, t: State, a: Action, idx: nat)
    requires Shape(c, s) && WorkerStep(c, s, t, a) && idx < |c.work| && !s.have[c.work[idx]]
    requires !Holds(s.workers[a.w], idx)
    ensures |t.have| == |s.have| && !t.have[c.work[idx]]
  {
    if a.Complete? { WorkDistinct(c, idx, s.workers[a.w].idx); }
  }

  lemma PendingStep(c: Config, s: State, t: State, a: Action)
    requires OneOwner(c, s) && Pending(c, s) && Step(c, s, t, a) && Shape(c, t)
    ensures Pending(c, t)
  {
    if IsWorkerAction(a) {
      forall w, idx: nat | 0 <= w < |t.workers| && Holds(t.workers[w], idx) ensures !t.have[c.work[idx]] {
        HoldsAfterStep(c, s, t, a, w, idx);
        if w != a.w { StaysPending(c, s, t, a, idx); }
      }
      forall idx: nat | t.next <= idx < |c.work| ensures !t.have[c.work[idx]] {
        StaysPending(c, s, t, a, idx);
      }
    }
  }

  /** While nothing is stopping, a claimed index is on record or still held. */
  lemma AccountedIndex(c: Config, s: State, t: State, a: Action, idx: nat) returns (w: nat)
    requires Accounted(c, s) && WorkerStep(c, s, t, a) && !Stopping(t) && Shape(c, t)
    requires idx < |c.work| && idx < t.next
    ensures t.have[c.work[idx]] || (w < |t.workers| && Holds(t.workers[w], idx))
  {
    w := a.w;
    if idx < s.next && !s.have[c.work[idx]] {
      w :| 0 <= w < |s.workers| && Holds(s.workers[w], idx);
    }
  }

  lemma ExitedAccounted(c: Config, s: State, t: State, a: Action, w: nat)
    requires Accounted(c, s) && WorkerStep(c, s, t, a) && !Stopping(t) && w < |t.workers| && t.workers[w].Exited?
    ensures t.next >= |c.work|
  {
    if w != a.w { assert s.workers[w].Exited?; }
  }

  lemma AccountedStep(c: Config, s: State, t: State, a: Action)
    requires Accounted(c, s) && Step(c, s, t, a) && Shape(c, t)
    ensures Accounted(c, t)
  {
    if IsWorkerAction(a) {
      assert forall i | 0 <= i < |s.have| && s.have[i] :: t.have[i];
      if !Stopping(t) {
        forall idx: nat | idx < |c.work| && idx < t.next
          ensures t.have[c.work[idx]] || exists w :: 0 <= w < |t.workers| && Holds(t.workers[w], idx)
        {
          var w := AccountedIndex(c, s, t, a, idx);
        }
        forall w | 0 <= w < |t.workers| && t.workers[w].Exited?
          ensures t.next >= |c.work|
        {
          ExitedAccounted(c, s, t, a, w);
        }
      }
    }
  }

  lemma FlagStays(c: Config, s: State, t: State, a: Action, w: nat)
    requires Shape(c, s) && !a.SetFlag? && WorkerStep(c, s, t, a) && w < |s.workers| && s.workers[w].Flagging?
    ensures w < |t.workers| && t.workers[w].Flagging?
  {
    assert w != a.w;
  }

  lemma AdmittedStep(c: Config, s: State, t: State, a: Action)
    requires Shape(c, s) && (s.outcome.Running? ==> Admitted(c, s)) && Step(c, s, t, a)
    ensures t.outcome.Running? ==> Admitted(c, t)
  {
    if t.outcome.Running? && IsWorkerAction(a) {
      if a.Pwrite? {
        assert t.workers[a.w].Flagging?;
      } else if !a.SetFlag? && !(s.file == c.local && s.mtime.Original?) && !s.wroteAny {
        var w :| 0 <= w < |s.workers| && s.workers[w].Flagging?;
        FlagStays(c, s, t, a, w);
      }
    }
  }

  lemma BalancedStep(c: Config, s: State, t: State, a: Action)
    requires Pending(c, s) && Balanced(c, s) && Step(c, s, t, a) && Shape(c, t)
    ensures Balanced(c, t)
  {
    if a.Complete? {
      assert Holds(s.workers[a.w], s.workers[a.w].idx);
      CreditSet(|c.remote|, c.chunk, s.have, c.work[s.workers[a.w].idx]);
    }
  }

  // ---- Runs ----

  /** What the caller may rely on when the function has returned. */
  ghost predicate Verdict(c: Config, s: State)
    requires Planned(c)
  {
    match s.outcome
    case Running => true
    case Returned(true) => s.file == c.remote && s.transferred + Saved(c) == |c.remote|
    case Returned(false) => (s.file == c.local && s.mtime.Original?) || s.mtime.Epoch? || s.markFailed
  }

  ghost predicate FileInv(c: Config, s: State) {
    && HaveInPlace(c, s) && WrittenInPlace(c, s) && (s.outcome.Running? ==> Admitted(c, s))
  }

  ghost predicate ClaimInv(c: Config, s: State) {
    OneOwner(c, s) && Pending(c, s) && Accounted(c, s) && Balanced(c, s)
  }

  ghost predicate Inv(c: Config, s: State) {
    && Shape(c, s) && FileInv(c, s) && ClaimInv(c, s) && Verdict(c, s)
  }

  /** Enough workers: at least one whenever there is a chunk to fetch. */
  predicate Staffed(c: Config) { c.work == [] || c.workers > 0 }

  /** Once every worker has left and nothing went wrong, every chunk is on record. */
  lemma AllOnRecord(c: Config, s: State)
    requires Accounted(c, s) && Staffed(c) && Joined(s) && !Stopping(s)
    ensures forall i | 0 <= i < |s.have| :: s.have[i]
  {
    assert c.workers > 0 ==> s.workers[0].Exited?;
    forall i | 0 <= i < |s.have| ensures s.have[i] {
      if !c.same[i] {
        assert i in c.work;
        var idx :| 0 <= idx < |c.work| && c.work[idx] == i;
        assert idx < s.next;
      }
    }
  }

  lemma InPlaceAt(c: Config, file: seq<Byte>, i: nat, p: nat)
    requires c.chunk > 0 && InPlace(c, file, i) && Lo(c.chunk, i) <= p < Hi(|c.remote|, c.chunk, i)
    ensures p < |c.remote| && p < |file| && file[p] == c.remote[p]
  {
    var b := c.remote[p];
  }

  lemma FileIsComplete(c: Config, file: seq<Byte>)
    requires Planned(c) && forall i: nat | i < |c.same| :: InPlace(c, file, i)
    ensures |file| >= |c.remote| && file[..|c.remote|] == c.remote
  {
    forall p | 0 <= p < |c.remote| ensures p < |file| && file[p] == c.remote[p] {
      ChunkOf(|c.remote|, c.chunk, p);
      InPlaceAt(c, file, p / c.chunk, p);
    }
    if c.remote != [] {
      var last := |c.remote| - 1;
      assert last < |file| && file[last] == c.remote[last];
    }
  }

  lemma Paid(c: Config, s: State)
    requires Planned(c) && Balanced(c, s) && forall i | 0 <= i < |s.have| :: s.have[i]
    ensures s.transferred + Saved(c) == |c.remote|
  {
    CreditAll(|c.remote|, c.chunk, s.have);
  }

  lemma ReturnStep(c: Config, s: State, t: State, a: Action)
    requires Inv(c, s) && Staffed(c) && Step(c, s, t, a)
    ensures Verdict(c, t)
  {
    if a.Truncate? || a.ReturnDone? {
      AllOnRecord(c, s);
      FileIsComplete(c, s.file);
      Paid(c, s);
    }
  }

  lemma FileStep(c: Config, s: State, t: State, a: Action)
    requires Shape(c, s) && FileInv(c, s) && Step(c, s, t, a)
    ensures FileInv(c, t)
  {
    HaveStep(c, s, t, a);
    WrittenStep(c, s, t, a);
    AdmittedStep(c, s, t, a);
  }

  lemma ClaimStep(c: Config, s: State, t: State, a: Action)
    requires Shape(c, s) && ClaimInv(c, s) && Step(c, s, t, a) && Shape(c, t)
    ensures ClaimInv(c, t)
  {
    OneOwnerStep(c, s, t, a);
    PendingStep(c, s, t, a);
    AccountedStep(c, s, t, a);
    BalancedStep(c, s, t, a);
  }

  lemma StepKeepsInv(c: Config, s: State, t: State)
    requires Inv(c, s) && Staffed(c) && Next(c, s, t)
    ensures Inv(c, t)
  {
    var a :| Step(c, s, t, a);
    ShapeStep(c, s, t, a);
    FileStep(c, s, t, a);
    ClaimStep(c, s, t, a);
    ReturnStep(c, s, t, a);
  }

  lemma InitInv(c: Config, s: State)
    requires Init(c, s)
    ensures Inv(c, s)
  {}

  ghost predicate IsRunOf(c: Config, run: seq<State>) {
    IsRun(s => Init(c, s), (s, t) => Next(c, s, t), run)
  }

  /** Under every interleaving, with any failures, retries, partial writes and cancellation:
      a return of true means the file is the object and every byte of it was either transferred
      or saved; a return of false means the file was not touched, or its stamp was cleared, or
      clearing it was reported to have failed. */
  lemma EveryRunIsCorrect(c: Config, run: seq<State>)
    requires Staffed(c) && Planned(c) && IsRunOf(c, run)
    ensures forall i | 0 <= i < |run| :: Verdict(c, run[i])
  {
    forall s | Init(c, s) ensures Inv(c, s) { InitInv(c, s); }
    forall s, t | Inv(c, s) && Next(c, s, t) ensures Inv(c, t) { StepKeepsInv(c, s, t); }
    Invariance(s => Init(c, s), (s, t) => Next(c, s, t), s => Inv(c, s), run);
    forall i | 0 <= i < |run| ensures Verdict(c, run[i]) { assert Inv(c, run[i]); }
  }

  /** A stamp is cleared only where a write was made: whoever has written, or says so, has changed the time. */
  ghost predicate WritesShow(s: State) {
    s.outcome.Running? ==>
      && !s.mtime.Epoch? && !s.markFailed
      && (s.wroteAny || (exists w :: 0 <= w < |s.workers| && s.workers[w].Flagging?) ==> s.mtime.Now?)
  }

  lemma WritesShowStep(c: Config, s: State, t: State, a: Action)
    requires Planned(c) && WritesShow(s) && Step(c, s, t, a)
    ensures WritesShow(t)
  {
    if IsWorkerAction(a) {
      if w :| 0 <= w < |t.workers| && t.workers[w].Flagging? {
        if w != a.w { assert s.workers[w].Flagging?; }
      }
    }
  }

  /** A failed run marks, or fails to mark, only a file it has written to: in any other the time is the original. */
  lemma OnlyWrittenIsMarked(c: Config, run: seq<State>, i: nat)
    requires Planned(c) && IsRunOf(c, run) && 0 < i < |run| && run[i].outcome == Returned(false)
    requires run[i - 1].outcome.Running?
    ensures run[i].mtime.Epoch? || run[i].markFailed <==> run[i - 1].wroteAny
    ensures run[i - 1].wroteAny ==> run[i - 1].mtime.Now?
  {
    forall s | Init(c, s) ensures WritesShow(s) {}
    forall s, t | WritesShow(s) && Next(c, s, t) ensures WritesShow(t) {
      var a :| Step(c, s, t, a);
      WritesShowStep(c, s, t, a);
    }
    Invariance(s => Init(c, s), (s, t) => Next(c, s, t), s => WritesShow(s), run);
    assert Next(c, run[i - 1], run[i]);
  }

  /** After a failure or a cancellation no fetch begins any more: only what was fetched before is still written. */
  lemma StoppingWindsDown(c: Config, s: State, t: State, a: Action, w: nat)
    requires Planned(c) && Stopping(s) && Step(c, s, t, a) && w < |s.workers|
    ensures Stopping(t) && |t.workers| == |s.workers|
    ensures t.workers[w].Writing? || t.workers[w].Flagging? ==> s.workers[w].Writing? || s.workers[w].Flagging?
  {}

  // ---- The worker count ----

  /** With no worker at all the join is immediate, and the function returns true over a file it
      never patched. */
  lemma UnstaffedRun(c: Config) returns (run: seq<State>)
    requires Planned(c) && c.workers == 0
    requires exists x :: 0 <= x < |c.work| && !InPlace(c, c.local, c.work[x])
    ensures IsRunOf(c, run) && run[|run| - 1].outcome == Returned(true) && !Verdict(c, run[|run| - 1])
  {
    var x :| 0 <= x < |c.work| && !InPlace(c, c.local, c.work[x]);
    var s := State(c.local, Original, false, false, false, false, 0, [], c.same, 0, Running);
    var a := if |c.remote| < |c.local| then Truncate(true, true) else ReturnDone;
    var t := if |c.remote| < |c.local|
             then s.(file := s.file[..Min(|c.remote|, |s.file|)], mtime := Now, outcome := Returned(true))
             else s.(outcome := Returned(true));
    assert Init(c, s) by { assert seq(c.workers, _ => Head) == []; }
    assert Step(c, s, t, a);
    ChunkBounds(|c.remote|, c.chunk, c.work[x]);
    var k :| Lo(c.chunk, c.work[x]) <= k < Hi(|c.remote|, c.chunk, c.work[x])
        && !(k < |c.local| && c.local[k] == c.remote[k]);
    assert k < |t.file| ==> t.file[k] == c.local[k];
    run := [s, t];
  }

  /** Having a worker is exactly what a true answer needs, once some listed chunk really differs.
      The caller asks for at least one: the smaller of 32 and a thread count clamped to 1. */
  lemma StaffingIsExact(c: Config)
    requires Planned(c) && (c.work == [] || exists x :: 0 <= x < |c.work| && !InPlace(c, c.local, c.work[x]))
    ensures Staffed(c) <==> forall run | IsRunOf(c, run) :: Verdict(c, run[|run| - 1])
  {
    if Staffed(c) {
      forall run | IsRunOf(c, run) ensures Verdict(c, run[|run| - 1]) { EveryRunIsCorrect(c, run); }
    } else {
      var run := UnstaffedRun(c);
    }
  }

  // ---- The whole function ----

  datatype Plan = FullDownload | AlreadyCurrent | Patch(same: seq<bool>, work: seq<nat>, saved: nat)

  /** The decision made before the file is opened. */
  function PlanOf<R(==)>(remote: seq<R>, local: seq<R>, remoteSize: nat, localSize: nat, c: int): Plan
    requires c > 0 && (remote == [] || |remote| == ChunkCount(remoteSize, c))
  {
    var same := SameFlags(remote, local);
    if remote == [] then FullDownload
    else if AllOf(same, true) && localSize == remoteSize then AlreadyCurrent
    else if local == [] || AllOf(same, false) then FullDownload
    else Patch(same, WorkOf(same), Credit(remoteSize, c, same))
  }

  lemma PlanIsRight<R>(remote: seq<R>, local: seq<R>, remoteSize: nat, localSize: nat, c: int)
    requires c > 0 && (remote == [] || |remote| == ChunkCount(remoteSize, c))
    ensures var plan := PlanOf(remote, local, remoteSize, localSize, c);
            && (plan.AlreadyCurrent? <==> remote != [] && AllAgree(remote, local) && localSize == remoteSize)
            && (plan.Patch? <==>
                  SomeAgree(remote, local) && !(remote != [] && AllAgree(remote, local) && localSize == remoteSize))
            && (plan.Patch? ==>
                  && |plan.same| == |remote|
                  && (forall i: nat | i < |remote| :: plan.same[i] <==> Agree(remote, local, i))
                  && (forall i: nat :: i in plan.work <==> i < |remote| && !Agree(remote, local, i))
                  && (forall x, y | 0 <= x < y < |plan.work| :: plan.work[x] < plan.work[y])
                  && plan.saved == Credit(remoteSize, c, plan.same))
  {
    var same := SameFlags(remote, local);
    assert forall i: nat | i < |remote| :: same[i] <==> Agree(remote, local, i);
    if !AllOf(same, false) {
      var i :| 0 <= i < |same| && same[i];
      assert Agree(remote, local, i);
    }
    if remote != [] && AllAgree(remote, local) { assert Agree(remote, local, 0); }
  }

  method PlanDownload<R(==)>(remote: seq<R>, local: seq<R>, remoteSize: nat, localSize: nat, c: int)
      returns (plan: Plan)
    requires c > 0 && (remote == [] || |remote| == ChunkCount(remoteSize, c))
    // Nothing to do exactly when every chunk agrees and the sizes are equal; a patch exactly when some chunk can be
    // kept and that is not so; otherwise the whole file is fetched.
    ensures plan.AlreadyCurrent? <==> remote != [] && AllAgree(remote, local) && localSize == remoteSize
    ensures plan.Patch? <==>
              SomeAgree(remote, local) && !(remote != [] && AllAgree(remote, local) && localSize == remoteSize)
    // A patch moves exactly the chunks that do not agree, each once and in order; the rest is saved.
    ensures plan.Patch? ==>
              && |plan.same| == |remote| && (forall i: nat | i < |remote| :: plan.same[i] <==> Agree(remote, local, i))
              && (forall i: nat :: i in plan.work <==> i < |remote| && !Agree(remote, local, i))
              && (forall x, y | 0 <= x < y < |plan.work| :: plan.work[x] < plan.work[y])
              && plan.saved == Credit(remoteSize, c, plan.same)
    ensures plan == PlanOf(remote, local, remoteSize, localSize, c)
  {
    PlanIsRight(remote, local, remoteSize, localSize, c);
    if remote == [] {
      return FullDownload;
    }
    var same, kept := [], 0;
    if local != [] {
      same, kept := MarkUnchanged(remote, local);
    } else {
      same := seq(|remote|, _ => false);
      assert same == SameFlags(remote, local) && !same[0];
    }
    if kept == |remote| && localSize == remoteSize {
      return AlreadyCurrent;
    }
    if local == [] || kept == 0 {
      return FullDownload;
    }
    var work, saved := CollectWork(same, remoteSize, c);
    return Patch(same, work, saved);
  }

  /** The outcomes of the function for given checksum answers (each exact or, on failure, empty), and the bytes it
      reports as saved. A full download replaces the file atomically and counts all of it, or leaves it alone; a
      patch may also fail before its workers start, for a file that cannot be opened or after the saved
      bytes were counted. */
  ghost predicate MayReturn<R(!new)>(remote: seq<Byte>, local: seq<Byte>, remoteSums: seq<R>, localSums: seq<R>,
                                     c: int, workers: nat, end: State, reported: nat)
    requires c > 0 && (remoteSums == [] || |remoteSums| == ChunkCount(|remote|, c))
  {
    match PlanOf(remoteSums, localSums, |remote|, |local|, c)
    case FullDownload =>
      reported == 0
      && ((end.outcome == Returned(true) && end.file == remote && end.transferred == |remote|)
          || (end.outcome == Returned(false) && Untouched(local, end)))
    case AlreadyCurrent =>
      reported == 0 && end.outcome == Returned(true) && Untouched(local, end) && end.transferred == 0
    case Patch(same, work, saved) =>
      || (end.outcome == Returned(false) && Untouched(local, end) && (reported == 0 || reported == saved))
      || (end.outcome.Returned? && reported == saved
          && exists run :: IsRunOf(Config(remote, local, c, same, work, workers), run) && end == run[|run| - 1])
  }

  predicate Untouched(local: seq<Byte>, end: State) {
    end.file == local && end.mtime.Original?
  }

  lemma PlanIsSound<R(!new)>(sum: seq<Byte> -> R, remote: seq<Byte>, local: seq<Byte>, c: int, workers: nat)
    requires c > 0 && NoCollision(sum, remote, local, c)
    ensures var same := SameFlags(Sums(sum, remote, c), Sums(sum, local, c));
            Planned(Config(remote, local, c, same, WorkOf(same), workers))
  {
    var same := SameFlags(Sums(sum, remote, c), Sums(sum, local, c));
    var g := Config(remote, local, c, same, WorkOf(same), workers);
    FlagsAreSound(sum, remote, local, c);
    forall i: nat | i < |same| && same[i] ensures InPlace(g, local, i) {
      ChunkBounds(|remote|, c, i);
      ChunkBounds(|local|, c, i);
      forall k | Lo(c, i) <= k < Hi(|remote|, c, i) ensures k < |local| && local[k] == remote[k] {
        assert Chunk(remote, c, i)[k - Lo(c, i)] == Chunk(local, c, i)[k - Lo(c, i)];
      }
    }
  }

  lemma CurrentIff<R>(remote: seq<R>, local: seq<R>, remoteSize: nat, localSize: nat, c: int)
    requires c > 0 && (remote == [] || |remote| == ChunkCount(remoteSize, c))
    ensures PlanOf(remote, local, remoteSize, localSize, c).AlreadyCurrent? <==>
            remote != [] && AllAgree(remote, local) && localSize == remoteSize
  {
    PlanIsRight(remote, local, remoteSize, localSize, c);
  }

  lemma CurrentIsEqual<R(!new)>(sum: seq<Byte> -> R, remote: seq<Byte>, local: seq<Byte>,
                                remoteSums: seq<R>, localSums: seq<R>, c: int)
    requires c > 0 && NoCollision(sum, remote, local, c)
    requires remoteSums == Sums(sum, remote, c) && (localSums == [] || localSums == Sums(sum, local, c))
    requires remoteSums != [] && AllAgree(remoteSums, localSums) && |local| == |remote|
    ensures local == remote
  {
    assert Agree(remoteSums, localSums, 0);
    AllFlaggedMeansEqual(sum, remote, local, c);
  }

  lemma PatchIsCorrect<R(!new)>(sum: seq<Byte> -> R, remote: seq<Byte>, local: seq<Byte>,
                                remoteSums: seq<R>, localSums: seq<R>, c: int, workers: nat, end: State)
    requires c > 0 && workers > 0 && NoCollision(sum, remote, local, c)
    requires remoteSums == Sums(sum, remote, c) && (localSums == [] || localSums == Sums(sum, local, c))
    requires var p := PlanOf(remoteSums, localSums, |remote|, |local|, c);
             && p.Patch? && end.outcome.Returned?
             && exists run :: IsRunOf(Config(remote, local, c, p.same, p.work, workers), run) && end == run[|run| - 1]
    ensures var saved := PlanOf(remoteSums, localSums, |remote|, |local|, c).saved;
            && (end.outcome == Returned(true) ==> end.file == remote && end.transferred + saved == |remote|)
            && (end.outcome == Returned(false) ==> Untouched(local, end) || end.mtime.Epoch? || end.markFailed)
  {
    var p := PlanOf(remoteSums, localSums, |remote|, |local|, c);
    var g := Config(remote, local, c, p.same, p.work, workers);
    PlanIsSound(sum, remote, local, c, workers);
    var run :| IsRunOf(g, run) && end == run[|run| - 1];
    EveryRunIsCorrect(g, run);
    assert Verdict(g, run[|run| - 1]);
  }

  /** Whatever the checksum services answered and however the threads ran: true means the local
      file equals the object, and unless nothing was to be done every byte of it is reported as transferred or
      as saved; false means it is as it was, or cannot pass for current. */
  lemma DownloadIsCorrect<R(!new)>(sum: seq<Byte> -> R, remote: seq<Byte>, local: seq<Byte>,
                                   remoteSums: seq<R>, localSums: seq<R>, c: int, workers: nat, end: State,
                                   reported: nat)
    requires c > 0 && workers > 0 && NoCollision(sum, remote, local, c)
    requires remoteSums == [] || remoteSums == Sums(sum, remote, c)
    requires localSums == [] || localSums == Sums(sum, local, c)
    requires MayReturn(remote, local, remoteSums, localSums, c, workers, end, reported)
    ensures end.outcome == Returned(true) ==> end.file == remote
    ensures end.outcome == Returned(true) ==>
              if remoteSums != [] && AllAgree(remoteSums, localSums) && |local| == |remote|
              then end.transferred == 0 && reported == 0
              else end.transferred + reported == |remote|
    ensures end.outcome == Returned(false) ==> Untouched(local, end) || end.mtime.Epoch? || end.markFailed
  {
    CurrentIff(remoteSums, localSums, |remote|, |local|, c);
    match PlanOf(remoteSums, localSums, |remote|, |local|, c)
    case FullDownload =>
    case AlreadyCurrent => CurrentIsEqual(sum, remote, local, remoteSums, localSums, c);
    case Patch(same, work, saved) =>
      if !(end.outcome == Returned(false) && Untouched(local, end)) {
        PatchIsCorrect(sum, remote, local, remoteSums, localSums, c, workers, end);
      }
  }
}

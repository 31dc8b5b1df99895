/** The other half of the differential download: its runs end, none is stuck, and where nothing fails and
    nobody cancels they return true. */
module DiffDownloadProgress {
  import opened Runs
  import opened Chunks
  import opened Limits
  import opened DiffDownload

  /** A worker that is writing has tries left and stays inside its chunk. */
  ghost predicate InChunk(c: Config, k: Worker)
    requires Planned(c)
  {
    k.Writing? || k.Flagging? ==> k.attempt <= MaxRetries && k.idx < |c.work| && k.at <= Length(c, k.idx)
  }

  ghost predicate Sane(c: Config, s: State) {
    Shape(c, s) && forall w | 0 <= w < |s.workers| :: InChunk(c, s.workers[w])
  }

  lemma SaneStep(c: Config, s: State, t: State, a: Action)
    requires Sane(c, s) && Step(c, s, t, a)
    ensures Sane(c, t)
  {
    ShapeStep(c, s, t, a);
    if IsWorkerAction(a) {
      if a.Fetch? { assert Holds(s.workers[a.w], s.workers[a.w].idx); }
      assert InChunk(c, s.workers[a.w]);
      assert InChunk(c, t.workers[a.w]);
    }
  }

  // ---- Runs end ----

  /** What a claimed chunk can still cost from its fetch number `attempt` on: two steps a byte and four
      more for each fetch left. */
  function Budget(chunk: nat, attempt: nat): nat
    decreases MaxRetries + 1 - attempt
  {
    if attempt > MaxRetries then 3 else Budget(chunk, attempt + 1) + 2 * chunk + 4
  }

  lemma BudgetIs(chunk: nat)
    ensures Budget(chunk, 0) == 8 * chunk + 19
  {
    assert Budget(chunk, 3) == 2 * chunk + 7;
    assert Budget(chunk, 2) == 4 * chunk + 11;
    assert Budget(chunk, 1) == 6 * chunk + 15;
  }

  function Cost(chunk: nat, k: Worker): nat {
    match k
    case Exited => 0
    case Claiming => 1
    case Head => 2
    case Failing(_) => 3
    case Fetching(_, attempt) => Budget(chunk, attempt) + 1
    case Writing(_, attempt, at) => Max(Budget(chunk, attempt) - 2 * at, 0)
    case Flagging(_, attempt, at) => Max(Budget(chunk, attempt) - 2 * at, 0) + 1
  }

  function Costs(chunk: nat, workers: seq<Worker>): nat {
    if workers == [] then 0 else Costs(chunk, workers[..|workers| - 1]) + Cost(chunk, workers[|workers| - 1])
  }

  lemma {:induction false} CostsUpdate(chunk: nat, workers: seq<Worker>, w: nat, k: Worker)
    requires w < |workers|
    ensures Costs(chunk, workers[w := k]) == Costs(chunk, workers) - Cost(chunk, workers[w]) + Cost(chunk, k)
  {
    var h := workers[w := k];
    if w == |workers| - 1 {
      assert h[..w] == workers[..w];
    } else {
      assert h[..|h| - 1] == workers[..|workers| - 1][w := k];
      CostsUpdate(chunk, workers[..|workers| - 1], w, k);
    }
  }

  lemma {:induction false} CostsStart(chunk: nat, n: nat)
    ensures Costs(chunk, seq(n, _ => Head)) == 2 * n
  {
    if n > 0 {
      var workers := seq(n, _ => Head);
      assert workers[..n - 1] == seq(n - 1, _ => Head);
      CostsStart(chunk, n - 1);
    }
  }

  /** What the chunks nobody has claimed can still cost. */
  function Pool(chunk: nat, n: nat): nat {
    if n == 0 then 0 else Pool(chunk, n - 1) + Budget(chunk, 0) + 1
  }

  lemma {:induction false} PoolIs(chunk: nat, n: nat)
    ensures Pool(chunk, n) == n * (8 * chunk + 20)
  {
    if n > 0 {
      PoolIs(chunk, n - 1);
      BudgetIs(chunk);
      Distribute(n, 8 * chunk + 20);
    }
  }

  function Unclaimed(c: Config, s: State): nat {
    Max(|c.work| - s.next, 0)
  }

  function Measure(c: Config, s: State): nat
    requires c.chunk > 0
  {
    Costs(c.chunk, s.workers) + Pool(c.chunk, Unclaimed(c, s))
    + (if s.cancelled then 0 else 1) + (if s.outcome.Running? then 1 else 0)
  }

  lemma LengthFits(c: Config, idx: nat)
    requires Planned(c) && idx < |c.work|
    ensures 0 < Length(c, idx) <= c.chunk
  {}

  /** One fetch pays for its writes and for the fetches after it. */
  lemma BudgetPays(c: Config, k: Worker)
    requires Planned(c) && InChunk(c, k) && (k.Writing? || k.Flagging?)
    ensures Budget(c.chunk, k.attempt) - 2 * k.at >= Budget(c.chunk, k.attempt + 1) + 4 >= 7
  {
    LengthFits(c, k.idx);
  }

  /** A worker's step lowers its own cost, or trades a chunk of the pool for less. */
  lemma WorkerDescends(c: Config, s: State, a: Action)
    requires Sane(c, s) && IsWorkerAction(a) && a.w < |s.workers| && WorkerEnabled(c, s, s.workers[a.w], a)
    ensures var k := s.workers[a.w]; var after := WorkerAfter(c, s, k, a);
            if a.Claim? && s.next < |c.work| then Cost(c.chunk, after) == Budget(c.chunk, 0) + 1
            else Cost(c.chunk, after) < Cost(c.chunk, k)
  {
    var k := s.workers[a.w];
    assert InChunk(c, k);
    if k.Writing? || k.Flagging? { BudgetPays(c, k); }
    if a.Pwrite? { LengthFits(c, k.idx); }
  }

  lemma WorkerStepDescends(c: Config, s: State, a: Action)
    requires Sane(c, s) && IsWorkerAction(a) && a.w < |s.workers| && WorkerEnabled(c, s, s.workers[a.w], a)
    ensures Measure(c, WorkerNext(c, s, a)) < Measure(c, s)
  {
    var after := WorkerAfter(c, s, s.workers[a.w], a);
    WorkerDescends(c, s, a);
    CostsUpdate(c.chunk, s.workers, a.w, after);
    assert WorkerNext(c, s, a).workers == s.workers[a.w := after];
    if a.Claim? { ClaimDescends(c, s, a); } else { PoolStays(c, s, a); }
    FlagsStay(c, s, a);
  }

  lemma PoolStays(c: Config, s: State, a: Action)
    requires Sane(c, s) && IsWorkerAction(a) && a.w < |s.workers| && WorkerEnabled(c, s, s.workers[a.w], a) && !a.Claim?
    ensures Unclaimed(c, WorkerNext(c, s, a)) == Unclaimed(c, s)
  {}

  lemma FlagsStay(c: Config, s: State, a: Action)
    requires Sane(c, s) && IsWorkerAction(a) && a.w < |s.workers| && WorkerEnabled(c, s, s.workers[a.w], a)
    ensures WorkerNext(c, s, a).cancelled == s.cancelled && WorkerNext(c, s, a).outcome == s.outcome
  {}

  /** A claim moves one chunk from the pool to the worker. */
  lemma ClaimDescends(c: Config, s: State, a: Action)
    requires Sane(c, s) && a.Claim? && a.w < |s.workers| && WorkerEnabled(c, s, s.workers[a.w], a)
    ensures Cost(c.chunk, s.workers[a.w]) == 1
    ensures Pool(c.chunk, Unclaimed(c, s)) ==
              Pool(c.chunk, Unclaimed(c, WorkerNext(c, s, a))) + if s.next < |c.work| then Budget(c.chunk, 0) + 1 else 0
  {}

  lemma StepDescends(c: Config, s: State, t: State, a: Action)
    requires Sane(c, s) && Step(c, s, t, a)
    ensures Measure(c, t) < Measure(c, s)
  {
    if IsWorkerAction(a) { WorkerStepDescends(c, s, a); }
  }

  /** Every run ends, whatever fails and however often the writes are cut. */
  lemma RunsAreBounded(c: Config, run: seq<State>)
    requires Planned(c) && IsRunOf(c, run)
    ensures |run| <= 2 * c.workers + |c.work| * (8 * c.chunk + 20) + 3
  {
    forall s | Init(c, s) ensures Sane(c, s) {}
    forall s, t | Sane(c, s) && Next(c, s, t) ensures Sane(c, t) && Measure(c, t) < Measure(c, s) {
      var a :| Step(c, s, t, a);
      SaneStep(c, s, t, a);
      StepDescends(c, s, t, a);
    }
    BoundedRun(s => Init(c, s), (s, t) => Next(c, s, t), s => Sane(c, s),
               s => if c.chunk > 0 then Measure(c, s) else 0, run);
    CostsStart(c.chunk, c.workers);
    PoolIs(c.chunk, |c.work|);
  }

  // ---- No run is stuck ----

  /** The step a worker can take next, failing nothing it need not fail. */
  ghost function OwnMove(c: Config, s: State, w: nat): Action
    requires Sane(c, s) && w < |s.workers|
  {
    match s.workers[w]
    case Head => if Stopping(s) then Leave(w) else Enter(w)
    case Claiming => Claim(w)
    case Fetching(_, attempt) => if attempt > MaxRetries || Stopping(s) then GiveUp(w) else Fetch(w)
    case Writing(idx, _, at) =>
      if idx >= |c.work| || at >= Length(c, idx) then Complete(w) else Pwrite(w, Length(c, idx) - at)
    case Flagging(_, _, _) => SetFlag(w)
    case Failing(_) => Fail(w)
    case Exited => Leave(w)
  }

  lemma OwnMoveIsEnabled(c: Config, s: State, w: nat)
    requires Sane(c, s) && w < |s.workers| && !s.workers[w].Exited?
    ensures IsWorkerAction(OwnMove(c, s, w)) && OwnMove(c, s, w).w == w
    ensures WorkerEnabled(c, s, s.workers[w], OwnMove(c, s, w))
  {
    assert InChunk(c, s.workers[w]);
  }

  /** The return that the join leads to. */
  function ReturnMove(c: Config, s: State): Action {
    if Stopping(s) then if s.wroteAny then ReturnPatched(true) else ReturnUntouched
    else if |c.remote| < |c.local| then Truncate(true, true) else ReturnDone
  }

  ghost function ReturnNext(c: Config, s: State): State {
    if Stopping(s) then
      s.(outcome := Returned(false), mtime := if s.wroteAny then Epoch else s.mtime, markFailed := false)
    else if |c.remote| < |c.local| then
      s.(file := s.file[..Min(|c.remote|, |s.file|)], mtime := Now, outcome := Returned(true))
    else s.(outcome := Returned(true))
  }

  /** Whatever has happened, some worker or the return can move. */
  lemma CanMove(c: Config, s: State) returns (a: Action, t: State)
    requires Sane(c, s) && s.outcome.Running?
    ensures Step(c, s, t, a) && !a.Cancel?
    ensures Calm(c, s) ==> Undisturbed(a)
  {
    if w :| 0 <= w < |s.workers| && !s.workers[w].Exited? {
      OwnMoveIsEnabled(c, s, w);
      a := OwnMove(c, s, w);
      t := WorkerNext(c, s, a);
      assert Calm(c, s) ==> Smooth(s.workers[w]);
    } else {
      a, t := ReturnMove(c, s), ReturnNext(c, s);
    }
  }

  lemma NeverStuck(c: Config, run: seq<State>, i: nat)
    requires Planned(c) && IsRunOf(c, run) && i < |run| && run[i].outcome.Running?
    ensures exists a, t :: Step(c, run[i], t, a) && !a.Cancel?
  {
    SaneRun(c, run);
    var a, t := CanMove(c, run[i]);
  }

  lemma SaneRun(c: Config, run: seq<State>)
    requires Planned(c) && IsRunOf(c, run)
    ensures forall i | 0 <= i < |run| :: Sane(c, run[i])
  {
    forall s | Init(c, s) ensures Sane(c, s) {}
    forall s, t | Sane(c, s) && Next(c, s, t) ensures Sane(c, t) {
      var a :| Step(c, s, t, a);
      SaneStep(c, s, t, a);
    }
    Invariance(s => Init(c, s), (s, t) => Next(c, s, t), s => Sane(c, s), run);
  }

  // ---- Undisturbed runs succeed ----

  /** A step in which nothing fails and nobody cancels. */
  predicate Undisturbed(a: Action) {
    && !a.FetchFails? && !a.PwriteFails? && !a.Throw? && !a.Cancel?
    && !(a.Truncate? && !a.truncated)
  }

  predicate Smooth(k: Worker) {
    !k.Failing? && (k.Fetching? ==> k.attempt <= MaxRetries)
  }

  predicate Calm(c: Config, s: State) {
    && !Stopping(s) && s.outcome != Returned(false)
    && forall w | 0 <= w < |s.workers| :: Smooth(s.workers[w])
  }

  lemma CalmStep(c: Config, s: State, t: State, a: Action)
    requires Sane(c, s) && Calm(c, s) && Step(c, s, t, a) && Undisturbed(a)
    ensures Calm(c, t)
  {
    if IsWorkerAction(a) {
      assert Smooth(s.workers[a.w]);
      assert Smooth(t.workers[a.w]);
    }
  }

  ghost predicate Trace(c: Config, run: seq<State>, acts: seq<Action>) {
    && |run| == |acts| + 1 && Init(c, run[0])
    && forall i | 0 <= i < |acts| :: Step(c, run[i], run[i + 1], acts[i])
  }

  lemma {:induction false} CalmRun(c: Config, run: seq<State>, acts: seq<Action>)
    requires Planned(c) && Trace(c, run, acts) && forall i | 0 <= i < |acts| :: Undisturbed(acts[i])
    ensures Sane(c, run[|acts|]) && Calm(c, run[|acts|])
  {
    if acts != [] {
      var n := |acts| - 1;
      assert Trace(c, run[..n + 1], acts[..n]);
      CalmRun(c, run[..n + 1], acts[..n]);
      assert run[..n + 1][n] == run[n];
      SaneStep(c, run[n], run[n + 1], acts[n]);
      CalmStep(c, run[n], run[n + 1], acts[n]);
    }
  }

  lemma TraceIsRun(c: Config, run: seq<State>, acts: seq<Action>)
    requires Planned(c) && Trace(c, run, acts)
    ensures IsRunOf(c, run)
  {
    forall i | 0 <= i < |run| - 1 ensures Next(c, run[i], run[i + 1]) { assert Step(c, run[i], run[i + 1], acts[i]); }
  }

  /** A run in which nothing fails and nobody cancels never returns false, is no longer than the bound, and where
      it can go no further it has returned true over the object's bytes. */
  lemma UndisturbedRunsSucceed(c: Config, run: seq<State>, acts: seq<Action>)
    requires Planned(c) && Staffed(c) && Trace(c, run, acts) && forall i | 0 <= i < |acts| :: Undisturbed(acts[i])
    ensures run[|acts|].outcome != Returned(false)
    ensures |acts| <= 2 * c.workers + |c.work| * (8 * c.chunk + 20) + 2
    ensures (forall a, t | Step(c, run[|acts|], t, a) :: !Undisturbed(a)) ==>
              run[|acts|].outcome == Returned(true) && run[|acts|].file == c.remote
  {
    CalmRun(c, run, acts);
    TraceIsRun(c, run, acts);
    RunsAreBounded(c, run);
    EveryRunIsCorrect(c, run);
    assert Verdict(c, run[|acts|]);
    if run[|acts|].outcome.Running? {
      var a, t := CanMove(c, run[|acts|]);
      assert Undisturbed(a);
    }
  }

  /** So from every plan there is a run that succeeds. */
  lemma SuccessIsPossible(c: Config) returns (run: seq<State>)
    requires Planned(c) && Staffed(c)
    ensures IsRunOf(c, run) && run[|run| - 1].outcome == Returned(true) && run[|run| - 1].file == c.remote
  {
    var s := State(c.local, Original, false, false, false, false, 0, seq(c.workers, _ => Head), c.same, 0, Running);
    run := Completed(c, [s]);
    EveryRunIsCorrect(c, run);
    assert Verdict(c, run[|run| - 1]);
  }

  lemma {:induction false} Completed(c: Config, run: seq<State>) returns (longer: seq<State>)
    requires Planned(c) && IsRunOf(c, run) && Sane(c, run[|run| - 1]) && Calm(c, run[|run| - 1])
    ensures IsRunOf(c, longer) && longer[|longer| - 1].outcome == Returned(true)
    decreases Measure(c, run[|run| - 1])
  {
    var s := run[|run| - 1];
    if s.outcome.Running? {
      var a, t := CanMove(c, s);
      SaneStep(c, s, t, a);
      CalmStep(c, s, t, a);
      StepDescends(c, s, t, a);
      RunExtends(c, run, t, a);
      longer := Completed(c, run + [t]);
    } else {
      longer := run;
    }
  }

  lemma RunExtends(c: Config, run: seq<State>, t: State, a: Action)
    requires Planned(c) && IsRunOf(c, run) && Step(c, run[|run| - 1], t, a)
    ensures IsRunOf(c, run + [t])
  {
    var longer := run + [t];
    forall i | 0 <= i < |longer| - 1 ensures Next(c, longer[i], longer[i + 1]) {
      if i < |run| - 1 { assert Next(c, run[i], run[i + 1]); }
    }
  }
}

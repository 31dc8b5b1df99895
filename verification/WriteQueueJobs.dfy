/** Which job is where: the same runs as `WriteQueue`, with every job followed by name. A writer
    may take any queued job; first-in first-out is one such order. */
module WriteQueueJobs {
  import opened Runs
  import opened WriteQueue

  datatype Place = Todo | Ready | Blocked | Queued | PopUnsignalled | Writing | Written | Skipped

  datatype JobState = JobState(place: seq<Place>, s: State)

  function Count(place: seq<Place>, p: Place): (n: nat)
    ensures n > 0 <==> p in place
  {
    if place == [] then 0
    else
      assert place == place[..|place| - 1] + [place[|place| - 1]];
      Count(place[..|place| - 1], p) + if place[|place| - 1] == p then 1 else 0
  }

  lemma {:induction false} CountMove(place: seq<Place>, j: nat, q: Place, p: Place)
    requires j < |place|
    ensures Count(place[j := q], p)
         == Count(place, p) - (if place[j] == p then 1 else 0) + (if q == p then 1 else 0)
  {
    var last := |place| - 1;
    if j == last {
      assert place[j := q][..last] == place[..last];
    } else {
      assert place[j := q][..last] == place[..last][j := q];
      CountMove(place[..last], j, q, p);
    }
  }

  /** What an action does to a job: nothing, or one move. */
  datatype Shift = Stay | Shift(from: Place, to: Place)

  function ShiftOf(a: Action): Shift {
    match a
    case Start => Shift(Todo, Ready)
    case Skip => Shift(Todo, Skipped)
    case Push => Shift(Ready, Queued)
    case GiveUpPush => Shift(Ready, Skipped)
    case Block => Shift(Ready, Blocked)
    case Pop => Shift(Queued, PopUnsignalled)
    case SignalPop(_) => Shift(PopUnsignalled, Writing)
    case Finish => Shift(Writing, Written)
    case _ => Stay
  }

  /** A woken producer takes its job back to the test of the queue. */
  function WakeShift(a: Action): Shift {
    if (a.SignalPush? || a.SignalPop? || a.Spurious?) && a.wake.Producer? then Shift(Blocked, Ready) else Stay
  }

  ghost predicate Moved(m: Shift, before: seq<Place>, after: seq<Place>, j: nat) {
    match m
    case Stay => after == before
    case Shift(p, q) => j < |before| && before[j] == p && after == before[j := q]
  }

  /** The moves of job `j`, and of the job `k` of a woken producer, that go with an action. */
  ghost predicate Placed(a: Action, before: seq<Place>, after: seq<Place>, j: nat, k: nat) {
    exists mid :: Moved(ShiftOf(a), before, mid, j) && Moved(WakeShift(a), mid, after, k)
  }

  ghost predicate JobStep(c: Config, x: JobState, y: JobState, a: Action, j: nat, k: nat) {
    Enabled(c, x.s, a) && y.s == Apply(c, x.s, a) && Placed(a, x.place, y.place, j, k)
  }

  ghost predicate JobNext(c: Config, x: JobState, y: JobState) {
    exists a, j, k :: JobStep(c, x, y, a, j, k)
  }

  ghost predicate JobInit(c: Config, x: JobState) {
    Init(c, x.s) && |x.place| == c.jobs && forall j | 0 <= j < c.jobs :: x.place[j] == Todo
  }

  function Field(s: State, p: Place): nat {
    match p
    case Todo => s.todo
    case Ready => s.ready
    case Blocked => s.blocked
    case Queued => s.queued
    case PopUnsignalled => s.popUnsignalled
    case Writing => s.writing
    case Written => s.written
    case Skipped => s.skipped
  }

  /** The counters of `WriteQueue` count what they say they count. */
  ghost predicate Consistent(c: Config, x: JobState) {
    |x.place| == c.jobs && forall p :: Field(x.s, p) == Count(x.place, p)
  }

  lemma {:induction false} CountAll(place: seq<Place>, p: Place)
    requires forall j | 0 <= j < |place| :: place[j] == p
    ensures Count(place, p) == |place|
  {
    if place != [] { CountAll(place[..|place| - 1], p); }
  }

  lemma InitConsistent(c: Config, x: JobState)
    requires JobInit(c, x)
    ensures Consistent(c, x)
  {
    CountAll(x.place, Todo);
  }

  function Delta(m: Shift, p: Place): int {
    if m.Stay? then 0 else (if m.to == p then 1 else 0) - (if m.from == p then 1 else 0)
  }

  lemma PushSignalDelta(c: Config, s: State, wake: Wake, p: Place)
    requires Enabled(c, s, SignalPush(wake))
    ensures Field(Apply(c, s, SignalPush(wake)), p) == Field(s, p) + Delta(WakeShift(SignalPush(wake)), p)
  {}

  lemma PopSignalDelta(c: Config, s: State, wake: Wake, p: Place)
    requires Enabled(c, s, SignalPop(wake))
    ensures Field(Apply(c, s, SignalPop(wake)), p) ==
              Field(s, p) + Delta(Shift(PopUnsignalled, Writing), p) + Delta(WakeShift(SignalPop(wake)), p)
  {}

  lemma SpuriousDelta(c: Config, s: State, wake: Wake, p: Place)
    requires Enabled(c, s, Spurious(wake))
    ensures Field(Apply(c, s, Spurious(wake)), p) == Field(s, p) + Delta(WakeShift(Spurious(wake)), p)
  {}

  lemma FieldDelta(c: Config, s: State, a: Action, p: Place)
    requires Enabled(c, s, a)
    ensures Field(Apply(c, s, a), p) == Field(s, p) + Delta(ShiftOf(a), p) + Delta(WakeShift(a), p)
  {
    match a
    case SignalPush(wake) => PushSignalDelta(c, s, wake, p);
    case SignalPop(wake) => PopSignalDelta(c, s, wake, p);
    case Spurious(wake) => SpuriousDelta(c, s, wake, p);
    case _ => QuietDelta(c, s, a, p);
  }

  lemma QuietDelta(c: Config, s: State, a: Action, p: Place)
    requires Enabled(c, s, a) && !a.SignalPush? && !a.SignalPop? && !a.Spurious?
    ensures Field(Apply(c, s, a), p) == Field(s, p) + Delta(ShiftOf(a), p) && WakeShift(a) == Stay
  {}

  lemma CountDelta(m: Shift, before: seq<Place>, after: seq<Place>, j: nat, p: Place)
    requires Moved(m, before, after, j)
    ensures |after| == |before| && Count(after, p) == Count(before, p) + Delta(m, p)
  {
    if m.Shift? { CountMove(before, j, m.to, p); }
  }

  lemma PlacedDelta(a: Action, before: seq<Place>, after: seq<Place>, j: nat, k: nat, p: Place)
    requires Placed(a, before, after, j, k)
    ensures |after| == |before|
    ensures Count(after, p) == Count(before, p) + Delta(ShiftOf(a), p) + Delta(WakeShift(a), p)
  {
    var mid :| Moved(ShiftOf(a), before, mid, j) && Moved(WakeShift(a), mid, after, k);
    CountDelta(ShiftOf(a), before, mid, j, p);
    CountDelta(WakeShift(a), mid, after, k, p);
  }

  lemma StepConsistent(c: Config, x: JobState, y: JobState)
    requires Consistent(c, x) && JobNext(c, x, y)
    ensures Consistent(c, y)
  {
    var a, j, k :| JobStep(c, x, y, a, j, k);
    PlacedDelta(a, x.place, y.place, j, k, Todo);
    forall p ensures Field(y.s, p) == Count(y.place, p) {
      PlacedDelta(a, x.place, y.place, j, k, p);
      FieldDelta(c, x.s, a, p);
    }
  }

  predicate IsPushed(p: Place) {
    p.Queued? || p.PopUnsignalled? || p.Writing? || p.Written?
  }

  /** A pushed job only moves on towards the disk, one place at a time, and a written one stays. */
  predicate MovesOn(p: Place, q: Place) {
    match p
    case Queued => q in {Queued, PopUnsignalled}
    case PopUnsignalled => q in {PopUnsignalled, Writing}
    case Writing => q in {Writing, Written}
    case Written => q == Written
    case _ => true
  }

  lemma PlacedMovesOn(a: Action, before: seq<Place>, after: seq<Place>, i: nat, k: nat, j: nat)
    requires Placed(a, before, after, i, k) && j < |before| && IsPushed(before[j])
    ensures |after| == |before| && MovesOn(before[j], after[j])
  {
    var mid :| Moved(ShiftOf(a), before, mid, i) && Moved(WakeShift(a), mid, after, k);
    assert |mid| == |before| && MovesOn(before[j], mid[j]);
    assert after[j] == mid[j];
  }

  lemma PushedMovesOn(c: Config, x: JobState, y: JobState, j: nat)
    requires JobNext(c, x, y) && j < |x.place| && IsPushed(x.place[j])
    ensures |y.place| == |x.place| && MovesOn(x.place[j], y.place[j])
  {
    var a, i, k :| JobStep(c, x, y, a, i, k);
    PlacedMovesOn(a, x.place, y.place, i, k, j);
  }

  ghost predicate JobRun(c: Config, run: seq<JobState>) {
    IsRun(x => JobInit(c, x), (x, y) => JobNext(c, x, y), run)
  }

  lemma RunConsistent(c: Config, run: seq<JobState>)
    requires JobRun(c, run)
    ensures forall i | 0 <= i < |run| :: Consistent(c, run[i])
    ensures forall i | 0 <= i < |run| - 1 :: JobNext(c, run[i], run[i + 1])
  {
    forall x | JobInit(c, x) ensures Consistent(c, x) { InitConsistent(c, x); }
    forall x, y | Consistent(c, x) && JobNext(c, x, y) ensures Consistent(c, y) { StepConsistent(c, x, y); }
    Invariance(x => JobInit(c, x), (x, y) => JobNext(c, x, y), x => Consistent(c, x), run);
  }

  /** Step `n` of the run writes job `j` to disk. */
  ghost predicate WritesAt(run: seq<JobState>, j: nat, n: nat) {
    && n + 1 < |run| && j < |run[n].place| && j < |run[n + 1].place|
    && run[n].place[j] == Writing && run[n + 1].place[j] == Written
  }

  /** What the proofs below need of a run: job `j` is somewhere, and once pushed it moves on. */
  ghost predicate Tracked(run: seq<JobState>, j: nat) {
    && (forall i | 0 <= i < |run| :: j < |run[i].place|)
    && forall i {:trigger run[i]} | 0 <= i < |run| - 1 ::
      IsPushed(run[i].place[j]) ==> MovesOn(run[i].place[j], run[i + 1].place[j])
  }

  lemma RunTracked(c: Config, run: seq<JobState>, j: nat)
    requires JobRun(c, run) && j < c.jobs
    ensures Tracked(run, j)
  {
    RunConsistent(c, run);
    forall i {:trigger run[i]} | 0 <= i < |run| - 1 && IsPushed(run[i].place[j])
      ensures MovesOn(run[i].place[j], run[i + 1].place[j])
    {
      PushedMovesOn(c, run[i], run[i + 1], j);
    }
  }

  lemma {:induction false} WrittenStays(run: seq<JobState>, j: nat, m: nat, n: nat)
    requires Tracked(run, j) && m <= n < |run| && run[m].place[j] == Written
    ensures run[n].place[j] == Written
    decreases n - m
  {
    if m < n {
      WrittenStays(run, j, m + 1, n);
    }
  }

  lemma {:induction false} ReachesDisk(run: seq<JobState>, j: nat, i: nat)
    requires Tracked(run, j) && i < |run| && IsPushed(run[i].place[j]) && run[i].place[j] != Written
    requires run[|run| - 1].place[j] !in {Queued, PopUnsignalled, Writing}
    ensures exists n: nat :: WritesAt(run, j, n)
    decreases |run| - i
  {
    if run[i].place[j] == Writing && run[i + 1].place[j] == Written {
      assert WritesAt(run, j, i);
    } else {
      ReachesDisk(run, j, i + 1);
    }
  }

  /** By the time the writers have exited, a job that was ever queued has been written, exactly once. */
  lemma EveryPushedJobIsWrittenOnce(c: Config, run: seq<JobState>, i: nat, j: nat)
    requires JobRun(c, run) && i < |run| && j < c.jobs && j < |run[i].place|
    requires run[i].place[j] == Queued && Complete(c, run[|run| - 1].s)
    ensures exists n: nat :: WritesAt(run, j, n)
    ensures forall m: nat, n: nat | WritesAt(run, j, m) && WritesAt(run, j, n) :: m == n
  {
    RunTracked(c, run, j);
    RunConsistent(c, run);
    var last := run[|run| - 1];
    assert Field(last.s, Queued) == 0 && Field(last.s, PopUnsignalled) == 0 && Field(last.s, Writing) == 0;
    assert last.place[j] in last.place;
    ReachesDisk(run, j, i);
    forall m: nat, n: nat | WritesAt(run, j, m) && WritesAt(run, j, n) ensures m == n {
      if m < n { WrittenStays(run, j, m + 1, n); }
      if n < m { WrittenStays(run, j, n + 1, m); }
    }
  }
}

/** The bounded queue between the download tasks of a sync and its disk writers. Producers wait
    while it is full and writers while it is empty, on one condition variable; every push and
    every pop is followed, after the lock is released, by one `notify_one`. */
module WriteQueue {
  import opened Runs

  datatype Config = Config(producers: nat, writers: nat, capacity: nat, jobs: nat)

  /** How many threads, and how many jobs, are at each point of the code. "Unsignalled" is
      between releasing the lock and `notify_one`. */
  datatype State = State(
    todo: nat,                // jobs no pool thread has started
    ready: nat,               // producers holding a job, about to take the lock and test the queue
    blocked: nat,             // producers holding a job, asleep on the condition variable
    queued: nat,
    popUnsignalled: nat,      // writers holding a job they have just popped
    writing: nat,
    written: nat,
    skipped: nat,             // jobs never pushed: the fetch failed, or the run was cancelled
    idle: nat,                // pool threads with no job
    pushUnsignalled: nat,     // producers that have just pushed
    readyWriters: nat,        // writers about to take the lock and test the queue
    blockedWriters: nat,      // writers asleep on the condition variable
    exited: nat,
    cancelled: bool,
    done: bool,               // write_queue_done
    announced: bool)          // the notify_all after it

  datatype Wake = NoOne | Producer | Writer

  datatype Action =
    | Start | Skip | Push | GiveUpPush | Block | SignalPush(wake: Wake)
    | Pop | BlockWriter | SignalPop(wake: Wake) | Finish | Exit
    | SetDone | Announce | Cancel | Spurious(wake: Wake)

  ghost predicate Init(c: Config, s: State) {
    s == State(c.jobs, 0, 0, 0, 0, 0, 0, 0, c.producers, 0, c.writers, 0, 0, false, false, false)
  }

  /** `notify_one` wakes any one sleeper, of either side, and is lost when nobody sleeps. */
  predicate WakeOk(s: State, w: Wake) {
    match w
    case NoOne => s.blocked == 0 && s.blockedWriters == 0
    case Producer => s.blocked > 0
    case Writer => s.blockedWriters > 0
  }

  function P(w: Wake): nat { if w.Producer? then 1 else 0 }

  function W(w: Wake): nat { if w.Writer? then 1 else 0 }

  predicate Enabled(c: Config, s: State, a: Action) {
    match a
    case Start => s.idle > 0 && s.todo > 0 && !s.done
    case Skip => s.idle > 0 && s.todo > 0 && !s.done
    case Push => s.ready > 0 && s.queued < c.capacity && !s.cancelled
    case GiveUpPush => s.ready > 0 && s.cancelled
    case Block => s.ready > 0 && s.queued >= c.capacity && !s.cancelled
    case SignalPush(wake) => s.pushUnsignalled > 0 && WakeOk(s, wake)
    case Pop => s.readyWriters > 0 && s.queued > 0
    case BlockWriter => s.readyWriters > 0 && s.queued == 0 && !s.done
    case SignalPop(wake) => s.popUnsignalled > 0 && WakeOk(s, wake)
    case Finish => s.writing > 0
    case Exit => s.readyWriters > 0 && s.queued == 0 && s.done
    case SetDone => !s.done && (s.todo == 0 || s.cancelled) && s.ready == s.blocked == s.pushUnsignalled == 0
    case Announce => s.done && !s.announced
    case Cancel => !s.cancelled
    case Spurious(wake) => !wake.NoOne? && WakeOk(s, wake)
  }

  function Apply(c: Config, s: State, a: Action): State
    requires Enabled(c, s, a)
  {
    match a
    case Start => s.(todo := s.todo - 1, idle := s.idle - 1, ready := s.ready + 1)
    case Skip => s.(todo := s.todo - 1, skipped := s.skipped + 1)
    case Push => s.(ready := s.ready - 1, queued := s.queued + 1, pushUnsignalled := s.pushUnsignalled + 1)
    case GiveUpPush => s.(ready := s.ready - 1, skipped := s.skipped + 1, pushUnsignalled := s.pushUnsignalled + 1)
    case Block => s.(ready := s.ready - 1, blocked := s.blocked + 1)
    case SignalPush(wake) =>
      s.(pushUnsignalled := s.pushUnsignalled - 1, idle := s.idle + 1,
         blocked := s.blocked - P(wake), ready := s.ready + P(wake),
         blockedWriters := s.blockedWriters - W(wake), readyWriters := s.readyWriters + W(wake))
    case Pop => s.(readyWriters := s.readyWriters - 1, queued := s.queued - 1, popUnsignalled := s.popUnsignalled + 1)
    case BlockWriter => s.(readyWriters := s.readyWriters - 1, blockedWriters := s.blockedWriters + 1)
    case SignalPop(wake) =>
      s.(popUnsignalled := s.popUnsignalled - 1, writing := s.writing + 1,
         blocked := s.blocked - P(wake), ready := s.ready + P(wake),
         blockedWriters := s.blockedWriters - W(wake), readyWriters := s.readyWriters + W(wake))
    case Finish => s.(writing := s.writing - 1, written := s.written + 1, readyWriters := s.readyWriters + 1)
    case Exit => s.(readyWriters := s.readyWriters - 1, exited := s.exited + 1)
    case SetDone => s.(done := true)
    case Announce =>
      s.(announced := true, readyWriters := s.readyWriters + s.blockedWriters, blockedWriters := 0)
    case Cancel => s.(cancelled := true)
    case Spurious(wake) =>
      s.(blocked := s.blocked - P(wake), ready := s.ready + P(wake),
         blockedWriters := s.blockedWriters - W(wake), readyWriters := s.readyWriters + W(wake))
  }

  ghost predicate Next(c: Config, s: State, t: State) {
    exists a :: Enabled(c, s, a) && t == Apply(c, s, a)
  }

  /** Writers that are awake and have not left. */
  function ActiveWriters(s: State): nat { s.readyWriters + s.popUnsignalled + s.writing }

  /** Producer threads that are not asleep. */
  function ActiveProducers(s: State): nat { s.idle + s.ready + s.pushUnsignalled }

  /** No thread and no job is lost. */
  ghost predicate Conserved(c: Config, s: State) {
    && ActiveProducers(s) + s.blocked == c.producers
    && ActiveWriters(s) + s.blockedWriters + s.exited == c.writers
    && s.todo + s.ready + s.blocked + s.queued + s.popUnsignalled + s.writing + s.written + s.skipped == c.jobs
  }

  /** The queue is bounded, and the flags mean what the shutdown sequence needs. */
  ghost predicate Flags(c: Config, s: State) {
    && s.queued <= c.capacity
    && (s.done ==> (s.todo == 0 || s.cancelled) && s.ready == s.blocked == s.pushUnsignalled == 0)
    && (s.announced ==> s.done && s.blockedWriters == 0)
    && (s.exited > 0 ==> s.done && s.queued == 0)
  }

  /** While a side sleeps, every item (or free slot) it sleeps through is covered by a signal
      still to be sent or by a thread that will look at the queue again before sleeping. */
  ghost predicate Covered(c: Config, s: State) {
    && (s.blockedWriters > 0 ==> s.queued <= s.pushUnsignalled + ActiveWriters(s))
    && (s.blocked > 0 ==> c.capacity - s.queued <= s.popUnsignalled + ActiveProducers(s))
  }

  predicate Exclusive(s: State) {
    s.blockedWriters == 0 || s.blocked == 0
  }

  ghost predicate Inv(c: Config, s: State) {
    Conserved(c, s) && Flags(c, s) && Covered(c, s) && Exclusive(s)
  }

  /** The bound under which no wakeup can go to the wrong side. */
  predicate Bounded(c: Config) {
    c.producers + c.writers <= c.capacity + 1
  }

  lemma ConservedPush(c: Config, s: State, wake: Wake)
    requires Conserved(c, s) && Enabled(c, s, SignalPush(wake))
    ensures Conserved(c, Apply(c, s, SignalPush(wake)))
  {}

  lemma ConservedPop(c: Config, s: State, wake: Wake)
    requires Conserved(c, s) && Enabled(c, s, SignalPop(wake))
    ensures Conserved(c, Apply(c, s, SignalPop(wake)))
  {}

  lemma ConservedSpurious(c: Config, s: State, wake: Wake)
    requires Conserved(c, s) && Enabled(c, s, Spurious(wake))
    ensures Conserved(c, Apply(c, s, Spurious(wake)))
  {}

  lemma ConservedStep(c: Config, s: State, a: Action)
    requires Conserved(c, s) && Enabled(c, s, a)
    ensures Conserved(c, Apply(c, s, a))
  {
    match a
    case SignalPush(wake) => ConservedPush(c, s, wake);
    case SignalPop(wake) => ConservedPop(c, s, wake);
    case Spurious(wake) => ConservedSpurious(c, s, wake);
    case _ =>
  }

  lemma FlagsStep(c: Config, s: State, a: Action)
    requires Flags(c, s) && Enabled(c, s, a)
    ensures Flags(c, Apply(c, s, a))
  {}

  lemma CoveredStep(c: Config, s: State, a: Action)
    requires Bounded(c) && Inv(c, s) && Enabled(c, s, a)
    ensures Covered(c, Apply(c, s, a)) && Exclusive(Apply(c, s, a))
  {
    match a
    case SignalPush(wake) => SignalCovered(c, s, wake);
    case SignalPop(wake) => SignalCovered(c, s, wake);
    case Spurious(wake) => SignalCovered(c, s, wake);
    case _ =>
  }

  lemma SignalCovered(c: Config, s: State, wake: Wake)
    requires Bounded(c) && Inv(c, s)
    ensures forall a | Enabled(c, s, a) && (a == SignalPush(wake) || a == SignalPop(wake) || a == Spurious(wake)) ::
              Covered(c, Apply(c, s, a)) && Exclusive(Apply(c, s, a))
  {}

  lemma StepKeepsInv(c: Config, s: State, t: State)
    requires Bounded(c) && Inv(c, s) && Next(c, s, t)
    ensures Inv(c, t)
  {
    var a :| Enabled(c, s, a) && t == Apply(c, s, a);
    ConservedStep(c, s, a);
    FlagsStep(c, s, a);
    CoveredStep(c, s, a);
  }

  ghost predicate IsRunOf(c: Config, run: seq<State>) {
    IsRun(s => Init(c, s), (s, t) => Next(c, s, t), run)
  }

  ghost predicate Reached(c: Config, s: State) {
    Reachable(t => Init(c, t), (t, u) => Next(c, t, u), s)
  }

  /** In every run, a sleeping producer and a sleeping writer never coexist, so `notify_one`
      always reaches the side it is meant for. */
  lemma SidesNeverSleepTogether(c: Config, run: seq<State>)
    requires Bounded(c) && IsRunOf(c, run)
    ensures forall i | 0 <= i < |run| :: Inv(c, run[i]) && Exclusive(run[i])
  {
    forall s, t | Inv(c, s) && Next(c, s, t) ensures Inv(c, t) { StepKeepsInv(c, s, t); }
    Invariance(s => Init(c, s), (s, t) => Next(c, s, t), s => Inv(c, s), run);
  }

  lemma ReachedInv(c: Config, s: State)
    requires Bounded(c) && Reached(c, s)
    ensures Inv(c, s)
  {
    forall t, u | Inv(c, t) && Next(c, t, u) ensures Inv(c, u) { StepKeepsInv(c, t, u); }
    ReachableInvariance(t => Init(c, t), (t, u) => Next(c, t, u), t => Inv(c, t), s);
  }

  /** A step that the code takes by itself: not an interrupt, not a wakeup without cause. */
  predicate OwnStep(a: Action) { !a.Cancel? && !a.Spurious? }

  /** What a finished run looks like: every writer has left, and every job was written or skipped
      (or, if the run was cancelled, never started). */
  predicate Complete(c: Config, s: State) {
    && s.exited == c.writers && s.queued == s.ready == s.blocked == s.popUnsignalled == s.writing == 0
    && s.todo + s.written + s.skipped == c.jobs
    && (!s.cancelled ==> s.todo == 0)
  }

  /** No state that satisfies the invariant is stuck with work left. */
  lemma NeverStuck(c: Config, s: State)
    requires Inv(c, s) && c.writers > 0 && c.producers > 0
    requires forall a | OwnStep(a) :: !Enabled(c, s, a)
    ensures Complete(c, s)
  {
    assert !Enabled(c, s, Pop) && !Enabled(c, s, BlockWriter) && !Enabled(c, s, Exit) && !Enabled(c, s, Finish);
    assert !Enabled(c, s, SignalPop(NoOne)) && !Enabled(c, s, SignalPop(Producer)) && !Enabled(c, s, SignalPop(Writer));
    assert !Enabled(c, s, SignalPush(NoOne)) && !Enabled(c, s, SignalPush(Producer))
        && !Enabled(c, s, SignalPush(Writer));
    assert !Enabled(c, s, Push) && !Enabled(c, s, GiveUpPush) && !Enabled(c, s, Block) && !Enabled(c, s, Start);
    assert ActiveWriters(s) == 0 && s.ready == s.pushUnsignalled == 0;
    assert !Enabled(c, s, SetDone) && !Enabled(c, s, Announce);
  }

  /** A potential that every step but a spurious wakeup lowers; a spurious wakeup raises it by one. */
  function Potential(c: Config, s: State): nat {
    8 * s.todo + 7 * s.ready + 6 * s.blocked + 4 * s.queued + 4 * s.popUnsignalled + 2 * s.writing
    + 2 * s.pushUnsignalled + s.readyWriters
    + (if s.done then 0 else 1) + (if s.announced then 0 else c.writers + 1) + (if s.cancelled then 0 else 1)
  }

  lemma StepLowersPotential(c: Config, s: State, a: Action)
    requires Conserved(c, s) && Enabled(c, s, a) && !a.Spurious?
    ensures Potential(c, Apply(c, s, a)) < Potential(c, s)
  {
    match a
    case SignalPush(wake) => PushSignalLowers(c, s, wake);
    case SignalPop(wake) => PopSignalLowers(c, s, wake);
    case _ =>
  }

  lemma PushSignalLowers(c: Config, s: State, wake: Wake)
    requires Enabled(c, s, SignalPush(wake))
    ensures Potential(c, Apply(c, s, SignalPush(wake))) < Potential(c, s)
  {}

  lemma PopSignalLowers(c: Config, s: State, wake: Wake)
    requires Enabled(c, s, SignalPop(wake))
    ensures Potential(c, Apply(c, s, SignalPop(wake))) < Potential(c, s)
  {}

  lemma SpuriousRaisesPotential(c: Config, s: State, a: Action)
    requires Enabled(c, s, a) && a.Spurious?
    ensures Potential(c, Apply(c, s, a)) == Potential(c, s) + 1
  {}

  lemma OneStep(c: Config, s: State, t: State, a: Action)
    requires Bounded(c) && Inv(c, s) && Enabled(c, s, a) && t == Apply(c, s, a)
    ensures Inv(c, t) && Potential(c, t) + 1 <= Potential(c, s) + if a.Spurious? then 2 else 0
  {
    StepKeepsInv(c, s, t);
    if a.Spurious? { SpuriousRaisesPotential(c, s, a); } else { StepLowersPotential(c, s, a); }
  }

  /** A run together with the actions it took. */
  ghost predicate Trace(c: Config, run: seq<State>, acts: seq<Action>) {
    && |run| == |acts| + 1
    && Init(c, run[0])
    && forall i | 0 <= i < |acts| :: Enabled(c, run[i], acts[i]) && run[i + 1] == Apply(c, run[i], acts[i])
  }

  function SpuriousCount(acts: seq<Action>): nat {
    if acts == [] then 0
    else SpuriousCount(acts[..|acts| - 1]) + if acts[|acts| - 1].Spurious? then 1 else 0
  }

  lemma TraceInit(c: Config, s: State)
    requires Init(c, s)
    ensures Inv(c, s)
  {}

  lemma {:induction false} TraceBound(c: Config, run: seq<State>, acts: seq<Action>)
    requires Bounded(c) && Trace(c, run, acts)
    ensures Inv(c, run[|acts|])
    ensures Potential(c, run[|acts|]) + |acts| <= Potential(c, run[0]) + 2 * SpuriousCount(acts)
  {
    if acts == [] {
      TraceInit(c, run[0]);
    } else {
      var n := |acts| - 1;
      assert Trace(c, run[..n + 1], acts[..n]);
      TraceBound(c, run[..n + 1], acts[..n]);
      OneStep(c, run[n], run[n + 1], acts[n]);
    }
  }

  /** Every run ends: it takes at most 8 steps a job plus a constant, plus two for every wakeup the
      system makes without cause; and where it can go no further, all the work is done. */
  lemma EveryRunFinishes(c: Config, run: seq<State>, acts: seq<Action>)
    requires Bounded(c) && c.producers > 0 && c.writers > 0 && Trace(c, run, acts)
    ensures |acts| <= 8 * c.jobs + 2 * c.writers + 3 + 2 * SpuriousCount(acts)
    ensures (forall a | OwnStep(a) :: !Enabled(c, run[|acts|], a)) ==> Complete(c, run[|acts|])
  {
    TraceBound(c, run, acts);
    if forall a | OwnStep(a) :: !Enabled(c, run[|acts|], a) {
      NeverStuck(c, run[|acts|]);
    }
  }

  lemma ReachFirst(c: Config, s: State)
    requires Init(c, s)
    ensures Reached(c, s)
  {
    ReachInit(t => Init(c, t), (t, u) => Next(c, t, u), s);
  }

  lemma Step(c: Config, s: State, a: Action)
    requires Reached(c, s) && Enabled(c, s, a)
    ensures Reached(c, Apply(c, s, a))
  {
    assert Next(c, s, Apply(c, s, a));
    ReachStep(t => Init(c, t), (t, u) => Next(c, t, u), s, Apply(c, s, a));
  }

  /** Build-up to the converse: all writers asleep, `signalled` pushes each waking one of them,
      then `silent` pushes whose signals are still to come. */
  function Loaded(c: Config, signalled: nat, silent: nat): State
    requires signalled <= c.writers && silent <= c.producers && signalled + silent <= c.jobs
  {
    State(c.jobs - signalled - silent, 0, 0, signalled + silent, 0, 0, 0, 0, c.producers - silent, silent,
          signalled, c.writers - signalled, 0, false, false, false)
  }

  lemma {:induction false} ReachAsleep(c: Config, n: nat)
    requires n <= c.writers
    ensures Reached(c, State(c.jobs, 0, 0, 0, 0, 0, 0, 0, c.producers, 0, c.writers - n, n, 0, false, false, false))
  {
    var s := State(c.jobs, 0, 0, 0, 0, 0, 0, 0, c.producers, 0, c.writers, 0, 0, false, false, false);
    if n == 0 {
      ReachInit(t => Init(c, t), (t, u) => Next(c, t, u), s);
    } else {
      ReachAsleep(c, n - 1);
      Step(c, s.(readyWriters := c.writers - n + 1, blockedWriters := n - 1), BlockWriter);
    }
  }

  lemma {:induction false} ReachLoaded(c: Config, signalled: nat, silent: nat)
    requires signalled <= c.writers && silent <= c.producers && signalled + silent <= c.jobs
    requires signalled + silent <= c.capacity && c.producers > 0
    ensures Reached(c, Loaded(c, signalled, silent))
    decreases silent, signalled
  {
    if silent > 0 {
      ReachLoaded(c, signalled, silent - 1);
      var s := Loaded(c, signalled, silent - 1);
      Step(c, s, Start);
      Step(c, Apply(c, s, Start), Push);
    } else if signalled > 0 {
      ReachLoaded(c, signalled - 1, 0);
      var s := Loaded(c, signalled - 1, 0);
      Step(c, s, Start);
      var s1 := Apply(c, s, Start);
      Step(c, s1, Push);
      var s2 := Apply(c, s1, Push);
      Step(c, s2, SignalPush(Writer));
    } else {
      ReachAsleep(c, c.writers);
    }
  }

  /** A producer that finds the queue full goes to sleep. */
  lemma SleepOnFull(c: Config, s: State)
    requires Reached(c, s) && s.idle > 0 && s.todo > 0 && s.queued >= c.capacity && !s.cancelled && !s.done
    ensures Reached(c, s.(todo := s.todo - 1, idle := s.idle - 1, blocked := s.blocked + 1))
  {
    Step(c, s, Start);
    var t := Apply(c, s, Start);
    Step(c, t, Block);
    assert Apply(c, t, Block) == s.(todo := s.todo - 1, idle := s.idle - 1, blocked := s.blocked + 1);
  }

  /** A push signal that reaches a producer is lost: the queue is still full. */
  lemma SignalLost(c: Config, s: State)
    requires Reached(c, s) && s.pushUnsignalled > 0 && s.blocked > 0 && s.queued >= c.capacity && !s.cancelled
    ensures Reached(c, s.(pushUnsignalled := s.pushUnsignalled - 1, idle := s.idle + 1))
  {
    Step(c, s, SignalPush(Producer));
    var t := Apply(c, s, SignalPush(Producer));
    Step(c, t, Block);
    assert Apply(c, t, Block) == s.(pushUnsignalled := s.pushUnsignalled - 1, idle := s.idle + 1);
  }

  /** The bound is exact: beyond it, and with enough jobs, some run puts both sides to sleep. */
  lemma BoundIsExact(c: Config)
    requires c.producers > 0 && c.writers > 0 && c.jobs > c.capacity
    ensures Bounded(c) <==> forall s | Reached(c, s) :: Exclusive(s)
  {
    if Bounded(c) {
      forall s | Reached(c, s) ensures Exclusive(s) { ReachedInv(c, s); }
    } else {
      var signalled := if c.capacity < c.writers then c.capacity else c.writers - 1;
      ReachLoaded(c, signalled, c.capacity - signalled);
      SleepOnFull(c, Loaded(c, signalled, c.capacity - signalled));
    }
  }

  /** The constants of a sync, 64 writers and a queue of 1024: up to 961 threads, the default of 256
      included, the two sides never sleep together. */
  lemma SyncConstants(producers: nat, jobs: nat)
    requires producers > 0 && jobs > 1024
    ensures producers <= 961 <==> forall s | Reached(Config(producers, 64, 1024, jobs), s) :: Exclusive(s)
  {
    BoundIsExact(Config(producers, 64, 1024, jobs));
  }
}

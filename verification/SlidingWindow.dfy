/** The adaptive sliding window that all four submit loops share: one submitter, a limit that tasks
    halve or raise by compare-and-swap, and one condition variable. A task lowers the in-flight count
    and notifies in two steps, which covers the loops that do both under the lock. */
module SlidingWindow {
  import opened Chunks

  datatype Phase = Unposted | Running | Left | Finished

  /** Where the submitter is: before its check, past it, asleep in it; then the same for the final wait. */
  datatype Submitter = Checking | Ready | Sleeping | Draining | DrainSleeping | Exited

  /** `tasks` files to submit, a pool of `max` threads, a limit that starts at `initial` and is never
      halved below `floor`; `doubling` chooses how it is raised. */
  datatype Window = Window(tasks: nat, max: nat, initial: nat, floor: nat, doubling: bool)

  /** `loaded` is each task's local copy of the limit, read before its compare-and-swap; `tuned` tells
      whether the swap has succeeded, after which the task leaves the limit alone. */
  datatype State = State(
    phase: seq<Phase>,
    loaded: seq<nat>,
    tuned: seq<bool>,
    posted: nat,
    inFlight: nat,
    limit: nat,
    sub: Submitter,
    cancelled: bool)

  datatype Action =
    | Check
    | Post
    | Leave(k: nat)
    | Notify(k: nat)
    | Load(k: nat)
    | Halve(k: nat)
    | Raise(k: nat)
    | Cancel
    | Spurious

  ghost predicate ValidWindow(w: Window) {
    w.initial <= w.max && w.floor > 0
  }

  function Halved(w: Window, limit: nat): nat {
    Max(limit / 2, w.floor)
  }

  function Raised(w: Window, limit: nat): nat {
    Min(limit + (if w.doubling then limit else Max(limit / 2, 1)), w.max)
  }

  function Start(w: Window): State {
    State(seq(w.tasks, _ => Unposted), seq(w.tasks, _ => 0), seq(w.tasks, _ => false), 0, 0, w.initial, Checking, false)
  }

  predicate Active(s: State, k: nat) {
    k < |s.phase| && k < |s.loaded| && k < |s.tuned| && (s.phase[k] == Running || s.phase[k] == Left)
  }

  predicate Enabled(w: Window, s: State, a: Action) {
    match a
    case Check => s.sub == Checking || s.sub == Draining
    case Post => s.sub == Ready
    case Leave(k) => Active(s, k) && s.phase[k] == Running
    case Notify(k) => Active(s, k) && s.phase[k] == Left
    case Load(k) => Active(s, k)
    case Halve(k) => Active(s, k) && !s.tuned[k] && s.loaded[k] == s.limit && Halved(w, s.limit) < s.limit
    case Raise(k) => Active(s, k) && !s.tuned[k] && s.loaded[k] == s.limit && s.limit < w.max
    case Cancel => true
    case Spurious => s.sub == Sleeping || s.sub == DrainSleeping
  }

  function Woken(sub: Submitter): Submitter {
    if sub == Sleeping then Checking else if sub == DrainSleeping then Draining else sub
  }

  function Checked(w: Window, s: State): Submitter {
    if s.sub == Draining then
      if s.inFlight == 0 then Exited else DrainSleeping
    else if s.cancelled || s.posted >= |s.phase| then Draining
    else if s.inFlight < s.limit then Ready
    else Sleeping
  }

  function Apply(w: Window, s: State, a: Action): State {
    if !Enabled(w, s, a) then s
    else
      match a
      case Check => s.(sub := Checked(w, s))
      case Post =>
        if s.cancelled || s.posted >= |s.phase| then s.(sub := Draining)
        else
          s.(phase := s.phase[s.posted := Running],
             posted := s.posted + 1,
             inFlight := s.inFlight + 1,
             sub := Checking)
      case Leave(k) => s.(phase := s.phase[k := Left], inFlight := Max(s.inFlight - 1, 0))
      case Notify(k) => s.(phase := s.phase[k := Finished], sub := Woken(s.sub))
      case Load(k) => s.(loaded := s.loaded[k := s.limit])
      case Halve(k) => s.(limit := Halved(w, s.loaded[k]), tuned := s.tuned[k := true])
      case Raise(k) => s.(limit := Raised(w, s.loaded[k]), tuned := s.tuned[k := true])
      case Cancel => s.(cancelled := true)
      case Spurious => s.(sub := Woken(s.sub))
  }

  function Run(w: Window, schedule: seq<Action>): State {
    if schedule == [] then Start(w) else Apply(w, Run(w, schedule[..|schedule| - 1]), schedule[|schedule| - 1])
  }

  // ---- Counting tasks ----

  function InPhase(phase: seq<Phase>, p: Phase): nat {
    if phase == [] then 0 else InPhase(phase[..|phase| - 1], p) + if phase[|phase| - 1] == p then 1 else 0
  }

  lemma {:induction false} InPhaseUpdate(phase: seq<Phase>, k: nat, q: Phase, p: Phase)
    requires k < |phase|
    ensures InPhase(phase[k := q], p) == InPhase(phase, p) - (if phase[k] == p then 1 else 0)
        + (if q == p then 1 else 0)
  {
    var h := phase[k := q];
    if k == |phase| - 1 {
      assert h[..k] == phase[..k];
    } else {
      assert h[..|h| - 1] == phase[..|phase| - 1][k := q];
      InPhaseUpdate(phase[..|phase| - 1], k, q, p);
    }
  }

  lemma {:induction false} InPhaseSome(phase: seq<Phase>, p: Phase)
    ensures InPhase(phase, p) > 0 <==> exists k :: 0 <= k < |phase| && phase[k] == p
  {
    if phase != [] {
      var front := phase[..|phase| - 1];
      InPhaseSome(front, p);
      if k :| 0 <= k < |front| && front[k] == p { assert phase[k] == p; }
      if k :| 0 <= k < |phase| && phase[k] == p { assert k < |front| ==> front[k] == p; }
    }
  }

  lemma {:induction false} InPhaseNone(n: nat, p: Phase)
    ensures InPhase(seq(n, _ => Unposted), p) == if p == Unposted then n else 0
  {
    if n > 0 {
      var phase := seq(n, _ => Unposted);
      assert phase[..n - 1] == seq(n - 1, _ => Unposted);
      InPhaseNone(n - 1, p);
    }
  }

  // ---- What every step keeps ----

  /** Every posted task is in flight or has left; the limit stays in its bounds; a sleeping submitter
      has somebody to wake it. */
  ghost predicate Inv(w: Window, s: State) {
    && |s.phase| == |s.loaded| == |s.tuned| == w.tasks && s.posted <= w.tasks
    && (forall k | 0 <= k < |s.phase| :: s.phase[k] == Unposted <==> k >= s.posted)
    && s.inFlight == InPhase(s.phase, Running)
    && s.inFlight <= w.max && (s.sub == Ready ==> s.inFlight < w.max && s.posted < w.tasks)
    && Min(w.floor, w.initial) <= s.limit <= w.max
    && (s.sub == Sleeping ==> s.posted < w.tasks && (s.inFlight + InPhase(s.phase, Left) > 0 || s.limit == 0))
    && (s.sub == DrainSleeping ==> s.inFlight + InPhase(s.phase, Left) > 0)
    && (s.sub == Exited ==> s.inFlight == 0)
    && (s.sub == Draining || s.sub == DrainSleeping || s.sub == Exited ==> s.cancelled || s.posted == w.tasks)
  }

  lemma StartInv(w: Window)
    requires ValidWindow(w)
    ensures Inv(w, Start(w))
  {
    InPhaseNone(w.tasks, Running);
    InPhaseNone(w.tasks, Left);
  }

  lemma PhaseSteps(s: State, k: nat, q: Phase)
    requires k < |s.phase|
    ensures InPhase(s.phase[k := q], Running) == InPhase(s.phase, Running) - (if s.phase[k] == Running then 1 else 0)
        + (if q == Running then 1 else 0)
    ensures InPhase(s.phase[k := q], Left) == InPhase(s.phase, Left) - (if s.phase[k] == Left then 1 else 0)
        + (if q == Left then 1 else 0)
  {
    InPhaseUpdate(s.phase, k, q, Running);
    InPhaseUpdate(s.phase, k, q, Left);
  }

  lemma PostInv(w: Window, s: State)
    requires ValidWindow(w) && Inv(w, s) && s.sub == Ready
    ensures Inv(w, Apply(w, s, Post))
  {
    PhaseSteps(s, s.posted, Running);
  }

  lemma LeaveInv(w: Window, s: State, k: nat)
    requires ValidWindow(w) && Inv(w, s) && Enabled(w, s, Leave(k))
    ensures Inv(w, Apply(w, s, Leave(k)))
  {
    PhaseSteps(s, k, Left);
    InPhaseSome(s.phase, Running);
  }

  lemma NotifyInv(w: Window, s: State, k: nat)
    requires ValidWindow(w) && Inv(w, s) && Enabled(w, s, Notify(k))
    ensures Inv(w, Apply(w, s, Notify(k)))
  {
    PhaseSteps(s, k, Finished);
  }

  lemma LimitInv(w: Window, s: State, k: nat)
    requires ValidWindow(w) && Inv(w, s) && Active(s, k)
    ensures Inv(w, Apply(w, s, Halve(k))) && Inv(w, Apply(w, s, Raise(k)))
  {
    InPhaseSome(s.phase, Running);
    InPhaseSome(s.phase, Left);
  }

  lemma ApplyInv(w: Window, s: State, a: Action)
    requires ValidWindow(w) && Inv(w, s)
    ensures Inv(w, Apply(w, s, a))
  {
    if Enabled(w, s, a) {
      match a
      case Post => PostInv(w, s);
      case Leave(k) => LeaveInv(w, s, k);
      case Notify(k) => NotifyInv(w, s, k);
      case Halve(k) => LimitInv(w, s, k);
      case Raise(k) => LimitInv(w, s, k);
      case Check =>
      case Load(k) =>
      case Cancel =>
      case Spurious =>
    }
  }

  lemma {:induction false} RunInv(w: Window, schedule: seq<Action>)
    requires ValidWindow(w)
    ensures Inv(w, Run(w, schedule))
  {
    if schedule == [] {
      StartInv(w);
    } else {
      RunInv(w, schedule[..|schedule| - 1]);
      ApplyInv(w, Run(w, schedule[..|schedule| - 1]), schedule[|schedule| - 1]);
    }
  }

  /** What moves the limit: a swap that halves it, not below the floor, or one that raises it, by half or to the double
      and not above the pool; nothing else, and a limit above zero is never lowered by a raise. */
  lemma LimitMoves(w: Window, schedule: seq<Action>, a: Action)
    requires ValidWindow(w)
    ensures var s := Run(w, schedule); var t := Apply(w, s, a);
            && (t.limit < s.limit ==> a.Halve? && t.limit == Max(s.limit / 2, w.floor))
            && (t.limit > s.limit ==>
                  a.Raise? && t.limit == Min(s.limit + (if w.doubling then s.limit else Max(s.limit / 2, 1)), w.max))
            && (a.Halve? && Enabled(w, s, a) ==> t.limit < s.limit)
            && (a.Raise? && Enabled(w, s, a) && s.limit > 0 ==> t.limit > s.limit)
  {
    RunInv(w, schedule);
  }

  /** What the limit is for: in a run in which it never exceeds `l`, no more than `l` tasks are in flight. */
  lemma {:induction false} WithinTheLimit(w: Window, schedule: seq<Action>, l: nat)
    requires ValidWindow(w) && forall i | 0 <= i <= |schedule| :: Run(w, schedule[..i]).limit <= l
    ensures Run(w, schedule).inFlight <= l
    ensures Run(w, schedule).sub == Ready ==> Run(w, schedule).inFlight < l
  {
    if schedule != [] {
      var n := |schedule| - 1;
      forall i | 0 <= i <= n ensures Run(w, schedule[..n][..i]).limit <= l {
        assert schedule[..n][..i] == schedule[..i];
      }
      WithinTheLimit(w, schedule[..n], l);
      assert Run(w, schedule[..n]).limit <= l;
    }
  }

  /** A task is posted only after a look at the limit and the flag: the submitter is let through exactly when a file
      is left, nobody cancelled and fewer tasks than the limit are in flight. */
  lemma LetThroughIff(w: Window, s: State)
    requires s.sub == Checking
    ensures Apply(w, s, Check).sub == Ready <==> !s.cancelled && s.posted < |s.phase| && s.inFlight < s.limit
    ensures Apply(w, s, Check).sub == Sleeping <==> !s.cancelled && s.posted < |s.phase| && s.inFlight >= s.limit
  {}

  lemma {:induction false} PostedSplit(phase: seq<Phase>, posted: nat)
    requires posted <= |phase| && forall k | 0 <= k < |phase| :: phase[k] == Unposted <==> k >= posted
    ensures posted == InPhase(phase, Running) + InPhase(phase, Left) + InPhase(phase, Finished)
  {
    if phase != [] {
      PostedSplit(phase[..|phase| - 1], Min(posted, |phase| - 1));
    }
  }

  /** Conservation and bounds, in every state of every run: posted tasks are in flight or past it,
      in-flight tasks never outnumber the pool, and the limit survives every race within its bounds. */
  lemma Conservation(w: Window, schedule: seq<Action>)
    requires ValidWindow(w)
    ensures var s := Run(w, schedule);
            && s.posted == s.inFlight + InPhase(s.phase, Left) + InPhase(s.phase, Finished)
            && s.inFlight <= w.max
            && Min(w.floor, w.initial) <= s.limit <= w.max
  {
    RunInv(w, schedule);
    PostedSplit(Run(w, schedule).phase, Run(w, schedule).posted);
  }

  /** The loop exits only when no posted task is in flight, and uncancelled only when all were posted. */
  lemma ExitMeansDone(w: Window, schedule: seq<Action>, k: nat)
    requires ValidWindow(w) && Run(w, schedule).sub == Exited && k < w.tasks
    ensures var s := Run(w, schedule);
            k < |s.phase| && (s.phase[k] == Left || s.phase[k] == Finished || (s.cancelled && s.phase[k] == Unposted))
  {
    var s := Run(w, schedule);
    RunInv(w, schedule);
    InPhaseSome(s.phase, Running);
  }

  // ---- No deadlock ----

  /** The steps that must carry the run on; the others can only help or delay. */
  predicate Driving(a: Action) {
    a.Check? || a.Post? || a.Leave? || a.Notify?
  }

  ghost predicate CanMove(w: Window, s: State) {
    exists a :: Driving(a) && Enabled(w, s, a)
  }

  /** With at least one slot to begin with, or nothing to do, no reachable state is stuck. */
  lemma NeverStuck(w: Window, schedule: seq<Action>)
    requires ValidWindow(w) && (w.initial > 0 || w.tasks == 0)
    ensures var s := Run(w, schedule); s.sub == Exited || CanMove(w, s)
  {
    var s := Run(w, schedule);
    RunInv(w, schedule);
    InPhaseSome(s.phase, Running);
    InPhaseSome(s.phase, Left);
    if s.sub == Checking || s.sub == Draining {
      assert Enabled(w, s, Check) && Driving(Check);
    } else if s.sub == Ready {
      assert Enabled(w, s, Post) && Driving(Post);
    } else if s.sub != Exited {
      var k :| 0 <= k < |s.phase| && (s.phase[k] == Running || s.phase[k] == Left);
      var a := if s.phase[k] == Running then Leave(k) else Notify(k);
      assert Enabled(w, s, a) && Driving(a);
    }
  }

  /** Without a slot and with something to do, the submitter falls asleep at once and nothing can
      wake it: no task runs, and raising the cancel flag notifies nobody. */
  lemma StuckWithoutSlot(w: Window)
    requires ValidWindow(w) && w.max == 0 && w.tasks > 0
    ensures Run(w, [Check]).sub == Sleeping && !CanMove(w, Run(w, [Check]))
    ensures Apply(w, Run(w, [Check]), Cancel).sub == Sleeping && !CanMove(w, Apply(w, Run(w, [Check]), Cancel))
  {
    assert [Check][..0] == [];
    assert Run(w, []) == Start(w);
    assert Run(w, [Check]) == Start(w).(sub := Sleeping);
  }

  /** Exactly when the loop is free of deadlock, for a limit that starts within its pool. */
  lemma DeadlockFreeIff(w: Window)
    requires ValidWindow(w) && (w.initial == 0 ==> w.max == 0)
    ensures (forall schedule :: Run(w, schedule).sub == Exited || CanMove(w, Run(w, schedule))) <==>
      w.max > 0 || w.tasks == 0
  {
    if w.max > 0 || w.tasks == 0 {
      forall schedule ensures Run(w, schedule).sub == Exited || CanMove(w, Run(w, schedule)) {
        NeverStuck(w, schedule);
      }
    } else {
      StuckWithoutSlot(w);
    }
  }

  // ---- Runs end ----

  function Cost(p: Phase): nat {
    match p
    case Unposted => 10
    case Running => 6
    case Left => 4
    case Finished => 0
  }

  function Distance(sub: Submitter): nat {
    match sub
    case Checking => 5
    case Ready => 4
    case Sleeping => 4
    case Draining => 2
    case DrainSleeping => 1
    case Exited => 0
  }

  function Costs(phase: seq<Phase>): nat {
    if phase == [] then 0 else Costs(phase[..|phase| - 1]) + Cost(phase[|phase| - 1])
  }

  lemma {:induction false} CostsUpdate(phase: seq<Phase>, k: nat, q: Phase)
    requires k < |phase|
    ensures Costs(phase[k := q]) == Costs(phase) - Cost(phase[k]) + Cost(q)
  {
    var h := phase[k := q];
    if k == |phase| - 1 {
      assert h[..k] == phase[..k];
    } else {
      assert h[..|h| - 1] == phase[..|phase| - 1][k := q];
      CostsUpdate(phase[..|phase| - 1], k, q);
    }
  }

  lemma {:induction false} CostsStart(n: nat)
    ensures Costs(seq(n, _ => Unposted)) == 10 * n
  {
    if n > 0 {
      var phase := seq(n, _ => Unposted);
      assert phase[..n - 1] == seq(n - 1, _ => Unposted);
      CostsStart(n - 1);
    }
  }

  /** Tasks whose copy of the limit is out of date. */
  function Stale(loaded: seq<nat>, limit: nat): nat {
    if loaded == [] then 0 else Stale(loaded[..|loaded| - 1], limit) + if loaded[|loaded| - 1] != limit then 1 else 0
  }

  lemma {:induction false} StaleUpdate(loaded: seq<nat>, k: nat, limit: nat)
    requires k < |loaded|
    ensures Stale(loaded[k := limit], limit) == Stale(loaded, limit) - if loaded[k] != limit then 1 else 0
  {
    var h := loaded[k := limit];
    if k == |loaded| - 1 {
      assert h[..k] == loaded[..k];
    } else {
      assert h[..|h| - 1] == loaded[..|loaded| - 1][k := limit];
      StaleUpdate(loaded[..|loaded| - 1], k, limit);
    }
  }

  lemma {:induction false} StaleBound(loaded: seq<nat>, limit: nat)
    ensures Stale(loaded, limit) <= |loaded|
  {
    if loaded != [] { StaleBound(loaded[..|loaded| - 1], limit); }
  }

  /** A unit for every task that may still change the limit. */
  function Untuned(tuned: seq<bool>, unit: nat): nat {
    if tuned == [] then 0 else Untuned(tuned[..|tuned| - 1], unit) + if tuned[|tuned| - 1] then 0 else unit
  }

  lemma {:induction false} UntunedUpdate(tuned: seq<bool>, k: nat, unit: nat)
    requires k < |tuned| && !tuned[k]
    ensures Untuned(tuned[k := true], unit) + unit == Untuned(tuned, unit)
  {
    var h := tuned[k := true];
    if k == |tuned| - 1 {
      assert h[..k] == tuned[..k];
    } else {
      assert h[..|h| - 1] == tuned[..|tuned| - 1][k := true];
      UntunedUpdate(tuned[..|tuned| - 1], k, unit);
    }
  }

  lemma {:induction false} UntunedStart(n: nat, unit: nat)
    ensures Untuned(seq(n, _ => false), unit) == n * unit
  {
    if n > 0 {
      var tuned := seq(n, _ => false);
      assert tuned[..n - 1] == seq(n - 1, _ => false);
      UntunedStart(n - 1, unit);
      Distribute(n, unit);
    }
  }

  /** What tasks and submitter still have to do, and what the races for the limit can still cost: a
      successful swap makes every other copy stale once. */
  function Potential(s: State): nat {
    Costs(s.phase) + Distance(s.sub) + Untuned(s.tuned, |s.loaded| + 1) + Stale(s.loaded, s.limit)
  }

  /** The steps that do something: the driving ones, a swap, and reading a limit that has changed. */
  predicate Working(w: Window, s: State, a: Action) {
    && Enabled(w, s, a)
    && (Driving(a) || a.Halve? || a.Raise? || (a.Load? && s.loaded[a.k] != s.limit))
  }

  lemma PostDescends(w: Window, s: State)
    requires Inv(w, s) && Enabled(w, s, Post)
    ensures Potential(Apply(w, s, Post)) < Potential(s)
  {
    if !s.cancelled { CostsUpdate(s.phase, s.posted, Running); }
  }

  lemma LeaveDescends(w: Window, s: State, k: nat)
    requires Inv(w, s) && Enabled(w, s, Leave(k))
    ensures Potential(Apply(w, s, Leave(k))) < Potential(s)
  {
    CostsUpdate(s.phase, k, Left);
  }

  lemma NotifyDescends(w: Window, s: State, k: nat)
    requires Inv(w, s) && Enabled(w, s, Notify(k))
    ensures Potential(Apply(w, s, Notify(k))) < Potential(s)
  {
    CostsUpdate(s.phase, k, Finished);
  }

  lemma TuneDescends(w: Window, s: State, a: Action)
    requires Inv(w, s) && Enabled(w, s, a) && (a.Halve? || a.Raise?)
    ensures Potential(Apply(w, s, a)) < Potential(s)
  {
    var t := Apply(w, s, a);
    UntunedUpdate(s.tuned, a.k, |s.loaded| + 1);
    StaleBound(t.loaded, t.limit);
  }

  /** Every working step pays; a step that does nothing is free; only a spurious wakeup costs, and one unit. */
  lemma Descends(w: Window, s: State, a: Action)
    requires Inv(w, s)
    ensures Working(w, s, a) ==> Potential(Apply(w, s, a)) < Potential(s)
    ensures Potential(Apply(w, s, a)) <= Potential(s) + if a.Spurious? then 1 else 0
  {
    if Enabled(w, s, a) {
      match a
      case Post => PostDescends(w, s);
      case Leave(k) => LeaveDescends(w, s, k);
      case Notify(k) => NotifyDescends(w, s, k);
      case Load(k) => StaleUpdate(s.loaded, k, s.limit);
      case Halve(k) => TuneDescends(w, s, a);
      case Raise(k) => TuneDescends(w, s, a);
      case Check =>
      case Cancel =>
      case Spurious =>
    }
  }

  /** The number of working steps a schedule really takes. */
  function Moves(w: Window, schedule: seq<Action>): nat {
    if schedule == [] then 0
    else
      var front := schedule[..|schedule| - 1];
      Moves(w, front) + if Working(w, Run(w, front), schedule[|schedule| - 1]) then 1 else 0
  }

  function Wakeups(schedule: seq<Action>): nat {
    if schedule == [] then 0
    else Wakeups(schedule[..|schedule| - 1]) + if schedule[|schedule| - 1].Spurious? then 1 else 0
  }

  lemma {:induction false} RunsDescend(w: Window, schedule: seq<Action>)
    requires ValidWindow(w)
    ensures Moves(w, schedule) + Potential(Run(w, schedule)) <= Potential(Start(w)) + Wakeups(schedule)
  {
    if schedule != [] {
      var front := schedule[..|schedule| - 1];
      RunsDescend(w, front);
      RunInv(w, front);
      Descends(w, Run(w, front), schedule[|schedule| - 1]);
    }
  }

  /** With NeverStuck: every fair run reaches the exit. It takes at most ten steps a task, one swap a task,
      as many re-reads of the limit as swaps can make necessary, and one step for each wakeup the
      system makes without cause. */
  lemma RunsEnd(w: Window, schedule: seq<Action>)
    requires ValidWindow(w)
    ensures Moves(w, schedule) <= 11 * w.tasks + 5 + w.tasks * (w.tasks + 1) + Wakeups(schedule)
  {
    RunsDescend(w, schedule);
    CostsStart(w.tasks);
    UntunedStart(w.tasks, w.tasks + 1);
    StaleBound(Start(w).loaded, w.initial);
  }

  // ---- The windows of the four loops ----

  /** Deleting: the pool as configured, at most 64 in flight to begin with, halved to 16. */
  function DeleteWindow(tasks: nat, maxThreads: nat): Window {
    Window(tasks, maxThreads, Min(maxThreads, 64), 16, true)
  }

  /** Synchronising: no more threads than files; only between buckets does it start at 64 and double. */
  function SyncWindow(tasks: nat, maxThreads: nat, betweenBuckets: bool): Window {
    var max := Min(maxThreads, tasks);
    Window(tasks, max, if betweenBuckets then Min(max, 64) else max, 16, betweenBuckets)
  }

  /** Copying parts: 16 to begin with when ramping up, else the whole pool. */
  function PartWindow(tasks: nat, numThreads: nat, rampUp: bool): Window
    requires numThreads > 0
  {
    Window(tasks, numThreads, if rampUp then Min(16, numThreads) else numThreads, Min(16, numThreads), true)
  }

  /** Integer division, with what it means. */
  function Share(a: nat, b: int): (q: nat)
    requires b > 0
    ensures q <= a && (q > 0 <==> b <= a)
  {
    QuotientPositive(a, b);
    a / b
  }

  lemma QuotientPositive(a: nat, b: int)
    requires b > 0
    ensures 0 <= a / b <= a && (a / b > 0 <==> b <= a)
  {
    DivLaw(a, b);
    if a / b > a { MulMono(a + 1, a / b, b); MulMono(1, b, a + 1); }
    if a / b > 0 { MulMono(1, a / b, b); }
    if a / b < 1 { MulMono(a / b, 0, b); }
  }

  lemma DivLaw(a: int, b: int)
    requires b > 0
    ensures a / b * b <= a < a / b * b + b
  {}

  /** Comparing directories: how the thread budget is split between files and chunks. */
  datatype ThreadPlan = ThreadPlan(perFile: nat, max: nat, initial: nat)

  function Budget(numThreads: int): (b: nat)
    ensures b > 0
  {
    if numThreads > 0 then numThreads else 1024
  }

  /** `files` common files, `large` of them longer than one chunk. The share of a mixed workload is the
      whole part of four times the ratio of large files, plus one. */
  function PerFile(numThreads: int, files: nat, large: nat): (n: nat)
    requires large <= files
    ensures n > 0
  {
    if files == 0 || large == 0 then 1
    else if large == files then Max(1, Share(Budget(numThreads), Max(1, files)))
    else if 2 * large > files then Max(1, Share(4 * large, files) + 1)
    else 1
  }

  function PlanThreads(numThreads: int, files: nat, large: nat): ThreadPlan
    requires large <= files
  {
    var budget := Budget(numThreads);
    var perFile := PerFile(numThreads, files, large);
    var wanted :=
      if files == 0 then 0
      else if large == 0 then Min(files, budget)
      else if large == files || 2 * large > files then Min(files, Share(budget, perFile))
      else Min(files, budget);
    ThreadPlan(perFile, Share(budget, perFile), Min(wanted, Share(budget, perFile)))
  }

  function CompareWindow(numThreads: int, files: nat, large: nat): Window
    requires large <= files
  {
    var p := PlanThreads(numThreads, files, large);
    Window(files, p.max, p.initial, 1, true)
  }

  lemma MixedShare(files: nat, large: nat)
    requires 0 < large < files && 2 * large > files
    ensures Share(4 * large, files) + 1 == if 4 * large >= 3 * files then 4 else 3
  {
    var q := 4 * large / files;
    DivLaw(4 * large, files);
    if q < 2 { MulMono(q, 1, files); }
    if q > 3 { MulMono(4, q, files); }
    if q == 2 { assert q * files == 2 * files; }
    if q == 3 { assert q * files == 3 * files; }
  }

  /** A slot exists exactly when one file's threads fit the budget. */
  lemma SlotExistsIff(numThreads: int, files: nat, large: nat)
    requires 0 < files && large <= files
    ensures var p := PlanThreads(numThreads, files, large);
            && (p.initial > 0 <==> p.perFile <= Budget(numThreads))
            && (p.max > 0 <==> p.perFile <= Budget(numThreads))
            && p.initial <= p.max
  {}

  /** Only the mixed workload with a majority of large files can miss, and only with a budget of one to
      three threads: always up to two, and with three when at least three quarters are large. */
  ghost predicate NoSlot(numThreads: int, files: nat, large: nat) {
    0 < large < files && 2 * large > files && 0 < numThreads < (if 4 * large >= 3 * files then 4 else 3)
  }

  lemma WhenNoSlotExists(numThreads: int, files: nat, large: nat)
    requires 0 < files && large <= files
    ensures PlanThreads(numThreads, files, large).max == 0 <==> NoSlot(numThreads, files, large)
  {
    SlotExistsIff(numThreads, files, large);
    if 0 < large < files && 2 * large > files {
      MixedShare(files, large);
    }
  }

  /** The directory comparison is free of deadlock exactly in the other cases. */
  lemma ComparisonDeadlockFreeIff(numThreads: int, files: nat, large: nat)
    requires large <= files
    ensures var w := CompareWindow(numThreads, files, large);
            (forall schedule :: Run(w, schedule).sub == Exited || CanMove(w, Run(w, schedule))) <==>
                !NoSlot(numThreads, files, large)
  {
    var w := CompareWindow(numThreads, files, large);
    if files > 0 {
      SlotExistsIff(numThreads, files, large);
      WhenNoSlotExists(numThreads, files, large);
      DeadlockFreeIff(w);
    } else {
      forall schedule ensures Run(w, schedule).sub == Exited || CanMove(w, Run(w, schedule)) {
        NeverStuck(w, schedule);
      }
    }
  }

  /** The other three loops never deadlock, with any positive thread count. */
  lemma OtherLoopsNeverStick(tasks: nat, threads: nat, rampUp: bool, betweenBuckets: bool, schedule: seq<Action>)
    requires threads > 0
    ensures forall w | w == DeleteWindow(tasks, threads) || w == PartWindow(tasks, threads, rampUp)
        || w == SyncWindow(tasks, threads, betweenBuckets) ::
              Run(w, schedule).sub == Exited || CanMove(w, Run(w, schedule))
  {
    NeverStuck(DeleteWindow(tasks, threads), schedule);
    NeverStuck(PartWindow(tasks, threads, rampUp), schedule);
    NeverStuck(SyncWindow(tasks, threads, betweenBuckets), schedule);
  }
}

/** Beyond the bound the write queue can stop for good, with any number of writers: signals for one
    side reach the other while both have sleepers. */
module WriteQueueDeadlock {
  import opened WriteQueue

  /** A running state: nothing skipped, nobody gone, no flag raised. */
  function Live(todo: nat, ready: nat, blocked: nat, queued: nat, popped: nat, writing: nat, written: nat,
                idle: nat, pushed: nat, readyWriters: nat, blockedWriters: nat): State
  {
    State(todo, ready, blocked, queued, popped, writing, written, 0, idle, pushed, readyWriters, blockedWriters, 0,
          false, false, false)
  }

  ghost predicate Stuck(c: Config, s: State) {
    forall a | OwnStep(a) :: !Enabled(c, s, a)
  }

  // ---- Two writers or more: an empty queue beside a sleeping producer ----

  /** How many producers have to sleep at a full queue: the pops that empty it signal all but one of
      them, and the writers but one hold the signals of the others back until the last writer sleeps. */
  function Sleepers(c: Config): nat {
    if c.capacity + 2 <= c.writers + 1 then 1 else c.capacity + 2 - c.writers
  }

  predicate Overloaded(c: Config) {
    c.producers > 0 && c.writers >= 2 && !Bounded(c) && c.jobs >= c.capacity + Sleepers(c)
  }

  /** `n` jobs pushed while every writer is awake and slow: their signals find nobody. */
  lemma {:induction false} ReachPushed(c: Config, n: nat)
    requires Overloaded(c) && n <= c.capacity
    ensures Reached(c, Live(c.jobs - n, 0, 0, n, 0, 0, 0, c.producers, 0, c.writers, 0))
  {
    if n == 0 {
      var s := Live(c.jobs, 0, 0, 0, 0, 0, 0, c.producers, 0, c.writers, 0);
      ReachFirst(c, s);
    } else {
      ReachPushed(c, n - 1);
      var s := Live(c.jobs - n + 1, 0, 0, n - 1, 0, 0, 0, c.producers, 0, c.writers, 0);
      Step(c, s, Start);
      var s1 := Live(c.jobs - n, 1, 0, n - 1, 0, 0, 0, c.producers - 1, 0, c.writers, 0);
      Step(c, s1, Push);
      var s2 := Live(c.jobs - n, 0, 0, n, 0, 0, 0, c.producers - 1, 1, c.writers, 0);
      Step(c, s2, SignalPush(NoOne));
    }
  }

  /** Then `b` producers find the queue full. */
  lemma {:induction false} ReachBlocked(c: Config, b: nat)
    requires Overloaded(c) && b <= Sleepers(c)
    ensures Reached(c, Live(c.jobs - c.capacity - b, 0, b, c.capacity, 0, 0, 0, c.producers - b, 0, c.writers, 0))
  {
    if b == 0 {
      ReachPushed(c, c.capacity);
    } else {
      ReachBlocked(c, b - 1);
      SleepOnFull(c, Live(c.jobs - c.capacity - b + 1, 0, b - 1, c.capacity, 0, 0, 0, c.producers - b + 1, 0,
          c.writers, 0));
    }
  }

  /** Jobs nobody has started when `Sleepers` producers sleep at the full queue. */
  function Rest(c: Config): nat
    requires Overloaded(c)
  {
    c.jobs - c.capacity - Sleepers(c)
  }

  /** All producers that are not asleep or holding a woken job. */
  function Spare(c: Config): nat
    requires Overloaded(c)
  {
    c.producers - Sleepers(c)
  }

  /** `n` pops, each signalled to a producer, which is slow to look. */
  lemma {:induction false} ReachWoken(c: Config, n: nat)
    requires Overloaded(c) && n < Sleepers(c)
    ensures n <= c.capacity
    ensures Reached(c, Live(Rest(c), n, Sleepers(c) - n, c.capacity - n, 0, 0, n, Spare(c), 0, c.writers, 0))
  {
    if n == 0 {
      ReachBlocked(c, Sleepers(c));
    } else {
      ReachWoken(c, n - 1);
      var r, b, q := n - 1, Sleepers(c) - n + 1, c.capacity - n + 1;
      Step(c, Live(Rest(c), r, b, q, 0, 0, r, Spare(c), 0, c.writers, 0), Pop);
      Step(c, Live(Rest(c), r, b, q - 1, 1, 0, r, Spare(c), 0, c.writers - 1, 0), SignalPop(Producer));
      Step(c, Live(Rest(c), n, b - 1, q - 1, 0, 1, r, Spare(c), 0, c.writers - 1, 0), Finish);
    }
  }

  /** What is left in the queue when one producer still sleeps: less than one job a writer. */
  function Left(c: Config): (n: nat)
    requires Overloaded(c)
    ensures n < c.writers
  {
    c.capacity - (Sleepers(c) - 1)
  }

  /** `n` pops whose signals are still to come. */
  lemma {:induction false} ReachPopped(c: Config, n: nat)
    requires Overloaded(c) && n <= Left(c)
    ensures Reached(c, Live(Rest(c), Sleepers(c) - 1, 1, Left(c) - n, n, 0, Sleepers(c) - 1, Spare(c), 0,
        c.writers - n, 0))
  {
    if n == 0 {
      ReachWoken(c, Sleepers(c) - 1);
    } else {
      ReachPopped(c, n - 1);
      Step(c, Live(Rest(c), Sleepers(c) - 1, 1, Left(c) - n + 1, n - 1, 0, Sleepers(c) - 1, Spare(c), 0,
          c.writers - n + 1, 0), Pop);
    }
  }

  /** The writers that hold nothing find the queue empty. */
  lemma {:induction false} ReachOthersAsleep(c: Config, n: nat)
    requires Overloaded(c) && n <= c.writers - Left(c)
    ensures Reached(c, Live(Rest(c), Sleepers(c) - 1, 1, 0, Left(c), 0, Sleepers(c) - 1, Spare(c), 0,
        c.writers - Left(c) - n, n))
  {
    if n == 0 {
      ReachPopped(c, Left(c));
    } else {
      ReachOthersAsleep(c, n - 1);
      Step(c, Live(Rest(c), Sleepers(c) - 1, 1, 0, Left(c), 0, Sleepers(c) - 1, Spare(c), 0,
                   c.writers - Left(c) - n + 1, n - 1), BlockWriter);
    }
  }

  /** Each held-back signal wakes a writer for nothing; then its own writer finishes and sleeps too. */
  lemma {:induction false} ReachAllAsleep(c: Config, n: nat)
    requires Overloaded(c) && n <= Left(c)
    ensures Reached(c, Live(Rest(c), Sleepers(c) - 1, 1, 0, Left(c) - n, 0, Sleepers(c) - 1 + n, Spare(c), 0, 0,
        c.writers - Left(c) + n))
  {
    if n == 0 {
      ReachOthersAsleep(c, c.writers - Left(c));
    } else {
      ReachAllAsleep(c, n - 1);
      SignalWasted(c, Rest(c), Sleepers(c) - 1, Left(c) - n + 1, Sleepers(c) - 2 + n, Spare(c),
                   c.writers - Left(c) + n - 1);
    }
  }

  /** A pop signal that reaches a writer while the queue is empty. */
  lemma SignalWasted(c: Config, todo: nat, ready: nat, popped: nat, written: nat, idle: nat, asleep: nat)
    requires popped > 0 && asleep > 0 && Reached(c, Live(todo, ready, 1, 0, popped, 0, written, idle, 0, 0, asleep))
    ensures Reached(c, Live(todo, ready, 1, 0, popped - 1, 0, written + 1, idle, 0, 0, asleep + 1))
  {
    Step(c, Live(todo, ready, 1, 0, popped, 0, written, idle, 0, 0, asleep), SignalPop(Writer));
    Step(c, Live(todo, ready, 1, 0, popped - 1, 1, written, idle, 0, 1, asleep - 1), BlockWriter);
    Step(c, Live(todo, ready, 1, 0, popped - 1, 1, written, idle, 0, 0, asleep), Finish);
    Step(c, Live(todo, ready, 1, 0, popped - 1, 0, written + 1, idle, 0, 1, asleep), BlockWriter);
  }

  /** The queue is empty, every writer sleeps, and one producer sleeps with a job in hand. */
  function Emptied(c: Config, todo: nat, ready: nat): State
    requires todo + ready + 1 <= c.jobs && ready + 1 <= c.producers
  {
    Live(todo, ready, 1, 0, 0, 0, c.jobs - todo - ready - 1, c.producers - 1 - ready, 0, 0, c.writers)
  }

  /** Another producer's job passes through without waking the sleeper. */
  lemma JobPasses(c: Config, todo: nat, ready: nat)
    requires c.writers >= 2 && c.capacity > 0 && ready > 0 && todo + ready + 1 <= c.jobs && ready + 1 <= c.producers
    requires Reached(c, Emptied(c, todo, ready))
    ensures Reached(c, Emptied(c, todo, ready - 1))
  {
    var done, idle := c.jobs - todo - ready - 1, c.producers - 1 - ready;
    Step(c, Emptied(c, todo, ready), Push);
    Step(c, Live(todo, ready - 1, 1, 1, 0, 0, done, idle, 1, 0, c.writers), SignalPush(Writer));
    Step(c, Live(todo, ready - 1, 1, 1, 0, 0, done, idle + 1, 0, 1, c.writers - 1), Pop);
    SignalWasted(c, todo, ready - 1, 1, done, idle + 1, c.writers - 1);
  }

  lemma {:induction false} AllJobsPass(c: Config, todo: nat, ready: nat)
    requires c.writers >= 2 && c.capacity > 0 && todo + ready + 1 <= c.jobs && ready + 1 <= c.producers
    requires Reached(c, Emptied(c, todo, ready))
    ensures Reached(c, Emptied(c, if c.producers == 1 then todo else 0, 0))
    decreases todo, ready
  {
    if ready > 0 {
      JobPasses(c, todo, ready);
      AllJobsPass(c, todo, ready - 1);
    } else if todo > 0 && c.producers > 1 {
      Step(c, Emptied(c, todo, 0), Start);
      assert Apply(c, Emptied(c, todo, 0), Start) == Emptied(c, todo - 1, 1);
      AllJobsPass(c, todo - 1, 1);
    }
  }

  lemma EmptiedIsStuck(c: Config, todo: nat)
    requires todo + 1 <= c.jobs && 0 < c.producers && (todo == 0 || c.producers == 1)
    ensures Stuck(c, Emptied(c, todo, 0)) && !Complete(c, Emptied(c, todo, 0))
  {}

  // ---- A queue no larger than the producers: a full queue beside sleeping writers ----

  /** The queue is full, every writer sleeps, and `b` producers sleep. */
  function Filled(c: Config, b: nat, silent: nat): State
    requires c.capacity + b <= c.jobs && b + silent <= c.producers
  {
    Live(c.jobs - c.capacity - b, 0, b, c.capacity, 0, 0, 0, c.producers - b - silent, silent, 0, c.writers)
  }

  /** As many pushes as the queue holds keep their signals back; the last of them are then wasted on a
      producer that finds the queue full. */
  lemma {:induction false} ReachFilled(c: Config, silent: nat)
    requires c.writers > 0 && c.producers > c.capacity && c.jobs > c.capacity && silent <= c.capacity
    ensures Reached(c, Filled(c, 1, silent))
    decreases c.capacity - silent
  {
    if silent == c.capacity {
      ReachLoaded(c, 0, c.capacity);
      SleepOnFull(c, Loaded(c, 0, c.capacity));
    } else {
      ReachFilled(c, silent + 1);
      SignalLost(c, Filled(c, 1, silent + 1));
    }
  }

  lemma {:induction false} ReachAllBlocked(c: Config, b: nat)
    requires c.writers > 0 && c.producers > c.capacity && 0 < b <= c.producers && c.capacity + b <= c.jobs
    ensures Reached(c, Filled(c, b, 0))
  {
    if b == 1 {
      ReachFilled(c, 0);
    } else {
      ReachAllBlocked(c, b - 1);
      SleepOnFull(c, Filled(c, b - 1, 0));
    }
  }

  lemma FilledIsStuck(c: Config, b: nat)
    requires 0 < b <= c.producers && c.capacity + b <= c.jobs && (b == c.producers || c.capacity + b == c.jobs)
    requires c.capacity > 0 || c.writers > 0
    ensures Stuck(c, Filled(c, b, 0)) && !Complete(c, Filled(c, b, 0))
  {}

  // ---- Both ----

  ghost predicate CanDeadlock(c: Config) {
    exists s :: Reached(c, s) && Stuck(c, s) && !Complete(c, s)
  }

  /** Beyond the bound, and with enough jobs, some run stops for good with a job undelivered. */
  lemma BeyondTheBound(c: Config)
    requires c.producers > 0 && c.writers > 0 && !Bounded(c)
    requires if c.producers > c.capacity then c.jobs > c.capacity else c.jobs >= c.capacity + Sleepers(c)
    ensures CanDeadlock(c)
  {
    if c.producers > c.capacity {
      var b := if c.jobs - c.capacity < c.producers then c.jobs - c.capacity else c.producers;
      ReachAllBlocked(c, b);
      FilledIsStuck(c, b);
    } else {
      ReachAllAsleep(c, Left(c));
      assert Live(Rest(c), Sleepers(c) - 1, 1, 0, 0, 0, Sleepers(c) - 1 + Left(c), Spare(c), 0, 0, c.writers)
          == Emptied(c, Rest(c), Sleepers(c) - 1);
      AllJobsPass(c, Rest(c), Sleepers(c) - 1);
      EmptiedIsStuck(c, if c.producers == 1 then Rest(c) else 0);
    }
  }

  /** The exact condition: with enough jobs, no reachable state with work left is stuck if and only if
      producers and writers together number at most one more than the places of the queue. */
  lemma DeadlockFreeIff(c: Config)
    requires c.producers > 0 && c.writers > 0 && c.jobs >= c.capacity + c.producers
    ensures (forall s | Reached(c, s) && Stuck(c, s) :: Complete(c, s)) <==> Bounded(c)
  {
    if Bounded(c) {
      forall s | Reached(c, s) && Stuck(c, s) ensures Complete(c, s) {
        ReachedInv(c, s);
        NeverStuck(c, s);
      }
    } else {
      BeyondTheBound(c);
    }
  }

  /** The constants of a sync, 64 writers and a queue of 1024: the largest pool that cannot deadlock has
      961 threads. The default is 256. */
  lemma LargestSafePool(producers: nat, jobs: nat)
    requires producers > 0 && jobs >= 1024 + producers
    ensures var c := Config(producers, 64, 1024, jobs);
            (forall s | Reached(c, s) && Stuck(c, s) :: Complete(c, s)) <==> producers <= 961
  {
    DeadlockFreeIff(Config(producers, 64, 1024, jobs));
  }
}

/** A whole recursive deletion: tasks in any interleaving, each under the contract its code was proved
    to keep, cancellation at any point, and the verdict on the counters. */
module RmRun {
  import opened Sequences
  import opened Cancel
  import opened RmTask

  // ---- Batches ----

  const BatchSize: nat := 500

  function Flatten(batches: seq<seq<Key>>): seq<Key> {
    if batches == [] then [] else Flatten(batches[..|batches| - 1]) + batches[|batches| - 1]
  }

  lemma FlattenSnoc(batches: seq<seq<Key>>, b: seq<Key>)
    ensures Flatten(batches + [b]) == Flatten(batches) + b
  {
    assert (batches + [b])[..|batches|] == batches;
  }

  lemma {:induction false} FlattenMember(batches: seq<seq<Key>>, k: Key)
    ensures k in Flatten(batches) <==> exists i :: 0 <= i < |batches| && k in batches[i]
  {
    if batches != [] {
      var front := batches[..|batches| - 1];
      FlattenMember(front, k);
      if i :| 0 <= i < |front| && k in front[i] { assert k in batches[i]; }
      if i :| 0 <= i < |batches| && k in batches[i] {
        if i < |front| { assert k in front[i]; }
      }
    }
  }

  /** What the batching loop keeps: full batches, and what is collected, in order. */
  ghost predicate Cut(keys: seq<Key>, at: nat, batches: seq<seq<Key>>, batch: seq<Key>) {
    && at <= |keys| && |batch| < BatchSize
    && Flatten(batches) + batch == keys[..at]
    && forall i | 0 <= i < |batches| :: |batches[i]| == BatchSize
  }

  lemma CutMore(keys: seq<Key>, at: nat, batches: seq<seq<Key>>, batch: seq<Key>)
    requires Cut(keys, at, batches, batch) && at < |keys|
    ensures var longer := batch + [keys[at]];
            if |longer| >= BatchSize then Cut(keys, at + 1, batches + [longer], [])
            else Cut(keys, at + 1, batches, longer)
  {
    var longer := batch + [keys[at]];
    assert keys[..at + 1] == keys[..at] + [keys[at]];
    assert Flatten(batches) + longer == keys[..at + 1];
    FlattenSnoc(batches, longer);
  }

  /** The loop that cuts the listing into batches, and the cancellation that may cut it short. */
  method MakeBatches(keys: seq<Key>, cancel: Cancellation) returns (batches: seq<seq<Key>>)
    modifies cancel
    ensures old(cancel.raised) ==> cancel.raised
    ensures forall i | 0 <= i < |batches| :: 0 < |batches[i]| <= BatchSize
    ensures forall i | 0 <= i < |batches| - 1 :: |batches[i]| == BatchSize
    ensures Flatten(batches) <= keys && (Flatten(batches) == keys || cancel.raised)
  {
    batches := [];
    var batch: seq<Key> := [];
    var at := 0;
    while at < |keys|
      invariant 0 <= at <= |keys| && Cut(keys, at, batches, batch)
      invariant old(cancel.raised) ==> cancel.raised
    {
      var stop := cancel.Look();
      if stop { break; }
      CutMore(keys, at, batches, batch);
      batch := batch + [keys[at]];
      at := at + 1;
      if |batch| >= BatchSize {
        batches, batch := batches + [batch], [];
      }
    }
    if batch != [] {
      FlattenSnoc(batches, batch);
      batches := batches + [batch];
    }
    PrefixOf(keys, at);
  }

  lemma PrefixOf(keys: seq<Key>, at: nat)
    requires at <= |keys|
    ensures keys[..at] <= keys && (at == |keys| ==> keys[..at] == keys)
  {}

  // ---- The run ----

  datatype Phase = Unposted | Posted | Done(out: Outcome)

  /** The listing, cut into tasks of one key (the default) or of one batch. A cancellation while the
      batches were cut may have left a tail of the listing out. */
  datatype Job = Job(listing: seq<Key>, tasks: seq<seq<Key>>, sizes: seq<seq<nat>>, early: bool)

  datatype State = State(phase: seq<Phase>, posted: nat, closed: bool, cancelled: bool, present: set<Key>,
      deleted: nat, failed: nat, bytes: nat)

  ghost predicate ValidJob(j: Job) {
    && |j.tasks| == |j.sizes| && Distinct(j.listing)
    && (forall i | 0 <= i < |j.tasks| :: |j.tasks[i]| == |j.sizes[i]|)
    && Flatten(j.tasks) <= j.listing
    && (Flatten(j.tasks) == j.listing || j.early)
  }

  /** `Shrink` is everything that happens to the bucket: this run's deletes, applied whether or not
      they were reported so, and anybody else's. Nothing puts a listed key back. */
  datatype Action =
    | Post
    | Close
    | Shrink(present: set<Key>)
    | Finish(task: nat, out: Outcome)
    | Cancel

  function Start(j: Job, present: set<Key>): State {
    State(seq(|j.tasks|, _ => Unposted), 0, false, j.early, present, 0, 0, 0)
  }

  ghost predicate Enabled(j: Job, s: State, a: Action) {
    match a
    case Post => !s.closed && !s.cancelled && s.posted < |s.phase|
    case Close => !s.closed && (s.cancelled || s.posted == |s.phase|)
    case Shrink(p) => p <= s.present
    case Finish(i, out) =>
      i < |s.phase| && i < |j.tasks| && i < |j.sizes| && s.phase[i] == Posted
          && Accounted(j.tasks[i], j.sizes[i], s.present, out)
    case Cancel => true
  }

  ghost function Apply(j: Job, s: State, a: Action): State
  {
    if !Enabled(j, s, a) then s
    else
      match a
      case Post => s.(phase := s.phase[s.posted := Posted], posted := s.posted + 1)
      case Close => s.(closed := true)
      case Shrink(p) => s.(present := p)
      case Finish(i, out) =>
        s.(phase := s.phase[i := Done(out)], deleted := s.deleted + out.deleted, failed := s.failed + |out.failed|,
            bytes := s.bytes + out.bytes)
      case Cancel => s.(cancelled := true)
  }

  ghost function Run(j: Job, present: set<Key>, schedule: seq<Action>): State {
    if schedule == [] then Start(j, present)
    else Apply(j, Run(j, present, schedule[..|schedule| - 1]), schedule[|schedule| - 1])
  }

  /** Sum over the finished tasks. */
  function Total(phase: seq<Phase>, of: Outcome -> nat): nat {
    if phase == [] then 0
    else Total(phase[..|phase| - 1], of) + if phase[|phase| - 1].Done? then of(phase[|phase| - 1].out) else 0
  }

  lemma {:induction false} TotalUpdate(phase: seq<Phase>, i: nat, p: Phase, of: Outcome -> nat)
    requires i < |phase| && !phase[i].Done?
    ensures Total(phase[i := p], of) == Total(phase, of) + if p.Done? then of(p.out) else 0
  {
    var h := phase[i := p];
    if i == |phase| - 1 {
      assert h[..i] == phase[..i];
    } else {
      assert h[..|h| - 1] == phase[..|phase| - 1][i := p];
      TotalUpdate(phase[..|phase| - 1], i, p, of);
    }
  }

  lemma {:induction false} TotalNone(phase: seq<Phase>, of: Outcome -> nat)
    requires forall i | 0 <= i < |phase| :: !phase[i].Done?
    ensures Total(phase, of) == 0
  {
    if phase != [] { TotalNone(phase[..|phase| - 1], of); }
  }

  const DeletedOf: Outcome -> nat := (out: Outcome) => out.deleted
  const FailedOf: Outcome -> nat := (out: Outcome) => |out.failed|
  const BytesFreed: Outcome -> nat := (out: Outcome) => out.bytes

  ghost predicate Inv(j: Job, s: State) {
    && |s.phase| == |j.tasks| == |j.sizes| && s.posted <= |s.phase|
    && (forall i | 0 <= i < |s.phase| :: s.phase[i].Unposted? <==> i >= s.posted)
    && (forall i | 0 <= i < |s.phase| :: s.phase[i].Done? ==>
        Accounted(j.tasks[i], j.sizes[i], s.present, s.phase[i].out))
    && s.deleted == Total(s.phase, DeletedOf) && s.failed == Total(s.phase, FailedOf)
    && s.bytes == Total(s.phase, BytesFreed)
    && (s.closed && s.posted < |s.phase| ==> s.cancelled)
    && (j.early ==> s.cancelled)
  }

  lemma StartInv(j: Job, present: set<Key>)
    requires ValidJob(j)
    ensures Inv(j, Start(j, present))
  {
    var s := Start(j, present);
    TotalNone(s.phase, DeletedOf);
    TotalNone(s.phase, FailedOf);
    TotalNone(s.phase, BytesFreed);
  }

  lemma Totals(phase: seq<Phase>, i: nat, p: Phase)
    requires i < |phase| && !phase[i].Done?
    ensures Total(phase[i := p], DeletedOf) == Total(phase, DeletedOf) + if p.Done? then p.out.deleted else 0
    ensures Total(phase[i := p], FailedOf) == Total(phase, FailedOf) + if p.Done? then |p.out.failed| else 0
    ensures Total(phase[i := p], BytesFreed) == Total(phase, BytesFreed) + if p.Done? then p.out.bytes else 0
  {
    TotalUpdate(phase, i, p, DeletedOf);
    TotalUpdate(phase, i, p, FailedOf);
    TotalUpdate(phase, i, p, BytesFreed);
  }

  lemma ApplyInv(j: Job, s: State, a: Action)
    requires ValidJob(j) && Inv(j, s)
    ensures Inv(j, Apply(j, s, a))
  {
    if Enabled(j, s, a) {
      match a
      case Post => Totals(s.phase, s.posted, Posted);
      case Finish(i, out) => Totals(s.phase, i, Done(out));
      case _ =>
    }
  }

  lemma {:induction false} RunInv(j: Job, present: set<Key>, schedule: seq<Action>)
    requires ValidJob(j)
    ensures Inv(j, Run(j, present, schedule))
  {
    if schedule == [] {
      StartInv(j, present);
    } else {
      RunInv(j, present, schedule[..|schedule| - 1]);
      ApplyInv(j, Run(j, present, schedule[..|schedule| - 1]), schedule[|schedule| - 1]);
    }
  }

  /** The join: the posting loop has ended and nothing is in flight. */
  predicate Joined(s: State) {
    s.closed && forall i | 0 <= i < |s.phase| :: !s.phase[i].Posted?
  }

  datatype Verdict = Verdict(success: bool, deleted: nat, failed: nat, bytes: nat, remaining: int)

  /** The end of the run. A cancelled one is judged by what is confirmed gone. */
  method Judge(j: Job, s: State) returns (v: Verdict)
    ensures v.success <==> s.failed == 0 && (s.cancelled ==> s.deleted >= |j.listing|)
    ensures v.deleted == s.deleted && v.failed == s.failed && v.bytes == s.bytes
    ensures v.remaining == if s.cancelled && |j.listing| > s.deleted then |j.listing| - s.deleted else 0
  {
    v := Verdict(s.failed == 0, s.deleted, s.failed, s.bytes, 0);
    if s.cancelled {
      var remaining := |j.listing| - v.deleted;
      if remaining > 0 { v := v.(success := false, remaining := remaining); }
    }
  }

  predicate Succeeds(j: Job, s: State) {
    s.failed == 0 && (s.cancelled ==> s.deleted >= |j.listing|)
  }

  // ---- What the counters mean ----

  /** What each finished task booked is its length. */
  ghost predicate Balanced(j: Job, phase: seq<Phase>, n: nat) {
    && n <= |phase| == |j.tasks| == |j.sizes|
    && forall i | 0 <= i < n :: phase[i].Done? ==> phase[i].out.deleted + |phase[i].out.failed| == |j.tasks[i]|
  }

  lemma LastTask(j: Job, phase: seq<Phase>, n: nat)
    requires 0 < n <= |phase| == |j.tasks|
    ensures Total(phase[..n], DeletedOf) == Total(phase[..n - 1], DeletedOf)
        + if phase[n - 1].Done? then phase[n - 1].out.deleted else 0
    ensures Total(phase[..n], FailedOf) == Total(phase[..n - 1], FailedOf)
        + if phase[n - 1].Done? then |phase[n - 1].out.failed| else 0
    ensures |Flatten(j.tasks[..n])| == |Flatten(j.tasks[..n - 1])| + |j.tasks[n - 1]|
  {
    assert phase[..n][..n - 1] == phase[..n - 1];
    assert j.tasks[..n][..n - 1] == j.tasks[..n - 1];
  }

  /** Counted and failed never exceed the listed keys; they meet them only when nothing is outstanding. */
  lemma {:induction false} CountsSplit(j: Job, phase: seq<Phase>, n: nat)
    requires Balanced(j, phase, n)
    ensures Total(phase[..n], DeletedOf) + Total(phase[..n], FailedOf) <= |Flatten(j.tasks[..n])|
    ensures (forall i | 0 <= i < n :: phase[i].Done?) ==>
              Total(phase[..n], DeletedOf) + Total(phase[..n], FailedOf) == |Flatten(j.tasks[..n])|
    ensures Total(phase[..n], DeletedOf) + Total(phase[..n], FailedOf) == |Flatten(j.tasks[..n])| ==>
              forall i | 0 <= i < n && !phase[i].Done? :: j.tasks[i] == []
  {
    if n > 0 {
      LastTask(j, phase, n);
      CountsSplit(j, phase, n - 1);
    }
  }

  lemma {:induction false} NoneFailed(j: Job, phase: seq<Phase>, n: nat)
    requires n <= |phase| == |j.tasks| && Total(phase[..n], FailedOf) == 0
    ensures forall i | 0 <= i < n && phase[i].Done? :: phase[i].out.failed == []
  {
    if n > 0 {
      LastTask(j, phase, n);
      NoneFailed(j, phase, n - 1);
    }
  }

  /** A cancelled run hands out no more tasks, whoever acts. */
  lemma NothingPostedAfterCancel(j: Job, s: State, a: Action)
    requires s.cancelled
    ensures Apply(j, s, a).cancelled && Apply(j, s, a).posted == s.posted
  {}

  /** Success means every listed object is gone and was counted; this holds for every interleaving,
      every pattern of false failures and a cancellation at any moment. */
  lemma SuccessMeansGone(j: Job, present: set<Key>, schedule: seq<Action>)
    requires ValidJob(j)
    ensures var s := Run(j, present, schedule);
            Joined(s) && Succeeds(j, s) ==> s.deleted == |j.listing| && forall k | k in j.listing :: k !in s.present
  {
    var s := Run(j, present, schedule);
    RunInv(j, present, schedule);
    var n := |s.phase|;
    assert s.phase[..n] == s.phase && j.tasks[..n] == j.tasks;
    CountsSplit(j, s.phase, n);
    if Joined(s) && Succeeds(j, s) {
      NoneFailed(j, s.phase, n);
      assert s.deleted == |Flatten(j.tasks)| == |j.listing|;
      assert Flatten(j.tasks) == j.listing;
      forall k | k in j.listing ensures k !in s.present {
        FlattenMember(j.tasks, k);
        var i :| 0 <= i < |j.tasks| && k in j.tasks[i];
        assert s.phase[i].Done?;
        assert s.phase[i].out.failed == [];
      }
    }
  }

  /** Without cancellation, deleted plus failed is the whole listing; always, it is no more. */
  lemma NothingUncounted(j: Job, present: set<Key>, schedule: seq<Action>)
    requires ValidJob(j)
    ensures var s := Run(j, present, schedule);
            && s.deleted + s.failed <= |j.listing|
            && (Joined(s) && !s.cancelled ==> s.deleted + s.failed == |j.listing|)
  {
    var s := Run(j, present, schedule);
    RunInv(j, present, schedule);
    var n := |s.phase|;
    assert s.phase[..n] == s.phase && j.tasks[..n] == j.tasks;
    CountsSplit(j, s.phase, n);
  }

  /** At every moment: a key of a finished task that is not booked as failed is absent. */
  lemma CountedIsAbsent(j: Job, present: set<Key>, schedule: seq<Action>, i: nat, k: Key)
    requires ValidJob(j)
    ensures var s := Run(j, present, schedule);
            |s.phase| == |j.tasks|
                && (i < |s.phase| && s.phase[i].Done? && k in j.tasks[i] && k !in s.phase[i].out.failed ==>
                    k !in s.present)
  {
    RunInv(j, present, schedule);
  }

  ghost function Freed(j: Job, phase: seq<Phase>, n: nat): nat
    requires n <= |phase| == |j.tasks| == |j.sizes|
    requires forall i | 0 <= i < n && phase[i].Done? :: |j.tasks[i]| == |j.sizes[i]|
  {
    if n == 0 then 0
    else Freed(j, phase, n - 1) +
         if phase[n - 1].Done?
         then BytesOf(j.tasks[n - 1], j.sizes[n - 1], ToSet(j.tasks[n - 1]) - ToSet(phase[n - 1].out.failed))
         else 0
  }

  /** Bytes freed are the sizes of exactly the keys counted as deleted. */
  lemma BytesAreThoseCounted(j: Job, present: set<Key>, schedule: seq<Action>)
    requires ValidJob(j)
    ensures var s := Run(j, present, schedule);
            |s.phase| == |j.tasks| && s.bytes == Freed(j, s.phase, |s.phase|)
  {
    var s := Run(j, present, schedule);
    RunInv(j, present, schedule);
    FreedIsTotal(j, s.phase, s.present, |s.phase|);
    assert s.phase[..|s.phase|] == s.phase;
  }

  lemma {:induction false} FreedIsTotal(j: Job, phase: seq<Phase>, present: set<Key>, n: nat)
    requires n <= |phase| == |j.tasks| == |j.sizes|
    requires forall i | 0 <= i < n :: |j.tasks[i]| == |j.sizes[i]|
    requires forall i | 0 <= i < n && phase[i].Done? :: Accounted(j.tasks[i], j.sizes[i], present, phase[i].out)
    ensures Freed(j, phase, n) == Total(phase[..n], BytesFreed)
  {
    if n > 0 {
      assert phase[..n][..n - 1] == phase[..n - 1];
      FreedIsTotal(j, phase, present, n - 1);
    }
  }

  /** The listed keys still present at the end are among those reported: booked as failed, or in a
      task a cancellation kept from running. */
  lemma LeftoversAreReported(j: Job, present: set<Key>, schedule: seq<Action>, k: Key)
    requires ValidJob(j)
    ensures var s := Run(j, present, schedule);
            Joined(s) && k in j.listing && k in s.present ==>
              s.cancelled || exists i :: 0 <= i < |s.phase| && s.phase[i].Done? && k in s.phase[i].out.failed
  {
    var s := Run(j, present, schedule);
    RunInv(j, present, schedule);
    if Joined(s) && k in j.listing && k in s.present && !s.cancelled {
      FlattenMember(j.tasks, k);
      var i :| 0 <= i < |j.tasks| && k in j.tasks[i];
      assert s.phase[i].Done?;
    }
  }

  // ---- What a cancelled run may say of the rest ----

  /** Task `i` has finished and counted `k`. */
  predicate CountedBy(j: Job, s: State, i: nat, k: Key) {
    i < |s.phase| && i < |j.tasks| && s.phase[i].Done? && k in j.tasks[i] && k !in s.phase[i].out.failed
  }

  /** The keys counted as deleted by the first `n` tasks. */
  ghost function CountedKeys(j: Job, s: State, n: nat): set<Key>
    requires n <= |s.phase| == |j.tasks|
  {
    if n == 0 then {}
    else
      CountedKeys(j, s, n - 1)
      + if s.phase[n - 1].Done? then ToSet(j.tasks[n - 1]) - ToSet(s.phase[n - 1].out.failed) else {}
  }

  lemma {:induction false} CountedKeysAre(j: Job, s: State, n: nat)
    requires n <= |s.phase| == |j.tasks|
    ensures forall k :: k in CountedKeys(j, s, n) <==> exists i :: 0 <= i < n && CountedBy(j, s, i, k)
  {
    if n > 0 {
      CountedKeysAre(j, s, n - 1);
      forall k ensures k in CountedKeys(j, s, n) <==> exists i :: 0 <= i < n && CountedBy(j, s, i, k) {
        assert k in CountedKeys(j, s, n) <==> k in CountedKeys(j, s, n - 1) || CountedBy(j, s, n - 1, k);
      }
    }
  }

  /** The tasks of a listing without repetition have no key twice, in themselves or in two of them. */
  lemma {:induction false} TasksDistinct(tasks: seq<seq<Key>>, n: nat)
    requires n < |tasks| && Distinct(Flatten(tasks[..n + 1]))
    ensures Distinct(tasks[n]) && Distinct(Flatten(tasks[..n]))
    ensures forall k | k in tasks[n] :: k !in Flatten(tasks[..n])
  {
    var before, last := Flatten(tasks[..n]), tasks[n];
    assert tasks[..n + 1] == tasks[..n] + [last];
    FlattenSnoc(tasks[..n], last);
    ConcatDistinct(before, last);
  }

  lemma ConcatDistinct(a: seq<Key>, b: seq<Key>)
    requires Distinct(a + b)
    ensures Distinct(a) && Distinct(b) && forall k | k in b :: k !in a
  {
    var s := a + b;
    forall i, j | 0 <= i < j < |a| ensures a[i] != a[j] { assert s[i] != s[j]; }
    forall i, j | 0 <= i < j < |b| ensures b[i] != b[j] { assert s[|a| + i] != s[|a| + j]; }
    forall k | k in b ensures k !in a {
      var j :| 0 <= j < |b| && b[j] == k;
      forall i | 0 <= i < |a| ensures a[i] != k { assert s[i] != s[|a| + j]; }
    }
  }

  lemma {:induction false} CountedInFlatten(j: Job, s: State, n: nat)
    requires n <= |s.phase| == |j.tasks|
    ensures forall k | k in CountedKeys(j, s, n) :: k in Flatten(j.tasks[..n])
  {
    if n > 0 {
      CountedInFlatten(j, s, n - 1);
      assert j.tasks[..n] == j.tasks[..n - 1] + [j.tasks[n - 1]];
      FlattenSnoc(j.tasks[..n - 1], j.tasks[n - 1]);
    }
  }

  lemma SetOfDistinct(s: seq<Key>)
    requires Distinct(s)
    ensures |ToSet(s)| == |s|
  {
    EnumeratedLength(s, ToSet(s));
  }

  lemma TaskCount(keys: seq<Key>, sizes: seq<nat>, present: set<Key>, out: Outcome)
    requires Distinct(keys) && Accounted(keys, sizes, present, out)
    ensures |ToSet(keys) - ToSet(out.failed)| == out.deleted
  {
    SetOfDistinct(keys);
    SetOfDistinct(out.failed);
    assert ToSet(out.failed) <= ToSet(keys);
  }

  lemma DisjointUnion(a: set<Key>, b: set<Key>)
    requires forall k | k in b :: k !in a
    ensures |a + b| == |a| + |b|
  {
    assert a !! b;
  }

  /** The deleted count is the number of keys counted. */
  lemma {:induction false} CountedKeysNumber(j: Job, s: State, n: nat)
    requires n <= |s.phase| == |j.tasks| == |j.sizes| && Distinct(Flatten(j.tasks[..n]))
    requires forall i | 0 <= i < n && s.phase[i].Done? :: Accounted(j.tasks[i], j.sizes[i], s.present, s.phase[i].out)
    ensures |CountedKeys(j, s, n)| == Total(s.phase[..n], DeletedOf)
  {
    if n > 0 {
      TasksDistinct(j.tasks, n - 1);
      CountedKeysNumber(j, s, n - 1);
      CountedInFlatten(j, s, n - 1);
      assert s.phase[..n][..n - 1] == s.phase[..n - 1];
      if s.phase[n - 1].Done? {
        TaskCount(j.tasks[n - 1], j.sizes[n - 1], s.present, s.phase[n - 1].out);
        DisjointUnion(CountedKeys(j, s, n - 1), ToSet(j.tasks[n - 1]) - ToSet(s.phase[n - 1].out.failed));
      }
    }
  }

  ghost function CountedIn(j: Job, s: State): set<Key>
    requires |s.phase| == |j.tasks|
  {
    CountedKeys(j, s, |s.phase|)
  }

  lemma DistinctPrefix(s: seq<Key>, p: seq<Key>)
    requires Distinct(s) && p <= s
    ensures Distinct(p)
  {}

  /** In every state of every run: the counted keys are listed, absent, and as many as were counted. */
  lemma CountedFacts(j: Job, s: State)
    requires ValidJob(j) && Inv(j, s)
    ensures CountedIn(j, s) <= ToSet(j.listing) && CountedIn(j, s) !! s.present
    ensures |CountedIn(j, s)| == s.deleted
    ensures forall k :: k in CountedIn(j, s) <==> exists i :: 0 <= i < |s.phase| && CountedBy(j, s, i, k)
  {
    var n := |s.phase|;
    assert s.phase[..n] == s.phase && j.tasks[..n] == j.tasks;
    CountedKeysAre(j, s, n);
    CountedInFlatten(j, s, n);
    DistinctPrefix(j.listing, Flatten(j.tasks));
    CountedKeysNumber(j, s, n);
    forall k | k in CountedIn(j, s) ensures k !in s.present {
      var i :| 0 <= i < n && CountedBy(j, s, i, k);
    }
  }

  /** The listed keys that are still there. */
  ghost function StillThere(j: Job, s: State): set<Key> {
    ToSet(j.listing) * s.present
  }

  /** What the message of a cancelled run does guarantee, at any moment of any run: of the listed keys at
      most as many remain as were not counted. */
  lemma AtMostTheRemaining(j: Job, present: set<Key>, schedule: seq<Action>)
    requires ValidJob(j)
    ensures var s := Run(j, present, schedule); |StillThere(j, s)| <= |j.listing| - s.deleted
  {
    var s := Run(j, present, schedule);
    RunInv(j, present, schedule);
    RemainingSplit(j, s);
  }

  lemma SubsetsOfOneSize(small: set<Key>, large: set<Key>)
    requires small <= large
    ensures |small| <= |large| && (|small| == |large| <==> small == large)
  {
    assert large == small + (large - small);
    assert |large| == |small| + |large - small|;
  }

  lemma RemainingSplit(j: Job, s: State)
    requires ValidJob(j) && Inv(j, s)
    ensures |StillThere(j, s)| <= |j.listing| - s.deleted
    ensures |StillThere(j, s)| == |j.listing| - s.deleted <==> ToSet(j.listing) - s.present == CountedIn(j, s)
  {
    var all := ToSet(j.listing);
    CountedFacts(j, s);
    SetOfDistinct(j.listing);
    SubsetsOfOneSize(CountedIn(j, s), all - s.present);
    assert all == StillThere(j, s) + (all - s.present);
    assert |all| == |StillThere(j, s)| + |all - s.present|;
  }

  /** The exact condition of "were not deleted and are still there": every listed key that is gone was
      counted by a finished task. */
  lemma RemainingIffCounted(j: Job, present: set<Key>, schedule: seq<Action>)
    requires ValidJob(j)
    ensures var s := Run(j, present, schedule);
            |StillThere(j, s)| == |j.listing| - s.deleted <==>
            forall k | k in j.listing && k !in s.present :: exists i :: 0 <= i < |s.phase| && CountedBy(j, s, i, k)
  {
    var s := Run(j, present, schedule);
    RunInv(j, present, schedule);
    RemainingSplit(j, s);
    CountedFacts(j, s);
    assert forall k :: k in ToSet(j.listing) - s.present <==> k in j.listing && k !in s.present;
  }

  /** A store nobody else deletes from, and whose own deletes are all reported: a key disappears only while
      its task runs, and a task books as failed only what is still there. */
  predicate Candid(j: Job, s: State, a: Action) {
    match a
    case Shrink(p) =>
      forall k | k in j.listing && k in s.present && k !in p :: exists i ::
        0 <= i < |s.phase| && i < |j.tasks| && s.phase[i].Posted? && k in j.tasks[i]
    case Finish(_, out) => forall k | k in out.failed :: k in s.present
    case _ => true
  }

  ghost predicate CandidRun(j: Job, present: set<Key>, schedule: seq<Action>) {
    && (forall k | k in j.listing :: k in present)
    && forall n | 0 <= n < |schedule| :: Candid(j, Run(j, present, schedule[..n]), schedule[n])
  }

  /** A key that is gone belongs to a running task or was counted. */
  ghost predicate Explained(j: Job, s: State) {
    forall k | k in j.listing && k !in s.present ::
      exists i ::
        0 <= i < |s.phase| && i < |j.tasks| && k in j.tasks[i] && (s.phase[i].Posted? || CountedBy(j, s, i, k))
  }

  lemma CandidKeeps(j: Job, s: State, a: Action)
    requires Inv(j, s) && Explained(j, s) && Candid(j, s, a)
    ensures Explained(j, Apply(j, s, a))
  {
    if Enabled(j, s, a) {
      var t := Apply(j, s, a);
      forall k | k in j.listing && k !in t.present
        ensures exists i ::
          0 <= i < |t.phase| && i < |j.tasks| && k in j.tasks[i] && (t.phase[i].Posted? || CountedBy(j, t, i, k))
      {
        if k in s.present {
          var i :| 0 <= i < |s.phase| && i < |j.tasks| && s.phase[i].Posted? && k in j.tasks[i];
          assert t.phase[i].Posted?;
        } else {
          var i :| 0 <= i < |s.phase| && i < |j.tasks| && k in j.tasks[i]
              && (s.phase[i].Posted? || CountedBy(j, s, i, k));
          assert t.phase[i].Posted? || CountedBy(j, t, i, k);
        }
      }
    }
  }

  lemma {:induction false} CandidExplains(j: Job, present: set<Key>, schedule: seq<Action>)
    requires ValidJob(j) && CandidRun(j, present, schedule)
    ensures Explained(j, Run(j, present, schedule))
  {
    if schedule != [] {
      var front := schedule[..|schedule| - 1];
      forall n | 0 <= n < |front| ensures Candid(j, Run(j, present, front[..n]), front[n]) {
        assert schedule[..n] == front[..n];
        assert Candid(j, Run(j, present, schedule[..n]), schedule[n]);
      }
      CandidExplains(j, present, front);
      RunInv(j, present, front);
      CandidKeeps(j, Run(j, present, front), schedule[|schedule| - 1]);
    }
  }

  /** With such a store the message is true: when the run has joined, exactly the keys it did not count are
      still there. */
  lemma CandidRemainingIsTrue(j: Job, present: set<Key>, schedule: seq<Action>)
    requires ValidJob(j) && CandidRun(j, present, schedule) && Joined(Run(j, present, schedule))
    ensures var s := Run(j, present, schedule);
            |StillThere(j, s)| == |j.listing| - s.deleted
  {
    var s := Run(j, present, schedule);
    CandidExplains(j, present, schedule);
    RemainingIffCounted(j, present, schedule);
  }

  function OneObject(k: Key, size: nat): Job { Job([k], [[k]], [[size]], false) }

  lemma OneObjectIsValid(k: Key, size: nat)
    ensures ValidJob(OneObject(k, size))
  {
    assert [[k]] == [] + [[k]];
    FlattenSnoc([], [k]);
  }

  /** The store applies the delete of a single object and reports it as failed. */
  lemma FalseFailure(k: Key, size: nat) returns (schedule: seq<Action>)
    ensures Run(OneObject(k, size), {k}, schedule) == State([Done(Outcome(0, 0, [k]))], 1, false, false, {}, 0, 1, 0)
  {
    var j := OneObject(k, size);
    var out := Outcome(0, 0, [k]);
    OneKey(k, size);
    assert Accounted([k], [size], {}, out);
    var s1 := State([Posted], 1, false, false, {k}, 0, 0, 0);
    RunSnoc(j, {k}, [], Post);
    assert Run(j, {k}, [] + [Post]) == s1;
    RunSnoc(j, {k}, [] + [Post], Shrink({}));
    assert Run(j, {k}, [] + [Post] + [Shrink({})]) == s1.(present := {});
    RunSnoc(j, {k}, [] + [Post] + [Shrink({})], Finish(0, out));
    schedule := [] + [Post] + [Shrink({})] + [Finish(0, out)];
  }

  /** The message of a cancelled run says that what it did not count is still there. */
  ghost predicate Overstated(j: Job, s: State) {
    Joined(s) && s.cancelled && |j.listing| - s.deleted > 0 && forall k | k in j.listing :: k !in s.present
  }

  /** That need not be so. */
  lemma RemainingMayBeGone(k: Key, size: nat)
    ensures exists schedule :: Overstated(OneObject(k, size), Run(OneObject(k, size), {k}, schedule))
  {
    var j := OneObject(k, size);
    var a := FalseFailure(k, size);
    RunSnoc(j, {k}, a, Close);
    RunSnoc(j, {k}, a + [Close], Cancel);
    assert Overstated(j, Run(j, {k}, a + [Close] + [Cancel]));
  }

  lemma RunSnoc(j: Job, present: set<Key>, schedule: seq<Action>, a: Action)
    ensures Run(j, present, schedule + [a]) == Apply(j, Run(j, present, schedule), a)
  {
    assert (schedule + [a])[..|schedule|] == schedule;
  }
}

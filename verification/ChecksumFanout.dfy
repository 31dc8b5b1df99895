/** The third implementation of the checksum contract: one server-side copy per distinct chunk, many
    at a time, into a scratch multipart upload that is thrown away afterwards. */
module ChecksumFanout {
  import opened Sequences
  import opened Chunks
  import opened Crc32
  import opened Checksums
  import opened ObjectStore

  // ---- One chunk ----

  /** What the store answers to one part copy. */
  datatype CopyReply<R> = Copied(sum: R) | NoChecksum | BadChecksum | Unsupported | Retryable | Fatal

  /** A store that accepts a copy reports the checksum of exactly the bytes of the range; a range past
      the end of the object is an error. A `sound` store accepts every copy it can make. */
  method UploadPartCopy<R(!new)>(g: Register<R>, data: seq<Byte>, lo: nat, hi: int, sound: bool)
    returns (reply: CopyReply<R>)
    requires lo < hi
    ensures reply.Copied? ==> hi <= |data| && reply.sum == Crc(g, data[lo..hi])
    ensures sound && hi <= |data| ==> reply.Copied?
  {
    var which: int := *;
    if sound { which := 5; }
    reply := if which == 0 then NoChecksum else if which == 1 then BadChecksum else if which == 2 then Unsupported
             else if which == 3 then Retryable else if which == 4 || hi > |data| then Fatal
             else Copied(Crc(g, data[lo..hi]));
  }

  /** One chunk, with retries. A value is the chunk's checksum; a failure is counted as an error once;
      giving up because the run is being stopped is neither. Undisturbed, with a `sound` store that has the
      chunk, there is a value. */
  method ProcessSingleChunk<R(!new)>(g: Register<R>, data: seq<Byte>, size: nat, c: int, id: int, maxRetries: int,
                                     errors: nat, sound: bool)
    returns (value: seq<R>, errors': nat, stopped: bool)
    requires c > 0 && 0 <= id < ChunkCount(size, c)
    ensures |value| <= 1
    ensures value != [] ==> errors' == errors && !stopped && IsSum(g, data, size, c, id, value[0])
    ensures value == [] ==> errors' == if stopped || maxRetries < 0 then errors else errors + 1
    ensures sound && maxRetries >= 0 && Hi(size, c, id) <= |data| && !stopped ==> value != []
  {
    value, errors', stopped := [], errors, *;
    if stopped { return; }
    ChunkBounds(size, c, id);
    var attempt := 0;
    while attempt <= maxRetries
      invariant value == [] && errors' == errors && !stopped
      invariant maxRetries >= 0 ==> attempt <= maxRetries
      decreases maxRetries - attempt
    {
      stopped := *;
      if stopped { return; }
      var start := id * c;
      var last := Min(start + c - 1, size - 1);
      var reply := UploadPartCopy(g, data, start, last + 1, sound);
      match reply {
        case Copied(sum) => value := [sum]; return;
        case Retryable =>
          if attempt == maxRetries { errors' := errors + 1; return; }
        case _ => errors' := errors + 1; return;
      }
      attempt := attempt + 1;
    }
  }

  // ---- The work list and the reply ----

  function DistinctIds(ids: seq<int>): seq<int> {
    if ids == [] then []
    else
      var before := DistinctIds(ids[..|ids| - 1]);
      if ids[|ids| - 1] in ids[..|ids| - 1] then before else before + [ids[|ids| - 1]]
  }

  lemma {:induction false} DistinctIdsMember(ids: seq<int>)
    ensures Distinct(DistinctIds(ids))
    ensures forall id :: id in DistinctIds(ids) <==> id in ids
  {
    if ids != [] {
      DistinctIdsMember(ids[..|ids| - 1]);
      assert ids == ids[..|ids| - 1] + [ids[|ids| - 1]];
    }
  }

  /** The ids come in the order of their first mention: the first `n` mentions give the beginning of the list. */
  lemma {:induction false} DistinctIdsOrder(ids: seq<int>, n: nat)
    requires n <= |ids|
    ensures DistinctIds(ids[..n]) <= DistinctIds(ids)
    decreases |ids|
  {
    if n < |ids| {
      assert ids[..|ids| - 1][..n] == ids[..n];
      DistinctIdsOrder(ids[..|ids| - 1], n);
    } else {
      assert ids[..n] == ids;
    }
  }

  /** The loop that keeps the first of each id, with the set of ids it has seen. */
  method Deduplicate(ids: seq<int>) returns (work: seq<int>)
    ensures work == DistinctIds(ids)
  {
    var seen: set<int> := {};
    work := [];
    for k := 0 to |ids|
      invariant work == DistinctIds(ids[..k])
      invariant forall id :: id in seen <==> id in ids[..k]
    {
      assert ids[..k + 1][..k] == ids[..k] && ids[..k + 1][k] == ids[k];
      if ids[k] !in seen {
        seen := seen + {ids[k]};
        work := work + [ids[k]];
      }
    }
    assert ids[..|ids|] == ids;
  }

  /** The loop that restores duplicates and order in the reply. */
  method Select<R>(slots: seq<R>, ids: seq<int>) returns (r: seq<R>)
    requires forall k | 0 <= k < |ids| :: 0 <= ids[k] < |slots|
    ensures |r| == |ids| && forall k | 0 <= k < |r| :: r[k] == slots[ids[k]]
  {
    r := [];
    for k := 0 to |ids|
      invariant |r| == k && forall j | 0 <= j < k :: r[j] == slots[ids[j]]
    {
      r := r + [slots[ids[k]]];
    }
  }

  // ---- The fan-out ----

  /** One request. `pooled` is the bounded pool, otherwise one thread per chunk with timed waits. */
  datatype Job<!R> = Job(g: Register<R>, data: seq<Byte>, size: nat, c: int, ids: seq<int>, pooled: bool,
      maxRetries: int)

  datatype Phase = Idle | Posted | Skipped | Failed | Stored | Counted

  datatype State<R> = State(phase: seq<Phase>, slots: seq<R>, posted: nat, closed: bool, succeeded: nat, errors: nat,
                            abort: bool, shutdown: bool, overdue: set<nat>)

  /** The atomic steps, in the order any scheduler likes. A task writes its slot, counts its success
      and looks at the error count in separate steps. */
  datatype Action =
    | Submit
    | Close
    | Skip(k: nat)
    | Store(k: nat)
    | Fail(k: nat)
    | Count(k: nat)
    | Abort
    | Shutdown
    | Overdue(k: nat)

  const MaxErrorsBeforeAbort: nat := 3

  ghost predicate ValidJob<R>(j: Job<R>) {
    j.c > 0 && ValidIds(j.size, j.c, j.ids)
  }

  function Work<R>(j: Job<R>): seq<int>
    requires j.c > 0
  {
    if j.ids == [] then Requested(j.size, j.c, []) else DistinctIds(j.ids)
  }

  function Start<R>(j: Job<R>): State<R>
    requires j.c > 0
  {
    State(seq(|Work(j)|, _ => Idle), seq(ChunkCount(j.size, j.c), _ => j.g.start), 0, false, 0, 0, false, false, {})
  }

  predicate Stopping<R>(j: Job<R>, s: State<R>) {
    s.abort || s.shutdown
  }

  predicate Enabled<R>(j: Job<R>, s: State<R>, a: Action)
    requires j.c > 0
  {
    match a
    case Submit => !s.closed && s.posted < |s.phase| && !(j.pooled && Stopping(j, s))
    case Close => !s.closed && (s.posted == |s.phase| || (j.pooled && Stopping(j, s)))
    case Skip(k) => k < |s.phase| && s.phase[k] == Posted && (Stopping(j, s) || j.maxRetries < 0)
    case Store(k) =>
      k < |s.phase| && s.phase[k] == Posted && k < |Work(j)| && 0 <= Work(j)[k] < |s.slots| && j.maxRetries >= 0
          && Hi(j.size, j.c, Work(j)[k]) <= |j.data|
    case Fail(k) => k < |s.phase| && s.phase[k] == Posted && j.maxRetries >= 0
    case Count(k) => k < |s.phase| && s.phase[k] == Stored
    case Abort => s.errors > MaxErrorsBeforeAbort || (!j.pooled && s.shutdown)
    case Shutdown => true
    case Overdue(k) =>
      !j.pooled && s.closed && k < |s.phase| && (s.phase[k] == Posted || s.phase[k] == Stored) && k !in s.overdue
  }

  /** The checksum the store computes for chunk `id`. */
  function SumOf<R>(j: Job<R>, id: nat): R
    requires j.c > 0 && id < ChunkCount(j.size, j.c) && Hi(j.size, j.c, id) <= |j.data|
  {
    ChunkBounds(j.size, j.c, id);
    Crc(j.g, j.data[Lo(j.c, id)..Hi(j.size, j.c, id)])
  }

  function Apply<R>(j: Job<R>, s: State<R>, a: Action): State<R>
    requires j.c > 0 && |s.slots| == ChunkCount(j.size, j.c) && s.posted <= |s.phase|
  {
    if !Enabled(j, s, a) then s
    else
      match a
      case Submit => s.(phase := s.phase[s.posted := Posted], posted := s.posted + 1)
      case Close => s.(closed := true)
      case Skip(k) => s.(phase := s.phase[k := Skipped])
      case Store(k) => s.(phase := s.phase[k := Stored], slots := s.slots[Work(j)[k] := SumOf(j, Work(j)[k])])
      case Fail(k) => s.(phase := s.phase[k := Failed], errors := s.errors + 1)
      case Count(k) => s.(phase := s.phase[k := Counted], succeeded := s.succeeded + 1)
      case Abort => s.(abort := true)
      case Shutdown => s.(shutdown := true)
      case Overdue(k) => s.(errors := s.errors + 1, overdue := s.overdue + {k})
  }

  function Tally(phase: seq<Phase>): nat {
    if phase == [] then 0 else Tally(phase[..|phase| - 1]) + if phase[|phase| - 1] == Counted then 1 else 0
  }

  lemma {:induction false} TallyUpdate(phase: seq<Phase>, k: nat, p: Phase)
    requires k < |phase|
    ensures Tally(phase[k := p]) == Tally(phase) - (if phase[k] == Counted then 1 else 0)
        + (if p == Counted then 1 else 0)
  {
    var h := phase[k := p];
    if k == |phase| - 1 {
      assert h[..k] == phase[..k];
    } else {
      assert h[..|h| - 1] == phase[..|phase| - 1][k := p];
      TallyUpdate(phase[..|phase| - 1], k, p);
    }
  }

  lemma {:induction false} TallyFull(phase: seq<Phase>)
    ensures Tally(phase) <= |phase|
    ensures Tally(phase) == |phase| <==> forall k | 0 <= k < |phase| :: phase[k] == Counted
  {
    if phase != [] {
      TallyFull(phase[..|phase| - 1]);
      assert forall k | 0 <= k < |phase| - 1 :: phase[..|phase| - 1][k] == phase[k];
    }
  }

  lemma TallyIdle(n: nat)
    ensures Tally(seq(n, _ => Idle)) == 0
  {
    if n > 0 {
      var h: seq<Phase> := seq(n, _ => Idle);
      assert h[..n - 1] == seq(n - 1, _ => Idle);
      TallyIdle(n - 1);
    }
  }

  ghost predicate Shape<R>(j: Job<R>, s: State<R>)
    requires j.c > 0
  {
    && |s.phase| == |Work(j)| && |s.slots| == ChunkCount(j.size, j.c) && s.posted <= |s.phase|
    && (forall k | 0 <= k < |s.phase| :: s.phase[k] == Idle <==> k >= s.posted)
  }

  /** Counters tell the truth about the tasks, and a stored slot holds its chunk's checksum. */
  ghost predicate Truthful<R>(j: Job<R>, s: State<R>)
    requires j.c > 0
  {
    && s.succeeded == Tally(s.phase)
    && (forall k | 0 <= k < |s.phase| && k < |Work(j)| && (s.phase[k] == Stored || s.phase[k] == Counted) ::
          0 <= Work(j)[k] < |s.slots| && IsSum(j.g, j.data, j.size, j.c, Work(j)[k], s.slots[Work(j)[k]]))
  }

  /** Whatever stops a task or the submission short has left its mark. */
  ghost predicate Excused<R>(j: Job<R>, s: State<R>) {
    && (s.errors == 0 ==> s.overdue == {} && forall k | 0 <= k < |s.phase| :: s.phase[k] != Failed)
    && ((exists k :: 0 <= k < |s.phase| && s.phase[k] == Skipped) ==> Stopping(j, s) || j.maxRetries < 0)
    && (s.closed && s.posted < |s.phase| ==> Stopping(j, s))
    && (s.abort ==> s.errors > MaxErrorsBeforeAbort || s.shutdown)
  }

  /** An error is that of a task that failed or was waited for in vain. */
  ghost predicate ErrorsShow<R>(s: State<R>) {
    s.errors > 0 ==> s.overdue != {} || exists k :: 0 <= k < |s.phase| && s.phase[k] == Failed
  }

  lemma ApplyErrors<R>(j: Job<R>, s: State<R>, a: Action)
    requires j.c > 0 && Shape(j, s) && ErrorsShow(s)
    ensures ErrorsShow(Apply(j, s, a))
  {
    var t := Apply(j, s, a);
    if k :| 0 <= k < |s.phase| && s.phase[k] == Failed { assert t.phase[k] == Failed; }
    if a.Fail? && Enabled(j, s, a) { assert t.phase[a.k] == Failed; }
  }

  ghost predicate Inv<R>(j: Job<R>, s: State<R>)
    requires j.c > 0
  {
    Shape(j, s) && Truthful(j, s) && Excused(j, s) && ErrorsShow(s)
  }

  lemma {:induction false} WorkIsDistinct<R>(j: Job<R>)
    requires ValidJob(j)
    ensures Distinct(Work(j))
    ensures forall k | 0 <= k < |Work(j)| :: 0 <= Work(j)[k] < ChunkCount(j.size, j.c)
    ensures forall id | id in Requested(j.size, j.c, j.ids) :: id in Work(j)
  {
    DistinctIdsMember(j.ids);
    if j.ids != [] {
      var work := DistinctIds(j.ids);
      forall k | 0 <= k < |work| ensures 0 <= work[k] < ChunkCount(j.size, j.c) {
        assert work[k] in work;
        var i :| 0 <= i < |j.ids| && j.ids[i] == work[k];
      }
    }
  }

  lemma StartInv<R>(j: Job<R>)
    requires ValidJob(j)
    ensures Inv(j, Start(j))
  {
    TallyIdle(|Work(j)|);
  }

  lemma ApplyShape<R>(j: Job<R>, s: State<R>, a: Action)
    requires j.c > 0 && Shape(j, s)
    ensures Shape(j, Apply(j, s, a))
  {}

  lemma ApplyStore<R>(j: Job<R>, s: State<R>, k: nat)
    requires ValidJob(j) && Shape(j, s) && Truthful(j, s) && Enabled(j, s, Store(k))
    ensures Truthful(j, Apply(j, s, Store(k)))
  {
    WorkIsDistinct(j);
    TallyUpdate(s.phase, k, Stored);
    ChunkBounds(j.size, j.c, Work(j)[k]);
    var t := Apply(j, s, Store(k));
    assert IsSum(j.g, j.data, j.size, j.c, Work(j)[k], t.slots[Work(j)[k]]);
    forall i | 0 <= i < |t.phase| && (t.phase[i] == Stored || t.phase[i] == Counted)
      ensures IsSum(j.g, j.data, j.size, j.c, Work(j)[i], t.slots[Work(j)[i]])
    {
      if i != k { assert Work(j)[i] != Work(j)[k]; }
    }
  }

  /** A step that changes one phase, no slot and the count by as much keeps the truth. */
  lemma PhaseTruthful<R>(j: Job<R>, s: State<R>, t: State<R>, k: nat, p: Phase)
    requires j.c > 0 && Truthful(j, s) && k < |s.phase| && t.phase == s.phase[k := p] && t.slots == s.slots
    requires p == Stored || p == Counted ==> s.phase[k] == Stored || s.phase[k] == Counted
    requires t.succeeded == s.succeeded - (if s.phase[k] == Counted then 1 else 0) + (if p == Counted then 1 else 0)
    ensures Truthful(j, t)
  {
    TallyUpdate(s.phase, k, p);
  }

  lemma ApplyTruthful<R>(j: Job<R>, s: State<R>, a: Action)
    requires ValidJob(j) && Shape(j, s) && Truthful(j, s)
    ensures Truthful(j, Apply(j, s, a))
  {
    if Enabled(j, s, a) {
      match a
      case Submit => PhaseTruthful(j, s, Apply(j, s, a), s.posted, Posted);
      case Skip(k) => PhaseTruthful(j, s, Apply(j, s, a), k, Skipped);
      case Store(k) => ApplyStore(j, s, k);
      case Fail(k) => PhaseTruthful(j, s, Apply(j, s, a), k, Failed);
      case Count(k) => PhaseTruthful(j, s, Apply(j, s, a), k, Counted);
      case _ =>
    }
  }

  lemma ApplyExcused<R>(j: Job<R>, s: State<R>, a: Action)
    requires j.c > 0 && Shape(j, s) && Excused(j, s)
    ensures Excused(j, Apply(j, s, a))
  {}

  function Run<R>(j: Job<R>, schedule: seq<Action>): (s: State<R>)
    requires j.c > 0
    ensures |s.slots| == ChunkCount(j.size, j.c) && s.posted <= |s.phase|
  {
    if schedule == [] then Start(j) else Apply(j, Run(j, schedule[..|schedule| - 1]), schedule[|schedule| - 1])
  }

  lemma {:induction false} RunInv<R>(j: Job<R>, schedule: seq<Action>)
    requires ValidJob(j)
    ensures Inv(j, Run(j, schedule))
  {
    if schedule == [] {
      StartInv(j);
    } else {
      var s := Run(j, schedule[..|schedule| - 1]);
      RunInv(j, schedule[..|schedule| - 1]);
      ApplyShape(j, s, schedule[|schedule| - 1]);
      ApplyTruthful(j, s, schedule[|schedule| - 1]);
      ApplyExcused(j, s, schedule[|schedule| - 1]);
      ApplyErrors(j, s, schedule[|schedule| - 1]);
    }
  }

  predicate Over(p: Phase) {
    p == Idle || p == Skipped || p == Failed || p == Counted
  }

  /** The join: every posted task is over, or its wait has run out. */
  predicate Joined<R>(s: State<R>) {
    s.closed && forall k: nat | k < |s.phase| :: Over(s.phase[k]) || k in s.overdue
  }

  predicate Replies<R>(j: Job<R>, s: State<R>) {
    s.errors == 0 && s.succeeded == |s.phase|
  }

  /** When every distinct chunk was counted, every requested one has its slot filled. */
  lemma AllSlotsHold<R>(j: Job<R>, s: State<R>, id: int)
    requires ValidJob(j) && Inv(j, s) && s.succeeded == |s.phase| && id in Requested(j.size, j.c, j.ids)
    ensures 0 <= id < |s.slots| && IsSum(j.g, j.data, j.size, j.c, id, s.slots[id])
  {
    TallyFull(s.phase);
    WorkIsDistinct(j);
    var k :| 0 <= k < |Work(j)| && Work(j)[k] == id;
    assert s.phase[k] == Counted;
  }

  /** The reply after the join. */
  method Reply<R(!new)>(j: Job<R>, s: State<R>) returns (r: seq<R>)
    requires ValidJob(j) && Inv(j, s)
    ensures Honoured(j.g, j.data, j.size, j.c, j.ids, r)
    ensures r != [] <==> s.errors == 0 && s.succeeded == |s.phase| && j.size > 0
  {
    if s.errors > 0 { return []; }
    if s.succeeded != |s.phase| { return []; }
    var wanted := Requested(j.size, j.c, j.ids);
    forall k | 0 <= k < |wanted|
      ensures 0 <= wanted[k] < |s.slots| && IsSum(j.g, j.data, j.size, j.c, wanted[k], s.slots[wanted[k]])
    {
      AllSlotsHold(j, s, wanted[k]);
    }
    if j.ids == [] { return s.slots; }
    r := Select(s.slots, j.ids);
  }

  /** A joined fan-out that met no error, no shutdown and no missing retry budget has every checksum. */
  lemma UndisturbedReplies<R>(j: Job<R>, schedule: seq<Action>)
    requires ValidJob(j)
    ensures var s := Run(j, schedule);
            Joined(s) && s.errors == 0 && !s.shutdown && j.maxRetries >= 0 ==> Replies(j, s)
  {
    var s := Run(j, schedule);
    RunInv(j, schedule);
    if Joined(s) && s.errors == 0 && !s.shutdown && j.maxRetries >= 0 {
      forall k: nat | k < |s.phase| ensures s.phase[k] == Counted { assert Over(s.phase[k]); }
      TallyFull(s.phase);
    }
  }

  /** What a reply stands for: every distinct chunk was stored and counted in time; one task that failed or was waited
      for in vain, and there is none. */
  lemma RepliesIff<R>(j: Job<R>, schedule: seq<Action>)
    requires ValidJob(j)
    ensures var s := Run(j, schedule);
            Replies(j, s) <==> s.overdue == {} && forall k | 0 <= k < |s.phase| :: s.phase[k] == Counted
  {
    RunInv(j, schedule);
    TallyFull(Run(j, schedule).phase);
  }

  /** Stopping means that no task starts any more where the pool is bounded, and that a waiting task may leave. */
  lemma StoppingStops<R>(j: Job<R>, s: State<R>, a: Action, k: nat)
    requires j.c > 0 && Shape(j, s) && Stopping(j, s) && k < |s.phase|
    ensures Stopping(j, Apply(j, s, a))
    ensures j.pooled ==> Apply(j, s, a).posted == s.posted
    ensures s.phase[k] == Posted ==> Apply(j, s, Skip(k)).phase[k] == Skipped && Apply(j, s, Skip(k)).errors == s.errors
  {}

  /** Until the join there is always a task or the submitter that can move. */
  lemma NeverStuck<R>(j: Job<R>, schedule: seq<Action>)
    requires ValidJob(j) && !Joined(Run(j, schedule))
    ensures exists a ::
      Enabled(j, Run(j, schedule), a) && !a.Shutdown? && !a.Abort? && Apply(j, Run(j, schedule), a) != Run(j, schedule)
  {
    var s := Run(j, schedule);
    RunInv(j, schedule);
    if !s.closed {
      var a := if s.posted < |s.phase| && !(j.pooled && Stopping(j, s)) then Submit else Close;
      assert Enabled(j, s, a) && Apply(j, s, a).posted + (if Apply(j, s, a).closed then 1 else 0) > s.posted;
    } else {
      var k: nat :| k < |s.phase| && !(Over(s.phase[k]) || k in s.overdue);
      var a := if s.phase[k] == Stored then Count(k) else if j.maxRetries < 0 then Skip(k) else Fail(k);
      assert Enabled(j, s, a) && Over(Apply(j, s, a).phase[k]);
    }
  }

  // ---- The scratch upload ----

  /** The process-wide list of uploads to abort on the way out. */
  class UploadRegistry {
    var uploads: set<nat>

    constructor ()
      ensures uploads == {}
    { uploads := {}; }

    method Register(id: nat)
      modifies this
      ensures uploads == old(uploads) + {id}
    { uploads := uploads + {id}; }

    method Unregister(id: nat)
      modifies this
      ensures uploads == old(uploads) - {id}
    { uploads := uploads - {id}; }

    /** Takes the whole list, then tries each upload once; what could not be aborted is reported. */
    method AbortAll<R(==)>(store: Store<R>) returns (left: set<nat>)
      requires store.Valid()
      modifies this, store`uploads, store`aborted
      ensures store.Valid() && uploads == {} && left <= old(uploads) <= store.aborted
      ensures old(store.uploads).Keys - old(uploads) <= store.uploads.Keys <= old(store.uploads).Keys
      ensures forall id | id in old(uploads) && id in store.uploads :: id in left
    {
      var todo := uploads;
      uploads, left := {}, {};
      while todo != {}
        invariant todo <= old(uploads) && left <= old(uploads) - todo <= store.aborted && uploads == {} && store.Valid()
        invariant old(store.uploads).Keys - old(uploads) <= store.uploads.Keys <= old(store.uploads).Keys
        invariant forall id | id in old(uploads) - todo && id in store.uploads :: id in left
      {
        var id :| id in todo;
        todo := todo - {id};
        var ok := store.AbortMultipartUpload(id);
        if !ok { left := left + {id}; }
      }
    }
  }

  /** The whole request, for every schedule of its threads. The reply keeps the contract, no object
      changes, and every upload whose id the store told is gone or still registered. */
  method GetHashes<R(==, !new)>(j: Job<R>, scratch: Key, schedule: seq<Action>, store: Store<R>,
                                registry: UploadRegistry)
    returns (r: seq<R>, created: bool)
    requires j.c > 0 && store.Valid()
    modifies store`uploads, store`nextId, store`created, store`aborted, registry
    ensures store.Valid()
    ensures Honoured(j.g, j.data, j.size, j.c, j.ids, r)
    ensures var s := Run(j, schedule);
            r != [] <==> created && Joined(s) && s.errors == 0 && s.succeeded == |s.phase| && j.size > 0
    ensures created ==> ValidIds(j.size, j.c, j.ids)
    ensures store.calm && ValidIds(j.size, j.c, j.ids) ==> created
    ensures !ValidIds(j.size, j.c, j.ids) ==>
      store.uploads == old(store.uploads) && registry.uploads == old(registry.uploads)
    ensures forall id | id in store.created && id !in old(store.created) ::
      id !in store.uploads || id in registry.uploads
    ensures forall id | id in old(registry.uploads) && id in old(store.created) :: id in registry.uploads
    ensures store.calm && Joined(Run(j, schedule)) ==> registry.uploads <= old(registry.uploads)
  {
    r, created := [], false;
    for k := 0 to |j.ids|
      invariant forall i | 0 <= i < k :: 0 <= j.ids[i] < ChunkCount(j.size, j.c)
    {
      if j.ids[k] < 0 || j.ids[k] >= ChunkCount(j.size, j.c) { return; }
    }
    var id;
    created, id := store.CreateMultipartUpload(scratch);
    if !created { return; }
    registry.Register(id);
    RunInv(j, schedule);
    // an exception before the join leaves the upload to the registry
    if !Joined(Run(j, schedule)) { return; }
    r := Reply(j, Run(j, schedule));
    var aborted := store.AbortMultipartUpload(id);
    if aborted { registry.Unregister(id); }
  }
}

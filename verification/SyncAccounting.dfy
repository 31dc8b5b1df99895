/** The accounting of one synchronisation run: prefetchers filling a shared cache, a submitter handing
    files to pool tasks, tasks handing downloads to disk writers, in any interleaving. */
module SyncAccounting {
  import opened Chunks

  datatype Kind = Upload | UploadDiff | Download | DownloadDiff | Copy | Delete

  /** One actionable file: its action, its path and the bytes its source holds. */
  datatype Item = Item(kind: Kind, path: string, content: seq<Byte>)

  datatype Maybe = Nothing | Just(data: seq<Byte>)

  const MaxFile: nat := 16 * 1024 * 1024
  const MaxTotal: nat := 1024 * 1024 * 1024
  const MaxEntries: nat := 512

  /** A download with content goes through the write queue; everything else a task settles itself. */
  predicate GoesToDisk(it: Item) {
    it.kind == Download && it.content != []
  }

  predicate Prefetchable(it: Item) {
    (it.kind == Upload || it.kind == Download) && 0 < |it.content| <= MaxFile
  }

  datatype Result = Succeeded | Failed | Uncounted

  /** A prefetch: not begun, allowed to read, with its buffer, over. */
  datatype Fetching = Idle | Reading | Holding(data: seq<Byte>) | Over

  /** A file: not reached, taken from the cache or not, in a pool task, in the write queue, settled. */
  datatype Progress =
    | Waiting
    | Taken(given: Maybe)
    | Running(given: Maybe)
    | Queued(data: seq<Byte>)
    | Settled(result: Result)

  datatype State = State(fetch: seq<Fetching>, claimed: nat, cache: map<string, seq<Byte>>, cacheBytes: int,
                         file: seq<Progress>, next: nat, done: map<Kind, nat>, failed: nat, cancelled: bool)

  /** `ok` and `fetched` are the outcomes the environment decides. */
  datatype Action =
    | Claim
    | Admit(k: nat)
    | Fetch(k: nat, ok: bool)
    | Insert(k: nat)
    | Take
    | Post
    | Settle(k: nat, ok: bool)
    | Enqueue(k: nat, fetched: bool)
    | Write(k: nat, ok: bool)
    | Cancel

  const Kinds: set<Kind> := {Upload, UploadDiff, Download, DownloadDiff, Copy, Delete}

  ghost predicate DistinctPaths(items: seq<Item>) {
    forall i, j | 0 <= i < j < |items| :: items[i].path != items[j].path
  }

  function Start(items: seq<Item>): State {
    State(seq(|items|, _ => Idle), 0, map[], 0, seq(|items|, _ => Waiting), 0, map k | k in Kinds :: 0, 0, false)
  }

  predicate Enabled(items: seq<Item>, s: State, a: Action)
    requires |s.fetch| == |s.file| == |items|
  {
    match a
    case Claim => !s.cancelled && s.claimed < |items|
    case Admit(k) =>
      k < s.claimed && k < |items| && s.fetch[k] == Idle && Prefetchable(items[k]) && !s.cancelled
          && |s.cache| < MaxEntries && s.cacheBytes < MaxTotal
    case Fetch(k, _) => k < |items| && s.fetch[k] == Reading
    case Insert(k) => k < |items| && s.fetch[k].Holding?
    case Take => s.next < |items| && s.file[s.next] == Waiting && !s.cancelled
    case Post => s.next < |items| && s.file[s.next].Taken? && !s.cancelled
    case Settle(k, _) => k < |items| && s.file[k].Running? && !GoesToDisk(items[k])
    case Enqueue(k, _) => k < |items| && s.file[k].Running? && GoesToDisk(items[k])
    case Write(k, _) => k < |items| && s.file[k].Queued?
    case Cancel => true
  }

  /** A task or a writer books its file. Cancellation is no failure of the file. */
  function Book(items: seq<Item>, s: State, k: nat, r: Result): State
    requires k < |s.file| && k < |items|
  {
    var kind := items[k].kind;
    s.(file := s.file[k := Settled(r)],
       done := if r == Succeeded then s.done[kind := (if kind in s.done then s.done[kind] else 0) + 1] else s.done,
       failed := if r == Failed then s.failed + 1 else s.failed)
  }

  function Apply(items: seq<Item>, s: State, a: Action): State
    requires |s.fetch| == |s.file| == |items|
  {
    if !Enabled(items, s, a) then s
    else
      match a
      case Claim => s.(claimed := s.claimed + 1)
      case Admit(k) => s.(fetch := s.fetch[k := Reading])
      // a short read or a refused range leaves the file to the task
      case Fetch(k, ok) => s.(fetch := s.fetch[k := if ok then Holding(items[k].content) else Over])
      case Insert(k) =>
        var d := s.fetch[k].data;
        if s.cacheBytes + |d| <= MaxTotal then
          s.(fetch := s.fetch[k := Over], cache := s.cache[items[k].path := d], cacheBytes := s.cacheBytes + |d|)
        else s.(fetch := s.fetch[k := Over])
      case Take =>
        var p := items[s.next].path;
        if Prefetchable(items[s.next]) && p in s.cache then
          s.(file := s.file[s.next := Taken(Just(s.cache[p]))],
             cacheBytes := s.cacheBytes - |s.cache[p]|,
             cache := s.cache - {p})
        else s.(file := s.file[s.next := Taken(Nothing)])
      case Post => s.(file := s.file[s.next := Running(s.file[s.next].given)], next := s.next + 1)
      case Settle(k, ok) => Book(items, s, k, if ok then Succeeded else if s.cancelled then Uncounted else Failed)
      case Enqueue(k, fetched) =>
        if s.file[k].given.Nothing? && !fetched then Book(items, s, k, if s.cancelled then Uncounted else Failed)
        else if s.cancelled then Book(items, s, k, Uncounted)
        else s.(file := s.file[k := Queued(if s.file[k].given.Just? then s.file[k].given.data else items[k].content)])
      case Write(k, ok) => Book(items, s, k, if ok then Succeeded else Failed)
      case Cancel => s.(cancelled := true)
  }

  function Run(items: seq<Item>, schedule: seq<Action>): (s: State)
    ensures |s.fetch| == |s.file| == |items|
  {
    if schedule == [] then Start(items)
    else Apply(items, Run(items, schedule[..|schedule| - 1]), schedule[|schedule| - 1])
  }

  // ---- The cache ----

  function CachedBytes(items: seq<Item>, cache: map<string, seq<Byte>>): nat {
    if items == [] then 0
    else
      var it := items[|items| - 1];
      CachedBytes(items[..|items| - 1], cache) + if it.path in cache then |cache[it.path]| else 0
  }

  lemma {:induction false} CachedOther(items: seq<Item>, cache: map<string, seq<Byte>>, cache': map<string, seq<Byte>>)
    requires forall i | 0 <= i < |items| :: (items[i].path in cache <==> items[i].path in cache') &&
                                             (items[i].path in cache ==> cache[items[i].path] == cache'[items[i].path])
    ensures CachedBytes(items, cache) == CachedBytes(items, cache')
  {
    if items != [] {
      assert items[|items| - 1].path in cache <==> items[|items| - 1].path in cache';
      CachedOther(items[..|items| - 1], cache, cache');
    }
  }

  lemma {:induction false} CachedInsert(items: seq<Item>, cache: map<string, seq<Byte>>, k: nat, d: seq<Byte>)
    requires DistinctPaths(items) && k < |items| && items[k].path !in cache
    ensures CachedBytes(items, cache[items[k].path := d]) == CachedBytes(items, cache) + |d|
  {
    if k == |items| - 1 {
      CachedOther(items[..k], cache, cache[items[k].path := d]);
    } else {
      CachedInsert(items[..|items| - 1], cache, k, d);
    }
  }

  lemma CachedRemove(items: seq<Item>, cache: map<string, seq<Byte>>, k: nat)
    requires DistinctPaths(items) && k < |items| && items[k].path in cache
    ensures CachedBytes(items, cache - {items[k].path}) + |cache[items[k].path]| == CachedBytes(items, cache)
  {
    var p := items[k].path;
    CachedInsert(items, cache - {p}, k, cache[p]);
    assert (cache - {p})[p := cache[p]] == cache;
  }

  /** Buffers on their way to the cache are whole files. */
  ghost predicate OwnFetched(items: seq<Item>, s: State) {
    && |s.fetch| == |items|
    && (forall k | 0 <= k < |items| :: s.fetch[k].Holding? ==> s.fetch[k].data == items[k].content)
  }

  /** The cache holds whole files under their own names; a file can be cached at most once. */
  ghost predicate OwnCached(items: seq<Item>, s: State) {
    && |s.fetch| == |items|
    && (forall k | 0 <= k < |items| && items[k].path in s.cache ::
          s.fetch[k] == Over && s.cache[items[k].path] == items[k].content)
  }

  /** What a file was given, and what waits to be written, is all of its own bytes. */
  predicate OwnBytes(it: Item, p: Progress) {
    match p
    case Taken(g) => g.Just? ==> g.data == it.content
    case Running(g) => g.Just? ==> g.data == it.content
    case Queued(d) => d == it.content
    case _ => true
  }

  ghost predicate OwnGiven(items: seq<Item>, s: State) {
    |s.file| == |items| && forall k | 0 <= k < |items| :: OwnBytes(items[k], s.file[k])
  }

  ghost predicate Own(items: seq<Item>, s: State) {
    OwnFetched(items, s) && OwnCached(items, s) && OwnGiven(items, s)
  }

  ghost predicate Metered(items: seq<Item>, s: State) {
    && s.cacheBytes == CachedBytes(items, s.cache) && s.cacheBytes <= MaxTotal
    && (forall p | p in s.cache :: exists k :: 0 <= k < |items| && items[k].path == p)
  }

  lemma OwnFetchedKept(items: seq<Item>, s: State, a: Action)
    requires |s.file| == |items| && OwnFetched(items, s)
    ensures OwnFetched(items, Apply(items, s, a))
  {}

  lemma OwnCachedKept(items: seq<Item>, s: State, a: Action)
    requires |s.file| == |items| && DistinctPaths(items) && OwnFetched(items, s) && OwnCached(items, s)
    ensures OwnCached(items, Apply(items, s, a))
  {}

  lemma OwnGivenKept(items: seq<Item>, s: State, a: Action)
    requires OwnCached(items, s) && OwnGiven(items, s)
    ensures OwnGiven(items, Apply(items, s, a))
  {}

  lemma OwnKept(items: seq<Item>, s: State, a: Action)
    requires DistinctPaths(items) && Own(items, s)
    ensures Own(items, Apply(items, s, a))
  {
    OwnFetchedKept(items, s, a);
    OwnCachedKept(items, s, a);
    OwnGivenKept(items, s, a);
  }

  lemma InsertMetered(items: seq<Item>, s: State, k: nat)
    requires |s.file| == |items| && DistinctPaths(items) && OwnCached(items, s) && Metered(items, s)
    requires Enabled(items, s, Insert(k))
    ensures Metered(items, Apply(items, s, Insert(k)))
  {
    if s.cacheBytes + |s.fetch[k].data| <= MaxTotal { CachedInsert(items, s.cache, k, s.fetch[k].data); }
  }

  lemma TakeMetered(items: seq<Item>, s: State)
    requires |s.fetch| == |s.file| == |items| && DistinctPaths(items) && Metered(items, s) && Enabled(items, s, Take)
    ensures Metered(items, Apply(items, s, Take))
  {
    if items[s.next].path in s.cache { CachedRemove(items, s.cache, s.next); }
  }

  lemma MeteredKept(items: seq<Item>, s: State, a: Action)
    requires DistinctPaths(items) && Own(items, s) && Metered(items, s)
    ensures Metered(items, Apply(items, s, a))
  {
    if Enabled(items, s, a) {
      match a
      case Insert(k) => InsertMetered(items, s, k);
      case Take => TakeMetered(items, s);
      case _ =>
    }
  }

  // ---- The counters ----

  function Booked(items: seq<Item>, file: seq<Progress>, kind: Kind): nat
    requires |file| <= |items|
  {
    if file == [] then 0
    else
      var k := |file| - 1;
      Booked(items, file[..k], kind) + if file[k] == Settled(Succeeded) && items[k].kind == kind then 1 else 0
  }

  function With(file: seq<Progress>, r: Result): nat {
    if file == [] then 0 else With(file[..|file| - 1], r) + if file[|file| - 1] == Settled(r) then 1 else 0
  }

  lemma {:induction false} BookedUpdate(items: seq<Item>, file: seq<Progress>, k: nat, p: Progress, kind: Kind)
    requires k < |file| <= |items| && !file[k].Settled?
    ensures Booked(items, file[k := p], kind) ==
              Booked(items, file, kind) + if p == Settled(Succeeded) && items[k].kind == kind then 1 else 0
  {
    var h := file[k := p];
    if k == |file| - 1 {
      assert h[..k] == file[..k];
    } else {
      assert h[..|h| - 1] == file[..|file| - 1][k := p];
      BookedUpdate(items, file[..|file| - 1], k, p, kind);
    }
  }

  lemma {:induction false} WithUpdate(file: seq<Progress>, k: nat, p: Progress, r: Result)
    requires k < |file| && !file[k].Settled?
    ensures With(file[k := p], r) == With(file, r) + if p == Settled(r) then 1 else 0
  {
    var h := file[k := p];
    if k == |file| - 1 {
      assert h[..k] == file[..k];
    } else {
      assert h[..|h| - 1] == file[..|file| - 1][k := p];
      WithUpdate(file[..|file| - 1], k, p, r);
    }
  }

  lemma {:induction false} StartCounts(items: seq<Item>, file: seq<Progress>)
    requires |file| <= |items| && forall k | 0 <= k < |file| :: file[k] == Waiting
    ensures forall kind :: Booked(items, file, kind) == 0
    ensures With(file, Failed) == 0 && With(file, Uncounted) == 0
  {
    if file != [] { StartCounts(items, file[..|file| - 1]); }
  }

  ghost predicate Counted(items: seq<Item>, s: State) {
    && |s.file| == |items|
    && s.done.Keys == Kinds && (forall kind | kind in Kinds :: s.done[kind] == Booked(items, s.file, kind))
    && s.failed == With(s.file, Failed)
    && (!s.cancelled ==> With(s.file, Uncounted) == 0)
  }

  lemma MoveCounted(items: seq<Item>, s: State, k: nat, p: Progress)
    requires Counted(items, s) && k < |s.file| && !s.file[k].Settled? && !p.Settled?
    ensures Counted(items, s.(file := s.file[k := p]))
  {
    forall kind
      ensures Booked(items, s.file[k := p], kind) == Booked(items, s.file, kind)
    {
      BookedUpdate(items, s.file, k, p, kind);
    }
    WithUpdate(s.file, k, p, Failed);
    WithUpdate(s.file, k, p, Uncounted);
  }

  lemma BookCounted(items: seq<Item>, s: State, k: nat, r: Result)
    requires Counted(items, s) && k < |s.file| && !s.file[k].Settled? && (r == Uncounted ==> s.cancelled)
    ensures Counted(items, Book(items, s, k, r))
  {
    var p := Settled(r);
    forall kind
      ensures Booked(items, s.file[k := p], kind) ==
                Booked(items, s.file, kind) + if r == Succeeded && items[k].kind == kind then 1 else 0
    {
      BookedUpdate(items, s.file, k, p, kind);
    }
    WithUpdate(s.file, k, p, Failed);
    WithUpdate(s.file, k, p, Uncounted);
  }

  lemma CountedKept(items: seq<Item>, s: State, a: Action)
    requires |s.fetch| == |items| && Counted(items, s)
    ensures Counted(items, Apply(items, s, a))
  {
    if Enabled(items, s, a) {
      match a
      case Take => MoveCounted(items, s, s.next, Apply(items, s, a).file[s.next]);
      case Post => MoveCounted(items, s, s.next, Apply(items, s, a).file[s.next]);
      case Settle(k, ok) =>
        BookCounted(items, s, k, if ok then Succeeded else if s.cancelled then Uncounted else Failed);
      case Enqueue(k, fetched) =>
        var t := Apply(items, s, a);
        if t.file[k].Queued? {
          MoveCounted(items, s, k, t.file[k]);
        } else {
          BookCounted(items, s, k, t.file[k].result);
        }
      case Write(k, ok) => BookCounted(items, s, k, if ok then Succeeded else Failed);
      case _ =>
    }
  }

  /** Files before `next` are with the pool or beyond it, files after it are untouched. */
  ghost predicate InOrder(items: seq<Item>, s: State) {
    && |s.file| == |items| && s.next <= |items|
    && (forall k | 0 <= k < |items| :: k < s.next <==> s.file[k].Running? || s.file[k].Queued? || s.file[k].Settled?)
    && (forall k | s.next < k < |items| :: s.file[k] == Waiting)
  }

  lemma InOrderKept(items: seq<Item>, s: State, a: Action)
    requires |s.fetch| == |items| && InOrder(items, s)
    ensures InOrder(items, Apply(items, s, a))
  {}

  ghost predicate Inv(items: seq<Item>, s: State) {
    Own(items, s) && Metered(items, s) && Counted(items, s) && InOrder(items, s)
  }

  lemma {:induction false} RunInv(items: seq<Item>, schedule: seq<Action>)
    requires DistinctPaths(items)
    ensures Inv(items, Run(items, schedule))
  {
    if schedule == [] {
      StartCounts(items, Start(items).file);
      EmptyCache(items);
    } else {
      var s, a := Run(items, schedule[..|schedule| - 1]), schedule[|schedule| - 1];
      RunInv(items, schedule[..|schedule| - 1]);
      OwnKept(items, s, a);
      MeteredKept(items, s, a);
      CountedKept(items, s, a);
      InOrderKept(items, s, a);
    }
  }

  lemma {:induction false} EmptyCache(items: seq<Item>)
    ensures CachedBytes(items, map[]) == 0
  {
    if items != [] { EmptyCache(items[..|items| - 1]); }
  }

  // ---- The promises ----

  /** The byte counter of the cache is always exact and never above 1 GiB. */
  lemma CacheIsMetered(items: seq<Item>, schedule: seq<Action>)
    requires DistinctPaths(items)
    ensures var s := Run(items, schedule); s.cacheBytes == CachedBytes(items, s.cache) && 0 <= s.cacheBytes <= MaxTotal
  {
    RunInv(items, schedule);
  }

  /** A task runs with no data or with all bytes of its own file; so does every queued write. */
  lemma OnlyOwnBytes(items: seq<Item>, schedule: seq<Action>, k: nat)
    requires DistinctPaths(items) && k < |items|
    ensures var s := Run(items, schedule);
            && (s.file[k].Running? ==> s.file[k].given == Nothing || s.file[k].given == Just(items[k].content))
            && (s.file[k].Queued? ==> s.file[k].data == items[k].content)
  {
    RunInv(items, schedule);
  }

  function Rank(p: Progress): nat {
    match p
    case Waiting => 0
    case Taken(_) => 1
    case Running(_) => 2
    case Queued(_) => 3
    case Settled(_) => 4
  }

  /** Each file runs once: nothing ever moves back, and what is settled stays as it was settled. */
  lemma NeverAgain(items: seq<Item>, schedule: seq<Action>, a: Action, k: nat)
    requires k < |items|
    ensures var s := Run(items, schedule); var t := Apply(items, s, a);
            && Rank(s.file[k]) <= Rank(t.file[k])
            && (Rank(s.file[k]) == Rank(t.file[k]) ==> s.file[k] == t.file[k])
  {
    OnlyForward(items, Run(items, schedule), a, k);
  }

  lemma OnlyForward(items: seq<Item>, s: State, a: Action, k: nat)
    requires |s.fetch| == |s.file| == |items| && k < |items|
    ensures var t := Apply(items, s, a);
            && Rank(s.file[k]) <= Rank(t.file[k])
            && (Rank(s.file[k]) == Rank(t.file[k]) ==> s.file[k] == t.file[k])
  {}

  /** Everything has been joined: submitter at the end or cancelled, no task, no queued write. */
  predicate Joined(items: seq<Item>, s: State)
    requires |s.file| == |items|
  {
    && (s.next == |items| || s.cancelled)
    && forall k | 0 <= k < |items| :: !s.file[k].Running? && !s.file[k].Queued?
  }

  function Sum(done: map<Kind, nat>): nat
    requires done.Keys == Kinds
  {
    done[Upload] + done[UploadDiff] + done[Download] + done[DownloadDiff] + done[Copy] + done[Delete]
  }

  lemma SettledCases(p: Progress)
    requires p.Settled?
    ensures p == Settled(Succeeded) || p == Settled(Failed) || p == Settled(Uncounted)
  {
    match p.result
    case Succeeded =>
    case Failed =>
    case Uncounted =>
  }

  function AllKinds(items: seq<Item>, file: seq<Progress>): nat
    requires |file| <= |items|
  {
    Booked(items, file, Upload) + Booked(items, file, UploadDiff) + Booked(items, file, Download)
        + Booked(items, file, DownloadDiff)
    + Booked(items, file, Copy) + Booked(items, file, Delete)
  }

  lemma AllKindsLast(items: seq<Item>, file: seq<Progress>)
    requires 0 < |file| <= |items|
    ensures AllKinds(items, file) == AllKinds(items, file[..|file| - 1])
        + if file[|file| - 1] == Settled(Succeeded) then 1 else 0
  {
    match items[|file| - 1].kind
    case Upload =>
    case UploadDiff =>
    case Download =>
    case DownloadDiff =>
    case Copy =>
    case Delete =>
  }

  lemma {:induction false} SumAll(items: seq<Item>, file: seq<Progress>)
    requires |file| <= |items|
    ensures AllKinds(items, file) + With(file, Failed) + With(file, Uncounted) <= |file|
    ensures (forall k | 0 <= k < |file| :: file[k].Settled?) ==>
      AllKinds(items, file) + With(file, Failed) + With(file, Uncounted) == |file|
  {
    if file != [] {
      SumAll(items, file[..|file| - 1]);
      AllKindsLast(items, file);
      if file[|file| - 1].Settled? { SettledCases(file[|file| - 1]); }
    }
  }

  /** Without cancellation the counters and the failures add up to the actionable files; they never
      add up to more. */
  lemma NothingUncounted(items: seq<Item>, schedule: seq<Action>)
    requires DistinctPaths(items)
    ensures var s := Run(items, schedule);
            && s.done.Keys == Kinds
            && Sum(s.done) + s.failed <= |items|
            && (Joined(items, s) && !s.cancelled ==> Sum(s.done) + s.failed == |items|)
  {
    var s := Run(items, schedule);
    RunInv(items, schedule);
    SumAll(items, s.file);
  }

  /** Each counter counts its own action: with no failure and no cancellation, every file of the kind. */
  lemma {:induction false} EveryKindCounted(items: seq<Item>, schedule: seq<Action>, kind: Kind)
    requires DistinctPaths(items)
    ensures var s := Run(items, schedule);
            Joined(items, s) && !s.cancelled && s.failed == 0 ==> kind in s.done && s.done[kind] == OfKind(items, kind)
  {
    var s := Run(items, schedule);
    RunInv(items, schedule);
    if Joined(items, s) && !s.cancelled && s.failed == 0 {
      AllBooked(items, s.file, kind);
      assert s.file[..|items|] == s.file && items[..|items|] == items;
    }
  }

  function OfKind(items: seq<Item>, kind: Kind): nat {
    if items == [] then 0 else OfKind(items[..|items| - 1], kind) + if items[|items| - 1].kind == kind then 1 else 0
  }

  lemma {:induction false} AllBooked(items: seq<Item>, file: seq<Progress>, kind: Kind)
    requires |file| <= |items| && (forall k | 0 <= k < |file| :: file[k].Settled?) && With(file, Failed) == 0
    requires With(file, Uncounted) == 0
    ensures Booked(items, file, kind) == OfKind(items[..|file|], kind)
  {
    if file != [] {
      AllBooked(items, file[..|file| - 1], kind);
      SettledCases(file[|file| - 1]);
      assert items[..|file|][..|file| - 1] == items[..|file| - 1];
    }
  }

  // ---- What the outcomes decide ----

  /** The step settles file `k` well: its last outcome is a success. */
  predicate Succeeds(items: seq<Item>, s: State, a: Action, k: nat)
    requires k < |s.file| == |items|
  {
    || (a == Write(k, true) && s.file[k].Queued?)
    || (a == Settle(k, true) && s.file[k].Running? && !GoesToDisk(items[k]))
  }

  /** The step is a failure of file `k`: a failed disk write always, any other failure unless the run
      was cancelled before it. */
  predicate Fails(items: seq<Item>, s: State, a: Action, k: nat)
    requires k < |s.file| == |items|
  {
    || (a == Write(k, false) && s.file[k].Queued?)
    || (!s.cancelled && a == Settle(k, false) && s.file[k].Running? && !GoesToDisk(items[k]))
    || (!s.cancelled && a == Enqueue(k, false) && s.file[k] == Running(Nothing) && GoesToDisk(items[k]))
  }

  /** The step gives file `k` up because the run was cancelled. */
  predicate Excuses(items: seq<Item>, s: State, a: Action, k: nat)
    requires k < |s.file| == |items|
  {
    && s.cancelled && s.file[k].Running?
    && if GoesToDisk(items[k]) then a.Enqueue? && a.k == k else a == Settle(k, false)
  }

  predicate Decides(items: seq<Item>, s: State, a: Action, k: nat, r: Result)
    requires k < |s.file| == |items|
  {
    match r
    case Succeeded => Succeeds(items, s, a, k)
    case Failed => Fails(items, s, a, k)
    case Uncounted => Excuses(items, s, a, k)
  }

  /** Some step of the schedule decided file `k` that way. */
  predicate Decided(items: seq<Item>, schedule: seq<Action>, k: nat, r: Result)
    requires k < |items|
  {
    schedule != [] &&
    var n := |schedule| - 1;
    Decided(items, schedule[..n], k, r) || Decides(items, Run(items, schedule[..n]), schedule[n], k, r)
  }

  lemma StepDecides(items: seq<Item>, s: State, a: Action, k: nat, r: Result)
    requires |s.fetch| == |s.file| == |items| && k < |items|
    ensures Apply(items, s, a).file[k] == Settled(r) <==> s.file[k] == Settled(r) || Decides(items, s, a, k, r)
  {}

  /** A file is booked as succeeded, failed or given up exactly when a step of the schedule brought that outcome. */
  lemma {:induction false} SettledAsDecided(items: seq<Item>, schedule: seq<Action>, k: nat, r: Result)
    requires k < |items|
    ensures Run(items, schedule).file[k] == Settled(r) <==> Decided(items, schedule, k, r)
  {
    if schedule != [] {
      var n := |schedule| - 1;
      SettledAsDecided(items, schedule[..n], k, r);
      StepDecides(items, Run(items, schedule[..n]), schedule[n], k, r);
    }
  }

  /** An outcome is final: after it no step decides the file again. */
  lemma DecidedOnce(items: seq<Item>, schedule: seq<Action>, a: Action, k: nat, r: Result, again: Result)
    requires k < |items| && Decided(items, schedule, k, r)
    ensures !Decides(items, Run(items, schedule), a, k, again)
  {
    SettledAsDecided(items, schedule, k, r);
  }

  /** A task with the bytes of its file, prefetched or just fetched, hands them to the disk unless cancelled. */
  lemma DataIsQueued(items: seq<Item>, schedule: seq<Action>, k: nat, fetched: bool)
    requires DistinctPaths(items) && k < |items| && GoesToDisk(items[k])
    requires var s := Run(items, schedule);
             s.file[k].Running? && !s.cancelled && (fetched || s.file[k].given.Just?)
    ensures Apply(items, Run(items, schedule), Enqueue(k, fetched)).file[k] == Queued(items[k].content)
  {
    RunInv(items, schedule);
  }

  /** The files decided that way. */
  function DecidedFiles(items: seq<Item>, schedule: seq<Action>, r: Result): set<nat> {
    set k | 0 <= k < |items| && Decided(items, schedule, k, r)
  }

  function SettledFiles(file: seq<Progress>, r: Result): set<nat> {
    set k | 0 <= k < |file| && file[k] == Settled(r)
  }

  function OfKindIn(items: seq<Item>, files: set<nat>, kind: Kind): set<nat> {
    set k | k in files && k < |items| && items[k].kind == kind
  }

  lemma FilesLast(file: seq<Progress>, r: Result)
    requires file != []
    ensures var n := |file| - 1;
            SettledFiles(file, r) == SettledFiles(file[..n], r) + if file[n] == Settled(r) then {n} else {}
  {}

  lemma {:induction false} WithIsSize(file: seq<Progress>, r: Result)
    ensures With(file, r) == |SettledFiles(file, r)|
  {
    if file != [] {
      WithIsSize(file[..|file| - 1], r);
      FilesLast(file, r);
    }
  }

  lemma OfKindLast(items: seq<Item>, file: seq<Progress>, kind: Kind)
    requires 0 < |file| <= |items|
    ensures var n := |file| - 1; var before := OfKindIn(items, SettledFiles(file[..n], Succeeded), kind);
            && n !in before
            && OfKindIn(items, SettledFiles(file, Succeeded), kind) ==
                 before + if file[n] == Settled(Succeeded) && items[n].kind == kind then {n} else {}
  {}

  lemma {:induction false} BookedIsSize(items: seq<Item>, file: seq<Progress>, kind: Kind)
    requires |file| <= |items|
    ensures Booked(items, file, kind) == |OfKindIn(items, SettledFiles(file, Succeeded), kind)|
  {
    if file != [] {
      BookedIsSize(items, file[..|file| - 1], kind);
      OfKindLast(items, file, kind);
    }
  }

  lemma SettledAreDecided(items: seq<Item>, schedule: seq<Action>, r: Result)
    ensures SettledFiles(Run(items, schedule).file, r) == DecidedFiles(items, schedule, r)
  {
    forall k: nat | k < |items|
      ensures k in SettledFiles(Run(items, schedule).file, r) <==> k in DecidedFiles(items, schedule, r)
    {
      SettledAsDecided(items, schedule, k, r);
    }
  }

  /** The counters say what the outcomes were: the failure counter is the number of files whose outcome
      was a failure, each action's counter the number of its files whose outcome was a success. */
  lemma CountersAreOutcomes(items: seq<Item>, schedule: seq<Action>, kind: Kind)
    requires DistinctPaths(items)
    ensures var s := Run(items, schedule);
            && kind in s.done
            && s.failed == |DecidedFiles(items, schedule, Failed)|
            && s.done[kind] == |OfKindIn(items, DecidedFiles(items, schedule, Succeeded), kind)|
  {
    var s := Run(items, schedule);
    RunInv(items, schedule);
    WithIsSize(s.file, Failed);
    BookedIsSize(items, s.file, kind);
    SettledAreDecided(items, schedule, Failed);
    SettledAreDecided(items, schedule, Succeeded);
  }

  /** Step by step: a disk write that succeeds is one more of the download counter, one that fails, cancelled or not,
      one more failure and no more of any action. */
  lemma WriteIsBooked(items: seq<Item>, s: State, k: nat, ok: bool)
    requires |s.fetch| == |s.file| == |items| && k < |items| && s.file[k].Queued? && items[k].kind in s.done
    ensures var t := Apply(items, s, Write(k, ok)); var kind := items[k].kind;
            if ok then t == s.(file := s.file[k := Settled(Succeeded)], done := s.done[kind := s.done[kind] + 1])
            else t == s.(file := s.file[k := Settled(Failed)], failed := s.failed + 1)
  {}

  /** A task that settles its file counts its success for the action; its failure is one unless the run was
      cancelled, and then nothing. */
  lemma SettleIsBooked(items: seq<Item>, s: State, k: nat, ok: bool)
    requires |s.fetch| == |s.file| == |items| && k < |items| && items[k].kind in s.done
    requires s.file[k].Running? && !(items[k].kind == Download && items[k].content != [])
    ensures var t := Apply(items, s, Settle(k, ok)); var kind := items[k].kind;
            if ok then t == s.(file := s.file[k := Settled(Succeeded)], done := s.done[kind := s.done[kind] + 1])
            else if s.cancelled then t == s.(file := s.file[k := Settled(Uncounted)])
            else t == s.(file := s.file[k := Settled(Failed)], failed := s.failed + 1)
  {}

  /** A download for which neither the cache nor the task has the bytes is a failure unless the run was cancelled. */
  lemma MissingDataIsBooked(items: seq<Item>, s: State, k: nat)
    requires |s.fetch| == |s.file| == |items| && k < |items|
    requires s.file[k] == Running(Nothing) && items[k].kind == Download && items[k].content != []
    ensures var t := Apply(items, s, Enqueue(k, false));
            if s.cancelled then t == s.(file := s.file[k := Settled(Uncounted)])
            else t == s.(file := s.file[k := Settled(Failed)], failed := s.failed + 1)
  {}

  lemma StepCancels(items: seq<Item>, s: State, a: Action)
    requires |s.fetch| == |s.file| == |items|
    ensures Apply(items, s, a).cancelled <==> s.cancelled || a == Cancel
  {}

  lemma {:induction false} CancelledIff(items: seq<Item>, schedule: seq<Action>)
    ensures Run(items, schedule).cancelled <==> Cancel in schedule
  {
    if schedule != [] {
      var n := |schedule| - 1;
      CancelledIff(items, schedule[..n]);
      StepCancels(items, Run(items, schedule[..n]), schedule[n]);
    }
  }

  /** What a run says of itself at the end. */
  predicate ReportsSuccess(s: State) {
    !s.cancelled && s.failed == 0
  }

  lemma {:induction false} AllSucceededIff(file: seq<Progress>)
    requires forall k: nat | k < |file| :: file[k].Settled?
    ensures With(file, Failed) == 0 && With(file, Uncounted) == 0 <==>
            forall k: nat | k < |file| :: file[k] == Settled(Succeeded)
  {
    if file != [] {
      var n := |file| - 1;
      AllSucceededIff(file[..n]);
      SettledCases(file[n]);
      assert forall k: nat | k < n :: file[..n][k] == file[k];
    }
  }

  lemma AllDecided(items: seq<Item>, schedule: seq<Action>, r: Result)
    ensures (forall k: nat | k < |items| :: Decided(items, schedule, k, r)) <==>
            (forall k: nat | k < |items| :: Run(items, schedule).file[k] == Settled(r))
  {
    if forall k: nat | k < |items| :: Decided(items, schedule, k, r) {
      forall k: nat | k < |items| ensures Run(items, schedule).file[k] == Settled(r) {
        SettledAsDecided(items, schedule, k, r);
      }
    } else {
      var k: nat :| k < |items| && !Decided(items, schedule, k, r);
      SettledAsDecided(items, schedule, k, r);
    }
  }

  lemma JoinedIsSettled(items: seq<Item>, s: State)
    requires InOrder(items, s) && Joined(items, s) && !s.cancelled
    ensures forall k: nat | k < |items| :: s.file[k].Settled?
  {}

  lemma VerdictOf(items: seq<Item>, s: State)
    requires Counted(items, s) && InOrder(items, s) && Joined(items, s)
    ensures ReportsSuccess(s) <==> !s.cancelled && forall k: nat | k < |items| :: s.file[k] == Settled(Succeeded)
  {
    if !s.cancelled {
      JoinedIsSettled(items, s);
      AllSucceededIff(s.file);
      assert With(s.file, Uncounted) == 0 && s.failed == With(s.file, Failed);
    }
  }

  /** The verdict of a run that was joined: success exactly when no one cancelled and every actionable file's
      outcome was a success. */
  lemma SuccessIff(items: seq<Item>, schedule: seq<Action>)
    requires DistinctPaths(items) && Joined(items, Run(items, schedule))
    ensures ReportsSuccess(Run(items, schedule)) <==>
              Cancel !in schedule && forall k: nat | k < |items| :: Decided(items, schedule, k, Succeeded)
  {
    var s := Run(items, schedule);
    RunInv(items, schedule);
    CancelledIff(items, schedule);
    VerdictOf(items, s);
    AllDecided(items, schedule, Succeeded);
  }

  /** Prefetched bytes are used and released: the submitter takes what the cache has for a file, and the cache then
      has it no more; a file it has nothing for is left to its task. */
  lemma PrefetchedIsTaken(items: seq<Item>, schedule: seq<Action>)
    requires DistinctPaths(items) && Enabled(items, Run(items, schedule), Take)
    ensures var s := Run(items, schedule); var it := items[s.next]; var t := Apply(items, s, Take);
            if Prefetchable(it) && it.path in s.cache
            then && t.file[s.next] == Taken(Just(it.content)) && it.path !in t.cache
                 && t.cacheBytes == s.cacheBytes - |it.content|
            else t == s.(file := s.file[s.next := Taken(Nothing)])
  {
    RunInv(items, schedule);
  }

  /** A whole file that was read is cached exactly when it fits into what is left of the gibibyte. */
  lemma CachedIfItFits(items: seq<Item>, schedule: seq<Action>, k: nat)
    requires DistinctPaths(items) && k < |items| && Run(items, schedule).fetch[k].Holding?
    ensures var s := Run(items, schedule); var t := Apply(items, s, Insert(k)); var fits := s.cacheBytes
        + |items[k].content| <= 1073741824;
            && items[k].path !in s.cache && (items[k].path in t.cache <==> fits)
            && (fits ==> t.cache[items[k].path] == items[k].content) && t.fetch[k].Over?
  {
    RunInv(items, schedule);
  }

  /** After a cancellation nothing more is handed to a task or to the disk. */
  lemma NothingAfterCancel(items: seq<Item>, s: State, a: Action, k: nat)
    requires |s.fetch| == |s.file| == |items| && k < |items| && s.cancelled
    ensures var t := Apply(items, s, a);
            && (t.file[k].Running? ==> s.file[k].Running?) && (t.file[k].Queued? ==> s.file[k].Queued?)
            && (t.fetch[k].Reading? ==> s.fetch[k].Reading?)
  {}
}

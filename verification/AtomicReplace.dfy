/** Replacing a file through a temporary and a rename, on a disk that may lose whatever was not
    flushed. Every state the disk passes through is recorded, so that a crash at any point can be judged. */
module AtomicReplace {
  import opened Cancel
  import opened Chunks
  import opened Sequences
  import opened Limits

  type Name = string
  type Inode = nat

  datatype Held = Missing | Bytes(data: seq<Byte>)

  datatype Link = NoEntry | At(inode: Inode)

  /** What the disk is at one moment. `names` and `content` are what processes see; an inode in
      `stable` is on the medium with this content, any other may hold anything after a crash; `after`
      lists the entries each name may come back with. */
  datatype Moment = Moment(content: map<Inode, seq<Byte>>, stable: set<Inode>, names: map<Name, Inode>,
      after: map<Name, set<Link>>, next: Inode)

  function LinksOf(m: Moment, n: Name): set<Link> {
    if n in m.after then m.after[n] else {NoEntry}
  }

  function Seen(m: Moment, n: Name): Held {
    if n in m.names && m.names[n] in m.content then Bytes(m.content[m.names[n]]) else Missing
  }

  /** `h` is a possible content of `n` after a crash. */
  ghost predicate MayHold(m: Moment, n: Name, h: Held) {
    exists l :: l in LinksOf(m, n) && (match l
                                       case NoEntry => h == Missing
                                       case At(i) =>
                                         h.Bytes? && (i in m.stable ==> i in m.content && h.data == m.content[i]))
  }

  /** Whatever happens at this moment, the name holds the old contents or the complete new ones. */
  ghost predicate CrashSafe(m: Moment, n: Name, was: Held, becomes: seq<Byte>) {
    && (Seen(m, n) == was || Seen(m, n) == Bytes(becomes))
    && forall h :: MayHold(m, n, h) ==> h == was || h == Bytes(becomes)
  }

  ghost predicate Sane(m: Moment) {
    && (forall i | i in m.content || i in m.stable :: i < m.next)
    && (forall n | n in m.names :: m.names[n] in m.content)
    && (forall n, l | n in m.after && l in m.after[n] && l.At? :: l.inode < m.next)
  }

  // ---- The primitives ----

  function Created(m: Moment, n: Name): Moment {
    m.(content := m.content[m.next := []], stable := m.stable - {m.next}, names := m.names[n := m.next],
       after := m.after[n := LinksOf(m, n) + {At(m.next)}], next := m.next + 1)
  }

  function Written(m: Moment, i: Inode, data: seq<Byte>): Moment
    requires i in m.content
  {
    m.(content := m.content[i := m.content[i] + data], stable := m.stable - {i})
  }

  function Renamed(m: Moment, from: Name, to: Name): Moment
    requires from in m.names
  {
    m.(names := (m.names - {from})[to := m.names[from]],
       after := m.after[from := LinksOf(m, from) + {NoEntry}][to := LinksOf(m, to) + {At(m.names[from])}])
  }

  function Removed(m: Moment, n: Name): Moment {
    m.(names := m.names - {n}, after := m.after[n := LinksOf(m, n) + {NoEntry}])
  }

  function Flushed(m: Moment): Moment {
    m.(after := map n | n in m.after.Keys + m.names.Keys :: if n in m.names then {At(m.names[n])} else {NoEntry})
  }

  /** `patience` is how often a signal will still interrupt a call; on a `calm` disk no call fails for any other
      reason. */
  class Disk {
    const calm: bool
    var now: Moment
    var patience: nat
    ghost var history: seq<Moment>

    constructor (start: Moment, patience: nat, calm: bool)
      requires Sane(start)
      ensures now == start && history == [start] && this.patience == patience && this.calm == calm
    { now, history, this.patience, this.calm := start, [start], patience, calm; }

    method Create(n: Name) returns (i: int, exists_: bool)
      modifies this`now, this`history
      ensures exists_ <==> n in old(now).names
      ensures exists_ ==> i < 0
      ensures i < 0 ==> now == old(now) && history == old(history)
      ensures calm && n !in old(now).names ==> i >= 0
      ensures i >= 0 ==>
        n !in old(now).names && i == old(now).next && now == Created(old(now), n) && history == old(history) + [now]
    {
      var ok: bool := *;
      if n in now.names { return -1, true; }
      if !ok && !calm { return -1, false; }
      i, exists_ := now.next, false;
      now := Created(now, n);
      history := history + [now];
    }

    /** Writes some of the data, nothing, or fails; a failure may be a mere interruption. */
    method Write(i: Inode, data: seq<Byte>) returns (n: int, interrupted: bool)
      requires i in now.content
      modifies this
      ensures n <= |data| && (interrupted ==> n < 0)
      ensures patience == if interrupted then old(patience) - 1 else old(patience)
      ensures n <= 0 ==> now == old(now) && history == old(history)
      ensures calm && data != [] ==> n > 0 || interrupted
      ensures n > 0 ==> now == Written(old(now), i, data[..n]) && history == old(history) + [now]
    {
      n, interrupted := *, *;
      interrupted := interrupted && patience > 0;
      if interrupted {
        n, patience := -1, patience - 1;
      } else if n > |data| || (calm && n <= 0) {
        n := |data|;
      }
      if n > 0 {
        now := Written(now, i, data[..n]);
        history := history + [now];
      }
    }

    method DataSync(i: Inode) returns (ok: bool)
      modifies this`now, this`history
      ensures now == if ok then old(now).(stable := old(now).stable + {i}) else old(now)
      ensures history == old(history) + [now] && (calm ==> ok)
    {
      ok := *;
      ok := ok || calm;
      if ok { now := now.(stable := now.stable + {i}); }
      history := history + [now];
    }

    method Rename(from: Name, to: Name) returns (ok: bool)
      requires from in now.names
      modifies this`now, this`history
      ensures now == if ok then Renamed(old(now), from, to) else old(now)
      ensures history == old(history) + [now] && (calm ==> ok)
    {
      ok := *;
      ok := ok || calm;
      if ok { now := Renamed(now, from, to); }
      history := history + [now];
    }

    method SyncDirectory() returns (ok: bool)
      modifies this`now, this`history
      ensures now == if ok then Flushed(old(now)) else old(now)
      ensures history == old(history) + [now] && (calm ==> ok)
    {
      ok := *;
      ok := ok || calm;
      if ok { now := Flushed(now); }
      history := history + [now];
    }

    method Remove(n: Name) returns (ok: bool)
      modifies this`now, this`history
      ensures now == if ok then Removed(old(now), n) else old(now)
      ensures history == old(history) + [now] && (calm ==> ok)
    {
      ok := *;
      ok := ok || calm;
      if ok { now := Removed(now, n); }
      history := history + [now];
    }
  }

  ghost predicate AlwaysSafe(history: seq<Moment>, n: Name, was: Held, becomes: seq<Byte>) {
    forall k | 0 <= k < |history| :: CrashSafe(history[k], n, was, becomes)
  }

  /** The target as it was before the writer came: one known content, on the medium. */
  ghost predicate Settled(m: Moment, n: Name) {
    && Sane(m)
    && LinksOf(m, n) == (if n in m.names then {At(m.names[n])} else {NoEntry})
    && (n in m.names ==> m.names[n] in m.stable)
  }

  // ---- What the primitives do to the target ----

  /** The target is still exactly what it was. */
  ghost predicate Untouched(m: Moment, start: Moment, n: Name) {
    && Sane(m) && LinksOf(m, n) == LinksOf(start, n) && (n in m.names <==> n in start.names)
    && (n in start.names ==>
          && m.names[n] == start.names[n] && start.names[n] in m.content && start.names[n] in start.content
          && m.content[start.names[n]] == start.content[start.names[n]] && start.names[n] in m.stable)
  }

  lemma UntouchedIsSafe(m: Moment, start: Moment, n: Name, becomes: seq<Byte>)
    requires Settled(start, n) && Untouched(m, start, n)
    ensures CrashSafe(m, n, Seen(start, n), becomes) && Seen(m, n) == Seen(start, n)
  {}

  /** A file of the writer's own: not the target's, and not yet reachable through the target. */
  ghost predicate OwnFile(m: Moment, start: Moment, temp: Name, n: Name, i: Inode, data: seq<Byte>) {
    && i in m.content && m.content[i] == data && temp in m.names && m.names[temp] == i
    && temp != n && i >= start.next
  }

  /** Nothing but the target and the temporary is affected: other names stay, and no file that was there changes. */
  ghost predicate Others(m: Moment, start: Moment, temp: Name, n: Name) {
    && temp !in start.names && m.next >= start.next
    && (forall x | x != temp && x != n ::
          (x in m.names <==> x in start.names) && (x in m.names ==> m.names[x] == start.names[x]))
    && (forall i | i in start.content :: i in m.content && m.content[i] == start.content[i])
  }

  /** Apart from the target and the excepted names, everything shows what it showed. */
  ghost predicate Spares(m: Moment, start: Moment, n: Name, except: set<Name>) {
    forall x | x != n && x !in except :: Seen(m, x) == Seen(start, x)
  }

  lemma OthersAreSpared(m: Moment, start: Moment, temp: Name, n: Name)
    requires Sane(start) && Others(m, start, temp, n)
    ensures Spares(m, start, n, {temp})
    ensures temp !in m.names ==> Spares(m, start, n, {})
  {}

  lemma CreateKeeps(m: Moment, start: Moment, temp: Name, n: Name)
    requires Settled(start, n) && Untouched(m, start, n) && temp != n && m.next >= start.next
    ensures Untouched(Created(m, temp), start, n) && OwnFile(Created(m, temp), start, temp, n, m.next, [])
    ensures Others(m, start, temp, n) ==> Others(Created(m, temp), start, temp, n)
  {}

  lemma WriteKeeps(m: Moment, start: Moment, temp: Name, n: Name, i: Inode, data: seq<Byte>, more: seq<Byte>)
    requires Settled(start, n) && Untouched(m, start, n) && OwnFile(m, start, temp, n, i, data)
    ensures Untouched(Written(m, i, more), start, n) && OwnFile(Written(m, i, more), start, temp, n, i, data + more)
    ensures Others(m, start, temp, n) ==> Others(Written(m, i, more), start, temp, n)
  {}

  lemma SyncKeeps(m: Moment, start: Moment, temp: Name, n: Name, i: Inode, data: seq<Byte>)
    requires Untouched(m, start, n) && OwnFile(m, start, temp, n, i, data)
    ensures var t := m.(stable := m.stable + {i}); Untouched(t, start, n) && OwnFile(t, start, temp, n, i, data)
  {}

  lemma RemoveKeeps(m: Moment, start: Moment, temp: Name, n: Name)
    requires Untouched(m, start, n) && temp != n
    ensures Untouched(Removed(m, temp), start, n) && temp !in Removed(m, temp).names
    ensures Others(m, start, temp, n) ==> Others(Removed(m, temp), start, temp, n)
  {}

  /** The rename of a flushed file: the only step that changes the target, and it is safe on its own. */
  lemma RenamePublishes(m: Moment, start: Moment, temp: Name, n: Name, i: Inode, data: seq<Byte>)
    requires Settled(start, n) && Untouched(m, start, n) && OwnFile(m, start, temp, n, i, data) && i in m.stable
    ensures var t := Renamed(m, temp, n);
            && CrashSafe(t, n, Seen(start, n), data) && Seen(t, n) == Bytes(data)
            && n in t.names && t.names[n] == i && i in t.stable
            && CrashSafe(Flushed(t), n, Seen(start, n), data) && Seen(Flushed(t), n) == Bytes(data)
            && (forall h :: MayHold(Flushed(t), n, h) ==> h == Bytes(data))
  {
    var t := Renamed(m, temp, n);
    assert LinksOf(t, n) == LinksOf(m, n) + {At(i)};
    assert LinksOf(Flushed(t), n) == {At(i)};
  }

  /** The target shows the new contents, safely, and nothing else has changed. */
  ghost predicate Published(m: Moment, start: Moment, n: Name, data: seq<Byte>) {
    CrashSafe(m, n, Seen(start, n), data) && Seen(m, n) == Bytes(data) && Spares(m, start, n, {})
  }

  lemma RenameSpares(m: Moment, start: Moment, temp: Name, n: Name)
    requires Sane(start) && Others(m, start, temp, n) && temp in m.names && temp != n
    ensures Spares(Renamed(m, temp, n), start, n, {}) && Spares(Flushed(Renamed(m, temp, n)), start, n, {})
  {
    OthersAreSpared(Renamed(m, temp, n), start, temp, n);
    assert forall x :: Seen(Flushed(Renamed(m, temp, n)), x) == Seen(Renamed(m, temp, n), x);
  }

  /** Without the flush it would not be: a file renamed before its data is on the medium may come back
      holding anything. This is what the call to fdatasync is for. */
  lemma UnflushedRenameIsUnsafe(m: Moment, start: Moment, temp: Name, n: Name, i: Inode, data: seq<Byte>)
    requires Settled(start, n) && Untouched(m, start, n) && OwnFile(m, start, temp, n, i, data) && i !in m.stable
    ensures !CrashSafe(Renamed(m, temp, n), n, Seen(start, n), data)
  {
    var t := Renamed(m, temp, n);
    assert At(i) in LinksOf(t, n);
    var x := data + [0];
    var y := data + [0, 0];
    var h := if Seen(start, n) == Bytes(x) then Bytes(y) else Bytes(x);
    assert |x| != |y| && |x| != |data| && |y| != |data|;
    assert MayHold(t, n, h);
  }

  // ---- The writer ----

  /** How the destination looks to the constructor. */
  datatype Inspection = Absent | Regular | Unfit

  const TempAttempts: nat := 8

  class AtomicFileWriter {
    const disk: Disk
    const target: Name
    var temp: Name
    var fd: int
    var committed: bool
    ghost const start: Moment

    /** Open for writing, with `data` written so far; the target untouched. */
    ghost predicate Open(data: seq<Byte>)
      reads this, disk
    {
      && fd >= 0 && !committed && Settled(start, target)
      && Untouched(disk.now, start, target) && OwnFile(disk.now, start, temp, target, fd, data)
      && Others(disk.now, start, temp, target) && temp != ""
    }

    ghost predicate Closed()
      reads this, disk
    {
      && Settled(start, target) && Untouched(disk.now, start, target) && !committed && temp != target
      && if temp == "" then disk.now == start else Others(disk.now, start, temp, target)
    }

    /** Creates the temporary under the first free name of `names`; a destination that cannot be vouched
        for is refused. */
    constructor (disk: Disk, target: Name, seen: Inspection, names: seq<Name>, ghost becomes: seq<Byte>)
      requires Settled(disk.now, target) && |names| == TempAttempts
      requires forall k | 0 <= k < |names| :: names[k] != target && names[k] != ""
      requires target != "" && AlwaysSafe(disk.history, target, Seen(disk.now, target), becomes)
      modifies disk
      ensures this.disk == disk && this.target == target && start == old(disk.now) && (temp in names || temp == "")
      ensures fd >= 0 ==> Open([]) && seen != Unfit
      ensures fd < 0 ==> Closed() && disk.now == old(disk.now)
      ensures disk.calm && seen != Unfit && (exists n :: n in names && n !in old(disk.now).names) ==> fd >= 0
      ensures AlwaysSafe(disk.history, target, Seen(start, target), becomes)
    {
      this.disk, this.target, this.temp, this.fd, this.committed := disk, target, "", -1, false;
      start := disk.now;
      new;
      if seen == Unfit { return; }
      var attempt := 0;
      while attempt < TempAttempts && fd < 0
        invariant fd < 0 ==> disk.now == start && temp != target && !committed
        invariant temp in names || temp == ""
        invariant fd >= 0 ==> Open([])
        invariant AlwaysSafe(disk.history, target, Seen(start, target), becomes)
        invariant 0 <= attempt <= TempAttempts
        invariant disk.calm && fd < 0 ==> forall k | 0 <= k < attempt :: names[k] in start.names
        decreases TempAttempts - attempt
      {
        temp := names[attempt];
        var taken: bool;
        fd, taken := disk.Create(temp);
        if fd < 0 && !taken { break; }
        if fd >= 0 {
          CreateKeeps(start, start, temp, target);
          UntouchedIsSafe(disk.now, start, target, becomes);
        }
        attempt := attempt + 1;
      }
      if fd < 0 { temp := ""; }
    }

    /** One call of write on the descriptor. */
    method Write(data: seq<Byte>, ghost soFar: seq<Byte>, ghost becomes: seq<Byte>) returns (n: int, interrupted: bool)
      requires Open(soFar) && AlwaysSafe(disk.history, target, Seen(start, target), becomes)
      modifies disk
      ensures n <= |data| && (interrupted ==> n < 0 && disk.patience < old(disk.patience))
      ensures disk.patience <= old(disk.patience)
      ensures disk.calm && data != [] ==> n > 0 || interrupted
      ensures Open(soFar + (if n > 0 then data[..n] else []))
      ensures AlwaysSafe(disk.history, target, Seen(start, target), becomes)
    {
      n, interrupted := disk.Write(fd, data);
      if n > 0 {
        WriteKeeps(old(disk.now), start, temp, target, fd, soFar, data[..n]);
        UntouchedIsSafe(disk.now, start, target, becomes);
      } else {
        assert soFar + [] == soFar;
      }
    }

    /** The rename of the flushed and closed temporary. */
    method Publish(ghost data: seq<Byte>, ghost inode: int) returns (moved: bool)
      requires Settled(start, target) && Untouched(disk.now, start, target) && !committed && temp != ""
      requires inode >= 0 && OwnFile(disk.now, start, temp, target, inode, data) && inode in disk.now.stable
      requires Others(disk.now, start, temp, target)
      requires AlwaysSafe(disk.history, target, Seen(start, target), data)
      modifies disk
      ensures AlwaysSafe(disk.history, target, Seen(start, target), data)
      ensures !moved ==> Closed()
      ensures moved ==> Published(disk.now, start, target, data) && Published(Flushed(disk.now), start, target, data)
      ensures moved ==> forall h :: MayHold(Flushed(disk.now), target, h) ==> h == Bytes(data)
      ensures disk.calm ==> moved
    {
      ghost var before := disk.now;
      moved := disk.Rename(temp, target);
      if moved {
        RenamePublishes(before, start, temp, target, inode, data);
        RenameSpares(before, start, temp, target);
      } else {
        UntouchedIsSafe(disk.now, start, target, data);
      }
    }

    /** Flush, close, rename, flush the directory. True means the target now holds the written bytes. */
    method Commit(ghost data: seq<Byte>) returns (ok: bool, ghost durable: bool)
      requires fd >= 0 ==> Open(data)
      requires fd < 0 ==> Closed()
      requires AlwaysSafe(disk.history, target, Seen(start, target), data)
      modifies this, disk
      ensures AlwaysSafe(disk.history, target, Seen(start, target), data)
      ensures ok == committed
      ensures ok ==> Seen(disk.now, target) == Bytes(data) && old(fd) >= 0
      ensures ok ==> Spares(disk.now, start, target, {})
      ensures temp == old(temp)
      ensures !ok ==> Closed()
      ensures durable ==> ok && forall h :: MayHold(disk.now, target, h) ==> h == Bytes(data)
      ensures disk.calm && old(fd) >= 0 ==> ok && durable
    {
      ok, durable := false, false;
      if fd < 0 { return; }
      var synced := disk.DataSync(fd);
      UntouchedAfterSync(old(disk.now), synced, data);
      UntouchedIsSafe(disk.now, start, target, data);
      if !synced { return; }
      ghost var inode := fd;
      var closed: bool := *;
      fd := -1;
      if !closed && !disk.calm { return; }
      ok := Publish(data, inode);
      if !ok { return; }
      committed := true;
      var reachable: bool := *;
      if reachable || disk.calm {
        durable := disk.SyncDirectory();
      }
    }

    lemma UntouchedAfterSync(before: Moment, synced: bool, data: seq<Byte>)
      requires fd >= 0 && Untouched(before, start, target) && OwnFile(before, start, temp, target, fd, data)
      ensures var t := if synced then before.(stable := before.stable + {fd}) else before;
              Untouched(t, start, target) && OwnFile(t, start, temp, target, fd, data)
    {
      SyncKeeps(before, start, temp, target, fd, data);
    }

    /** The destructor: what was not committed is removed, the target left as it is. */
    method Destroy(ghost becomes: seq<Byte>)
      requires !committed ==> Closed()
      requires AlwaysSafe(disk.history, target, Seen(start, target), becomes)
      modifies this, disk
      ensures AlwaysSafe(disk.history, target, Seen(start, target), becomes)
      ensures old(committed) ==> disk.now == old(disk.now)
      ensures !old(committed) ==> Untouched(disk.now, start, target)
      // On a calm disk nothing is left of the temporary.
      ensures !old(committed) ==> Spares(disk.now, start, target, if disk.calm then {} else {temp})
      ensures temp == old(temp)
    {
      fd := -1;
      if !committed && temp != "" {
        var gone := disk.Remove(temp);
        if gone { RemoveKeeps(old(disk.now), start, temp, target); }
        UntouchedIsSafe(disk.now, start, target, becomes);
        OthersAreSpared(disk.now, start, temp, target);
      }
    }
  }

  // ---- The users of the writer ----

  /** The loop of the download writers: goes on after short writes and interruptions. */
  method WriteAll(w: AtomicFileWriter, data: seq<Byte>, ghost becomes: seq<Byte>) returns (ok: bool)
    requires w.Open([]) && AlwaysSafe(w.disk.history, w.target, Seen(w.start, w.target), becomes)
    modifies w.disk
    ensures AlwaysSafe(w.disk.history, w.target, Seen(w.start, w.target), becomes)
    ensures ok ==> w.Open(data)
    ensures !ok ==> w.Closed()
    ensures w.disk.calm ==> ok
  {
    var written := 0;
    assert data[..0] == [];
    while written < |data|
      invariant 0 <= written <= |data| && w.Open(data[..written])
      invariant AlwaysSafe(w.disk.history, w.target, Seen(w.start, w.target), becomes)
      decreases |data| - written, w.disk.patience
    {
      var n, interrupted := w.Write(data[written..], data[..written], becomes);
      assert data[..written] + [] == data[..written];
      if interrupted { continue; }
      if n <= 0 { return false; }
      TakeMore([], data, written, n);
      assert [] + data[..written] == data[..written] && [] + data[..written + n] == data[..written + n];
      written := written + n;
    }
    assert data[..written] == data;
    ok := true;
  }

  /** Replaces `target` by bytes already in memory. */
  method DownloadFromData(disk: Disk, target: Name, seen: Inspection, names: seq<Name>, data: seq<Byte>)
    returns (ok: bool, ghost durable: bool)
    requires disk.history == [disk.now] && Settled(disk.now, target) && target != ""
    requires |names| == TempAttempts && forall k | 0 <= k < |names| :: names[k] != target && names[k] != ""
    modifies disk
    ensures AlwaysSafe(disk.history, target, Seen(old(disk.now), target), data)
    ensures ok ==> Seen(disk.now, target) == Bytes(data) && seen != Unfit
    ensures !ok ==> Seen(disk.now, target) == Seen(old(disk.now), target)
    ensures Spares(disk.now, old(disk.now), target, if disk.calm then {} else set n | n in names)
    ensures durable ==> ok && forall h :: MayHold(disk.now, target, h) ==> h == Bytes(data)
    ensures disk.calm && seen != Unfit && (exists n :: n in names && n !in old(disk.now).names) ==> ok && durable
  {
    durable := false;
    UntouchedIsSafe(disk.now, disk.now, target, data);
    var w := new AtomicFileWriter(disk, target, seen, names, data);
    if w.fd < 0 { return false, false; }
    ok := WriteAll(w, data, data);
    if ok { ok, durable := w.Commit(data); }
    w.Destroy(data);
    if !ok { UntouchedIsSafe(disk.now, w.start, target, data); }
  }

  /** A ranged read of the whole object: nothing, or a prefix of at most `size` bytes of it. */
  method Fetch(remote: seq<Byte>, size: nat, sound: bool) returns (body: seq<Byte>)
    ensures |body| <= size && body <= remote
    ensures sound && size <= |remote| ==> |body| == size
  {
    var n: int := *;
    if sound { n := size; }
    body := remote[..Max(0, Min(n, Min(size, |remote|)))];
  }

  /** Downloads an object of `size` > 0 bytes and replaces `target` by it. Of up to four reads the first `soundFrom` may
      fail or fall short. */
  method DownloadFile(disk: Disk, cancel: Cancellation, target: Name, seen: Inspection, names: seq<Name>,
                      remote: seq<Byte>, size: nat, soundFrom: nat)
    returns (ok: bool, ghost durable: bool)
    requires disk.history == [disk.now] && Settled(disk.now, target) && target != "" && size > 0
    requires |names| == TempAttempts && forall k | 0 <= k < |names| :: names[k] != target && names[k] != ""
    modifies disk, cancel
    ensures AlwaysSafe(disk.history, target, Seen(old(disk.now), target), remote[..Min(size, |remote|)])
    ensures ok ==> size <= |remote| && Seen(disk.now, target) == Bytes(remote[..size])
    ensures !ok ==> Seen(disk.now, target) == Seen(old(disk.now), target)
    ensures Spares(disk.now, old(disk.now), target, if disk.calm then {} else set n | n in names)
    ensures durable ==> ok && forall h :: MayHold(disk.now, target, h) ==> h == Bytes(remote[..size])
    ensures (disk.calm && soundFrom <= 3 && !cancel.raised && size <= |remote| && seen != Unfit
        && (exists n :: n in names && n !in old(disk.now).names)) ==> ok && durable
  {
    ok, durable := false, false;
    UntouchedIsSafe(disk.now, disk.now, target, remote[..Min(size, |remote|)]);
    for attempt := 0 to MaxRetries + 1
      invariant disk.now == old(disk.now) && disk.history == old(disk.history) && !ok && !durable
      invariant size <= |remote| ==> attempt <= soundFrom
    {
      var stop := cancel.Look();
      if stop { return; }
      var body := Fetch(remote, size, attempt >= soundFrom);
      if |body| != size { continue; }
      assert body == remote[..size];
      ok, durable := DownloadFromData(disk, target, seen, names, body);
      return;
    }
  }

  const CopyBuffer: nat := 1024 * 1024

  /** The inner loop of the copy: one buffer, given up when the user cancels. */
  method WriteBuffer(w: AtomicFileWriter, cancel: Cancellation, data: seq<Byte>, ghost soFar: seq<Byte>,
                     ghost becomes: seq<Byte>)
    returns (ok: bool, written: nat)
    requires w.Open(soFar) && AlwaysSafe(w.disk.history, w.target, Seen(w.start, w.target), becomes)
    modifies w.disk, cancel
    ensures old(cancel.raised) ==> cancel.raised
    ensures written <= |data| && w.Open(soFar + data[..written])
    ensures ok ==> written == |data| || cancel.raised
    ensures w.disk.calm ==> ok
    ensures w.disk.patience <= old(w.disk.patience)
    ensures AlwaysSafe(w.disk.history, w.target, Seen(w.start, w.target), becomes)
  {
    written := 0;
    assert soFar + data[..0] == soFar;
    var stop := cancel.Look();
    while written < |data| && !stop
      invariant 0 <= written <= |data| && w.Open(soFar + data[..written])
      invariant (old(cancel.raised) ==> cancel.raised) && (stop ==> cancel.raised)
      invariant w.disk.patience <= old(w.disk.patience)
      invariant AlwaysSafe(w.disk.history, w.target, Seen(w.start, w.target), becomes)
      decreases |data| - written, w.disk.patience
    {
      var n, interrupted := w.Write(data[written..], soFar + data[..written], becomes);
      assert soFar + data[..written] + [] == soFar + data[..written];
      if !interrupted {
        if n <= 0 { return false, written; }
        TakeMore(soFar, data, written, n);
        written := written + n;
      }
      stop := cancel.Look();
    }
    ok := true;
  }

  /** One read of the source: an error, an interruption, the end, or up to one buffer. */
  method ReadSource(disk: Disk, source: seq<Byte>, at: nat) returns (n: int, interrupted: bool)
    requires at <= |source|
    modifies disk`patience
    ensures n <= Min(CopyBuffer, |source| - at) && (n == 0 ==> at == |source|)
    ensures interrupted ==> n < 0
    ensures disk.calm ==> n >= 0 || interrupted
    ensures disk.patience == if interrupted then old(disk.patience) - 1 else old(disk.patience)
  {
    n, interrupted := *, *;
    interrupted := interrupted && disk.patience > 0;
    if interrupted {
      n, disk.patience := -1, disk.patience - 1;
    } else if n > Min(CopyBuffer, |source| - at) || n == 0 || (disk.calm && n < 0) {
      n := Min(CopyBuffer, |source| - at);
    }
  }

  /** One round of the copy: a read, and the writes of what it brought. */
  method CopyMore(w: AtomicFileWriter, cancel: Cancellation, source: seq<Byte>, at0: nat, ghost put0: seq<Byte>)
    returns (success: bool, at: nat, ended: bool, ghost put: seq<Byte>)
    requires at0 <= |source| && w.Open(put0) && AlwaysSafe(w.disk.history, w.target, Seen(w.start, w.target), source)
    requires !cancel.raised ==> put0 == source[..at0]
    modifies w.disk, cancel
    ensures at0 <= at <= |source| && w.Open(put) && (old(cancel.raised) ==> cancel.raised)
    ensures success && !cancel.raised ==> put == source[..at]
    ensures (ended ==> at == |source|) && (w.disk.calm ==> success)
    ensures AlwaysSafe(w.disk.history, w.target, Seen(w.start, w.target), source)
    ensures w.disk.patience <= old(w.disk.patience)
    ensures success && !ended && at == at0 ==> w.disk.patience < old(w.disk.patience)
  {
    success, at, ended, put := true, at0, false, put0;
    var n, interrupted := ReadSource(w.disk, source, at);
    if interrupted { return; }
    if n < 0 { success := false; return; }
    if n == 0 { ended := true; return; }
    var written;
    success, written := WriteBuffer(w, cancel, source[at..at + n], put, source);
    put := put + source[at..at + n][..written];
    CopiedSlice(source, at, n);
    at := at + n;
  }

  lemma CopiedSlice(source: seq<Byte>, at: nat, n: nat)
    requires at + n <= |source|
    ensures source[at..at + n][..n] == source[at..at + n] && source[..at] + source[at..at + n] == source[..at + n]
  {
    Adjoin(source, 0, at, at + n);
  }

  /** The copy loop: reads and writes until the source ends, something fails or the user cancels. */
  method CopyAll(w: AtomicFileWriter, cancel: Cancellation, source: seq<Byte>)
    returns (ok: bool, ghost put: seq<Byte>)
    requires w.Open([]) && AlwaysSafe(w.disk.history, w.target, Seen(w.start, w.target), source)
    modifies w.disk, cancel
    ensures w.Open(put) && (ok ==> put == source)
    ensures (old(cancel.raised) ==> !ok) && (w.disk.calm && !cancel.raised ==> ok)
    ensures AlwaysSafe(w.disk.history, w.target, Seen(w.start, w.target), source)
  {
    var success, at, ended := true, 0, false;
    put := [];
    var stop := cancel.Look();
    while !stop && success && !ended
      invariant 0 <= at <= |source| && w.Open(put) && (old(cancel.raised) ==> cancel.raised) && (stop ==> cancel.raised)
      invariant success && !cancel.raised ==> put == source[..at]
      invariant (ended ==> at == |source|) && (w.disk.calm ==> success)
      invariant AlwaysSafe(w.disk.history, w.target, Seen(w.start, w.target), source)
      decreases |source| - at, w.disk.patience, success, !ended
    {
      success, at, ended, put := CopyMore(w, cancel, source, at, put);
      stop := cancel.Look();
    }
    stop := cancel.Look();
    ok := success && !stop;
    if ok { assert source[..at] == source; }
  }

  /** Copies a local file. A cancellation or an error at any point leaves the destination alone, and nothing else on
      the disk is affected but the temporary's own name. */
  method CopyFile(disk: Disk, cancel: Cancellation, target: Name, seen: Inspection, names: seq<Name>, source: seq<Byte>)
    returns (ok: bool, ghost durable: bool)
    requires disk.history == [disk.now] && Settled(disk.now, target) && target != ""
    requires |names| == TempAttempts && forall k | 0 <= k < |names| :: names[k] != target && names[k] != ""
    modifies disk, cancel
    ensures AlwaysSafe(disk.history, target, Seen(old(disk.now), target), source)
    ensures ok ==> Seen(disk.now, target) == Bytes(source)
    ensures !ok ==> Seen(disk.now, target) == Seen(old(disk.now), target)
    ensures Spares(disk.now, old(disk.now), target, if disk.calm then {} else set n | n in names)
    ensures durable ==> ok && forall h :: MayHold(disk.now, target, h) ==> h == Bytes(source)
    ensures old(cancel.raised) ==> !ok
    ensures disk.calm && !cancel.raised && seen != Unfit && (exists n :: n in names && n !in old(disk.now).names) ==>
              ok && durable
  {
    durable := false;
    UntouchedIsSafe(disk.now, disk.now, target, source);
    var w := new AtomicFileWriter(disk, target, seen, names, source);
    if w.fd < 0 { return false, false; }
    ghost var put;
    ok, put := CopyAll(w, cancel, source);
    if ok { ok, durable := w.Commit(source); }
    w.Destroy(source);
    if !ok { UntouchedIsSafe(disk.now, w.start, target, source); }
  }
}

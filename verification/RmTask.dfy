/** One deletion task against a store whose failures may hide an applied delete. Other tasks run
    meanwhile: between any two steps the bucket may lose more keys, and it never gains one. */
module RmTask {
  import opened Sequences
  import opened Cancel

  type Key = string

  datatype Presence = Exists | NotFound | Unknown

  /** The bucket. A `reliable` one answers every call; any other may report any failure. What it was asked is
      kept: the keys it was told to delete, how many calls failed for all their keys, and its answers about presence. */
  class Bucket {
    var present: set<Key>
    const reliable: bool
    ghost var asked: multiset<Key>
    ghost var wholesale: nat
    ghost var answers: seq<(Key, Presence)>

    constructor (present: set<Key>, reliable: bool)
      ensures this.present == present && this.reliable == reliable
      ensures asked == multiset{} && wholesale == 0 && answers == []
    {
      this.present, this.reliable, asked, wholesale, answers := present, reliable, multiset{}, 0, [];
    }

    method DeleteObject(k: Key) returns (ok: bool)
      modifies `present, `asked
      ensures present <= old(present) && asked == old(asked) + multiset{k}
      ensures ok ==> k !in present
      ensures reliable ==> ok
    {
      var kept: set<Key> := *;
      ok := *;
      ok := ok || reliable;
      present := if ok then present * kept - {k} else present * kept;
      asked := asked + multiset{k};
    }

    /** Returns the keys whose deletion failed or is not known to have been applied. */
    method DeleteObjects(keys: seq<Key>) returns (failed: seq<Key>)
      requires Distinct(keys)
      modifies `present, `asked, `wholesale
      ensures present <= old(present) && asked == old(asked) + multiset(keys)
      ensures wholesale == old(wholesale) + if |failed| == |keys| then 1 else 0
      ensures Distinct(failed) && |failed| <= |keys| && forall k | k in failed :: k in keys
      ensures forall k | k in keys && k !in failed :: k !in present
      ensures reliable ==> failed == []
    {
      failed := [];
      for i := 0 to |keys|
        invariant present <= old(present) && Distinct(failed) && |failed| <= i
        invariant forall k | k in failed :: k in keys[..i]
        invariant forall k | k in keys[..i] && k !in failed :: k !in present
        invariant reliable ==> failed == []
        invariant asked == old(asked) && wholesale == old(wholesale)
      {
        var kept: set<Key> := *;
        var ok: bool := *;
        assert keys[..i + 1] == keys[..i] + [keys[i]];
        assert keys[i] !in keys[..i];
        present := present * kept;
        if ok || reliable { present := present - {keys[i]}; } else { failed := failed + [keys[i]]; }
      }
      assert keys[..|keys|] == keys;
      asked := asked + multiset(keys);
      wholesale := wholesale + if |failed| == |keys| then 1 else 0;
    }

    method CheckObjectPresence(k: Key) returns (p: Presence)
      modifies `present, `answers
      ensures present <= old(present) && answers == old(answers) + [(k, p)]
      ensures p == NotFound ==> k !in present
      ensures p == Exists ==> k in old(present)
    {
      var kept: set<Key> := *;
      var answered: bool := *;
      p := if !answered then Unknown else if k in present then Exists else NotFound;
      present := present * kept;
      answers := answers + [(k, p)];
    }
  }

  /** The bucket answered that the key is there, or that it does not know. */
  predicate NotConfirmed(answers: seq<(Key, Presence)>, k: Key) {
    (k, Exists) in answers || (k, Unknown) in answers
  }

  /** How often the bucket did not know since it last said that a key is gone. */
  function Unknowns(answers: seq<(Key, Presence)>): nat {
    if answers == [] then 0
    else
      var before := Unknowns(answers[..|answers| - 1]);
      match answers[|answers| - 1].1
      case NotFound => 0
      case Unknown => before + 1
      case Exists => before
  }

  // ---- What a task has to account for ----

  /** Keys counted deleted, bytes credited for them, and the keys booked as failed. */
  datatype Outcome = Outcome(deleted: nat, bytes: nat, failed: seq<Key>)

  /** The sizes of those keys that lie in `chosen`. */
  function BytesOf(keys: seq<Key>, sizes: seq<nat>, chosen: set<Key>): nat
    requires |keys| == |sizes|
  {
    if keys == [] then 0
    else
      BytesOf(keys[..|keys| - 1], sizes[..|keys| - 1], chosen)
      + if keys[|keys| - 1] in chosen then sizes[|keys| - 1] else 0
  }

  function ToSet(keys: seq<Key>): set<Key> { set k | k in keys }

  lemma {:induction false} BytesAdd(keys: seq<Key>, sizes: seq<nat>, a: set<Key>, b: set<Key>)
    requires |keys| == |sizes| && a !! b
    ensures BytesOf(keys, sizes, a + b) == BytesOf(keys, sizes, a) + BytesOf(keys, sizes, b)
  {
    if keys != [] {
      BytesAdd(keys[..|keys| - 1], sizes[..|keys| - 1], a, b);
    }
  }

  lemma {:induction false} BytesOutside(keys: seq<Key>, sizes: seq<nat>, a: set<Key>)
    requires |keys| == |sizes| && forall k | k in keys :: k !in a
    ensures BytesOf(keys, sizes, a) == 0
  {
    if keys != [] {
      BytesOutside(keys[..|keys| - 1], sizes[..|keys| - 1], a);
    }
  }

  lemma {:induction false} BytesSingle(keys: seq<Key>, sizes: seq<nat>, i: nat)
    requires |keys| == |sizes| && Distinct(keys) && i < |keys|
    ensures BytesOf(keys, sizes, {keys[i]}) == sizes[i]
  {
    if i == |keys| - 1 {
      BytesOutside(keys[..i], sizes[..i], {keys[i]});
    } else {
      BytesSingle(keys[..|keys| - 1], sizes[..|keys| - 1], i);
    }
  }

  /** Every key is either booked as failed or counted, credited and really absent. */
  ghost predicate Accounted(keys: seq<Key>, sizes: seq<nat>, present: set<Key>, out: Outcome) {
    && |keys| == |sizes|
    && Distinct(out.failed) && (forall k | k in out.failed :: k in keys)
    && out.deleted + |out.failed| == |keys|
    && (forall k | k in keys && k !in out.failed :: k !in present)
    && out.bytes == BytesOf(keys, sizes, ToSet(keys) - ToSet(out.failed))
  }

  // ---- The batch task ----

  const MaxConsecutiveUnknown: nat := 3

  /** The loop that credits the bytes of one retry round. */
  method CreditRound(keys: seq<Key>, sizes: seq<nat>, todo: seq<Key>, failed: seq<Key>) returns (bytes: nat)
    requires |keys| == |sizes|
    ensures bytes == BytesOf(keys, sizes, ToSet(todo) - ToSet(failed))
  {
    bytes := 0;
    for i := 0 to |keys|
      invariant bytes == BytesOf(keys[..i], sizes[..i], ToSet(todo) - ToSet(failed))
    {
      assert keys[..i + 1][..i] == keys[..i] && sizes[..i + 1][..i] == sizes[..i];
      if keys[i] !in failed && keys[i] in todo { bytes := bytes + sizes[i]; }
    }
    assert keys[..|keys|] == keys && sizes[..|keys|] == sizes;
  }

  /** What the retry rounds and the verification keep: the batch is split in counted and open keys. */
  ghost predicate Open(keys: seq<Key>, sizes: seq<nat>, present: set<Key>, deleted: nat, bytes: nat, todo: seq<Key>) {
    Accounted(keys, sizes, present, Outcome(deleted, bytes, todo))
  }

  lemma NarrowBytes(keys: seq<Key>, sizes: seq<nat>, todo: seq<Key>, failed: seq<Key>)
    requires |keys| == |sizes| && (forall k | k in todo :: k in keys) && (forall k | k in failed :: k in todo)
    ensures BytesOf(keys, sizes, ToSet(keys) - ToSet(failed)) ==
              BytesOf(keys, sizes, ToSet(keys) - ToSet(todo)) + BytesOf(keys, sizes, ToSet(todo) - ToSet(failed))
  {
    BytesAdd(keys, sizes, ToSet(keys) - ToSet(todo), ToSet(todo) - ToSet(failed));
    assert ToSet(keys) - ToSet(failed) == (ToSet(keys) - ToSet(todo)) + (ToSet(todo) - ToSet(failed));
  }

  /** How often a delete is tried. */
  function Tries(maxRetries: int): nat {
    if maxRetries < 0 then 0 else maxRetries + 1
  }

  /** After `n` rounds: a key still to do was asked for in each, any other at most as often, and nothing else was. */
  ghost predicate AskedTimes(keys: seq<Key>, todo: seq<Key>, n: nat, before: multiset<Key>, asked: multiset<Key>) {
    && (forall k | k in todo :: asked[k] == before[k] + n)
    && (forall k | k in keys :: before[k] <= asked[k] <= before[k] + n)
    && (forall k | k !in keys :: asked[k] == before[k])
  }

  /** Each key that stays open was asked for in every try there is, and none more often. */
  ghost predicate AskedEach(keys: seq<Key>, todo: seq<Key>, maxRetries: int, before: multiset<Key>,
                            asked: multiset<Key>) {
    AskedTimes(keys, todo, Tries(maxRetries), before, asked)
  }

  lemma {:induction false} OnceEach(s: seq<Key>, k: Key)
    requires Distinct(s)
    ensures multiset(s)[k] == if k in s then 1 else 0
  {
    if s != [] {
      var n := |s| - 1;
      assert s == s[..n] + [s[n]];
      OnceEach(s[..n], k);
    }
  }

  lemma AskedAgain(keys: seq<Key>, todo: seq<Key>, failed: seq<Key>, n: nat, before: multiset<Key>,
                   asked: multiset<Key>)
    requires Distinct(todo) && AskedTimes(keys, todo, n, before, asked)
    requires (forall k | k in todo :: k in keys) && forall k | k in failed :: k in todo
    ensures AskedTimes(keys, failed, n + 1, before, asked + multiset(todo))
  {
    forall k ensures (asked + multiset(todo))[k] == asked[k] + if k in todo then 1 else 0 { OnceEach(todo, k); }
  }

  /** The retry rounds. Each round keeps confirmed + remaining equal to the batch. */
  method DeleteRounds(bucket: Bucket, keys: seq<Key>, sizes: seq<nat>, maxRetries: int)
    returns (deleted: nat, bytes: nat, todo: seq<Key>, hadTotalFailure: bool)
    requires |keys| == |sizes| && Distinct(keys)
    modifies bucket`present, bucket`asked, bucket`wholesale
    ensures bucket.present <= old(bucket.present) && bucket.answers == old(bucket.answers)
    ensures AskedEach(keys, todo, maxRetries, old(bucket.asked), bucket.asked)
    ensures hadTotalFailure <==> bucket.wholesale > old(bucket.wholesale)
    ensures Open(keys, sizes, bucket.present, deleted, bytes, todo)
    ensures bucket.reliable && maxRetries >= 0 ==> todo == []
  {
    deleted, bytes, todo, hadTotalFailure := 0, 0, keys, false;
    BytesOutside(keys, sizes, ToSet(keys) - ToSet(keys));
    var attempt := 0;
    while attempt <= maxRetries && todo != []
      invariant bucket.present <= old(bucket.present) && attempt <= Tries(maxRetries)
      invariant hadTotalFailure <==> bucket.wholesale > old(bucket.wholesale)
      invariant bucket.wholesale >= old(bucket.wholesale)
      invariant AskedTimes(keys, todo, attempt, old(bucket.asked), bucket.asked)
      invariant Open(keys, sizes, bucket.present, deleted, bytes, todo)
      invariant bucket.reliable && attempt > 0 ==> todo == []
      decreases maxRetries - attempt
    {
      ghost var before := bucket.asked;
      var failed := bucket.DeleteObjects(todo);
      AskedAgain(keys, todo, failed, attempt, old(bucket.asked), before);
      if |failed| == |todo| { hadTotalFailure := true; }
      deleted := deleted + (|todo| - |failed|);
      var credit := CreditRound(keys, sizes, todo, failed);
      bytes := bytes + credit;
      NarrowBytes(keys, sizes, todo, failed);
      todo := failed;
      attempt := attempt + 1;
    }
  }

  /** One presence check, between the keys `a` left unverified and the keys `b` still to check. */
  method VerifyOne(bucket: Bucket, keys: seq<Key>, sizes: seq<nat>, deleted0: nat, bytes0: nat, ghost a: seq<Key>,
                   k: Key, ghost b: seq<Key>)
    returns (presence: Presence, deleted: nat, bytes: nat)
    requires |keys| == |sizes| && Distinct(keys) && Open(keys, sizes, bucket.present, deleted0, bytes0, a + [k] + b)
    modifies bucket`present, bucket`answers
    ensures bucket.present <= old(bucket.present) && bucket.answers == old(bucket.answers) + [(k, presence)]
    ensures presence == NotFound ==> Open(keys, sizes, bucket.present, deleted, bytes, a + b)
    ensures presence != NotFound ==> Open(keys, sizes, bucket.present, deleted, bytes, a + [k] + b)
  {
    deleted, bytes := deleted0, bytes0;
    presence := bucket.CheckObjectPresence(k);
    if presence == NotFound {
      assert (a + [k] + b)[|a|] == k;
      assert k in a + [k] + b;
      assert k in keys;
      var at :| 0 <= at < |keys| && keys[at] == k;
      ConfirmOne(keys, sizes, bucket.present, deleted, bytes, a, b, at);
      deleted := deleted + 1;
      if sizes[at] > 0 { bytes := bytes + sizes[at]; }
    }
  }

  /** What the answers of a verification decide: a key reported gone is not open; unless cancelled, an open key was
      reported there or unknown, or the bucket did not know three times since its last NotFound; and it
      is not asked a fourth time. */
  ghost predicate Verified(answers: seq<(Key, Presence)>, open: seq<Key>, cancelled: bool) {
    && (forall k | (k, NotFound) in answers :: k !in open)
    && Unknowns(answers) <= MaxConsecutiveUnknown
    && (!cancelled ==> Unknowns(answers) == MaxConsecutiveUnknown || forall k | k in open :: NotConfirmed(answers, k))
  }

  lemma AnswersMore(all: seq<(Key, Presence)>, n: nat, k: Key, p: Presence)
    requires n <= |all|
    ensures (all + [(k, p)])[n..] == all[n..] + [(k, p)]
    ensures Unknowns((all + [(k, p)])[n..]) ==
              match p case NotFound => 0 case Unknown => Unknowns(all[n..]) + 1 case Exists => Unknowns(all[n..])
    ensures forall x | NotConfirmed(all[n..], x) :: NotConfirmed((all + [(k, p)])[n..], x)
    ensures p != NotFound ==> NotConfirmed((all + [(k, p)])[n..], k)
  {
    var after := (all + [(k, p)])[n..];
    assert after == all[n..] + [(k, p)];
    assert after[..|after| - 1] == all[n..];
    assert after[|after| - 1] == (k, p);
  }

  /** The same while keys are still to be checked. */
  ghost predicate SoFar(answers: seq<(Key, Presence)>, open: seq<Key>, rest: seq<Key>, unknowns: nat, cancelled: bool) {
    && Unknowns(answers) == unknowns <= MaxConsecutiveUnknown
    && (forall k | (k, NotFound) in answers :: k !in open && k !in rest)
    && (!cancelled && unknowns < MaxConsecutiveUnknown ==> forall k | k in open :: NotConfirmed(answers, k))
  }

  lemma OpenOnce(open: seq<Key>, k: Key, later: seq<Key>)
    requires Distinct(open + [k] + later)
    ensures k !in open && k !in later
  {
    var all := open + [k] + later;
    assert all[|open|] == k;
    forall i | 0 <= i < |open| ensures open[i] != k { assert all[i] == open[i]; }
    forall i | 0 <= i < |later| ensures later[i] != k { assert all[|open| + 1 + i] == later[i]; }
  }

  lemma SoFarChecked(all: seq<(Key, Presence)>, n: nat, open: seq<Key>, k: Key, later: seq<Key>, unknowns: nat,
                     cancelled: bool, p: Presence)
    requires n <= |all| && SoFar(all[n..], open, [k] + later, unknowns, cancelled) && unknowns < MaxConsecutiveUnknown
    requires k !in open && k !in later
    ensures var more := (all + [(k, p)])[n..];
            match p
            case NotFound => SoFar(more, open, later, 0, cancelled)
            case Unknown => SoFar(more, open + [k], later, unknowns + 1, cancelled)
            case Exists => SoFar(more, open + [k], later, unknowns, cancelled)
  {
    AnswersMore(all, n, k, p);
  }

  /** The verification of a batch that failed wholesale. Only a definite NotFound counts; after three
      Unknown answers since the last NotFound the rest stays failed. */
  method VerifyRemaining(bucket: Bucket, cancel: Cancellation, keys: seq<Key>, sizes: seq<nat>, deleted0: nat,
                         bytes0: nat, todo: seq<Key>)
    returns (deleted: nat, bytes: nat, unverified: seq<Key>)
    requires |keys| == |sizes| && Distinct(keys)
    requires Open(keys, sizes, bucket.present, deleted0, bytes0, todo)
    modifies bucket`present, bucket`answers, cancel
    ensures bucket.present <= old(bucket.present) && (old(cancel.raised) ==> cancel.raised)
    ensures Open(keys, sizes, bucket.present, deleted, bytes, unverified)
    ensures |unverified| <= |todo| && forall k | k in unverified :: k in todo
    ensures old(bucket.answers) <= bucket.answers
    ensures Verified(bucket.answers[|old(bucket.answers)|..], unverified, cancel.raised)
  {
    deleted, bytes, unverified := deleted0, bytes0, [];
    var unknowns, gaveUp := 0, false;
    var rest := todo;
    assert unverified + rest == todo;
    while rest != []
      invariant bucket.present <= old(bucket.present) && (old(cancel.raised) ==> cancel.raised)
      invariant |unverified| + |rest| <= |todo| && forall k | k in unverified + rest :: k in todo
      invariant Open(keys, sizes, bucket.present, deleted, bytes, unverified + rest)
      invariant old(bucket.answers) <= bucket.answers
      invariant gaveUp <==> unknowns == MaxConsecutiveUnknown
      invariant SoFar(bucket.answers[|old(bucket.answers)|..], unverified, rest, unknowns, cancel.raised)
      decreases |rest|
    {
      var k, later := rest[0], rest[1..];
      assert unverified + rest == unverified + [k] + later;
      OpenOnce(unverified, k, later);
      var stop := cancel.Look();
      var presence := Exists;
      assert rest == [k] + later;
      if !gaveUp && !stop {
        ghost var before := bucket.answers;
        presence, deleted, bytes := VerifyOne(bucket, keys, sizes, deleted, bytes, unverified, k, later);
        SoFarChecked(before, |old(bucket.answers)|, unverified, k, later, unknowns, cancel.raised, presence);
      }
      if presence == NotFound {
        unknowns := 0;
      } else {
        unverified := unverified + [k];
        if presence == Unknown {
          unknowns := unknowns + 1;
          if unknowns >= MaxConsecutiveUnknown { gaveUp := true; }
        }
      }
      rest := later;
    }
    assert unverified + rest == unverified;
  }

  lemma ConfirmOne(keys: seq<Key>, sizes: seq<nat>, present: set<Key>, deleted: nat, bytes: nat, a: seq<Key>,
                   b: seq<Key>, at: nat)
    requires at < |keys| && Distinct(keys) && Open(keys, sizes, present, deleted, bytes, a + [keys[at]] + b)
    requires keys[at] !in present
    ensures Open(keys, sizes, present, deleted + 1, bytes + sizes[at], a + b)
  {
    var k := keys[at];
    BytesSingle(keys, sizes, at);
    var f, h := a + [k] + b, a + b;
    assert forall i | 0 <= i < |h| :: h[i] == f[if i < |a| then i else i + 1];
    assert f[|a|] == k && k in f;
    assert k !in h by {
      forall i | 0 <= i < |h| ensures h[i] != k { assert f[if i < |a| then i else i + 1] != f[|a|]; }
    }
    NarrowBytes(keys, sizes, f, h);
    assert ToSet(f) - ToSet(h) == {k};
  }

  /** One batch. Whatever the store answers, applies or hides, and whenever the user cancels, the
      outcome accounts for every key of the batch. */
  method ProcessBatch(bucket: Bucket, cancel: Cancellation, keys: seq<Key>, sizes: seq<nat>, maxRetries: int)
    returns (out: Outcome)
    requires |keys| == |sizes| && Distinct(keys)
    modifies bucket, cancel
    ensures bucket.present <= old(bucket.present) && (old(cancel.raised) ==> cancel.raised)
    ensures Accounted(keys, sizes, bucket.present, out)
    ensures old(cancel.raised) ==> out.failed == keys && bucket.asked == old(bucket.asked)
    ensures !cancel.raised ==> AskedEach(keys, out.failed, maxRetries, old(bucket.asked), bucket.asked)
    ensures old(bucket.answers) <= bucket.answers
    ensures bucket.wholesale > old(bucket.wholesale) && out.failed != [] ==>
              Verified(bucket.answers[|old(bucket.answers)|..], out.failed, cancel.raised)
    ensures bucket.reliable && !cancel.raised && maxRetries >= 0 ==> out.failed == []
  {
    var stop := cancel.Look();
    if stop {
      BytesOutside(keys, sizes, ToSet(keys) - ToSet(keys));
      return Outcome(0, 0, keys);
    }
    var deleted, bytes, todo, hadTotalFailure := DeleteRounds(bucket, keys, sizes, maxRetries);
    if todo != [] && hadTotalFailure {
      deleted, bytes, todo := VerifyRemaining(bucket, cancel, keys, sizes, deleted, bytes, todo);
    }
    out := Outcome(deleted, bytes, todo);
  }

  // ---- The individual task ----

  /** One object on its own: retries, then one presence check. */
  method DeleteOne(bucket: Bucket, cancel: Cancellation, k: Key, size: nat, maxRetries: int) returns (out: Outcome)
    modifies bucket, cancel
    ensures bucket.present <= old(bucket.present) && (old(cancel.raised) ==> cancel.raised)
    ensures !cancel.raised && out.failed != [] ==>
              bucket.asked[k] == old(bucket.asked)[k] + Tries(maxRetries)
              && exists p :: p != NotFound && bucket.answers == old(bucket.answers) + [(k, p)]
    ensures Accounted([k], [size], bucket.present, out)
    ensures old(cancel.raised) ==> out.failed == [k] && bucket.asked == old(bucket.asked)
    ensures bucket.reliable && !cancel.raised && maxRetries >= 0 ==> out.failed == []
  {
    OneKey(k, size);
    var stop := cancel.Look();
    if stop { return Outcome(0, 0, [k]); }
    var attempt, success := 0, false;
    while attempt <= maxRetries && !success
      invariant bucket.present <= old(bucket.present) && bucket.answers == old(bucket.answers)
      invariant 0 <= attempt <= Tries(maxRetries) && (!success ==> bucket.asked[k] == old(bucket.asked)[k] + attempt)
      invariant old(cancel.raised) ==> cancel.raised
      invariant !old(cancel.raised)
      invariant success ==> k !in bucket.present
      invariant bucket.reliable && attempt > 0 ==> success
      decreases maxRetries - attempt, !success
    {
      stop := cancel.Look();
      if stop { return Outcome(0, 0, [k]); }
      success := bucket.DeleteObject(k);
      if !success { attempt := attempt + 1; }
    }
    if success { return Outcome(1, size, []); }
    var presence := bucket.CheckObjectPresence(k);
    out := if presence == NotFound then Outcome(1, size, []) else Outcome(0, 0, [k]);
  }

  lemma OneKey(k: Key, size: nat)
    ensures BytesOf([k], [size], ToSet([k]) - ToSet([])) == size
    ensures BytesOf([k], [size], ToSet([k]) - ToSet([k])) == 0
  {
    BytesSingle([k], [size], 0);
    assert ToSet([k]) - ToSet([]) == {k};
    BytesOutside([k], [size], ToSet([k]) - ToSet([k]));
  }

  // ---- What is to be deleted ----

  /** What the store says about the name and about the prefix that shares it. */
  datatype Answers = Answers(size: int, presence: Presence, listed: bool, below: bool)

  datatype Target =
    | Single(key: Key, size: nat)
    | Prefix(prefix: Key)
    | NeedsRecursive(prefix: Key)
    | NothingThere
    | Undecided

  /** The answers of a store in which `named` tells whether the object exists and `below` whether
      anything lies under the name with a slash; each call may fail instead. */
  predicate Truthful(a: Answers, named: bool, below: bool) {
    && (a.size >= 0 ==> named)
    && (a.presence == Exists ==> named) && (a.presence == NotFound ==> !named)
    && (a.listed ==> a.below == below)
  }

  method ResolveTarget(name: Key, recursive: bool, a: Answers, ghost named: bool, ghost below: bool) returns (t: Target)
    requires Truthful(a, named, below)
    ensures name != [] && name[|name| - 1] != '/' ==>
              && (named ==> t.Single? || t.Undecided?)
              && (t.Single? ==> named && t.key == name && (a.size >= 0 ==> t.size == a.size))
              && (t.Prefix? || t.NeedsRecursive? ==> !named && below && t.prefix == name + "/")
              && (t.NothingThere? ==> !named && !below)
              && (t.Undecided? <==> a.size < 0 && (a.presence == Unknown || (a.presence == NotFound && !a.listed)))
    ensures name == [] || name[|name| - 1] == '/' ==> t == if recursive then Prefix(name) else NeedsRecursive(name)
    ensures t.Prefix? ==> recursive
  {
    var explicit := name == [] || name[|name| - 1] == '/';
    var isFile, isDirectory := false, explicit;
    var size := -1;
    var effective := name;
    if !explicit {
      size := a.size;
      var presence := Exists;
      if size >= 0 { isFile := true; } else { presence := a.presence; }
      if presence == Unknown { return Undecided; }
      if !isFile && presence == Exists {
        isFile := true;
        size := 0;
      } else if !isFile {
        if !a.listed { return Undecided; }
        if a.below { isDirectory, effective := true, name + "/"; }
      }
    }
    if !isFile && !isDirectory { return NothingThere; }
    if isDirectory && !recursive { return NeedsRecursive(effective); }
    t := if isFile then Single(name, size) else Prefix(effective);
  }
}

/** The object store as its clients may rely on it. A call may fail, and a call that reports
    failure may still have been applied. Part checksums are computed from the stored bytes. */
module ObjectStore {
  import opened Chunks

  type Key = string

  const MaxParts := 10000

  /** What a part call answers: an empty ETag means the part failed. */
  datatype PartResult<+R> = NoPart | Part(checksum: R)

  datatype Upload = Upload(key: Key, parts: map<nat, seq<Byte>>)

  /** The bytes of the listed parts, in list order. */
  function Assemble<R>(parts: map<nat, seq<Byte>>, list: seq<(nat, R)>): seq<Byte>
    requires forall i | 0 <= i < |list| :: list[i].0 in parts
  {
    if list == [] then []
    else
      var n := |list| - 1;
      Assemble(parts, list[..n]) + parts[list[n].0]
  }

  /** In a `calm` store no call fails without a ground, and nobody disturbs its callers. */
  class Store<R(==)> {
    const sum: seq<Byte> -> R
    const calm: bool
    var objects: map<Key, seq<Byte>>
    var uploads: map<nat, Upload>
    var nextId: nat
    ghost var created: set<nat>       // uploads whose id was handed to a caller
    ghost var aborted: set<nat>       // uploads an abort was issued for
    ghost var rejected: nat           // completions refused for what they listed
    ghost var copied: set<(nat, nat)> // parts of open uploads asked for as copies
    ghost var sent: set<(nat, nat)>   // parts of open uploads whose bytes were sent
    ghost var failures: nat           // puts and parts that failed without a ground

    ghost predicate Valid()
      reads this
    {
      && (forall id | id in uploads || id in created :: id < nextId)
      && (forall id, number | (id, number) in copied || (id, number) in sent :: id < nextId)
    }

    /** A completion the store has no ground to refuse: the upload is open, and the list names
        parts 1..n in order, each stored and each with the checksum of its stored bytes. */
    ghost predicate Acceptable(key: Key, id: nat, list: seq<(nat, R)>)
      reads this
    {
      && id in uploads && uploads[id].key == key
      && 0 < |list| <= MaxParts
      && forall i | 0 <= i < |list| ::
           list[i].0 == i + 1 && list[i].0 in uploads[id].parts && list[i].1 == sum(uploads[id].parts[list[i].0])
    }

    constructor (sum: seq<Byte> -> R, calm: bool)
      ensures Valid() && this.sum == sum && this.calm == calm && objects == map[] && uploads == map[]
      ensures created == {} && aborted == {} && rejected == 0 && copied == {} && sent == {} && failures == 0
    {
      this.sum, this.calm := sum, calm;
      objects, uploads, nextId := map[], map[], 0;
      created, aborted, rejected, copied, sent, failures := {}, {}, 0, {}, {}, 0;
    }

    method PutObject(key: Key, data: seq<Byte>) returns (ok: bool)
      requires Valid()
      modifies this`objects, this`failures
      ensures Valid() && failures == old(failures) + if ok then 0 else 1
      ensures objects == old(objects)[key := data] || (!ok && objects == old(objects))
      ensures calm ==> ok
    {
      ok := *;
      ok := ok || calm;
      var applied: bool := *;
      if ok || applied {
        objects := objects[key := data];
      }
      if !ok { failures := failures + 1; }
    }

    method CreateMultipartUpload(key: Key) returns (ok: bool, id: nat)
      requires Valid()
      modifies this`uploads, this`nextId, this`created
      ensures Valid()
      ensures id !in old(uploads) && id !in old(created)
      ensures calm ==> ok
      ensures ok ==> uploads == old(uploads)[id := Upload(key, map[])] && created == old(created) + {id}
      ensures !ok ==>
        created == old(created) && (uploads == old(uploads) || uploads == old(uploads)[id := Upload(key, map[])])
    {
      ok := *;
      ok := ok || calm;
      var applied: bool := *;
      id := nextId;
      if ok || applied {
        uploads := uploads[id := Upload(key, map[])];
        nextId := nextId + 1;
      }
      if ok {
        created := created + {id};
      }
    }

    /** Store `data` as a part, or fail with or without having done so. */
    method StorePart(id: nat, number: nat, data: seq<Byte>) returns (r: PartResult<R>)
      requires Valid() && id in uploads
      modifies this`uploads, this`failures
      ensures Valid() && failures == old(failures) + if r.Part? then 0 else 1
      ensures uploads == old(uploads)[id := Upload(old(uploads)[id].key, old(uploads)[id].parts[number := data])]
              || (r.NoPart? && uploads == old(uploads))
      ensures r.Part? ==> r.checksum == sum(data)
      ensures calm ==> r.Part?
    {
      var ok: bool := *;
      ok := ok || calm;
      var applied: bool := *;
      if ok || applied {
        uploads := uploads[id := Upload(uploads[id].key, uploads[id].parts[number := data])];
      }
      r := if ok then Part(sum(data)) else NoPart;
      if !ok { failures := failures + 1; }
    }

    method UploadPart(key: Key, id: nat, number: nat, data: seq<Byte>) returns (r: PartResult<R>)
      requires Valid()
      modifies this`uploads, this`sent, this`failures
      ensures Valid()
      ensures failures == old(failures)
          + if r.NoPart? && id in old(uploads) && old(uploads)[id].key == key then 1 else 0
      ensures sent == old(sent) + if id in old(uploads) && old(uploads)[id].key == key then {(id, number)} else {}
      ensures r.Part? ==> id in old(uploads) && old(uploads)[id].key == key && r.checksum == sum(data)
      ensures uploads == old(uploads)
              || (id in old(uploads) && old(uploads)[id].key == key
                  && uploads == old(uploads)[id := Upload(key, old(uploads)[id].parts[number := data])])
      ensures r.Part? ==> uploads[id].parts == old(uploads)[id].parts[number := data]
      ensures calm && id in old(uploads) && old(uploads)[id].key == key ==> r.Part?
    {
      if id !in uploads || uploads[id].key != key {
        return NoPart;
      }
      sent := sent + {(id, number)};
      r := StorePart(id, number, data);
    }

    /** Copy the bytes `first` to `last`, both included, of an object into a part. */
    method UploadPartCopy(key: Key, id: nat, number: nat, source: Key, first: int, last: int) returns (r: PartResult<R>)
      requires Valid()
      modifies this`uploads, this`copied, this`failures
      ensures Valid()
      ensures failures == old(failures)
          + if r.NoPart? && id in old(uploads) && old(uploads)[id].key == key && source in objects
               && 0 <= first <= last < |objects[source]| then 1 else 0
      ensures copied == old(copied) + if id in old(uploads) && old(uploads)[id].key == key then {(id, number)} else {}
      ensures uploads == old(uploads)
              || (id in old(uploads) && old(uploads)[id].key == key && source in objects
                  && 0 <= first <= last < |objects[source]|
                  && uploads == old(uploads)[id :=
                      Upload(key, old(uploads)[id].parts[number := objects[source][first..last + 1]])])
      ensures r.Part? ==> id in old(uploads) && old(uploads)[id].key == key
                          && source in objects && 0 <= first <= last < |objects[source]|
                          && r.checksum == sum(objects[source][first..last + 1])
                          && id in uploads
                          && uploads[id].parts == old(uploads)[id].parts[number := objects[source][first..last + 1]]
      ensures (calm && id in old(uploads) && old(uploads)[id].key == key && source in objects
               && 0 <= first <= last < |objects[source]|) ==> r.Part?
    {
      if id !in uploads || uploads[id].key != key {
        return NoPart;
      }
      copied := copied + {(id, number)};
      if source !in objects {
        return NoPart;
      }
      if first < 0 || last >= |objects[source]| || first > last {
        return NoPart;
      }
      r := StorePart(id, number, objects[source][first..last + 1]);
    }

    method CompleteMultipartUpload(key: Key, id: nat, list: seq<(nat, R)>) returns (ok: bool)
      requires Valid()
      modifies this`objects, this`uploads, this`rejected
      ensures Valid()
      ensures rejected == old(rejected) + if old(Acceptable(key, id, list)) then 0 else 1
      ensures calm && old(Acceptable(key, id, list)) ==> ok
      ensures (!ok && objects == old(objects) && uploads == old(uploads))
              || (old(Acceptable(key, id, list))
                  && objects == old(objects)[key := Assemble(old(uploads)[id].parts, list)]
                  && uploads == old(uploads) - {id})
    {
      var acceptable := id in uploads && uploads[id].key == key && 0 < |list| <= MaxParts;
      if acceptable {
        for i := 0 to |list|
          invariant acceptable <==> forall j | 0 <= j < i ::
            list[j].0 == j + 1 && list[j].0 in uploads[id].parts && list[j].1 == sum(uploads[id].parts[list[j].0])
        {
          acceptable := acceptable && list[i].0 == i + 1 && list[i].0 in uploads[id].parts
                        && list[i].1 == sum(uploads[id].parts[list[i].0]);
        }
      }
      if !acceptable {
        rejected := rejected + 1;
        return false;
      }
      ok := *;
      ok := ok || calm;
      var applied: bool := *;
      if ok || applied {
        objects := objects[key := Assemble(uploads[id].parts, list)];
        uploads := uploads - {id};
      }
    }

    method AbortMultipartUpload(id: nat) returns (ok: bool)
      requires Valid()
      modifies this`uploads, this`aborted
      ensures Valid()
      ensures aborted == old(aborted) + {id}
      ensures uploads == old(uploads) - {id} || (!ok && uploads == old(uploads))
      ensures calm ==> ok
    {
      ok := *;
      ok := ok || calm;
      var applied: bool := *;
      if ok || applied {
        uploads := uploads - {id};
      }
      aborted := aborted + {id};
    }
  }
}

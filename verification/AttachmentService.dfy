/**
 Uploading, deleting and collecting attachments over both stores, one call at a time. A store
 call that fails is a parameter, and fails before it changes anything.

 Safe is what every call keeps, whatever fails in it: no row points at a missing blob. The
 opposite, a blob without a row, is allowed to remain after a crash or a failed clean-up, and
 Collected says what a collector pass with a given cutoff leaves.

 Evolves says how far one call can move the two stores apart from what they were, which is all
 that a blob left behind needs to stay unreferenced until a pass finds it old enough.
 */
module AttachmentService {
  import opened Collections
  import opened Sorting
  import opened AttachmentStore
  import TaskModel
  import Protocol = AttachmentProtocol

  /** No row points at a missing blob. */
  ghost predicate Safe(rows: Rows, blobs: Blobs) {
    KeysOf(rows) <= blobs.Keys
  }

  /** Unreferenced and last touched before the cutoff. */
  predicate Collectable(rows: Rows, blobs: Blobs, cutoff: int, key: Key) {
    key in blobs && key !in KeysOf(rows) && blobs[key].modTime < cutoff
  }

  /** Resolving a key is not authorization: it must lead to a task of user. */
  predicate LeadsTo(rows: Rows, tasks: TaskModel.Tasks, key: Key, user: UserId) {
    exists id :: id in rows && rows[id].key == key && TaskModel.Owned(tasks, rows[id].task, user)
  }

  function Collected(rows: Rows, blobs: Blobs, cutoff: int): Blobs {
    map key | key in blobs && !Collectable(rows, blobs, cutoff, key) :: blobs[key]
  }

  lemma OneMoreKey(rows: Rows, a: Attachment)
    requires a.id !in rows
    ensures KeysOf(rows[a.id := a]) == KeysOf(rows) + {a.key}
  {
    forall k | k in KeysOf(rows) ensures k in KeysOf(rows[a.id := a]) {
      var id :| id in rows && rows[id].key == k;
      assert rows[a.id := a][id].key == k;
    }
    assert rows[a.id := a][a.id].key == a.key;
  }

  lemma KeyGone(rows: Rows, key: Key)
    ensures KeysOf(WithoutKey(rows, key)) == KeysOf(rows) - {key}
  {
    forall k | k in KeysOf(rows) - {key} ensures k in KeysOf(WithoutKey(rows, key)) {
      var id :| id in rows && rows[id].key == k;
      assert WithoutKey(rows, key)[id].key == k;
    }
  }

  /**
   What any service call does to both stores, issued being the storage keys it generated: rows and
   blobs it did not bring are those that were there, unchanged.
   */
  ghost predicate Evolves(rows: Rows, blobs: Blobs, rows': Rows, blobs': Blobs, issued: set<Key>) {
    && KeysOf(rows') <= KeysOf(rows) + issued
    && (forall key :: key in blobs' && key !in issued ==> key in blobs && blobs'[key] == blobs[key])
  }

  lemma NothingElseMoved(rows: Rows, blobs: Blobs, blobs': Blobs, key: Key)
    requires Safe(rows, blobs) && key !in blobs && blobs' - {key} == blobs - {key}
    ensures blobs' - {key} == blobs && Safe(rows, blobs') && Evolves(rows, blobs, rows, blobs', {key})
  {
    assert blobs - {key} == blobs;
    forall k | k in blobs' && k != key ensures k in blobs && blobs'[k] == blobs[k] {
      assert k in blobs' - {key};
    }
    forall k | k in blobs ensures k in blobs' {
      assert k in blobs' - {key};
    }
  }

  datatype Stores = Stores(rows: Rows, blobs: Blobs)

  /** What call after call leaves, generated[i] being the storage keys of the i-th. */
  ghost predicate Evolution(states: seq<Stores>, generated: seq<set<Key>>) {
    && |states| == |generated| + 1
    && (forall i :: 0 <= i < |generated| ==>
          Evolves(states[i].rows, states[i].blobs, states[i + 1].rows, states[i + 1].blobs,
                  generated[i]))
  }

  /** A key that no call generates again stays without a row, and its blob only ages. */
  lemma {:induction false} UnreferencedStays(states: seq<Stores>, generated: seq<set<Key>>, key: Key)
    requires Evolution(states, generated) && key !in KeysOf(states[0].rows)
    requires forall i :: 0 <= i < |generated| ==> key !in generated[i]
    ensures var last := states[|generated|];
            && key !in KeysOf(last.rows)
            && (key in last.blobs ==>
                  key in states[0].blobs && last.blobs[key] == states[0].blobs[key])
    decreases |generated|
  {
    if generated != [] {
      var n := |generated| - 1;
      UnreferencedStays(states[..n + 1], generated[..n], key);
      assert Evolves(states[n].rows, states[n].blobs, states[n + 1].rows, states[n + 1].blobs,
                     generated[n]);
    }
  }

  const SNIFF_LEN := 512

  /** The head is read to its end or to the stream's, whichever comes first. */
  predicate MetInHead(fault: PutFault, stream: nat) {
    fault.ReadFails? && fault.after < SNIFF_LEN && fault.after <= stream
  }

  class Service {
    const repo: Repository
    const store: BlobStore
    const maxBytes: nat
    const maxBytesPerUser: nat

    ghost predicate Valid()
      reads repo, store
    {
      WellKept(repo.rows) && Safe(repo.rows, store.blobs)
    }

    constructor (repo: Repository, store: BlobStore, maxBytes: nat, maxBytesPerUser: nat)
      ensures this.repo == repo && this.store == store
      ensures this.maxBytes == maxBytes && this.maxBytesPerUser == maxBytesPerUser
    {
      this.repo, this.store := repo, store;
      this.maxBytes, this.maxBytesPerUser := maxBytes, maxBytesPerUser;
    }

    /** Room for one more before the upload's own size is known. */
    ghost predicate Admits(task: TaskId, user: UserId)
      reads repo, repo.tasks
    {
      && BytesOf(repo.rows, repo.tasks.store, user) < maxBytesPerUser
      && (TaskModel.Owned(repo.tasks.store, task, user) ==> |OfTask(repo.rows, task)| < 50)
    }

    /**
     id and key are fresh random identifiers; named is the verdict on the file name, accepted the
     one on the content type of the sniffed head, and stream how many bytes the request holds.
     fault is what goes wrong while they are read or written.
     */
    method Upload(
      user: UserId, task: TaskId, id: AttachmentId, key: Key, named: bool, accepted: bool,
      stream: nat, now: Time, fault: PutFault, createFails: bool, removeFails: bool)
      returns (r: Result<Attachment>)
      requires Valid() && id !in repo.rows && key !in store.blobs
      modifies repo`rows, store
      ensures Valid()
      ensures r.Ok? <==>
                old(Admits(task, user)) && named && accepted && stream <= maxBytes
                && !Met(fault, stream, maxBytes)
                && !createFails && TaskModel.Owned(repo.tasks.store, task, user)
      ensures r.Ok? ==>
                && r.value == Attachment(id, task, key, stream, now)
                && repo.rows == old(repo.rows)[id := r.value]
                && store.blobs == old(store.blobs)[key := Blob(stream, now)]
                && BytesOf(repo.rows, repo.tasks.store, user)
                   == old(BytesOf(repo.rows, repo.tasks.store, user)) + stream
                   <= maxBytesPerUser - 1 + maxBytes
      // A head that cannot be read is reported before anything is known of its content.
      ensures r == Err(InvalidInput) <==>
                !old(Admits(task, user)) || !named
                || (!(fault.ReadFails? && fault.after < 512 && fault.after <= stream)
                    && (!accepted || (!Met(fault, stream, maxBytes) && stream > maxBytes)))
      ensures r == Err(TaskNotFound) <==>
                old(Admits(task, user)) && named && accepted && stream <= maxBytes
                && !Met(fault, stream, maxBytes)
                && !createFails && !TaskModel.Owned(repo.tasks.store, task, user)
      ensures r.Ok? || r.error in {InvalidInput, TaskNotFound, StoreFailed}
      // A failed upload leaves at most one blob behind, which no row references.
      ensures r.Err? ==> repo.rows == old(repo.rows) && store.blobs - {key} == old(store.blobs)
      ensures r.Err? && !removeFails ==> store.blobs == old(store.blobs)
      ensures Evolves(old(repo.rows), old(store.blobs), repo.rows, store.blobs, {key})
    {
      var total := repo.TotalBytesForUser(user);
      if total >= maxBytesPerUser {
        return Err(InvalidInput);
      }
      var count := repo.CountByTask(task, user);
      if count >= Protocol.MAX_ATTACHMENTS_PER_TASK || !named {
        return Err(InvalidInput);
      }
      if MetInHead(fault, stream) {
        return Err(StoreFailed);
      }
      if !accepted {
        return Err(InvalidInput);
      }
      var size := store.Put(key, stream, maxBytes, now, fault, removeFails);
      NothingElseMoved(repo.rows, old(store.blobs), store.blobs, key);
      if size.Err? {
        return Err(if size.error == TooLarge then InvalidInput else size.error);
      }
      var a := Attachment(id, task, key, size.value, now);
      var error := Some(StoreFailed);
      if !createFails {
        error := repo.Create(a, user);
      }
      if error.Some? {
        store.Remove(key, removeFails);
        NothingElseMoved(repo.rows, old(store.blobs), store.blobs, key);
        return Err(error.value);
      }
      OneMoreKey(old(repo.rows), a);
      BytesGrow(old(repo.rows), a, repo.tasks.store, user);
      return Ok(a);
    }

    /** Row first, blob second and best effort. */
    method Delete(user: UserId, key: Key, rowFails: bool, blobFails: bool)
      returns (error: Option<Error>)
      requires Valid()
      modifies repo`rows, store
      ensures Valid()
      ensures error.None? <==>
                !rowFails && LeadsTo(old(repo.rows), repo.tasks.store, key, user)
      ensures error.Some? ==> repo.rows == old(repo.rows) && store.blobs == old(store.blobs)
      ensures error.None? <==>
                !rowFails
                && (exists id :: id in old(repo.rows) && old(repo.rows)[id].key == key
                                 && old(repo.rows)[id].task in repo.tasks.store
                                 && repo.tasks.store[old(repo.rows)[id].task].user == user)
      ensures error.None? ==>
                && repo.rows == WithoutKey(old(repo.rows), key)
                && (forall id :: id in repo.rows <==>
                      id in old(repo.rows) && old(repo.rows)[id].key != key)
                && store.blobs == if blobFails then old(store.blobs) else old(store.blobs) - {key}
      ensures Evolves(old(repo.rows), old(store.blobs), repo.rows, store.blobs, {})
    {
      if rowFails {
        return Some(StoreFailed);
      }
      error := repo.Delete(key, user);
      if error.Some? {
        return;
      }
      KeyGone(old(repo.rows), key);
      store.Remove(key, blobFails);
    }

    method ListByTask(user: UserId, task: TaskId) returns (r: Result<seq<Attachment>>)
      requires Valid()
      ensures r.Ok? <==> task in repo.tasks.store && repo.tasks.store[task].user == user
      ensures r.Ok? ==> multiset(r.value) == multiset(OfTask(repo.rows, task))
                        && InOrder(r.value, repo.rows, task)
      ensures r.Err? ==> r.error == TaskNotFound
    {
      r := repo.FindByTask(task, user);
    }

    /** broken names the blobs whose removal fails in this pass. */
    method CollectOrphans(
      minAge: int, now: Time, listFails: bool, queryFails: bool, broken: set<Key>)
      returns (deleted: nat, error: Option<Error>)
      requires Valid()
      modifies store
      ensures Valid()
      ensures error == Some(InvalidInput) <==> minAge <= 0
      ensures minAge > 0 && listFails ==> error == Some(StoreFailed)
      ensures minAge > 0 && !listFails && !queryFails && broken == {} ==> error.None?
      ensures error.None? ==> store.blobs == Collected(repo.rows, old(store.blobs), now - minAge)
      // What stays is what some row refers to and what is too young.
      ensures error.None? ==>
                forall k :: k in store.blobs <==>
                  && k in old(store.blobs)
                  && ((exists id :: id in repo.rows && repo.rows[id].key == k)
                      || old(store.blobs)[k].modTime >= now - minAge)
      // Even a pass that stops half way removed only what it may, and says how much that was.
      ensures forall k :: k in old(store.blobs) && k !in store.blobs ==>
                Collectable(repo.rows, old(store.blobs), now - minAge, k)
      ensures forall k :: k in store.blobs ==>
                k in old(store.blobs) && store.blobs[k] == old(store.blobs)[k]
      ensures deleted + |store.blobs| == |old(store.blobs)|
      ensures Evolves(repo.rows, old(store.blobs), repo.rows, store.blobs, {})
    {
      if minAge <= 0 {
        return 0, Some(InvalidInput);
      }
      if listFails {
        return 0, Some(StoreFailed);
      }
      var refs := store.List();
      var candidates := OlderThan(refs, now - minAge);
      CandidatesAre(refs, candidates, store.blobs, now - minAge);
      if |candidates| == 0 {
        return 0, None;
      }
      if queryFails {
        return 0, Some(StoreFailed);
      }
      var orphans := repo.UnreferencedKeys(candidates);
      deleted, error := RemoveAll(orphans, broken, now - minAge);
    }

    method RemoveAll(orphans: seq<Key>, broken: set<Key>, ghost cutoff: int)
      returns (deleted: nat, error: Option<Error>)
      requires Valid() && Distinct(orphans)
      requires forall k :: k in orphans <==> Collectable(repo.rows, store.blobs, cutoff, k)
      modifies store
      ensures Valid()
      ensures error.None? ==> store.blobs == Collected(repo.rows, old(store.blobs), cutoff)
      ensures forall k :: k in old(store.blobs) && k !in store.blobs ==>
                Collectable(repo.rows, old(store.blobs), cutoff, k)
      ensures forall k :: k in store.blobs ==>
                k in old(store.blobs) && store.blobs[k] == old(store.blobs)[k]
      ensures deleted + |store.blobs| == |old(store.blobs)|
      ensures error.Some? ==> error == Some(StoreFailed)
      ensures broken == {} ==> error.None?
    {
      deleted := 0;
      for i := 0 to |orphans|
        invariant deleted == i
        invariant store.blobs == old(store.blobs) - SetOf(orphans[..i])
        invariant deleted + |store.blobs| == |old(store.blobs)|
      {
        if orphans[i] in broken {
          SomeCollected(repo.rows, old(store.blobs), cutoff, orphans, i);
          return deleted, Some(StoreFailed);
        }
        OneMoreRemoved(old(store.blobs), orphans, i);
        store.Remove(orphans[i], false);
        deleted := deleted + 1;
      }
      SomeCollected(repo.rows, old(store.blobs), cutoff, orphans, |orphans|);
      OrphansCollected(repo.rows, old(store.blobs), cutoff, orphans);
      return deleted, None;
    }
  }

  lemma OneMoreRemoved(blobs: Blobs, orphans: seq<Key>, i: nat)
    requires Distinct(orphans) && i < |orphans| && forall k :: k in orphans ==> k in blobs
    ensures blobs - SetOf(orphans[..i]) - {orphans[i]} == blobs - SetOf(orphans[..i + 1])
    ensures |blobs - SetOf(orphans[..i])| == |blobs - SetOf(orphans[..i + 1])| + 1
  {
    var before, after := blobs - SetOf(orphans[..i]), blobs - SetOf(orphans[..i + 1]);
    assert SetOf(orphans[..i + 1]) == SetOf(orphans[..i]) + {orphans[i]};
    assert orphans[i] !in orphans[..i];
    assert orphans[i] in orphans && orphans[i] in before;
    assert before == after[orphans[i] := blobs[orphans[i]]];
  }

  predicate ListsOlder(refs: seq<BlobRef>, cutoff: int, key: Key) {
    exists i :: 0 <= i < |refs| && refs[i].key == key && refs[i].modTime < cutoff
  }

  method OlderThan(refs: seq<BlobRef>, cutoff: int) returns (candidates: seq<Key>)
    requires forall i, j :: 0 <= i < j < |refs| ==> refs[i].key != refs[j].key
    ensures forall k :: k in candidates <==> ListsOlder(refs, cutoff, k)
    ensures Distinct(candidates)
  {
    candidates := [];
    for i := 0 to |refs|
      invariant forall k :: k in candidates <==> ListsOlder(refs[..i], cutoff, k)
      invariant Distinct(candidates)
    {
      assert refs[..i + 1] == refs[..i] + [refs[i]];
      if refs[i].modTime < cutoff {
        assert !ListsOlder(refs[..i], cutoff, refs[i].key);
        candidates := candidates + [refs[i].key];
      }
      forall k ensures ListsOlder(refs[..i + 1], cutoff, k) <==>
                       ListsOlder(refs[..i], cutoff, k)
                       || (refs[i].key == k && refs[i].modTime < cutoff)
      {
      }
    }
    assert refs[..|refs|] == refs;
  }

  lemma CandidatesAre(refs: seq<BlobRef>, candidates: seq<Key>, blobs: Blobs, cutoff: int)
    requires forall ref :: ref in refs <==> ref.key in blobs && blobs[ref.key].modTime == ref.modTime
    requires forall k :: k in candidates <==> ListsOlder(refs, cutoff, k)
    ensures forall k :: k in candidates <==> k in blobs && blobs[k].modTime < cutoff
  {
    forall k ensures k in candidates <==> k in blobs && blobs[k].modTime < cutoff {
      if k in candidates {
        var i :| 0 <= i < |refs| && refs[i].key == k && refs[i].modTime < cutoff;
        assert refs[i] in refs;
      }
      if k in blobs && blobs[k].modTime < cutoff {
        assert BlobRef(k, blobs[k].modTime) in refs;
      }
    }
  }

  lemma SomeCollected(rows: Rows, blobs: Blobs, cutoff: int, orphans: seq<Key>, n: nat)
    requires Safe(rows, blobs) && n <= |orphans|
    requires forall k :: k in orphans <==> Collectable(rows, blobs, cutoff, k)
    ensures Safe(rows, blobs - SetOf(orphans[..n]))
    ensures forall k :: k in SetOf(orphans[..n]) ==> Collectable(rows, blobs, cutoff, k)
  {
    forall k | k in SetOf(orphans[..n]) ensures Collectable(rows, blobs, cutoff, k) {
      assert k in orphans;
    }
  }

  lemma OrphansCollected(rows: Rows, blobs: Blobs, cutoff: int, orphans: seq<Key>)
    requires forall k :: k in orphans <==> Collectable(rows, blobs, cutoff, k)
    ensures blobs - SetOf(orphans) == Collected(rows, blobs, cutoff)
    ensures orphans[..|orphans|] == orphans
  {
  }
}

/**
 The service calls, each run alone, are sequences of the steps the protocol interleaves, and
 leave the same two stores.
 */
module AttachmentCalls {
  import opened Collections
  import opened AttachmentStore
  import opened AttachmentProtocol
  import Garbage = AttachmentGarbage
  import Files = AttachmentService
  import TaskModel

  type Table = AttachmentStore.Rows

  function AgesOf(blobs: Blobs): map<AttachmentStore.Key, AttachmentStore.Time> {
    map key | key in blobs :: blobs[key].modTime
  }

  /** What the calls never change of a protocol state, and the two stores they do. */
  ghost function Quiet(base: State, tasks: TaskModel.Tasks, rows: Table, blobs: Blobs): State {
    base.(tasks := OwnersOf(tasks), rows := ByKey(rows), blobs := AgesOf(blobs),
          uploads := map[], deletes := map[], collectors := map[])
  }

  lemma RunOne(cfg: Config, s: State, a: Action)
    ensures Run(cfg, s, [a]) == Step(cfg, s, a)
  {
    if Step(cfg, s, a).Some? { assert Run(cfg, Step(cfg, s, a).value, [a][1..]) == Step(cfg, s, a); }
  }

  lemma KeysAgree(rows: Table)
    ensures ByKey(rows).Keys == KeysOf(rows)
  {
  }

  lemma ByKeyShrinks(rows: Table, key: AttachmentStore.Key)
    requires WellKept(rows)
    ensures ByKey(WithoutKey(rows, key)) == ByKey(rows) - {key}
  {
    Files.KeyGone(rows, key);
    forall k | k in KeysOf(rows) && k != key
      ensures RowAt(WithoutKey(rows, key), k) == RowAt(rows, k)
    {
      var id :| id in rows && rows[id].key == k;
      ByKeyIs(rows, id);
      ByKeyIs(WithoutKey(rows, key), id);
    }
  }

  lemma Appended(cfg: Config, s: State, first: seq<Action>, t: State, a: Action, u: State)
    requires Run(cfg, s, first) == Some(t) && Step(cfg, t, a) == Some(u)
    ensures Run(cfg, s, first + [a]) == Some(u)
  {
    RunAppend(cfg, s, first, a);
  }

  // ---------- Delete ----------

  function DeleteSteps(user: UserId, key: Key, blobFails: bool): seq<Action> {
    [DeleteRow(0, user, key)] + [if blobFails then Crash(0) else DeleteBlob(0)]
  }

  lemma RowGoes(
    cfg: Config, base: State, tasks: TaskModel.Tasks, rows: Table, blobs: Blobs, user: UserId,
    key: Key)
    requires WellKept(rows) && Files.LeadsTo(rows, tasks, key, user)
    ensures Step(cfg, Quiet(base, tasks, rows, blobs), DeleteRow(0, user, key))
            == Some(Quiet(base, tasks, WithoutKey(rows, key), blobs).(deletes := map[0 := key]))
  {
    var id :| id in rows && rows[id].key == key && TaskModel.Owned(tasks, rows[id].task, user);
    ByKeyIs(rows, id);
    ByKeyShrinks(rows, key);
    var none: map<Call, Key> := map[];
    assert none[0 := key] == map[0 := key];
  }

  lemma BlobGoes(cfg: Config, base: State, tasks: TaskModel.Tasks, rows: Table, blobs: Blobs, key: Key)
    ensures var s := Quiet(base, tasks, rows, blobs).(deletes := map[0 := key]);
            && Step(cfg, s, DeleteBlob(0)) == Some(Quiet(base, tasks, rows, blobs - {key}))
            && Step(cfg, s, Crash(0)) == Some(Quiet(base, tasks, rows, blobs))
  {
    var s := Quiet(base, tasks, rows, blobs).(deletes := map[0 := key]);
    assert s.deletes - {0} == map[] && s.uploads - {0} == map[] && s.collectors - {0} == map[];
    assert AgesOf(blobs - {key}) == AgesOf(blobs) - {key};
  }

  /** Service.Delete is the row step, then the blob step, which it abandons if it fails. */
  lemma DeleteTakesBothSteps(
    cfg: Config, base: State, tasks: TaskModel.Tasks, rows: Table, blobs: Blobs, user: UserId,
    key: Key, blobFails: bool)
    requires WellKept(rows) && Files.LeadsTo(rows, tasks, key, user)
    ensures Run(cfg, Quiet(base, tasks, rows, blobs), DeleteSteps(user, key, blobFails))
            == Some(Quiet(base, tasks, WithoutKey(rows, key),
                          if blobFails then blobs else blobs - {key}))
  {
    var s := Quiet(base, tasks, rows, blobs);
    RowGoes(cfg, base, tasks, rows, blobs, user, key);
    BlobGoes(cfg, base, tasks, WithoutKey(rows, key), blobs, key);
    RunOne(cfg, s, DeleteRow(0, user, key));
    Appended(cfg, s, [DeleteRow(0, user, key)],
             Quiet(base, tasks, WithoutKey(rows, key), blobs).(deletes := map[0 := key]),
             if blobFails then Crash(0) else DeleteBlob(0),
             Quiet(base, tasks, WithoutKey(rows, key), if blobFails then blobs else blobs - {key}));
  }

  // ---------- Upload ----------

  /** The state in which call 0 is uploading and has got to p. */
  function UploadingAt(s: State, user: UserId, task: TaskId, p: Progress): State {
    s.(uploads := map[0 := Upload(user, task, p)])
  }

  /** One more step of the upload that first has brought to p. */
  lemma UploadAppended(
    cfg: Config, s: State, first: seq<Action>, t: State, user: UserId, task: TaskId, p: Progress,
    op: UploadOp, t': State, q: Progress)
    requires Run(cfg, s, first) == Some(UploadingAt(t, user, task, p))
    requires UploadStep(cfg, UploadingAt(t, user, task, p), 0, op)
             == Some(UploadingAt(t', user, task, q))
    ensures Run(cfg, s, first + [Uploading(0, op)]) == Some(UploadingAt(t', user, task, q))
  {
    Appended(cfg, s, first, UploadingAt(t, user, task, p), Uploading(0, op), UploadingAt(t', user, task, q));
  }

  lemma OneUploadMove(s: State, user: UserId, task: TaskId, p: Progress, q: Progress)
    ensures Moved(UploadingAt(s, user, task, p), 0, q) == UploadingAt(s, user, task, q)
  {
    assert UploadingAt(s, user, task, p).uploads[0 := Upload(user, task, q)]
           == UploadingAt(s, user, task, q).uploads;
  }

  function Admission(user: UserId, task: TaskId): seq<Action> {
    [Uploading(0, Begin(user, task))] + [Uploading(0, ReadQuota)] + [Uploading(0, ReadCount)]
  }

  /** What Upload's two queries ask for; the count of a task that is not the user's is zero. */
  ghost predicate HasRoom(
    cfg: Config, tasks: TaskModel.Tasks, rows: Table, user: UserId, task: TaskId)
  {
    && AttachmentStore.BytesOf(rows, tasks, user) < cfg.maxBytesPerUser
    && (TaskModel.Owned(tasks, task, user) ==> |OfTask(rows, task)| < MAX_ATTACHMENTS_PER_TASK)
  }

  lemma CountsAgree(tasks: TaskModel.Tasks, rows: Table, user: UserId, task: TaskId)
    requires WellKept(rows)
    ensures |RowsOfTask(OwnersOf(tasks), ByKey(rows), user, task)|
            == if TaskModel.Owned(tasks, task, user) then |OfTask(rows, task)| else 0
  {
    if !TaskModel.Owned(tasks, task, user) {
      assert RowsOfTask(OwnersOf(tasks), ByKey(rows), user, task) == {};
      return;
    }
    var found := OfTask(rows, task);
    var keys := RowsOfTask(OwnersOf(tasks), ByKey(rows), user, task);
    forall key ensures key in keys <==> exists a :: a in found && a.key == key {
      if key in keys {
        var id :| id in rows && rows[id].key == key;
        ByKeyIs(rows, id);
        assert rows[id] in found;
      }
      if a :| a in found && a.key == key {
        ByKeyIs(rows, a.id);
      }
    }
    SameSize(found, keys);
  }

  lemma {:induction false} SameSize(found: set<Attachment>, keys: set<Key>)
    requires forall a, b :: a in found && b in found && a.key == b.key ==> a == b
    requires forall key :: key in keys <==> exists a :: a in found && a.key == key
    ensures |keys| == |found|
    decreases |found|
  {
    if found == {} {
      assert keys == {};
    } else {
      var a :| a in found;
      assert a.key in keys;
      forall key ensures key in keys - {a.key} <==> exists b :: b in found - {a} && b.key == key {
        if key in keys - {a.key} {
          var b :| b in found && b.key == key;
          assert b in found - {a};
        }
      }
      SameSize(found - {a}, keys - {a.key});
    }
  }

  lemma Begins(
    cfg: Config, base: State, tasks: TaskModel.Tasks, rows: Table, blobs: Blobs, user: UserId,
    task: TaskId)
    ensures var s := Quiet(base, tasks, rows, blobs);
            Run(cfg, s, [Uploading(0, Begin(user, task))])
            == Some(UploadingAt(s, user, task, Started))
  {
    var s := Quiet(base, tasks, rows, blobs);
    var none: map<Call, Upload> := map[];
    assert none[0 := Upload(user, task, Started)] == map[0 := Upload(user, task, Started)];
    RunOne(cfg, s, Uploading(0, Begin(user, task)));
  }

  lemma AdmissionSteps(
    cfg: Config, base: State, tasks: TaskModel.Tasks, rows: Table, blobs: Blobs, user: UserId,
    task: TaskId)
    requires WellKept(rows) && HasRoom(cfg, tasks, rows, user, task)
    ensures var s := Quiet(base, tasks, rows, blobs);
            Run(cfg, s, Admission(user, task)) == Some(UploadingAt(s, user, task, CountRead))
  {
    var s := Quiet(base, tasks, rows, blobs);
    var first := [Uploading(0, Begin(user, task))];
    CountsAgree(tasks, rows, user, task);
    Begins(cfg, base, tasks, rows, blobs, user, task);
    OneUploadMove(s, user, task, Started, QuotaRead);
    UploadAppended(cfg, s, first, s, user, task, Started, ReadQuota, s, QuotaRead);
    OneUploadMove(s, user, task, QuotaRead, CountRead);
    UploadAppended(cfg, s, first + [Uploading(0, ReadQuota)], s, user, task, QuotaRead, ReadCount,
                   s, CountRead);
  }

  function PutSteps(first: seq<Action>, key: Key, stream: nat): seq<Action> {
    first + [Uploading(0, CreateBlob(key))] + [Uploading(0, CopyBytes(stream))] + [Uploading(0, FinishPut)]
  }

  function WithBlob(s: State, key: Key): State {
    s.(blobs := s.blobs[key := s.now], issued := s.issued[key := 0])
  }

  lemma BlobAppears(cfg: Config, s: State, user: UserId, task: TaskId, key: Key)
    requires key !in s.issued
    ensures UploadStep(cfg, UploadingAt(s, user, task, CountRead), 0, CreateBlob(key))
            == Some(UploadingAt(WithBlob(s, key), user, task, Writing(key, s.now, 0)))
  {
    OneUploadMove(s, user, task, CountRead, Writing(key, s.now, 0));
  }

  lemma PartIsCopied(
    cfg: Config, s: State, first: seq<Action>, t: State, user: UserId, task: TaskId, key: Key, n: nat)
    requires Run(cfg, s, first) == Some(UploadingAt(t, user, task, CountRead))
    requires key !in t.issued && n <= cfg.maxBytes + 1
    ensures Run(cfg, s, first + [Uploading(0, CreateBlob(key))] + [Uploading(0, CopyBytes(n))])
            == Some(UploadingAt(WithBlob(t, key), user, task, Writing(key, t.now, n)))
  {
    var u := WithBlob(t, key);
    BlobAppears(cfg, t, user, task, key);
    UploadAppended(cfg, s, first, t, user, task, CountRead, CreateBlob(key), u, Writing(key, t.now, 0));
    OneUploadMove(u, user, task, Writing(key, t.now, 0), Writing(key, t.now, n));
    assert u.blobs[key := u.now] == u.blobs;
    UploadAppended(cfg, s, first + [Uploading(0, CreateBlob(key))], u, user, task,
                   Writing(key, t.now, 0), CopyBytes(n), u, Writing(key, t.now, n));
  }

  lemma PutStepsRun(
    cfg: Config, s: State, first: seq<Action>, t: State, user: UserId, task: TaskId, key: Key, n: nat)
    requires Run(cfg, s, first) == Some(UploadingAt(t, user, task, CountRead))
    requires key !in t.issued && n <= cfg.maxBytes
    ensures Run(cfg, s, PutSteps(first, key, n))
            == Some(UploadingAt(WithBlob(t, key), user, task, Written(key, t.now, n)))
  {
    var u := WithBlob(t, key);
    PartIsCopied(cfg, s, first, t, user, task, key, n);
    OneUploadMove(u, user, task, Writing(key, t.now, n), Written(key, t.now, n));
    UploadAppended(cfg, s, first + [Uploading(0, CreateBlob(key))] + [Uploading(0, CopyBytes(n))], u,
                   user, task, Writing(key, t.now, n), FinishPut, u, Written(key, t.now, n));
  }

  /** The two checks and the three steps of Put. */
  lemma UploadIsWritten(
    cfg: Config, base: State, tasks: TaskModel.Tasks, rows: Table, blobs: Blobs, user: UserId,
    task: TaskId, key: Key, size: nat)
    requires WellKept(rows) && HasRoom(cfg, tasks, rows, user, task)
    requires size <= cfg.maxBytes && key !in base.issued
    ensures var s := Quiet(base, tasks, rows, blobs);
            Run(cfg, s, PutSteps(Admission(user, task), key, size))
            == Some(UploadingAt(WithBlob(s, key), user, task, Written(key, base.now, size)))
  {
    var s := Quiet(base, tasks, rows, blobs);
    AdmissionSteps(cfg, base, tasks, rows, blobs, user, task);
    PutStepsRun(cfg, s, Admission(user, task), s, user, task, key, size);
  }

  /** base once key has been generated by call 0. */
  function Issuing(base: State, key: Key): State {
    base.(issued := base.issued[key := 0])
  }

  lemma CreateRowEnds(cfg: Config, t: State, user: UserId, task: TaskId, key: Key, size: nat)
    requires Owns(t.tasks, user, task)
    ensures Step(cfg, UploadingAt(t, user, task, Written(key, t.now, size)), Uploading(0, CreateRow))
            == Some(t.(uploads := map[], rows := t.rows[key := Row(task, size)],
                       created := t.created + {key}))
  {
    var s := UploadingAt(t, user, task, Written(key, t.now, size));
    assert s.uploads - {0} == map[];
  }

  lemma RowArrives(
    base: State, tasks: TaskModel.Tasks, rows: Table, blobs: Blobs, a: Attachment)
    requires WellKept(rows) && a.id !in rows && a.key !in KeysOf(rows)
    ensures var t := WithBlob(Quiet(base, tasks, rows, blobs), a.key);
            t.(rows := t.rows[a.key := Row(a.task, a.size)], created := t.created + {a.key})
            == Quiet(Issuing(base, a.key).(created := base.created + {a.key}), tasks,
                     rows[a.id := a], blobs[a.key := Blob(a.size, base.now)])
  {
    ByKeyGrows(rows, a);
    assert AgesOf(blobs[a.key := Blob(a.size, base.now)]) == AgesOf(blobs)[a.key := base.now];
  }

  /** A successful Service.Upload: two checks, three steps of Put, and Create. */
  lemma UploadTakesItsSteps(
    cfg: Config, base: State, tasks: TaskModel.Tasks, rows: Table, blobs: Blobs, user: UserId,
    a: Attachment)
    requires WellKept(rows) && TaskModel.Owned(tasks, a.task, user)
    requires HasRoom(cfg, tasks, rows, user, a.task) && a.size <= cfg.maxBytes
    requires a.id !in rows && a.key !in KeysOf(rows) && a.key !in base.issued
    ensures var steps := PutSteps(Admission(user, a.task), a.key, a.size);
            Run(cfg, Quiet(base, tasks, rows, blobs), steps + [Uploading(0, CreateRow)])
            == Some(Quiet(Issuing(base, a.key).(created := base.created + {a.key}), tasks,
                          rows[a.id := a], blobs[a.key := Blob(a.size, base.now)]))
  {
    var s := Quiet(base, tasks, rows, blobs);
    UploadIsWritten(cfg, base, tasks, rows, blobs, user, a.task, a.key, a.size);
    CreateRowEnds(cfg, WithBlob(s, a.key), user, a.task, a.key, a.size);
    RowArrives(base, tasks, rows, blobs, a);
    Appended(cfg, s, PutSteps(Admission(user, a.task), a.key, a.size),
             UploadingAt(WithBlob(s, a.key), user, a.task, Written(a.key, base.now, a.size)),
             Uploading(0, CreateRow),
             Quiet(Issuing(base, a.key).(created := base.created + {a.key}), tasks,
                   rows[a.id := a], blobs[a.key := Blob(a.size, base.now)]));
  }

  lemma RefusedEnds(cfg: Config, t: State, user: UserId, task: TaskId, key: Key)
    requires t.deletes == map[] && t.collectors == map[]
    ensures var s := UploadingAt(t, user, task, Refused(key));
            && Step(cfg, s, Uploading(0, CleanUp))
               == Some(t.(uploads := map[], blobs := t.blobs - {key}))
            && Step(cfg, s, Crash(0)) == Some(t.(uploads := map[]))
  {
    var s := UploadingAt(t, user, task, Refused(key));
    assert s.uploads - {0} == map[] && s.deletes - {0} == map[] && s.collectors - {0} == map[];
  }

  lemma BlobStaysOrGoes(
    base: State, tasks: TaskModel.Tasks, rows: Table, blobs: Blobs, key: Key, size: nat)
    requires key !in blobs
    ensures var t := WithBlob(Quiet(base, tasks, rows, blobs), key);
            && t.(blobs := t.blobs - {key}) == Quiet(Issuing(base, key), tasks, rows, blobs)
            && t == Quiet(Issuing(base, key), tasks, rows, blobs[key := Blob(size, base.now)])
  {
    var t := WithBlob(Quiet(base, tasks, rows, blobs), key);
    assert AgesOf(blobs[key := Blob(size, base.now)]) == t.blobs;
    assert t.blobs - {key} == AgesOf(blobs);
  }

  /**
   An Upload whose Create is refused, to somebody else's task for one, cleans its blob up, or
   leaves it if that fails too.
   */
  lemma RefusedUploadTakesItsSteps(
    cfg: Config, base: State, tasks: TaskModel.Tasks, rows: Table, blobs: Blobs, user: UserId,
    task: TaskId, key: Key, size: nat, removeFails: bool)
    requires WellKept(rows) && HasRoom(cfg, tasks, rows, user, task)
    requires size <= cfg.maxBytes && key !in base.issued && key !in blobs
    ensures var steps := PutSteps(Admission(user, task), key, size);
            Run(cfg, Quiet(base, tasks, rows, blobs),
                steps + [Uploading(0, UploadOp.CreateFails)]
                + [if removeFails then Crash(0) else Uploading(0, CleanUp)])
            == Some(Quiet(Issuing(base, key), tasks, rows,
                          if removeFails then blobs[key := Blob(size, base.now)] else blobs))
  {
    var s := Quiet(base, tasks, rows, blobs);
    var steps, t := PutSteps(Admission(user, task), key, size), WithBlob(s, key);
    UploadIsWritten(cfg, base, tasks, rows, blobs, user, task, key, size);
    OneUploadMove(t, user, task, Written(key, base.now, size), Refused(key));
    UploadAppended(cfg, s, steps, t, user, task, Written(key, base.now, size),
                   UploadOp.CreateFails, t, Refused(key));
    RefusedEnds(cfg, t, user, task, key);
    BlobStaysOrGoes(base, tasks, rows, blobs, key, size);
    Appended(cfg, s, steps + [Uploading(0, UploadOp.CreateFails)],
             UploadingAt(t, user, task, Refused(key)),
             if removeFails then Crash(0) else Uploading(0, CleanUp),
             Quiet(Issuing(base, key), tasks, rows,
                   if removeFails then blobs[key := Blob(size, base.now)] else blobs));
  }

  lemma PutEnds(cfg: Config, t: State, user: UserId, task: TaskId, key: Key, n: nat)
    requires t.deletes == map[] && t.collectors == map[]
    ensures var s := UploadingAt(t, user, task, Writing(key, t.now, n));
            && Step(cfg, s, Uploading(0, AbortPut))
               == Some(t.(uploads := map[], blobs := t.blobs - {key}))
            && Step(cfg, s, Crash(0)) == Some(t.(uploads := map[]))
  {
    var s := UploadingAt(t, user, task, Writing(key, t.now, n));
    assert s.uploads - {0} == map[] && s.deletes - {0} == map[] && s.collectors - {0} == map[];
  }

  /**
   An Upload whose Put fails after copying n bytes, one too many for the limit included, removes
   the partial blob, or leaves it if that fails too.
   */
  lemma FailedPutTakesItsSteps(
    cfg: Config, base: State, tasks: TaskModel.Tasks, rows: Table, blobs: Blobs, user: UserId,
    task: TaskId, key: Key, n: nat, removeFails: bool)
    requires WellKept(rows) && HasRoom(cfg, tasks, rows, user, task)
    requires n <= cfg.maxBytes + 1 && key !in base.issued && key !in blobs
    ensures var steps := Admission(user, task) + [Uploading(0, CreateBlob(key))]
                         + [Uploading(0, CopyBytes(n))];
            Run(cfg, Quiet(base, tasks, rows, blobs),
                steps + [if removeFails then Crash(0) else Uploading(0, AbortPut)])
            == Some(Quiet(Issuing(base, key), tasks, rows,
                          if removeFails then blobs[key := Blob(n, base.now)] else blobs))
  {
    var s := Quiet(base, tasks, rows, blobs);
    var steps := Admission(user, task) + [Uploading(0, CreateBlob(key))] + [Uploading(0, CopyBytes(n))];
    var t := WithBlob(s, key);
    AdmissionSteps(cfg, base, tasks, rows, blobs, user, task);
    PartIsCopied(cfg, s, Admission(user, task), s, user, task, key, n);
    PutEnds(cfg, t, user, task, key, n);
    BlobStaysOrGoes(base, tasks, rows, blobs, key, n);
    Appended(cfg, s, steps, UploadingAt(t, user, task, Writing(key, base.now, n)),
             if removeFails then Crash(0) else Uploading(0, AbortPut),
             Quiet(Issuing(base, key), tasks, rows,
                   if removeFails then blobs[key := Blob(n, base.now)] else blobs));
  }

  // ---------- CollectOrphans ----------

  function Entries(keys: seq<Key>): seq<Action> {
    if keys == [] then []
    else Entries(keys[..|keys| - 1]) + [Collecting(0, ListEntry(keys[|keys| - 1]))]
  }

  function Removals(keys: seq<Key>): seq<Action> {
    if keys == [] then []
    else Removals(keys[..|keys| - 1]) + [Collecting(0, Collect(keys[|keys| - 1]))]
  }

  function Checks(listed: seq<Key>): seq<Action> {
    [Collecting(0, Start)] + Entries(listed) + [Collecting(0, Age)] + [Collecting(0, CheckRows)]
  }

  function WholePass(listed: seq<Key>, orphans: seq<Key>): seq<Action> {
    Checks(listed) + Removals(orphans) + [Crash(0)]
  }

  lemma PassAppended(
    cfg: Config, s: State, first: seq<Action>, t: State, col: Collector, op: CollectorOp,
    next: Collector)
    requires !op.Collect? && Run(cfg, s, first) == Some(Garbage.At(t, 0, col))
    requires CollectorStep(cfg, t, col, op) == Some(next)
    ensures Run(cfg, s, first + [Collecting(0, op)]) == Some(Garbage.At(t, 0, next))
  {
    Garbage.PassSteps(cfg, t, 0, 0, col, op);
    Appended(cfg, s, first, Garbage.At(t, 0, col), Collecting(0, op), Garbage.At(t, 0, next));
  }

  function Seen(s: State, keys: seq<Key>): map<Key, Time> {
    map key | key in s.blobs && key in keys :: s.blobs[key]
  }

  lemma SeesOneMore(s: State, keys: seq<Key>)
    requires keys != [] && keys[|keys| - 1] in s.blobs
    ensures var last := keys[|keys| - 1];
            Seen(s, keys[..|keys| - 1])[last := s.blobs[last]] == Seen(s, keys)
  {
    assert keys == keys[..|keys| - 1] + [keys[|keys| - 1]];
  }

  lemma {:induction false} EntriesRun(cfg: Config, s: State, first: seq<Action>, t: State, keys: seq<Key>)
    requires Run(cfg, s, first) == Some(Garbage.At(t, 0, Listing(map[])))
    requires forall key :: key in keys ==> key in t.blobs
    ensures Run(cfg, s, first + Entries(keys)) == Some(Garbage.At(t, 0, Listing(Seen(t, keys))))
    decreases |keys|
  {
    if keys == [] {
      assert first + Entries(keys) == first && Seen(t, keys) == map[];
    } else {
      var init, last := keys[..|keys| - 1], keys[|keys| - 1];
      EntriesRun(cfg, s, first, t, init);
      SeesOneMore(t, keys);
      PassAppended(cfg, s, first + Entries(init), t, Listing(Seen(t, init)), ListEntry(last),
                   Listing(Seen(t, keys)));
      assert first + Entries(keys) == first + Entries(init) + [Collecting(0, ListEntry(last))];
    }
  }

  function Removing(s: State, orphans: set<Key>, gone: set<Key>): State {
    Garbage.At(s.(blobs := s.blobs - gone), 0, Deleting(orphans - gone))
  }

  lemma RemovesOne(cfg: Config, s: State, orphans: set<Key>, gone: set<Key>, key: Key)
    requires key in orphans - gone
    ensures Step(cfg, Removing(s, orphans, gone), Collecting(0, Collect(key)))
            == Some(Removing(s, orphans, gone + {key}))
  {
    assert s.blobs - gone - {key} == s.blobs - (gone + {key});
    assert orphans - gone - {key} == orphans - (gone + {key});
    assert s.collectors[0 := Deleting(orphans - gone)][0 := Deleting(orphans - (gone + {key}))]
           == s.collectors[0 := Deleting(orphans - (gone + {key}))];
  }

  lemma {:induction false} RemovalsRun(
    cfg: Config, s: State, first: seq<Action>, t: State, orphans: set<Key>, keys: seq<Key>)
    requires Run(cfg, s, first) == Some(Removing(t, orphans, {}))
    requires Distinct(keys) && SetOf(keys) <= orphans
    ensures Run(cfg, s, first + Removals(keys)) == Some(Removing(t, orphans, SetOf(keys)))
    decreases |keys|
  {
    if keys == [] {
      assert first + Removals(keys) == first && SetOf(keys) == {};
    } else {
      var init, last := keys[..|keys| - 1], keys[|keys| - 1];
      assert keys == init + [last] && SetOf(keys) == SetOf(init) + {last};
      assert last !in init;
      RemovalsRun(cfg, s, first, t, orphans, init);
      RemovesOne(cfg, t, orphans, SetOf(init), last);
      Appended(cfg, s, first + Removals(init), Removing(t, orphans, SetOf(init)),
               Collecting(0, Collect(last)), Removing(t, orphans, SetOf(keys)));
      assert first + Removals(keys) == first + Removals(init) + [Collecting(0, Collect(last))];
    }
  }

  lemma Starts(cfg: Config, base: State, tasks: TaskModel.Tasks, rows: Table, blobs: Blobs)
    ensures var s := Quiet(base, tasks, rows, blobs);
            Run(cfg, s, [Collecting(0, Start)]) == Some(Garbage.At(s, 0, Listing(map[])))
  {
    RunOne(cfg, Quiet(base, tasks, rows, blobs), Collecting(0, Start));
  }

  function CollectableKeys(rows: Table, blobs: Blobs, cutoff: int): set<Key> {
    set key | key in blobs && Files.Collectable(rows, blobs, cutoff, key)
  }

  lemma StaleAre(rows: Table, blobs: Blobs, cutoff: int)
    ensures OlderThan(AgesOf(blobs), cutoff) - ByKey(rows).Keys == CollectableKeys(rows, blobs, cutoff)
  {
    KeysAgree(rows);
  }

  /** The pass up to its deletes: exactly the collectable keys are left to remove. */
  lemma ChecksRun(
    cfg: Config, base: State, tasks: TaskModel.Tasks, rows: Table, blobs: Blobs, listed: seq<Key>)
    requires forall key :: key in listed <==> key in blobs
    ensures var s := Quiet(base, tasks, rows, blobs);
            Run(cfg, s, Checks(listed))
            == Some(Garbage.At(s, 0, Deleting(CollectableKeys(rows, blobs, base.now - cfg.minAge))))
  {
    var s := Quiet(base, tasks, rows, blobs);
    var first := [Collecting(0, Start)];
    Starts(cfg, base, tasks, rows, blobs);
    EntriesRun(cfg, s, first, s, listed);
    var stale := OlderThan(AgesOf(blobs), base.now - cfg.minAge);
    assert Seen(s, listed) == AgesOf(blobs);
    PassAppended(cfg, s, first + Entries(listed), s, Listing(AgesOf(blobs)), Age, Aged(stale));
    StaleAre(rows, blobs, base.now - cfg.minAge);
    PassAppended(cfg, s, first + Entries(listed) + [Collecting(0, Age)], s, Aged(stale), CheckRows,
                 Deleting(CollectableKeys(rows, blobs, base.now - cfg.minAge)));
  }

  lemma NothingRemoved(s: State, orphans: set<Key>)
    ensures Removing(s, orphans, {}) == Garbage.At(s, 0, Deleting(orphans))
  {
    assert s.blobs - {} == s.blobs && orphans - {} == orphans;
  }

  lemma PassEnds(
    cfg: Config, base: State, tasks: TaskModel.Tasks, rows: Table, blobs: Blobs, orphans: set<Key>,
    gone: set<Key>)
    ensures Step(cfg, Removing(Quiet(base, tasks, rows, blobs), orphans, gone), Crash(0))
            == Some(Quiet(base, tasks, rows, blobs - gone))
  {
    var s := Quiet(base, tasks, rows, blobs);
    var t := Removing(s, orphans, gone);
    assert t.uploads - {0} == map[] && t.deletes - {0} == map[] && t.collectors - {0} == map[];
    assert AgesOf(blobs - gone) == AgesOf(blobs) - gone;
  }

  /** A pass over all blobs that removes some of what it may, and then ends. */
  lemma {:induction false} PassRemoves(
    cfg: Config, base: State, tasks: TaskModel.Tasks, rows: Table, blobs: Blobs,
    listed: seq<Key>, removed: seq<Key>)
    requires forall key :: key in listed <==> key in blobs
    requires Distinct(removed)
    requires forall key :: key in removed ==>
               Files.Collectable(rows, blobs, base.now - cfg.minAge, key)
    ensures Run(cfg, Quiet(base, tasks, rows, blobs), WholePass(listed, removed))
            == Some(Quiet(base, tasks, rows, blobs - SetOf(removed)))
  {
    var s := Quiet(base, tasks, rows, blobs);
    var all := CollectableKeys(rows, blobs, base.now - cfg.minAge);
    ChecksRun(cfg, base, tasks, rows, blobs, listed);
    NothingRemoved(s, all);
    RemovalsRun(cfg, s, Checks(listed), s, all, removed);
    PassEnds(cfg, base, tasks, rows, blobs, all, SetOf(removed));
    Appended(cfg, s, Checks(listed) + Removals(removed), Removing(s, all, SetOf(removed)), Crash(0),
             Quiet(base, tasks, rows, blobs - SetOf(removed)));
  }

  /** A clean Service.CollectOrphans is one whole pass. */
  lemma {:induction false} CollectTakesAPass(
    cfg: Config, base: State, tasks: TaskModel.Tasks, rows: Table, blobs: Blobs,
    listed: seq<Key>, orphans: seq<Key>)
    requires forall key :: key in listed <==> key in blobs
    requires Distinct(orphans)
    requires forall key :: key in orphans <==>
               Files.Collectable(rows, blobs, base.now - cfg.minAge, key)
    ensures Run(cfg, Quiet(base, tasks, rows, blobs), WholePass(listed, orphans))
            == Some(Quiet(base, tasks, rows,
                          Files.Collected(rows, blobs, base.now - cfg.minAge)))
  {
    PassRemoves(cfg, base, tasks, rows, blobs, listed, orphans);
    Files.OrphansCollected(rows, blobs, base.now - cfg.minAge, orphans);
  }

  lemma LeftIsRest(blobs: Blobs, left: Blobs, gone: set<Key>)
    requires forall key :: key in left ==> key in blobs && left[key] == blobs[key]
    requires gone == blobs.Keys - left.Keys
    ensures blobs - gone == left
  {
  }

  lemma Removed(blobs: Blobs, left: Blobs) returns (removed: seq<Key>)
    requires forall key :: key in left ==> key in blobs && left[key] == blobs[key]
    ensures Distinct(removed) && blobs - SetOf(removed) == left
    ensures forall key :: key in removed ==> key in blobs && key !in left
  {
    var gone := blobs.Keys - left.Keys;
    removed := SeqOf(gone);
    OnceEach(removed, gone);
    assert SetOf(removed) == gone;
    LeftIsRest(blobs, left, gone);
  }

  /**
   A Service.CollectOrphans that breaks off, wherever it does, leaves what a pass leaves that
   crashes after removing the same blobs.
   */
  lemma {:induction false} BrokenCollectTakesAPass(
    cfg: Config, base: State, tasks: TaskModel.Tasks, rows: Table, blobs: Blobs, left: Blobs,
    listed: seq<Key>)
    requires forall key :: key in listed <==> key in blobs
    requires forall key :: key in blobs && key !in left ==>
               Files.Collectable(rows, blobs, base.now - cfg.minAge, key)
    requires forall key :: key in left ==> key in blobs && left[key] == blobs[key]
    ensures exists removed: seq<Key> ::
              Run(cfg, Quiet(base, tasks, rows, blobs), WholePass(listed, removed))
              == Some(Quiet(base, tasks, rows, left))
  {
    var removed := Removed(blobs, left);
    PassRemoves(cfg, base, tasks, rows, blobs, listed, removed);
  }
}

/**
 The in-memory attachment repository and the blob store beside it.

 Rows are held by attachment ID and found by storage key; WellKept says that each is stored
 under its own ID and that no two share a key. Who owns a row is never stored with it: it is
 whoever owns its task, so every query goes through the task repository.

 Blobs are files with a size and a modification time. Put is the one call that can fail half
 way, and Met says which of its faults a copy of a given length runs into.
 */
module AttachmentStore {
  import opened Collections
  import opened Sorting
  import Protocol = AttachmentProtocol
  import TaskModel
  import TaskRepository

  type Key = Protocol.Key
  type AttachmentId = nat
  type TaskId = Protocol.TaskId
  type UserId = Protocol.UserId
  type Time = Protocol.Time

  datatype Attachment = Attachment(
    id: AttachmentId, task: TaskId, key: Key, size: nat, createdAt: Time)

  type Rows = map<AttachmentId, Attachment>

  datatype Error =
    | NotFound | TaskNotFound | AlreadyExists | InvalidInput | TooLarge | StoreFailed

  datatype Result<+T> = Ok(value: T) | Err(error: Error)

  predicate Before(a: Attachment, b: Attachment) {
    a.createdAt < b.createdAt || (a.createdAt == b.createdAt && a.id <= b.id)
  }

  /** Rows are stored under their IDs, and no two share a storage key. */
  ghost predicate WellKept(rows: Rows) {
    && (forall id :: id in rows ==> rows[id].id == id)
    && (forall i, j :: i in rows && j in rows && rows[i].key == rows[j].key ==> i == j)
  }

  function OfTask(rows: Rows, task: TaskId): set<Attachment> {
    set id | id in rows && rows[id].task == task :: rows[id]
  }

  function KeysOf(rows: Rows): set<Key> {
    set id | id in rows :: rows[id].key
  }

  function WithoutKey(rows: Rows, key: Key): Rows {
    map id | id in rows && rows[id].key != key :: rows[id]
  }

  // ---------- The tables as the protocol sees them ----------

  function OwnersOf(tasks: TaskModel.Tasks): Protocol.Tasks {
    map t | t in tasks :: tasks[t].user
  }

  ghost function RowAt(rows: Rows, key: Key): Protocol.Row
    requires key in KeysOf(rows)
  {
    var id :| id in rows && rows[id].key == key;
    Protocol.Row(rows[id].task, rows[id].size)
  }

  ghost function ByKey(rows: Rows): Protocol.Rows {
    map key | key in KeysOf(rows) :: RowAt(rows, key)
  }

  ghost function BytesOf(rows: Rows, tasks: TaskModel.Tasks, user: UserId): nat {
    Protocol.TotalBytesForUser(OwnersOf(tasks), ByKey(rows), user)
  }

  lemma ByKeyIs(rows: Rows, id: AttachmentId)
    requires WellKept(rows) && id in rows
    ensures rows[id].key in ByKey(rows)
    ensures ByKey(rows)[rows[id].key] == Protocol.Row(rows[id].task, rows[id].size)
  {
  }

  lemma ByKeyGrows(rows: Rows, a: Attachment)
    requires WellKept(rows) && a.id !in rows && a.key !in KeysOf(rows)
    ensures WellKept(rows[a.id := a])
    ensures ByKey(rows[a.id := a]) == ByKey(rows)[a.key := Protocol.Row(a.task, a.size)]
  {
    var more := rows[a.id := a];
    assert forall id :: id in rows ==> rows[id].key in KeysOf(rows);
    ByKeyIs(more, a.id);
    forall key | key in KeysOf(rows) ensures key in KeysOf(more) && RowAt(more, key) == RowAt(rows, key) {
      var id :| id in rows && rows[id].key == key;
      ByKeyIs(rows, id);
      ByKeyIs(more, id);
    }
    forall key | key in KeysOf(more) ensures key == a.key || key in KeysOf(rows) {}
  }

  lemma BytesGrow(rows: Rows, a: Attachment, tasks: TaskModel.Tasks, user: UserId)
    requires WellKept(rows) && a.id !in rows && a.key !in KeysOf(rows)
    ensures BytesOf(rows[a.id := a], tasks, user)
            == BytesOf(rows, tasks, user)
               + if TaskModel.Owned(tasks, a.task, user) then a.size else 0
  {
    ByKeyGrows(rows, a);
    Protocol.RowAddsBytes(OwnersOf(tasks), ByKey(rows), a.key, Protocol.Row(a.task, a.size), user);
  }

  lemma OfTaskById(rows: Rows, task: TaskId, a: Attachment)
    requires WellKept(rows)
    ensures a in OfTask(rows, task) <==> a.id in rows && rows[a.id] == a && a.task == task
  {
  }

  lemma RowVisited(rows: Rows, todo: set<AttachmentId>, id: AttachmentId, task: TaskId)
    requires WellKept(rows) && id in rows && id in todo
    ensures rows[id] !in OfTask(rows - todo, task)
    ensures OfTask(rows - (todo - {id}), task)
            == OfTask(rows - todo, task) + if rows[id].task == task then {rows[id]} else {}
  {
    var seen, more := rows - todo, rows - (todo - {id});
    assert more == seen[id := rows[id]];
    forall a ensures a in OfTask(more, task) <==>
                     a in OfTask(seen, task) || (a == rows[id] && rows[id].task == task)
    {
      OfTaskById(seen, task, a);
      OfTaskById(more, task, a);
    }
    OfTaskById(seen, task, rows[id]);
  }

  class Repository {
    const tasks: TaskRepository.Repository
    var rows: Rows

    constructor (tasks: TaskRepository.Repository)
      ensures this.tasks == tasks && rows == map[]
    {
      this.tasks := tasks;
      rows := map[];
    }

    /** The ownership check, a call into the task repository. */
    method OwnsTask(task: TaskId, user: UserId) returns (owns: bool)
      ensures owns <==> task in tasks.store && tasks.store[task].user == user
    {
      var found := tasks.FindByID(task, user);
      return found.Some?;
    }

    method FindKey(key: Key) returns (found: Option<AttachmentId>)
      ensures found.Some? ==> found.value in rows && rows[found.value].key == key
      ensures found.None? ==> key !in KeysOf(rows)
    {
      var todo := rows.Keys;
      while todo != {}
        invariant todo <= rows.Keys
        invariant forall id :: id in rows && id !in todo ==> rows[id].key != key
        decreases |todo|
      {
        var id :| id in todo;
        if rows[id].key == key {
          return Some(id);
        }
        todo := todo - {id};
      }
      return None;
    }

    method Create(a: Attachment, user: UserId) returns (error: Option<Error>)
      modifies this`rows
      ensures error == if !TaskModel.Owned(tasks.store, a.task, user) then Some(TaskNotFound)
                       else if a.id in old(rows) || a.key in KeysOf(old(rows)) then Some(AlreadyExists)
                       else None
      ensures rows == if error.Some? then old(rows) else old(rows)[a.id := a]
      ensures error.None? <==>
                && a.task in tasks.store && tasks.store[a.task].user == user
                && a.id !in old(rows) && forall id :: id in old(rows) ==> old(rows)[id].key != a.key
      ensures old(WellKept(rows)) ==> WellKept(rows)
    {
      var owns := OwnsTask(a.task, user);
      if !owns {
        return Some(TaskNotFound);
      }
      if a.id in rows {
        return Some(AlreadyExists);
      }
      var taken := FindKey(a.key);
      if taken.Some? {
        return Some(AlreadyExists);
      }
      assert forall id :: id in rows ==> rows[id].key in KeysOf(rows);
      rows := rows[a.id := a];
      return None;
    }

    /** Removes the row of key, if key leads to a task of user. */
    method Delete(key: Key, user: UserId) returns (error: Option<Error>)
      requires WellKept(rows)
      modifies this`rows
      ensures WellKept(rows)
      ensures error.None? <==> exists id :: id in old(rows) && old(rows)[id].key == key
                                 && old(rows)[id].task in tasks.store
                                 && tasks.store[old(rows)[id].task].user == user
      ensures error.Some? ==> error.value == NotFound
      ensures rows == if error.Some? then old(rows) else WithoutKey(old(rows), key)
      ensures forall id :: id in rows <==>
                id in old(rows) && (error.Some? || old(rows)[id].key != key)
      ensures forall id :: id in rows ==> rows[id] == old(rows)[id]
    {
      var found := FindKey(key);
      if found.None? {
        assert forall id :: id in rows ==> rows[id].key in KeysOf(rows);
        return Some(NotFound);
      }
      var owns := OwnsTask(rows[found.value].task, user);
      if !owns {
        return Some(NotFound);
      }
      rows := rows - {found.value};
      return None;
    }

    method FindByTask(task: TaskId, user: UserId) returns (r: Result<seq<Attachment>>)
      requires WellKept(rows)
      ensures r.Ok? <==> task in tasks.store && tasks.store[task].user == user
      ensures r.Ok? ==> multiset(r.value) == multiset(OfTask(rows, task))
                        && InOrder(r.value, rows, task)
      ensures r.Err? ==> r.error == TaskNotFound
    {
      var owns := OwnsTask(task, user);
      if !owns {
        return Err(TaskNotFound);
      }
      var found := CollectByTask(task);
      SortSorts(found, Before);
      OrderedIs(Sort(found, Before), rows, task);
      return Ok(Sort(found, Before));
    }

    method CollectByTask(task: TaskId) returns (found: seq<Attachment>)
      requires WellKept(rows)
      ensures multiset(found) == multiset(OfTask(rows, task))
    {
      found := [];
      var todo := rows.Keys;
      assert OfTask(rows - rows.Keys, task) == {};
      while todo != {}
        invariant todo <= rows.Keys
        invariant multiset(found) == multiset(OfTask(rows - todo, task))
        decreases |todo|
      {
        var id :| id in todo;
        RowVisited(rows, todo, id, task);
        todo := todo - {id};
        if rows[id].task == task {
          found := found + [rows[id]];
        }
      }
      assert rows - todo == rows;
    }

    method TotalBytesForUser(user: UserId) returns (total: nat)
      requires WellKept(rows)
      ensures total == BytesOf(rows, tasks.store, user)
    {
      total := 0;
      var todo := rows.Keys;
      assert KeysOf(rows - rows.Keys) == {};
      while todo != {}
        invariant todo <= rows.Keys
        invariant total == BytesOf(rows - todo, tasks.store, user)
        decreases |todo|
      {
        var id :| id in todo;
        SizeVisited(rows, todo, id, tasks.store, user);
        todo := todo - {id};
        var owns := OwnsTask(rows[id].task, user);
        if owns {
          total := total + rows[id].size;
        }
      }
      assert rows - todo == rows;
    }

    method CountByTask(task: TaskId, user: UserId) returns (count: nat)
      requires WellKept(rows)
      ensures count == if task in tasks.store && tasks.store[task].user == user
                       then |set id | id in rows && rows[id].task == task :: rows[id]| else 0
    {
      count := 0;
      var owns := OwnsTask(task, user);
      if !owns {
        return;
      }
      var todo := rows.Keys;
      assert OfTask(rows - rows.Keys, task) == {};
      while todo != {}
        invariant todo <= rows.Keys
        invariant count == |OfTask(rows - todo, task)|
        decreases |todo|
      {
        var id :| id in todo;
        RowVisited(rows, todo, id, task);
        todo := todo - {id};
        if rows[id].task == task {
          count := count + 1;
        }
      }
      assert rows - todo == rows;
    }

    method ReferencedKeys() returns (referenced: set<Key>)
      ensures referenced == KeysOf(rows)
    {
      referenced := {};
      var todo := rows.Keys;
      while todo != {}
        invariant todo <= rows.Keys
        invariant referenced == KeysOf(rows - todo)
        decreases |todo|
      {
        var id :| id in todo;
        KeyVisited(rows, todo, id);
        todo := todo - {id};
        referenced := referenced + {rows[id].key};
      }
      assert rows - todo == rows;
    }

    method UnreferencedKeys(keys: seq<Key>) returns (unreferenced: seq<Key>)
      ensures forall k :: k in unreferenced <==> k in keys && k !in KeysOf(rows)
      ensures forall k :: k in unreferenced <==>
                k in keys && forall id :: id in rows ==> rows[id].key != k
      ensures Distinct(keys) ==> Distinct(unreferenced)
    {
      var referenced := ReferencedKeys();
      unreferenced := Absent(keys, referenced);
    }
  }

  /** The rows of task, each once, oldest first and by ID among those of one instant. */
  ghost predicate InOrder(found: seq<Attachment>, rows: Rows, task: TaskId) {
    && (forall i, j :: 0 <= i < j < |found| ==>
          found[i].createdAt < found[j].createdAt
          || (found[i].createdAt == found[j].createdAt && found[i].id < found[j].id))
    && (forall a :: a in found <==> a.id in rows && rows[a.id] == a && a.task == task)
  }

  lemma OrderedIs(found: seq<Attachment>, rows: Rows, task: TaskId)
    requires WellKept(rows) && multiset(found) == multiset(OfTask(rows, task))
    requires Sorted(found, Before)
    ensures InOrder(found, rows, task)
  {
    OnceEach(found, OfTask(rows, task));
    forall a ensures a in found <==> a.id in rows && rows[a.id] == a && a.task == task {
      OfTaskById(rows, task, a);
    }
    forall i, j | 0 <= i < j < |found|
      ensures found[i].createdAt < found[j].createdAt
              || (found[i].createdAt == found[j].createdAt && found[i].id < found[j].id)
    {
      assert found[i] in found && found[j] in found && Before(found[i], found[j]);
    }
  }

  method Absent(keys: seq<Key>, referenced: set<Key>) returns (absent: seq<Key>)
    ensures forall k :: k in absent <==> k in keys && k !in referenced
    ensures Distinct(keys) ==> Distinct(absent)
  {
    absent := [];
    for i := 0 to |keys|
      invariant forall k :: k in absent <==> k in keys[..i] && k !in referenced
      invariant Distinct(keys) ==> Distinct(absent)
    {
      if keys[i] !in referenced {
        assert Distinct(keys) ==> keys[i] !in keys[..i];
        absent := absent + [keys[i]];
      }
    }
  }

  lemma KeyVisited(rows: Rows, todo: set<AttachmentId>, id: AttachmentId)
    requires id in rows && id in todo
    ensures KeysOf(rows - (todo - {id})) == KeysOf(rows - todo) + {rows[id].key}
  {
    assert rows - (todo - {id}) == (rows - todo)[id := rows[id]];
    var seen := rows - todo;
    forall k | k in KeysOf(seen[id := rows[id]]) ensures k in KeysOf(seen) + {rows[id].key} {}
    forall k | k in KeysOf(seen) + {rows[id].key} ensures k in KeysOf(seen[id := rows[id]]) {
      if k == rows[id].key {
        assert seen[id := rows[id]][id].key == k;
      } else {
        var d :| d in seen && seen[d].key == k;
        assert seen[id := rows[id]][d].key == k;
      }
    }
  }

  lemma SizeVisited(
    rows: Rows, todo: set<AttachmentId>, id: AttachmentId, tasks: TaskModel.Tasks, user: UserId)
    requires WellKept(rows) && id in rows && id in todo
    ensures BytesOf(rows - (todo - {id}), tasks, user)
            == BytesOf(rows - todo, tasks, user)
               + if TaskModel.Owned(tasks, rows[id].task, user) then rows[id].size else 0
  {
    assert rows - (todo - {id}) == (rows - todo)[id := rows[id]];
    BytesGrow(rows - todo, rows[id], tasks, user);
  }

  // ---------- Blobs ----------

  datatype Blob = Blob(size: nat, modTime: Time)

  type Blobs = map<Key, Blob>

  datatype BlobRef = BlobRef(key: Key, modTime: Time)

  /** Where a Put goes wrong, if it does: a fault further than the copy gets is never met. */
  datatype PutFault =
    | NoFault
    | CreateFails
    | ReadFails(after: nat)
    | WriteFails(after: nat)
    | CloseFails

  /** The limited reader asks for the byte after the last one, but never for a byte past the limit plus one. */
  predicate Met(fault: PutFault, stream: nat, maxBytes: nat) {
    match fault
    case NoFault => false
    case CreateFails => true
    case ReadFails(after) => after <= stream && after <= maxBytes
    case WriteFails(after) => after < stream && after <= maxBytes
    case CloseFails => stream <= maxBytes
  }

  class BlobStore {
    var blobs: Blobs

    constructor ()
      ensures blobs == map[]
    {
      blobs := map[];
    }

    /** Reads at most one byte past the limit, and leaves no partial file unless removing it fails. */
    method Put(key: Key, stream: nat, maxBytes: nat, now: Time, fault: PutFault, removeFails: bool)
      returns (r: Result<nat>)
      requires key !in blobs
      modifies this
      ensures r.Ok? <==> stream <= maxBytes && !Met(fault, stream, maxBytes)
      ensures r.Ok? ==> r.value == stream && blobs == old(blobs)[key := Blob(stream, now)]
      ensures r.Err? ==> r.error == if Met(fault, stream, maxBytes) then StoreFailed else TooLarge
      ensures r.Err? ==> blobs - {key} == old(blobs) - {key}
      ensures r.Err? && !removeFails ==> blobs == old(blobs)
      ensures key in blobs ==> blobs[key].size <= maxBytes + 1
    {
      if fault.CreateFails? {
        return Err(StoreFailed);
      }
      blobs := blobs[key := Blob(0, now)];
      var limit := if stream <= maxBytes + 1 then stream else maxBytes + 1;
      var written := 0;
      while written < limit
        invariant written <= limit
        invariant fault.ReadFails? || fault.WriteFails? ==> fault.after >= written
        invariant blobs == old(blobs)[key := Blob(written, now)]
      {
        if (fault.ReadFails? || fault.WriteFails?) && fault.after == written {
          Remove(key, removeFails);
          return Err(StoreFailed);
        }
        written := written + 1;
        blobs := blobs[key := Blob(written, now)];
      }
      if fault.ReadFails? && fault.after == written && written <= maxBytes {
        Remove(key, removeFails);
        return Err(StoreFailed);
      }
      if written > maxBytes {
        Remove(key, removeFails);
        return Err(TooLarge);
      }
      if fault.CloseFails? {
        Remove(key, removeFails);
        return Err(StoreFailed);
      }
      return Ok(written);
    }

    /** A key that is not there is not an error. */
    method Remove(key: Key, fails: bool)
      modifies this
      ensures blobs == if fails then old(blobs) else old(blobs) - {key}
    {
      if !fails {
        blobs := blobs - {key};
      }
    }

    method List() returns (refs: seq<BlobRef>)
      ensures forall ref :: ref in refs <==>
                ref.key in blobs && blobs[ref.key].modTime == ref.modTime
      ensures forall i, j :: 0 <= i < j < |refs| ==> refs[i].key != refs[j].key
    {
      refs := [];
      var todo := blobs.Keys;
      while todo != {}
        invariant todo <= blobs.Keys
        invariant forall ref :: ref in refs <==>
                    ref.key in blobs && ref.key !in todo && blobs[ref.key].modTime == ref.modTime
        invariant forall i, j :: 0 <= i < j < |refs| ==> refs[i].key != refs[j].key
        decreases |todo|
      {
        var key :| key in todo;
        assert forall ref :: ref in refs ==> ref.key != key;
        assert forall i :: 0 <= i < |refs| ==> refs[i] in refs;
        todo := todo - {key};
        refs := refs + [BlobRef(key, blobs[key].modTime)];
      }
    }
  }
}

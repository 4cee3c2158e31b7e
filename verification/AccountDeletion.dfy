/**
 Deleting an account: verify the password, delete every task with its attachments, then the
 sessions, then the user row, over three services that know nothing of each other.
 */
module AccountDeletion {
  import opened Collections
  import Users = AuthService
  import UserStore
  import Tasks = TaskService
  import TaskModel
  import TaskQuery
  import Files = AttachmentService
  import opened AttachmentStore

  /** Which store calls fail. Blob deletes are best effort, so theirs are not errors. */
  datatype Faults = Faults(
    verifyFails: bool, listFails: bool, filesFail: set<TaskId>, rowFails: set<Key>,
    blobFails: set<Key>, taskFails: set<TaskId>, sessionsFail: bool, userFails: bool)

  predicate Faultless(f: Faults) {
    !f.verifyFails && !f.listFails && f.filesFail == {} && f.rowFails == {} && f.taskFails == {}
    && !f.sessionsFail && !f.userFails
  }

  // ---------- What is taken away ----------

  function RowsOutside(rows: Rows, gone: set<TaskId>): Rows {
    map id | id in rows && rows[id].task !in gone :: rows[id]
  }

  function TasksOf(tasks: TaskModel.Tasks, user: UserId): set<TaskId> {
    set id | id in tasks && tasks[id].user == user
  }

  /** after is before with nothing but rows of the tasks in gone taken away. */
  ghost predicate OnlyRowsOf(before: Rows, after: Rows, gone: set<TaskId>) {
    && (forall id :: id in after ==> id in before && after[id] == before[id])
    && (forall id :: id in before && before[id].task !in gone ==> id in after)
  }

  /** Only blobs whose row is gone are gone, and no row is left without its blob. */
  ghost predicate BlobsFollow(before: Rows, after: Rows, blobs: Blobs, left: Blobs) {
    && (forall k :: k in left ==> k in blobs && left[k] == blobs[k])
    && (forall k :: k in blobs && k !in left ==> k in KeysOf(before) && k !in KeysOf(after))
  }

  /** What the loop over a task's attachments has left after the first n. */
  ghost predicate Emptied(before: Rows, rows: Rows, found: seq<Attachment>, n: nat)
    requires n <= |found|
  {
    forall id :: id in before ==> (id in rows <==> before[id] !in found[..n])
  }

  lemma AttachmentsListed(rows: Rows, task: TaskId, found: seq<Attachment>)
    requires WellKept(rows) && multiset(found) == multiset(OfTask(rows, task))
    ensures forall i, j :: 0 <= i < j < |found| ==> found[i] != found[j]
    ensures forall i :: 0 <= i < |found| ==>
              found[i].id in rows && rows[found[i].id] == found[i] && found[i].task == task
    ensures forall id :: id in rows && rows[id].task == task ==> rows[id] in found
  {
    OnceEach(found, OfTask(rows, task));
    forall i | 0 <= i < |found|
      ensures found[i].id in rows && rows[found[i].id] == found[i] && found[i].task == task
    {
      assert found[i] in found;
      OfTaskById(rows, task, found[i]);
    }
    forall id | id in rows && rows[id].task == task ensures rows[id] in found {
      OfTaskById(rows, task, rows[id]);
    }
  }

  lemma NextEmptied(before: Rows, rows: Rows, found: seq<Attachment>, n: nat)
    requires WellKept(before) && n < |found|
    requires Emptied(before, rows, found, n)
    requires forall id :: id in rows ==> id in before && rows[id] == before[id]
    requires forall i :: 0 <= i < |found| ==>
               found[i].id in before && before[found[i].id] == found[i]
    ensures Emptied(before, WithoutKey(rows, found[n].key), found, n + 1)
  {
  }

  lemma AllEmptied(before: Rows, rows: Rows, task: TaskId, found: seq<Attachment>)
    requires Emptied(before, rows, found, |found|) && OnlyRowsOf(before, rows, {task})
    requires forall i :: 0 <= i < |found| ==> found[i].task == task
    requires forall id :: id in before && before[id].task == task ==> before[id] in found
    ensures rows == RowsOutside(before, {task})
  {
  }

  class Api {
    const users: Users.Service
    const tasks: Tasks.Service
    const files: Files.Service

    ghost predicate Valid()
      reads users.repo, tasks.repo, files.repo, files.store
    {
      && users.repo.Indexed() && TaskQuery.Keyed(tasks.repo.store) && files.Valid()
      && files.repo.tasks == tasks.repo
    }

    constructor (users: Users.Service, tasks: Tasks.Service, files: Files.Service)
      ensures this.users == users && this.tasks == tasks && this.files == files
    {
      this.users, this.tasks, this.files := users, tasks, files;
    }

    method DeleteAttachments(user: UserId, task: TaskId, f: Faults)
      returns (error: Option<Error>)
      requires Valid() && TaskModel.Owned(tasks.repo.store, task, user)
      modifies files.repo`rows, files.store
      ensures Valid()
      ensures Faultless(f) ==> error.None?
      ensures OnlyRowsOf(old(files.repo.rows), files.repo.rows, {task})
      ensures error.None? ==> files.repo.rows == RowsOutside(old(files.repo.rows), {task})
      ensures error.None? ==>
                forall id :: id in files.repo.rows <==>
                  id in old(files.repo.rows) && old(files.repo.rows)[id].task != task
      ensures BlobsFollow(old(files.repo.rows), files.repo.rows,
                          old(files.store.blobs), files.store.blobs)
    {
      if task in f.filesFail {
        return Some(StoreFailed);
      }
      var listed := files.ListByTask(user, task);
      var found := [];
      match listed {
        case Err(e) => return Some(e);
        case Ok(value) => found := value;
      }
      ghost var before := files.repo.rows;
      AttachmentsListed(before, task, found);
      for i := 0 to |found|
        invariant Valid()
        invariant OnlyRowsOf(before, files.repo.rows, {task})
        invariant Emptied(before, files.repo.rows, found, i)
        invariant BlobsFollow(before, files.repo.rows, old(files.store.blobs), files.store.blobs)
      {
        var a := found[i];
        assert a !in found[..i] && a.id in files.repo.rows;
        assert Files.LeadsTo(files.repo.rows, tasks.repo.store, a.key, user);
        ghost var rows, blobs := files.repo.rows, files.store.blobs;
        error := files.Delete(user, a.key, a.key in f.rowFails, a.key in f.blobFails);
        if error.Some? {
          return;
        }
        NextEmptied(before, rows, found, i);
        Files.KeyGone(rows, a.key);
        assert BlobsFollow(rows, files.repo.rows, blobs, files.store.blobs);
      }
      AllEmptied(before, files.repo.rows, task, found);
      return None;
    }

    method DeleteTaskWithFiles(user: UserId, task: TaskId, f: Faults) returns (failed: bool)
      requires Valid() && TaskModel.Owned(tasks.repo.store, task, user)
      modifies tasks.repo, files.repo`rows, files.store
      ensures Valid()
      ensures Faultless(f) ==> !failed
      ensures tasks.repo.store == old(tasks.repo.store) - if failed then {} else {task}
      ensures OnlyRowsOf(old(files.repo.rows), files.repo.rows, {task})
      ensures !failed ==> files.repo.rows == RowsOutside(old(files.repo.rows), {task})
      ensures BlobsFollow(old(files.repo.rows), files.repo.rows,
                          old(files.store.blobs), files.store.blobs)
    {
      var error := DeleteAttachments(user, task, f);
      if error.Some? || task in f.taskFails {
        return true;
      }
      var missing := tasks.DeleteTask(user, task);
      return missing.Some?;
    }

    /** deleteAccountCascade: every task of user, each after its attachments. */
    method DeleteAccountCascade(user: UserId, f: Faults) returns (failed: bool)
      requires Valid()
      modifies tasks.repo, files.repo`rows, files.store
      ensures Valid()
      ensures Faultless(f) ==> !failed
      ensures !failed ==>
                && (forall id :: id in tasks.repo.store <==>
                      id in old(tasks.repo.store) && old(tasks.repo.store)[id].user != user)
                && (forall id :: id in files.repo.rows <==>
                      && id in old(files.repo.rows)
                      && !(old(files.repo.rows)[id].task in old(tasks.repo.store)
                           && old(tasks.repo.store)[old(files.repo.rows)[id].task].user == user))
      ensures !failed ==>
                && tasks.repo.store == TasksOfOthers(old(tasks.repo.store), user)
                && files.repo.rows
                   == RowsOutside(old(files.repo.rows), TasksOf(old(tasks.repo.store), user))
      ensures OnlyTasksOf(old(tasks.repo.store), tasks.repo.store, user)
      ensures OnlyRowsOf(old(files.repo.rows), files.repo.rows,
                         TasksOf(old(tasks.repo.store), user))
      ensures BlobsFollow(old(files.repo.rows), files.repo.rows,
                          old(files.store.blobs), files.store.blobs)
    {
      if f.listFails {
        return true;
      }
      ghost var all := TaskQuery.Filter(user, [], []);
      assert Tasks.AskedFor(all, user, [], []);
      var listed := tasks.ListTasks(user, -1, 0, [], []);
      var found := [];
      match listed {
        case Err(_) => return true;
        case Ok(value) => found := value.0;
      }
      TasksListed(tasks.repo.store, user, found);
      failed := DeleteListed(user, found, f);
    }

    method DeleteListed(user: UserId, found: seq<TaskModel.Task>, f: Faults)
      returns (failed: bool)
      requires Valid() && AreListed(tasks.repo.store, user, found)
      modifies tasks.repo, files.repo`rows, files.store
      ensures Valid()
      ensures Faultless(f) ==> !failed
      ensures !failed ==>
                && tasks.repo.store == TasksOfOthers(old(tasks.repo.store), user)
                && files.repo.rows
                   == RowsOutside(old(files.repo.rows), TasksOf(old(tasks.repo.store), user))
      ensures OnlyTasksOf(old(tasks.repo.store), tasks.repo.store, user)
      ensures OnlyRowsOf(old(files.repo.rows), files.repo.rows,
                         TasksOf(old(tasks.repo.store), user))
      ensures BlobsFollow(old(files.repo.rows), files.repo.rows,
                          old(files.store.blobs), files.store.blobs)
    {
      ghost var before, rows0 := tasks.repo.store, files.repo.rows;
      for i := 0 to |found|
        invariant Valid()
        invariant tasks.repo.store == before - IdsOf(found[..i])
        invariant files.repo.rows == RowsOutside(rows0, IdsOf(found[..i]))
        invariant BlobsFollow(rows0, files.repo.rows, old(files.store.blobs), files.store.blobs)
      {
        NextTask(before, user, rows0, found, i);
        ghost var rows, blobs := files.repo.rows, files.store.blobs;
        failed := DeleteTaskWithFiles(user, found[i].id, f);
        if failed {
          SomeDeleted(before, user, found, i);
          return;
        }
      }
      assert found[..|found|] == found;
      SomeDeleted(before, user, found, |found|);
      return false;
    }

    /** The order Handler.deleteAccount runs in. */
    method DeleteAccount(user: UserId, password: UserStore.Password, f: Faults)
      returns (error: Option<Users.Failure>)
      requires Valid()
      modifies users.repo, users.cache, tasks.repo, files.repo`rows, files.store
      ensures Valid()
      // It succeeds for everyone who knows the password, whatever an earlier attempt left behind.
      ensures Knows(old(users.repo.usersByID), user, password) && Faultless(f) ==> error.None?
      ensures error.None? ==> Knows(old(users.repo.usersByID), user, password)
      // Without the password nothing happens at all.
      ensures f.verifyFails || !Knows(old(users.repo.usersByID), user, password) ==>
                && error == Some(if f.verifyFails then Users.StoreFailed else Users.InvalidCredentials)
                && users.repo.usersByID == old(users.repo.usersByID)
                && users.repo.sessions == old(users.repo.sessions)
                && users.cache.entries == old(users.cache.entries)
                && tasks.repo.store == old(tasks.repo.store)
                && files.repo.rows == old(files.repo.rows)
                && files.store.blobs == old(files.store.blobs)
      // Success leaves nothing of the account and changes nothing else.
      ensures error.None? ==>
                && users.repo.usersByID == old(users.repo.usersByID) - {user}
                && (forall h :: h in users.repo.sessions <==>
                      h in old(users.repo.sessions) && old(users.repo.sessions)[h].user != user)
                && (forall h :: h in users.cache.entries <==>
                      h in old(users.cache.entries) && old(users.cache.entries)[h].user != user)
                && (forall id :: id in tasks.repo.store <==>
                      id in old(tasks.repo.store) && old(tasks.repo.store)[id].user != user)
                && (forall id :: id in files.repo.rows <==>
                      && id in old(files.repo.rows)
                      && !(old(files.repo.rows)[id].task in old(tasks.repo.store)
                           && old(tasks.repo.store)[old(files.repo.rows)[id].task].user == user))
                && files.repo.rows
                   == RowsOutside(old(files.repo.rows), TasksOf(old(tasks.repo.store), user))
      // The account is locked out only once all its tasks are gone.
      ensures (exists id :: id in tasks.repo.store && tasks.repo.store[id].user == user) ==>
                && users.repo.sessions == old(users.repo.sessions)
                && users.cache.entries == old(users.cache.entries)
      // Failure keeps the user row, and touches nobody else.
      ensures error.Some? ==> users.repo.usersByID == old(users.repo.usersByID)
      ensures OnlyTasksOf(old(tasks.repo.store), tasks.repo.store, user)
      ensures OnlyRowsOf(old(files.repo.rows), files.repo.rows,
                         TasksOf(old(tasks.repo.store), user))
      ensures forall h :: h in users.repo.sessions ==>
                h in old(users.repo.sessions)
                && users.repo.sessions[h] == old(users.repo.sessions)[h]
      ensures forall h :: h in old(users.repo.sessions) && old(users.repo.sessions)[h].user != user ==>
                h in users.repo.sessions
      ensures forall id :: id in tasks.repo.store ==>
                id in old(tasks.repo.store) && tasks.repo.store[id] == old(tasks.repo.store)[id]
      ensures forall id :: id in files.repo.rows ==>
                id in old(files.repo.rows) && files.repo.rows[id] == old(files.repo.rows)[id]
      ensures BlobsFollow(old(files.repo.rows), files.repo.rows,
                          old(files.store.blobs), files.store.blobs)
      ensures Files.Evolves(old(files.repo.rows), old(files.store.blobs),
                            files.repo.rows, files.store.blobs, {})
    {
      error := users.VerifyPassword(user, password, f.verifyFails);
      if error.Some? {
        return;
      }
      var failed := DeleteAccountCascade(user, f);
      FollowingEvolves(old(files.repo.rows), files.repo.rows, old(files.store.blobs),
                       files.store.blobs, TasksOf(old(tasks.repo.store), user));
      if failed {
        return Some(Users.StoreFailed);
      }
      error := users.DeleteAccount(user, f.sessionsFail, f.userFails);
    }
  }

  predicate Knows(usersByID: map<UserId, UserStore.User>, user: UserId, password: UserStore.Password) {
    user in usersByID && usersByID[user].password == password
  }

  function TasksOfOthers(tasks: TaskModel.Tasks, user: UserId): TaskModel.Tasks {
    map id | id in tasks && tasks[id].user != user :: tasks[id]
  }

  ghost predicate OnlyTasksOf(before: TaskModel.Tasks, after: TaskModel.Tasks, user: UserId) {
    && (forall id :: id in after ==> id in before && after[id] == before[id])
    && (forall id :: id in before && before[id].user != user ==> id in after)
  }

  function IdsOf(found: seq<TaskModel.Task>): set<TaskId> {
    set t | t in found :: t.id
  }

  /** found is every task of user, each once. */
  ghost predicate AreListed(tasks: TaskModel.Tasks, user: UserId, found: seq<TaskModel.Task>) {
    && (forall i, j :: 0 <= i < j < |found| ==> found[i].id != found[j].id)
    && (forall i :: 0 <= i < |found| ==> TaskModel.Owned(tasks, found[i].id, user))
    && IdsOf(found) == TasksOf(tasks, user)
  }

  lemma TasksListed(tasks: TaskModel.Tasks, user: UserId, found: seq<TaskModel.Task>)
    requires TaskQuery.Keyed(tasks)
    requires found == TaskQuery.Paginate(TaskQuery.Listing(tasks, TaskQuery.Filter(user, [], [])), -1, 0)
    ensures AreListed(tasks, user, found)
  {
    ListingOf(tasks, user, found);
    forall i | 0 <= i < |found| ensures TaskModel.Owned(tasks, found[i].id, user) {
      assert found[i] in found;
    }
    forall i, j | 0 <= i < j < |found| ensures found[i].id != found[j].id {
      assert found[i] in found && found[j] in found;
    }
    forall id | id in TasksOf(tasks, user) ensures id in IdsOf(found) {
      assert tasks[id] in found;
    }
  }

  lemma ListingOf(tasks: TaskModel.Tasks, user: UserId, found: seq<TaskModel.Task>)
    requires TaskQuery.Keyed(tasks)
    requires found == TaskQuery.Paginate(TaskQuery.Listing(tasks, TaskQuery.Filter(user, [], [])), -1, 0)
    ensures forall i, j :: 0 <= i < j < |found| ==> found[i] != found[j]
    ensures forall t :: t in found <==> t.id in tasks && tasks[t.id] == t && t.user == user
  {
    var all := TaskQuery.Filter(user, [], []);
    assert found == TaskQuery.Listing(tasks, all);
    OnceEach(found, TaskQuery.Selected(tasks, all));
    forall t ensures t in found <==> t.id in tasks && tasks[t.id] == t && t.user == user {
      TaskQuery.SelectedById(tasks, all, t);
    }
  }

  lemma SomeDeleted(
    tasks: TaskModel.Tasks, user: UserId, found: seq<TaskModel.Task>, i: nat)
    requires AreListed(tasks, user, found) && i <= |found|
    ensures OnlyTasksOf(tasks, tasks - IdsOf(found[..i]), user)
    ensures i == |found| ==> tasks - IdsOf(found[..i]) == TasksOfOthers(tasks, user)
  {
    forall t | t in found[..i] ensures t.id in TasksOf(tasks, user) {
      assert t in found;
    }
    if i == |found| { assert found[..i] == found; }
  }

  lemma NextTask(
    tasks: TaskModel.Tasks, user: UserId, rows: Rows, found: seq<TaskModel.Task>, i: nat)
    requires i < |found| && AreListed(tasks, user, found)
    ensures TaskModel.Owned(tasks - IdsOf(found[..i]), found[i].id, user)
    ensures IdsOf(found[..i + 1]) == IdsOf(found[..i]) + {found[i].id}
    ensures IdsOf(found[..i + 1]) <= TasksOf(tasks, user)
    ensures tasks - IdsOf(found[..i]) - {found[i].id} == tasks - IdsOf(found[..i + 1])
    ensures RowsOutside(RowsOutside(rows, IdsOf(found[..i])), {found[i].id})
            == RowsOutside(rows, IdsOf(found[..i + 1]))
  {
  }

  lemma FollowingEvolves(before: Rows, after: Rows, blobs: Blobs, left: Blobs, mine: set<TaskId>)
    requires OnlyRowsOf(before, after, mine) && BlobsFollow(before, after, blobs, left)
    ensures Files.Evolves(before, blobs, after, left, {})
  {
  }

  /**
   A blob the deletion left behind, however many other calls came since: states begins with what
   DeleteAccount left, each later call evolved it, and no storage key is generated twice. No row
   has the key, the blob kept its age, and a clean CollectOrphans leaves it exactly while it is
   not older than minAge, Collected being what that pass leaves.
   */
  lemma LeftBehindIsCollected(
    before: Rows, mine: set<TaskId>, id: AttachmentId, states: seq<Files.Stores>,
    generated: seq<set<Key>>, now: Time, minAge: int)
    requires WellKept(before) && id in before && before[id].task in mine
    requires Files.Evolution(states, generated) && states[0].rows == RowsOutside(before, mine)
    requires forall i :: 0 <= i < |generated| ==> before[id].key !in generated[i]
    ensures var key, first, last := before[id].key, states[0], states[|generated|];
            && key !in KeysOf(last.rows)
            && (key in last.blobs ==> key in first.blobs && last.blobs[key] == first.blobs[key])
            && (key in Files.Collected(last.rows, last.blobs, now - minAge) <==>
                  key in last.blobs && first.blobs[key].modTime >= now - minAge)
  {
    assert before[id].key !in KeysOf(states[0].rows);
    Files.UnreferencedStays(states, generated, before[id].key);
  }
}

/** The in-memory task repository. */
module TaskRepository {
  import opened Collections
  import opened Sorting
  import opened TaskModel
  import opened TaskQuery

  method MatchesAny<T(==)>(value: T, wanted: seq<T>) returns (found: bool)
    ensures found == WantedBy(value, wanted)
    ensures found <==> wanted == [] || value in wanted
  {
    if |wanted| == 0 {
      return true;
    }
    for i := 0 to |wanted|
      invariant value !in wanted[..i]
    {
      if value == wanted[i] {
        return true;
      }
    }
    return false;
  }

  /** counts has every status, also those no task has. */
  ghost predicate CountsStatuses(counts: map<Status, nat>, tasks: set<Task>) {
    forall s :: s in counts && counts[s] == |WithStatus(tasks, s)|
  }

  ghost predicate CountsPriorities(counts: map<Priority, nat>, tasks: set<Task>) {
    forall p :: p in counts && counts[p] == |WithPriority(tasks, p)|
  }

  /** One more task of the store has been visited. */
  lemma Visited(store: Tasks, todo: set<TaskId>, id: TaskId, f: Filter)
    requires Keyed(store) && id in store && id in todo
    ensures var seen, more := Selected(store - todo, f), Selected(store - (todo - {id}), f);
            && store[id] !in seen
            && more == if Matches(f, store[id]) then seen + {store[id]} else seen
  {
    var before, after := store - todo, store - (todo - {id});
    assert after == before[id := store[id]];
    forall t ensures t in Selected(after, f) <==>
                     t in Selected(before, f) || (t == store[id] && Matches(f, t))
    {
      SelectedById(before, f, t);
      SelectedById(after, f, t);
    }
    SelectedById(before, f, store[id]);
  }

  lemma NothingVisited(store: Tasks, f: Filter)
    ensures Selected(store - store.Keys, f) == {}
  {
  }

  lemma CountGrows(
    tasks: set<Task>, t: Task, byStatus: map<Status, nat>, byPriority: map<Priority, nat>)
    requires t !in tasks
    requires CountsStatuses(byStatus, tasks) && CountsPriorities(byPriority, tasks)
    ensures CountsStatuses(byStatus[t.status := byStatus[t.status] + 1], tasks + {t})
    ensures CountsPriorities(byPriority[t.priority := byPriority[t.priority] + 1], tasks + {t})
  {
    forall s ensures |WithStatus(tasks + {t}, s)|
                     == |WithStatus(tasks, s)| + if t.status == s then 1 else 0
    {
      StatusGrows(tasks, t, s);
    }
    forall p ensures |WithPriority(tasks + {t}, p)|
                     == |WithPriority(tasks, p)| + if t.priority == p then 1 else 0
    {
      PriorityGrows(tasks, t, p);
    }
  }

  lemma {:induction false} SortGivesListing(tasks: seq<Task>, store: Tasks, f: Filter)
    requires Keyed(store) && multiset(tasks) == multiset(Selected(store, f))
    ensures Sort(tasks, Before) == Listing(store, f)
  {
    SortSorts(tasks, Before);
    ListingIsUnique(Sort(tasks, Before), store, f);
  }

  lemma NothingCounted(byStatus: map<Status, nat>, byPriority: map<Priority, nat>)
    requires byStatus == map[Pending := 0, InProgress := 0, Done := 0, Cancelled := 0]
    requires byPriority == map[Low := 0, Medium := 0, High := 0]
    ensures CountsStatuses(byStatus, {}) && CountsPriorities(byPriority, {})
  {
    forall s ensures s in byStatus && byStatus[s] == 0 {
      assert s == Pending || s == InProgress || s == Done || s == Cancelled;
    }
    forall p ensures p in byPriority && byPriority[p] == 0 {
      assert p == Low || p == Medium || p == High;
    }
    assert forall s :: WithStatus({}, s) == {};
    assert forall p :: WithPriority({}, p) == {};
  }

  class Repository {
    var store: Tasks

    constructor ()
      ensures store == map[]
    {
      store := map[];
    }

    method Create(task: Task) returns (error: Option<Error>)
      modifies this
      ensures error == if task.id in old(store) then Some(AlreadyExists) else None
      ensures store == if error.Some? then old(store)
                       else old(store)[task.id := task.(version := 1)]
      ensures old(Keyed(store)) ==> Keyed(store)
    {
      if task.id in store {
        return Some(AlreadyExists);
      }
      store := store[task.id := task.(version := 1)];
      return None;
    }

    method FindByID(id: TaskId, user: UserId) returns (task: Option<Task>)
      ensures task == if id in store && store[id].user == user then Some(store[id]) else None
    {
      if id !in store || store[id].user != user {
        return None;
      }
      return Some(store[id]);
    }

    method Update(task: Task) returns (error: Option<Error>)
      modifies this
      ensures error == Refusal(old(store), task)
      // A task that is gone, or another's, is not found, whatever version the caller read.
      ensures error == Some(NotFound) <==>
                !(task.id in old(store) && old(store)[task.id].user == task.user)
      ensures error == Some(Conflict) <==>
                && task.id in old(store) && old(store)[task.id].user == task.user
                && old(store)[task.id].version != task.version
      ensures error.None? || error == Some(NotFound) || error == Some(Conflict)
      ensures error.Some? ==> store == old(store)
      ensures error.None? ==>
                store == old(store)[task.id :=
                  Task(task.id, task.user, task.title, task.description, task.status, task.priority,
                       old(store)[task.id].createdAt, task.updatedAt, task.version + 1)]
      ensures old(Keyed(store)) ==> Keyed(store)
    {
      if task.id !in store || store[task.id].user != task.user {
        return Some(NotFound);
      }
      var stored := store[task.id];
      if task.version != stored.version {
        return Some(Conflict);
      }
      store := store[task.id := task.(createdAt := stored.createdAt, version := stored.version + 1)];
      return None;
    }

    method Delete(id: TaskId, user: UserId) returns (error: Option<Error>)
      modifies this
      ensures error == if id in old(store) && old(store)[id].user == user then None
                       else Some(NotFound)
      ensures store == if error.Some? then old(store) else old(store) - {id}
      ensures old(Keyed(store)) ==> Keyed(store)
    {
      if id !in store || store[id].user != user {
        return Some(NotFound);
      }
      store := store - {id};
      return None;
    }

    method FindAll(f: Filter, limit: int, offset: nat) returns (rows: seq<Task>)
      requires Keyed(store)
      ensures rows == Paginate(Listing(store, f), limit, offset)
    {
      var tasks: seq<Task> := [];
      var todo := store.Keys;
      NothingVisited(store, f);
      while todo != {}
        invariant todo <= store.Keys
        invariant multiset(tasks) == multiset(Selected(store - todo, f))
        decreases |todo|
      {
        var id :| id in todo;
        Visited(store, todo, id, f);
        todo := todo - {id};
        if store[id].user != f.user {
          continue;
        }
        var statusWanted := MatchesAny(store[id].status, f.statuses);
        if !statusWanted {
          continue;
        }
        var priorityWanted := MatchesAny(store[id].priority, f.priorities);
        if !priorityWanted {
          continue;
        }
        tasks := tasks + [store[id]];
      }
      assert store - todo == store;
      var sorted := Sort(tasks, Before);
      SortGivesListing(tasks, store, f);
      return Paginate(sorted, limit, offset);
    }

    method CountAll(f: Filter) returns (count: nat)
      requires Keyed(store)
      ensures count == |Listing(store, f)|
    {
      count := 0;
      var todo := store.Keys;
      NothingVisited(store, f);
      while todo != {}
        invariant todo <= store.Keys
        invariant count == |Selected(store - todo, f)|
        decreases |todo|
      {
        var id :| id in todo;
        Visited(store, todo, id, f);
        todo := todo - {id};
        if store[id].user != f.user {
          continue;
        }
        var statusWanted := MatchesAny(store[id].status, f.statuses);
        if !statusWanted {
          continue;
        }
        var priorityWanted := MatchesAny(store[id].priority, f.priorities);
        if !priorityWanted {
          continue;
        }
        count := count + 1;
      }
      assert store - todo == store;
    }

    method CountByStatusAndPriority(f: Filter)
      returns (byStatus: map<Status, nat>, byPriority: map<Priority, nat>)
      requires Keyed(store)
      ensures CountsStatuses(byStatus, Selected(store, f))
      ensures CountsPriorities(byPriority, Selected(store, f))
      ensures forall s :: s in byStatus
                && byStatus[s] == |set t | t in Selected(store, f) && t.status == s|
      ensures forall p :: p in byPriority
                && byPriority[p] == |set t | t in Selected(store, f) && t.priority == p|
    {
      byStatus := map[Pending := 0, InProgress := 0, Done := 0, Cancelled := 0];
      byPriority := map[Low := 0, Medium := 0, High := 0];
      var todo := store.Keys;
      NothingVisited(store, f);
      NothingCounted(byStatus, byPriority);
      while todo != {}
        invariant todo <= store.Keys
        invariant CountsStatuses(byStatus, Selected(store - todo, f))
        invariant CountsPriorities(byPriority, Selected(store - todo, f))
        decreases |todo|
      {
        var id :| id in todo;
        Visited(store, todo, id, f);
        ghost var seen := Selected(store - todo, f);
        todo := todo - {id};
        if store[id].user != f.user {
          continue;
        }
        var statusWanted := MatchesAny(store[id].status, f.statuses);
        if !statusWanted {
          continue;
        }
        var priorityWanted := MatchesAny(store[id].priority, f.priorities);
        if !priorityWanted {
          continue;
        }
        CountGrows(seen, store[id], byStatus, byPriority);
        byStatus := byStatus[store[id].status := byStatus[store[id].status] + 1];
        byPriority := byPriority[store[id].priority := byPriority[store[id].priority] + 1];
      }
      assert store - todo == store;
    }
  }
}

/** The task service over one repository, one call at a time. */
module TaskService {
  import opened Collections
  import opened TaskModel
  import opened TaskQuery
  import opened TaskRepository

  const MAX_FILTER_VALUES := 50
  const MAX_EXPORT_ROWS := 10_000

  lemma {:induction false} SizeWithoutRepeats<T>(s: seq<T>)
    requires Distinct(s)
    ensures |set x | x in s| == |s|
  {
    if s != [] {
      var last := |s| - 1;
      SizeWithoutRepeats(s[..last]);
      assert s == s[..last] + [s[last]];
      assert (set x | x in s) == (set x | x in s[..last]) + {s[last]};
    }
  }

  /** However often values are repeated, at most four statuses and three priorities reach a query. */
  lemma FiltersAreBounded(statuses: seq<Status>, priorities: seq<Priority>)
    requires Distinct(statuses) && Distinct(priorities)
    ensures |statuses| <= 4 && |priorities| <= 3
  {
    SizeWithoutRepeats(statuses);
    SizeWithoutRepeats(priorities);
    forall s | s in statuses ensures s in {Pending, InProgress, Done, Cancelled} {
      assert s == Pending || s == InProgress || s == Done || s == Cancelled;
    }
    forall p | p in priorities ensures p in {Low, Medium, High} {
      assert p == Low || p == Medium || p == High;
    }
    SubsetSize(set s | s in statuses, {Pending, InProgress, Done, Cancelled});
    SubsetSize(set p | p in priorities, {Low, Medium, High});
  }

  method ValidateStatusFilters(raw: seq<string>) returns (r: Result<seq<Status>>)
    ensures r.Ok? <==> |raw| <= 50
                       && forall v :: v in raw ==>
                            v in {"", "pending", "in_progress", "done", "cancelled"}
    ensures r.Err? ==> r.error == InvalidInput
    ensures r.Ok? ==> && Distinct(r.value)
                      && (Pending in r.value <==> "pending" in raw)
                      && (InProgress in r.value <==> "in_progress" in raw)
                      && (Done in r.value <==> "done" in raw)
                      && (Cancelled in r.value <==> "cancelled" in raw)
  {
    if |raw| > MAX_FILTER_VALUES {
      return Err(InvalidInput);
    }
    var out: seq<Status> := [];
    var seen: set<Status> := {};
    for i := 0 to |raw|
      invariant forall v :: v in raw[..i] ==> v in {"", "pending", "in_progress", "done", "cancelled"}
      invariant forall s :: s in out <==> s in seen
      invariant forall s :: s in out <==> StatusName(s) in raw[..i]
      invariant Distinct(out)
    {
      assert raw[..i + 1] == raw[..i] + [raw[i]];
      if raw[i] == "" {
        continue;
      }
      var s := ParseStatus(raw[i]);
      if s.None? {
        assert raw[i] in raw;
        return Err(InvalidInput);
      }
      forall t ensures StatusName(t) == raw[i] <==> t == s.value {
      }
      if s.value in seen {
        continue;
      }
      seen := seen + {s.value};
      out := out + [s.value];
    }
    assert raw[..|raw|] == raw;
    return Ok(out);
  }

  method ValidatePriorityFilters(raw: seq<string>) returns (r: Result<seq<Priority>>)
    ensures r.Ok? <==> |raw| <= 50 && forall v :: v in raw ==> v in {"", "low", "medium", "high"}
    ensures r.Err? ==> r.error == InvalidInput
    ensures r.Ok? ==> && Distinct(r.value)
                      && (Low in r.value <==> "low" in raw)
                      && (Medium in r.value <==> "medium" in raw)
                      && (High in r.value <==> "high" in raw)
  {
    if |raw| > MAX_FILTER_VALUES {
      return Err(InvalidInput);
    }
    var out: seq<Priority> := [];
    var seen: set<Priority> := {};
    for i := 0 to |raw|
      invariant forall v :: v in raw[..i] ==> v in {"", "low", "medium", "high"}
      invariant forall p :: p in out <==> p in seen
      invariant forall p :: p in out <==> PriorityName(p) in raw[..i]
      invariant Distinct(out)
    {
      assert raw[..i + 1] == raw[..i] + [raw[i]];
      if raw[i] == "" {
        continue;
      }
      var p := ParsePriority(raw[i]);
      if p.None? {
        assert raw[i] in raw;
        return Err(InvalidInput);
      }
      forall q ensures PriorityName(q) == raw[i] <==> q == p.value {
      }
      if p.value in seen {
        continue;
      }
      seen := seen + {p.value};
      out := out + [p.value];
    }
    assert raw[..|raw|] == raw;
    return Ok(out);
  }

  datatype TaskStats = TaskStats(
    total: nat, byStatus: map<Status, nat>, byPriority: map<Priority, nat>)

  ghost predicate ValidFilters(statuses: seq<string>, priorities: seq<string>) {
    && |statuses| <= 50 && |priorities| <= 50
    && (forall v :: v in statuses ==> v in {"", "pending", "in_progress", "done", "cancelled"})
    && (forall v :: v in priorities ==> v in {"", "low", "medium", "high"})
  }

  /** f is the filter the raw values ask for. */
  ghost predicate AskedFor(f: Filter, user: UserId, statuses: seq<string>, priorities: seq<string>) {
    && f.user == user
    && (Pending in f.statuses <==> "pending" in statuses)
    && (InProgress in f.statuses <==> "in_progress" in statuses)
    && (Done in f.statuses <==> "done" in statuses)
    && (Cancelled in f.statuses <==> "cancelled" in statuses)
    && (Low in f.priorities <==> "low" in priorities)
    && (Medium in f.priorities <==> "medium" in priorities)
    && (High in f.priorities <==> "high" in priorities)
  }

  function Only(counts: map<Status, nat>, keys: set<Status>): map<Status, nat> {
    counts - (counts.Keys - keys)
  }

  ghost function SumByStatus(counts: map<Status, nat>): nat
    requires forall s :: s in counts
  {
    counts[Pending] + counts[InProgress] + counts[Done] + counts[Cancelled]
  }

  lemma SumOfAll(counts: map<Status, nat>)
    requires forall s :: s in counts
    ensures Total(counts) == SumByStatus(counts)
    ensures Only(counts, {}) == map[]
  {
    TotalSplit(counts, Pending);
    TotalSplit(counts - {Pending}, InProgress);
    TotalSplit(counts - {Pending} - {InProgress}, Done);
    TotalSplit(counts - {Pending} - {InProgress} - {Done}, Cancelled);
    var none := counts - {Pending} - {InProgress} - {Done} - {Cancelled};
    forall s ensures s !in none {
      assert s == Pending || s == InProgress || s == Done || s == Cancelled;
    }
  }

  method SumCounts(counts: map<Status, nat>) returns (total: nat)
    requires forall s :: s in counts
    ensures total == SumByStatus(counts)
  {
    total := 0;
    var todo := counts.Keys;
    SumOfAll(counts);
    assert Only(counts, todo) == counts;
    while todo != {}
      invariant todo <= counts.Keys
      invariant total + Total(Only(counts, todo)) == SumByStatus(counts)
      decreases |todo|
    {
      var k :| k in todo;
      TotalSplit(Only(counts, todo), k);
      assert Only(counts, todo) - {k} == Only(counts, todo - {k});
      todo := todo - {k};
      total := total + counts[k];
    }
  }

  /** All filters the raw values can be read as select what g selects. */
  lemma SameForEveryReading(
    store: Tasks, g: Filter, statuses: seq<string>, priorities: seq<string>)
    requires AskedFor(g, g.user, statuses, priorities)
    ensures forall f :: AskedFor(f, g.user, statuses, priorities) ==>
              Selected(store, f) == Selected(store, g) && Listing(store, f) == Listing(store, g)
  {
    forall f | AskedFor(f, g.user, statuses, priorities)
      ensures Selected(store, f) == Selected(store, g) && Listing(store, f) == Listing(store, g)
    {
      forall s ensures s in f.statuses <==> s in g.statuses {
        assert s == Pending || s == InProgress || s == Done || s == Cancelled;
      }
      forall p ensures p in f.priorities <==> p in g.priorities {
        assert p == Low || p == Medium || p == High;
      }
      FilterIsASet(store, f, g);
    }
  }

  class Service {
    const repo: Repository

    constructor (repo: Repository)
      ensures this.repo == repo
    {
      this.repo := repo;
    }

    /** id is a fresh random identifier; textOk is the verdict on title and description. */
    method CreateTask(
      user: UserId, id: TaskId, title: Text, description: Text, textOk: bool, priority: string,
      now: Time) returns (r: Result<Task>)
      requires Keyed(repo.store)
      modifies repo
      ensures Keyed(repo.store)
      ensures r.Ok? <==> textOk && priority in {"", "low", "medium", "high"} && id !in old(repo.store)
      ensures r.Err? ==> repo.store == old(repo.store)
      ensures r == Err(AlreadyExists) <==>
                textOk && priority in {"", "low", "medium", "high"} && id in old(repo.store)
      ensures r.Err? ==> r.error in {AlreadyExists, InvalidInput}
      ensures r.Ok? ==>
                && repo.store == old(repo.store)[id := r.value.(version := 1)]
                && r.value.title == title && r.value.description == description
                && r.value.id == id && r.value.user == user && r.value.status == Pending
                && r.value.priority == (if priority == "low" then Low
                                        else if priority == "high" then High else Medium)
                && r.value.createdAt == r.value.updatedAt == now
                // The task handed back still carries version 0.
                && Refusal(repo.store, r.value) == Some(Conflict)
    {
      if !textOk {
        return Err(InvalidInput);
      }
      var p := if priority == "" then Some(Medium) else ParsePriority(priority);
      if p.None? {
        return Err(InvalidInput);
      }
      var task := Task(id, user, title, description, Pending, p.value, now, now, 0);
      var error := repo.Create(task);
      if error.Some? {
        return Err(error.value);
      }
      return Ok(task);
    }

    /**
     The task returned carries the version it was read with, not the one it was stored with, so
     handing it to Update again is refused.
     */
    method UpdateTask(
      user: UserId, id: TaskId, title: Text, description: Text, textOk: bool, priority: string,
      now: Time) returns (r: Result<Task>)
      requires Keyed(repo.store)
      modifies repo
      ensures Keyed(repo.store)
      ensures r.Ok? <==> textOk && id in old(repo.store) && old(repo.store)[id].user == user
                         && priority in {"", "low", "medium", "high"}
      ensures r == Err(NotFound) <==>
                textOk && !(id in old(repo.store) && old(repo.store)[id].user == user)
      ensures r.Err? ==> repo.store == old(repo.store) && r.error in {NotFound, InvalidInput}
      ensures r.Ok? ==>
                var before := old(repo.store)[id];
                var p := if priority == "low" then Low
                         else if priority == "medium" then Medium
                         else if priority == "high" then High else before.priority;
                && r.value == Task(id, user, title, description, before.status, p,
                                   before.createdAt, now, before.version)
                && repo.store == old(repo.store)[id :=
                     Task(id, user, title, description, before.status, p,
                          before.createdAt, now, before.version + 1)]
                && Refusal(repo.store, r.value) == Some(Conflict)
    {
      if !textOk {
        return Err(InvalidInput);
      }
      var found := repo.FindByID(id, user);
      if found.None? {
        return Err(NotFound);
      }
      var task := found.value;
      var p := if priority == "" then Some(task.priority) else ParsePriority(priority);
      if p.None? {
        return Err(InvalidInput);
      }
      task := task.(title := title, description := description, priority := p.value,
                    updatedAt := now);
      var error := repo.Update(task);
      return match error case None => Ok(task) case Some(e) => Err(e);
    }

    method TransitionStatus(user: UserId, id: TaskId, target: string, now: Time)
      returns (r: Result<Task>)
      requires Keyed(repo.store)
      modifies repo
      ensures Keyed(repo.store)
      ensures r == Err(InvalidInput) <==> target !in {"pending", "in_progress", "done", "cancelled"}
      ensures r == Err(NotFound) <==>
                && target in {"pending", "in_progress", "done", "cancelled"}
                && !(id in old(repo.store) && old(repo.store)[id].user == user)
      // The nine moves, and asking for the current status, which writes nothing.
      ensures r.Ok? <==>
                && id in old(repo.store) && old(repo.store)[id].user == user
                && match old(repo.store)[id].status
                   case Pending => target in {"pending", "in_progress", "done", "cancelled"}
                   case InProgress => target in {"in_progress", "pending", "done", "cancelled"}
                   case Done => target in {"done", "pending", "in_progress"}
                   case Cancelled => target in {"cancelled", "pending"}
      ensures r.Err? ==> repo.store == old(repo.store)
                         && r.error in {InvalidInput, NotFound, InvalidTransition}
      ensures r.Ok? ==>
                var before := old(repo.store)[id];
                && (target == "pending" ==> r.value.status == Pending)
                && (target == "in_progress" ==> r.value.status == InProgress)
                && (target == "done" ==> r.value.status == Done)
                && (target == "cancelled" ==> r.value.status == Cancelled)
                && (r.value.status == before.status ==>
                      r.value == before && repo.store == old(repo.store))
                && (r.value.status != before.status ==>
                      && r.value == Task(id, user, before.title, before.description,
                                         r.value.status, before.priority, before.createdAt, now,
                                         before.version)
                      && repo.store
                         == old(repo.store)[id := r.value.(version := before.version + 1)])
      // Only the no-op hands back a task Update would take again.
      ensures r.Ok? ==> (Refusal(repo.store, r.value).None? <==>
                           r.value.status == old(repo.store)[id].status)
      ensures r.Ok? && r.value.status != old(repo.store)[id].status ==>
                Refusal(repo.store, r.value) == Some(Conflict)
    {
      var to := ParseStatus(target);
      if to.None? {
        return Err(InvalidInput);
      }
      var found := repo.FindByID(id, user);
      if found.None? {
        return Err(NotFound);
      }
      var task := found.value;
      if task.status == to.value {
        return Ok(task);
      }
      if to.value !in LegalTargets(task.status) {
        return Err(InvalidTransition);
      }
      task := task.(status := to.value, updatedAt := now);
      var error := repo.Update(task);
      return match error case None => Ok(task) case Some(e) => Err(e);
    }

    method DeleteTask(user: UserId, id: TaskId) returns (error: Option<Error>)
      modifies repo
      ensures error == if id in old(repo.store) && old(repo.store)[id].user == user then None
                       else Some(NotFound)
      ensures repo.store == if error.Some? then old(repo.store) else old(repo.store) - {id}
      ensures old(Keyed(repo.store)) ==> Keyed(repo.store)
    {
      error := repo.Delete(id, user);
    }

    /** The page, and how many tasks match beyond it. */
    method ListTasks(
      user: UserId, limit: int, offset: nat, statuses: seq<string>, priorities: seq<string>)
      returns (r: Result<(seq<Task>, nat)>)
      requires Keyed(repo.store)
      ensures r.Ok? <==> ValidFilters(statuses, priorities)
      ensures r.Err? ==> r.error == InvalidInput
      ensures r.Ok? ==> forall f :: AskedFor(f, user, statuses, priorities) ==>
                r.value == (Paginate(Listing(repo.store, f), limit, offset),
                            |Listing(repo.store, f)|)
    {
      var s := ValidateStatusFilters(statuses);
      if s.Err? {
        return Err(s.error);
      }
      var p := ValidatePriorityFilters(priorities);
      if p.Err? {
        return Err(p.error);
      }
      var g := Filter(user, s.value, p.value);
      SameForEveryReading(repo.store, g, statuses, priorities);
      var tasks := repo.FindAll(g, limit, offset);
      var total := repo.CountAll(g);
      return Ok((tasks, total));
    }

    /** Total agrees with the listing and with both groupings. */
    method GetStats(user: UserId, statuses: seq<string>, priorities: seq<string>)
      returns (r: Result<TaskStats>)
      requires Keyed(repo.store)
      ensures r.Ok? <==> ValidFilters(statuses, priorities)
      ensures r.Err? ==> r.error == InvalidInput
      ensures r.Ok? ==> forall f :: AskedFor(f, user, statuses, priorities) ==>
                && r.value.total == |Listing(repo.store, f)|
                && (forall s :: s in r.value.byStatus
                      && r.value.byStatus[s] == |set t | t in Selected(repo.store, f) && t.status == s|)
                && (forall p :: p in r.value.byPriority
                      && r.value.byPriority[p]
                         == |set t | t in Selected(repo.store, f) && t.priority == p|)
                && r.value.byStatus[Pending] + r.value.byStatus[InProgress]
                   + r.value.byStatus[Done] + r.value.byStatus[Cancelled] == r.value.total
                && r.value.byPriority[Low] + r.value.byPriority[Medium] + r.value.byPriority[High]
                   == r.value.total
    {
      var s := ValidateStatusFilters(statuses);
      if s.Err? {
        return Err(s.error);
      }
      var p := ValidatePriorityFilters(priorities);
      if p.Err? {
        return Err(p.error);
      }
      var g := Filter(user, s.value, p.value);
      SameForEveryReading(repo.store, g, statuses, priorities);
      var byStatus, byPriority := repo.CountByStatusAndPriority(g);
      GroupsAddUp(repo.store, g);
      var total := SumCounts(byStatus);
      return Ok(TaskStats(total, byStatus, byPriority));
    }

    /** Everything that matches, or nothing at all past the row limit. */
    method ExportTasks(user: UserId, statuses: seq<string>, priorities: seq<string>)
      returns (r: Result<seq<Task>>)
      requires Keyed(repo.store)
      ensures r.Err? ==> r.error == InvalidInput
      ensures r.Ok? ==> ValidFilters(statuses, priorities)
      ensures ValidFilters(statuses, priorities) ==>
                forall f :: AskedFor(f, user, statuses, priorities) ==>
                  r == if |Listing(repo.store, f)| <= 10_000
                       then Ok(Listing(repo.store, f)) else Err(InvalidInput)
    {
      var s := ValidateStatusFilters(statuses);
      if s.Err? {
        return Err(s.error);
      }
      var p := ValidatePriorityFilters(priorities);
      if p.Err? {
        return Err(p.error);
      }
      var g := Filter(user, s.value, p.value);
      SameForEveryReading(repo.store, g, statuses, priorities);
      var total := repo.CountAll(g);
      if total > MAX_EXPORT_ROWS {
        return Err(InvalidInput);
      }
      var tasks := repo.FindAll(g, -1, 0);
      return Ok(tasks);
    }
  }
}

/** What listing, paging and counting a user's tasks mean, whichever store answers. */
module TaskQuery {
  import opened Collections
  import opened Sorting
  import opened TaskModel

  datatype Filter = Filter(user: UserId, statuses: seq<Status>, priorities: seq<Priority>)

  /** Wanting nothing in particular is no filter. */
  predicate WantedBy<T(==)>(value: T, wanted: seq<T>) {
    wanted == [] || value in wanted
  }

  predicate Matches(f: Filter, t: Task) {
    t.user == f.user && WantedBy(t.status, f.statuses) && WantedBy(t.priority, f.priorities)
  }

  function Selected(store: Tasks, f: Filter): set<Task> {
    set id | id in store && Matches(f, store[id]) :: store[id]
  }

  ghost predicate Keyed(store: Tasks) {
    forall id :: id in store ==> store[id].id == id
  }

  /** ORDER BY created_at, id. */
  predicate Before(a: Task, b: Task) {
    a.createdAt < b.createdAt || (a.createdAt == b.createdAt && a.id <= b.id)
  }

  /** rows holds every selected task once, in order. */
  ghost predicate IsListing(rows: seq<Task>, store: Tasks, f: Filter) {
    multiset(rows) == multiset(Selected(store, f)) && Sorted(rows, Before)
  }

  ghost function Listing(store: Tasks, f: Filter): (rows: seq<Task>)
    ensures IsListing(rows, store, f)
  {
    var rows := SeqOf(Selected(store, f));
    SortSorts(rows, Before);
    Sort(rows, Before)
  }

  lemma SelectedById(store: Tasks, f: Filter, t: Task)
    requires Keyed(store)
    ensures t in Selected(store, f) <==> t.id in store && store[t.id] == t && Matches(f, t)
  {
  }

  lemma NoTiesInListing(rows: seq<Task>, store: Tasks, f: Filter)
    requires Keyed(store) && multiset(rows) == multiset(Selected(store, f))
    ensures NoTies(rows, Before)
  {
    forall a, b | a in rows && b in rows && Before(a, b) && Before(b, a) ensures a == b {
      assert a in multiset(rows) && b in multiset(rows);
      SelectedById(store, f, a);
      SelectedById(store, f, b);
    }
  }

  /** There is one listing, so the order in which a store visits its tasks cannot show. */
  lemma ListingIsUnique(rows: seq<Task>, store: Tasks, f: Filter)
    requires Keyed(store) && IsListing(rows, store, f)
    ensures rows == Listing(store, f)
  {
    NoTiesInListing(rows, store, f);
    SortedUnique(rows, Listing(store, f), Before);
  }

  lemma ListingSize(store: Tasks, f: Filter)
    ensures |Listing(store, f)| == |Selected(store, f)|
  {
  }

  /**
   The listing row by row: oldest first and by ID among those of one instant, everything the user
   owns that has a wanted status and a wanted priority, and nothing else.
   */
  lemma ListingIs(store: Tasks, f: Filter)
    requires Keyed(store)
    ensures var rows := Listing(store, f);
            && (forall i, j :: 0 <= i < j < |rows| ==>
                  rows[i].createdAt < rows[j].createdAt
                  || (rows[i].createdAt == rows[j].createdAt && rows[i].id < rows[j].id))
            && (forall t :: t in rows <==>
                  && t.id in store && store[t.id] == t && t.user == f.user
                  && (f.statuses == [] || t.status in f.statuses)
                  && (f.priorities == [] || t.priority in f.priorities))
  {
    var rows := Listing(store, f);
    OnceEach(rows, Selected(store, f));
    forall t ensures t in rows <==> t.id in store && store[t.id] == t && Matches(f, t) {
      SelectedById(store, f, t);
    }
    forall i, j | 0 <= i < j < |rows|
      ensures rows[i].createdAt < rows[j].createdAt
              || (rows[i].createdAt == rows[j].createdAt && rows[i].id < rows[j].id)
    {
      assert rows[i] in rows && rows[j] in rows && Before(rows[i], rows[j]);
    }
  }

  // ---------- Windows ----------

  /** A negative limit is no limit. */
  function Paginate(rows: seq<Task>, limit: int, offset: nat): seq<Task> {
    if offset >= |rows| then []
    else
      var rest := rows[offset..];
      if 0 <= limit < |rest| then rest[..limit] else rest
  }

  lemma PageRows(rows: seq<Task>, limit: int, offset: nat)
    ensures var page := Paginate(rows, limit, offset);
            && |page| == (if offset >= |rows| then 0
                          else if 0 <= limit < |rows| - offset then limit else |rows| - offset)
            && (forall i :: 0 <= i < |page| ==> page[i] == rows[offset + i])
  {
  }

  /** A page row by row. */
  lemma {:induction false} PageIs(store: Tasks, f: Filter, limit: int, offset: nat)
    requires Keyed(store)
    ensures var rows := Paginate(Listing(store, f), limit, offset);
            && (limit >= 0 ==> |rows| <= limit)
            && (forall i, j :: 0 <= i < j < |rows| ==>
                  rows[i].createdAt < rows[j].createdAt
                  || (rows[i].createdAt == rows[j].createdAt && rows[i].id < rows[j].id))
            && (forall i :: 0 <= i < |rows| ==>
                  && rows[i].id in store && store[rows[i].id] == rows[i] && rows[i].user == f.user
                  && (f.statuses == [] || rows[i].status in f.statuses)
                  && (f.priorities == [] || rows[i].priority in f.priorities))
            && (limit < 0 && offset == 0 ==> rows == Listing(store, f))
  {
    var all := Listing(store, f);
    ListingIs(store, f);
    PageRows(all, limit, offset);
    var rows := Paginate(all, limit, offset);
    forall i | 0 <= i < |rows| ensures rows[i] in all {
      assert rows[i] == all[offset + i];
    }
  }

  /** The first n pages of size limit, one after the other. */
  function Pages(rows: seq<Task>, limit: nat, n: nat): seq<Task> {
    if n == 0 then []
    else Pages(rows, limit, n - 1) + Paginate(rows, limit, (n - 1) * limit)
  }

  lemma {:induction false} PagesAre(rows: seq<Task>, limit: nat, n: nat)
    ensures Pages(rows, limit, n) == rows[..if n * limit <= |rows| then n * limit else |rows|]
  {
    if n > 0 {
      PagesAre(rows, limit, n - 1);
      var offset := (n - 1) * limit;
      assert n * limit == offset + limit;
      if offset < |rows| {
        var page := Paginate(rows, limit, offset);
        assert rows[..offset] + page == rows[..offset + |page|];
      }
    }
  }

  /** Paging at any size up to the first empty page misses and repeats no row. */
  lemma {:induction false} PagingIsComplete(rows: seq<Task>, limit: nat, n: nat)
    requires limit > 0
    ensures Paginate(rows, limit, n * limit) == [] <==> Pages(rows, limit, n) == rows
    ensures |rows| <= n ==> Pages(rows, limit, n) == rows
  {
    PagesAre(rows, limit, n);
    TimesAtLeast(n, limit);
    WindowEnds(rows, limit, n * limit);
  }

  lemma TimesAtLeast(n: nat, limit: nat)
    requires limit > 0
    ensures n * limit >= n
  {
  }

  lemma WindowEnds(rows: seq<Task>, limit: nat, offset: nat)
    requires limit > 0
    ensures Paginate(rows, limit, offset) == [] <==> |rows| <= offset
    ensures rows[..if offset <= |rows| then offset else |rows|] == rows <==> |rows| <= offset
  {
  }

  // ---------- Counts ----------

  function WithStatus(tasks: set<Task>, status: Status): set<Task> {
    set t | t in tasks && t.status == status
  }

  function WithPriority(tasks: set<Task>, priority: Priority): set<Task> {
    set t | t in tasks && t.priority == priority
  }

  /** Every task has one status and one priority, so both groupings add up to the list. */
  lemma GroupsAddUp(store: Tasks, f: Filter)
    ensures var tasks := Selected(store, f);
            && |WithStatus(tasks, Pending)| + |WithStatus(tasks, InProgress)|
               + |WithStatus(tasks, Done)| + |WithStatus(tasks, Cancelled)|
               == |Listing(store, f)|
            && |WithPriority(tasks, Low)| + |WithPriority(tasks, Medium)|
               + |WithPriority(tasks, High)| == |Listing(store, f)|
  {
    var tasks := Selected(store, f);
    ListingSize(store, f);
    StatusesPartition(tasks);
    PrioritiesPartition(tasks);
  }

  lemma StatusGrows(tasks: set<Task>, t: Task, status: Status)
    requires t !in tasks
    ensures |WithStatus(tasks + {t}, status)|
            == |WithStatus(tasks, status)| + if t.status == status then 1 else 0
  {
    assert WithStatus(tasks + {t}, status)
           == WithStatus(tasks, status) + if t.status == status then {t} else {};
  }

  lemma PriorityGrows(tasks: set<Task>, t: Task, priority: Priority)
    requires t !in tasks
    ensures |WithPriority(tasks + {t}, priority)|
            == |WithPriority(tasks, priority)| + if t.priority == priority then 1 else 0
  {
    assert WithPriority(tasks + {t}, priority)
           == WithPriority(tasks, priority) + if t.priority == priority then {t} else {};
  }

  lemma {:induction false} StatusesPartition(tasks: set<Task>)
    ensures |WithStatus(tasks, Pending)| + |WithStatus(tasks, InProgress)|
            + |WithStatus(tasks, Done)| + |WithStatus(tasks, Cancelled)| == |tasks|
  {
    if tasks != {} {
      var t :| t in tasks;
      var rest := tasks - {t};
      assert tasks == rest + {t};
      StatusesPartition(rest);
      StatusGrows(rest, t, Pending);
      StatusGrows(rest, t, InProgress);
      StatusGrows(rest, t, Done);
      StatusGrows(rest, t, Cancelled);
    }
  }

  lemma {:induction false} PrioritiesPartition(tasks: set<Task>)
    ensures |WithPriority(tasks, Low)| + |WithPriority(tasks, Medium)|
            + |WithPriority(tasks, High)| == |tasks|
  {
    if tasks != {} {
      var t :| t in tasks;
      var rest := tasks - {t};
      assert tasks == rest + {t};
      PrioritiesPartition(rest);
      PriorityGrows(rest, t, Low);
      PriorityGrows(rest, t, Medium);
      PriorityGrows(rest, t, High);
    }
  }

  // ---------- Same answers ----------

  lemma SameMatches(f: Filter, g: Filter)
    requires f.user == g.user
    requires (forall s :: s in f.statuses <==> s in g.statuses)
    requires (forall p :: p in f.priorities <==> p in g.priorities)
    ensures forall t :: Matches(f, t) <==> Matches(g, t)
  {
    assert f.statuses == [] <==> g.statuses == [] by {
      if f.statuses != [] { assert f.statuses[0] in g.statuses; }
      if g.statuses != [] { assert g.statuses[0] in f.statuses; }
    }
    assert f.priorities == [] <==> g.priorities == [] by {
      if f.priorities != [] { assert f.priorities[0] in g.priorities; }
      if g.priorities != [] { assert g.priorities[0] in f.priorities; }
    }
  }

  /** Neither the order nor the repetition of filter values matters. */
  lemma FilterIsASet(store: Tasks, f: Filter, g: Filter)
    requires f.user == g.user
    requires (forall s :: s in f.statuses <==> s in g.statuses)
    requires (forall p :: p in f.priorities <==> p in g.priorities)
    ensures Selected(store, f) == Selected(store, g)
    ensures Listing(store, f) == Listing(store, g)
  {
    SameMatches(f, g);
    assert Selected(store, f) == Selected(store, g);
  }

  /** A user's listing depends on that user's tasks alone. */
  lemma OthersDoNotShow(store: Tasks, after: Tasks, f: Filter)
    requires forall id :: id in store && store[id].user == f.user ==>
               id in after && after[id] == store[id]
    requires forall id :: id in after && after[id].user == f.user ==>
               id in store && after[id] == store[id]
    ensures Listing(after, f) == Listing(store, f)
  {
    forall t | t in Selected(after, f) ensures t in Selected(store, f) {
      var id :| id in after && Matches(f, after[id]) && after[id] == t;
      assert id in store && store[id] == t;
    }
    forall t | t in Selected(store, f) ensures t in Selected(after, f) {
      var id :| id in store && Matches(f, store[id]) && store[id] == t;
      assert id in after && after[id] == t;
    }
    assert Selected(after, f) == Selected(store, f);
  }
}

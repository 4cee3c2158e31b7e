/**
 The cached form of listing: pages kept under a text key per request and a tag per owner, which
 every write of that owner invalidates. The cache library is known by its contract alone.
 */
module TaskCache {
  import opened Collections
  import opened Sorting
  import opened Text
  import opened TaskModel
  import opened TaskQuery
  import opened TaskSql
  import TaskRepository

  // ---------- Keys ----------

  predicate StringLe(a: string, b: string) {
    a == "" || (b != "" && (a[0] < b[0] || (a[0] == b[0] && StringLe(a[1..], b[1..]))))
  }

  /** A page request; a listing is asked for by filter, limit and offset. */
  datatype Request = Request(f: Filter, limit: int, offset: nat)

  datatype CacheKey = CacheKey(
    user: UserId, statuses: string, priorities: string, limit: int, offset: int)

  function SortedJoin(values: seq<string>): string {
    if values == [] then "" else Join(Sort(values, StringLe), ",")
  }

  function NewCacheKey(r: Request): CacheKey {
    CacheKey(r.f.user, SortedJoin(StatusNames(r.f.statuses)),
             SortedJoin(PriorityNames(r.f.priorities)), r.limit, r.offset)
  }

  function KeyText(k: CacheKey): string {
    "user:" + (NatText(k.user) + ":" + ("lists:status=" + (k.statuses + ":" + ("priority="
      + (k.priorities + ":" + ("limit=" + (IntText(k.limit) + ":" + ("offset="
      + IntText(k.offset)))))))))
  }

  function Key(r: Request): string {
    KeyText(NewCacheKey(r))
  }

  function UserTag(user: UserId): string {
    "user:" + NatText(user) + ":lists"
  }

  lemma {:induction false} StringLeTotal(a: string, b: string)
    ensures StringLe(a, b) || StringLe(b, a)
    ensures StringLe(a, b) && StringLe(b, a) ==> a == b
  {
    if a != "" && b != "" {
      StringLeTotal(a[1..], b[1..]);
      if a[0] == b[0] && a[1..] == b[1..] { assert a == [a[0]] + a[1..] == b; }
    }
  }

  lemma {:induction false} StringLeTransitive(a: string, b: string, c: string)
    requires StringLe(a, b) && StringLe(b, c)
    ensures StringLe(a, c)
  {
    if a != "" && b != "" && a[0] == b[0] == c[0] { StringLeTransitive(a[1..], b[1..], c[1..]); }
  }

  predicate PlainName(name: string) {
    name != "" && Lacks(name, ',') && Lacks(name, ':')
  }

  /** Values a comma-joined list inside a colon-separated key can hold. */
  ghost predicate Plain(values: seq<string>) {
    forall i :: 0 <= i < |values| ==> PlainName(values[i])
  }

  lemma SortedIsPlain(values: seq<string>)
    requires Plain(values)
    ensures Plain(Sort(values, StringLe))
  {
    SortKeepsItems(values, StringLe);
    var sorted := Sort(values, StringLe);
    forall i | 0 <= i < |sorted| ensures PlainName(sorted[i]) {
      assert sorted[i] in multiset(values);
    }
  }

  /** Two filters share their joined text exactly if they hold the same values in some order. */
  lemma SortedJoinForgetsOrder(a: seq<string>, b: seq<string>)
    requires Plain(a) && Plain(b)
    ensures SortedJoin(a) == SortedJoin(b) <==> multiset(a) == multiset(b)
  {
    assert Preorder(StringLe) by {
      forall s, t ensures StringLe(s, t) || StringLe(t, s) { StringLeTotal(s, t); }
      forall s, t, u | StringLe(s, t) && StringLe(t, u) ensures StringLe(s, u) {
        StringLeTransitive(s, t, u);
      }
    }
    var x, y := Sort(a, StringLe), Sort(b, StringLe);
    SortSorts(a, StringLe);
    SortSorts(b, StringLe);
    SortedIsPlain(a);
    SortedIsPlain(b);
    if SortedJoin(a) == SortedJoin(b) {
      JoinInjective(x, y, ',');
    }
    if multiset(a) == multiset(b) {
      assert NoTies(x, StringLe) by {
        forall s, t | s in x && t in x && StringLe(s, t) && StringLe(t, s) ensures s == t {
          StringLeTotal(s, t);
        }
      }
      SortedUnique(x, y, StringLe);
    }
  }

  lemma StatusNamesPlain(statuses: seq<Status>)
    ensures Plain(StatusNames(statuses))
  {
  }

  lemma PriorityNamesPlain(priorities: seq<Priority>)
    ensures Plain(PriorityNames(priorities))
  {
  }

  lemma SortedJoinLacks(values: seq<string>, c: char)
    requires c != ',' && forall i :: 0 <= i < |values| ==> Lacks(values[i], c)
    ensures Lacks(SortedJoin(values), c)
  {
    SortKeepsItems(values, StringLe);
    var sorted := Sort(values, StringLe);
    forall i | 0 <= i < |sorted| ensures Lacks(sorted[i], c) {
      assert sorted[i] in multiset(values);
    }
    JoinLacks(sorted, ',', c);
  }

  ghost predicate ColonFree(k: CacheKey) {
    Lacks(k.statuses, ':') && Lacks(k.priorities, ':')
  }

  lemma SamePrefix(prefix: string, x: string, y: string)
    requires prefix + x == prefix + y
    ensures x == y
  {
    assert x == (prefix + x)[|prefix|..] && y == (prefix + y)[|prefix|..];
  }

  /** Physical keys of different requests never collide. */
  lemma KeyTextInjective(k: CacheKey, m: CacheKey)
    requires ColonFree(k) && ColonFree(m) && KeyText(k) == KeyText(m)
    ensures k == m
  {
    NatTextReadsBack(k.user);
    NatTextReadsBack(m.user);
    IntTextLacks(k.limit, ':');
    IntTextLacks(m.limit, ':');
    var k4, m4 := "offset=" + IntText(k.offset), "offset=" + IntText(m.offset);
    var k3, m3 := "limit=" + (IntText(k.limit) + [':'] + k4), "limit=" + (IntText(m.limit) + [':'] + m4);
    var k2, m2 := "priority=" + (k.priorities + [':'] + k3), "priority=" + (m.priorities + [':'] + m3);
    var k1, m1 := "lists:status=" + (k.statuses + [':'] + k2), "lists:status=" + (m.statuses + [':'] + m2);
    SamePrefix("user:", NatText(k.user) + [':'] + k1, NatText(m.user) + [':'] + m1);
    SplitsOnce(NatText(k.user), NatText(m.user), k1, m1, ':');
    SamePrefix("lists:status=", k.statuses + [':'] + k2, m.statuses + [':'] + m2);
    SplitsOnce(k.statuses, m.statuses, k2, m2, ':');
    SamePrefix("priority=", k.priorities + [':'] + k3, m.priorities + [':'] + m3);
    SplitsOnce(k.priorities, m.priorities, k3, m3, ':');
    SamePrefix("limit=", IntText(k.limit) + [':'] + k4, IntText(m.limit) + [':'] + m4);
    SplitsOnce(IntText(k.limit), IntText(m.limit), k4, m4, ':');
    SamePrefix("offset=", IntText(k.offset), IntText(m.offset));
    NatTextInjective(k.user, m.user);
    IntTextInjective(k.limit, m.limit);
    IntTextInjective(k.offset, m.offset);
  }

  lemma KeyIsColonFree(r: Request)
    ensures ColonFree(NewCacheKey(r))
  {
    StatusNamesPlain(r.f.statuses);
    PriorityNamesPlain(r.f.priorities);
    SortedJoinLacks(StatusNames(r.f.statuses), ':');
    SortedJoinLacks(PriorityNames(r.f.priorities), ':');
  }

  lemma {:induction false} SameNamesSameStatuses(a: seq<Status>, b: seq<Status>)
    requires multiset(StatusNames(a)) == multiset(StatusNames(b))
    ensures forall s :: s in a ==> s in b
  {
    NamesAre(a);
    NamesAre(b);
    forall s | s in a ensures s in b {
      var i :| 0 <= i < |a| && a[i] == s;
      assert StatusNames(a)[i] in multiset(StatusNames(b));
      var j :| 0 <= j < |b| && StatusNames(b)[j] == StatusName(s);
      NamesDiffer(b[j], s, Low, Low);
    }
  }

  lemma {:induction false} SameNamesSamePriorities(a: seq<Priority>, b: seq<Priority>)
    requires multiset(PriorityNames(a)) == multiset(PriorityNames(b))
    ensures forall p :: p in a ==> p in b
  {
    PriorityNamesAre(a);
    PriorityNamesAre(b);
    forall p | p in a ensures p in b {
      var i :| 0 <= i < |a| && a[i] == p;
      assert PriorityNames(a)[i] in multiset(PriorityNames(b));
      var j :| 0 <= j < |b| && PriorityNames(b)[j] == PriorityName(p);
      NamesDiffer(Pending, Pending, b[j], p);
    }
  }

  /** What the uncached repository answers. */
  ghost function Answer(store: Tasks, r: Request): seq<Task> {
    Paginate(Listing(store, r.f), r.limit, r.offset)
  }

  lemma KeyFixesRequest(r: Request, q: Request)
    requires Key(r) == Key(q)
    ensures r.f.user == q.f.user && r.limit == q.limit && r.offset == q.offset
    ensures forall s :: s in r.f.statuses <==> s in q.f.statuses
    ensures forall p :: p in r.f.priorities <==> p in q.f.priorities
  {
    KeyIsColonFree(r);
    KeyIsColonFree(q);
    KeyTextInjective(NewCacheKey(r), NewCacheKey(q));
    StatusNamesPlain(r.f.statuses);
    StatusNamesPlain(q.f.statuses);
    PriorityNamesPlain(r.f.priorities);
    PriorityNamesPlain(q.f.priorities);
    SortedJoinForgetsOrder(StatusNames(r.f.statuses), StatusNames(q.f.statuses));
    SortedJoinForgetsOrder(PriorityNames(r.f.priorities), PriorityNames(q.f.priorities));
    SameNamesSameStatuses(r.f.statuses, q.f.statuses);
    SameNamesSameStatuses(q.f.statuses, r.f.statuses);
    SameNamesSamePriorities(r.f.priorities, q.f.priorities);
    SameNamesSamePriorities(q.f.priorities, r.f.priorities);
  }

  /** Requests that share a key share their answer, whatever the table. */
  lemma {:induction false} KeyFixesAnswer(store: Tasks, r: Request, q: Request)
    requires Key(r) == Key(q)
    ensures Answer(store, r) == Answer(store, q)
  {
    KeyFixesRequest(r, q);
    FilterIsASet(store, r.f, q.f);
  }

  /** Requests for the same values in another order share their key. */
  lemma ReorderedFilterHits(r: Request, q: Request)
    requires r.f.user == q.f.user && r.limit == q.limit && r.offset == q.offset
    requires multiset(StatusNames(r.f.statuses)) == multiset(StatusNames(q.f.statuses))
    requires multiset(PriorityNames(r.f.priorities)) == multiset(PriorityNames(q.f.priorities))
    ensures Key(r) == Key(q)
  {
    StatusNamesPlain(r.f.statuses);
    StatusNamesPlain(q.f.statuses);
    PriorityNamesPlain(r.f.priorities);
    PriorityNamesPlain(q.f.priorities);
    SortedJoinForgetsOrder(StatusNames(r.f.statuses), StatusNames(q.f.statuses));
    SortedJoinForgetsOrder(PriorityNames(r.f.priorities), PriorityNames(q.f.priorities));
  }

  lemma TagInjective(a: UserId, b: UserId)
    requires UserTag(a) == UserTag(b)
    ensures a == b
  {
    NatTextReadsBack(a);
    NatTextReadsBack(b);
    assert UserTag(a) == "user:" + (NatText(a) + [':'] + "lists");
    assert UserTag(b) == "user:" + (NatText(b) + [':'] + "lists");
    SamePrefix("user:", NatText(a) + [':'] + "lists", NatText(b) + [':'] + "lists");
    SplitsOnce(NatText(a), NatText(b), "lists", "lists", ':');
    NatTextInjective(a, b);
  }

  // ---------- The cache ----------

  datatype Page = Page(tag: string, rows: seq<Task>)

  type Pages = map<string, Page>

  function Invalidated(pages: Pages, tag: string): Pages {
    map key | key in pages && pages[key].tag != tag :: pages[key]
  }

  ghost predicate Describes(page: Page, r: Request, store: Tasks) {
    page.tag == UserTag(r.f.user) && page.rows == Answer(store, r)
  }

  /** Every page kept is the current answer to the requests its key stands for. */
  ghost predicate Coherent(store: Tasks, pages: Pages) {
    forall key :: key in pages ==> exists r :: Key(r) == key && Describes(pages[key], r, store)
  }

  /** Only user's tasks differ. */
  ghost predicate OnlyTouches(before: Tasks, after: Tasks, user: UserId) {
    && (forall id :: id in before && before[id].user != user ==>
          id in after && after[id] == before[id])
    && (forall id :: id in after && after[id].user != user ==>
          id in before && after[id] == before[id])
  }

  /** A write leaves other owners' pages right, and its owner's are gone. */
  lemma {:induction false} WriteKeepsCoherent(before: Tasks, after: Tasks, pages: Pages, user: UserId)
    requires Coherent(before, pages) && OnlyTouches(before, after, user)
    ensures Coherent(after, Invalidated(pages, UserTag(user)))
  {
    var left := Invalidated(pages, UserTag(user));
    forall key | key in left ensures exists r :: Key(r) == key && Describes(left[key], r, after) {
      var r :| Key(r) == key && Describes(pages[key], r, before);
      assert r.f.user != user;
      OthersDoNotShow(before, after, r.f);
      assert Describes(left[key], r, after);
    }
  }

  lemma LoadKeepsCoherent(store: Tasks, pages: Pages, r: Request)
    requires Coherent(store, pages)
    ensures Coherent(store, pages[Key(r) := Page(UserTag(r.f.user), Answer(store, r))])
  {
    assert Describes(Page(UserTag(r.f.user), Answer(store, r)), r, store);
  }

  class CachedRepository {
    const next: TaskRepository.Repository
    var pages: Pages

    ghost predicate Valid()
      reads this, next
    {
      Keyed(next.store) && Coherent(next.store, pages)
    }

    constructor (next: TaskRepository.Repository)
      requires Keyed(next.store)
      ensures this.next == next && pages == map[] && Valid()
    {
      this.next := next;
      pages := map[];
    }

    /** reached tells whether the invalidation got through; the write stands either way. */
    method InvalidateOwner(user: UserId, reached: bool)
      modifies this
      ensures pages == if reached then Invalidated(old(pages), UserTag(user)) else old(pages)
    {
      if reached {
        pages := map key | key in pages && pages[key].tag != UserTag(user) :: pages[key];
      }
    }

    method Create(task: Task, reached: bool) returns (error: Option<Error>)
      requires Valid()
      modifies this, next
      ensures error == if task.id in old(next.store) then Some(AlreadyExists) else None
      ensures next.store == if error.Some? then old(next.store)
                            else old(next.store)[task.id := task.(version := 1)]
      ensures reached || error.Some? ==> Valid()
      ensures forall key :: key in pages <==>
                key in old(pages)
                && (error.Some? || !reached || old(pages)[key].tag != UserTag(task.user))
      ensures forall key :: key in pages ==> pages[key] == old(pages)[key]
    {
      error := next.Create(task);
      if error.Some? {
        return;
      }
      InvalidateOwner(task.user, reached);
      if reached {
        WriteKeepsCoherent(old(next.store), next.store, old(pages), task.user);
      }
    }

    method Update(task: Task, reached: bool) returns (error: Option<Error>)
      requires Valid()
      modifies this, next
      ensures error == Refusal(old(next.store), task)
      ensures next.store == if error.Some? then old(next.store)
                else old(next.store)[task.id := Replacement(old(next.store)[task.id], task)]
      ensures reached || error.Some? ==> Valid()
      ensures forall key :: key in pages <==>
                key in old(pages)
                && (error.Some? || !reached || old(pages)[key].tag != UserTag(task.user))
      ensures forall key :: key in pages ==> pages[key] == old(pages)[key]
    {
      error := next.Update(task);
      if error.Some? {
        return;
      }
      InvalidateOwner(task.user, reached);
      if reached {
        WriteKeepsCoherent(old(next.store), next.store, old(pages), task.user);
      }
    }

    method Delete(id: TaskId, user: UserId, reached: bool) returns (error: Option<Error>)
      requires Valid()
      modifies this, next
      ensures error == if id in old(next.store) && old(next.store)[id].user == user then None
                       else Some(NotFound)
      ensures next.store == if error.Some? then old(next.store) else old(next.store) - {id}
      ensures reached || error.Some? ==> Valid()
      ensures forall key :: key in pages <==>
                key in old(pages)
                && (error.Some? || !reached || old(pages)[key].tag != UserTag(user))
      ensures forall key :: key in pages ==> pages[key] == old(pages)[key]
    {
      error := next.Delete(id, user);
      if error.Some? {
        return;
      }
      InvalidateOwner(user, reached);
      if reached {
        WriteKeepsCoherent(old(next.store), next.store, old(pages), user);
      }
    }

    /** Entries may vanish at any time: eviction, expiry, another replica's invalidation. */
    method Vanish(gone: set<string>)
      requires Valid()
      modifies this
      ensures Valid() && pages == old(pages) - gone
    {
      pages := pages - gone;
    }

    /** The cache cannot be told from the repository it wraps. */
    method FindAll(r: Request) returns (rows: seq<Task>)
      requires Valid()
      modifies this
      ensures rows == Answer(next.store, r)
      ensures rows == Paginate(Listing(next.store, r.f), r.limit, r.offset)
      ensures Valid()
      // The page is kept for the next such request, and no other page is disturbed.
      ensures Key(r) in pages
      ensures forall key :: key in pages <==> key in old(pages) || key == Key(r)
      ensures forall key :: key in old(pages) ==> pages[key] == old(pages)[key]
    {
      var key := Key(r);
      if key in pages {
        ghost var q :| Key(q) == key && Describes(pages[key], q, next.store);
        KeyFixesAnswer(next.store, r, q);
        return pages[key].rows;
      }
      rows := next.FindAll(r.f, r.limit, r.offset);
      LoadKeepsCoherent(next.store, pages, r);
      pages := pages[key := Page(UserTag(r.f.user), rows)];
    }
  }

  // ---------- Whole runs ----------

  datatype Event =
    | Created(task: Task, reached: bool)
    | Updated(task: Task, reached: bool)
    | Deleted(id: TaskId, user: UserId, reached: bool)
    | Vanished(gone: set<string>)
    | Listed(r: Request)

  /** The table after an event, and whose pages it invalidates if it wrote. */
  function TableAfter(store: Tasks, e: Event): (Tasks, Option<UserId>) {
    match e
    case Created(task, _) =>
      if task.id in store then (store, None)
      else (store[task.id := task.(version := 1)], Some(task.user))
    case Updated(task, _) =>
      if Refusal(store, task).Some? then (store, None)
      else (store[task.id := Replacement(store[task.id], task)], Some(task.user))
    case Deleted(id, user, _) =>
      if Owned(store, id, user) then (store - {id}, Some(user)) else (store, None)
    case Vanished(_) => (store, None)
    case Listed(_) => (store, None)
  }

  predicate Reached(e: Event) {
    match e
    case Created(_, reached) => reached
    case Updated(_, reached) => reached
    case Deleted(_, _, reached) => reached
    case Vanished(_) => true
    case Listed(_) => true
  }

  ghost function PagesAfter(store: Tasks, pages: Pages, e: Event): Pages {
    match e
    case Vanished(gone) => pages - gone
    case Listed(r) =>
      if Key(r) in pages then pages
      else pages[Key(r) := Page(UserTag(r.f.user), Answer(store, r))]
    case _ =>
      var owner := TableAfter(store, e).1;
      if owner.Some? && Reached(e) then Invalidated(pages, UserTag(owner.value)) else pages
  }

  function Table(events: seq<Event>): Tasks {
    if events == [] then map[]
    else TableAfter(Table(events[..|events| - 1]), events[|events| - 1]).0
  }

  ghost function Kept(events: seq<Event>): Pages {
    if events == [] then map[]
    else
      var earlier := events[..|events| - 1];
      PagesAfter(Table(earlier), Kept(earlier), events[|events| - 1])
  }

  /** What a listing after events answers through the cache. */
  ghost function CachedAnswer(events: seq<Event>, r: Request): seq<Task> {
    if Key(r) in Kept(events) then Kept(events)[Key(r)].rows else Answer(Table(events), r)
  }

  lemma WriteTouchesOwner(store: Tasks, e: Event)
    ensures var (after, owner) := TableAfter(store, e);
            && (owner.None? ==> after == store)
            && (owner.Some? ==> OnlyTouches(store, after, owner.value))
  {
  }

  lemma {:induction false} EventKeepsCoherent(store: Tasks, pages: Pages, e: Event)
    requires Coherent(store, pages) && (TableAfter(store, e).1.Some? ==> Reached(e))
    ensures Coherent(TableAfter(store, e).0, PagesAfter(store, pages, e))
  {
    WriteTouchesOwner(store, e);
    var (after, owner) := TableAfter(store, e);
    if e.Listed? {
    } else if e.Vanished? {
    } else if owner.Some? {
      WriteKeepsCoherent(store, after, pages, owner.value);
    }
  }

  /** Which invalidations of a run got through, one flag for each write that succeeded. */
  function Flags(events: seq<Event>): seq<bool> {
    if events == [] then []
    else
      var earlier, e := events[..|events| - 1], events[|events| - 1];
      Flags(earlier) + if TableAfter(Table(earlier), e).1.Some? then [Reached(e)] else []
  }

  predicate AllSet(flags: seq<bool>) {
    forall i :: 0 <= i < |flags| ==> flags[i]
  }

  lemma {:induction false} RunsStayCoherent(events: seq<Event>)
    requires AllSet(Flags(events))
    ensures Coherent(Table(events), Kept(events))
    decreases |events|
  {
    if events != [] {
      var earlier, e := events[..|events| - 1], events[|events| - 1];
      assert forall i :: 0 <= i < |Flags(earlier)| ==> Flags(events)[i] == Flags(earlier)[i];
      RunsStayCoherent(earlier);
      if TableAfter(Table(earlier), e).1.Some? { assert Flags(events)[|Flags(earlier)|] == Reached(e); }
      EventKeepsCoherent(Table(earlier), Kept(earlier), e);
    }
  }

  /**
   Over every serialized run of reads, writes and vanishing entries whose invalidations all got
   through, each listing answers what the table alone would.
   */
  lemma {:induction false} CacheIsTransparent(events: seq<Event>, r: Request)
    requires AllSet(Flags(events))
    ensures CachedAnswer(events, r) == Answer(Table(events), r)
  {
    RunsStayCoherent(events);
    if Key(r) in Kept(events) {
      var q :| Key(q) == Key(r) && Describes(Kept(events)[Key(r)], q, Table(events));
      KeyFixesAnswer(Table(events), r, q);
    }
  }

  /** One invalidation that does not get through is enough for a stale page. */
  lemma LostInvalidationShows(task: Task)
    ensures var r := Request(Filter(task.user, [], []), -1, 0);
            var events := [Listed(r), Created(task, false)];
            CachedAnswer(events, r) != Answer(Table(events), r)
  {
    var r := Request(Filter(task.user, [], []), -1, 0);
    var events := [Listed(r), Created(task, false)];
    assert events[..1] == [Listed(r)];
    assert Kept(events) == Kept([Listed(r)]);
    var stored := task.(version := 1);
    var table: Tasks := map[];
    assert Table(events) == table[task.id := stored];
    assert Selected(Table(events), r.f) == {stored};
  }

  // ---------- Fault schedules ----------

  const MINE := Task(0, 0, 0, 0, Pending, Low, 0, 0, 1)
  const MY_PAGE := Request(Filter(0, [], []), -1, 0)

  /** A task of somebody else. */
  function Other(id: TaskId): Task {
    MINE.(id := id, user := 1)
  }

  /**
   A run whose writes carry flags: the k-th one creates a task behind a page just listed, all
   others create tasks of somebody else.
   */
  function Schedule(flags: seq<bool>, k: nat): seq<Event> {
    if flags == [] then []
    else
      var last := |flags| - 1;
      var earlier := Schedule(flags[..last], k);
      if last == k then earlier + [Listed(MY_PAGE)] + [Created(MINE, flags[last])]
      else earlier + [Created(Other(last + 1), flags[last])]
  }

  lemma OneMoreEvent(events: seq<Event>, e: Event)
    ensures Table(events + [e]) == TableAfter(Table(events), e).0
    ensures Kept(events + [e]) == PagesAfter(Table(events), Kept(events), e)
    ensures Flags(events + [e])
            == Flags(events) + if TableAfter(Table(events), e).1.Some? then [Reached(e)] else []
  {
    assert (events + [e])[..|events|] == events;
  }

  /** Before the k-th write nothing of user 0 exists, neither task nor page. */
  ghost predicate Untouched(store: Tasks, pages: Pages, n: nat) {
    && (forall id: TaskId :: id in store ==> 1 <= id <= n && store[id].user == 1)
    && Key(MY_PAGE) !in pages
  }

  /** After it the empty page is still kept although user 0 has a task. */
  ghost predicate Stale(store: Tasks, pages: Pages, n: nat) {
    && (forall id: TaskId :: id in store ==> id <= n)
    && MINE.id in store && store[MINE.id] == MINE
    && Key(MY_PAGE) in pages && pages[Key(MY_PAGE)] == Page(UserTag(0), [])
  }

  lemma OtherKeepsUntouched(store: Tasks, pages: Pages, n: nat, flag: bool)
    requires Untouched(store, pages, n)
    ensures var e := Created(Other(n + 1), flag);
            && TableAfter(store, e).1.Some?
            && Untouched(TableAfter(store, e).0, PagesAfter(store, pages, e), n + 1)
  {
  }

  lemma OtherKeepsStale(store: Tasks, pages: Pages, n: nat, flag: bool)
    requires Stale(store, pages, n)
    ensures var e := Created(Other(n + 1), flag);
            && TableAfter(store, e).1.Some?
            && Stale(TableAfter(store, e).0, PagesAfter(store, pages, e), n + 1)
  {
    if UserTag(0) == UserTag(1) { TagInjective(0, 1); }
  }

  lemma NothingToList(store: Tasks, r: Request)
    requires forall id :: id in store ==> store[id].user != r.f.user
    ensures Answer(store, r) == []
  {
    assert Selected(store, r.f) == {};
  }

  lemma LostCreate(store: Tasks, pages: Pages, n: nat)
    requires Untouched(store, pages, n)
    ensures var listed, created := Listed(MY_PAGE), Created(MINE, false);
            var kept := PagesAfter(store, pages, listed);
            && TableAfter(store, listed) == (store, None)
            && TableAfter(store, created).1.Some?
            && Stale(TableAfter(store, created).0, PagesAfter(store, kept, created), n + 1)
  {
    NothingToList(store, MY_PAGE);
  }

  /** Listing the empty page and then losing the invalidation of a create makes it stale. */
  lemma {:induction false} LossMakesStale(events: seq<Event>, n: nat)
    requires Untouched(Table(events), Kept(events), n)
    ensures var after := events + [Listed(MY_PAGE)] + [Created(MINE, false)];
            && Stale(Table(after), Kept(after), n + 1)
            && Flags(after) == Flags(events) + [false]
  {
    LostCreate(Table(events), Kept(events), n);
    OneMoreEvent(events, Listed(MY_PAGE));
    OneMoreEvent(events + [Listed(MY_PAGE)], Created(MINE, false));
  }

  lemma {:induction false} ScheduleGoesStale(flags: seq<bool>, k: nat)
    requires k < |flags| ==> !flags[k]
    ensures var events := Schedule(flags, k);
            && Flags(events) == flags
            && (if k < |flags| then Stale(Table(events), Kept(events), |flags|)
                else Untouched(Table(events), Kept(events), |flags|))
    decreases |flags|
  {
    if flags != [] {
      var last := |flags| - 1;
      var earlier := Schedule(flags[..last], k);
      ScheduleGoesStale(flags[..last], k);
      assert flags == flags[..last] + [flags[last]];
      if last == k {
        LossMakesStale(earlier, last);
      } else {
        OneMoreEvent(earlier, Created(Other(last + 1), flags[last]));
        if k < last {
          OtherKeepsStale(Table(earlier), Kept(earlier), last, flags[last]);
        } else {
          OtherKeepsUntouched(Table(earlier), Kept(earlier), last, flags[last]);
        }
      }
    }
  }

  lemma {:induction false} StaleShows(events: seq<Event>, n: nat)
    requires Stale(Table(events), Kept(events), n)
    ensures CachedAnswer(events, MY_PAGE) != Answer(Table(events), MY_PAGE)
  {
    var store := Table(events);
    assert Matches(MY_PAGE.f, store[MINE.id]);
    assert MINE in Selected(store, MY_PAGE.f);
    assert |Selected(store, MY_PAGE.f)| > 0;
  }

  /**
   For every schedule of invalidation faults: all runs whose writes meet that schedule answer
   every listing as the table would, if and only if no invalidation in it is lost.
   */
  lemma {:induction false} TransparentWithoutLoss(flags: seq<bool>)
    ensures (forall events, r | Flags(events) == flags ::
               CachedAnswer(events, r) == Answer(Table(events), r))
            <==> AllSet(flags)
  {
    if AllSet(flags) {
      forall events, r | Flags(events) == flags
        ensures CachedAnswer(events, r) == Answer(Table(events), r)
      {
        CacheIsTransparent(events, r);
      }
    } else {
      var k :| 0 <= k < |flags| && !flags[k];
      ScheduleGoesStale(flags, k);
      StaleShows(Schedule(flags, k), |flags|);
    }
  }
}

/** The PostgreSQL form of listing: a filter compiled to a WHERE clause, LIMIT and OFFSET. */
module TaskSql {
  import opened Sorting
  import opened TaskModel
  import opened TaskQuery
  import opened PostgresQuery

  // ---------- The query a filter compiles to ----------

  function Numbers(from: nat, n: nat): seq<nat> {
    if n == 0 then [] else Numbers(from, n - 1) + [from + n - 1]
  }

  function InClause(column: Column, from: nat, n: nat): seq<Cond> {
    if n == 0 then [] else [In(column, Numbers(from, n))]
  }

  function Conds(f: Filter): seq<Cond> {
    [Equals(UserColumn, 1)] + InClause(StatusColumn, 2, |f.statuses|)
    + InClause(PriorityColumn, 2 + |f.statuses|, |f.priorities|)
  }

  function StatusNames(statuses: seq<Status>): seq<string> {
    if statuses == [] then []
    else StatusNames(statuses[..|statuses| - 1]) + [StatusName(statuses[|statuses| - 1])]
  }

  function PriorityNames(priorities: seq<Priority>): seq<string> {
    if priorities == [] then []
    else
      PriorityNames(priorities[..|priorities| - 1]) + [PriorityName(priorities[|priorities| - 1])]
  }

  function Words(names: seq<string>): seq<Value> {
    if names == [] then [] else Words(names[..|names| - 1]) + [Word(names[|names| - 1])]
  }

  function FilterArgs(f: Filter): seq<Value> {
    [Id(f.user)] + Words(StatusNames(f.statuses)) + Words(PriorityNames(f.priorities))
  }

  function Args(f: Filter, limit: int, offset: nat): seq<Value> {
    FilterArgs(f) + [if limit >= 0 then Number(limit) else Null, Number(offset)]
  }

  function Compiled(f: Filter): Query {
    var n := 1 + |f.statuses| + |f.priorities|;
    Query(Conds(f), [CreatedAt, Identifier], n + 1, n + 2)
  }

  // ---------- Every placeholder once ----------

  lemma {:induction false} WordsAre(names: seq<string>)
    ensures |Words(names)| == |names|
    ensures forall i :: 0 <= i < |names| ==> Words(names)[i] == Word(names[i])
  {
    if names != [] { WordsAre(names[..|names| - 1]); }
  }

  lemma {:induction false} NamesAre(statuses: seq<Status>)
    ensures |StatusNames(statuses)| == |statuses|
    ensures forall i :: 0 <= i < |statuses| ==> StatusNames(statuses)[i] == StatusName(statuses[i])
  {
    if statuses != [] { NamesAre(statuses[..|statuses| - 1]); }
  }

  lemma {:induction false} PriorityNamesAre(priorities: seq<Priority>)
    ensures |PriorityNames(priorities)| == |priorities|
    ensures forall i :: 0 <= i < |priorities| ==>
              PriorityNames(priorities)[i] == PriorityName(priorities[i])
  {
    if priorities != [] { PriorityNamesAre(priorities[..|priorities| - 1]); }
  }

  lemma {:induction false} NumbersAre(from: nat, n: nat)
    ensures |Numbers(from, n)| == n
    ensures forall i :: 0 <= i < n ==> Numbers(from, n)[i] == from + i
  {
    if n > 0 { NumbersAre(from, n - 1); }
  }

  lemma {:induction false} NumbersConcat(from: nat, m: nat, n: nat)
    ensures Numbers(from, m) + Numbers(from + m, n) == Numbers(from, m + n)
  {
    if n == 0 {
      assert Numbers(from, m) + [] == Numbers(from, m);
    } else {
      NumbersConcat(from, m, n - 1);
      assert Numbers(from, m) + Numbers(from + m, n)
             == Numbers(from, m) + Numbers(from + m, n - 1) + [from + m + n - 1];
    }
  }

  lemma WordCounts(f: Filter)
    ensures |Words(StatusNames(f.statuses))| == |f.statuses|
    ensures |Words(PriorityNames(f.priorities))| == |f.priorities|
  {
    NamesAre(f.statuses);
    PriorityNamesAre(f.priorities);
    WordsAre(StatusNames(f.statuses));
    WordsAre(PriorityNames(f.priorities));
  }

  lemma ArgsCount(f: Filter)
    ensures |FilterArgs(f)| == 1 + |f.statuses| + |f.priorities|
  {
    WordCounts(f);
  }

  lemma AllArgsCount(f: Filter, limit: int, offset: nat)
    ensures |Args(f, limit, offset)| == 1 + |f.statuses| + |f.priorities| + 2
  {
    ArgsCount(f);
  }

  function Own(cond: Cond): seq<nat> {
    match cond
    case Equals(_, p) => [p]
    case In(_, ps) => ps
  }

  function CondPlaceholders(conds: seq<Cond>): seq<nat> {
    if conds == [] then [] else Own(conds[0]) + CondPlaceholders(conds[1..])
  }

  lemma {:induction false} PlaceholdersConcat(a: seq<Cond>, b: seq<Cond>)
    ensures CondPlaceholders(a + b) == CondPlaceholders(a) + CondPlaceholders(b)
  {
    if a == [] {
      assert a + b == b;
    } else {
      var own, rest := Own(a[0]), CondPlaceholders(a[1..]);
      PlaceholdersConcat(a[1..], b);
      assert (a + b)[1..] == a[1..] + b && (a + b)[0] == a[0];
      assert own + (rest + CondPlaceholders(b)) == own + rest + CondPlaceholders(b);
    }
  }

  lemma InClausePlaceholders(column: Column, from: nat, n: nat)
    ensures CondPlaceholders(InClause(column, from, n)) == Numbers(from, n)
  {
  }

  lemma CondsPlaceholders(f: Filter)
    ensures CondPlaceholders(Conds(f))
            == Numbers(1, 1) + Numbers(2, |f.statuses|)
               + Numbers(2 + |f.statuses|, |f.priorities|)
  {
    var s, p := |f.statuses|, |f.priorities|;
    var user := [Equals(UserColumn, 1)];
    assert user[1..] == [] && Numbers(1, 0) == [];
    assert CondPlaceholders(user) == [1] == Numbers(1, 1);
    PlaceholdersConcat(user, InClause(StatusColumn, 2, s));
    PlaceholdersConcat(user + InClause(StatusColumn, 2, s), InClause(PriorityColumn, 2 + s, p));
    InClausePlaceholders(StatusColumn, 2, s);
    InClausePlaceholders(PriorityColumn, 2 + s, p);
  }

  function Placeholders(q: Query): seq<nat> {
    CondPlaceholders(q.conds) + [q.limit, q.offset]
  }

  /** The query names $1, $2, ... up to its last argument, each once and in order. */
  lemma EveryPlaceholderOnce(f: Filter, limit: int, offset: nat)
    ensures Placeholders(Compiled(f)) == Numbers(1, |Args(f, limit, offset)|)
  {
    AllArgsCount(f, limit, offset);
    CondsCount(f);
  }

  lemma CondsCount(f: Filter)
    ensures CondPlaceholders(Conds(f)) == Numbers(1, 1 + |f.statuses| + |f.priorities|)
  {
    CondsPlaceholders(f);
    NumbersConcat(1, 1, |f.statuses|);
    NumbersConcat(1, 1 + |f.statuses|, |f.priorities|);
  }

  // ---------- Meaning ----------

  lemma StatusArg(f: Filter, limit: int, offset: nat, i: nat)
    requires i < |f.statuses|
    ensures |Args(f, limit, offset)| > 1 + i
    ensures Args(f, limit, offset)[1 + i] == Word(StatusName(f.statuses[i]))
  {
    NamesAre(f.statuses);
    WordsAre(StatusNames(f.statuses));
  }

  lemma PriorityArg(f: Filter, limit: int, offset: nat, i: nat)
    requires i < |f.priorities|
    ensures |Args(f, limit, offset)| > 1 + |f.statuses| + i
    ensures Args(f, limit, offset)[1 + |f.statuses| + i] == Word(PriorityName(f.priorities[i]))
  {
    WordCounts(f);
    var p := Words(PriorityNames(f.priorities));
    PriorityWord(f.priorities, i);
  }

  lemma PriorityWord(priorities: seq<Priority>, i: nat)
    requires i < |priorities|
    ensures |Words(PriorityNames(priorities))| == |priorities|
    ensures Words(PriorityNames(priorities))[i] == Word(PriorityName(priorities[i]))
  {
    PriorityNamesAre(priorities);
    WordsAre(PriorityNames(priorities));
  }

  lemma NamesDiffer(s: Status, t: Status, p: Priority, q: Priority)
    ensures StatusName(s) == StatusName(t) <==> s == t
    ensures PriorityName(p) == PriorityName(q) <==> p == q
  {
  }

  lemma StatusClause(f: Filter, limit: int, offset: nat, row: Task)
    ensures Holds(In(StatusColumn, Numbers(2, |f.statuses|)), row, Args(f, limit, offset))
            <==> row.status in f.statuses
  {
    var args, ps := Args(f, limit, offset), Numbers(2, |f.statuses|);
    NumbersAre(2, |f.statuses|);
    forall i | 0 <= i < |ps|
      ensures Bound(args, ps[i], Field(row, StatusColumn)) <==> f.statuses[i] == row.status
    {
      StatusArg(f, limit, offset, i);
      NamesDiffer(f.statuses[i], row.status, Low, Low);
    }
  }

  lemma PriorityClause(f: Filter, limit: int, offset: nat, row: Task)
    ensures Holds(In(PriorityColumn, Numbers(2 + |f.statuses|, |f.priorities|)), row,
                  Args(f, limit, offset))
            <==> row.priority in f.priorities
  {
    var args, ps := Args(f, limit, offset), Numbers(2 + |f.statuses|, |f.priorities|);
    NumbersAre(2 + |f.statuses|, |f.priorities|);
    forall i | 0 <= i < |ps|
      ensures Bound(args, ps[i], Field(row, PriorityColumn)) <==> f.priorities[i] == row.priority
    {
      PriorityArg(f, limit, offset, i);
      NamesDiffer(Pending, Pending, f.priorities[i], row.priority);
    }
  }

  lemma {:induction false} AllHoldConcat(a: seq<Cond>, b: seq<Cond>, row: Task, args: seq<Value>)
    ensures AllHold(a + b, row, args) <==> AllHold(a, row, args) && AllHold(b, row, args)
  {
    if AllHold(a + b, row, args) {
      assert forall i :: 0 <= i < |a| ==> a[i] == (a + b)[i];
      assert forall i :: 0 <= i < |b| ==> b[i] == (a + b)[|a| + i];
    }
  }

  lemma OneHolds(cond: Cond, row: Task, args: seq<Value>)
    ensures AllHold([cond], row, args) <==> Holds(cond, row, args)
  {
    assert [cond][0] == cond;
  }

  /** The WHERE clause and the in-memory filter accept the same rows. */
  lemma WhereMeansMatches(f: Filter, limit: int, offset: nat, row: Task)
    ensures AllHold(Conds(f), row, Args(f, limit, offset)) <==> Matches(f, row)
  {
    var args := Args(f, limit, offset);
    var user, s := [Equals(UserColumn, 1)], InClause(StatusColumn, 2, |f.statuses|);
    var p := InClause(PriorityColumn, 2 + |f.statuses|, |f.priorities|);
    AllHoldConcat(user, s, row, args);
    AllHoldConcat(user + s, p, row, args);
    assert args[0] == Id(f.user);
    OneHolds(user[0], row, args);
    if s != [] {
      OneHolds(s[0], row, args);
      StatusClause(f, limit, offset, row);
    }
    if p != [] {
      OneHolds(p[0], row, args);
      PriorityClause(f, limit, offset, row);
    }
  }

  /** So COUNT(*) and the GROUP BY counts range over the tasks the listing shows. */
  lemma WhereSelects(store: Tasks, f: Filter, limit: int, offset: nat)
    ensures RowsWhere(store, Conds(f), Args(f, limit, offset)) == Selected(store, f)
  {
    forall id | id in store
      ensures AllHold(Conds(f), store[id], Args(f, limit, offset)) <==> Matches(f, store[id])
    {
      WhereMeansMatches(f, limit, offset, store[id]);
    }
  }

  lemma ShortArgsHold(f: Filter, row: Task, i: nat)
    requires i < |Conds(f)|
    ensures Holds(Conds(f)[i], row, FilterArgs(f)) <==> Holds(Conds(f)[i], row, Args(f, 0, 0))
  {
    ArgsCount(f);
    NumbersAre(2, |f.statuses|);
    NumbersAre(2 + |f.statuses|, |f.priorities|);
  }

  lemma CountSelects(store: Tasks, f: Filter)
    ensures RowsWhere(store, Conds(f), FilterArgs(f)) == Selected(store, f)
  {
    WhereSelects(store, f, 0, 0);
    forall id | id in store
      ensures AllHold(Conds(f), store[id], FilterArgs(f))
              <==> AllHold(Conds(f), store[id], Args(f, 0, 0))
    {
      forall i | 0 <= i < |Conds(f)|
        ensures Holds(Conds(f)[i], store[id], FilterArgs(f))
                <==> Holds(Conds(f)[i], store[id], Args(f, 0, 0))
      {
        ShortArgsHold(f, store[id], i);
      }
    }
  }

  lemma LastArgs(f: Filter, limit: int, offset: nat)
    ensures var q, args := Compiled(f), Args(f, limit, offset);
            && 1 <= q.limit <= |args| && 1 <= q.offset <= |args|
            && args[q.limit - 1] == (if limit >= 0 then Number(limit) else Null)
            && args[q.offset - 1] == Number(offset)
  {
    ArgsCount(f);
  }

  lemma WindowIsPage(rows: seq<Task>, limit: int, offset: nat)
    ensures SqlWindow(rows, if limit >= 0 then Number(limit) else Null, Number(offset))
            == Paginate(rows, limit, offset)
  {
  }

  lemma OrderIs(a: Task, b: Task)
    ensures Precedes([CreatedAt, Identifier], a, b) <==> Before(a, b)
  {
    assert [CreatedAt, Identifier][1..] == [Identifier];
    assert [Identifier][1..] == [];
    assert Precedes([], a, b);
    assert Precedes([Identifier], a, b) <==> a.id <= b.id;
  }

  /** What ORDER BY can make of the selected rows is the listing and nothing else. */
  lemma {:induction false} OrderedIsListing(
    all: seq<Task>, store: Tasks, f: Filter, limit: int, offset: nat)
    ensures Ordered(all, store, Compiled(f), Args(f, limit, offset)) <==> IsListing(all, store, f)
  {
    WhereSelects(store, f, limit, offset);
    forall i, j | 0 <= i < j < |all|
      ensures Precedes(Compiled(f).order, all[i], all[j]) <==> Before(all[i], all[j])
    {
      OrderIs(all[i], all[j]);
    }
  }

  /** The order behind an answer, limit and offset being the arguments the query names. */
  lemma OrderBehind(
    rows: seq<Task>, store: Tasks, q: Query, args: seq<Value>, limit: Value, offset: Value)
    returns (all: seq<Task>)
    requires Answers(rows, store, q, args)
    requires args[q.limit - 1] == limit && args[q.offset - 1] == offset
    ensures Ordered(all, store, q, args) && rows == SqlWindow(all, limit, offset)
  {
    all :| Ordered(all, store, q, args)
           && rows == SqlWindow(all, args[q.limit - 1], args[q.offset - 1]);
  }

  lemma OnlyListing(all: seq<Task>, store: Tasks, f: Filter, limit: int, offset: nat)
    requires Keyed(store) && Ordered(all, store, Compiled(f), Args(f, limit, offset))
    ensures all == Listing(store, f)
  {
    OrderedIsListing(all, store, f, limit, offset);
    ListingIsUnique(all, store, f);
  }

  lemma {:induction false} AnswerIsPage(
    store: Tasks, f: Filter, limit: int, offset: nat, rows: seq<Task>)
    requires Keyed(store) && Answers(rows, store, Compiled(f), Args(f, limit, offset))
    ensures rows == Paginate(Listing(store, f), limit, offset)
  {
    var l := if limit >= 0 then Number(limit) else Null;
    LastArgs(f, limit, offset);
    var all := OrderBehind(rows, store, Compiled(f), Args(f, limit, offset), l, Number(offset));
    OnlyListing(all, store, f, limit, offset);
    WindowIsPage(all, limit, offset);
  }

  lemma PageIsAnswer(store: Tasks, f: Filter, limit: int, offset: nat)
    ensures Answers(Paginate(Listing(store, f), limit, offset), store, Compiled(f),
                    Args(f, limit, offset))
  {
    LastArgs(f, limit, offset);
    OrderedIsListing(Listing(store, f), store, f, limit, offset);
    WindowIsPage(Listing(store, f), limit, offset);
  }

  /** The compiled query and the in-memory listing give the same page of every table. */
  lemma {:induction false} CompiledMeansTheSame(store: Tasks, f: Filter, limit: int, offset: nat, rows: seq<Task>)
    requires Keyed(store)
    ensures Answers(rows, store, Compiled(f), Args(f, limit, offset))
            <==> rows == Paginate(Listing(store, f), limit, offset)
  {
    var q, args := Compiled(f), Args(f, limit, offset);
    if Answers(rows, store, q, args) {
      AnswerIsPage(store, f, limit, offset, rows);
    }
    if rows == Paginate(Listing(store, f), limit, offset) {
      PageIsAnswer(store, f, limit, offset);
    }
  }
}

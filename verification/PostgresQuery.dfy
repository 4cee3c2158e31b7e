/** What PostgreSQL makes of the text of a listing query: reading it, then answering it. */
module PostgresQuery {
  import opened Collections
  import opened Text
  import opened TaskModel

  datatype Column = UserColumn | StatusColumn | PriorityColumn

  /** A bound parameter; names and identifiers travel here, never in the text. */
  datatype Value = Id(id: UserId) | Word(word: string) | Number(n: nat) | Null

  /** Parameters are named by their placeholder numbers, counted from 1. */
  datatype Cond =
    | Equals(column: Column, placeholder: nat)
    | In(column: Column, placeholders: seq<nat>)

  datatype SortKey = CreatedAt | Identifier

  datatype Query = Query(conds: seq<Cond>, order: seq<SortKey>, limit: nat, offset: nat)

  // ---------- Answering ----------

  function Field(row: Task, column: Column): Value {
    match column
    case UserColumn => Id(row.user)
    case StatusColumn =>
      (match row.status
       case Pending => Word("pending")
       case InProgress => Word("in_progress")
       case Done => Word("done")
       case Cancelled => Word("cancelled"))
    case PriorityColumn =>
      (match row.priority
       case Low => Word("low")
       case Medium => Word("medium")
       case High => Word("high"))
  }

  predicate Bound(args: seq<Value>, placeholder: nat, value: Value) {
    1 <= placeholder <= |args| && args[placeholder - 1] == value
  }

  predicate Holds(cond: Cond, row: Task, args: seq<Value>) {
    match cond
    case Equals(column, p) => Bound(args, p, Field(row, column))
    case In(column, ps) => exists i :: 0 <= i < |ps| && Bound(args, ps[i], Field(row, column))
  }

  predicate AllHold(conds: seq<Cond>, row: Task, args: seq<Value>) {
    forall i :: 0 <= i < |conds| ==> Holds(conds[i], row, args)
  }

  function RowsWhere(store: Tasks, conds: seq<Cond>, args: seq<Value>): set<Task> {
    set id | id in store && AllHold(conds, store[id], args) :: store[id]
  }

  function KeyOf(row: Task, key: SortKey): nat {
    match key
    case CreatedAt => row.createdAt
    case Identifier => row.id
  }

  /** ORDER BY order lets a stand before b. */
  predicate Precedes(order: seq<SortKey>, a: Task, b: Task) {
    order == []
    || KeyOf(a, order[0]) < KeyOf(b, order[0])
    || (KeyOf(a, order[0]) == KeyOf(b, order[0]) && Precedes(order[1..], a, b))
  }

  /** OFFSET, then LIMIT, which NULL leaves open. */
  function SqlWindow(rows: seq<Task>, limit: Value, offset: Value): seq<Task> {
    var rest := if offset.Number? && offset.n <= |rows| then rows[offset.n..] else [];
    if limit.Number? && limit.n <= |rest| then rest[..limit.n] else rest
  }

  /** all is one of the orders ORDER BY allows the selected rows to come in. */
  ghost predicate Ordered(all: seq<Task>, store: Tasks, q: Query, args: seq<Value>) {
    && multiset(all) == multiset(RowsWhere(store, q.conds, args))
    && (forall i, j :: 0 <= i < j < |all| ==> Precedes(q.order, all[i], all[j]))
  }

  /** One of the answers the query allows. */
  ghost predicate Answers(rows: seq<Task>, store: Tasks, q: Query, args: seq<Value>) {
    && 1 <= q.limit <= |args| && 1 <= q.offset <= |args|
    && exists all: seq<Task> ::
         && Ordered(all, store, q, args)
         && rows == SqlWindow(all, args[q.limit - 1], args[q.offset - 1])
  }

  // ---------- Reading ----------

  predicate IsDigit(c: char) {
    '0' <= c <= '9'
  }

  function LeadingDigits(s: string): (d: string)
    ensures |d| <= |s|
  {
    if s != "" && IsDigit(s[0]) then [s[0]] + LeadingDigits(s[1..]) else ""
  }

  /** What follows word, if s begins with it. */
  function Expect(word: string, s: string): (rest: Option<string>)
    ensures rest.Some? ==> |rest.value| + |word| == |s|
  {
    if |word| <= |s| && s[..|word|] == word then Some(s[|word|..]) else None
  }

  function ReadPlaceholder(s: string): (r: Option<(nat, string)>)
    ensures r.Some? ==> |r.value.1| < |s|
  {
    var t :- Expect("$", s);
    var digits := LeadingDigits(t);
    if digits == "" then None else Some((ReadNat(digits), t[|digits|..]))
  }

  function ReadPlaceholders(s: string): (r: Option<(seq<nat>, string)>)
    ensures r.Some? ==> |r.value.1| < |s|
    decreases |s|
  {
    var (n, t) :- ReadPlaceholder(s);
    match Expect(", ", t)
    case None => Some(([n], t))
    case Some(u) =>
      var (more, v) :- ReadPlaceholders(u);
      Some(([n] + more, v))
  }

  function ReadIn(column: Column, s: string): (r: Option<(Cond, string)>)
    ensures r.Some? ==> |r.value.1| < |s|
  {
    var (ps, t) :- ReadPlaceholders(s);
    var u :- Expect(")", t);
    Some((In(column, ps), u))
  }

  function ReadCond(s: string): (r: Option<(Cond, string)>)
    ensures r.Some? ==> |r.value.1| < |s|
  {
    match Expect("user_id = ", s)
    case Some(t) =>
      var (n, u) :- ReadPlaceholder(t);
      var v :- Expect("::uuid", u);
      Some((Equals(UserColumn, n), v))
    case None =>
      match Expect("status IN (", s)
      case Some(t) => ReadIn(StatusColumn, t)
      case None =>
        var t :- Expect("priority IN (", s);
        ReadIn(PriorityColumn, t)
  }

  function ReadConds(s: string): (r: Option<(seq<Cond>, string)>)
    ensures r.Some? ==> |r.value.1| < |s|
    decreases |s|
  {
    var (cond, t) :- ReadCond(s);
    match Expect(" AND ", t)
    case None => Some(([cond], t))
    case Some(u) =>
      var (more, v) :- ReadConds(u);
      Some(([cond] + more, v))
  }

  function ReadWhere(s: string): Option<(seq<Cond>, string)> {
    var t :- Expect("WHERE ", s);
    ReadConds(t)
  }

  function ReadKey(s: string): (r: Option<(SortKey, string)>)
    ensures r.Some? ==> |r.value.1| < |s|
  {
    match Expect("created_at", s)
    case Some(t) => Some((CreatedAt, t))
    case None =>
      var t :- Expect("id", s);
      Some((Identifier, t))
  }

  function ReadKeys(s: string): Option<(seq<SortKey>, string)>
    decreases |s|
  {
    var (key, t) :- ReadKey(s);
    match Expect(", ", t)
    case None => Some(([key], t))
    case Some(u) =>
      var (more, v) :- ReadKeys(u);
      Some(([key] + more, v))
  }

  /** What follows the WHERE clause. */
  function ReadTail(conds: seq<Cond>, s: string): Option<Query> {
    var t :- Expect(" ORDER BY ", s);
    var (order, u) :- ReadKeys(t);
    var v :- Expect(" LIMIT ", u);
    var (limit, w) :- ReadPlaceholder(v);
    var x :- Expect("::bigint OFFSET ", w);
    var (offset, y) :- ReadPlaceholder(x);
    var end :- Expect("::bigint", y);
    if end == "" then Some(Query(conds, order, limit, offset)) else None
  }

  /** The query text names, from its WHERE on, or None where this grammar does not fit. */
  function ReadQuery(s: string): Option<Query> {
    var (conds, t) :- ReadWhere(s);
    ReadTail(conds, t)
  }

  /** One of the answers the query of that text allows. */
  ghost predicate AnswersText(rows: seq<Task>, store: Tasks, text: string, args: seq<Value>) {
    ReadQuery(text).Some? && Answers(rows, store, ReadQuery(text).value, args)
  }
}

/**
 What the embedded migration files do to the schema, statement by statement.

 A schema is a catalogue: the columns and CHECK constraints of each table, and the indexes over
 them. A column keeps its definition as text, because nothing here depends on what a type is,
 and names the table its foreign key refers to, because creating and dropping tables do depend
 on that.

 Exec runs one statement as PostgreSQL does inside a transaction: it fails on a repeated
 name, on a missing one unless the statement says IF EXISTS, on dropping a table that is
 still referred to, on a foreign key to a table that is not there, and on an index over a missing
 column; a failing statement fails its whole script. Links is what a pair of scripts has to
 satisfy, and LinkedFold makes a reversible sequence of files out of pairs that follow each
 other.
 */
module Schema {
  import opened Collections

  datatype TableName = Tasks | Users | Sessions | Attachments

  datatype ColumnName =
    | Id | Title | Description | Status | Priority | CreatedAt | UpdatedAt | Version | UserId
    | Email | PasswordHash | TokenHash | ExpiresAt
    | TaskId | OriginalFilename | StorageKey | ContentType | SizeBytes

  datatype IndexName =
    | TasksByCreation | TasksByUser | SessionsByExpiry | SessionsByUser
    | SessionsByUserAndCreation | AttachmentsByTask

  datatype CheckName = TaskStatusCheck | SizeCheck

  datatype Column = Column(definition: string, refs: Option<TableName>)

  datatype Table = Table(columns: map<ColumnName, Column>, checks: map<CheckName, string>)

  datatype Index = Index(table: TableName, columns: seq<ColumnName>)

  datatype Catalogue = Catalogue(tables: map<TableName, Table>, indexes: map<IndexName, Index>)

  const EMPTY := Catalogue(map[], map[])

  datatype Statement =
    | CreateTable(table: TableName, contents: Table)
    | DropTableIfExists(table: TableName)
    | AddColumn(table: TableName, column: ColumnName, added: Column)
    | DropColumn(table: TableName, column: ColumnName)
    | AddCheck(table: TableName, check: CheckName, condition: string)
    | DropCheck(table: TableName, check: CheckName)
    | CreateIndex(index: IndexName, over: Index)
    | DropIndexIfExists(index: IndexName)

  predicate References(t: Table, target: TableName) {
    exists c :: c in t.columns && t.columns[c].refs == Some(target)
  }

  predicate ReferencedElsewhere(s: Catalogue, target: TableName) {
    exists t :: t in s.tables && t != target && References(s.tables[t], target)
  }

  /** The table a foreign key refers to has to be there. */
  predicate Resolves(tables: set<TableName>, column: Column) {
    column.refs.Some? ==> column.refs.value in tables
  }

  predicate Resolved(tables: set<TableName>, contents: Table) {
    forall c :: c in contents.columns ==> Resolves(tables, contents.columns[c])
  }

  predicate Covered(s: Catalogue, over: Index) {
    over.table in s.tables
    && forall k :: 0 <= k < |over.columns| ==> over.columns[k] in s.tables[over.table].columns
  }

  /** The catalogue after one statement, or None where PostgreSQL reports an error. */
  function Exec(s: Catalogue, stmt: Statement): Option<Catalogue> {
    match stmt
    case CreateTable(t, contents) =>
      if t in s.tables || !Resolved(s.tables.Keys + {t}, contents) then None
      else Some(s.(tables := s.tables[t := contents]))
    case DropTableIfExists(t) =>
      if ReferencedElsewhere(s, t) then None
      else Some(Catalogue(s.tables - {t},
                          map i | i in s.indexes && s.indexes[i].table != t :: s.indexes[i]))
    case AddColumn(t, c, added) =>
      if t !in s.tables || c in s.tables[t].columns || !Resolves(s.tables.Keys, added) then None
      else Some(s.(tables := s.tables[t := s.tables[t].(columns := s.tables[t].columns[c := added])]))
    case DropColumn(t, c) =>
      // A dropped column takes the indexes over it along.
      if t !in s.tables || c !in s.tables[t].columns then None
      else Some(Catalogue(
        s.tables[t := s.tables[t].(columns := s.tables[t].columns - {c})],
        map i | i in s.indexes && !(s.indexes[i].table == t && c in s.indexes[i].columns)
          :: s.indexes[i]))
    case AddCheck(t, c, condition) =>
      if t !in s.tables || c in s.tables[t].checks then None
      else Some(s.(tables := s.tables[t := s.tables[t].(checks := s.tables[t].checks[c := condition])]))
    case DropCheck(t, c) =>
      if t !in s.tables || c !in s.tables[t].checks then None
      else Some(s.(tables := s.tables[t := s.tables[t].(checks := s.tables[t].checks - {c})]))
    case CreateIndex(i, over) =>
      if i in s.indexes || !Covered(s, over) then None
      else Some(s.(indexes := s.indexes[i := over]))
    case DropIndexIfExists(i) => Some(s.(indexes := s.indexes - {i}))
  }

  function ExecAll(s: Catalogue, script: seq<Statement>): Option<Catalogue>
    decreases |script|
  {
    if script == [] then Some(s)
    else
      match Exec(s, script[0])
      case None => None
      case Some(s') => ExecAll(s', script[1..])
  }

  datatype Migration = Migration(up: seq<Statement>, down: seq<Statement>)

  /** The catalogue once the first n files have run, in their own order. */
  function Fold(files: seq<Migration>, n: nat): Option<Catalogue>
    requires n <= |files|
  {
    if n == 0 then Some(EMPTY)
    else
      match Fold(files, n - 1)
      case None => None
      case Some(s) => ExecAll(s, files[n - 1].up)
  }

  ghost predicate ReversibleAt(files: seq<Migration>, i: nat)
    requires i < |files|
  {
    && Fold(files, i).Some? && Fold(files, i + 1).Some?
    && ExecAll(Fold(files, i + 1).value, files[i].down) == Fold(files, i)
  }

  /** Every file runs after those before it, and its down script takes its up script back. */
  ghost predicate Reversible(files: seq<Migration>) {
    forall i :: 0 <= i < |files| ==> ReversibleAt(files, i)
  }

  // ---------- Scripts that take each other back ----------

  ghost predicate Links(before: Catalogue, m: Migration, after: Catalogue) {
    ExecAll(before, m.up) == Some(after) && ExecAll(after, m.down) == Some(before)
  }

  lemma One(s: Catalogue, a: Statement)
    ensures ExecAll(s, [a]) == Exec(s, a)
  {
  }

  lemma Two(s: Catalogue, a: Statement, b: Statement)
    ensures ExecAll(s, [a, b]) == match Exec(s, a) case None => None case Some(t) => Exec(t, b)
  {
    assert [a, b][1..] == [b];
    if Exec(s, a).Some? { One(Exec(s, a).value, b); }
  }

  lemma Three(s: Catalogue, a: Statement, b: Statement, c: Statement)
    ensures ExecAll(s, [a, b, c])
            == match Exec(s, a) case None => None case Some(t) => ExecAll(t, [b, c])
  {
  }

  lemma ThreeAsTwoAndOne(s: Catalogue, a: Statement, b: Statement, c: Statement)
    ensures ExecAll(s, [a, b, c])
            == match ExecAll(s, [a, b]) case None => None case Some(t) => Exec(t, c)
  {
    Three(s, a, b, c);
    Two(s, a, b);
    if Exec(s, a).Some? { Two(Exec(s, a).value, b, c); }
  }

  /** Dropping a table nothing references takes back its creation, indexes over it included. */
  lemma DropTakesBack(s: Catalogue, t: TableName, contents: Table, more: map<IndexName, Index>)
    requires t !in s.tables && !ReferencedElsewhere(s, t)
    requires forall i :: i in s.indexes ==> s.indexes[i].table != t
    requires forall i :: i in more ==> i !in s.indexes && more[i].table == t
    ensures Exec(Catalogue(s.tables[t := contents], s.indexes + more), DropTableIfExists(t))
            == Some(s)
  {
    var after := Catalogue(s.tables[t := contents], s.indexes + more);
    assert after.tables - {t} == s.tables;
    assert (map i | i in after.indexes && after.indexes[i].table != t :: after.indexes[i]) == s.indexes;
    assert !ReferencedElsewhere(after, t);
  }

  function WithTable(s: Catalogue, t: TableName, table: Table): Catalogue {
    s.(tables := s.tables[t := table])
  }

  lemma Created(s: Catalogue, t: TableName, contents: Table)
    requires t !in s.tables && Resolved(s.tables.Keys + {t}, contents)
    ensures Exec(s, CreateTable(t, contents)) == Some(WithTable(s, t, contents))
  {
  }

  /** Dropping a column no index covers takes back its addition. */
  lemma FreshColumn(s: Catalogue, t: TableName, c: ColumnName, added: Column)
    requires t in s.tables && c !in s.tables[t].columns && Resolves(s.tables.Keys, added)
    requires forall i :: i in s.indexes && s.indexes[i].table == t ==> c !in s.indexes[i].columns
    ensures var after := WithTable(s, t, s.tables[t].(columns := s.tables[t].columns[c := added]));
            Exec(s, AddColumn(t, c, added)) == Some(after)
            && Exec(after, DropColumn(t, c)) == Some(s)
  {
    var after := WithTable(s, t, s.tables[t].(columns := s.tables[t].columns[c := added]));
    assert after.tables[t].columns - {c} == s.tables[t].columns;
    assert after.tables[t := s.tables[t]] == s.tables;
    assert (map i | i in s.indexes && !(s.indexes[i].table == t && c in s.indexes[i].columns)
              :: s.indexes[i]) == s.indexes;
  }

  /** A check constraint can be replaced under its own name. */
  lemma {:induction false} ReplacedCheck(s: Catalogue, t: TableName, c: CheckName, was: string, next: string)
    requires t in s.tables && s.tables[t].checks == map[c := was]
    ensures ExecAll(s, [DropCheck(t, c), AddCheck(t, c, next)])
            == Some(WithTable(s, t, s.tables[t].(checks := map[c := next])))
  {
    Two(s, DropCheck(t, c), AddCheck(t, c, next));
    var bare := s.tables[t].(checks := map[]);
    assert s.tables[t].checks - {c} == map[];
    assert Exec(s, DropCheck(t, c)) == Some(WithTable(s, t, bare));
    var full := bare.(checks := map[c := next]);
    assert bare.checks[c := next] == full.checks;
    assert s.tables[t := bare][t := full] == s.tables[t := full];
  }

  /** The one index of a catalogue can be exchanged for another. */
  lemma ExchangedIndex(s: Catalogue, was: IndexName, over: Index, name: IndexName, next: Index)
    requires s.indexes == map[was := over] && Covered(s, next)
    ensures ExecAll(s, [DropIndexIfExists(was), CreateIndex(name, next)])
            == Some(s.(indexes := map[name := next]))
  {
    Two(s, DropIndexIfExists(was), CreateIndex(name, next));
    var bare: map<IndexName, Index> := map[];
    assert s.indexes - {was} == bare;
    assert bare[name := next] == map[name := next];
  }

  lemma Overwritten(s: Catalogue, t: TableName, a: Table, b: Table)
    ensures WithTable(WithTable(s, t, a), t, b) == WithTable(s, t, b)
  {
  }

  lemma Unchanged(s: Catalogue, t: TableName)
    requires t in s.tables
    ensures WithTable(s, t, s.tables[t]) == s
  {
  }

  /** Dropping a new index takes back its creation. */
  lemma FreshIndex(s: Catalogue, i: IndexName, over: Index)
    requires i !in s.indexes && Covered(s, over)
    ensures var after := s.(indexes := s.indexes[i := over]);
            Exec(s, CreateIndex(i, over)) == Some(after)
            && Exec(after, DropIndexIfExists(i)) == Some(s)
  {
    assert s.indexes[i := over] - {i} == s.indexes;
  }

  lemma Swapped(m: map<IndexName, Index>, a: IndexName, x: Index, b: IndexName, y: Index)
    requires a != b && a !in m && b !in m
    ensures m[a := x][b := y] - {a} - {b} == m
  {
  }

  lemma OneMoreIndex(indexes: map<IndexName, Index>, i: IndexName, over: Index)
    ensures indexes + map[i := over] == indexes[i := over]
  {
  }

  /** Files linked one after the other are reversible, and states are what they lead through. */
  lemma {:induction false} LinkedFold(files: seq<Migration>, states: seq<Catalogue>, n: nat)
    requires |states| == |files| + 1 && states[0] == EMPTY && n <= |files|
    requires forall i :: 0 <= i < |files| ==> Links(states[i], files[i], states[i + 1])
    ensures Fold(files, n) == Some(states[n])
    ensures forall i :: 0 <= i < n ==> ReversibleAt(files, i)
  {
    if n > 0 {
      LinkedFold(files, states, n - 1);
      assert Links(states[n - 1], files[n - 1], states[n - 1 + 1]);
    }
  }
}

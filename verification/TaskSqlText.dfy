/**
 The text of the PostgreSQL listing, and that it says what it is meant to say.

 The methods write text and arguments in the loops the program has. PostgresQuery reads such a
 text without knowing how it was written, so a misspelled column, a lost AND or a swapped pair
 of sort keys would show.
 Reading is followed piece by piece, and each lemma allows any rest of the text.
 */
module TaskSqlText {
  import opened Collections
  import opened Text
  import opened TaskModel
  import opened TaskQuery
  import opened PostgresQuery
  import opened TaskSql

  // ---------- Its text ----------

  function PlaceholderText(n: nat): string {
    "$" + NatText(n)
  }

  function ColumnName(column: Column): string {
    match column
    case UserColumn => "user_id"
    case StatusColumn => "status"
    case PriorityColumn => "priority"
  }

  function PlaceholderTexts(ps: seq<nat>): seq<string> {
    if ps == [] then [] else PlaceholderTexts(ps[..|ps| - 1]) + [PlaceholderText(ps[|ps| - 1])]
  }

  function CondText(cond: Cond): string {
    match cond
    case Equals(column, p) => ColumnName(column) + " = " + PlaceholderText(p) + "::uuid"
    case In(column, ps) => ColumnName(column) + " IN (" + Join(PlaceholderTexts(ps), ", ") + ")"
  }

  function WhereText(conds: seq<Cond>): string {
    if conds == [] then ""
    else if |conds| == 1 then "WHERE " + CondText(conds[0])
    else WhereText(conds[..|conds| - 1]) + " AND " + CondText(conds[|conds| - 1])
  }

  /** Two placeholders between fixed words. */
  function Framed(s: string, first: string, i: nat, second: string, j: nat, third: string): string {
    s + first + PlaceholderText(i) + second + PlaceholderText(j) + third
  }

  function QueryText(q: Query): string {
    Framed(WhereText(q.conds), " ORDER BY created_at, id LIMIT ", q.limit, "::bigint OFFSET ",
           q.offset, "::bigint")
  }

  lemma OneMoreWord(values: seq<string>, i: nat)
    requires i < |values|
    ensures Words(values[..i + 1]) == Words(values[..i]) + [Word(values[i])]
  {
    assert values[..i + 1][..i] == values[..i];
  }

  method BindAll(args: seq<Value>, values: seq<string>)
    returns (more: seq<Value>, placeholders: seq<string>)
    ensures more == args + Words(values)
    ensures placeholders == PlaceholderTexts(Numbers(|args| + 1, |values|))
  {
    more, placeholders := args, [];
    for i := 0 to |values|
      invariant more == args + Words(values[..i]) && |more| == |args| + i
      invariant placeholders == PlaceholderTexts(Numbers(|args| + 1, i))
    {
      OneMoreWord(values, i);
      more := more + [Word(values[i])];
      placeholders := placeholders + [PlaceholderText(|more|)];
    }
    assert values[..|values|] == values;
  }

  method AppendInClause(
    whereClause: string, args: seq<Value>, column: Column, values: seq<string>,
    ghost conds: seq<Cond>) returns (clause: string, more: seq<Value>)
    requires whereClause == WhereText(conds) && conds != []
    ensures clause == WhereText(conds + InClause(column, |args| + 1, |values|))
    ensures more == args + Words(values)
  {
    if |values| == 0 {
      assert conds + [] == conds && args + [] == args;
      return whereClause, args;
    }
    var placeholders;
    more, placeholders := BindAll(args, values);
    clause := whereClause + " AND "
              + (ColumnName(column) + " IN (" + Join(placeholders, ", ") + ")");
  }

  method StatusValues(statuses: seq<Status>) returns (values: seq<string>)
    ensures values == StatusNames(statuses)
  {
    values := [];
    for i := 0 to |statuses|
      invariant values == StatusNames(statuses[..i])
    {
      assert statuses[..i + 1][..i] == statuses[..i];
      values := values + [StatusName(statuses[i])];
    }
    assert statuses[..|statuses|] == statuses;
  }

  method PriorityValues(priorities: seq<Priority>) returns (values: seq<string>)
    ensures values == PriorityNames(priorities)
  {
    values := [];
    for i := 0 to |priorities|
      invariant values == PriorityNames(priorities[..i])
    {
      assert priorities[..i + 1][..i] == priorities[..i];
      values := values + [PriorityName(priorities[i])];
    }
    assert priorities[..|priorities|] == priorities;
  }

  method BuildTaskFilterWhere(f: Filter) returns (clause: string, args: seq<Value>)
    ensures clause == WhereText(Conds(f))
    ensures args == FilterArgs(f)
  {
    clause := "WHERE " + ("user_id" + " = " + PlaceholderText(1) + "::uuid");
    args := [Id(f.user)];
    ghost var conds := [Equals(UserColumn, 1)];
    var statusValues := StatusValues(f.statuses);
    var priorityValues := PriorityValues(f.priorities);
    NamesAre(f.statuses);
    PriorityNamesAre(f.priorities);
    WordsAre(statusValues);
    clause, args := AppendInClause(clause, args, StatusColumn, statusValues, conds);
    conds := conds + InClause(StatusColumn, 2, |f.statuses|);
    clause, args := AppendInClause(clause, args, PriorityColumn, priorityValues, conds);
  }

  /** Of every table, the one answer to the query of that text is the page asked for. */
  ghost predicate ServesPage(
    text: string, args: seq<Value>, f: Filter, limit: int, offset: nat)
  {
    forall store, rows :: Keyed(store) ==>
      (AnswersText(rows, store, text, args) <==> rows == Paginate(Listing(store, f), limit, offset))
  }

  method FindAllQuery(f: Filter, limit: int, offset: nat) returns (text: string, args: seq<Value>)
    ensures text == QueryText(Compiled(f))
    ensures args == Args(f, limit, offset)
    // PostgreSQL's answer to it is the in-memory page, of every table.
    ensures ServesPage(text, args, f, limit, offset)
  {
    text, args := BuildTaskFilterWhere(f);
    var limitArg := if limit >= 0 then Number(limit) else Null;
    args := args + [limitArg, Number(offset)];
    ArgsCount(f);
    text := text + " ORDER BY created_at, id LIMIT " + PlaceholderText(|args| - 1)
            + "::bigint OFFSET " + PlaceholderText(|args|) + "::bigint";
    assert text == QueryText(Compiled(f)) && args == Args(f, limit, offset);
    EveryTableAgrees(f, limit, offset);
  }

  // ---------- Read back from the text ----------

  /** No digit follows, so a number written before s ends there. */
  predicate Stops(s: string) {
    s == "" || !IsDigit(s[0])
  }

  lemma {:induction false} DigitsLead(d: string, b: string)
    requires Stops(b) && forall i :: 0 <= i < |d| ==> IsDigit(d[i])
    ensures LeadingDigits(d + b) == d
  {
    if d == "" {
      assert d + b == b;
    } else {
      assert (d + b)[1..] == d[1..] + b;
      DigitsLead(d[1..], b);
      assert [d[0]] + d[1..] == d;
    }
  }

  lemma {:induction false} PlaceholderTextsAre(ps: seq<nat>)
    ensures |PlaceholderTexts(ps)| == |ps|
    ensures forall i :: 0 <= i < |ps| ==> PlaceholderTexts(ps)[i] == PlaceholderText(ps[i])
  {
    if ps != [] { PlaceholderTextsAre(ps[..|ps| - 1]); }
  }

  lemma Expects(word: string, rest: string)
    ensures Expect(word, word + rest) == Some(rest)
  {
    assert (word + rest)[..|word|] == word;
  }

  lemma ExpectsNot(word: string, s: string, k: nat)
    requires k < |word| && (k < |s| ==> s[k] != word[k])
    ensures Expect(word, s).None?
  {
    if |word| <= |s| { assert s[..|word|][k] == s[k]; }
  }

  lemma Regrouped(a: string, b: string, c: string)
    ensures a + b + c == a + (b + c)
  {
  }

  lemma PlaceholderReads(n: nat, rest: string)
    requires Stops(rest)
    ensures ReadPlaceholder(PlaceholderText(n) + rest) == Some((n, rest))
  {
    var digits := NatText(n);
    NatTextReadsBack(n);
    DigitsLead(digits, rest);
    Regrouped("$", digits, rest);
    Expects("$", digits + rest);
    assert (digits + rest)[|digits|..] == rest;
  }

  lemma LastPlaceholderReads(n: nat, rest: string)
    requires Stops(rest) && (rest != "" ==> rest[0] != ',')
    ensures ReadPlaceholders(PlaceholderText(n) + rest) == Some(([n], rest))
  {
    PlaceholderReads(n, rest);
    ExpectsNot(", ", rest, 0);
  }

  lemma NextPlaceholderReads(n: nat, sep: string, more: string, ns: seq<nat>, rest: string)
    requires sep == ", " && ReadPlaceholders(more) == Some((ns, rest))
    ensures ReadPlaceholders(PlaceholderText(n) + (sep + more)) == Some(([n] + ns, rest))
  {
    PlaceholderReads(n, sep + more);
    Expects(sep, more);
  }

  lemma JoinedHead(parts: seq<string>, sep: string, rest: string)
    requires |parts| > 1
    ensures Join(parts, sep) + rest == parts[0] + (sep + (Join(parts[1..], sep) + rest))
  {
    var tail := Join(parts[1..], sep);
    Regrouped(parts[0], sep, tail);
    Regrouped(parts[0], sep + tail, rest);
    Regrouped(sep, tail, rest);
  }

  lemma {:induction false} PlaceholdersRead(ps: seq<nat>, texts: seq<string>, sep: string, rest: string)
    requires |texts| == |ps| > 0 && sep == ", "
    requires Stops(rest) && (rest != "" ==> rest[0] != ',')
    requires forall i :: 0 <= i < |ps| ==> texts[i] == PlaceholderText(ps[i])
    ensures ReadPlaceholders(Join(texts, sep) + rest) == Some((ps, rest))
    decreases |ps|
  {
    if |ps| == 1 {
      LastPlaceholderReads(ps[0], rest);
      assert ps == [ps[0]];
    } else {
      var more := Join(texts[1..], sep) + rest;
      PlaceholdersRead(ps[1..], texts[1..], sep, rest);
      JoinedHead(texts, sep, rest);
      NextPlaceholderReads(ps[0], sep, more, ps[1..], rest);
      assert ps == [ps[0]] + ps[1..];
    }
  }

  lemma InReads(column: Column, ps: seq<nat>, rest: string)
    requires ps != []
    ensures ReadIn(column, Join(PlaceholderTexts(ps), ", ") + (")" + rest))
            == Some((In(column, ps), rest))
  {
    PlaceholderTextsAre(ps);
    PlaceholdersRead(ps, PlaceholderTexts(ps), ", ", ")" + rest);
    Expects(")", rest);
  }

  /** The clauses this grammar has: one on the owner, lists on the other two columns. */
  predicate Readable(cond: Cond) {
    match cond
    case Equals(column, _) => column == UserColumn
    case In(column, ps) => column != UserColumn && ps != []
  }

  lemma EqualsReads(p: nat, word: string, cast: string, rest: string)
    requires word == "user_id = " && cast == "::uuid"
    ensures ReadCond(word + (PlaceholderText(p) + (cast + rest)))
            == Some((Equals(UserColumn, p), rest))
  {
    Expects(word, PlaceholderText(p) + (cast + rest));
    PlaceholderReads(p, cast + rest);
    Expects(cast, rest);
  }

  lemma ListReads(column: Column, word: string, tail: string)
    requires (column == StatusColumn && word == "status IN (")
             || (column == PriorityColumn && word == "priority IN (")
    ensures ReadCond(word + tail) == ReadIn(column, tail)
  {
    Expects(word, tail);
    assert (word + tail)[0] == word[0];
    ExpectsNot("user_id = ", word + tail, 0);
    if column == PriorityColumn { ExpectsNot("status IN (", word + tail, 0); }
  }

  lemma EqualsGroups(word: string, p: string, cast: string, rest: string)
    ensures word + p + cast + rest == word + (p + (cast + rest))
  {
  }

  lemma ListGroups(word: string, list: string, end: string, rest: string)
    ensures word + list + end + rest == word + (list + (end + rest))
  {
  }

  lemma {:induction false} CondReads(cond: Cond, rest: string)
    requires Readable(cond)
    ensures ReadCond(CondText(cond) + rest) == Some((cond, rest))
  {
    match cond {
      case Equals(_, p) =>
        var word := "user_id = ";
        assert word == "user_id" + " = ";
        EqualsGroups(word, PlaceholderText(p), "::uuid", rest);
        EqualsReads(p, word, "::uuid", rest);
      case In(column, ps) =>
        var word := ColumnName(column) + " IN (";
        ListGroups(word, Join(PlaceholderTexts(ps), ", "), ")", rest);
        ListReads(column, word, Join(PlaceholderTexts(ps), ", ") + (")" + rest));
        InReads(column, ps, rest);
    }
  }

  function CondTexts(conds: seq<Cond>): seq<string> {
    if conds == [] then [] else [CondText(conds[0])] + CondTexts(conds[1..])
  }

  /** Whatever follows it, text is read as cond. */
  ghost predicate Spells(text: string, cond: Cond) {
    forall rest :: ReadCond(text + rest) == Some((cond, rest))
  }

  lemma CondIsSpelled(cond: Cond)
    requires Readable(cond)
    ensures Spells(CondText(cond), cond)
  {
    forall rest ensures ReadCond(CondText(cond) + rest) == Some((cond, rest)) {
      CondReads(cond, rest);
    }
  }

  lemma {:induction false} LastCondReads(cond: Cond, text: string, rest: string)
    requires Spells(text, cond) && (|rest| > 1 ==> rest[1] != 'A')
    ensures ReadConds(text + rest) == Some(([cond], rest))
  {
    ExpectsNot(" AND ", rest, 1);
  }

  lemma NextCondReads(
    cond: Cond, text: string, and: string, more: string, conds: seq<Cond>, rest: string)
    requires Spells(text, cond) && and == " AND " && ReadConds(more) == Some((conds, rest))
    ensures ReadConds(text + (and + more)) == Some(([cond] + conds, rest))
  {
    Expects(and, more);
  }

  lemma OneTextReads(conds: seq<Cond>, texts: seq<string>, and: string, rest: string)
    requires |texts| == |conds| == 1 && Spells(texts[0], conds[0]) && (|rest| > 1 ==> rest[1] != 'A')
    ensures ReadConds(Join(texts, and) + rest) == Some((conds, rest))
  {
    LastCondReads(conds[0], texts[0], rest);
    assert conds == [conds[0]];
  }

  lemma MoreTextsRead(conds: seq<Cond>, texts: seq<string>, and: string, rest: string)
    requires |texts| == |conds| > 1 && and == " AND " && Spells(texts[0], conds[0])
    requires ReadConds(Join(texts[1..], and) + rest) == Some((conds[1..], rest))
    ensures ReadConds(Join(texts, and) + rest) == Some((conds, rest))
  {
    JoinedHead(texts, and, rest);
    NextCondReads(conds[0], texts[0], and, Join(texts[1..], and) + rest, conds[1..], rest);
    assert conds == [conds[0]] + conds[1..];
  }

  lemma {:induction false} CondsRead(conds: seq<Cond>, texts: seq<string>, and: string, rest: string)
    requires |texts| == |conds| > 0 && and == " AND " && (|rest| > 1 ==> rest[1] != 'A')
    requires forall i :: 0 <= i < |conds| ==> Spells(texts[i], conds[i])
    ensures ReadConds(Join(texts, and) + rest) == Some((conds, rest))
    decreases |conds|
  {
    if |conds| == 1 {
      OneTextReads(conds, texts, and, rest);
    } else {
      CondsRead(conds[1..], texts[1..], and, rest);
      MoreTextsRead(conds, texts, and, rest);
    }
  }

  lemma {:induction false} CondTextsAre(conds: seq<Cond>)
    ensures |CondTexts(conds)| == |conds|
    ensures forall i :: 0 <= i < |conds| ==> CondTexts(conds)[i] == CondText(conds[i])
  {
    if conds != [] { CondTextsAre(conds[1..]); }
  }

  lemma {:induction false} JoinedLast(parts: seq<string>, sep: string, last: string)
    requires parts != []
    ensures Join(parts + [last], sep) == Join(parts, sep) + sep + last
    decreases |parts|
  {
    assert (parts + [last])[1..] == parts[1..] + [last];
    if |parts| == 1 {
      assert parts[1..] == [];
    } else {
      JoinedLast(parts[1..], sep, last);
      LastGroups(parts[0], sep, Join(parts[1..], sep), last);
    }
  }

  lemma LastGroups(first: string, sep: string, rest: string, last: string)
    ensures first + sep + (rest + sep + last) == first + sep + rest + sep + last
  {
  }

  lemma {:induction false} OneMoreText(conds: seq<Cond>, cond: Cond)
    ensures CondTexts(conds + [cond]) == CondTexts(conds) + [CondText(cond)]
    decreases |conds|
  {
    if conds == [] {
      assert [cond][1..] == [] && conds + [cond] == [cond];
    } else {
      assert (conds + [cond])[1..] == conds[1..] + [cond];
      OneMoreText(conds[1..], cond);
    }
  }

  lemma WhereGrows(init: seq<Cond>, last: Cond)
    requires init != []
    ensures WhereText(init + [last]) == WhereText(init) + " AND " + CondText(last)
  {
    assert (init + [last])[..|init|] == init;
  }

  lemma AndGroups(word: string, joined: string, and: string, last: string)
    ensures word + joined + and + last == word + (joined + and + last)
  {
  }

  lemma JoinedStep(init: seq<Cond>, last: Cond, word: string, and: string)
    requires init != [] && word == "WHERE " && and == " AND "
    requires WhereText(init) == word + Join(CondTexts(init), and)
    ensures WhereText(init + [last]) == word + Join(CondTexts(init + [last]), and)
  {
    CondTextsAre(init);
    OneMoreText(init, last);
    JoinedLast(CondTexts(init), and, CondText(last));
    WhereGrows(init, last);
    AndGroups(word, Join(CondTexts(init), and), and, CondText(last));
  }

  lemma OneIsJoined(cond: Cond)
    ensures WhereText([cond]) == "WHERE " + Join(CondTexts([cond]), " AND ")
  {
    assert [cond][1..] == [] && CondTexts([cond]) == [CondText(cond)];
  }

  lemma {:induction false} WhereIsJoined(conds: seq<Cond>, word: string, and: string)
    requires conds != [] && word == "WHERE " && and == " AND "
    ensures WhereText(conds) == word + Join(CondTexts(conds), and)
    decreases |conds|
  {
    var init, last := conds[..|conds| - 1], conds[|conds| - 1];
    assert conds == init + [last];
    if init == [] {
      assert conds == [last];
      OneIsJoined(last);
    } else {
      WhereIsJoined(init, word, and);
      JoinedStep(init, last, word, and);
    }
  }

  lemma {:induction false} WhereReads(conds: seq<Cond>, word: string, rest: string)
    requires conds != [] && word == "WHERE " && (|rest| > 1 ==> rest[1] != 'A')
    requires forall i :: 0 <= i < |conds| ==> Readable(conds[i])
    ensures ReadWhere(WhereText(conds) + rest) == Some((conds, rest))
  {
    var joined := Join(CondTexts(conds), " AND ");
    WhereIsJoined(conds, word, " AND ");
    Regrouped(word, joined, rest);
    Expects(word, joined + rest);
    CondTextsAre(conds);
    forall i | 0 <= i < |conds| ensures Spells(CondTexts(conds)[i], conds[i]) {
      CondIsSpelled(conds[i]);
    }
    CondsRead(conds, CondTexts(conds), " AND ", rest);
  }

  lemma IdReads(id: string, rest: string)
    requires id == "id" && (rest != "" ==> rest[0] != ',')
    ensures ReadKeys(id + rest) == Some(([Identifier], rest))
  {
    assert (id + rest)[0] == 'i';
    ExpectsNot("created_at", id + rest, 0);
    Expects(id, rest);
    ExpectsNot(", ", rest, 0);
  }

  lemma KeysRead(created: string, sep: string, id: string, rest: string)
    requires created == "created_at" && sep == ", " && id == "id"
    requires rest != "" ==> rest[0] != ','
    ensures ReadKeys(created + (sep + (id + rest))) == Some(([CreatedAt, Identifier], rest))
  {
    Expects(created, sep + (id + rest));
    Expects(sep, id + rest);
    IdReads(id, rest);
    assert [CreatedAt] + [Identifier] == [CreatedAt, Identifier];
  }

  /** What follows the WHERE clause, in the pieces the reader takes off. */
  function Tail(limit: nat, offset: nat): string {
    " ORDER BY " + ("created_at" + (", " + ("id" + Window(limit, offset))))
  }

  function Window(limit: nat, offset: nat): string {
    " LIMIT " + (PlaceholderText(limit)
                 + ("::bigint OFFSET " + (PlaceholderText(offset) + "::bigint")))
  }

  lemma WindowReads(
    conds: seq<Cond>, order: seq<SortKey>, limit: nat, offset: nat, mid: string, end: string)
    requires mid == "::bigint OFFSET " && end == "::bigint"
    ensures ReadPlaceholder(PlaceholderText(limit) + (mid + (PlaceholderText(offset) + end)))
            == Some((limit, mid + (PlaceholderText(offset) + end)))
    ensures Expect(mid, mid + (PlaceholderText(offset) + end))
            == Some(PlaceholderText(offset) + end)
    ensures ReadPlaceholder(PlaceholderText(offset) + end) == Some((offset, end))
    ensures Expect(end, end) == Some("")
  {
    PlaceholderReads(limit, mid + (PlaceholderText(offset) + end));
    Expects(mid, PlaceholderText(offset) + end);
    PlaceholderReads(offset, end);
    Expects(end, "");
    assert end + "" == end;
  }

  lemma TailReads(conds: seq<Cond>, limit: nat, offset: nat)
    ensures ReadTail(conds, Tail(limit, offset))
            == Some(Query(conds, [CreatedAt, Identifier], limit, offset))
  {
    var window := Window(limit, offset);
    Expects(" ORDER BY ", "created_at" + (", " + ("id" + window)));
    KeysRead("created_at", ", ", "id", window);
    Expects(" LIMIT ", PlaceholderText(limit)
                       + ("::bigint OFFSET " + (PlaceholderText(offset) + "::bigint")));
    WindowReads(conds, [CreatedAt, Identifier], limit, offset, "::bigint OFFSET ", "::bigint");
  }

  lemma FramedGroups(s: string, first: string, p: string, second: string, q: string, third: string)
    ensures s + first + p + second + q + third == s + (first + (p + (second + (q + third))))
  {
  }

  lemma FiveGroup(a: string, b: string, c: string, d: string, e: string, rest: string)
    ensures a + (b + (c + (d + (e + rest)))) == (a + b + c + d + e) + rest
  {
  }

  lemma QueryTextIs(q: Query)
    ensures QueryText(q) == WhereText(q.conds) + Tail(q.limit, q.offset)
  {
    var first := " ORDER BY created_at, id LIMIT ";
    assert first == " ORDER BY " + "created_at" + ", " + "id" + " LIMIT ";
    FramedGroups(WhereText(q.conds), first, PlaceholderText(q.limit), "::bigint OFFSET ",
                 PlaceholderText(q.offset), "::bigint");
    FiveGroup(" ORDER BY ", "created_at", ", ", "id", " LIMIT ",
              PlaceholderText(q.limit)
              + ("::bigint OFFSET " + (PlaceholderText(q.offset) + "::bigint")));
  }

  lemma CondsAreReadable(f: Filter)
    ensures forall i :: 0 <= i < |Conds(f)| ==> Readable(Conds(f)[i])
  {
    NumbersAre(2, |f.statuses|);
    NumbersAre(2 + |f.statuses|, |f.priorities|);
  }

  lemma TailStarts(limit: nat, offset: nat)
    ensures |Tail(limit, offset)| > 1 && Tail(limit, offset)[1] == 'O'
  {
  }

  lemma QueryReads(q: Query)
    requires q.conds != [] && q.order == [CreatedAt, Identifier]
    requires forall i :: 0 <= i < |q.conds| ==> Readable(q.conds[i])
    ensures ReadQuery(WhereText(q.conds) + Tail(q.limit, q.offset)) == Some(q)
  {
    TailStarts(q.limit, q.offset);
    WhereReads(q.conds, "WHERE ", Tail(q.limit, q.offset));
    TailReads(q.conds, q.limit, q.offset);
  }

  /** Read as PostgreSQL reads it, the clause list is the compiled one. */
  lemma WhereReadsBack(f: Filter)
    ensures ReadWhere(WhereText(Conds(f))) == Some((Conds(f), ""))
  {
    CondsAreReadable(f);
    WhereReads(Conds(f), "WHERE ", "");
    assert WhereText(Conds(f)) + "" == WhereText(Conds(f));
  }

  /** And the finished text is the compiled query. */
  lemma TextReadsBack(f: Filter)
    ensures ReadQuery(QueryText(Compiled(f))) == Some(Compiled(f))
  {
    CondsAreReadable(f);
    QueryTextIs(Compiled(f));
    QueryReads(Compiled(f));
  }

  /** Read back, the finished text names $1, $2, ... up to the last argument, each once and in order. */
  lemma TextNamesEveryPlaceholderOnce(f: Filter, limit: int, offset: nat)
    ensures var read := ReadQuery(QueryText(Compiled(f)));
            read.Some? && Placeholders(read.value) == Numbers(1, |Args(f, limit, offset)|)
  {
    TextReadsBack(f);
    EveryPlaceholderOnce(f, limit, offset);
  }

  // ---------- What the text means ----------

  /** Read back, the clause list selects with its arguments what the in-memory filter selects. */
  lemma WhereSelectsAsRead(f: Filter)
    ensures var read := ReadWhere(WhereText(Conds(f)));
            && read.Some? && read.value.1 == ""
            && (forall store :: RowsWhere(store, read.value.0, FilterArgs(f)) == Selected(store, f))
  {
    WhereReadsBack(f);
    forall store ensures RowsWhere(store, Conds(f), FilterArgs(f)) == Selected(store, f) {
      CountSelects(store, f);
    }
  }

  /** So do the text that is sent and the in-memory listing. */
  lemma TextMeansTheSame(store: Tasks, f: Filter, limit: int, offset: nat, rows: seq<Task>)
    requires Keyed(store)
    ensures AnswersText(rows, store, QueryText(Compiled(f)), Args(f, limit, offset))
            <==> rows == Paginate(Listing(store, f), limit, offset)
  {
    TextReadsBack(f);
    CompiledMeansTheSame(store, f, limit, offset, rows);
  }

  lemma EveryTableAgrees(f: Filter, limit: int, offset: nat)
    ensures ServesPage(QueryText(Compiled(f)), Args(f, limit, offset), f, limit, offset)
  {
    forall store, rows | Keyed(store)
      ensures AnswersText(rows, store, QueryText(Compiled(f)), Args(f, limit, offset))
              <==> rows == Paginate(Listing(store, f), limit, offset)
    {
      TextMeansTheSame(store, f, limit, offset, rows);
    }
  }
}

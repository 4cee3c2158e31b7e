/** The entity tags of task responses, and what a 304 promises over a whole run. */
module ETag {
  import opened Collections
  import opened Text
  import opened TaskModel
  import opened TaskHistory

  // A task ID is written as its digits; a UUID's text has no ':' or ';' either.

  function RowText(t: Task): string {
    NatText(t.id) + ":" + IntText(t.version) + ";"
  }

  function PageText(rows: seq<Task>): string {
    if rows == [] then "" else RowText(rows[0]) + PageText(rows[1..])
  }

  /** Stands for the hex digest: collision-free, and without commas, quotes or spaces. */
  function Digest(text: string): string {
    if text == "" then "" else NatText(text[0] as nat) + ['.'] + Digest(text[1..])
  }

  function Quoted(s: string): string {
    "\"" + s + "\""
  }

  function TaskTag(t: Task): string {
    Quoted(NatText(t.id) + ":" + IntText(t.version))
  }

  function PageTagOf(rows: seq<Task>): string {
    Quoted(Digest(PageText(rows)))
  }

  lemma Appended(a: string, b: string, c: string)
    ensures a + (b + c) == (a + b) + c
  {
  }

  method PageTag(rows: seq<Task>) returns (tag: string)
    ensures tag == PageTagOf(rows)
  {
    var digested := "";
    for i := 0 to |rows|
      invariant digested + PageText(rows[i..]) == PageText(rows)
    {
      var row := RowText(rows[i]);
      assert rows[i..][1..] == rows[i + 1..];
      Appended(digested, row, PageText(rows[i + 1..]));
      digested := digested + row;
    }
    assert PageText(rows[|rows|..]) == "" && digested + "" == digested;
    return Quoted(Digest(digested));
  }

  lemma {:induction false} DigestInjective(a: string, b: string)
    requires Digest(a) == Digest(b)
    ensures a == b
    decreases |a|
  {
    if a != "" && b != "" {
      var x, y := a[0] as nat, b[0] as nat;
      NatTextReadsBack(x);
      NatTextReadsBack(y);
      SplitsOnce(NatText(x), NatText(y), Digest(a[1..]), Digest(b[1..]), '.');
      NatTextInjective(x, y);
      DigestInjective(a[1..], b[1..]);
      assert a == [a[0]] + a[1..] && b == [b[0]] + b[1..];
    }
  }

  lemma QuotedInjective(a: string, b: string)
    requires Quoted(a) == Quoted(b)
    ensures a == b
  {
    assert Quoted(a)[1..|a| + 1] == a && Quoted(b)[1..|b| + 1] == b;
  }

  predicate SameVersions(a: seq<Task>, b: seq<Task>) {
    |a| == |b| && forall i :: 0 <= i < |a| ==> a[i].id == b[i].id && a[i].version == b[i].version
  }

  lemma RowTextDecodes(a: Task, b: Task, x: string, y: string)
    requires RowText(a) + x == RowText(b) + y
    ensures a.id == b.id && a.version == b.version && x == y
  {
    NatTextReadsBack(a.id);
    NatTextReadsBack(b.id);
    IntTextLacks(a.version, ';');
    IntTextLacks(b.version, ';');
    assert RowText(a) + x == NatText(a.id) + [':'] + (IntText(a.version) + [';'] + x);
    assert RowText(b) + y == NatText(b.id) + [':'] + (IntText(b.version) + [';'] + y);
    SplitsOnce(NatText(a.id), NatText(b.id),
               IntText(a.version) + [';'] + x, IntText(b.version) + [';'] + y, ':');
    SplitsOnce(IntText(a.version), IntText(b.version), x, y, ';');
    NatTextInjective(a.id, b.id);
    IntTextInjective(a.version, b.version);
  }

  /** The digested text decodes uniquely, back to the IDs and versions of the rows in order. */
  lemma {:induction false} PageTextDecodes(a: seq<Task>, b: seq<Task>)
    ensures PageText(a) == PageText(b) <==> SameVersions(a, b)
    decreases |a|
  {
    if a != [] && b != [] {
      PageTextDecodes(a[1..], b[1..]);
      if PageText(a) == PageText(b) {
        RowTextDecodes(a[0], b[0], PageText(a[1..]), PageText(b[1..]));
      }
    }
  }

  /** rows are all rows of s's table; which of them, and in what order, is up to the query. */
  predicate ReadFrom(rows: seq<Task>, s: State) {
    forall i :: 0 <= i < |rows| ==> rows[i].id in s.store && s.store[rows[i].id] == rows[i]
  }

  /**
   A 304 is sound: in every run, two pages read at any two instants and with the same tag carry
   identical rows (section 13.1.2 of RFC 9110).
   */
  lemma {:induction false} NotModifiedIsSound(
    s: State, actions: seq<Action>, earlier: seq<Task>, later: seq<Task>)
    requires Reachable(s) && Run(s, actions).Some?
    requires ReadFrom(earlier, s) && ReadFrom(later, Run(s, actions).value)
    requires PageTagOf(earlier) == PageTagOf(later)
    ensures earlier == later
  {
    QuotedInjective(Digest(PageText(earlier)), Digest(PageText(later)));
    DigestInjective(PageText(earlier), PageText(later));
    PageTextDecodes(earlier, later);
    forall i | 0 <= i < |earlier| ensures earlier[i] == later[i] {
      VersionFixesContent(s, actions, earlier[i], later[i]);
    }
  }

  /** The same for GET /v1/tasks/{id}. */
  lemma TaskNotModifiedIsSound(s: State, actions: seq<Action>, a: Task, b: Task)
    requires Reachable(s) && Run(s, actions).Some?
    requires ReadFrom([a], s) && ReadFrom([b], Run(s, actions).value)
    requires TaskTag(a) == TaskTag(b)
    ensures a == b
  {
    var x, y := NatText(a.id) + ":" + IntText(a.version), NatText(b.id) + ":" + IntText(b.version);
    QuotedInjective(x, y);
    assert RowText(a) == x + ";" && RowText(b) == y + ";";
    RowTextDecodes(a, b, "", "");
    assert [a][0] == a && [b][0] == b;
    VersionFixesContent(s, actions, a, b);
  }

  // ---------- If-None-Match ----------

  function Split(s: string, sep: char): (parts: seq<string>)
    ensures |parts| > 0
  {
    if s == "" then [""]
    else
      var rest := Split(s[1..], sep);
      if s[0] == sep then [""] + rest else [[s[0]] + rest[0]] + rest[1..]
  }

  predicate IsSpace(c: char) {
    c == ' ' || '\t' <= c <= '\r'
  }

  function TrimLeft(s: string): string {
    if s != "" && IsSpace(s[0]) then TrimLeft(s[1..]) else s
  }

  function TrimRight(s: string): string {
    if s != "" && IsSpace(s[|s| - 1]) then TrimRight(s[..|s| - 1]) else s
  }

  function TrimSpace(s: string): string {
    TrimRight(TrimLeft(s))
  }

  predicate Lists(items: seq<string>, etag: string) {
    exists i :: 0 <= i < |items| && TrimSpace(items[i]) == etag
  }

  /** The header is the wildcard, or one of its comma-separated items is the tag. */
  predicate Hits(header: string, etag: string) {
    header != "" && (header == "*" || Lists(Split(header, ','), etag))
  }

  method IfNoneMatchHits(header: string, etag: string) returns (hit: bool)
    ensures hit == Hits(header, etag)
    ensures header == "" ==> !hit
    ensures header == "*" ==> hit
    ensures header != "" && header != "*" ==> (hit <==> Lists(Split(header, ','), etag))
  {
    if header == "" {
      return false;
    }
    if header == "*" {
      return true;
    }
    var items := Split(header, ',');
    for i := 0 to |items|
      invariant forall j :: 0 <= j < i ==> TrimSpace(items[j]) != etag
    {
      if TrimSpace(items[i]) == etag {
        return true;
      }
    }
    return false;
  }

  /** A strong entity tag as this service writes it. */
  predicate IsTag(t: string) {
    |t| >= 2 && t[0] == '"' && t[|t| - 1] == '"' && Lacks(t, ',')
  }

  lemma {:induction false} SplitFirst(a: string, x: string, sep: char)
    requires Lacks(a, sep)
    ensures Split(a + [sep] + x, sep) == [a] + Split(x, sep)
  {
    var s := a + [sep] + x;
    if a == "" {
      assert s[1..] == x;
    } else {
      assert s[1..] == a[1..] + [sep] + x;
      SplitFirst(a[1..], x, sep);
      assert [a[0]] + a[1..] == a;
    }
  }

  lemma {:induction false} SplitNone(a: string, sep: char)
    requires Lacks(a, sep)
    ensures Split(a, sep) == [a]
  {
    if a != "" {
      SplitNone(a[1..], sep);
      assert [a[0]] + a[1..] == a;
    }
  }

  lemma SplitMore(first: string, rest: string)
    requires Lacks(first, ',')
    ensures Split(first + (", " + rest), ',')
            == [first] + ([" " + Split(rest, ',')[0]] + Split(rest, ',')[1..])
  {
    assert first + (", " + rest) == first + [','] + (" " + rest);
    SplitFirst(first, " " + rest, ',');
  }

  /** The items of a header that lists tags: the tags, all but the first after a space. */
  function HeaderItems(tags: seq<string>): (items: seq<string>)
    requires tags != []
    ensures items != []
  {
    if |tags| == 1 then tags
    else
      var rest := HeaderItems(tags[1..]);
      [tags[0]] + ([" " + rest[0]] + rest[1..])
  }

  lemma {:induction false} SplitHeader(tags: seq<string>)
    requires tags != [] && forall i :: 0 <= i < |tags| ==> IsTag(tags[i])
    ensures Split(Join(tags, ", "), ',') == HeaderItems(tags)
  {
    if |tags| == 1 {
      SplitNone(tags[0], ',');
    } else {
      var rest := Join(tags[1..], ", ");
      SplitHeader(tags[1..]);
      assert Join(tags, ", ") == tags[0] + (", " + rest);
      SplitMore(tags[0], rest);
    }
  }

  lemma {:induction false} HeaderItemsAre(tags: seq<string>)
    requires tags != []
    ensures |HeaderItems(tags)| == |tags| && HeaderItems(tags)[0] == tags[0]
    ensures forall i :: 1 <= i < |tags| ==> HeaderItems(tags)[i] == " " + tags[i]
  {
    if |tags| > 1 { HeaderItemsAre(tags[1..]); }
  }

  lemma TagIsTrimmed(t: string)
    requires IsTag(t)
    ensures TrimSpace(t) == t && TrimSpace(" " + t) == t
  {
  }

  /** A client that sends back tags it was given is answered 304 exactly if the current one is among them. */
  lemma {:induction false} HeaderNamesItsTags(tags: seq<string>, etag: string)
    requires forall i :: 0 <= i < |tags| ==> IsTag(tags[i])
    ensures Hits(Join(tags, ", "), etag) <==> etag in tags
  {
    if tags != [] {
      SplitHeader(tags);
      HeaderItemsAre(tags);
      var header := Join(tags, ", ");
      var items := Split(header, ',');
      forall i | 0 <= i < |tags| ensures TrimSpace(items[i]) == tags[i] {
        TagIsTrimmed(tags[i]);
      }
      assert header[0] == tags[0][0];
    }
  }

  lemma {:induction false} DigestLacks(text: string)
    ensures Lacks(Digest(text), ',')
  {
    if text != "" {
      NatTextReadsBack(text[0] as nat);
      DigestLacks(text[1..]);
    }
  }

  lemma PageTagIsTag(rows: seq<Task>)
    ensures IsTag(PageTagOf(rows))
  {
    DigestLacks(PageText(rows));
  }

  lemma TaskTagIsTag(t: Task)
    ensures IsTag(TaskTag(t))
  {
    NatTextReadsBack(t.id);
    IntTextLacks(t.version, ',');
  }

  /** rows is a page that was read at some instant of the run. */
  ghost predicate SeenIn(actions: seq<Action>, rows: seq<Task>) {
    exists k :: 0 <= k <= |actions| && Run(INIT, actions[..k]).Some?
                && ReadFrom(rows, Run(INIT, actions[..k]).value)
  }

  function TagsOf(pages: seq<seq<Task>>): (tags: seq<string>)
    ensures |tags| == |pages|
    ensures forall i :: 0 <= i < |pages| ==> tags[i] == PageTagOf(pages[i])
  {
    if pages == [] then [] else [PageTagOf(pages[0])] + TagsOf(pages[1..])
  }

  lemma {:induction false} RunSplits(s: State, actions: seq<Action>, k: nat)
    requires k <= |actions| && Run(s, actions).Some?
    ensures Run(s, actions[..k]).Some?
    ensures Run(Run(s, actions[..k]).value, actions[k..]) == Run(s, actions)
    decreases |actions|
  {
    if k == |actions| {
      assert actions[..k] == actions && actions[k..] == [];
    } else {
      var last := |actions| - 1;
      RunSplits(s, actions[..last], k);
      assert actions[..last][..k] == actions[..k];
      assert actions[k..][..last - k] == actions[..last][k..];
    }
  }

  lemma {:induction false} SameTagSamePage(actions: seq<Action>, seen: seq<Task>, current: seq<Task>)
    requires Run(INIT, actions).Some? && ReadFrom(current, Run(INIT, actions).value)
    requires SeenIn(actions, seen) && PageTagOf(seen) == PageTagOf(current)
    ensures seen == current
  {
    var k :| 0 <= k <= |actions| && Run(INIT, actions[..k]).Some?
             && ReadFrom(seen, Run(INIT, actions[..k]).value);
    RunSplits(INIT, actions, k);
    NotModifiedIsSound(Run(INIT, actions[..k]).value, actions[k..], seen, current);
  }

  /**
   A client that sends back the tags of pages it was given at any earlier instants is answered
   304 if and only if the current page is one of them, row for row.
   */
  lemma {:induction false} ConditionalGetIsExact(actions: seq<Action>, pages: seq<seq<Task>>, current: seq<Task>)
    requires Run(INIT, actions).Some? && ReadFrom(current, Run(INIT, actions).value)
    requires forall i :: 0 <= i < |pages| ==> SeenIn(actions, pages[i])
    ensures Hits(Join(TagsOf(pages), ", "), PageTagOf(current)) <==> current in pages
  {
    var tags := TagsOf(pages);
    forall i | 0 <= i < |tags| ensures IsTag(tags[i]) {
      PageTagIsTag(pages[i]);
    }
    HeaderNamesItsTags(tags, PageTagOf(current));
    if PageTagOf(current) in tags {
      var i :| 0 <= i < |tags| && tags[i] == PageTagOf(current);
      SameTagSamePage(actions, pages[i], current);
    }
    if current in pages {
      var i :| 0 <= i < |pages| && pages[i] == current;
      assert tags[i] == PageTagOf(current);
    }
  }
}

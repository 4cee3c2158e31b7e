/**
 Rendering storage keys as a PostgreSQL text[] literal, against a reader of such literals
 written from the array input rules of section 8.15.6 of the PostgreSQL documentation. The
 reader covers one-dimensional arrays with ',' as the delimiter: white space around items,
 quoted and unquoted items, backslash escapes in both, and the unquoted word NULL.
 */
module PgTextArray {
  import opened Collections

  datatype Element = Null | Text(value: string)

  // ---------- Reading ----------

  predicate IsSpace(c: char) {
    c == ' ' || c == '\t' || c == '\n' || c == '\r' || c == '\U{0B}' || c == '\U{0C}'
  }

  function SkipSpace(s: string): (r: string)
    ensures |r| <= |s|
  {
    if s != [] && IsSpace(s[0]) then SkipSpace(s[1..]) else s
  }

  /** The item up to the next bare double quote, and what follows that quote. */
  function ReadQuoted(s: string): (r: Option<(string, string)>)
    ensures r.Some? ==> |r.value.1| < |s|
  {
    if s == [] then None
    else if s[0] == '"' then Some(("", s[1..]))
    else if s[0] == '\\' then
      if |s| < 2 then None
      else
        match ReadQuoted(s[2..])
        case None => None
        case Some((item, rest)) => Some(([s[1]] + item, rest))
    else
      match ReadQuoted(s[1..])
      case None => None
      case Some((item, rest)) => Some(([s[0]] + item, rest))
  }

  /** An unquoted item; kept is its length up to the last character that is not white space. */
  function ReadBare(s: string): (r: Option<(string, nat, string)>)
    ensures r.Some? ==> r.value.1 <= |r.value.0|
    ensures r.Some? ==> |r.value.2| <= |s| && (r.value.0 != "" ==> |r.value.2| < |s|)
  {
    if s == [] || s[0] == '"' || s[0] == '{' then None
    else if s[0] == ',' || s[0] == '}' then Some(("", 0, s))
    else
      var escaped := s[0] == '\\';
      if escaped && |s| < 2 then None
      else
        match ReadBare(if escaped then s[2..] else s[1..])
        case None => None
        case Some((item, kept, rest)) =>
          var c := if escaped then s[1] else s[0];
          var solid := kept > 0 || escaped || !IsSpace(c);
          Some(([c] + item, if solid then kept + 1 else 0, rest))
  }

  predicate IsNullWord(s: string) {
    && |s| == 4
    && s[0] in "nN" && s[1] in "uU" && s[2] in "lL" && s[3] in "lL"
  }

  function ReadItem(s: string): (r: Option<(Element, string)>)
    ensures r.Some? ==> |r.value.1| < |s|
  {
    if s != [] && s[0] == '"' then
      match ReadQuoted(s[1..])
      case None => None
      case Some((item, rest)) => Some((Text(item), rest))
    else
      match ReadBare(s)
      case None => None
      case Some((item, kept, rest)) =>
        if kept == 0 then None
        // An escaped character makes the text differ from the word it spells.
        else if IsNullWord(item[..kept]) && item[..kept] <= s then Some((Null, rest))
        else Some((Text(item[..kept]), rest))
  }

  /** Items up to the closing brace, which only white space may follow. */
  function ReadItems(s: string): Option<seq<Element>>
    decreases |s|
  {
    match ReadItem(SkipSpace(s))
    case None => None
    case Some((item, rest)) =>
      var after := SkipSpace(rest);
      if after == [] then None
      else if after[0] == '}' then
        if SkipSpace(after[1..]) == [] then Some([item]) else None
      else if after[0] != ',' then None
      else
        match ReadItems(after[1..])
        case None => None
        case Some(items) => Some([item] + items)
  }

  function ReadArray(s: string): Option<seq<Element>> {
    var open := SkipSpace(s);
    if open == [] || open[0] != '{' then None
    else
      var body := SkipSpace(open[1..]);
      if body != [] && body[0] == '}' then
        if SkipSpace(body[1..]) == [] then Some([]) else None
      else ReadItems(body)
  }

  // ---------- Writing ----------

  function Escape(key: string): string {
    if key == "" then ""
    else (if key[0] == '"' || key[0] == '\\' then "\\" else "") + [key[0]] + Escape(key[1..])
  }

  function Quoted(key: string): string {
    "\"" + Escape(key) + "\""
  }

  /** The items of a literal, each but the first behind its comma. */
  function Items(keys: seq<string>): string {
    if keys == [] then ""
    else Quoted(keys[0]) + (if |keys| == 1 then "" else "," + Items(keys[1..]))
  }

  function Literal(keys: seq<string>): string {
    "{" + Items(keys) + "}"
  }

  lemma {:induction false} EscapeAppend(a: string, b: string)
    ensures Escape(a + b) == Escape(a) + Escape(b)
  {
    if a == "" {
      assert a + b == b;
    } else {
      assert (a + b)[1..] == a[1..] + b;
      EscapeAppend(a[1..], b);
    }
  }

  lemma Regrouped(a: string, b: string, c: string)
    ensures a + ("," + (b + "," + c)) == a + ("," + b) + "," + c
  {
  }

  lemma {:induction false} ItemsAppend(keys: seq<string>, key: string)
    ensures Items(keys + [key]) == Items(keys) + (if keys == [] then "" else ",") + Quoted(key)
  {
    if keys == [] {
      assert keys + [key] == [key];
    } else {
      var rest := keys[1..];
      assert (keys + [key])[1..] == rest + [key];
      ItemsAppend(rest, key);
      if rest != [] {
        Regrouped(Quoted(keys[0]), Items(rest), Quoted(key));
      }
    }
  }

  method PqTextArray(keys: seq<string>) returns (b: string)
    ensures b == Literal(keys)
  {
    b := "{";
    for i := 0 to |keys|
      invariant b == "{" + Items(keys[..i])
    {
      var key := keys[i];
      if i > 0 {
        b := b + ",";
      }
      b := b + "\"";
      ghost var before := b;
      for j := 0 to |key|
        invariant b == before + Escape(key[..j])
      {
        EscapeAppend(key[..j], [key[j]]);
        assert key[..j] + [key[j]] == key[..j + 1];
        if key[j] == '"' || key[j] == '\\' {
          b := b + "\\";
        }
        b := b + [key[j]];
      }
      b := b + "\"";
      WriteItem(keys[..i], key);
      assert key[..|key|] == key && keys[..i] + [key] == keys[..i + 1];
    }
    assert keys[..|keys|] == keys;
    b := b + "}";
  }

  /** One round of the outer loop, piece by piece as it is written. */
  lemma WriteItem(done: seq<string>, key: string)
    ensures ("{" + Items(done) + (if done == [] then "" else ",") + "\"" + Escape(key)) + "\""
            == "{" + Items(done + [key])
  {
    ItemsAppend(done, key);
  }

  // ---------- The round trip ----------

  function TextsOf(keys: seq<string>): seq<Element> {
    if keys == [] then [] else [Text(keys[0])] + TextsOf(keys[1..])
  }

  lemma {:induction false} QuotedReadsBack(key: string, rest: string)
    ensures ReadQuoted(Escape(key) + "\"" + rest) == Some((key, rest))
  {
    var s := Escape(key) + "\"" + rest;
    if key == "" {
      assert s[1..] == rest;
    } else {
      QuotedReadsBack(key[1..], rest);
      var tail := Escape(key[1..]) + "\"" + rest;
      if key[0] == '"' || key[0] == '\\' {
        assert s[2..] == tail && s[0] == '\\' && s[1] == key[0];
      } else {
        assert s[1..] == tail && s[0] == key[0];
      }
      assert [key[0]] + key[1..] == key;
    }
  }

  lemma FirstItemReadsBack(key: string, more: string)
    ensures ReadItem(SkipSpace(Quoted(key) + more)) == Some((Text(key), more))
  {
    var s := Quoted(key) + more;
    assert s[0] == '"' && s[1..] == Escape(key) + "\"" + more;
    QuotedReadsBack(key, more);
  }

  lemma {:induction false} ItemsReadBack(keys: seq<string>)
    requires keys != []
    ensures ReadItems(Items(keys) + "}") == Some(TextsOf(keys))
  {
    var more := if |keys| == 1 then "}" else "," + (Items(keys[1..]) + "}");
    assert Items(keys) + "}" == Quoted(keys[0]) + more;
    FirstItemReadsBack(keys[0], more);
    if |keys| == 1 {
      assert SkipSpace(more) == more && more[1..] == "" && keys[1..] == [];
      assert TextsOf(keys) == [Text(keys[0])];
    } else {
      assert more[1..] == Items(keys[1..]) + "}";
      ItemsReadBack(keys[1..]);
    }
  }

  /** PostgreSQL reads back exactly the keys that were written, whatever they contain. */
  lemma LiteralReadsBack(keys: seq<string>)
    ensures ReadArray(Literal(keys)) == Some(TextsOf(keys))
  {
    var s := Literal(keys);
    var body := Items(keys) + "}";
    assert s[0] == '{' && s[1..] == body;
    if keys == [] {
      assert body == "}" && body[1..] == "";
    } else {
      assert body[0] == '"';
      ItemsReadBack(keys);
    }
  }
}

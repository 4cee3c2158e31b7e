/**
 Numbers in decimal, separators, and what makes concatenated text decodable.

 Entity tags, cache keys, cache tags and placeholders are all built the same way: numbers are
 written out in decimal and joined with a character that no decimal number contains. Two
 things make such a text say what it was built from.

 The first is that decimal text reads back: NatTextReadsBack gives the number, and so two
 numbers with one text are one number.

 The second is that a separator missing from the parts splits the whole at one place only:
 SplitsOnce for two parts, JoinInjective for any number of them.
 */
module Text {
  function DigitChar(d: nat): char
    requires d < 10
  {
    '0' + d as char
  }

  function NatText(n: nat): string {
    if n < 10 then [DigitChar(n)] else NatText(n / 10) + [DigitChar(n % 10)]
  }

  function IntText(i: int): string {
    if i < 0 then "-" + NatText(-i) else NatText(i)
  }

  predicate Lacks(s: string, c: char) {
    forall i :: 0 <= i < |s| ==> s[i] != c
  }

  function ReadNat(s: string): nat {
    if s == [] then 0
    else
      var last := s[|s| - 1];
      10 * ReadNat(s[..|s| - 1]) + if '0' <= last <= '9' then (last - '0') as nat else 0
  }

  lemma {:induction false} NatTextReadsBack(n: nat)
    ensures ReadNat(NatText(n)) == n
    ensures NatText(n) != []
    ensures forall i :: 0 <= i < |NatText(n)| ==> '0' <= NatText(n)[i] <= '9'
  {
    var s := NatText(n);
    if n < 10 {
      assert s[..0] == [];
    } else {
      NatTextReadsBack(n / 10);
      assert s[..|s| - 1] == NatText(n / 10);
    }
  }

  lemma NatTextInjective(m: nat, n: nat)
    requires NatText(m) == NatText(n)
    ensures m == n
  {
    NatTextReadsBack(m);
    NatTextReadsBack(n);
  }

  lemma IntTextInjective(i: int, j: int)
    requires IntText(i) == IntText(j)
    ensures i == j
  {
    IntTextSign(i);
    IntTextSign(j);
    var a := if i < 0 then -i else i;
    var b := if j < 0 then -j else j;
    assert NatText(a) == if i < 0 then IntText(i)[1..] else IntText(i);
    assert NatText(b) == if j < 0 then IntText(j)[1..] else IntText(j);
    NatTextInjective(a, b);
  }

  lemma IntTextSign(i: int)
    ensures IntText(i) != [] && (IntText(i)[0] == '-' <==> i < 0)
  {
    NatTextReadsBack(if i < 0 then -i else i);
  }

  lemma IntTextLacks(i: int, c: char)
    requires c != '-' && !('0' <= c <= '9')
    ensures Lacks(IntText(i), c)
  {
    NatTextReadsBack(if i < 0 then -i else i);
  }

  /** The first separator tells where the field before it ends. */
  lemma SplitsOnce(a: string, b: string, x: string, y: string, sep: char)
    requires Lacks(a, sep) && Lacks(b, sep)
    requires a + [sep] + x == b + [sep] + y
    ensures a == b && x == y
  {
    var s, t := a + [sep] + x, b + [sep] + y;
    assert s[|a|] == sep && t[|b|] == sep;
    assert forall k :: 0 <= k < |a| ==> s[k] == a[k];
    assert forall k :: 0 <= k < |b| ==> t[k] == b[k];
    assert a == s[..|a|] && b == t[..|b|];
    assert x == s[|a| + 1..] && y == t[|b| + 1..];
  }

  /** strings.Join. */
  function Join(parts: seq<string>, sep: string): string {
    if parts == [] then ""
    else if |parts| == 1 then parts[0]
    else parts[0] + sep + Join(parts[1..], sep)
  }

  /** Joined fields that are non-empty and free of the separator can be told apart again. */
  lemma {:induction false} JoinInjective(a: seq<string>, b: seq<string>, sep: char)
    requires forall i :: 0 <= i < |a| ==> a[i] != "" && Lacks(a[i], sep)
    requires forall i :: 0 <= i < |b| ==> b[i] != "" && Lacks(b[i], sep)
    requires Join(a, [sep]) == Join(b, [sep])
    ensures a == b
  {
    if a == [] || b == [] {
    } else {
      JoinTerminated(a, sep);
      JoinTerminated(b, sep);
      var x := if |a| == 1 then "" else Join(a[1..], [sep]) + [sep];
      var y := if |b| == 1 then "" else Join(b[1..], [sep]) + [sep];
      SplitsOnce(a[0], b[0], x, y, sep);
      if |a| == 1 || |b| == 1 {
        assert |a| == |b|;
      } else {
        assert Join(a[1..], [sep]) == x[..|x| - 1] && Join(b[1..], [sep]) == y[..|y| - 1];
        JoinInjective(a[1..], b[1..], sep);
      }
      assert a == [a[0]] + a[1..] && b == [b[0]] + b[1..];
    }
  }

  lemma JoinTerminated(a: seq<string>, sep: char)
    requires a != []
    ensures Join(a, [sep]) + [sep]
            == a[0] + [sep] + if |a| == 1 then "" else Join(a[1..], [sep]) + [sep]
  {
  }

  lemma {:induction false} JoinLacks(a: seq<string>, sep: char, c: char)
    requires c != sep && forall i :: 0 <= i < |a| ==> Lacks(a[i], c)
    ensures Lacks(Join(a, [sep]), c)
  {
    if |a| > 1 { JoinLacks(a[1..], sep, c); }
  }
}

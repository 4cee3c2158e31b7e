/**
 Options, sums over finite maps and the cardinality facts the models share.

 Total adds up a map's values. It is what a user's stored bytes are: the map holds one size for
 each row, so adding a row adds its size, and a map with fewer or smaller rows has no larger
 sum.

 SubsetSize and OnceEach count: a subset has no more members than the set around it, and a
 sequence that lists a set's members once each is as long as the set is large.

 Nothing here knows of tasks, users or stores.
 */
module Collections {

  datatype Option<+T> = None | Some(value: T)
  {
    predicate IsFailure() { None? }

    function PropagateFailure<U>(): Option<U>
      requires None?
    {
      None
    }

    function Extract(): T
      requires Some?
    {
      value
    }
  }

  /** The sum of the values of m. */
  ghost function Total<K(!new)>(m: map<K, nat>): nat
    decreases |m|
  {
    if m == map[] then 0
    else
      var k :| k in m;
      m[k] + Total(m - {k})
  }

  /** Any entry can be split off a sum, not only the one the definition chose. */
  lemma {:induction false} TotalSplit<K(!new)>(m: map<K, nat>, k: K)
    requires k in m
    ensures Total(m) == m[k] + Total(m - {k})
    decreases |m|
  {
    var c :| c in m && Total(m) == m[c] + Total(m - {c});
    if c != k {
      TotalSplit(m - {c}, k);
      assert m - {c} - {k} == m - {k} - {c};
      TotalSplit(m - {k}, c);
    }
  }

  lemma TotalAdd<K(!new)>(m: map<K, nat>, k: K, v: nat)
    requires k !in m
    ensures Total(m[k := v]) == Total(m) + v
  {
    TotalSplit(m[k := v], k);
    assert m[k := v] - {k} == m;
  }

  /** Dropping entries never raises a sum. */
  lemma {:induction false} TotalShrinks<K(!new)>(small: map<K, nat>, big: map<K, nat>)
    requires forall k :: k in small ==> k in big && small[k] == big[k]
    ensures Total(small) <= Total(big)
    decreases |big|
  {
    if small == map[] {
    } else {
      var k :| k in small;
      TotalSplit(small, k);
      TotalSplit(big, k);
      TotalShrinks(small - {k}, big - {k});
    }
  }

  lemma SubsetSize<T>(small: set<T>, big: set<T>)
    requires small <= big
    ensures |small| <= |big|
    ensures small != big ==> |small| < |big|
  {
    assert big == small + (big - small);
    if small != big {
      assert exists x :: x in big - small;
      assert |big - small| > 0;
    }
  }

  predicate Distinct<T(==)>(rows: seq<T>) {
    forall i, j :: 0 <= i < j < |rows| ==> rows[i] != rows[j]
  }

  function SetOf<T>(rows: seq<T>): set<T> {
    set x | x in rows
  }

  /** A sequence that lists a set has no repetition. */
  lemma OnceEach<T>(rows: seq<T>, items: set<T>)
    requires multiset(rows) == multiset(items)
    ensures Distinct(rows)
    ensures forall x :: x in rows <==> x in items
    ensures |rows| == |items|
  {
    assert |multiset(rows)| == |rows| && |multiset(items)| == |items|;
    forall i, j | 0 <= i < j < |rows| ensures rows[i] != rows[j] {
      assert rows == rows[..j] + rows[j..];
      assert multiset(rows) == multiset(rows[..j]) + multiset(rows[j..]);
      assert rows[..j][i] == rows[i] && rows[j..][0] == rows[j];
      assert multiset(rows[..j])[rows[i]] >= 1 && multiset(rows[j..])[rows[j]] >= 1;
      assert multiset(items)[rows[i]] <= 1;
    }
    forall x ensures x in rows <==> x in items {
      assert x in rows <==> x in multiset(rows);
    }
  }

  /** The items of a set in some order. */
  ghost function SeqOf<T(!new)>(items: set<T>): (rows: seq<T>)
    ensures multiset(rows) == multiset(items)
  {
    if items == {} then []
    else
      var x :| x in items;
      assert items == items - {x} + {x};
      SeqOf(items - {x}) + [x]
  }
}

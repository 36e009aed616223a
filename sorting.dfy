/** Table cells, the order pandas sorts them in, and the sorts the
    recommender uses: `sort_values` and `nlargest`/`nsmallest`. Neither pandas
    operation promises an order among equal keys, so the contracts here say
    only "sorted" and "a permutation"; `SortBy` is one stable sort that meets
    them. */
module Sorting {
  import opened Numbers
  import opened Seqs

  /** A data-frame cell: a float (possibly NaN) or a string. */
  datatype Cell = Number(n: Num) | Text(s: string)

  predicate IsNaN(c: Cell) {
    c.Number? && c.n.NaN?
  }

  /** Python's `<=` on strings: lexicographic by code point. */
  predicate LexLe(a: string, b: string)
    decreases |a|
  {
    |a| == 0 || (|b| > 0 && (a[0] < b[0] || (a[0] == b[0] && LexLe(a[1..], b[1..]))))
  }

  lemma {:induction false} LexLeTotal(a: string, b: string)
    ensures LexLe(a, b) || LexLe(b, a)
  {
    if |a| > 0 && |b| > 0 && a[0] == b[0] {
      LexLeTotal(a[1..], b[1..]);
    }
  }

  lemma {:induction false} LexLeTrans(a: string, b: string, c: string)
    requires LexLe(a, b) && LexLe(b, c)
    ensures LexLe(a, c)
  {
    if |a| > 0 && a[0] == b[0] && b[0] == c[0] {
      LexLeTrans(a[1..], b[1..], c[1..]);
    }
  }

  /** Ascending order on cells that are not NaN: numbers by value, strings
      lexicographically. Numbers are put before strings; pandas refuses to
      sort a column that mixes the two, and the callers check for that. */
  predicate Ascending(a: Cell, b: Cell) {
    match (a, b)
    case (Text(x), Text(y)) => LexLe(x, y)
    case (Text(_), Number(_)) => false
    case (Number(x), Number(y)) => x.NaN? || y.NaN? || x.v <= y.v
    case (Number(_), Text(_)) => true
  }

  /** `a` may come before `b` when sorting in the given direction. NaN goes
      last in both directions, as with pandas' default `na_position='last'`. */
  predicate InOrder(a: Cell, b: Cell, desc: bool) {
    if IsNaN(b) then true
    else if IsNaN(a) then false
    else if desc then Ascending(b, a)
    else Ascending(a, b)
  }

  lemma InOrderTotal(a: Cell, b: Cell, desc: bool)
    ensures InOrder(a, b, desc) || InOrder(b, a, desc)
  {
    if a.Text? && b.Text? {
      LexLeTotal(a.s, b.s);
    }
  }

  lemma InOrderTrans(a: Cell, b: Cell, c: Cell, desc: bool)
    requires InOrder(a, b, desc) && InOrder(b, c, desc)
    ensures InOrder(a, c, desc)
  {
    if a.Text? && b.Text? && c.Text? {
      if desc {
        LexLeTrans(c.s, b.s, a.s);
      } else {
        LexLeTrans(a.s, b.s, c.s);
      }
    }
  }

  /** `s` is sorted on `key` in the given direction. */
  ghost predicate SortedBy<T>(s: seq<T>, key: T -> Cell, desc: bool) {
    forall i, j :: 0 <= i < j < |s| ==> InOrder(key(s[i]), key(s[j]), desc)
  }

  /** Inserts `x` into a sorted list, before the first element it may
      precede. */
  function Insert<T>(x: T, s: seq<T>, key: T -> Cell, desc: bool): (r: seq<T>)
    requires SortedBy(s, key, desc)
    ensures |r| == |s| + 1
    ensures multiset(r) == multiset(s) + multiset{x}
    ensures SortedBy(r, key, desc)
  {
    if |s| == 0 then [x]
    else if InOrder(key(x), key(s[0]), desc) then
      PrecedesSorted(x, s, key, desc);
      [x] + s
    else
      InOrderTotal(key(x), key(s[0]), desc);
      assert s == [s[0]] + s[1..];
      var rest := Insert(x, s[1..], key, desc);
      HeadPrecedes(s, x, rest, key, desc);
      [s[0]] + rest
  }

  /** An element that may precede the head of a sorted list may head it. */
  lemma PrecedesSorted<T>(x: T, s: seq<T>, key: T -> Cell, desc: bool)
    requires SortedBy(s, key, desc) && |s| > 0 && InOrder(key(x), key(s[0]), desc)
    ensures SortedBy([x] + s, key, desc)
  {
    forall i, j | 0 <= i < j < |s| + 1 ensures InOrder(key(([x] + s)[i]), key(([x] + s)[j]), desc) {
      if i == 0 && j > 1 {
        InOrderTrans(key(x), key(s[0]), key(s[j - 1]), desc);
      }
    }
  }

  /** The head of a sorted list may precede `x` inserted into its tail. */
  lemma HeadPrecedes<T>(s: seq<T>, x: T, rest: seq<T>, key: T -> Cell, desc: bool)
    requires SortedBy(s, key, desc) && |s| > 0 && InOrder(key(s[0]), key(x), desc)
    requires SortedBy(rest, key, desc) && multiset(rest) == multiset(s[1..]) + multiset{x}
    ensures SortedBy([s[0]] + rest, key, desc)
  {
    forall y | y in rest ensures InOrder(key(s[0]), key(y), desc) {
      assert y in multiset(rest);
      if y != x {
        assert y in s[1..];
        var j :| 0 <= j < |s[1..]| && s[1..][j] == y;
        assert s[j + 1] == y;
      }
    }
    forall i, j | 0 <= i < j < |rest| + 1 ensures InOrder(key(([s[0]] + rest)[i]), key(([s[0]] + rest)[j]), desc) {
      if i == 0 {
        assert rest[j - 1] in rest;
      }
    }
  }

  /** pandas `sort_values(key, ascending = not desc)` on float and string
      keys: a permutation of `s`, sorted on `key`. */
  function SortBy<T>(s: seq<T>, key: T -> Cell, desc: bool): (r: seq<T>)
    ensures |r| == |s|
    ensures multiset(r) == multiset(s)
    ensures SortedBy(r, key, desc)
  {
    if |s| == 0 then []
    else
      assert s == [s[0]] + s[1..];
      Insert(s[0], SortBy(s[1..], key, desc), key, desc)
  }

  /** A sub-list of a sorted list is sorted. */
  lemma {:induction false} SubsequenceSorted<T>(r: seq<T>, s: seq<T>, key: T -> Cell, desc: bool)
    requires Subsequence(r, s) && SortedBy(s, key, desc)
    ensures SortedBy(r, key, desc)
  {
    if |r| > 0 {
      if r[0] == s[0] && Subsequence(r[1..], s[1..]) {
        SubsequenceSorted(r[1..], s[1..], key, desc);
        SubsequenceElements(r[1..], s[1..]);
        forall j | 0 < j < |r| ensures InOrder(key(r[0]), key(r[j]), desc) {
          assert r[j] == r[1..][j - 1] && r[j] in r[1..];
          var k :| 0 <= k < |s[1..]| && s[1..][k] == r[j];
          assert s[k + 1] == r[j];
        }
      } else {
        SubsequenceSorted(r, s[1..], key, desc);
      }
    }
  }

  lemma {:induction false} SubsequenceElements<T>(r: seq<T>, s: seq<T>)
    requires Subsequence(r, s)
    ensures forall x :: x in r ==> x in s
  {
    if |r| > 0 {
      if r[0] == s[0] && Subsequence(r[1..], s[1..]) {
        SubsequenceElements(r[1..], s[1..]);
        assert r == [r[0]] + r[1..];
      } else {
        SubsequenceElements(r, s[1..]);
      }
    }
  }

  /** `nlargest(n)` (desc) or `nsmallest(n)` (not desc): the `n` extreme
      elements, sorted; empty for `n <= 0`. */
  function TopN<T>(s: seq<T>, key: T -> Cell, n: int, desc: bool): (r: seq<T>)
    ensures |r| == if n <= 0 then 0 else if n <= |s| then n else |s|
    ensures SortedBy(r, key, desc)
    ensures multiset(r) <= multiset(s)
    ensures forall x, y :: x in r && y in multiset(s) - multiset(r) ==> InOrder(key(x), key(y), desc)
  {
    if n <= 0 then []
    else
      var sorted := SortBy(s, key, desc);
      var r := Head(sorted, n);
      SplitSorted(sorted, |r|, key, desc);
      r
  }

  /** Everything before a cut of a sorted list may precede everything after. */
  lemma SplitSorted<T>(s: seq<T>, k: nat, key: T -> Cell, desc: bool)
    requires SortedBy(s, key, desc) && k <= |s|
    ensures multiset(s) - multiset(s[..k]) == multiset(s[k..])
    ensures forall x, y :: x in s[..k] && y in multiset(s[k..]) ==> InOrder(key(x), key(y), desc)
  {
    assert s == s[..k] + s[k..];
    forall x, y | x in s[..k] && y in multiset(s[k..]) ensures InOrder(key(x), key(y), desc) {
      var i :| 0 <= i < k && s[..k][i] == x;
      assert y in s[k..];
      var j :| 0 <= j < |s| - k && s[k..][j] == y;
      assert s[i] == x && s[k + j] == y;
    }
  }
}

/** Sequence operations behind the list comprehensions and pandas calls of
    the recommender: filtering, counting, pandas `head`/`tail`, mapping a
    list of keys and values into a dict, and the distinctness facts the
    lookups rely on. */
module Seqs {

  /** `[x for x in s if p(x)]`. */
  function Filter<T(==,!new)>(s: seq<T>, p: T -> bool): (r: seq<T>)
    ensures |r| <= |s|
    ensures forall x :: x in r <==> x in s && p(x)
  {
    if |s| == 0 then []
    else
      assert s == [s[0]] + s[1..];
      if p(s[0]) then [s[0]] + Filter(s[1..], p) else Filter(s[1..], p)
  }

  /** Filtering keeps every element that satisfies `p` as often as `s` has
      it, and drops every other. */
  lemma {:induction false} FilterMultiset<T(!new)>(s: seq<T>, p: T -> bool)
    ensures forall x :: multiset(Filter(s, p))[x] == if p(x) then multiset(s)[x] else 0
  {
    if |s| > 0 {
      assert s == [s[0]] + s[1..];
      FilterMultiset(s[1..], p);
    }
  }

  /** Filtering distributes over concatenation, so it keeps the order of
      the elements it keeps. */
  lemma {:induction false} FilterAppend<T(!new)>(a: seq<T>, b: seq<T>, p: T -> bool)
    ensures Filter(a + b, p) == Filter(a, p) + Filter(b, p)
  {
    if |a| == 0 {
      assert a + b == b;
    } else {
      assert (a + b)[1..] == a[1..] + b;
      FilterAppend(a[1..], b, p);
    }
  }

  /** `r` lists some of the elements of `s`, in the order `s` has them. */
  ghost predicate Subsequence<T>(r: seq<T>, s: seq<T>)
    decreases |s|
  {
    |r| == 0 || (|s| > 0 && ((r[0] == s[0] && Subsequence(r[1..], s[1..])) || Subsequence(r, s[1..])))
  }

  lemma {:induction false} FilterIsSubsequence<T(!new)>(s: seq<T>, p: T -> bool)
    ensures Subsequence(Filter(s, p), s)
  {
    if |s| > 0 {
      FilterIsSubsequence(s[1..], p);
      if p(s[0]) {
        assert Filter(s, p)[1..] == Filter(s[1..], p);
      }
    }
  }

  /** The number of elements of `s` that satisfy `p`, counted from the back. */
  function Count<T>(s: seq<T>, p: T -> bool): nat
  {
    if |s| == 0 then 0 else Count(s[..|s| - 1], p) + (if p(s[|s| - 1]) then 1 else 0)
  }

  /** The positions of `s` whose element satisfies `p`. */
  function Where<T>(s: seq<T>, p: T -> bool): set<int> {
    set j | 0 <= j < |s| && p(s[j])
  }

  /** Count is the number of positions whose element satisfies `p`. */
  lemma {:induction false} CountPositions<T>(s: seq<T>, p: T -> bool)
    ensures Count(s, p) == |Where(s, p)|
  {
    if |s| > 0 {
      var n := |s| - 1;
      var front := s[..n];
      CountPositions(front, p);
      var a := Where(front, p);
      var b := Where(s, p);
      if p(s[n]) {
        assert b == a + {n};
      } else {
        assert b == a;
      }
    }
  }

  /** The filtered list is as long as the count. */
  lemma {:induction false} FilterLength<T(!new)>(s: seq<T>, p: T -> bool)
    ensures |Filter(s, p)| == Count(s, p)
  {
    if |s| > 0 {
      var n := |s| - 1;
      assert s == s[..n] + [s[n]];
      FilterAppend(s[..n], [s[n]], p);
      FilterLength(s[..n], p);
    }
  }

  /** pandas `head(n)`: the first `n` rows; for a negative `n`, all rows but
      the last `-n`. */
  function Head<T>(s: seq<T>, n: int): (r: seq<T>)
    ensures |r| <= |s| && r == s[..|r|]
    ensures n >= 0 ==> |r| == if n <= |s| then n else |s|
  {
    if n >= 0 then s[..if n <= |s| then n else |s|]
    else s[..if |s| + n >= 0 then |s| + n else 0]
  }

  /** pandas `tail(n)`: the last `n` rows; for a negative `n`, all rows but
      the first `-n`. */
  function Tail<T>(s: seq<T>, n: int): (r: seq<T>)
    ensures |r| <= |s| && r == s[|s| - |r|..]
    ensures n >= 0 ==> |r| == if n <= |s| then n else |s|
  {
    if n >= 0 then s[|s| - (if n <= |s| then n else |s|)..]
    else s[if -n <= |s| then -n else |s|..]
  }

  /** `zip(a, b)` on lists of equal length. */
  function Zip<A, B>(a: seq<A>, b: seq<B>): (r: seq<(A, B)>)
    requires |a| == |b|
    ensures |r| == |a|
    ensures forall i :: 0 <= i < |a| ==> r[i] == (a[i], b[i])
  {
    seq(|a|, i requires 0 <= i < |a| => (a[i], b[i]))
  }

  /** The first components of a list of pairs. */
  function Firsts<A, B>(s: seq<(A, B)>): (r: seq<A>)
    ensures |r| == |s|
    ensures forall i :: 0 <= i < |s| ==> r[i] == s[i].0
  {
    seq(|s|, i requires 0 <= i < |s| => s[i].0)
  }

  /** The second components of a list of pairs. */
  function Seconds<A, B>(s: seq<(A, B)>): (r: seq<B>)
    ensures |r| == |s|
    ensures forall i :: 0 <= i < |s| ==> r[i] == s[i].1
  {
    seq(|s|, i requires 0 <= i < |s| => s[i].1)
  }

  /** Splitting a zipped list gives back its two halves. */
  lemma ZipUnzip<A, B>(a: seq<A>, b: seq<B>)
    requires |a| == |b|
    ensures Firsts(Zip(a, b)) == a && Seconds(Zip(a, b)) == b
  {
  }

  /** Zipping the two halves of a list of pairs gives back the list. */
  lemma UnzipZip<A, B>(s: seq<(A, B)>)
    ensures Zip(Firsts(s), Seconds(s)) == s
  {
  }

  /** No two elements of `s` share a key. */
  predicate DistinctBy<T, K(==)>(s: seq<T>, key: T -> K) {
    forall i, j :: 0 <= i < j < |s| ==> key(s[i]) != key(s[j])
  }

  predicate Distinct<T(==)>(s: seq<T>) {
    forall i, j :: 0 <= i < j < |s| ==> s[i] != s[j]
  }

  /** In a list without repeats every element occurs at most once. */
  lemma {:induction false} DistinctOccursOnce<T>(s: seq<T>, x: T)
    requires Distinct(s)
    ensures multiset(s)[x] <= 1
  {
    if |s| > 0 {
      assert s == [s[0]] + s[1..];
      DistinctOccursOnce(s[1..], x);
      if s[0] == x {
        assert x !in s[1..];
      }
    }
  }

  /** An element at two positions occurs at least twice. */
  lemma TwiceOccurs<T>(s: seq<T>, i: nat, j: nat)
    requires i < j < |s| && s[i] == s[j]
    ensures multiset(s)[s[i]] >= 2
  {
    assert s == s[..j] + [s[j]] + s[j + 1..];
    assert s[i] in s[..j];
  }

  /** Taking part of a keyed list, in any order, keeps its keys distinct. */
  lemma SubMultisetDistinctBy<T, K>(a: seq<T>, b: seq<T>, key: T -> K)
    requires multiset(a) <= multiset(b)
    requires DistinctBy(b, key)
    ensures DistinctBy(a, key)
  {
    assert Distinct(b) by {
      forall i, j | 0 <= i < j < |b| ensures b[i] != b[j] {
        assert key(b[i]) != key(b[j]);
      }
    }
    forall i, j | 0 <= i < j < |a| ensures key(a[i]) != key(a[j]) {
      if key(a[i]) == key(a[j]) {
        assert a[i] in multiset(b) && a[j] in multiset(b);
        var p :| 0 <= p < |b| && b[p] == a[i];
        var q :| 0 <= q < |b| && b[q] == a[j];
        assert p == q;
        TwiceOccurs(a, i, j);
        DistinctOccursOnce(b, a[i]);
        assert false;
      }
    }
  }

  /** `dict(zip(keys, values))`: later keys overwrite earlier ones. */
  function ZipMap<K(==), V>(keys: seq<K>, values: seq<V>): (m: map<K, V>)
    requires |keys| == |values|
    ensures m.Keys == set k | k in keys
  {
    if |keys| == 0 then map[]
    else
      var n := |keys| - 1;
      ZipMap(keys[..n], values[..n])[keys[n] := values[n]]
  }

  /** Growing the key and value lists by one pair adds that pair to the
      dict, overwriting an earlier value of the same key. */
  lemma ZipMapPrefix<K, V>(keys: seq<K>, values: seq<V>, k: nat)
    requires |keys| == |values| && k < |keys|
    ensures ZipMap(keys[..k + 1], values[..k + 1]) == ZipMap(keys[..k], values[..k])[keys[k] := values[k]]
  {
    assert keys[..k + 1][..k] == keys[..k];
    assert values[..k + 1][..k] == values[..k];
  }

  /** With distinct keys, each key maps to the value at its own position. */
  lemma {:induction false} ZipMapAt<K, V>(keys: seq<K>, values: seq<V>, i: nat)
    requires |keys| == |values| && Distinct(keys) && i < |keys|
    ensures ZipMap(keys, values)[keys[i]] == values[i]
  {
    var n := |keys| - 1;
    if i < n {
      ZipMapAt(keys[..n], values[..n], i);
    }
  }

  /** Filtering a list extended by one element. */
  lemma FilterSnoc<T(!new)>(s: seq<T>, x: T, p: T -> bool)
    ensures Filter(s + [x], p) == Filter(s, p) + (if p(x) then [x] else [])
  {
    FilterAppend(s, [x], p);
    assert [x][1..] == [];
  }

  /** The last element a filter keeps is the last element of `s` that
      satisfies `p`. */
  lemma {:induction false} FilterLast<T(!new)>(s: seq<T>, p: T -> bool) returns (i: nat)
    requires |Filter(s, p)| > 0
    ensures i < |s| && p(s[i]) && Filter(s, p)[|Filter(s, p)| - 1] == s[i]
    ensures forall j :: i < j < |s| ==> !p(s[j])
  {
    var n := |s| - 1;
    var front := s[..n];
    assert s == front + [s[n]];
    FilterSnoc(front, s[n], p);
    if p(s[n]) {
      i := n;
    } else {
      i := FilterLast(front, p);
      assert front[i] == s[i];
    }
  }
}

/**
 * The JavaScript array built-ins the core composes: `Array.prototype.sort`
 * with a numeric comparator (stable, as the language requires, and proved so),
 * `slice(0, n)`, `filter`, and `Array.from(new Set(xs))` (first occurrences,
 * in order).
 */
module Sequences {

  /** `s` is ordered non-decreasing by `key`. */
  ghost predicate SortedBy<T>(s: seq<T>, key: T -> real)
  {
    forall i, j :: 0 <= i < j < |s| ==> key(s[i]) <= key(s[j])
  }

  /** Inserts `x` before the first element whose key is not smaller than `x`'s. */
  function InsertByKey<T>(x: T, t: seq<T>, key: T -> real): (r: seq<T>)
    ensures |r| == |t| + 1
    ensures multiset(r) == multiset(t) + multiset{x}
    ensures forall k :: 0 <= k < |r| ==> r[k] == x || r[k] in t
  {
    if t == [] then [x]
    else if key(x) <= key(t[0]) then [x] + t
    else
      assert t == [t[0]] + t[1..];
      [t[0]] + InsertByKey(x, t[1..], key)
  }

  lemma {:induction false} InsertKeepsSorted<T>(x: T, t: seq<T>, key: T -> real)
    requires SortedBy(t, key)
    ensures SortedBy(InsertByKey(x, t, key), key)
  {
    if t == [] {
    } else if key(x) <= key(t[0]) {
      SortedCons(x, t, key);
    } else {
      var tail := t[1..];
      var rest := InsertByKey(x, tail, key);
      InsertKeepsSorted(x, tail, key);
      forall k | 0 <= k < |rest| ensures key(t[0]) <= key(rest[k]) {
        if rest[k] != x {
          var m :| 0 <= m < |tail| && tail[m] == rest[k];
          assert t[m + 1] == rest[k];
        }
      }
      SortedCons(t[0], rest, key);
    }
  }

  /** Consing an element no larger than every element of a sorted sequence keeps it sorted. */
  lemma SortedCons<T>(x: T, s: seq<T>, key: T -> real)
    requires SortedBy(s, key)
    requires s != [] ==> key(x) <= key(s[0])
    ensures SortedBy([x] + s, key)
  {
    var r := [x] + s;
    forall i, j | 0 <= i < j < |r| ensures key(r[i]) <= key(r[j]) {
      if i > 0 {
        assert r[i] == s[i - 1] && r[j] == s[j - 1];
      } else {
        assert r[j] == s[j - 1];
      }
    }
  }

  /**
   * `s.slice().sort((a, b) => key(a) - key(b))`: a stable sort, ascending by key
   * (a descending sort passes the negated key).
   */
  function SortByKey<T>(s: seq<T>, key: T -> real): (r: seq<T>)
    ensures multiset(r) == multiset(s)
    ensures |r| == |s|
    ensures SortedBy(r, key)
  {
    if s == [] then []
    else
      assert s == [s[0]] + s[1..];
      var tail := SortByKey(s[1..], key);
      InsertKeepsSorted(s[0], tail, key);
      InsertByKey(s[0], tail, key)
  }

  /** `s.slice(0, n)` for `n >= 0`. */
  function Take<T>(s: seq<T>, n: nat): (r: seq<T>)
    ensures |r| == if n < |s| then n else |s|
    ensures r == s[..|r|]
  {
    if n < |s| then s[..n] else s
  }

  /** Every element of the first `n` of a sorted sequence has a key no larger than that of any later element. */
  lemma TakeSortedBelow<T>(s: seq<T>, key: T -> real, n: nat, q: nat)
    requires SortedBy(s, key) && n <= q < |s|
    ensures |Take(s, n)| == n
    ensures forall y :: y in Take(s, n) ==> key(y) <= key(s[q])
  {
    forall y | y in Take(s, n) ensures key(y) <= key(s[q]) {
      var i :| 0 <= i < n && s[i] == y;
    }
  }

  /**
   * `s.slice(0, end)` for any integer `end`: a negative end counts back from
   * the length, and the result is clamped to `[0, |s|]`.
   */
  function SliceTo<T>(s: seq<T>, end: int): (r: seq<T>)
    ensures |r| <= |s| && r == s[..|r|]
    ensures 0 <= end ==> |r| == if end < |s| then end else |s|
    ensures end < 0 ==> |r| == if |s| + end < 0 then 0 else |s| + end
  {
    var stop := if end < 0 then |s| + end else end;
    Take(s, if stop < 0 then 0 else stop)
  }

  ghost predicate NoDuplicates<T>(s: seq<T>)
  {
    forall i, j :: 0 <= i < j < |s| ==> s[i] != s[j]
  }

  /** `Array.from(new Set(s))`: each value once, at its first occurrence. */
  function Distinct<T(==)>(s: seq<T>): (r: seq<T>)
    ensures |r| <= |s|
  {
    if s == [] then []
    else
      var d := Distinct(s[..|s| - 1]);
      if s[|s| - 1] in d then d else d + [s[|s| - 1]]
  }

  /** One more key in an insertion-ordered key list: appended exactly when it is new. */
  lemma DistinctSnoc<T>(ks: seq<T>, k: T)
    ensures Distinct(ks + [k]) == if k in Distinct(ks) then Distinct(ks) else Distinct(ks) + [k]
  {
    assert (ks + [k])[..|ks|] == ks;
  }

  /** `Array.from(new Set(s))` holds exactly the values of `s`, each once. */
  lemma {:induction false} DistinctMembers<T>(s: seq<T>, x: T)
    ensures x in Distinct(s) <==> x in s
    ensures NoDuplicates(Distinct(s))
  {
    if s != [] {
      var init := s[..|s| - 1];
      DistinctMembers(init, x);
      DistinctMembers(init, s[|s| - 1]);
      assert s == init + [s[|s| - 1]];
    }
  }

  /** `s.filter(p)`: the elements satisfying `p`, in order. */
  function Filter<T>(s: seq<T>, p: T -> bool): (r: seq<T>)
    ensures |r| <= |s|
    ensures forall i :: 0 <= i < |r| ==> p(r[i])
  {
    if s == [] then []
    else
      var init := Filter(s[..|s| - 1], p);
      if p(s[|s| - 1]) then init + [s[|s| - 1]] else init
  }

  /** An element is kept exactly when it occurs in `s` and satisfies `p`. */
  lemma {:induction false} FilterMembers<T>(s: seq<T>, p: T -> bool, x: T)
    ensures x in Filter(s, p) <==> x in s && p(x)
  {
    if s != [] {
      var init := s[..|s| - 1];
      FilterMembers(init, p, x);
      assert s == init + [s[|s| - 1]];
    }
  }

  /** Filtering by `p` and by its negation splits `s` into two parts that together hold exactly its elements. */
  lemma {:induction false} FilterSplits<T>(s: seq<T>, p: T -> bool, q: T -> bool)
    requires forall x :: q(x) == !p(x)
    ensures multiset(Filter(s, p)) + multiset(Filter(s, q)) == multiset(s)
  {
    if s != [] {
      var init := s[..|s| - 1];
      FilterSplits(init, p, q);
      assert s == init + [s[|s| - 1]];
    }
  }

  /** `r` is `s` with some elements left out, the rest in their order. */
  ghost predicate SubsequenceOf<T>(r: seq<T>, s: seq<T>)
  {
    if r == [] then true
    else if s == [] then false
    else (r[|r| - 1] == s[|s| - 1] && SubsequenceOf(r[..|r| - 1], s[..|s| - 1])) || SubsequenceOf(r, s[..|s| - 1])
  }

  /** `filter` keeps the order of the elements it keeps. */
  lemma {:induction false} FilterKeepsOrder<T>(s: seq<T>, p: T -> bool)
    ensures SubsequenceOf(Filter(s, p), s)
  {
    if s != [] {
      var init := s[..|s| - 1];
      FilterKeepsOrder(init, p);
      var f := Filter(init, p);
      if p(s[|s| - 1]) {
        assert (f + [s[|s| - 1]])[..|f|] == f;
      }
    }
  }

  /** A filter every element passes keeps the whole sequence. */
  lemma {:induction false} FilterKeepsAll<T>(s: seq<T>, p: T -> bool)
    requires forall i :: 0 <= i < |s| ==> p(s[i])
    ensures Filter(s, p) == s
  {
    if s != [] {
      FilterKeepsAll(s[..|s| - 1], p);
      assert s == s[..|s| - 1] + [s[|s| - 1]];
    }
  }

  /** Filtering a concatenation filters each part. */
  lemma {:induction false} FilterAppend<T>(a: seq<T>, b: seq<T>, p: T -> bool)
    ensures Filter(a + b, p) == Filter(a, p) + Filter(b, p)
  {
    if b != [] {
      var init := b[..|b| - 1];
      var last := b[|b| - 1];
      FilterAppend(a, init, p);
      assert (a + b)[..|a + b| - 1] == a + init;
      assert (a + b)[|a + b| - 1] == last;
      if p(last) {
        assert Filter(a + b, p) == Filter(a + init, p) + [last];
        assert Filter(b, p) == Filter(init, p) + [last];
      } else {
        assert Filter(a + b, p) == Filter(a + init, p);
        assert Filter(b, p) == Filter(init, p);
      }
    } else {
      assert a + b == a;
    }
  }

  /** Filtering `[x] + t` is deciding on `x`, then filtering `t`. */
  lemma FilterCons<T>(x: T, t: seq<T>, p: T -> bool)
    ensures Filter([x] + t, p) == (if p(x) then [x] else []) + Filter(t, p)
  {
    FilterAppend([x], t, p);
    assert [x][..0] == [];
  }

  /** The test "has key `v`", which picks out the elements a stable sort must keep in order. */
  function KeyIs<T>(key: T -> real, v: real): T -> bool
  {
    x => key(x) == v
  }

  /** Two neighbours that do not both pass a filter can change places unnoticed. */
  lemma FilterSwap<T>(x: T, y: T, rest: seq<T>, p: T -> bool)
    requires !(p(x) && p(y))
    ensures Filter([y] + ([x] + rest), p) == Filter([x] + ([y] + rest), p)
  {
    FilterCons(y, [x] + rest, p);
    FilterCons(x, rest, p);
    FilterCons(x, [y] + rest, p);
    FilterCons(y, rest, p);
  }

  /**
   * Inserting `x` keeps the order among equal keys: `x` only passes elements
   * with a smaller key, so it never changes places with an element of its own key.
   */
  lemma {:induction false} InsertStable<T>(x: T, t: seq<T>, key: T -> real, v: real)
    ensures Filter(InsertByKey(x, t, key), KeyIs(key, v)) == Filter([x] + t, KeyIs(key, v))
  {
    if t != [] && key(x) > key(t[0]) {
      var p := KeyIs(key, v);
      var rest := t[1..];
      calc {
        Filter(InsertByKey(x, t, key), p);
        Filter([t[0]] + InsertByKey(x, rest, key), p);
        { FilterCons(t[0], InsertByKey(x, rest, key), p); }
        (if p(t[0]) then [t[0]] else []) + Filter(InsertByKey(x, rest, key), p);
        { InsertStable(x, rest, key, v); }
        (if p(t[0]) then [t[0]] else []) + Filter([x] + rest, p);
        { FilterCons(t[0], [x] + rest, p); }
        Filter([t[0]] + ([x] + rest), p);
        { FilterSwap(x, t[0], rest, p); }
        Filter([x] + ([t[0]] + rest), p);
        { assert [t[0]] + rest == t; }
        Filter([x] + t, p);
      }
    }
  }

  /** `SortByKey` is stable: the elements of any one key come out in the order they went in. */
  lemma {:induction false} SortByKeyStable<T>(s: seq<T>, key: T -> real, v: real)
    ensures Filter(SortByKey(s, key), KeyIs(key, v)) == Filter(s, KeyIs(key, v))
  {
    if s != [] {
      var p := KeyIs(key, v);
      var tail := SortByKey(s[1..], key);
      assert s == [s[0]] + s[1..];
      InsertStable(s[0], tail, key, v);
      SortByKeyStable(s[1..], key, v);
      FilterCons(s[0], tail, p);
      FilterCons(s[0], s[1..], p);
    }
  }

  /** A sequence without duplicates holds each value at most once. */
  lemma {:induction false} NoDuplicatesCount<T>(s: seq<T>, x: T)
    requires NoDuplicates(s)
    ensures multiset(s)[x] <= 1
  {
    if s != [] {
      var init, last := s[..|s| - 1], s[|s| - 1];
      assert s == init + [last];
      assert NoDuplicates(init);
      NoDuplicatesCount(init, x);
      if last == x {
        assert x !in init;
      }
    }
  }

  /** A value at two positions is counted at least twice. */
  lemma DuplicateCount<T>(s: seq<T>, i: nat, j: nat)
    requires i < j < |s| && s[i] == s[j]
    ensures multiset(s)[s[i]] >= 2
  {
    assert s == s[..j] + [s[j]] + s[j + 1..];
    assert s[i] in s[..j];
  }

  /**
   * When no two elements of `s` share a name, no two elements of a
   * permutation of `s` do either.
   */
  lemma PermutationKeepsNamesDistinct<T, K>(s: seq<T>, t: seq<T>, name: T -> K)
    requires multiset(s) == multiset(t)
    requires forall i, j :: 0 <= i < j < |s| ==> name(s[i]) != name(s[j])
    ensures forall i, j :: 0 <= i < j < |t| ==> name(t[i]) != name(t[j])
  {
    assert NoDuplicates(s);
    forall i, j | 0 <= i < j < |t| ensures name(t[i]) != name(t[j]) {
      if t[i] == t[j] {
        DuplicateCount(t, i, j);
        NoDuplicatesCount(s, t[i]);
        assert false;
      }
      assert t[i] in multiset(s) && t[j] in multiset(s);
      var p :| 0 <= p < |s| && s[p] == t[i];
      var q :| 0 <= q < |s| && s[q] == t[j];
      assert p != q;
    }
  }
}
